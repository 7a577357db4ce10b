/** What the bubble and choropleth renderers share: the ten-shade palette,
    the data extent `[Math.min(...values), Math.max(...values)]`, and
    JavaScript's `Math.round`. Numbers are modelled as `real`. */
module ColorScale {
  import opened Wrappers

  /** The palette both renderers bin values into, lightest first. */
  const ColorShades: seq<string> := [
    "#F7BC07", "#F0A520", "#EA8E39", "#E27752", "#DB606B",
    "#D44984", "#CE329D", "#B52A8E", "#9D237E", "#C60076"
  ]

  /** The highest shade index, `colorShades.length - 1`. */
  const TopShade: int := |ColorShades| - 1

  /** The smallest and the largest metric value of a render pass. */
  datatype Extent = Extent(min: real, max: real)

  /** `Math.min(...values)` for a non-empty list. */
  function Minimum(values: seq<real>): (m: real)
    requires values != []
    ensures m in values
    ensures forall i :: 0 <= i < |values| ==> m <= values[i]
  {
    if |values| == 1 then values[0]
    else
      var rest := Minimum(values[1..]);
      if values[0] <= rest then values[0] else rest
  }

  /** `Math.max(...values)` for a non-empty list. */
  function Maximum(values: seq<real>): (m: real)
    requires values != []
    ensures m in values
    ensures forall i :: 0 <= i < |values| ==> values[i] <= m
  {
    if |values| == 1 then values[0]
    else
      var rest := Maximum(values[1..]);
      if values[0] >= rest then values[0] else rest
  }

  /** The extent of `values`; none for an empty list, where the source gets
      `Infinity` and `-Infinity`. */
  function ExtentOf(values: seq<real>): (e: Option<Extent>)
    ensures e.Some? <==> values != []
    ensures e.Some? ==> e.value.min <= e.value.max
    ensures e.Some? ==> e.value.min in values && e.value.max in values
    ensures e.Some? ==> forall i :: 0 <= i < |values| ==> e.value.min <= values[i] <= e.value.max
  {
    if values == [] then None else Some(Extent(Minimum(values), Maximum(values)))
  }

  /** `(value - min) / (max - min)`: where `value` sits in the extent. */
  function Ratio(value: real, min: real, max: real): (r: real)
    requires min != max
    ensures r * (max - min) == value - min
  {
    (value - min) / (max - min)
  }

  /** A value of a proper extent sits between 0 and 1, at 0 for the
      minimum and at 1 for the maximum. */
  lemma RatioBounds(value: real, min: real, max: real)
    requires min < max && min <= value <= max
    ensures 0.0 <= Ratio(value, min, max) <= 1.0
    ensures value == min ==> Ratio(value, min, max) == 0.0
    ensures value == max ==> Ratio(value, min, max) == 1.0
  {
    RatioNegativeIff(value, min, max);
    RatioMonotone(value, max, min, max);
    RatioOfFraction(0.0, min, max);
    RatioOfFraction(1.0, min, max);
    assert min + 0.0 * (max - min) == min && min + 1.0 * (max - min) == max;
    assert Ratio(max, min, max) == 1.0;
  }

  /** In a proper extent a larger value never sits lower. */
  lemma RatioMonotone(v1: real, v2: real, min: real, max: real)
    requires min < max && v1 <= v2
    ensures Ratio(v1, min, max) <= Ratio(v2, min, max)
  {
  }

  /** Below the minimum of a proper extent the ratio is negative, and only there. */
  lemma RatioNegativeIff(value: real, min: real, max: real)
    requires min < max
    ensures Ratio(value, min, max) < 0.0 <==> value < min
  {
  }

  /** The value at fraction `f` of the extent sits at fraction `f`. */
  lemma RatioOfFraction(f: real, min: real, max: real)
    requires min != max
    ensures Ratio(min + f * (max - min), min, max) == f
  {
    var r := Ratio(min + f * (max - min), min, max);
    var range := max - min;
    assert (r - f) * range == 0.0;
  }

  /** `Math.floor(normalized * (colorShades.length - 1))`. */
  function ScaledIndex(normalized: real): (i: int)
    ensures 0.0 <= normalized <= 1.0 ==> 0 <= i <= TopShade
    ensures normalized == 0.0 ==> i == 0
    ensures normalized == 1.0 ==> i == TopShade
  {
    (normalized * TopShade as real).Floor
  }

  /** Scaling and flooring keep the order of the fractions. */
  lemma ScaledIndexMonotone(x: real, y: real)
    requires x <= y
    ensures ScaledIndex(x) <= ScaledIndex(y)
  {
  }

  /** Shade `i`'s own fraction `i / (colorShades.length - 1)` lands on `i`. */
  lemma ScaledIndexOfShade(i: int)
    ensures ScaledIndex(i as real / TopShade as real) == i
  {
    assert (i as real / TopShade as real) * TopShade as real == i as real;
  }

  /** The legend threshold of shade `i`: the point at fraction
      `i / (colorShades.length - 1)` of the extent. */
  function Threshold(e: Extent, i: int): real {
    e.min + (i as real / TopShade as real) * (e.max - e.min)
  }

  /** The threshold of shade `i` is itself binned into shade `i`. */
  lemma ThresholdShade(e: Extent, i: int)
    requires e.min < e.max
    ensures ScaledIndex(Ratio(Threshold(e, i), e.min, e.max)) == i
  {
    var f := i as real / TopShade as real;
    RatioOfFraction(f, e.min, e.max);
    assert Threshold(e, i) == e.min + f * (e.max - e.min);
    assert Ratio(Threshold(e, i), e.min, e.max) == f;
    ScaledIndexOfShade(i);
    assert ScaledIndex(f) == i;
  }

  /** Thresholds never decrease along the palette. */
  lemma ThresholdAscending(e: Extent, i: int)
    requires e.min <= e.max
    ensures Threshold(e, i - 1) <= Threshold(e, i)
  {
  }

  /** In a proper extent the ratio orders values exactly as they are ordered. */
  lemma RatioOrder(v1: real, v2: real, min: real, max: real)
    requires min < max
    ensures Ratio(v1, min, max) <= Ratio(v2, min, max) <==> v1 <= v2
  {
    if v1 <= v2 {
      RatioMonotone(v1, v2, min, max);
    } else {
      RatioNegativeIff(v2 - v1 + min, min, max);
      assert Ratio(v2 - v1 + min, min, max) == Ratio(v2, min, max) - Ratio(v1, min, max);
    }
  }

  /** A value is binned into shade `i` or a later one exactly when it is at
      least the legend threshold of shade `i`. */
  lemma ThresholdReached(e: Extent, v: real, i: int)
    requires e.min < e.max
    ensures ScaledIndex(Ratio(v, e.min, e.max)) >= i <==> Threshold(e, i) <= v
  {
    var f := i as real / TopShade as real;
    RatioOfFraction(f, e.min, e.max);
    assert Threshold(e, i) == e.min + f * (e.max - e.min);
    assert Ratio(Threshold(e, i), e.min, e.max) == f;
    RatioOrder(Threshold(e, i), v, e.min, e.max);
  }

  /** Shade `i` holds exactly the values from threshold `i` up to, not
      including, threshold `i + 1`: the legend thresholds are the bucket
      boundaries. */
  lemma ShadeBucket(e: Extent, v: real, i: int)
    requires e.min < e.max
    ensures ScaledIndex(Ratio(v, e.min, e.max)) == i <==> Threshold(e, i) <= v < Threshold(e, i + 1)
  {
    ThresholdReached(e, v, i);
    ThresholdReached(e, v, i + 1);
  }

  /** `Math.round`: the nearest integer, halves rounding up. */
  function Round(x: real): (r: int)
    ensures r as real - 0.5 <= x < r as real + 0.5
  {
    (x + 0.5).Floor
  }

  /** `Math.floor` and `Math.round` never reverse the order of their arguments. */
  lemma RoundMonotone(x: real, y: real)
    requires x <= y
    ensures Round(x) <= Round(y)
  {
  }
}
