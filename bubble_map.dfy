/** The bubble renderer's data logic: the metric extent, the binned colour
    of each bubble (`getColorBySize`, which guards a zero range and clamps
    the top shade), the legend thresholds, and which rows become markers
    with what radius. */
module BubbleMap {
  import opened Wrappers
  import opened DataCells
  import opened ColorScale

  /** A data row, seen through the latitude, longitude and metric columns
      the form selects. */
  datatype BubbleRow = BubbleRow(lat: Cell<real>, lng: Cell<real>, metric: Cell<real>)

  /** A circle marker: its centre as the two cells it was given (either may
      be `null`), its radius, and its colour (`None` when the palette lookup
      yields `undefined`). */
  datatype Marker = Marker(lat: Cell<real>, lng: Cell<real>, radius: real, color: Option<string>)

  /** The values the extent is taken over, one per row. */
  function MetricValues(rows: seq<BubbleRow>): (values: seq<real>)
    ensures |values| == |rows|
    ensures forall i :: 0 <= i < |rows| ==> values[i] == OrZero(rows[i].metric)
  {
    seq(|rows|, i requires 0 <= i < |rows| => OrZero(rows[i].metric))
  }

  /** `[minMetric, maxMetric]`: none when there are no rows, otherwise two
      of the rows' values that enclose all of them. */
  function MetricExtent(rows: seq<BubbleRow>): (e: Option<Extent>)
    ensures e.Some? <==> rows != []
    ensures e.Some? ==> forall i :: 0 <= i < |rows| ==> e.value.min <= OrZero(rows[i].metric) <= e.value.max
    ensures e.Some? ==> exists i :: 0 <= i < |rows| && OrZero(rows[i].metric) == e.value.min
    ensures e.Some? ==> exists i :: 0 <= i < |rows| && OrZero(rows[i].metric) == e.value.max
  {
    var values := MetricValues(rows);
    var e := ExtentOf(values);
    if e.Some? then
      var lo :| 0 <= lo < |values| && values[lo] == e.value.min;
      var hi :| 0 <= hi < |values| && values[hi] == e.value.max;
      assert OrZero(rows[lo].metric) == e.value.min && OrZero(rows[hi].metric) == e.value.max;
      e
    else
      e
  }

  /** The shade index `getColorBySize` computes: the position of `value` in
      `[min, max]` scaled to the palette, floored, and capped at the top
      shade; a zero range puts every value at shade 0. */
  function ShadeIndex(value: real, min: real, max: real): (i: int)
    ensures i <= TopShade
    ensures min == max ==> i == 0
  {
    var normalized := if max - min != 0.0 then Ratio(value, min, max) else 0.0;
    var scaled := ScaledIndex(normalized);
    if TopShade <= scaled then TopShade else scaled
  }

  /** Inside a proper extent the index is a palette position: the minimum
      gets the first shade and the maximum the last. */
  lemma ShadeIndexInRange(value: real, min: real, max: real)
    requires min < max && min <= value <= max
    ensures 0 <= ShadeIndex(value, min, max) <= TopShade
    ensures value == min ==> ShadeIndex(value, min, max) == 0
    ensures value == max ==> ShadeIndex(value, min, max) == TopShade
  {
    RatioBounds(value, min, max);
  }

  /** In a proper extent the index is negative exactly below the minimum. */
  lemma ShadeIndexNegativeIff(value: real, min: real, max: real)
    ensures min < max ==> (ShadeIndex(value, min, max) < 0 <==> value < min)
  {
    if min < max {
      RatioNegativeIff(value, min, max);
    }
  }

  /** `getColorBySize`: the shade at the index, `undefined` below shade 0.
      A zero range colours everything with the first shade; in a proper
      extent a value gets a shade exactly when it is not below the minimum,
      values above the maximum being capped to the last shade. */
  function ColorBySize(value: real, min: real, max: real): (c: Option<string>)
    ensures c.Some? ==> c.value in ColorShades
    ensures min == max ==> c == Some(ColorShades[0])
    ensures min < max ==> (c.Some? <==> min <= value)
  {
    var i := ShadeIndex(value, min, max);
    ShadeIndexNegativeIff(value, min, max);
    if 0 <= i then Some(ColorShades[i]) else None
  }

  /** A larger value never gets a lower shade. */
  lemma ShadeIndexMonotone(v1: real, v2: real, min: real, max: real)
    requires min <= max && v1 <= v2
    ensures ShadeIndex(v1, min, max) <= ShadeIndex(v2, min, max)
  {
    if min < max {
      RatioMonotone(v1, v2, min, max);
      ScaledIndexMonotone(Ratio(v1, min, max), Ratio(v2, min, max));
    }
  }

  /** With min 0 and max 100, the value 55 falls in shade 4. */
  lemma ShadeIndexExample()
    ensures ShadeIndex(55.0, 0.0, 100.0) == 4
  {
    assert Ratio(55.0, 0.0, 100.0) == 0.55;
  }

  /** Every row's value lies within the extent, so every row gets a shade. */
  lemma EveryRowShaded(rows: seq<BubbleRow>, k: int)
    requires 0 <= k < |rows|
    ensures MetricExtent(rows).Some?
    ensures ColorBySize(OrZero(rows[k].metric), MetricExtent(rows).value.min, MetricExtent(rows).value.max).Some?
  {
    var e := MetricExtent(rows).value;
    assert e.min <= OrZero(rows[k].metric) <= e.max;
  }

  /** The legend values `min + i * (max - min) / 9`, one per shade. */
  function LegendValues(e: Extent): (l: seq<real>)
    ensures |l| == |ColorShades|
  {
    seq(|ColorShades|, i => e.min + (i as real * (e.max - e.min)) / TopShade as real)
  }

  /** Legend value `i` is the threshold of shade `i`: the first is the
      minimum, the last the maximum, and they never decrease. */
  lemma LegendValuesAreThresholds(e: Extent, i: int)
    requires e.min <= e.max && 0 <= i < |ColorShades|
    ensures LegendValues(e)[i] == Threshold(e, i)
    ensures LegendValues(e)[0] == e.min && LegendValues(e)[TopShade] == e.max
    ensures i > 0 ==> LegendValues(e)[i - 1] <= LegendValues(e)[i]
  {
    var range := e.max - e.min;
    forall k | 0 <= k < |ColorShades|
      ensures LegendValues(e)[k] == Threshold(e, k)
    {
      assert (k as real * range) / TopShade as real == (k as real / TopShade as real) * range;
    }
    ThresholdAscending(e, i);
  }

  /** Below the top shade, shade `i` holds exactly the values from legend
      threshold `i` up to, not including, threshold `i + 1`. */
  lemma ShadeIndexBucket(v: real, e: Extent, i: int)
    requires e.min < e.max && 0 <= i < TopShade
    ensures ShadeIndex(v, e.min, e.max) == i <==> Threshold(e, i) <= v < Threshold(e, i + 1)
  {
    ShadeBucket(e, v, i);
  }

  /** The capped top shade holds every value from its legend threshold, the
      maximum, upwards. */
  lemma TopShadeBucket(v: real, e: Extent)
    requires e.min < e.max
    ensures ShadeIndex(v, e.min, e.max) == TopShade <==> Threshold(e, TopShade) <= v
  {
    ThresholdReached(e, v, TopShade);
  }

  /** The legend inverts the colour scale: value `i` is coloured with shade `i`. */
  lemma LegendMatchesShades(e: Extent, i: int)
    requires e.min < e.max && 0 <= i < |ColorShades|
    ensures ShadeIndex(LegendValues(e)[i], e.min, e.max) == i
  {
    LegendValuesAreThresholds(e, i);
    ThresholdShade(e, i);
  }

  /** `metricValue || 10`, the radius of a bubble: its metric, or 10 when
      that is 0, `null` or `undefined`. */
  function Radius(row: BubbleRow): (r: real)
    ensures row.metric.Value? && row.metric.value != 0.0 ==> r == row.metric.value
    ensures !row.metric.Value? || row.metric.value == 0.0 ==> r == 10.0
  {
    var metricValue := OrZero(row.metric);
    if metricValue != 0.0 then metricValue else 10.0
  }

  /** The marker a row produces in the extent `e`: one exactly when neither
      its latitude nor its longitude is `undefined` (a `null` passes the
      guard), centred on those two cells. */
  function MarkerFor(row: BubbleRow, e: Extent): (m: Option<Marker>)
    ensures m.Some? <==> row.lat != Undefined && row.lng != Undefined
    ensures m.Some? ==> m.value.lat == row.lat && m.value.lng == row.lng && m.value.radius == Radius(row)
    ensures m.Some? && e.min <= OrZero(row.metric) <= e.max ==>
              m.value.color.Some? && m.value.color.value in ColorShades
  {
    if row.lat != Undefined && row.lng != Undefined then
      Some(Marker(row.lat, row.lng, Radius(row), ColorBySize(OrZero(row.metric), e.min, e.max)))
    else
      None
  }

  /** The markers of all rows, one slot per row: a row whose latitude or
      longitude is `undefined` yields nothing; every drawn marker sits on its
      row's cells, has the radius rule's size and the shade of its row's
      value in the extent of all rows, which is always a palette shade. */
  function Markers(rows: seq<BubbleRow>): (ms: seq<Option<Marker>>)
    ensures |ms| == |rows|
    ensures forall i :: 0 <= i < |rows| ==> (ms[i].Some? <==> rows[i].lat != Undefined && rows[i].lng != Undefined)
    ensures forall i :: 0 <= i < |rows| && ms[i].Some? ==>
              ms[i].value.lat == rows[i].lat && ms[i].value.lng == rows[i].lng &&
              ms[i].value.radius == Radius(rows[i]) &&
              ms[i].value.color == ColorBySize(OrZero(rows[i].metric), MetricExtent(rows).value.min, MetricExtent(rows).value.max) &&
              ms[i].value.color.Some? && ms[i].value.color.value in ColorShades
  {
    if rows == [] then []
    else
      var e := MetricExtent(rows).value;
      var ms := seq(|rows|, i requires 0 <= i < |rows| => MarkerFor(rows[i], e));
      assert forall i :: 0 <= i < |rows| ==> e.min <= OrZero(rows[i].metric) <= e.max;
      ms
  }

  /** A row whose latitude is `null` still gets a marker, at `[null, lng]`:
      only `undefined` is filtered out. */
  lemma NullLatitudeDrawn(rows: seq<BubbleRow>, k: int)
    requires 0 <= k < |rows| && rows[k].lat == Null && rows[k].lng.Value?
    ensures Markers(rows)[k].Some?
    ensures Markers(rows)[k].value.lat == Null && Markers(rows)[k].value.lng == rows[k].lng
  {
  }
}
