/** The choropleth renderer's data logic: the metric extent, the binned
    colour `getColor` (which, unlike the bubble renderer's, neither guards a
    zero range nor clamps), the region lookup behind each feature's fill and
    popup, and the rounded legend labels. */
module ChoroplethMap {
  import opened Wrappers
  import opened DataCells
  import opened ColorScale

  /** A data row, seen through the region and metric columns the form
      selects. */
  datatype RegionRow = RegionRow(region: Cell<string>, metric: Cell<real>)

  /** The fill of a feature no row matches, or whose row has no metric. */
  const DefaultFill := "#ccc"

  /** `[min, max]` over `data.map(item => item[metric_column])`, where a
      `null` metric counts as 0. None when there are no rows (the source
      gets `Infinity` and `-Infinity`) or some metric is `undefined` (the
      source gets `NaN`). */
  function MetricExtent(rows: seq<RegionRow>): (e: Option<Extent>)
    ensures e.Some? <==> rows != [] && forall i :: 0 <= i < |rows| ==> rows[i].metric != Undefined
    ensures e.Some? ==> forall i :: 0 <= i < |rows| ==> e.value.min <= NumberOf(rows[i].metric).value <= e.value.max
    ensures e.Some? ==> exists i :: 0 <= i < |rows| && NumberOf(rows[i].metric).value == e.value.min
    ensures e.Some? ==> exists i :: 0 <= i < |rows| && NumberOf(rows[i].metric).value == e.value.max
  {
    if exists i :: 0 <= i < |rows| && rows[i].metric.Undefined? then None
    else
      var values := seq(|rows|, i requires 0 <= i < |rows| => NumberOf(rows[i].metric).value);
      assert forall i :: 0 <= i < |rows| ==> values[i] == NumberOf(rows[i].metric).value;
      var e := ExtentOf(values);
      if e.Some? then
        var lo :| 0 <= lo < |values| && values[lo] == e.value.min;
        var hi :| 0 <= hi < |values| && values[hi] == e.value.max;
        assert NumberOf(rows[lo].metric).value == e.value.min && NumberOf(rows[hi].metric).value == e.value.max;
        e
      else
        e
  }

  /** The index `getColor` computes, `floor((value - min) / (max - min) * 9)`.
      None when `max == min`: the ratio is then `0 / 0` or infinite and no
      shade is found. */
  function ShadeIndex(value: real, e: Extent): (r: Option<int>)
    ensures r.None? <==> e.min == e.max
  {
    if e.max == e.min then None else Some(ScaledIndex(Ratio(value, e.min, e.max)))
  }

  /** Inside a proper extent the index is a palette position: the minimum
      gets the first shade and the maximum the last. */
  lemma ShadeIndexInRange(value: real, e: Extent)
    requires e.min < e.max && e.min <= value <= e.max
    ensures ShadeIndex(value, e).Some? && 0 <= ShadeIndex(value, e).value <= TopShade
    ensures value == e.min ==> ShadeIndex(value, e) == Some(0)
    ensures value == e.max ==> ShadeIndex(value, e) == Some(TopShade)
  {
    RatioBounds(value, e.min, e.max);
  }

  /** `getColor`: the shade at the index, or `undefined` (None) when there
      is no index, it lies outside the palette, or the extent is not a
      number. */
  function Color(value: real, extent: Option<Extent>): (c: Option<string>)
    ensures c.Some? ==> c.value in ColorShades
  {
    if extent.None? then None
    else
      match ShadeIndex(value, extent.value)
      case Some(i) => if 0 <= i < |ColorShades| then Some(ColorShades[i]) else None
      case None => None
  }

  /** With a proper extent some row's metric gets the first shade and some
      row's metric the last. */
  lemma ExtremeRowsShaded(rows: seq<RegionRow>)
    requires MetricExtent(rows).Some? && MetricExtent(rows).value.min < MetricExtent(rows).value.max
    ensures exists i :: 0 <= i < |rows| && ShadeIndex(NumberOf(rows[i].metric).value, MetricExtent(rows).value) == Some(0)
    ensures exists i :: 0 <= i < |rows| && ShadeIndex(NumberOf(rows[i].metric).value, MetricExtent(rows).value) == Some(TopShade)
  {
    var e := MetricExtent(rows).value;
    var lo :| 0 <= lo < |rows| && NumberOf(rows[lo].metric).value == e.min;
    var hi :| 0 <= hi < |rows| && NumberOf(rows[hi].metric).value == e.max;
    ShadeIndexInRange(e.min, e);
    ShadeIndexInRange(e.max, e);
  }

  /** In a proper extent shade `i` holds exactly the values from legend
      threshold `i` up to, not including, threshold `i + 1`. */
  lemma ShadeIndexBucket(v: real, e: Extent, i: int)
    requires e.min < e.max
    ensures ShadeIndex(v, e) == Some(i) <==> Threshold(e, i) <= v < Threshold(e, i + 1)
  {
    ShadeBucket(e, v, i);
  }

  /** A larger value never gets a lower shade. */
  lemma ShadeIndexMonotone(v1: real, v2: real, e: Extent)
    requires e.min < e.max && v1 <= v2
    ensures ShadeIndex(v1, e).value <= ShadeIndex(v2, e).value
  {
    RatioMonotone(v1, v2, e.min, e.max);
    ScaledIndexMonotone(Ratio(v1, e.min, e.max), Ratio(v2, e.min, e.max));
  }

  /** `data.find(item => item[region_column] === featureLabel)`, as an index: the
      first row whose region equals the feature's label. */
  function FindRegion(rows: seq<RegionRow>, featureLabel: Cell<string>): (r: Option<nat>)
    ensures r.Some? ==> r.value < |rows| && rows[r.value].region == featureLabel
    ensures r.Some? ==> forall j :: 0 <= j < r.value ==> rows[j].region != featureLabel
    ensures r.None? <==> forall j :: 0 <= j < |rows| ==> rows[j].region != featureLabel
  {
    if rows == [] then None
    else if rows[0].region == featureLabel then Some(0)
    else
      match FindRegion(rows[1..], featureLabel)
      case Some(k) => Some(k + 1)
      case None => None
  }

  /** The `fillColor` of the feature labelled `featureLabel`: the colour of the
      first matching row's metric (`null` read as 0), or the grey default
      when no row matches or its metric is `undefined`. The fill is always
      the grey default or a palette shade, when it is defined at all. */
  function FillColor(rows: seq<RegionRow>, featureLabel: Cell<string>): (c: Option<string>)
    ensures c.Some? ==> c.value == DefaultFill || c.value in ColorShades
    ensures c.None? <==>
              FindRegion(rows, featureLabel).Some? && rows[FindRegion(rows, featureLabel).value].metric != Undefined &&
              (MetricExtent(rows).None? || MetricExtent(rows).value.min == MetricExtent(rows).value.max)
  {
    match FindRegion(rows, featureLabel)
    case Some(k) =>
      if rows[k].metric != Undefined then
        var value := NumberOf(rows[k].metric).value;
        var e := MetricExtent(rows);
        assert e.Some? && e.value.min != e.value.max ==> Color(value, e).Some? by {
          if e.Some? && e.value.min != e.value.max {
            ShadeIndexInRange(value, e.value);
          }
        }
        Color(value, e)
      else
        Some(DefaultFill)
    case None => Some(DefaultFill)
  }

  /** Whether `onEachFeature` binds a popup to the feature labelled
      `featureLabel`: exactly when some row's region is that label. */
  function PopupBound(rows: seq<RegionRow>, featureLabel: Cell<string>): (b: bool)
    ensures b <==> exists j :: 0 <= j < |rows| && rows[j].region == featureLabel
  {
    FindRegion(rows, featureLabel).Some?
  }

  /** A feature is grey exactly when no row matches it or the matching row's
      metric is `undefined`; otherwise its fill is a palette shade or
      undefined. */
  lemma FillGreyIffNoValue(rows: seq<RegionRow>, featureLabel: Cell<string>)
    ensures FillColor(rows, featureLabel) == Some(DefaultFill) <==>
              FindRegion(rows, featureLabel).None? || rows[FindRegion(rows, featureLabel).value].metric.Undefined?
  {
    assert DefaultFill !in ColorShades;
  }

  /** With every metric defined and a proper extent, a matched feature is
      filled with the shade of the first matching row's metric. */
  lemma FillFromFirstMatch(rows: seq<RegionRow>, featureLabel: Cell<string>, k: nat)
    requires k < |rows| && rows[k].region == featureLabel
    requires forall j :: 0 <= j < k ==> rows[j].region != featureLabel
    requires forall j :: 0 <= j < |rows| ==> rows[j].metric != Undefined
    requires MetricExtent(rows).value.min < MetricExtent(rows).value.max
    ensures 0 <= ShadeIndex(NumberOf(rows[k].metric).value, MetricExtent(rows).value).value <= TopShade
    ensures FillColor(rows, featureLabel) == Some(ColorShades[ShadeIndex(NumberOf(rows[k].metric).value, MetricExtent(rows).value).value])
    ensures PopupBound(rows, featureLabel)
  {
    assert FindRegion(rows, featureLabel) == Some(k);
    var e := MetricExtent(rows).value;
    ShadeIndexInRange(NumberOf(rows[k].metric).value, e);
  }

  /** A matched row whose metric is `null` passes the `!== undefined` guard
      and is coloured as the value 0, which the extent then contains. */
  lemma NullMetricShadedAsZero(rows: seq<RegionRow>, featureLabel: Cell<string>, k: nat)
    requires k < |rows| && rows[k].region == featureLabel
    requires forall j :: 0 <= j < k ==> rows[j].region != featureLabel
    requires rows[k].metric == Null
    ensures FillColor(rows, featureLabel) == Color(0.0, MetricExtent(rows))
    ensures MetricExtent(rows).Some? ==> MetricExtent(rows).value.min <= 0.0 <= MetricExtent(rows).value.max
  {
    assert FindRegion(rows, featureLabel) == Some(k);
    if MetricExtent(rows).Some? {
      assert NumberOf(rows[k].metric).value == 0.0;
    }
  }

  /** With a constant metric the matched feature gets no fill colour at all:
      the unguarded division has nothing to scale. */
  lemma ConstantMetricHasNoFill(rows: seq<RegionRow>, featureLabel: Cell<string>, m: real)
    requires rows != [] && forall j :: 0 <= j < |rows| ==> NumberOf(rows[j].metric) == Some(m)
    requires FindRegion(rows, featureLabel).Some?
    ensures FillColor(rows, featureLabel).None?
  {
    var e := MetricExtent(rows).value;
    assert NumberOf(rows[0].metric).value == m;
  }

  /** One `undefined` metric anywhere makes the extent `NaN`, so every
      matched feature whose own metric is defined loses its fill colour. */
  lemma UndefinedMetricBlanksFill(rows: seq<RegionRow>, featureLabel: Cell<string>, j: nat)
    requires j < |rows| && rows[j].metric == Undefined
    requires FindRegion(rows, featureLabel).Some? && rows[FindRegion(rows, featureLabel).value].metric != Undefined
    ensures FillColor(rows, featureLabel).None?
  {
  }

  /** A feature no row matches has no popup and the default fill. */
  lemma UnmatchedFeature(rows: seq<RegionRow>, featureLabel: Cell<string>)
    requires forall j :: 0 <= j < |rows| ==> rows[j].region != featureLabel
    ensures !PopupBound(rows, featureLabel) && FillColor(rows, featureLabel) == Some(DefaultFill)
  {
  }

  /** The legend labels `Math.round(min + (i / 9) * (max - min))`. */
  function LegendLabels(e: Extent): (l: seq<int>)
    ensures |l| == |ColorShades|
    ensures forall i :: 0 <= i < |l| ==> l[i] == Round(Threshold(e, i))
  {
    seq(|ColorShades|, i => Round(Threshold(e, i)))
  }

  /** The first label is the rounded minimum and the last the rounded
      maximum; the labels never decrease. */
  lemma LegendLabelsSpan(e: Extent, i: int)
    requires e.min <= e.max && 0 < i < |ColorShades|
    ensures LegendLabels(e)[0] == Round(e.min) && LegendLabels(e)[TopShade] == Round(e.max)
    ensures LegendLabels(e)[i - 1] <= LegendLabels(e)[i]
  {
    ThresholdAscending(e, i);
    RoundMonotone(Threshold(e, i - 1), Threshold(e, i));
  }

  /** The unrounded threshold of label `i` is coloured with shade `i`. */
  lemma LegendMatchesShades(e: Extent, i: int)
    requires e.min < e.max
    ensures ShadeIndex(Threshold(e, i), e) == Some(i)
  {
    ThresholdShade(e, i);
  }
}
