/** The map-type catalog: four map variants, their capability flags, and the
    `buildQuery` rule each one applies to the chart's form data before the
    query runs. `buildQuery` validates the selections in a fixed order, throws
    a variant-specific message when one is missing, and otherwise appends the
    columns it needs to `formData.columns` in place. */
module MapTypes {
  import opened Wrappers

  /** One selection of the form data: absent (`undefined`/`null`) or a string. */
  type Field = Option<string>

  /** JavaScript truthiness of a selection: present and not the empty string. */
  predicate Truthy(f: Field) {
    f.Some? && f.value != ""
  }

  /** The closed set of map variants. */
  datatype MapVariant = Clustering | Heat | Choropleth | Bubble {

    function Key(): string {
      match this
      case Clustering => "clustering_map"
      case Heat => "heat_map"
      case Choropleth => "choropleth_map"
      case Bubble => "bubble_map"
    }

    function Label(): string {
      match this
      case Clustering => "Clustering Map"
      case Heat => "Heat Map"
      case Choropleth => "Choropleth Map"
      case Bubble => "Bubble Map"
    }

    /** The name under which the variant's renderer is registered. */
    function ComponentName(): string {
      match this
      case Clustering => "ClusteringMap"
      case Heat => "HeatMap"
      case Choropleth => "ChoroplethMap"
      case Bubble => "BubbleMap"
    }

    predicate HasLatLongFields() {
      this != Choropleth
    }

    predicate HasRegionField() {
      this == Choropleth
    }

    predicate HasLabelField() {
      this == Clustering
    }

    predicate HasMetricField() {
      this != Clustering
    }
  }

  /** The catalog, in the order the settings panel offers it. */
  const Catalog: seq<MapVariant> := [Clustering, Heat, Choropleth, Bubble]

  /** The selections `buildQuery` reads; it never writes them. */
  datatype Selections = Selections(
    latitude: Field,
    longitude: Field,
    metric: Field,
    geoBoundsUrl: Field,
    geoLabelField: Field,
    region: Field,
    leafletLabels: Option<seq<Field>>)

  /** The chart's form data: fixed selections and the mutable column list,
      which is absent until something is added to it. */
  class FormData {
    const selections: Selections
    var columns: Option<seq<string>>

    constructor (selections: Selections, columns: Option<seq<string>>)
      ensures this.selections == selections && this.columns == columns
    {
      this.selections := selections;
      this.columns := columns;
    }
  }

  /** How a `buildQuery` call ends: normally, or by throwing an error. */
  datatype Outcome = Ok | Thrown(message: string)

  /** The outcome of `buildQuery` together with the column list it leaves. */
  datatype QueryResult = QueryResult(outcome: Outcome, columns: Option<seq<string>>)

  function LatLongMessage(v: MapVariant): string {
    "Latitude and Longitude are required for " + v.Label()
  }

  const HeatMetricMessage := "Metric is required for Heat Map"
  const BubbleMetricMessage := "Metric is required for Bubble Map"
  const GeoBoundsUrlMessage := "Geo Bounds URL is required for Choropleth Map"
  const GeoLabelFieldMessage := "Geo Label Field is required for Choropleth Map"
  const ChoroplethMetricMessage := "Metric (Value) is required for Choropleth Map"
  const RegionMessage := "Region is required for Choropleth Map"

  // ---------------------------------------------------------------------
  // Specification of addColumns

  /** One iteration of the `forEach`: push `item` unless it is falsy or present. */
  function Step(columns: seq<string>, item: Field): seq<string> {
    if Truthy(item) && item.value !in columns then columns + [item.value] else columns
  }

  /** The column list after the `forEach` over `items`. */
  function Appended(columns: seq<string>, items: seq<Field>): seq<string>
    decreases |items|
  {
    if items == [] then columns else Appended(Step(columns, items[0]), items[1..])
  }

  /** `formData.columns` after `addColumns(formData, items)`: a null list
      changes nothing; otherwise a missing column list starts out empty. */
  function ColumnsAfterAdd(columns: Option<seq<string>>, items: Option<seq<Field>>): (r: Option<seq<string>>)
    ensures items.None? ==> r == columns
    ensures items.Some? ==> r.Some? && columns.GetOr([]) <= r.value
    ensures items.Some? && NoDuplicates(columns.GetOr([])) ==> NoDuplicates(r.value)
  {
    if items.None? then columns
    else
      var start := columns.GetOr([]);
      AppendedExtends(start, items.value);
      assert NoDuplicates(start) ==> NoDuplicates(Appended(start, items.value)) by {
        if NoDuplicates(start) {
          AppendedDistinct(start, items.value);
        }
      }
      Some(Appended(start, items.value))
  }

  predicate NoDuplicates(s: seq<string>) {
    forall i, j :: 0 <= i < j < |s| ==> s[i] != s[j]
  }

  /** The position of the first occurrence of `Some(x)` in `items`. */
  function FirstIndex(items: seq<Field>, x: string): (k: nat)
    requires Some(x) in items
    ensures k < |items| && items[k] == Some(x)
    ensures forall j :: 0 <= j < k ==> items[j] != Some(x)
  {
    if items[0] == Some(x) then 0 else 1 + FirstIndex(items[1..], x)
  }

  // ---------------------------------------------------------------------
  // Specification of buildQuery

  /** `MapType.buildQuery`, the base check shared by the variants with
      latitude/longitude fields. */
  function BaseQuery(v: MapVariant, s: Selections, columns: Option<seq<string>>): (r: QueryResult)
    ensures r.outcome.Ok? <==> Truthy(s.latitude) && Truthy(s.longitude)
    ensures r.outcome.Thrown? ==> r.outcome.message == LatLongMessage(v) && r.columns == columns
    ensures r.outcome.Ok? ==>
              r.columns.Some? && columns.GetOr([]) <= r.columns.value &&
              s.latitude.value in r.columns.value && s.longitude.value in r.columns.value
  {
    if !Truthy(s.latitude) || !Truthy(s.longitude) then
      QueryResult(Thrown(LatLongMessage(v)), columns)
    else
      var latLong := [s.latitude, s.longitude];
      AppendedMembers(columns.GetOr([]), latLong, s.latitude.value);
      AppendedMembers(columns.GetOr([]), latLong, s.longitude.value);
      QueryResult(Ok, ColumnsAfterAdd(columns, Some(latLong)))
  }

  /** The `buildQuery` of variant `v`. On success the old columns stay a
      prefix of the new list; an error leaves the columns as they were,
      except that the variants with latitude/longitude fields may already
      have appended those two. */
  function Query(v: MapVariant, s: Selections, columns: Option<seq<string>>): (r: QueryResult)
    ensures r.outcome.Ok? ==> r.columns.Some? && columns.GetOr([]) <= r.columns.value
    ensures r.outcome.Thrown? ==>
              r.columns == columns || (v.HasLatLongFields() && r.columns == BaseQuery(v, s, columns).columns)
  {
    match v
    case Clustering =>
      var base := BaseQuery(v, s, columns);
      if base.outcome.Thrown? then base
      else QueryResult(Ok, ColumnsAfterAdd(base.columns, s.leafletLabels))
    case Heat =>
      var base := BaseQuery(v, s, columns);
      if base.outcome.Thrown? then base
      else if !Truthy(s.metric) then QueryResult(Thrown(HeatMetricMessage), base.columns)
      else base
    case Choropleth =>
      if !Truthy(s.geoBoundsUrl) then QueryResult(Thrown(GeoBoundsUrlMessage), columns)
      else if !Truthy(s.geoLabelField) then QueryResult(Thrown(GeoLabelFieldMessage), columns)
      else if !Truthy(s.metric) then QueryResult(Thrown(ChoroplethMetricMessage), columns)
      else if !Truthy(s.region) then QueryResult(Thrown(RegionMessage), columns)
      else QueryResult(Ok, ColumnsAfterAdd(columns, Some([s.region])))
    case Bubble =>
      var base := BaseQuery(v, s, columns);
      if base.outcome.Thrown? then base
      else if !Truthy(s.metric) then QueryResult(Thrown(BubbleMetricMessage), base.columns)
      else base
  }

  // ---------------------------------------------------------------------
  // The operations, on the mutable form data

  /** `addColumns`: append each truthy item not yet present, in order. */
  method AddColumns(formData: FormData, items: Option<seq<Field>>)
    modifies formData`columns
    ensures formData.columns == ColumnsAfterAdd(old(formData.columns), items)
  {
    if items.None? {
      return;
    }
    var list := items.value;
    if formData.columns.None? {
      formData.columns := Some([]);
    }
    ghost var start := formData.columns.value;
    var i := 0;
    while i < |list|
      invariant 0 <= i <= |list|
      invariant formData.columns.Some?
      invariant Appended(formData.columns.value, list[i..]) == Appended(start, list)
    {
      var column := list[i];
      assert list[i..] == [column] + list[i + 1..];
      if Truthy(column) && column.value !in formData.columns.value {
        formData.columns := Some(formData.columns.value + [column.value]);
      }
      i := i + 1;
    }
  }

  /** `MapType.buildQuery`: require latitude and longitude, then add them. */
  method BaseBuildQuery(v: MapVariant, formData: FormData) returns (outcome: Outcome)
    modifies formData`columns
    ensures QueryResult(outcome, formData.columns) == BaseQuery(v, formData.selections, old(formData.columns))
  {
    var s := formData.selections;
    if !Truthy(s.latitude) || !Truthy(s.longitude) {
      return Thrown(LatLongMessage(v));
    }
    AddColumns(formData, Some([s.latitude, s.longitude]));
    return Ok;
  }

  /** The `buildQuery` override of each variant. */
  method BuildQuery(v: MapVariant, formData: FormData) returns (outcome: Outcome)
    modifies formData`columns
    ensures QueryResult(outcome, formData.columns) == Query(v, formData.selections, old(formData.columns))
  {
    var s := formData.selections;
    match v
    case Clustering =>
      outcome := BaseBuildQuery(v, formData);
      if outcome.Thrown? {
        return;
      }
      AddColumns(formData, s.leafletLabels);
    case Heat =>
      outcome := BaseBuildQuery(v, formData);
      if outcome.Thrown? {
        return;
      }
      if !Truthy(s.metric) {
        return Thrown(HeatMetricMessage);
      }
    case Choropleth =>
      if !Truthy(s.geoBoundsUrl) {
        return Thrown(GeoBoundsUrlMessage);
      }
      if !Truthy(s.geoLabelField) {
        return Thrown(GeoLabelFieldMessage);
      }
      if !Truthy(s.metric) {
        return Thrown(ChoroplethMetricMessage);
      }
      if !Truthy(s.region) {
        return Thrown(RegionMessage);
      }
      AddColumns(formData, Some([s.region]));
      outcome := Ok;
    case Bubble =>
      outcome := BaseBuildQuery(v, formData);
      if outcome.Thrown? {
        return;
      }
      if !Truthy(s.metric) {
        return Thrown(BubbleMetricMessage);
      }
  }

  // ---------------------------------------------------------------------
  // Laws of addColumns

  /** The old column list is a prefix of the new one. */
  lemma {:induction false} AppendedExtends(columns: seq<string>, items: seq<Field>)
    ensures columns <= Appended(columns, items)
    decreases |items|
  {
    if items != [] {
      AppendedExtends(Step(columns, items[0]), items[1..]);
    }
  }

  /** A column is in the result exactly when it was there already or it is a
      truthy item of the input. */
  lemma {:induction false} AppendedMembers(columns: seq<string>, items: seq<Field>, x: string)
    ensures x in Appended(columns, items) <==> x in columns || (x != "" && Some(x) in items)
    decreases |items|
  {
    if items != [] {
      AppendedMembers(Step(columns, items[0]), items[1..], x);
      assert items == [items[0]] + items[1..];
    }
  }

  /** Nothing is added twice: a list without duplicates stays so, even when
      the input repeats a column. */
  lemma {:induction false} AppendedDistinct(columns: seq<string>, items: seq<Field>)
    requires NoDuplicates(columns)
    ensures NoDuplicates(Appended(columns, items))
    decreases |items|
  {
    if items != [] {
      AppendedDistinct(Step(columns, items[0]), items[1..]);
    }
  }

  /** Each appended column is new, truthy and taken from the input. */
  lemma {:induction false} AppendedFresh(columns: seq<string>, items: seq<Field>, j: int)
    requires |columns| <= j < |Appended(columns, items)|
    ensures Appended(columns, items)[j] !in columns
    ensures Appended(columns, items)[j] != "" && Some(Appended(columns, items)[j]) in items
    decreases |items|
  {
    var next := Step(columns, items[0]);
    var rest := items[1..];
    assert items == [items[0]] + rest;
    AppendedExtends(next, rest);
    if j >= |next| {
      AppendedFresh(next, rest, j);
    }
  }

  /** Appended columns keep the order of their first occurrence in the input. */
  lemma {:induction false} AppendedOrder(columns: seq<string>, items: seq<Field>, i: int, j: int)
    requires |columns| <= i < j < |Appended(columns, items)|
    ensures Some(Appended(columns, items)[i]) in items && Some(Appended(columns, items)[j]) in items
    ensures FirstIndex(items, Appended(columns, items)[i]) < FirstIndex(items, Appended(columns, items)[j])
    decreases |items|
  {
    var r := Appended(columns, items);
    var next := Step(columns, items[0]);
    var rest := items[1..];
    assert r == Appended(next, rest);
    AppendedFresh(columns, items, i);
    AppendedFresh(columns, items, j);
    AppendedExtends(next, rest);
    AppendedFresh(next, rest, j);
    if i >= |next| {
      AppendedFresh(next, rest, i);
      AppendedOrder(next, rest, i, j);
    }
  }

  /** Adding columns that are all present already changes nothing. */
  lemma {:induction false} AppendedNoop(columns: seq<string>, items: seq<Field>)
    requires forall f :: f in items && Truthy(f) ==> f.value in columns
    ensures Appended(columns, items) == columns
    decreases |items|
  {
    if items != [] {
      assert items[0] in items;
      AppendedNoop(columns, items[1..]);
    }
  }

  /** The forEach is idempotent: a second pass with the same items adds nothing. */
  lemma AppendedIdempotent(columns: seq<string>, items: seq<Field>)
    ensures Appended(Appended(columns, items), items) == Appended(columns, items)
  {
    var once := Appended(columns, items);
    forall f | f in items && Truthy(f)
      ensures f.value in once
    {
      AppendedMembers(columns, items, f.value);
    }
    AppendedNoop(once, items);
  }

  /** `addColumns` is idempotent. */
  lemma AddColumnsIdempotent(columns: Option<seq<string>>, items: Option<seq<Field>>)
    ensures ColumnsAfterAdd(ColumnsAfterAdd(columns, items), items) == ColumnsAfterAdd(columns, items)
  {
    if items.Some? {
      AppendedIdempotent(columns.GetOr([]), items.value);
    }
  }

  /** With a null item list, `addColumns` leaves the form data alone; it does
      not even create the column list. */
  lemma AddColumnsNullItems(columns: Option<seq<string>>)
    ensures ColumnsAfterAdd(columns, None) == columns
  {
  }

  // ---------------------------------------------------------------------
  // Laws of buildQuery

  /** What the capability flags promise `buildQuery` will insist on. */
  predicate RequiredPresent(v: MapVariant, s: Selections) {
    && (v.HasLatLongFields() ==> Truthy(s.latitude) && Truthy(s.longitude))
    && (v.HasMetricField() ==> Truthy(s.metric))
    && (v.HasRegionField() ==> Truthy(s.geoBoundsUrl) && Truthy(s.geoLabelField) && Truthy(s.region))
  }

  /** The selections whose values `buildQuery` may add to the column list. */
  function RequestedFields(v: MapVariant, s: Selections): seq<Field> {
    match v
    case Clustering => [s.latitude, s.longitude] + s.leafletLabels.GetOr([])
    case Heat => [s.latitude, s.longitude]
    case Choropleth => [s.region]
    case Bubble => [s.latitude, s.longitude]
  }

  /** `buildQuery` succeeds exactly when every field its flags require is set. */
  lemma QuerySucceedsIff(v: MapVariant, s: Selections, columns: Option<seq<string>>)
    ensures Query(v, s, columns).outcome == Ok <==> RequiredPresent(v, s)
  {
  }

  /** On success the old columns are kept as a prefix, the requested columns
      are added, nothing else is, and no duplicate is introduced. */
  lemma QuerySuccessColumns(v: MapVariant, s: Selections, columns: Option<seq<string>>, x: string)
    requires Query(v, s, columns).outcome == Ok
    ensures Query(v, s, columns).columns.Some?
    ensures columns.GetOr([]) <= Query(v, s, columns).columns.value
    ensures x in Query(v, s, columns).columns.value <==>
              x in columns.GetOr([]) || (x != "" && Some(x) in RequestedFields(v, s))
    ensures NoDuplicates(columns.GetOr([])) ==> NoDuplicates(Query(v, s, columns).columns.value)
  {
    var old0 := columns.GetOr([]);
    var latLong := [s.latitude, s.longitude];
    if v == Clustering {
      var labels := s.leafletLabels.GetOr([]);
      var mid := Appended(old0, latLong);
      AppendedExtends(old0, latLong);
      AppendedExtends(mid, labels);
      AppendedMembers(old0, latLong, x);
      AppendedMembers(mid, labels, x);
      if NoDuplicates(old0) {
        AppendedDistinct(old0, latLong);
        AppendedDistinct(mid, labels);
      }
      if s.leafletLabels.None? {
        assert RequestedFields(v, s) == latLong;
      } else {
        assert Some(x) in RequestedFields(v, s) <==> Some(x) in latLong || Some(x) in labels;
      }
    } else {
      var items := RequestedFields(v, s);
      AppendedExtends(old0, items);
      AppendedMembers(old0, items, x);
      if NoDuplicates(old0) {
        AppendedDistinct(old0, items);
      }
    }
  }

  /** Heat and bubble maps never add the metric column itself. */
  lemma MetricNotAdded(v: MapVariant, s: Selections, columns: Option<seq<string>>)
    requires v == Heat || v == Bubble
    requires Query(v, s, columns).outcome == Ok
    requires s.metric.value !in columns.GetOr([])
    requires s.metric != s.latitude && s.metric != s.longitude
    ensures s.metric.value !in Query(v, s, columns).columns.value
  {
    QuerySuccessColumns(v, s, columns, s.metric.value);
  }

  /** A variant with latitude/longitude fields checks them before anything
      else, and throws before touching the column list. */
  lemma LatLongCheckedFirst(v: MapVariant, s: Selections, columns: Option<seq<string>>)
    requires v.HasLatLongFields()
    requires !Truthy(s.latitude) || !Truthy(s.longitude)
    ensures Query(v, s, columns) == QueryResult(Thrown(LatLongMessage(v)), columns)
  {
  }

  function MetricMessage(v: MapVariant): string
    requires v == Heat || v == Bubble
  {
    if v == Heat then HeatMetricMessage else BubbleMetricMessage
  }

  /** The metric check of heat and bubble maps runs after latitude and
      longitude have already been appended: the error leaves them in place. */
  lemma MetricCheckedAfterAppend(v: MapVariant, s: Selections, columns: Option<seq<string>>)
    requires v == Heat || v == Bubble
    requires Truthy(s.latitude) && Truthy(s.longitude) && !Truthy(s.metric)
    ensures Query(v, s, columns).outcome == Thrown(MetricMessage(v))
    ensures Query(v, s, columns).columns.Some?
    ensures columns.GetOr([]) <= Query(v, s, columns).columns.value
    ensures s.latitude.value in Query(v, s, columns).columns.value
    ensures s.longitude.value in Query(v, s, columns).columns.value
  {
  }

  /** The choropleth checks, in the order they run, with their messages. */
  function ChoroplethChecks(s: Selections): seq<(Field, string)> {
    [ (s.geoBoundsUrl, GeoBoundsUrlMessage),
      (s.geoLabelField, GeoLabelFieldMessage),
      (s.metric, ChoroplethMetricMessage),
      (s.region, RegionMessage) ]
  }

  /** The first missing choropleth field decides the message, and nothing is
      mutated before it is thrown. */
  lemma ChoroplethFirstMissing(s: Selections, columns: Option<seq<string>>, k: int)
    requires 0 <= k < |ChoroplethChecks(s)|
    requires !Truthy(ChoroplethChecks(s)[k].0)
    requires forall j :: 0 <= j < k ==> Truthy(ChoroplethChecks(s)[j].0)
    ensures Query(Choropleth, s, columns) == QueryResult(Thrown(ChoroplethChecks(s)[k].1), columns)
  {
    var checks := ChoroplethChecks(s);
    if k > 0 { assert Truthy(checks[0].0); }
    if k > 1 { assert Truthy(checks[1].0); }
    if k > 2 { assert Truthy(checks[2].0); }
  }

  /** The choropleth map does not look at latitude or longitude. */
  lemma ChoroplethIgnoresLatLong(s: Selections, columns: Option<seq<string>>, lat: Field, lng: Field)
    ensures Query(Choropleth, s, columns) == Query(Choropleth, s.(latitude := lat, longitude := lng), columns)
  {
  }

  /** Only the variant with a label field reads the label selection. */
  lemma LabelsOnlyWithLabelField(v: MapVariant, s: Selections, columns: Option<seq<string>>, labels: Option<seq<Field>>)
    requires !v.HasLabelField()
    ensures Query(v, s, columns) == Query(v, s.(leafletLabels := labels), columns)
  {
  }

  /** Running `buildQuery` a second time on its own result changes nothing:
      the same outcome, the same columns. */
  lemma {:induction false} QueryIdempotent(v: MapVariant, s: Selections, columns: Option<seq<string>>)
    ensures Query(v, s, Query(v, s, columns).columns) == Query(v, s, columns)
  {
    var latLong := Some([s.latitude, s.longitude]);
    match v
    case Choropleth =>
      AddColumnsIdempotent(columns, Some([s.region]));
    case Clustering =>
      if Truthy(s.latitude) && Truthy(s.longitude) {
        var once := ColumnsAfterAdd(columns, latLong);
        var twice := ColumnsAfterAdd(once, s.leafletLabels);
        AppendedMembers(columns.GetOr([]), latLong.value, s.latitude.value);
        AppendedMembers(columns.GetOr([]), latLong.value, s.longitude.value);
        if s.leafletLabels.Some? {
          AppendedExtends(once.value, s.leafletLabels.value);
        }
        assert s.latitude.value in twice.value && s.longitude.value in twice.value;
        AppendedNoop(twice.value, latLong.value);
        AddColumnsIdempotent(once, s.leafletLabels);
      }
    case Heat =>
      AddColumnsIdempotent(columns, latLong);
    case Bubble =>
      AddColumnsIdempotent(columns, latLong);
  }

  /** Bubble map with latitude "lat", longitude "lon", a metric and no
      columns yields exactly ["lat", "lon"]. */
  lemma BubbleQueryExample(metric: string)
    requires metric != ""
    ensures Query(Bubble, Selections(Some("lat"), Some("lon"), Some(metric), None, None, None, None), None)
            == QueryResult(Ok, Some(["lat", "lon"]))
  {
    var items: seq<Field> := [Some("lat"), Some("lon")];
    assert Step([], items[0]) == ["lat"];
    assert Step(["lat"], items[1]) == ["lat", "lon"];
    assert items[1..][1..] == [];
  }

  // ---------------------------------------------------------------------
  // Laws of the catalog

  /** The capability flags: a variant reads either latitude/longitude or a
      region, never both; the label field belongs to a latitude/longitude
      variant; and every variant but the one with labels has a metric. */
  lemma FlagTable(v: MapVariant)
    ensures v.HasRegionField() <==> !v.HasLatLongFields()
    ensures v.HasLabelField() ==> v.HasLatLongFields()
    ensures v.HasMetricField() <==> !v.HasLabelField()
  {
  }

  /** Four entries, clustering first, distinct keys, every variant listed. */
  lemma CatalogShape(v: MapVariant)
    ensures |Catalog| == 4 && Catalog[0] == Clustering
    ensures forall i, j :: 0 <= i < j < |Catalog| ==> Catalog[i].Key() != Catalog[j].Key()
    ensures v in Catalog
  {
  }

  /** `hasLatLongFields` is set exactly for the variants whose `buildQuery`
      runs the base latitude/longitude check. */
  lemma LatLongFlagMeansBaseCheck(v: MapVariant)
    ensures v.HasLatLongFields() <==>
              forall s: Selections, columns: Option<seq<string>> :: !Truthy(s.latitude) ==>
                Query(v, s, columns).outcome == Thrown(LatLongMessage(v))
  {
    if !v.HasLatLongFields() {
      var s := Selections(None, None, None, None, None, None, None);
      assert Query(v, s, None).outcome == Thrown(GeoBoundsUrlMessage);
      assert |GeoBoundsUrlMessage| != |LatLongMessage(v)|;
    }
  }
}
