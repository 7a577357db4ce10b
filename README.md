# Leaflet map chart plugin — verified model of its core

A Dafny model of the data logic of a map chart plugin for a dashboarding
host. The plugin renders one of four map variants (clustering, heat,
choropleth, bubble). Its core is:

- **The map-type catalog** (`MapTypes`, from `src/mapTypes.ts`). There are
  four variants with capability flags. Each has a `buildQuery` rule that
  validates the form data in a fixed order and throws a variant-specific
  message when a field is missing. Otherwise it appends the columns it
  needs to `formData.columns` in place, through the deduplicating,
  order-preserving `addColumns`. The form data is a class (`FormData`)
  whose `columns` field the methods `AddColumns`, `BaseBuildQuery` and
  `BuildQuery` update. Each method is proved equal to a specification
  function (`ColumnsAfterAdd`, `BaseQuery`, `Query`). The lemmas prove the
  list-update laws, the error order and what has been mutated when an
  error is thrown.
- **The binned colour scales** (`BubbleMap`, `ChoroplethMap`, with shared
  arithmetic in `ColorScale`). A metric value in the data's extent maps to
  one of ten shades by `floor(normalised * 9)`. The legend uses the
  inverse formula. The bubble copy guards a zero range and caps the top
  shade. The choropleth copy does neither, so its `0/0` case is an
  explicit "no shade" (`None`) result. The module also covers the
  choropleth region lookup (first matching row, grey default), bubble
  marker inclusion and the radius rule.
- **Dispatch by map-type key** (`LeafletPlugin`, from
  `src/SupersetLeafletPlugin.tsx`). It finds the catalog entry by key,
  then the renderer by component name, with two distinct "not found"
  placeholders. The component registry of
  `src/components/maps/common/mapsComponentRegistry.ts` is inlined as a
  constant map.
- **Viewport defaulting** (`MapComponentUtils`). A missing coordinate
  falls back to Cape Town.

Modelling conventions:

- A form selection that is `undefined` or `null` is `None` of
  `Wrappers.Option`; the code only tests selections for truthiness, with
  `??`, or by `===` against a string key, all of which treat the two alike.
- A string selection is falsy when it is absent or empty.
- A data cell is a `DataCells.Cell`: `Undefined` (the row has no such
  column), `Null` (SQL NULL) or `Value(x)`. The renderers tell these apart:
  the marker guard is `!== undefined`, so a `null` coordinate is drawn;
  arithmetic and `Math.min`/`Math.max` read `null` as 0 and `undefined` as
  `NaN`; region lookup is `===`, so a `null` label matches only a `null`
  region. Equality of `Cell` values is that `===`.
- Numbers are `real`, and `Math.floor` is `.Floor`.
- A data row is modelled only through the columns the form selects
  (`BubbleRow`, `RegionRow`).
- A thrown error is `Thrown(message)`, carrying the source's exact message.

Facts about the code that the model makes explicit:

- Only the bubble renderer guards a zero range: `range ? … : 0` at
  `src/components/maps/BubbleMap.tsx:24`. The choropleth `getColor`
  divides `0/0` when every metric is equal
  (`src/components/maps/ChoroplethMap.tsx:28`) and finds no shade
  (`ChoroplethMap.ShadeIndex`, `ChoroplethMap.ConstantMetricHasNoFill`).
- Every check throws its own fixed message
  (`src/mapTypes.ts:28`, `:66`, `:87-96`, `:117`); the model uses those
  messages.
- Heat and bubble maps call the base check, which appends latitude and
  longitude, before they check the metric (`src/mapTypes.ts:62-66`,
  `:113-117`), so a missing metric is reported after the column list has
  changed (`MapTypes.MetricCheckedAfterAppend`).

## Model

| member | source | states |
|---|---|---|
| MapTypes.AddColumns | src/mapTypes.ts:121-132 | the in-place `forEach`/`push` loop leaves `formData.columns` equal to `ColumnsAfterAdd` of the old list; a null item list leaves it untouched, a missing list is created empty first |
| MapTypes.BaseBuildQuery | src/mapTypes.ts:22-32 | throws "Latitude and Longitude are required for <label>" without mutating when either is falsy; otherwise appends latitude then longitude |
| MapTypes.BuildQuery | src/mapTypes.ts:35-119 | each variant's override ends with the outcome and columns of `Query`: base check then labels (clustering), base check then metric check (heat, bubble), four ordered checks then region (choropleth) |
| MapTypes.AppendedExtends | src/mapTypes.ts:127-131 | the old column list is a prefix of the new one |
| MapTypes.AppendedMembers | src/mapTypes.ts:127-131 | a column is in the result iff it was already there or is a truthy input item |
| MapTypes.AppendedDistinct | src/mapTypes.ts:128-130 | no duplicate is ever added, even when the input repeats a column |
| MapTypes.AppendedFresh | src/mapTypes.ts:128-130 | every appended column is new, non-empty and taken from the input |
| MapTypes.AppendedOrder | src/mapTypes.ts:127-131 | appended columns keep the order of their first occurrence in the input |
| MapTypes.AppendedNoop | src/mapTypes.ts:128-130 | adding items that are all present (or falsy) changes nothing |
| MapTypes.AppendedIdempotent | src/mapTypes.ts:127-131 | a second pass of the loop with the same items adds nothing |
| MapTypes.AddColumnsIdempotent | src/mapTypes.ts:121-132 | `addColumns` twice with the same list equals once |
| MapTypes.AddColumnsNullItems | src/mapTypes.ts:122-123 | a null item list leaves the columns, even a missing list, unchanged |
| MapTypes.ColumnsAfterAdd | src/mapTypes.ts:121-132 | a null item list leaves the columns as they are; otherwise the old list (empty when missing) is a prefix of the new one, and a list without duplicates stays without |
| MapTypes.BaseQuery | src/mapTypes.ts:22-32 | succeeds iff latitude and longitude are truthy; an error carries the lat/lng message for the variant's label and leaves the columns; success keeps the old columns as a prefix and contains both coordinates |
| MapTypes.Query | src/mapTypes.ts:35-119 | on success the old columns are a prefix of the new; an error leaves the columns unchanged, or, for a variant with lat/lng fields, as the base check left them |
| MapTypes.FirstIndex | src/mapTypes.ts:127 | the first position of an item in the input list, as used by the order law |
| MapTypes.QuerySucceedsIff | src/mapTypes.ts:22-118 | `buildQuery` succeeds iff every field its capability flags require is truthy |
| MapTypes.QuerySuccessColumns | src/mapTypes.ts:22-118 | on success the old columns stay a prefix, exactly the requested columns (lat/lng, labels for clustering, region for choropleth) are added, no duplicates |
| MapTypes.MetricNotAdded | src/mapTypes.ts:61-118 | heat and bubble never append the metric column itself |
| MapTypes.LatLongCheckedFirst | src/mapTypes.ts:22-28 | a variant with lat/lng fields throws the lat/lng message first and leaves the columns untouched |
| MapTypes.MetricCheckedAfterAppend | src/mapTypes.ts:61-118 | a missing metric on heat/bubble throws the variant's metric message after lat/lng were already appended |
| MapTypes.ChoroplethFirstMissing | src/mapTypes.ts:86-96 | the first missing of geo bounds URL, geo label field, metric, region decides the message; nothing is mutated |
| MapTypes.ChoroplethIgnoresLatLong | src/mapTypes.ts:79-100 | the choropleth check does not read latitude or longitude |
| MapTypes.LabelsOnlyWithLabelField | src/mapTypes.ts:44-49 | only the variant with a label field reads the label selection |
| MapTypes.QueryIdempotent | src/mapTypes.ts:22-132 | running `buildQuery` again on its own result gives the same outcome and columns, for every variant and every outcome |
| MapTypes.BubbleQueryExample | src/mapTypes.ts:103-118 | bubble map with latitude "lat", longitude "lon", a metric and no columns yields `["lat","lon"]` |
| MapTypes.FlagTable | src/mapTypes.ts:35-110 | each variant has either lat/lng fields or a region field; only a lat/lng variant has the label field; a variant has a metric field iff it has no label field |
| MapTypes.CatalogShape | src/mapTypes.ts:134 | the catalog has four entries, clustering first, distinct keys, and lists every variant |
| MapTypes.LatLongFlagMeansBaseCheck | src/mapTypes.ts:35-119 | `hasLatLongFields` is true exactly for the variants whose `buildQuery` throws the lat/lng message whenever latitude is falsy |
| ColorScale.Minimum | src/components/maps/BubbleMap.tsx:40 | `Math.min` of a non-empty list is one of its values and below all of them |
| ColorScale.Maximum | src/components/maps/BubbleMap.tsx:41 | `Math.max` of a non-empty list is one of its values and above all of them |
| ColorScale.ExtentOf | src/components/maps/BubbleMap.tsx:39-41 | the extent exists iff there are values; min <= max, both attained, every value inside |
| ColorScale.Ratio | src/components/maps/BubbleMap.tsx:24 | the normalised position times the range gives back the offset from min |
| ColorScale.RatioBounds | src/components/maps/ChoroplethMap.tsx:28 | inside a proper extent the ratio lies in [0, 1], 0 at min, 1 at max |
| ColorScale.RatioMonotone | src/components/maps/ChoroplethMap.tsx:28 | the ratio is monotone in the value |
| ColorScale.RatioNegativeIff | src/components/maps/ChoroplethMap.tsx:28 | in a proper extent the ratio is negative exactly below the minimum |
| ColorScale.RatioOrder | src/components/maps/ChoroplethMap.tsx:28 | in a proper extent the ratio orders two values exactly as they are ordered, both ways |
| ColorScale.RatioOfFraction | src/components/maps/ChoroplethMap.tsx:100 | the point at fraction f of the extent has ratio f |
| ColorScale.ScaledIndex | src/components/maps/BubbleMap.tsx:27 | `floor(r * 9)` lies in [0, 9] for r in [0, 1], 0 at 0 and 9 at 1 |
| ColorScale.ScaledIndexMonotone | src/components/maps/ChoroplethMap.tsx:29 | scaling and flooring preserve order |
| ColorScale.ScaledIndexOfShade | src/components/maps/ChoroplethMap.tsx:29 | fraction i/9 floors back to i |
| ColorScale.ThresholdShade | src/components/maps/ChoroplethMap.tsx:100 | the legend threshold of shade i is binned into shade i |
| ColorScale.ThresholdReached | src/components/maps/ChoroplethMap.tsx:28-29 | a value is binned into shade i or later exactly when it is at least the legend threshold of shade i |
| ColorScale.ShadeBucket | src/components/maps/ChoroplethMap.tsx:27-100 | shade i holds exactly the values from threshold i up to, not including, threshold i+1: the legend values are the bucket boundaries |
| ColorScale.ThresholdAscending | src/components/maps/ChoroplethMap.tsx:100 | legend thresholds never decrease |
| ColorScale.Round | src/components/maps/ChoroplethMap.tsx:100 | `Math.round` gives the integer within half of x, halves rounding up |
| ColorScale.RoundMonotone | src/components/maps/ChoroplethMap.tsx:100 | rounding preserves order |
| BubbleMap.MetricValues | src/components/maps/BubbleMap.tsx:39 | one value per row, a missing or zero metric read as 0 |
| BubbleMap.ShadeIndex | src/components/maps/BubbleMap.tsx:22-28 | the colour index never exceeds 9; a zero range gives shade 0 |
| BubbleMap.MetricExtent | src/components/maps/BubbleMap.tsx:39-41 | an extent exists iff there are rows; every row's metric (0 when falsy) lies in it and both ends are some row's value |
| BubbleMap.ShadeIndexInRange | src/components/maps/BubbleMap.tsx:22-30 | for min < max and a value in [min, max] the index is in [0, 9], min gives 0 and max gives 9 |
| BubbleMap.ShadeIndexNegativeIff | src/components/maps/BubbleMap.tsx:24-27 | in a proper extent the index is negative exactly for values below the minimum |
| BubbleMap.ColorBySize | src/components/maps/BubbleMap.tsx:22-30 | a colour is always a palette shade; a zero range gives the first shade; in a proper extent a value is coloured exactly when it is not below the minimum |
| BubbleMap.ShadeIndexMonotone | src/components/maps/BubbleMap.tsx:24-27 | a larger value never gets a lower shade |
| BubbleMap.ShadeIndexExample | src/components/maps/BubbleMap.tsx:22-30 | min 0, max 100, value 55 gives shade 4 |
| BubbleMap.EveryRowShaded | src/components/maps/BubbleMap.tsx:39-109 | every row's metric (0 when falsy) gets a colour in the extent of all rows |
| BubbleMap.LegendValues | src/components/maps/BubbleMap.tsx:60-61 | one legend value per shade |
| BubbleMap.LegendValuesAreThresholds | src/components/maps/BubbleMap.tsx:60-61 | legend value i is `min + i*(max-min)/9`; entry 0 is min, entry 9 is max, ascending |
| BubbleMap.LegendMatchesShades | src/components/maps/BubbleMap.tsx:22-61 | legend value i is coloured with shade i |
| BubbleMap.ShadeIndexBucket | src/components/maps/BubbleMap.tsx:22-61 | below the top shade, shade i holds exactly the values from legend value i up to, not including, legend value i+1 |
| BubbleMap.TopShadeBucket | src/components/maps/BubbleMap.tsx:25-61 | the capped top shade holds exactly the values from its legend value, the maximum, upwards |
| BubbleMap.Radius | src/components/maps/BubbleMap.tsx:108-116 | the radius is the metric, or 10 when the metric is 0, `null` or `undefined` |
| BubbleMap.MarkerFor | src/components/maps/BubbleMap.tsx:105-118 | a marker exactly when neither coordinate cell is `undefined`, centred on the two cells, with the radius rule, and a palette shade for a value in the extent |
| BubbleMap.Markers | src/components/maps/BubbleMap.tsx:105-134 | one slot per row; a marker exactly when neither coordinate cell is `undefined` (a `null` is drawn), on those cells, with the radius rule and the shade of the row's metric (0 when falsy) in the extent of all rows, always a palette shade |
| BubbleMap.NullLatitudeDrawn | src/components/maps/BubbleMap.tsx:106-115 | a row with a `null` latitude still gets a marker, at `[null, lng]` |
| ChoroplethMap.MetricExtent | src/components/maps/ChoroplethMap.tsx:18-20 | the extent exists iff there are rows and no metric is `undefined`; every metric, `null` read as 0, lies inside it, and both ends are some row's metric |
| ChoroplethMap.ShadeIndex | src/components/maps/ChoroplethMap.tsx:27-30 | no shade index exactly when max == min (the unguarded `0/0`) |
| ChoroplethMap.ShadeIndexInRange | src/components/maps/ChoroplethMap.tsx:27-31 | for min < max and a value in [min, max] the index is in [0, 9], min gives 0 and max gives 9 |
| ChoroplethMap.ExtremeRowsShaded | src/components/maps/ChoroplethMap.tsx:18-30 | in a proper extent some row's metric gets the first shade and some row's metric the last |
| ChoroplethMap.ShadeIndexBucket | src/components/maps/ChoroplethMap.tsx:27-100 | in a proper extent shade i holds exactly the values from legend threshold i up to, not including, threshold i+1 |
| ChoroplethMap.Color | src/components/maps/ChoroplethMap.tsx:27-31 | a colour, when there is one, is a palette shade |
| ChoroplethMap.ShadeIndexMonotone | src/components/maps/ChoroplethMap.tsx:28-29 | a larger value never gets a lower shade |
| ChoroplethMap.FindRegion | src/components/maps/ChoroplethMap.tsx:34 | the first row whose region equals the feature's label, or none iff no row matches |
| ChoroplethMap.FillColor | src/components/maps/ChoroplethMap.tsx:18-41 | the fill is the grey default or a palette shade when defined; it is undefined exactly when a row matches, that row's metric is not `undefined`, and the extent is `NaN` or has max == min |
| ChoroplethMap.PopupBound | src/components/maps/ChoroplethMap.tsx:59-71 | a popup is bound exactly when some row's region is `===` the feature's label |
| ChoroplethMap.FillGreyIffNoValue | src/components/maps/ChoroplethMap.tsx:34-39 | the fill is `#ccc` iff no row matches or the matching row's metric is `undefined`; a `null` metric is coloured |
| ChoroplethMap.NullMetricShadedAsZero | src/components/maps/ChoroplethMap.tsx:19-39 | a matched row with a `null` metric is coloured as the value 0, which lies in the extent |
| ChoroplethMap.FillFromFirstMatch | src/components/maps/ChoroplethMap.tsx:33-41 | with no `undefined` metric and a proper extent, the fill is the shade of the first matching row's metric (`null` read as 0), and a popup is bound |
| ChoroplethMap.ConstantMetricHasNoFill | src/components/maps/ChoroplethMap.tsx:18-30 | when every metric stands for the same number, a matched feature gets no fill colour at all |
| ChoroplethMap.UndefinedMetricBlanksFill | src/components/maps/ChoroplethMap.tsx:18-39 | one `undefined` metric in any row leaves every matched feature with a defined metric without a fill colour |
| ChoroplethMap.UnmatchedFeature | src/components/maps/ChoroplethMap.tsx:33-71 | a feature no row matches gets no popup and the grey fill |
| ChoroplethMap.LegendLabels | src/components/maps/ChoroplethMap.tsx:92-100 | label i is `round(min + (i/9)*(max-min))` |
| ChoroplethMap.LegendLabelsSpan | src/components/maps/ChoroplethMap.tsx:92-100 | label 0 is round(min), label 9 is round(max), labels ascend |
| ChoroplethMap.LegendMatchesShades | src/components/maps/ChoroplethMap.tsx:27-100 | the unrounded threshold of label i is coloured with shade i |
| LeafletPlugin.FindMapType | src/SupersetLeafletPlugin.tsx:77 | the found entry is in the catalog with the selected key and no earlier entry has it; none iff no key matches |
| LeafletPlugin.Dispatch | src/SupersetLeafletPlugin.tsx:76-109 | any result other than "Unknown map type" comes from a catalog entry with the selected key: "Component not found" names its unregistered component, a render uses its registered renderer and passes data, height, width and form data unchanged |
| LeafletPlugin.SupersetLeafletPlugin | src/SupersetLeafletPlugin.tsx:64-111 | with the shipped registry "Component not found" never appears, and a renderer is shown exactly when the selected type is a catalog key |
| LeafletPlugin.UnknownIffNoKey | src/SupersetLeafletPlugin.tsx:77-80 | "Unknown map type" iff no catalog key equals the selected type, whatever the registry |
| LeafletPlugin.FindSelectsByKey | src/SupersetLeafletPlugin.tsx:77 | a variant's key selects exactly that variant (keys are distinct) |
| LeafletPlugin.MissingComponent | src/SupersetLeafletPlugin.tsx:83-86 | a known type whose component name is not registered gives "Component not found for <name>" |
| LeafletPlugin.RegistryCoversCatalog | src/components/maps/common/mapsComponentRegistry.ts:6-11 | every catalog component name is a registry key |
| LeafletPlugin.KnownTypeRenders | src/SupersetLeafletPlugin.tsx:83-109 | every known type reaches its registered renderer, which receives data, height, width and form data unchanged |
| MapComponentUtils.ViewportCoordinates | src/components/maps/common/mapComponentUtils.ts:10-19 | a two-element pair; a missing latitude becomes -33.9249 and a missing longitude 18.4241, a supplied value is kept |
| MapComponentUtils.CoordinatesIndependent | src/components/maps/common/mapComponentUtils.ts:15-18 | the two coordinates are defaulted independently |
| MapComponentUtils.ZeroIsKept | src/components/maps/common/mapComponentUtils.ts:16-17 | a supplied 0 is kept, since `??` replaces only null/undefined |

## Left out

- `src/components/maps/common/GeoJSONOverlay.tsx`: the boundary-document fetch, its React state and its error message are I/O.
- `src/components/maps/HeatMap.tsx`: the average-intensity × 1.25 maximum is floating-point tuning. The nearest-point click search and the layer wiring are event handling.
- The boundary overlay's label popup in the bubble renderer
  (`src/components/maps/BubbleMap.tsx:95-100`) is popup wiring over the
  fetched boundary document, which is I/O here.
- `src/components/maps/ClusteringMap.tsx`: pure rendering. Its lat/lng guard is the same as the bubble renderer's (`BubbleMap.Markers`).
- `src/plugin/controlPanel.ts` and `src/plugin/index.ts`: settings-panel configuration and host registration. Nothing is assumed about how the host calls `buildQuery`.
- `getSelectedColors`: a wrapper over the host's colour-scheme registry.
- Leaflet/React rendering, tile URLs, popup HTML, legend styling, the global default marker icon, `console.warn`/`console.log`.
- IEEE-754 arithmetic: no rounding, no NaN propagation, no infinities. An extent that would be `±Infinity` (no rows) or `NaN` (an `undefined` choropleth metric) is `None`. A bubble `range` of `NaN` is not modelled.
- BubbleMap.LegendValues: the displayed `toFixed(0)` rounding is not modelled, only the value it rounds.
- ChoroplethMap.LegendLabels: the labels for an empty or `NaN` extent are not modelled.
- MapTypes.AddColumns: the pushes into the shared `columns` array are modelled as reassigning a sequence, so aliasing of that array by other holders is not captured.
- MapTypes.Truthy: selections are strings. The metric selection, which the host may pass as an object, is modelled by its truthiness only.
- A feature without a `properties` object makes the choropleth callbacks throw in the source. The model gives every feature a label cell, possibly `Undefined` or `Null`.
- LeafletPlugin.Dispatch: a component name that is a JavaScript object-prototype property such as `toString` is not modelled as a registry hit.
