/** The chart entry point's dispatch: find the catalog entry whose key is
    the selected map type, then the renderer registered under that entry's
    component name, and hand it the chart's props. Either lookup can fail,
    and each failure renders its own placeholder. */
module LeafletPlugin {
  import opened Wrappers
  import opened MapTypes

  /** The four renderers. */
  datatype Component = ClusteringMapComponent | HeatMapComponent | ChoroplethMapComponent | BubbleMapComponent

  /** The component registry: renderer by component name. */
  const ComponentRegistry: map<string, Component> := map[
    "ClusteringMap" := ClusteringMapComponent,
    "HeatMap" := HeatMapComponent,
    "ChoroplethMap" := ChoroplethMapComponent,
    "BubbleMap" := BubbleMapComponent
  ]

  /** What the entry point renders: one of the two placeholders, or the
      selected renderer with the props it receives. */
  datatype Rendered<D, F> =
    | UnknownMapType
    | ComponentNotFound(componentName: string)
    | Render(component: Component, data: D, height: int, width: int, formData: F)

  /** `mapTypes.find(type => type.key === leafletType)`. */
  function FindMapType(catalog: seq<MapVariant>, leafletType: Option<string>): (r: Option<MapVariant>)
    ensures r.Some? ==> r.value in catalog && leafletType == Some(r.value.Key())
    ensures r.Some? ==>
              exists k :: 0 <= k < |catalog| && catalog[k] == r.value &&
                forall j :: 0 <= j < k ==> leafletType != Some(catalog[j].Key())
    ensures r.None? <==> forall j :: 0 <= j < |catalog| ==> leafletType != Some(catalog[j].Key())
  {
    if catalog == [] then None
    else if leafletType == Some(catalog[0].Key()) then Some(catalog[0])
    else
      var rest := FindMapType(catalog[1..], leafletType);
      assert forall j :: 1 <= j < |catalog| ==> catalog[j] == catalog[1..][j - 1];
      assert rest.Some? ==>
               exists k :: 1 <= k < |catalog| && catalog[k] == rest.value &&
                 forall j :: 0 <= j < k ==> leafletType != Some(catalog[j].Key());
      rest
  }

  /** The dispatch, for a given registry. Either placeholder or the
      renderer registered under the selected variant's component name, which
      receives the chart's data, size and form data as they are. */
  function Dispatch<D, F>(registry: map<string, Component>, leafletType: Option<string>,
                          data: D, height: int, width: int, formData: F): (r: Rendered<D, F>)
    ensures !r.UnknownMapType? ==>
              exists v :: v in Catalog && leafletType == Some(v.Key()) &&
                (r.ComponentNotFound? ==> r.componentName == v.ComponentName() && v.ComponentName() !in registry) &&
                (r.Render? ==> v.ComponentName() in registry && r.component == registry[v.ComponentName()])
    ensures r.Render? ==> r.data == data && r.height == height && r.width == width && r.formData == formData
  {
    match FindMapType(Catalog, leafletType)
    case None => UnknownMapType
    case Some(v) =>
      if v.ComponentName() in registry then
        Render(registry[v.ComponentName()], data, height, width, formData)
      else
        ComponentNotFound(v.ComponentName())
  }

  /** The chart entry point, with the registry it ships with: it never
      reports a missing component, and it renders exactly when the selected
      type is a catalog key. */
  function SupersetLeafletPlugin<D, F>(leafletType: Option<string>, data: D, height: int, width: int, formData: F): (r: Rendered<D, F>)
    ensures !r.ComponentNotFound?
    ensures r.Render? <==> exists v :: v in Catalog && leafletType == Some(v.Key())
  {
    RegistryCoversCatalog();
    Dispatch(ComponentRegistry, leafletType, data, height, width, formData)
  }

  /** The placeholder "Unknown map type" appears exactly when no catalog key
      equals the selected type, whatever the registry. */
  lemma UnknownIffNoKey<D, F>(registry: map<string, Component>, leafletType: Option<string>,
                               data: D, height: int, width: int, formData: F)
    ensures Dispatch(registry, leafletType, data, height, width, formData).UnknownMapType? <==>
              forall v :: v in Catalog ==> leafletType != Some(v.Key())
  {
  }

  /** The catalog keys are distinct, so a key selects exactly its variant. */
  lemma FindSelectsByKey(v: MapVariant)
    ensures FindMapType(Catalog, Some(v.Key())) == Some(v)
  {
    CatalogShape(v);
  }

  /** A known type whose component name is missing from the registry gets
      the "Component not found for <name>" placeholder. */
  lemma MissingComponent<D, F>(registry: map<string, Component>, v: MapVariant,
                               data: D, height: int, width: int, formData: F)
    requires v.ComponentName() !in registry
    ensures Dispatch(registry, Some(v.Key()), data, height, width, formData) == ComponentNotFound(v.ComponentName())
  {
    FindSelectsByKey(v);
  }

  /** Every catalog component name is registered. */
  lemma RegistryCoversCatalog()
    ensures forall v :: v in Catalog ==> v.ComponentName() in ComponentRegistry
  {
  }

  /** Every known map type reaches its own renderer, which receives the
      data, size and form data unchanged; a shipped chart never shows
      "Component not found". */
  lemma KnownTypeRenders<D, F>(v: MapVariant, data: D, height: int, width: int, formData: F)
    ensures SupersetLeafletPlugin(Some(v.Key()), data, height, width, formData)
            == Render(ComponentRegistry[v.ComponentName()], data, height, width, formData)
    ensures !SupersetLeafletPlugin(Some(v.Key()), data, height, width, formData).ComponentNotFound?
  {
  }
}
