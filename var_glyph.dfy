/**
 * The glyph record classes of the client (`var-glyph.js`): a variable
 * glyph with its axes, sources and layers, each layer holding a static
 * glyph whose outline is a `VarPackedPath`. Their `fromObject`
 * constructors turn server data into these objects and their `copy`
 * methods run the same constructors on an existing object; which parts
 * a copy shares with the original is stated in the contracts.
 */
module VarGlyph {
  import opened Base
  import opened PathData
  import opened VarPath
  import opened JsValue

  /** `identityTransformation`: the nine decomposed transformation fields at their neutral values. */
  const IDENTITY_TRANSFORMATION: map<string, Js> :=
    map[
      "translateX" := Num(0.0), "translateY" := Num(0.0), "rotation" := Num(0.0),
      "scaleX" := Num(1.0), "scaleY" := Num(1.0), "skewX" := Num(0.0), "skewY" := Num(0.0),
      "tCenterX" := Num(0.0), "tCenterY" := Num(0.0)]

  /**
   * `copyComponent`: a new component object with the name, the
   * transformation completed by the identity fields the component does
   * not give, and a shallow copy of the location.
   */
  function CopyComponent(component: Js): (r: Result<Js, JsError>)
    ensures r.Err? <==> IsNullish(component)
    ensures r.Ok? ==> r.value.Obj? && r.value.fields.Keys == {"name", "transformation", "location"}
    ensures r.Ok? ==>
      var t := r.value.fields["transformation"];
      var given := Spread(Prop(component, "transformation").value);
      && t.Obj? && t.fields.Keys == IDENTITY_TRANSFORMATION.Keys + given.Keys
      && (forall key :: key in given ==> t.fields[key] == given[key])
      && (forall key :: key in IDENTITY_TRANSFORMATION && key !in given ==> t.fields[key] == IDENTITY_TRANSFORMATION[key])
  {
    if IsNullish(component) then Err(TypeError)
    else
      Ok(Obj(map[
        "name" := Prop(component, "name").value,
        "transformation" := Obj(IDENTITY_TRANSFORMATION + Spread(Prop(component, "transformation").value)),
        "location" := Obj(Spread(Prop(component, "location").value))]))
  }

  /** A copied component copies to itself. */
  lemma CopyComponentIdempotent(component: Js)
    requires !IsNullish(component)
    ensures CopyComponent(CopyComponent(component).value) == CopyComponent(component)
  {
    var c := CopyComponent(component).value;
    var t := Spread(Prop(component, "transformation").value);
    assert Prop(c, "transformation").value == Obj(IDENTITY_TRANSFORMATION + t);
    assert IDENTITY_TRANSFORMATION + (IDENTITY_TRANSFORMATION + t) == IDENTITY_TRANSFORMATION + t;
  }

  /**
   * `obj.components?.map(copyComponent) || []`: no components become an
   * empty list, a list has every entry copied, anything else raises.
   */
  function CopyComponents(components: Js): (r: Result<Js, JsError>)
    ensures r.Ok? <==> ComponentsCopyable(components)
    ensures IsNullish(components) ==> r == Ok(Arr([]))
    ensures !IsNullish(components) && !components.Arr? ==> r.Err?
    ensures components.Arr? ==> (r.Ok? <==> forall c :: c in components.items ==> !IsNullish(c))
    ensures components.Arr? && r.Ok? ==>
      && r.value.Arr? && |r.value.items| == |components.items|
      && forall k :: 0 <= k < |components.items| ==> Ok(r.value.items[k]) == CopyComponent(components.items[k])
  {
    match components
    case Undefined => Ok(Arr([]))
    case Null => Ok(Arr([]))
    case Arr(items) =>
      if forall c :: c in items ==> !IsNullish(c) then
        Ok(Arr(seq(|items|, k requires 0 <= k < |items| => CopyComponent(items[k]).value)))
      else
        Err(TypeError)
    case _ => Err(TypeError)
  }

  /** Whether `CopyComponents` succeeds: no components at all, or a list without nullish entries. */
  predicate ComponentsCopyable(components: Js) {
    IsNullish(components) || (components.Arr? && forall c :: c in components.items ==> !IsNullish(c))
  }

  /** A copied component list copies to itself. */
  lemma CopyComponentsIdempotent(components: Js)
    requires CopyComponents(components).Ok?
    ensures CopyComponents(CopyComponents(components).value) == CopyComponents(components)
  {
    var once := CopyComponents(components).value;
    if components.Arr? {
      forall k | 0 <= k < |once.items|
        ensures CopyComponent(once.items[k]) == Ok(once.items[k])
      {
        assert components.items[k] in components.items;
        CopyComponentIdempotent(components.items[k]);
      }
      assert forall c :: c in once.items ==> !IsNullish(c);
      assert CopyComponents(once).value.items == once.items;
    }
  }

  /** `copyCustomData(data || {})`: a JSON copy of the data, an empty object when there is none. */
  function CopyCustomData(data: Js): (r: Js)
    ensures IsJsonData(r) && Truthy(r)
    ensures Truthy(data) && IsJsonData(data) ==> r == data
    ensures !Truthy(data) ==> r == Obj(map[])
  {
    if !Truthy(data) then Obj(map[])
    else if IsJsonData(data) then JsonElementOfData(data); JsonCopy(data).value
    else JsonCopy(data).value
  }

  /** A designspace source: a named location whose outline lives in the layer `layerName`. */
  datatype Source = Source(name: Js, location: map<string, Js>, layerName: Js, inactive: bool, customData: Js)

  /** `Source.fromObject`; the `|| {}` after the spread never applies, since a spread is always an object. */
  function SourceFromObject(obj: Js): (r: Result<Source, JsError>)
    ensures r.Err? <==> IsNullish(obj)
    ensures r.Ok? ==>
      && r.value.name == Prop(obj, "name").value
      && r.value.location == Spread(Prop(obj, "location").value)
      && r.value.layerName == Prop(obj, "layerName").value
      && (r.value.inactive <==> Truthy(Prop(obj, "inactive").value))
      && r.value.customData == CopyCustomData(Prop(obj, "customData").value)
  {
    if IsNullish(obj) then Err(TypeError)
    else
      Ok(Source(
        Prop(obj, "name").value,
        Spread(Prop(obj, "location").value),
        Prop(obj, "layerName").value,
        Truthy(Prop(obj, "inactive").value),
        CopyCustomData(Prop(obj, "customData").value)))
  }

  /** A source as the object `Source.fromObject` reads when it copies it. */
  function SourceObject(s: Source): Js {
    Obj(map[
      "name" := s.name, "location" := Obj(s.location), "layerName" := s.layerName,
      "inactive" := Bool(s.inactive), "customData" := s.customData])
  }

  /** A source made by `Source.fromObject` copies to an equal source. */
  lemma SourceCopyIsEqual(obj: Js)
    requires !IsNullish(obj)
    ensures SourceFromObject(SourceObject(SourceFromObject(obj).value)) == SourceFromObject(obj)
  {
    var s := SourceFromObject(obj).value;
    JsonElementOfData(s.customData);
  }

  /** `obj.sources.map(Source.fromObject)`: only a list can be mapped, and no entry may be nullish. */
  function SourcesFromObject(sources: Js): (r: Result<seq<Source>, JsError>)
    ensures r.Ok? <==> sources.Arr? && forall s :: s in sources.items ==> !IsNullish(s)
    ensures r.Ok? ==>
      && |r.value| == |sources.items|
      && forall k :: 0 <= k < |sources.items| ==> Ok(r.value[k]) == SourceFromObject(sources.items[k])
  {
    if sources.Arr? && forall s :: s in sources.items ==> !IsNullish(s) then
      Ok(seq(|sources.items|, k requires 0 <= k < |sources.items| => SourceFromObject(sources.items[k]).value))
    else
      Err(TypeError)
  }

  /** `obj.axes?.map((axis) => ({ ...axis })) || []`: shallow copies of the axis objects, none when there are no axes. */
  function AxesFromObject(axes: Js): (r: Result<seq<map<string, Js>>, JsError>)
    ensures IsNullish(axes) ==> r == Ok([])
    ensures r.Ok? <==> IsNullish(axes) || axes.Arr?
    ensures axes.Arr? ==> r.Ok? && |r.value| == |axes.items| && forall k :: 0 <= k < |axes.items| ==> r.value[k] == Spread(axes.items[k])
  {
    match axes
    case Undefined => Ok([])
    case Null => Ok([])
    case Arr(items) => Ok(seq(|items|, k requires 0 <= k < |items| => Spread(items[k])))
    case _ => Err(TypeError)
  }

  /**
   * The fields `StaticGlyph.fromObject` reads; `path` is `None` when the
   * object has no path (a missing or falsy one).
   */
  datatype GlyphObject = GlyphObject(
    xAdvance: Js, yAdvance: Js, verticalOrigin: Js, path: Option<VarPackedPath>,
    components: Js, leftMargin: Js, rightMargin: Js)

  /** The outline and metrics of one layer of a glyph. */
  class StaticGlyph {
    var xAdvance: Js
    var yAdvance: Js
    var verticalOrigin: Js
    var path: VarPackedPath
    var components: Js
    var leftMargin: Js
    var rightMargin: Js

    constructor (xAdvance: Js, yAdvance: Js, verticalOrigin: Js, path: VarPackedPath, components: Js, leftMargin: Js, rightMargin: Js)
      ensures this.xAdvance == xAdvance && this.yAdvance == yAdvance && this.verticalOrigin == verticalOrigin
      ensures this.path == path && this.components == components
      ensures this.leftMargin == leftMargin && this.rightMargin == rightMargin
    {
      this.xAdvance := xAdvance;
      this.yAdvance := yAdvance;
      this.verticalOrigin := verticalOrigin;
      this.path := path;
      this.components := components;
      this.leftMargin := leftMargin;
      this.rightMargin := rightMargin;
    }

    /** The glyph as the object `fromObject` reads when it copies it. */
    function AsObject(): GlyphObject
      reads this
    {
      GlyphObject(xAdvance, yAdvance, verticalOrigin, Some(path), components, leftMargin, rightMargin)
    }

    /**
     * `StaticGlyph.fromObject(obj, noCopy)`. Without a path the glyph
     * gets a new empty one. With `noCopy` the path and the components
     * are taken over as they are; otherwise the path is rebuilt by
     * `VarPackedPath.fromObject`, which copies the coordinates but
     * shares the point type and contour lists, and every component is
     * copied.
     */
    static method FromObject(obj: GlyphObject, noCopy: bool) returns (r: Result<StaticGlyph, JsError>)
      ensures r.Err? <==> !noCopy && CopyComponents(obj.components).Err?
      ensures r.Ok? ==>
        && fresh(r.value)
        && r.value.xAdvance == obj.xAdvance && r.value.yAdvance == obj.yAdvance
        && r.value.verticalOrigin == obj.verticalOrigin
        && r.value.leftMargin == obj.leftMargin && r.value.rightMargin == obj.rightMargin
        && r.value.components == (if noCopy then Or(obj.components, Arr([])) else CopyComponents(obj.components).value)
      ensures r.Ok? && obj.path.None? ==>
        && fresh(r.value.path) && fresh(r.value.path.coordinates)
        && fresh(r.value.path.pointTypes) && fresh(r.value.path.contourInfo)
        && r.value.path.Value() == EmptyPath()
      ensures r.Ok? && obj.path.Some? && noCopy ==> r.value.path == obj.path.value
      ensures r.Ok? && obj.path.Some? && !noCopy ==>
        && fresh(r.value.path) && fresh(r.value.path.coordinates)
        && r.value.path.pointTypes == obj.path.value.pointTypes
        && r.value.path.contourInfo == obj.path.value.contourInfo
        && r.value.path.Value() == obj.path.value.Value()
    {
      var path: VarPackedPath;
      if obj.path.Some? {
        if noCopy {
          path := obj.path.value;
        } else {
          var source := obj.path.value;
          path := VarPackedPath.FromObject(source.coordinates.items, source.pointTypes, source.contourInfo);
        }
      } else {
        path := new VarPackedPath.Empty();
      }
      var components: Js;
      if noCopy {
        components := Or(obj.components, Arr([]));
      } else {
        var copied := CopyComponents(obj.components);
        if copied.Err? {
          return Err(copied.error);
        }
        components := copied.value;
      }
      var glyph := new StaticGlyph(obj.xAdvance, obj.yAdvance, obj.verticalOrigin, path, components, obj.leftMargin, obj.rightMargin);
      return Ok(glyph);
    }

    /**
     * `copy`: a new glyph with copied coordinates and components; the
     * point type and contour lists stay shared with this glyph's path.
     */
    method Copy() returns (r: Result<StaticGlyph, JsError>)
      ensures r.Err? <==> CopyComponents(components).Err?
      ensures r.Ok? ==>
        && fresh(r.value) && fresh(r.value.path) && fresh(r.value.path.coordinates)
        && r.value.path.pointTypes == path.pointTypes && r.value.path.contourInfo == path.contourInfo
        && r.value.path.Value() == path.Value()
        && r.value.components == CopyComponents(components).value
        && r.value.xAdvance == xAdvance && r.value.yAdvance == yAdvance
        && r.value.verticalOrigin == verticalOrigin
        && r.value.leftMargin == leftMargin && r.value.rightMargin == rightMargin
    {
      r := FromObject(AsObject(), false);
    }
  }

  /** The fields `Layer.fromObject` reads; `glyph` is `None` when it is missing. */
  datatype LayerObject = LayerObject(glyph: Option<GlyphObject>, customData: Js)

  /** A layer: one static glyph and its custom data. */
  datatype Layer = Layer(glyph: StaticGlyph, customData: Js)

  /** Whether `Layer.fromObject` succeeds on `obj`: it needs a glyph whose components can be copied. */
  predicate LayerCopyable(obj: LayerObject) {
    obj.glyph.Some? && ComponentsCopyable(obj.glyph.value.components)
  }

  /** The objects that make up an optional path. */
  function PathFrame(path: Option<VarPackedPath>): set<object>
    reads if path.Some? then {path.value} else {}
  {
    if path.Some? then {path.value, path.value.coordinates, path.value.pointTypes, path.value.contourInfo} else {}
  }

  /** The objects a copy of a layer gets for itself: the glyph, its path and the path's coordinates. */
  function NewObjects(layer: Layer): set<object>
    reads layer.glyph, layer.glyph.path
  {
    {layer.glyph, layer.glyph.path, layer.glyph.path.coordinates}
  }

  /** The objects that make up a layer's glyph. */
  function LayerFrame(layer: Layer): set<object>
    reads layer.glyph, layer.glyph.path
  {
    {layer.glyph, layer.glyph.path, layer.glyph.path.coordinates, layer.glyph.path.pointTypes, layer.glyph.path.contourInfo}
  }

  /**
   * `layer` is what `Layer.fromObject` makes of `obj`: the glyph's fields
   * and path taken over as `StaticGlyph.fromObject` does without
   * `noCopy`, the custom data copied.
   */
  predicate IsLayerOf(layer: Layer, obj: LayerObject)
    reads LayerFrame(layer), if obj.glyph.Some? then PathFrame(obj.glyph.value.path) else {}
  {
    && LayerCopyable(obj)
    && (var g := layer.glyph;
        var source := obj.glyph.value;
        && g.xAdvance == source.xAdvance && g.yAdvance == source.yAdvance
        && g.verticalOrigin == source.verticalOrigin
        && g.leftMargin == source.leftMargin && g.rightMargin == source.rightMargin
        && g.components == CopyComponents(source.components).value
        && (source.path.None? ==> g.path.Value() == EmptyPath())
        && (source.path.Some? ==>
              && g.path.pointTypes == source.path.value.pointTypes
              && g.path.contourInfo == source.path.value.contourInfo
              && g.path.Value() == source.path.value.Value()))
    && layer.customData == CopyCustomData(obj.customData)
  }

  /** `Layer.fromObject`: the glyph rebuilt by `StaticGlyph.fromObject`, the custom data copied. */
  method LayerFromObject(obj: LayerObject) returns (r: Result<Layer, JsError>)
    ensures r.Ok? <==> LayerCopyable(obj)
    ensures r.Ok? ==> fresh(NewObjects(r.value)) && IsLayerOf(r.value, obj)
  {
    if obj.glyph.None? {
      return Err(TypeError);
    }
    var glyph := StaticGlyph.FromObject(obj.glyph.value, false);
    if glyph.Err? {
      return Err(glyph.error);
    }
    return Ok(Layer(glyph.value, CopyCustomData(obj.customData)));
  }

  /** Adding the layer made from `entries[n]` to the layers made from the other entries. */
  lemma AddLayerOf(entries: map<string, LayerObject>, n: string, rest: map<string, Layer>, layer: Layer)
    requires n in entries && IsLayerOf(layer, entries[n])
    requires forall m :: m in rest ==> m in entries - {n} && IsLayerOf(rest[m], (entries - {n})[m])
    ensures forall m :: m in rest[n := layer] ==> IsLayerOf(rest[n := layer][m], entries[m])
  {
    forall m | m in rest[n := layer]
      ensures IsLayerOf(rest[n := layer][m], entries[m])
    {
      if m != n {
        assert (entries - {n})[m] == entries[m];
      }
    }
  }

  /**
   * The `Object.entries(obj.layers).map(...)` step of
   * `VariableGlyph.fromObject`: every layer rebuilt under its name.
   */
  method LayersFromObject(entries: map<string, LayerObject>) returns (r: Result<map<string, Layer>, JsError>)
    ensures r.Ok? <==> forall n :: n in entries ==> LayerCopyable(entries[n])
    ensures r.Ok? ==> r.value.Keys == entries.Keys
    ensures r.Ok? ==> forall n :: n in r.value ==>
      fresh(NewObjects(r.value[n])) && IsLayerOf(r.value[n], entries[n])
  {
    if forall n :: n in entries ==> LayerCopyable(entries[n]) {
      var layers := RebuildLayers(entries);
      return Ok(layers);
    }
    return Err(TypeError);
  }

  /** The layers of `LayersFromObject` once every one of them is known to be copyable. */
  method RebuildLayers(entries: map<string, LayerObject>) returns (layers: map<string, Layer>)
    requires forall n :: n in entries ==> LayerCopyable(entries[n])
    ensures layers.Keys == entries.Keys
    ensures forall n :: n in layers ==> fresh(NewObjects(layers[n])) && IsLayerOf(layers[n], entries[n])
    decreases |entries|
  {
    if |entries| == 0 {
      return map[];
    }
    var n :| n in entries;
    var layer := LayerFromObject(entries[n]);
    var rest := RebuildLayers(entries - {n});
    layers := rest[n := layer.value];
    forall m | m in layers
      ensures fresh(NewObjects(layers[m]))
    {
      if m != n {
        assert m in rest;
      }
    }
    AddLayerOf(entries, n, rest, layer.value);
  }

  /** The fields `VariableGlyph.fromObject` reads; `layers` is `None` when it is missing. */
  datatype VariableGlyphObject = VariableGlyphObject(
    name: Js, axes: Js, sources: Js, layers: Option<map<string, LayerObject>>, customData: Js)

  /** A glyph with its designspace: local axes, sources and the layers they draw from. */
  class VariableGlyph {
    var name: Js
    var axes: seq<map<string, Js>>
    var sources: seq<Source>
    var layers: map<string, Layer>
    var customData: Js

    constructor (name: Js, axes: seq<map<string, Js>>, sources: seq<Source>, layers: map<string, Layer>, customData: Js)
      ensures this.name == name && this.axes == axes && this.sources == sources
      ensures this.layers == layers && this.customData == customData
    {
      this.name := name;
      this.axes := axes;
      this.sources := sources;
      this.layers := layers;
      this.customData := customData;
    }

    /** The objects the layer glyphs live in. */
    function LayerGlyphs(): set<object>
      reads this
    {
      set name | name in layers :: layers[name].glyph
    }

    /** The glyph as the object `fromObject` reads when it copies it. */
    function AsObject(): VariableGlyphObject
      reads this, LayerGlyphs()
    {
      var axes := this.axes;
      var sources := this.sources;
      VariableGlyphObject(
        name,
        Arr(seq(|axes|, k requires 0 <= k < |axes| => Obj(axes[k]))),
        Arr(seq(|sources|, k requires 0 <= k < |sources| => SourceObject(sources[k]))),
        Some(map n | n in layers :: LayerObject(Some(layers[n].glyph.AsObject()), layers[n].customData)),
        customData)
    }

    /**
     * `VariableGlyph.fromObject`: axes and sources copied, every layer
     * rebuilt by `Layer.fromObject` under the same name, the custom data
     * copied. It raises when the sources are not a list, when there are
     * no layers or when a layer cannot be rebuilt.
     */
    static method FromObject(obj: VariableGlyphObject) returns (r: Result<VariableGlyph, JsError>)
      ensures r.Ok? <==>
        && AxesFromObject(obj.axes).Ok? && SourcesFromObject(obj.sources).Ok? && obj.layers.Some?
        && forall n :: n in obj.layers.value ==> LayerCopyable(obj.layers.value[n])
      ensures r.Ok? ==>
        && fresh(r.value)
        && r.value.name == obj.name
        && r.value.axes == AxesFromObject(obj.axes).value
        && r.value.sources == SourcesFromObject(obj.sources).value
        && r.value.layers.Keys == obj.layers.value.Keys
        && r.value.customData == CopyCustomData(obj.customData)
      ensures r.Ok? ==> forall n :: n in r.value.layers ==>
        && fresh(r.value.layers[n].glyph) && fresh(r.value.layers[n].glyph.path)
        && fresh(r.value.layers[n].glyph.path.coordinates)
        && IsLayerOf(r.value.layers[n], obj.layers.value[n])
    {
      var axes := AxesFromObject(obj.axes);
      if axes.Err? {
        return Err(axes.error);
      }
      var sources := SourcesFromObject(obj.sources);
      if sources.Err? {
        return Err(sources.error);
      }
      if obj.layers.None? {
        return Err(TypeError);
      }
      var layers := LayersFromObject(obj.layers.value);
      if layers.Err? {
        return Err(layers.error);
      }
      var glyph := new VariableGlyph(obj.name, axes.value, sources.value, layers.value, CopyCustomData(obj.customData));
      return Ok(glyph);
    }

    /**
     * `copy`: `fromObject` run on the glyph itself, so the copy has the same
     * name and axes, every source rebuilt by `Source.fromObject`, and every
     * layer rebuilt into fresh objects under its own name. It raises exactly
     * when some layer cannot be rebuilt.
     */
    method Copy() returns (r: Result<VariableGlyph, JsError>)
      ensures r.Ok? <==> forall n :: n in layers ==> LayerCopyable(AsObject().layers.value[n])
      ensures r.Ok? ==>
        && fresh(r.value)
        && r.value.name == name && r.value.axes == axes
        && r.value.sources == SourcesFromObject(AsObject().sources).value
        && r.value.layers.Keys == layers.Keys
        && r.value.customData == CopyCustomData(customData)
      ensures r.Ok? ==> forall n :: n in r.value.layers ==>
        && fresh(r.value.layers[n].glyph)
        && IsLayerOf(r.value.layers[n], AsObject().layers.value[n])
    {
      var obj := AsObject();
      assert AxesFromObject(obj.axes).Ok?;
      assert forall s :: s in obj.sources.items ==> !IsNullish(s);
      r := FromObject(obj);
      if r.Ok? {
        var copied := AxesFromObject(obj.axes).value;
        assert |copied| == |axes|;
        assert forall k :: 0 <= k < |axes| ==> copied[k] == axes[k];
      }
    }
  }
}
