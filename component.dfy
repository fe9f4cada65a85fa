/**
 * The `PsdImageGenerate` component as an object: the parsed-data cache
 * (`currentPsdParsedData`), the form state (`formData`) and the children of
 * the Konva layer on the current stage, with the handlers that update them.
 */
module Component {
  import opened Wrappers
  import opened Layers
  import opened TextStyle
  import opened Grouping
  import opened SceneCompiler
  import opened Render
  import opened EditBinder

  /** How a press of the update button ends. */
  datatype UpdateOutcome =
    | NoStage      // no stage yet: reading `currentKonvaStage.current.children` throws
    | Updated      // every image loaded and the layer was redrawn
    | LoadFailed   // an image failed to load: `Promise.all` rejected before the redraw

  /** The shape `addTransformer` puts on the layer. */
  const TransformerShape := OtherShape("Transformer")

  /** `konvaStage.find('Transformer').destroy()`: the layer without its transformers, the rest in order. */
  function WithoutTransformers(nodes: seq<SceneNode>): (r: seq<SceneNode>)
    ensures TransformerShape !in r
    ensures forall n :: n != TransformerShape ==> multiset(r)[n] == multiset(nodes)[n]
    ensures |r| <= |nodes|
    decreases |nodes|
  {
    if |nodes| == 0 then []
    else
      var rest := WithoutTransformers(nodes[..|nodes| - 1]);
      var last := nodes[|nodes| - 1];
      assert nodes == nodes[..|nodes| - 1] + [last];
      if last == TransformerShape then rest else rest + [last]
  }

  /** Removing the transformers works piece by piece, so the kept shapes stay in their order. */
  lemma {:induction false} WithoutTransformersConcat(a: seq<SceneNode>, b: seq<SceneNode>)
    ensures WithoutTransformers(a + b) == WithoutTransformers(a) + WithoutTransformers(b)
    decreases |b|
  {
    if |b| == 0 {
      assert a + b == a;
    } else {
      var b0, last := b[..|b| - 1], b[|b| - 1];
      WithoutTransformersConcat(a, b0);
      assert (a + b)[..|a + b| - 1] == a + b0 && (a + b)[|a + b| - 1] == last;
    }
  }

  /** A layer without transformers is left as it is. */
  lemma {:induction false} WithoutTransformersKeeps(nodes: seq<SceneNode>)
    requires TransformerShape !in nodes
    ensures WithoutTransformers(nodes) == nodes
    decreases |nodes|
  {
    if |nodes| > 0 {
      var p := nodes[..|nodes| - 1];
      assert nodes == p + [nodes[|nodes| - 1]];
      WithoutTransformersKeeps(p);
    }
  }

  class PsdImageGenerate {
    /** `currentPsdParsedData.current`. */
    var parsed: Option<Resolved>
    /** `formData`, with the `texts = []`, `images = []` defaults applied. */
    var formData: FormData
    /** The children of the Konva layer of `currentKonvaStage.current`. */
    var stage: Option<seq<SceneNode>>

    /**
     * A stage exists only once the cache is filled, and the form always
     * lists the labels of the cached nodes in their order.
     */
    ghost predicate Valid()
      reads this
    {
      && (stage.Some? ==> parsed.Some?)
      && (parsed.Some? ==> SameKeys(FieldsOf(parsed.value), formData))
    }

    constructor()
      ensures Valid()
      ensures parsed == None && formData == FormData([], []) && stage == None
    {
      parsed := None;
      formData := FormData([], []);
      stage := None;
    }

    /**
     * `cachePsdParsedData`: a filled cache is returned as it stands; otherwise
     * the layers are grouped, walked group by group from the last and inside a
     * group from its last node, and the result is cached and copied into the
     * form. A text layer that cannot be compiled throws, leaving both unset.
     */
    method CachePsdParsedData(psd: Psd) returns (r: Result<Resolved, CompileError>)
      requires Valid()
      modifies this`parsed, this`formData
      ensures Valid()
      ensures old(parsed).Some? ==> r == Ok(old(parsed).value) && parsed == old(parsed) && formData == old(formData)
      ensures old(parsed).None? ==> r == Resolve(psd)
      ensures old(parsed).None? && r.Ok? ==> parsed == Some(r.value) && formData == FieldsOf(r.value)
      ensures old(parsed).None? && r.Err? ==> parsed == None && formData == old(formData)
    {
      if parsed.Some? {
        return Ok(parsed.value);
      }
      var groups := GroupNodes(psd.nodes);
      var compiled := CompileGroups(groups, psd.exportLayers);
      CompileOrderIsReversedInput(psd.nodes);
      if compiled.Err? {
        return Err(compiled.error);
      }
      var resolved := Resolved(psd.width, psd.height, psd.nodes, psd.exportLayers,
                               compiled.value.imageNodes, compiled.value.textNodes, false);
      parsed := Some(resolved);
      formData := FieldsOf(resolved);
      r := Ok(resolved);
    }

    /**
     * `showImage`: without a container or a cache it does nothing and answers
     * false (`shown`). Otherwise a new stage takes the drawable images, then
     * the texts; `settled` says whether the call returns, which it does not
     * when a drawable image fails to load and `Promise.all` stays pending.
     */
    method ShowImage(hasContainer: bool, loads: string -> bool) returns (shown: bool, settled: bool)
      requires Valid()
      modifies this`stage
      ensures Valid()
      ensures shown <==> hasContainer && parsed.Some?
      ensures settled <==> !shown || AllImagesLoad(parsed.value, loads)
      ensures shown ==> stage == Some(ShownScene(parsed.value, loads))
      ensures shown ==> forall k :: 0 <= k < |stage.value| ==>
                !stage.value[k].OtherShape? && stage.value[k].name in LabelMap(formData.texts + formData.images)
      ensures !shown ==> stage == old(stage)
    {
      if !hasContainer || parsed.None? {
        return false, true;
      }
      var res := parsed.value;
      forall k | 0 <= k < |ShownScene(res, loads)|
        ensures !ShownScene(res, loads)[k].OtherShape? && ShownScene(res, loads)[k].name in LabelMap(formData.texts + formData.images)
      {
        ShownSceneWithinScene(res, loads, k);
        var j :| 0 <= j < |Scene(res)| && Scene(res)[j] == ShownScene(res, loads)[k];
        SceneNamesAreLabels(res, formData, j);
      }
      stage := Some(ShownScene(res, loads));
      shown, settled := true, AllImagesLoad(res, loads);
    }

    /**
     * The `click` and `dragstart` listeners: the old transformer goes, a new
     * one is added, and the cache is marked modified.
     */
    method Select()
      requires Valid() && stage.Some?
      modifies this`stage, this`parsed
      ensures Valid()
      ensures stage == Some(WithoutTransformers(old(stage).value) + [TransformerShape])
      ensures parsed == Some(old(parsed).value.(modified := true))
    {
      stage := Some(WithoutTransformers(stage.value) + [TransformerShape]);
      parsed := Some(parsed.value.(modified := true));
    }

    /**
     * `initializeImage`: only a modified cache is shown again, and it is
     * marked unmodified once `showImage` returns. Without a cache, reading
     * `modified` throws and nothing changes.
     */
    method InitializeImage(hasContainer: bool, loads: string -> bool)
      requires Valid()
      modifies this`stage, this`parsed
      ensures Valid()
      ensures old(parsed).None? || !old(parsed).value.modified ==> stage == old(stage) && parsed == old(parsed)
      ensures old(parsed).Some? && old(parsed).value.modified ==>
        && stage == (if hasContainer then Some(ShownScene(old(parsed).value, loads)) else old(stage))
        && parsed == (if !hasContainer || AllImagesLoad(old(parsed).value, loads)
                      then Some(old(parsed).value.(modified := false)) else old(parsed))
    {
      if parsed.None? || !parsed.value.modified {
        return;
      }
      var _, settled := ShowImage(hasContainer, loads);
      if settled {
        parsed := Some(parsed.value.(modified := false));
      }
    }

    /**
     * `updateImage`: the form's labels are collected into one map, texts first
     * and images after, and every node of the layer is updated from it; the
     * outcome says whether every image loaded.
     */
    method UpdateImage(loads: string -> bool) returns (outcome: UpdateOutcome)
      requires Valid()
      modifies this`stage
      ensures Valid()
      ensures old(stage).None? ==> outcome == NoStage && stage == old(stage)
      ensures old(stage).Some? ==>
        var dataObj := LabelMap(formData.texts + formData.images);
        && stage == Some(ApplyEdits(old(stage).value, dataObj, loads))
        && outcome != NoStage
        && (outcome == Updated <==> AllLoaded(old(stage).value, dataObj, loads))
    {
      if stage.None? {
        return NoStage;
      }
      var layerNodes := stage.value;
      var dataObj := BuildLabelMap(formData.texts + formData.images);
      var updated: seq<SceneNode> := [];
      var allLoaded := true;
      for i := 0 to |layerNodes|
        invariant |updated| == i
        invariant forall k :: 0 <= k < i ==> updated[k] == UpdateNode(layerNodes[k], dataObj, loads)
        invariant allLoaded <==> forall k :: 0 <= k < i && layerNodes[k].ImageShape? ==>
                                   loads(SrcString(Lookup(dataObj, layerNodes[k].name)))
      {
        var node := layerNodes[i];
        if node.ImageShape? && !loads(SrcString(Lookup(dataObj, node.name))) {
          allLoaded := false;
        }
        updated := updated + [UpdateNode(node, dataObj, loads)];
      }
      assert updated == ApplyEdits(layerNodes, dataObj, loads);
      stage := Some(updated);
      outcome := if allLoaded then Updated else LoadFailed;
    }

    /** `changeImageMaterial`: the picked file's data URL replaces one image value. */
    method ChangeImageMaterial(fileBase64: string, index: nat)
      requires Valid() && index < |formData.images|
      modifies this`formData
      ensures Valid()
      ensures formData == SetImageValue(old(formData), index, fileBase64)
    {
      FormEditsKeepKeys(formData, index, fileBase64);
      formData := SetImageValue(formData, index, fileBase64);
    }

    /** The text field's `onChange`: the typed value replaces one text value. */
    method ChangeText(index: nat, value: string)
      requires Valid() && index < |formData.texts|
      modifies this`formData
      ensures Valid()
      ensures formData == SetTextValue(old(formData), index, value)
    {
      FormEditsKeepKeys(formData, index, value);
      formData := SetTextValue(formData, index, value);
    }
  }

  /** Once a PSD is cached, caching another one returns the first. */
  method CacheIsIdempotent(psd1: Psd, psd2: Psd) returns (r1: Result<Resolved, CompileError>, r2: Result<Resolved, CompileError>)
    ensures r1 == Resolve(psd1)
    ensures r1.Ok? ==> r2 == r1
    ensures r1.Err? ==> r2 == Resolve(psd2)
  {
    var c := new PsdImageGenerate();
    r1 := c.CachePsdParsedData(psd1);
    r2 := c.CachePsdParsedData(psd2);
  }

  /** After a text edit, updating any layer shows the typed value on every text shape with that label. */
  lemma EditedTextShows(nodes: seq<SceneNode>, fd: FormData, index: nat, value: string, loads: string -> bool)
    requires index < |fd.texts| && IsLastWithKey(fd.texts, index)
    requires forall j :: 0 <= j < |fd.images| ==> fd.images[j].key != fd.texts[index].key
    ensures var e := SetTextValue(fd, index, value);
      var updated := ApplyEdits(nodes, LabelMap(e.texts + e.images), loads);
      forall k :: 0 <= k < |updated| && updated[k].TextShape? && updated[k].name == fd.texts[index].key ==>
        updated[k].text == Some(value)
  {
    TextEditReachesUpdate(fd, index, value);
    var e := SetTextValue(fd, index, value);
    var dataObj := LabelMap(e.texts + e.images);
    var updated := ApplyEdits(nodes, dataObj, loads);
    forall k | 0 <= k < |updated| && updated[k].TextShape? && updated[k].name == fd.texts[index].key
      ensures updated[k].text == Some(value)
    {
      assert updated[k] == UpdateNode(nodes[k], dataObj, loads);
    }
  }

  /**
   * Mount, edit one text field and press update: the text shapes bound to
   * that label show the typed value, whether or not every image loads; the
   * layer holds the whole scene when every drawable image loads.
   */
  method EditTextThenUpdate(psd: Psd, index: nat, value: string, loads: string -> bool)
    returns (scene: Option<seq<SceneNode>>)
    ensures Resolve(psd).Err? ==> scene == None
    ensures Resolve(psd).Ok? && index < |Resolve(psd).value.textNodes| ==>
      var res := Resolve(psd).value;
      var fd := FieldsOf(res);
      IsLastWithKey(fd.texts, index) && (forall j :: 0 <= j < |fd.images| ==> fd.images[j].key != fd.texts[index].key) ==>
        && scene.Some? && (AllImagesLoad(res, loads) ==> |scene.value| == |Scene(res)|)
        && forall k :: 0 <= k < |scene.value| && scene.value[k].TextShape? && scene.value[k].name == fd.texts[index].key ==>
             scene.value[k].text == Some(value)
  {
    var c := new PsdImageGenerate();
    var r := c.CachePsdParsedData(psd);
    if r.Err? {
      return None;
    }
    var _, _ := c.ShowImage(true, loads);
    ghost var shown := c.stage.value;
    if index < |c.formData.texts| {
      var fd := c.formData;
      c.ChangeText(index, value);
      var _ := c.UpdateImage(loads);
      if IsLastWithKey(fd.texts, index) && (forall j :: 0 <= j < |fd.images| ==> fd.images[j].key != fd.texts[index].key) {
        EditedTextShows(shown, fd, index, value, loads);
      }
    }
    scene := c.stage;
  }
}
