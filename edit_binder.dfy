/**
 * `updateImage`'s label-to-value map and per-node update, and the two form
 * edits (`changeImageMaterial` and the text field's `onChange`).
 */
module EditBinder {
  import opened Wrappers
  import opened SceneCompiler
  import opened Render

  /** The entry at `i` is the last one with its label. */
  predicate IsLastWithKey(entries: seq<Field>, i: nat)
    requires i < |entries|
  {
    forall j :: i < j < |entries| ==> entries[j].key != entries[i].key
  }

  /** `res[item.label] = item.value` over `entries`, in order. */
  function LabelMap(entries: seq<Field>): (r: map<string, string>)
    ensures |entries| > 0 ==> var last := entries[|entries| - 1]; last.key in r && r[last.key] == last.value
    decreases |entries|
  {
    if |entries| == 0 then map[]
    else LabelMap(entries[..|entries| - 1])[entries[|entries| - 1].key := entries[|entries| - 1].value]
  }

  /** The `dataObj` loop of `updateImage`, over `[...texts, ...images]`. */
  method BuildLabelMap(entries: seq<Field>) returns (res: map<string, string>)
    ensures res == LabelMap(entries)
  {
    res := map[];
    for k := 0 to |entries|
      invariant res == LabelMap(entries[..k])
    {
      assert entries[..k + 1][..k] == entries[..k];
      res := res[entries[k].key := entries[k].value];
    }
    assert entries[..|entries|] == entries;
  }

  /** The map has a key for every label and for nothing else. */
  lemma {:induction false} LabelMapKeys(entries: seq<Field>)
    ensures LabelMap(entries).Keys == set i | 0 <= i < |entries| :: entries[i].key
    decreases |entries|
  {
    if |entries| > 0 {
      var p := entries[..|entries| - 1];
      LabelMapKeys(p);
      var s := set i | 0 <= i < |entries| :: entries[i].key;
      var sp := set i | 0 <= i < |p| :: p[i].key;
      assert s == sp + {entries[|entries| - 1].key} by {
        forall l | l in s ensures l in sp + {entries[|entries| - 1].key} {
          var i :| 0 <= i < |entries| && entries[i].key == l;
          if i < |p| { assert p[i].key == l; }
        }
        forall l | l in sp ensures l in s {
          var i :| 0 <= i < |p| && p[i].key == l;
          assert entries[i].key == l;
        }
      }
    }
  }

  /** A later entry with the same label overrides an earlier one: the last one wins. */
  lemma {:induction false} LabelMapLastWins(entries: seq<Field>, i: nat)
    requires i < |entries| && IsLastWithKey(entries, i)
    ensures entries[i].key in LabelMap(entries) && LabelMap(entries)[entries[i].key] == entries[i].value
    decreases |entries|
  {
    if i < |entries| - 1 {
      var p := entries[..|entries| - 1];
      assert IsLastWithKey(p, i);
      LabelMapLastWins(p, i);
    }
  }

  /** An image field overrides every text field of the same label. */
  lemma ImagesOverrideTexts(texts: seq<Field>, images: seq<Field>, i: nat)
    requires i < |images| && IsLastWithKey(images, i)
    ensures images[i].key in LabelMap(texts + images) && LabelMap(texts + images)[images[i].key] == images[i].value
  {
    var all := texts + images;
    assert all[|texts| + i] == images[i];
    assert IsLastWithKey(all, |texts| + i);
    LabelMapLastWins(all, |texts| + i);
  }

  /** A text field counts when it is the last text of its label and no image shares the label. */
  lemma TextWinsWithoutImage(texts: seq<Field>, images: seq<Field>, i: nat)
    requires i < |texts| && IsLastWithKey(texts, i)
    requires forall j :: 0 <= j < |images| ==> images[j].key != texts[i].key
    ensures texts[i].key in LabelMap(texts + images) && LabelMap(texts + images)[texts[i].key] == texts[i].value
  {
    var all := texts + images;
    assert IsLastWithKey(all, i);
    LabelMapLastWins(all, i);
  }

  /** `dataObj[name]`; a missing label reads as undefined. */
  function Lookup(dataObj: map<string, string>, name: string): (r: Option<string>)
    ensures r.Some? <==> name in dataObj
    ensures r.Some? ==> r.value == dataObj[name]
  {
    if name in dataObj then Some(dataObj[name]) else None
  }

  /** The string `img.src = value` stores (`undefined` becomes "undefined"). */
  function SrcString(value: Option<string>): (r: string)
    ensures value.Some? ==> r == value.value
    ensures value.None? ==> r == "undefined"
  {
    match value
    case Some(s) => s
    case None => "undefined"
  }

  /**
   * One node of `layerNodes.map(...)`. A text node gets `setAttrs({ text })`;
   * an image node swaps its picture for the one loaded from the new value when
   * the load succeeds (`loads`), and keeps it otherwise; anything else is left alone.
   */
  function UpdateNode(node: SceneNode, dataObj: map<string, string>, loads: string -> bool): (r: SceneNode)
    ensures node.TextShape? ==> r == node.(text := Lookup(dataObj, node.name))
    ensures node.ImageShape? ==>
      var v := SrcString(Lookup(dataObj, node.name));
      r == (if loads(v) then node.(src := v) else node)
    ensures node.OtherShape? ==> r == node
  {
    match node
    case TextShape(_, _, _, _, _, _, _, _, _) => node.(text := Lookup(dataObj, node.name))
    case ImageShape(_, _, _, _) =>
      var v := SrcString(Lookup(dataObj, node.name));
      if loads(v) then node.(src := v) else node
    case OtherShape(_) => node
  }

  /** Every node of the layer updated. */
  function ApplyEdits(nodes: seq<SceneNode>, dataObj: map<string, string>, loads: string -> bool): (r: seq<SceneNode>)
    ensures |r| == |nodes|
    ensures forall k :: 0 <= k < |nodes| && nodes[k].TextShape? ==>
      r[k] == nodes[k].(text := Lookup(dataObj, nodes[k].name))
    ensures forall k :: 0 <= k < |nodes| && nodes[k].ImageShape? ==>
      var v := SrcString(Lookup(dataObj, nodes[k].name));
      r[k] == (if loads(v) then nodes[k].(src := v) else nodes[k])
    ensures forall k :: 0 <= k < |nodes| && nodes[k].OtherShape? ==> r[k] == nodes[k]
  {
    seq(|nodes|, k requires 0 <= k < |nodes| => UpdateNode(nodes[k], dataObj, loads))
  }

  /** The update changes no node's kind, name or position. */
  lemma ApplyEditsKeepsLayout(nodes: seq<SceneNode>, dataObj: map<string, string>, loads: string -> bool, k: nat)
    requires k < |nodes|
    ensures var n, r := nodes[k], ApplyEdits(nodes, dataObj, loads)[k];
      && (n.ImageShape? <==> r.ImageShape?) && (n.TextShape? <==> r.TextShape?)
      && (!n.OtherShape? ==> r.name == n.name && r.x == n.x && r.y == n.y)
      && (n.TextShape? ==> r.fontFamily == n.fontFamily && r.fontStyle == n.fontStyle
                           && r.fontSize == n.fontSize && r.fill == n.fill && r.align == n.align)
  {
  }

  /** Applying the same map twice leaves the same scene as applying it once. */
  lemma ApplyEditsIdempotent(nodes: seq<SceneNode>, dataObj: map<string, string>, loads: string -> bool)
    ensures ApplyEdits(ApplyEdits(nodes, dataObj, loads), dataObj, loads) == ApplyEdits(nodes, dataObj, loads)
  {
    var once := ApplyEdits(nodes, dataObj, loads);
    forall k | 0 <= k < |nodes|
      ensures UpdateNode(once[k], dataObj, loads) == once[k]
    {
    }
  }

  /** `Promise.all` resolves only when every image node's new value loads. */
  predicate AllLoaded(nodes: seq<SceneNode>, dataObj: map<string, string>, loads: string -> bool)
  {
    forall k :: 0 <= k < |nodes| && nodes[k].ImageShape? ==> loads(SrcString(Lookup(dataObj, nodes[k].name)))
  }

  /** `draft.images[index].value = fileBase64`. */
  function SetImageValue(fd: FormData, index: nat, value: string): (r: FormData)
    requires index < |fd.images|
    ensures r.texts == fd.texts && |r.images| == |fd.images|
    ensures r.images[index] == Field(fd.images[index].key, value)
    ensures forall j :: 0 <= j < |fd.images| && j != index ==> r.images[j] == fd.images[j]
  {
    fd.(images := fd.images[index := fd.images[index].(value := value)])
  }

  /** `draft.texts[index].value = e.target.value`. */
  function SetTextValue(fd: FormData, index: nat, value: string): (r: FormData)
    requires index < |fd.texts|
    ensures r.images == fd.images && |r.texts| == |fd.texts|
    ensures r.texts[index] == Field(fd.texts[index].key, value)
    ensures forall j :: 0 <= j < |fd.texts| && j != index ==> r.texts[j] == fd.texts[j]
  {
    fd.(texts := fd.texts[index := fd.texts[index].(value := value)])
  }

  /** Both forms list the same labels at the same places. */
  predicate SameKeys(a: FormData, b: FormData)
  {
    && |a.texts| == |b.texts| && (forall k :: 0 <= k < |a.texts| ==> a.texts[k].key == b.texts[k].key)
    && |a.images| == |b.images| && (forall k :: 0 <= k < |a.images| ==> a.images[k].key == b.images[k].key)
  }

  /** Form edits never change a label. */
  lemma FormEditsKeepKeys(fd: FormData, index: nat, value: string)
    ensures index < |fd.images| ==> SameKeys(fd, SetImageValue(fd, index, value))
    ensures index < |fd.texts| ==> SameKeys(fd, SetTextValue(fd, index, value))
  {
  }

  /** After an image edit, the update binds the new value to that label, unless a later image shares it. */
  lemma ImageEditReachesUpdate(fd: FormData, index: nat, value: string)
    requires index < |fd.images| && IsLastWithKey(fd.images, index)
    ensures var e := SetImageValue(fd, index, value);
      fd.images[index].key in LabelMap(e.texts + e.images) && LabelMap(e.texts + e.images)[fd.images[index].key] == value
  {
    var e := SetImageValue(fd, index, value);
    assert IsLastWithKey(e.images, index);
    ImagesOverrideTexts(e.texts, e.images, index);
  }

  /** After a text edit, the update binds the new value to that label when no later text or any image shares it. */
  lemma TextEditReachesUpdate(fd: FormData, index: nat, value: string)
    requires index < |fd.texts| && IsLastWithKey(fd.texts, index)
    requires forall j :: 0 <= j < |fd.images| ==> fd.images[j].key != fd.texts[index].key
    ensures var e := SetTextValue(fd, index, value);
      fd.texts[index].key in LabelMap(e.texts + e.images) && LabelMap(e.texts + e.images)[fd.texts[index].key] == value
  {
    var e := SetTextValue(fd, index, value);
    assert IsLastWithKey(e.texts, index);
    TextWinsWithoutImage(e.texts, e.images, index);
  }

  /** Every entry's label is a key of the map, whichever entry's value it ends up holding. */
  lemma {:induction false} LabelMapHasKey(entries: seq<Field>, i: nat)
    requires i < |entries|
    ensures entries[i].key in LabelMap(entries)
    decreases |entries|
  {
    if i < |entries| - 1 {
      var p := entries[..|entries| - 1];
      assert p[i] == entries[i];
      LabelMapHasKey(p, i);
    }
  }

  /** An image layer's name is one of the form's labels. */
  lemma ImageNameIsLabel(res: Resolved, fd: FormData, j: nat)
    requires SameKeys(FieldsOf(res), fd)
    requires j < |res.imageNodes|
    ensures res.imageNodes[j].name in LabelMap(fd.texts + fd.images)
  {
    var all := fd.texts + fd.images;
    assert all[|fd.texts| + j] == fd.images[j];
    assert ImageFields(res.imageNodes)[j].key == res.imageNodes[j].name;
    LabelMapHasKey(all, |fd.texts| + j);
  }

  /** A text layer's name is one of the form's labels. */
  lemma TextNameIsLabel(res: Resolved, fd: FormData, j: nat)
    requires SameKeys(FieldsOf(res), fd)
    requires j < |res.textNodes|
    ensures res.textNodes[j].name in LabelMap(fd.texts + fd.images)
  {
    var all := fd.texts + fd.images;
    assert all[j] == fd.texts[j];
    assert TextFields(res.textNodes)[j].key == res.textNodes[j].name;
    LabelMapHasKey(all, j);
  }

  /**
   * Every shape of a freshly shown scene has its name among the labels of any
   * form that keeps the compiled labels, so no node is updated to undefined.
   */
  lemma SceneNamesAreLabels(res: Resolved, fd: FormData, k: nat)
    requires SameKeys(FieldsOf(res), fd)
    requires k < |Scene(res)|
    ensures !Scene(res)[k].OtherShape?
    ensures Scene(res)[k].name in LabelMap(fd.texts + fd.images)
  {
    var images := RenderedImages(res.imageNodes);
    if k < |images| {
      assert Scene(res)[k] == ImageShapeOf(images[k]);
      assert images[k] in res.imageNodes;
      var j :| 0 <= j < |res.imageNodes| && res.imageNodes[j] == images[k];
      ImageNameIsLabel(res, fd, j);
    } else {
      var j := k - |images|;
      assert Scene(res)[|images| + j] == TextShapeOf(res.textNodes[j]);
      TextNameIsLabel(res, fd, j);
    }
  }

}
