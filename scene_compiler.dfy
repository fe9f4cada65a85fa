/**
 * The compiling half of `cachePsdParsedData`: every node, in the re-ordered
 * visiting order, becomes a text node (when it has a `typeTool`) or an image
 * node (everything else, groups and hidden layers included), and the form's
 * text and image fields are built from those two lists.
 */
module SceneCompiler {
  import opened Wrappers
  import opened Layers
  import opened TextStyle
  import opened Grouping

  /** The `nodeData` pushed into `textNodes`. */
  datatype TextNode = TextNode(
    name: string, top: int, left: int, width: int, height: int,
    text: string, fontFamily: string, fontStyle: string, fontSize: int, fill: string,
    align: seq<string>)

  /** The `nodeData` pushed into `imageNodes`; `isGroup` is `type === 'group'`. */
  datatype ImageNode = ImageNode(
    name: string, top: int, left: int, width: int, height: int,
    base64: string, visible: bool, isGroup: bool)

  datatype Compiled = Compiled(imageNodes: seq<ImageNode>, textNodes: seq<TextNode>)

  /** One `{ label, value }` entry of the form (`label` is a Dafny keyword, hence `key`). */
  datatype Field = Field(key: string, value: string)

  /** The form state; before the first compile both lists are empty. */
  datatype FormData = FormData(texts: seq<Field>, images: seq<Field>)

  /** The object stored in `currentPsdParsedData.current`. */
  datatype Resolved = Resolved(
    width: int, height: int, nodes: seq<Layer>, exportLayers: seq<ExportLayer>,
    imageNodes: seq<ImageNode>, textNodes: seq<TextNode>, modified: bool)

  /** `exportLayers.filter(item => item.name === name)[0]`, as an index searched from `from` on. */
  function FindExport(exportLayers: seq<ExportLayer>, name: string, from: nat): (r: Option<nat>)
    requires from <= |exportLayers|
    ensures r.Some? ==> from <= r.value < |exportLayers| && exportLayers[r.value].name == name
    ensures r.Some? ==> forall j :: from <= j < r.value ==> exportLayers[j].name != name
    ensures r.None? ==> forall j :: from <= j < |exportLayers| ==> exportLayers[j].name != name
    decreases |exportLayers| - from
  {
    if from == |exportLayers| then None
    else if exportLayers[from].name == name then Some(from)
    else FindExport(exportLayers, name, from + 1)
  }

  /** The text branch of the `forEach`: find the export entry, read its scale, derive the style. */
  function CompileText(node: Layer, tool: TypeTool, exportLayers: seq<ExportLayer>): (r: Result<TextNode, CompileError>)
    ensures r.Ok? ==> r.value.name == node.name && r.value.top == node.top && r.value.left == node.left
                      && r.value.width == node.width && r.value.height == node.height
  {
    match FindExport(exportLayers, node.name, 0)
    case None => Err(NoExportLayer(node.name))
    case Some(k) =>
      match exportLayers[k].textScale
      case None => Err(NoTextTransform(node.name))
      case Some(xx) =>
        match DeriveStyle(tool, xx, node.name)
        case Err(e) => Err(e)
        case Ok(st) =>
          Ok(TextNode(node.name, node.top, node.left, node.width, node.height,
                      st.text, st.fontFamily, st.fontStyle, st.fontSize, st.fill, st.align))
  }

  /**
   * The text branch throws when no export entry has the layer's name, when the
   * first such entry has no text transform, or when the style run or colour
   * list is empty, and it succeeds otherwise; the style then comes from the
   * FIRST export entry of that name, whose horizontal scale it uses.
   */
  lemma CompileTextSpec(node: Layer, tool: TypeTool, exportLayers: seq<ExportLayer>)
    ensures (forall j :: 0 <= j < |exportLayers| ==> exportLayers[j].name != node.name)
              ==> CompileText(node, tool, exportLayers) == Err(NoExportLayer(node.name))
    ensures var f := FindExport(exportLayers, node.name, 0);
      f.Some? && exportLayers[f.value].textScale.None? ==>
        CompileText(node, tool, exportLayers) == Err(NoTextTransform(node.name))
    ensures var f := FindExport(exportLayers, node.name, 0);
      f.Some? && exportLayers[f.value].textScale.Some? && |tool.runArray| == 0 ==>
        CompileText(node, tool, exportLayers) == Err(NoStyleRun(node.name))
    ensures var f := FindExport(exportLayers, node.name, 0);
      f.Some? && exportLayers[f.value].textScale.Some? && |tool.runArray| > 0 && |tool.colors| == 0 ==>
        CompileText(node, tool, exportLayers) == Err(NoColor(node.name))
    ensures var f := FindExport(exportLayers, node.name, 0);
      (CompileText(node, tool, exportLayers).Ok? <==>
         f.Some? && exportLayers[f.value].textScale.Some? && |tool.runArray| > 0 && |tool.colors| > 0)
    ensures CompileText(node, tool, exportLayers).Ok? ==>
      var t := CompileText(node, tool, exportLayers).value;
      exists k :: 0 <= k < |exportLayers| && exportLayers[k].name == node.name
        && (forall j :: 0 <= j < k ==> exportLayers[j].name != node.name)
        && exportLayers[k].textScale.Some?
        && DeriveStyle(tool, exportLayers[k].textScale.value, node.name)
             == Ok(Style(t.text, t.fontFamily, t.fontStyle, t.fontSize, t.fill, t.align))
  {
    var f := FindExport(exportLayers, node.name, 0);
    if CompileText(node, tool, exportLayers).Ok? {
      assert f.Some?;
      var k := f.value;
      assert exportLayers[k].name == node.name;
    }
  }

  /** The image branch of the `forEach`. */
  function ImageNodeOf(node: Layer): (r: ImageNode)
    ensures r.name == node.name && r.top == node.top && r.left == node.left
    ensures r.width == node.width && r.height == node.height
    ensures r.base64 == node.base64 && r.visible == node.visible && (r.isGroup <==> node.kind.GroupLayer?)
  {
    ImageNode(node.name, node.top, node.left, node.width, node.height, node.base64, node.visible, node.kind.GroupLayer?)
  }

  /** A node compiles unless it is a text layer whose text branch throws. */
  predicate Compiles(node: Layer, exportLayers: seq<ExportLayer>)
  {
    !IsText(node) || CompileText(node, node.kind.typeTool, exportLayers).Ok?
  }

  /** Both node lists after visiting `order`; the first throwing text layer ends the compile. */
  function Classify(order: seq<Layer>, exportLayers: seq<ExportLayer>): (r: Result<Compiled, CompileError>)
    ensures r.Ok? ==> |r.value.imageNodes| + |r.value.textNodes| == |order|
    decreases |order|
  {
    if |order| == 0 then Ok(Compiled([], []))
    else
      var prev := Classify(order[..|order| - 1], exportLayers);
      var node := order[|order| - 1];
      if prev.Err? then prev
      else if IsText(node) then
        match CompileText(node, node.kind.typeTool, exportLayers)
        case Err(e) => Err(e)
        case Ok(t) => Ok(prev.value.(textNodes := prev.value.textNodes + [t]))
      else Ok(prev.value.(imageNodes := prev.value.imageNodes + [ImageNodeOf(node)]))
  }

  /** Visiting one more node after a successful prefix. */
  lemma ClassifyStep(p: seq<Layer>, node: Layer, exportLayers: seq<ExportLayer>, c: Compiled)
    requires Classify(p, exportLayers) == Ok(c)
    ensures !IsText(node) ==>
      Classify(p + [node], exportLayers) == Ok(c.(imageNodes := c.imageNodes + [ImageNodeOf(node)]))
    ensures IsText(node) && CompileText(node, node.kind.typeTool, exportLayers).Ok? ==>
      Classify(p + [node], exportLayers)
        == Ok(c.(textNodes := c.textNodes + [CompileText(node, node.kind.typeTool, exportLayers).value]))
    ensures IsText(node) && CompileText(node, node.kind.typeTool, exportLayers).Err? ==>
      Classify(p + [node], exportLayers) == Err(CompileText(node, node.kind.typeTool, exportLayers).error)
  {
    assert (p + [node])[..|p|] == p;
  }

  /** Once a prefix has thrown, the whole compile reports that error. */
  lemma {:induction false} ClassifyErrPrefix(p: seq<Layer>, q: seq<Layer>, exportLayers: seq<ExportLayer>)
    requires p <= q
    requires Classify(p, exportLayers).Err?
    ensures Classify(q, exportLayers) == Classify(p, exportLayers)
    decreases |q|
  {
    if |p| < |q| {
      assert p <= q[..|q| - 1];
      ClassifyErrPrefix(p, q[..|q| - 1], exportLayers);
    } else {
      assert p == q;
    }
  }

  /** The compile succeeds exactly when every text layer finds its export entry, scale, run and colour. */
  lemma {:induction false} ClassifyOkIff(order: seq<Layer>, exportLayers: seq<ExportLayer>)
    ensures Classify(order, exportLayers).Ok? <==> forall k :: 0 <= k < |order| ==> Compiles(order[k], exportLayers)
    decreases |order|
  {
    if |order| > 0 {
      var p := order[..|order| - 1];
      ClassifyOkIff(p, exportLayers);
      assert forall k :: 0 <= k < |p| ==> p[k] == order[k];
    }
  }

  /** The text layers of `order`, in order. */
  function TextLayers(order: seq<Layer>): (r: seq<Layer>)
    ensures forall k :: 0 <= k < |r| ==> IsText(r[k])
    decreases |order|
  {
    if |order| == 0 then []
    else TextLayers(order[..|order| - 1]) + (if IsText(order[|order| - 1]) then [order[|order| - 1]] else [])
  }

  /** The other layers of `order` (rasters and groups), in order. */
  function OtherLayers(order: seq<Layer>): seq<Layer>
    decreases |order|
  {
    if |order| == 0 then []
    else OtherLayers(order[..|order| - 1]) + (if IsText(order[|order| - 1]) then [] else [order[|order| - 1]])
  }

  /**
   * A successful compile has one text node per text layer and one image node
   * per other layer, each list in visiting order, every node named after its layer.
   */
  lemma {:induction false} ClassifyShape(order: seq<Layer>, exportLayers: seq<ExportLayer>)
    requires Classify(order, exportLayers).Ok?
    ensures var c := Classify(order, exportLayers).value;
      && |c.textNodes| == |TextLayers(order)|
      && (forall k :: 0 <= k < |c.textNodes| ==> c.textNodes[k].name == TextLayers(order)[k].name)
      && (forall k :: 0 <= k < |c.textNodes| ==>
            CompileText(TextLayers(order)[k], TextLayers(order)[k].kind.typeTool, exportLayers) == Ok(c.textNodes[k]))
      && |c.imageNodes| == |OtherLayers(order)|
      && (forall k :: 0 <= k < |c.imageNodes| ==> c.imageNodes[k] == ImageNodeOf(OtherLayers(order)[k]))
    decreases |order|
  {
    if |order| > 0 {
      var p := order[..|order| - 1];
      ClassifyShape(p, exportLayers);
    }
  }

  /** The nodes visited up to and including position `k` of a group start the whole walk. */
  lemma PrefixThrough(before: seq<Layer>, nodeArr: seq<Layer>, k: nat)
    requires k < |nodeArr|
    ensures before + nodeArr[..k] + [nodeArr[k]] <= before + nodeArr
  {
    assert nodeArr == nodeArr[..k] + [nodeArr[k]] + nodeArr[k + 1..];
    assert before + nodeArr == before + nodeArr[..k] + [nodeArr[k]] + nodeArr[k + 1..];
  }

  /**
   * The inner `forEach` over one group, already reversed, continuing the
   * `imageNodes` and `textNodes` compiled from the nodes `before` it.
   */
  method CompileGroup(nodeArr: seq<Layer>, exportLayers: seq<ExportLayer>, ghost before: seq<Layer>,
                      imageNodes0: seq<ImageNode>, textNodes0: seq<TextNode>)
    returns (r: Result<Compiled, CompileError>)
    requires Classify(before, exportLayers) == Ok(Compiled(imageNodes0, textNodes0))
    ensures r == Classify(before + nodeArr, exportLayers)
  {
    var imageNodes, textNodes := imageNodes0, textNodes0;
    assert before + nodeArr[..0] == before;
    for k := 0 to |nodeArr|
      invariant Classify(before + nodeArr[..k], exportLayers) == Ok(Compiled(imageNodes, textNodes))
    {
      var node := nodeArr[k];
      GroupStep(before, nodeArr, k, exportLayers, Compiled(imageNodes, textNodes));
      if IsText(node) {
        var t := CompileText(node, node.kind.typeTool, exportLayers);
        if t.Err? {
          r := Err(t.error);
          return;
        }
        textNodes := textNodes + [t.value];
      } else {
        imageNodes := imageNodes + [ImageNodeOf(node)];
      }
    }
    assert nodeArr[..|nodeArr|] == nodeArr;
    r := Ok(Compiled(imageNodes, textNodes));
  }

  /** One iteration of the inner loop of `compileGroups`, stated on the node lists seen so far. */
  lemma GroupStep(before: seq<Layer>, nodeArr: seq<Layer>, k: nat, exportLayers: seq<ExportLayer>, c: Compiled)
    requires k < |nodeArr|
    requires Classify(before + nodeArr[..k], exportLayers) == Ok(c)
    ensures var node := nodeArr[k];
      var next := Classify(before + nodeArr[..k + 1], exportLayers);
      if !IsText(node) then next == Ok(c.(imageNodes := c.imageNodes + [ImageNodeOf(node)]))
      else
        var t := CompileText(node, node.kind.typeTool, exportLayers);
        && (t.Ok? ==> next == Ok(c.(textNodes := c.textNodes + [t.value])))
        && (t.Err? ==> Classify(before + nodeArr, exportLayers) == Err(t.error))
  {
    var node := nodeArr[k];
    assert before + nodeArr[..k + 1] == (before + nodeArr[..k]) + [node];
    ClassifyStep(before + nodeArr[..k], node, exportLayers, c);
    if IsText(node) && CompileText(node, node.kind.typeTool, exportLayers).Err? {
      PrefixThrough(before, nodeArr, k);
      ClassifyErrPrefix(before + nodeArr[..k + 1], before + nodeArr, exportLayers);
    }
  }


  /** The nested `forEach` over the reversed group list, each group reversed in turn. */
  method CompileGroups(groups: seq<seq<Layer>>, exportLayers: seq<ExportLayer>) returns (r: Result<Compiled, CompileError>)
    ensures r == Classify(ProcessingOrder(Reversed(groups)), exportLayers)
  {
    var reversedNodes := Reversed(groups);
    var imageNodes: seq<ImageNode> := [];
    var textNodes: seq<TextNode> := [];
    for gi := 0 to |reversedNodes|
      invariant Classify(ProcessingOrder(reversedNodes[..gi]), exportLayers) == Ok(Compiled(imageNodes, textNodes))
    {
      ghost var done := ProcessingOrder(reversedNodes[..gi]);
      var nodeArr := Reversed(reversedNodes[gi]);
      assert reversedNodes[..gi + 1][..gi] == reversedNodes[..gi];
      assert ProcessingOrder(reversedNodes[..gi + 1]) == done + nodeArr;
      var res := CompileGroup(nodeArr, exportLayers, done, imageNodes, textNodes);
      if res.Err? {
        r := res;
        ProcessingOrderPrefix(reversedNodes, gi + 1);
        ClassifyErrPrefix(done + nodeArr, ProcessingOrder(reversedNodes), exportLayers);
        return;
      }
      imageNodes, textNodes := res.value.imageNodes, res.value.textNodes;
    }
    assert reversedNodes[..|reversedNodes|] == reversedNodes;
    r := Ok(Compiled(imageNodes, textNodes));
  }

  /** What a first call of `cachePsdParsedData` computes: the nodes compiled in processing order (the reverse of the input). */
  function Resolve(psd: Psd): (r: Result<Resolved, CompileError>)
    ensures r.Ok? <==> Classify(Reversed(psd.nodes), psd.exportLayers).Ok?
    ensures r.Err? ==> r.error == Classify(Reversed(psd.nodes), psd.exportLayers).error
    ensures r.Ok? ==>
      && r.value.width == psd.width && r.value.height == psd.height
      && r.value.nodes == psd.nodes && r.value.exportLayers == psd.exportLayers && !r.value.modified
      && |r.value.imageNodes| + |r.value.textNodes| == |psd.nodes|
      && Compiled(r.value.imageNodes, r.value.textNodes) == Classify(Reversed(psd.nodes), psd.exportLayers).value
  {
    match Classify(Reversed(psd.nodes), psd.exportLayers)
    case Err(e) => Err(e)
    case Ok(c) => Ok(Resolved(psd.width, psd.height, psd.nodes, psd.exportLayers, c.imageNodes, c.textNodes, false))
  }

  /** `textNodes.map(node => ({ label: node.get('name'), value: node.text }))`. */
  function TextFields(nodes: seq<TextNode>): (r: seq<Field>)
    ensures |r| == |nodes|
  {
    seq(|nodes|, k requires 0 <= k < |nodes| => Field(nodes[k].name, nodes[k].text))
  }

  /** `imageNodes.map(node => ({ label: node.get('name'), value: node.layer.image.toBase64() }))`. */
  function ImageFields(nodes: seq<ImageNode>): (r: seq<Field>)
    ensures |r| == |nodes|
  {
    seq(|nodes|, k requires 0 <= k < |nodes| => Field(nodes[k].name, nodes[k].base64))
  }

  /** The argument of `setFormData` in `cachePsdParsedData`. */
  function FieldsOf(res: Resolved): (r: FormData)
    ensures |r.texts| == |res.textNodes| && |r.images| == |res.imageNodes|
    ensures forall k :: 0 <= k < |r.texts| ==> r.texts[k] == Field(res.textNodes[k].name, res.textNodes[k].text)
    ensures forall k :: 0 <= k < |r.images| ==> r.images[k] == Field(res.imageNodes[k].name, res.imageNodes[k].base64)
  {
    FormData(TextFields(res.textNodes), ImageFields(res.imageNodes))
  }

  /**
   * The form lists one text field per text layer and one image field per
   * other layer (groups and hidden layers included), in processing order
   * (the reverse of the input), each labelled with its layer's name; an
   * image field holds its layer's base64.
   */
  lemma FieldsFollowLayers(psd: Psd)
    requires Resolve(psd).Ok?
    ensures var f := FieldsOf(Resolve(psd).value);
      var texts, others := TextLayers(Reversed(psd.nodes)), OtherLayers(Reversed(psd.nodes));
      && |f.texts| == |texts| && (forall k :: 0 <= k < |f.texts| ==> f.texts[k].key == texts[k].name)
      && (forall k :: 0 <= k < |f.texts| ==>
            var tool := texts[k].kind.typeTool;
            && |tool.runArray| > 0
            && var sheet := tool.runArray[if |tool.runArray| > 1 then 1 else 0];
               f.texts[k].value == (if sheet.fontCaps == Some(2) then ToUpperCase(tool.textValue) else tool.textValue))
      && |f.images| == |others|
      && (forall k :: 0 <= k < |f.images| ==> f.images[k] == Field(others[k].name, others[k].base64))
  {
    var order := Reversed(psd.nodes);
    var c := Classify(order, psd.exportLayers).value;
    ClassifyShape(order, psd.exportLayers);
    forall k | 0 <= k < |c.textNodes|
      ensures var tool := TextLayers(order)[k].kind.typeTool;
        && |tool.runArray| > 0
        && var sheet := tool.runArray[if |tool.runArray| > 1 then 1 else 0];
           c.textNodes[k].text == (if sheet.fontCaps == Some(2) then ToUpperCase(tool.textValue) else tool.textValue)
    {
      CompileTextSpec(TextLayers(order)[k], TextLayers(order)[k].kind.typeTool, psd.exportLayers);
    }
  }
}
