/**
 * `showImage`'s scene: which image nodes become Konva images (the filter of
 * line 251) and the attributes of the Konva image and text shapes.
 */
module Render {
  import opened Wrappers
  import opened Layers
  import opened TextStyle
  import opened Grouping
  import opened SceneCompiler

  /** Konva's `fontStyle` attribute holds whatever it is given: a style name or, as written, a number. */
  datatype FontStyleAttr = StyleName(name: string) | StyleNumber(n: int)

  /** A child of the Konva layer, with the attributes the model follows. */
  datatype SceneNode =
    | ImageShape(name: string, x: int, y: int, src: string)
    | TextShape(name: string, x: int, y: int, text: Option<string>, fontFamily: string,
                fontStyle: FontStyleAttr, fontSize: int, fill: string, align: seq<string>)
    | OtherShape(className: string)   // e.g. a Transformer added on click

  /** `node.type !== 'group' && node.layer.visible && width > 0 && height > 0`, then `if (imageBase64)`. */
  predicate Renderable(n: ImageNode)
  {
    !n.isGroup && n.visible && n.width > 0 && n.height > 0 && n.base64 != ""
  }

  /** The image nodes that reach the Konva layer, in list order. */
  function RenderedImages(nodes: seq<ImageNode>): (r: seq<ImageNode>)
    ensures forall n :: n in r <==> n in nodes && Renderable(n)
    ensures |r| <= |nodes|
    decreases |nodes|
  {
    if |nodes| == 0 then []
    else
      var last := nodes[|nodes| - 1];
      assert nodes == nodes[..|nodes| - 1] + [last];
      RenderedImages(nodes[..|nodes| - 1]) + (if Renderable(last) then [last] else [])
  }

  /** Filtering works piece by piece, so the drawn images keep their list order. */
  lemma {:induction false} RenderedImagesConcat(a: seq<ImageNode>, b: seq<ImageNode>)
    ensures RenderedImages(a + b) == RenderedImages(a) + RenderedImages(b)
    decreases |b|
  {
    if |b| == 0 {
      assert a + b == a;
    } else {
      var b0, last := b[..|b| - 1], b[|b| - 1];
      RenderedImagesConcat(a, b0);
      assert (a + b)[..|a + b| - 1] == a + b0 && (a + b)[|a + b| - 1] == last;
    }
  }

  /** `imageNode.setAttrs({ y: top, x: left, name })` on the image decoded from the base64. */
  function ImageShapeOf(n: ImageNode): (r: SceneNode)
    ensures r.ImageShape? && r.name == n.name && r.src == n.base64
    ensures r.x == n.left && r.y == n.top
  {
    ImageShape(n.name, n.left, n.top, n.base64)
  }

  /** `new Konva.Text({...})` as written at line 278: `fontStyle` receives the font size. */
  function TextShapeAsWritten(t: TextNode): (r: SceneNode)
    ensures r.TextShape? && r.name == t.name && r.x == t.left && r.y == t.top && r.text == Some(t.text)
    ensures r.fontStyle.StyleNumber? && r.fontStyle.n == r.fontSize == t.fontSize
    ensures r.fontFamily == t.fontFamily && r.fill == t.fill && r.align == t.align
  {
    TextShape(t.name, t.left, t.top, Some(t.text), t.fontFamily, StyleNumber(t.fontSize), t.fontSize, t.fill, t.align)
  }

  /** `new Konva.Text({...})` with the derived `fontStyle`, as the text-style derivation intends. */
  function TextShapeOf(t: TextNode): (r: SceneNode)
    ensures r.TextShape? && r.name == t.name && r.x == t.left && r.y == t.top && r.text == Some(t.text)
    ensures r.fontStyle == StyleName(t.fontStyle) && r.fontSize == t.fontSize
    ensures r.fontFamily == t.fontFamily && r.fill == t.fill && r.align == t.align
  {
    TextShape(t.name, t.left, t.top, Some(t.text), t.fontFamily, StyleName(t.fontStyle), t.fontSize, t.fill, t.align)
  }

  /** As written, the rendered text never carries the derived style: a bold layer is drawn unbolded. */
  lemma AsWrittenDropsBold(t: TextNode)
    requires t.fontStyle == "bold"
    ensures TextShapeAsWritten(t).fontStyle != StyleName("bold")
    ensures TextShapeOf(t).fontStyle == StyleName("bold")
  {
  }

  /**
   * The children of the Konva layer after `showImage`: the kept images, then
   * every text node, the text shapes carrying the derived `fontStyle`.
   */
  function Scene(res: Resolved): (r: seq<SceneNode>)
    ensures |r| == |RenderedImages(res.imageNodes)| + |res.textNodes|
    ensures forall k :: 0 <= k < |RenderedImages(res.imageNodes)| ==> r[k] == ImageShapeOf(RenderedImages(res.imageNodes)[k])
    ensures forall k :: 0 <= k < |res.textNodes| ==> r[|RenderedImages(res.imageNodes)| + k] == TextShapeOf(res.textNodes[k])
  {
    var images := RenderedImages(res.imageNodes);
    seq(|images|, k requires 0 <= k < |images| => ImageShapeOf(images[k]))
      + seq(|res.textNodes|, k requires 0 <= k < |res.textNodes| => TextShapeOf(res.textNodes[k]))
  }

  /** The children of the Konva layer after `showImage` with line 278 as written. */
  function SceneAsWritten(res: Resolved): (r: seq<SceneNode>)
    ensures |r| == |RenderedImages(res.imageNodes)| + |res.textNodes|
    ensures forall k :: 0 <= k < |RenderedImages(res.imageNodes)| ==> r[k] == ImageShapeOf(RenderedImages(res.imageNodes)[k])
    ensures forall k :: 0 <= k < |res.textNodes| ==> r[|RenderedImages(res.imageNodes)| + k] == TextShapeAsWritten(res.textNodes[k])
  {
    var images := RenderedImages(res.imageNodes);
    seq(|images|, k requires 0 <= k < |images| => ImageShapeOf(images[k]))
      + seq(|res.textNodes|, k requires 0 <= k < |res.textNodes| => TextShapeAsWritten(res.textNodes[k]))
  }

  /** The images among `nodes` whose data URL loads in `Konva.Image.fromURL`, in list order. */
  function Loaded(nodes: seq<ImageNode>, loads: string -> bool): (r: seq<ImageNode>)
    ensures forall n :: n in r <==> n in nodes && loads(n.base64)
    ensures (forall k :: 0 <= k < |nodes| ==> loads(nodes[k].base64)) ==> r == nodes
    ensures (exists k :: 0 <= k < |nodes| && !loads(nodes[k].base64)) ==> |r| < |nodes|
    ensures |r| <= |nodes|
    decreases |nodes|
  {
    if |nodes| == 0 then []
    else
      var last := nodes[|nodes| - 1];
      assert nodes == nodes[..|nodes| - 1] + [last];
      Loaded(nodes[..|nodes| - 1], loads) + (if loads(last.base64) then [last] else [])
  }

  /** Every drawable image loads, so the `Promise.all` of line 250 settles. */
  predicate AllImagesLoad(res: Resolved, loads: string -> bool)
  {
    forall k :: 0 <= k < |RenderedImages(res.imageNodes)| ==> loads(RenderedImages(res.imageNodes)[k].base64)
  }

  /**
   * The children of the Konva layer once `showImage` has run as far as it
   * gets. When a drawable image fails to load, `fromURL` never calls back,
   * `Promise.all` stays pending and the texts are never added: the layer
   * holds only the images that did load, fewer than the drawable ones.
   */
  function ShownScene(res: Resolved, loads: string -> bool): (r: seq<SceneNode>)
    ensures AllImagesLoad(res, loads) ==> r == Scene(res)
    ensures !AllImagesLoad(res, loads) ==>
      && |r| < |RenderedImages(res.imageNodes)|
      && (forall k :: 0 <= k < |r| ==> r[k].ImageShape? && loads(r[k].src))
      && forall n :: n in RenderedImages(res.imageNodes) && loads(n.base64) ==> ImageShapeOf(n) in r
  {
    if AllImagesLoad(res, loads) then Scene(res)
    else
      var loaded := Loaded(RenderedImages(res.imageNodes), loads);
      ImageShapesCover(loaded);
      seq(|loaded|, k requires 0 <= k < |loaded| => ImageShapeOf(loaded[k]))
  }

  /** Drawing a list of images draws each of them. */
  lemma ImageShapesCover(images: seq<ImageNode>)
    ensures forall n :: n in images ==>
      ImageShapeOf(n) in seq(|images|, k requires 0 <= k < |images| => ImageShapeOf(images[k]))
  {
    var shapes := seq(|images|, k requires 0 <= k < |images| => ImageShapeOf(images[k]));
    forall n | n in images
      ensures ImageShapeOf(n) in shapes
    {
      var j :| 0 <= j < |images| && images[j] == n;
      assert shapes[j] == ImageShapeOf(n);
    }
  }

  /** Whatever `showImage` manages to draw is a shape of the full scene. */
  lemma ShownSceneWithinScene(res: Resolved, loads: string -> bool, k: nat)
    requires k < |ShownScene(res, loads)|
    ensures exists j :: 0 <= j < |Scene(res)| && Scene(res)[j] == ShownScene(res, loads)[k]
  {
    if !AllImagesLoad(res, loads) {
      var images := RenderedImages(res.imageNodes);
      var loaded := Loaded(images, loads);
      assert loaded[k] in images;
      var j :| 0 <= j < |images| && images[j] == loaded[k];
      assert ShownScene(res, loads)[k] == ImageShapeOf(loaded[k]);
      assert Scene(res)[j] == ImageShapeOf(images[j]);
    } else {
      assert Scene(res)[k] == ShownScene(res, loads)[k];
    }
  }

  /**
   * The scene as written and the corrected scene differ only in the
   * `fontStyle` of the text shapes; as written, no text shape is bold.
   */
  lemma SceneAsWrittenDiffersInFontStyle(res: Resolved, k: nat)
    requires k < |Scene(res)|
    ensures !SceneAsWritten(res)[k].TextShape? ==> SceneAsWritten(res)[k] == Scene(res)[k]
    ensures SceneAsWritten(res)[k].TextShape? ==>
      && Scene(res)[k].TextShape?
      && SceneAsWritten(res)[k] == Scene(res)[k].(fontStyle := StyleNumber(Scene(res)[k].fontSize))
      && SceneAsWritten(res)[k].fontStyle != StyleName("bold")
  {
    var m := |RenderedImages(res.imageNodes)|;
    if k >= m {
      var t := res.textNodes[k - m];
      assert SceneAsWritten(res)[m + (k - m)] == TextShapeAsWritten(t);
      assert Scene(res)[m + (k - m)] == TextShapeOf(t);
    }
  }

  /**
   * With the derived style passed through, the k-th text shape of the scene
   * is bold exactly when the style run picked from the k-th text layer, in
   * processing order (the reverse of the input), has FauxBold set.
   */
  lemma RenderedBoldFollowsFauxBold(psd: Psd, k: nat)
    requires Resolve(psd).Ok?
    requires k < |TextLayers(Reversed(psd.nodes))| && k < |Resolve(psd).value.textNodes|
    ensures var res := Resolve(psd).value;
      var runs := TextLayers(Reversed(psd.nodes))[k].kind.typeTool.runArray;
      && |runs| > 0
      && ((Scene(res)[|RenderedImages(res.imageNodes)| + k].fontStyle == StyleName("bold"))
          <==> runs[if |runs| > 1 then 1 else 0].fauxBold)
  {
    var res := Resolve(psd).value;
    var order := Reversed(psd.nodes);
    ClassifyShape(order, psd.exportLayers);
    var layer := TextLayers(order)[k];
    var tool := layer.kind.typeTool;
    var t := res.textNodes[k];
    assert CompileText(layer, tool, psd.exportLayers) == Ok(t);
    CompileTextSpec(layer, tool, psd.exportLayers);
    var j :| 0 <= j < |psd.exportLayers| && psd.exportLayers[j].textScale.Some?
      && DeriveStyle(tool, psd.exportLayers[j].textScale.value, layer.name)
           == Ok(Style(t.text, t.fontFamily, t.fontStyle, t.fontSize, t.fill, t.align));
    assert (t.fontStyle == "bold") <==> tool.runArray[if |tool.runArray| > 1 then 1 else 0].fauxBold;
    assert Scene(res)[|RenderedImages(res.imageNodes)| + k] == TextShapeOf(t);
  }
}
