/**
 * The decoded document as the component receives it from psd.js: the
 * node list in `tree().descendants()` order (read here as bottom layer
 * first; nothing proved depends on that reading), the top-level export
 * entries (`tree().export().children`) and the document size. Each node's
 * `get(key)` accessor becomes a field.
 */
module Layers {
  import opened Wrappers

  /** `StyleRun.RunArray[k].StyleSheet.StyleSheetData` of a text layer's engine data. */
  datatype StyleSheetData = StyleSheetData(
    fontSize: real,          // FontSize
    fontCaps: Option<int>,   // FontCaps, absent when the flag is not set
    fauxBold: bool)          // FauxBold (absent reads as false)

  /** A text layer's `typeTool` record. */
  datatype TypeTool = TypeTool(
    textValue: string,
    runArray: seq<StyleSheetData>,
    colors: seq<seq<nat>>,   // colors(): one [r, g, b, a] list per colour run
    fonts: seq<string>,      // fonts()
    alignment: seq<string>)  // alignment(), passed through untouched

  /** A node is a text layer when it carries a `typeTool`; otherwise a raster layer or a group. */
  datatype Kind = TextLayer(typeTool: TypeTool) | RasterLayer | GroupLayer

  datatype Layer = Layer(
    name: string,
    clipSource: Option<string>,  // name of clippingMask(), when the layer is clipped
    kind: Kind,
    visible: bool,               // layer.visible
    top: int,
    left: int,
    width: int,
    height: int,
    base64: string)              // layer.image.toBase64()

  /** A top-level entry of the export tree; `textScale` is `text.transform.xx` when it is a text entry. */
  datatype ExportLayer = ExportLayer(name: string, textScale: Option<real>)

  /** What `parsePsd` hands to the cache. */
  datatype Psd = Psd(width: int, height: int, nodes: seq<Layer>, exportLayers: seq<ExportLayer>)

  predicate IsText(l: Layer) { l.kind.TextLayer? }
}
