# psd-to-image, modelled in Dafny

A model of the data path of the `PsdImageGenerate` React component of
psd-to-image and of its `dataURLtoBlob` helper. The component takes the
layers of a decoded PSD file, splits them into clipping groups, compiles
every layer into an image node or a text node with a derived style, caches
the result, and lists one form field per node. It draws the drawable images
and every text onto a Konva layer. Its update button writes the edited form
values back onto the drawn shapes by layer name. `dataURLtoBlob` turns a
data URL into a typed byte blob.

Modules, one per concern of the source:

- `Wrappers`: `Option` and `Result`.
- `Strings`: the JavaScript `split` and `join` on strings, and numbers written in decimal.
- `Layers`: the layer records psd.js hands over, taken as input values.
- `Grouping`: `groupNodes`, and the reordering done before compilation.
- `TextStyle`: the style derivation of a text layer.
- `SceneCompiler`: the classification walk of `cachePsdParsedData`, and the form field lists.
- `Render`: the render filter, and the Konva shapes `showImage` creates.
- `EditBinder`: the label map and node update of `updateImage`, and the single-field form edits.
- `DataUrl`: `dataURLtoBlob`, with its down-counting copy into a byte array.
- `Component`: the component as a class whose fields are the parse cache, the form state and the layer's children.

Where the reading of the code differs from the prose description of the
system, the model follows the code:

- **A text layer with no entry in the export tree.** The code reads
  `textLayer.text` of `undefined` and throws, so the compile fails and the
  cache stays unset; the layer is not skipped. A missing style run, colour
  list or text transform also throws. `CompileError` names each case.
- **Non-text layers.** Every non-text layer enters `imageNodes` and the
  image fields, including groups, hidden layers and layers of size zero.
  Only the renderer filters them (line 251).
- **The restore button.** `initializeImage` re-renders only when
  `modified` is set. Only clicks and drags set it; `updateImage` does not.
- **A clipping mask followed by the layer it clips.** The prose describes
  a mask `mask1` then a clipped `layerA` as one clipping group. When both
  report `mask1` as their clipping mask, the code opens a new group at the
  first layer naming a new mask and leaves its initial group empty, so it
  yields `[[], [mask1, layerA]]` (`Grouping.SharedClipSourceScenario`).

## Model

| member | source | states |
|---|---|---|
| Strings.Split | src/utils.ts:4 | `split` on one character gives at least one fragment, and no fragment holds the separator |
| Strings.Join | src/PsdImageGenerate.jsx:119-122 | `join` of no parts is the empty string, and otherwise the result starts with the first part; `SplitJoinCommaSpace` splits a `", "` join of comma-free parts back |
| Strings.JoinSplit | src/utils.ts:4 | joining the fragments of `split` with the separator gives back the input |
| Strings.SplitAtSeparator | src/utils.ts:4 | splitting `a + sep + b` where `a` has no separator gives `a` followed by the fragments of `b` |
| Strings.SplitJoinCommaSpace | src/PsdImageGenerate.jsx:119 | splitting a `", "` join at the commas gives the first part, then every later part with a leading space |
| Strings.NatToDecimal | src/PsdImageGenerate.jsx:119 | a number is written as a non-empty string of decimal digits with no leading zero, as `String(n)` writes it |
| Strings.DecimalRoundTrip | src/PsdImageGenerate.jsx:119 | reading a written number back gives the number |
| Grouping.GroupNodes | src/PsdImageGenerate.jsx:26-55 | the one-pass loop over the layers returns the groups of the state-machine specification `Groups`, and at least one group |
| Grouping.Step | src/PsdImageGenerate.jsx:38-52 | one callback run: an opening node closes the current group and starts a new one holding it, with its source as the active name; a closing node ends the current group with itself and leaves an empty one; any other node is appended; closed groups are never changed |
| Grouping.Run | src/PsdImageGenerate.jsx:26-55 | running the callback over the layers closes at most one group per layer |
| Grouping.Groups | src/PsdImageGenerate.jsx:26-55 | `groupNodes` returns at least one group and at most one more than there are layers |
| Grouping.GroupsFlatten | src/PsdImageGenerate.jsx:27-28 | concatenating the groups gives exactly the input layers, so no node is dropped or duplicated |
| Grouping.OpeningNode | src/PsdImageGenerate.jsx:40-43 | a node whose clip source differs from the active mask name starts the next group, the groups before it hold exactly the earlier nodes, and the active name becomes its source's name |
| Grouping.ClosingNode | src/PsdImageGenerate.jsx:46-49 | a node named like the active mask ends the current group as its last member, and a new group follows (empty if it is the last node) with the active name unchanged |
| Grouping.AppendingNode | src/PsdImageGenerate.jsx:51 | any other node is appended to the current group, and the active name is unchanged |
| Grouping.SharedClipSourceScenario | src/PsdImageGenerate.jsx:39-44 | the mask layer followed by the layer it clips gives an empty first group, then a group holding both |
| Grouping.ReversedConcat | src/PsdImageGenerate.jsx:109-111 | reversal turns `a + b` into the reverse of `b` followed by the reverse of `a` |
| Grouping.ProcessingOrder | src/PsdImageGenerate.jsx:110-111 | visiting each group reversed, in list order, visits as many nodes as the groups hold; `ProcessingOrderReverses` gives the order |
| Grouping.ProcessingOrderReverses | src/PsdImageGenerate.jsx:109-111 | reversing a group list and then each group gives the reverse of the concatenated groups |
| Grouping.CompileOrderIsReversedInput | src/PsdImageGenerate.jsx:109-111 | the nodes are compiled in exactly the reverse of the input layer order |
| TextStyle.SecondElseFirst | src/PsdImageGenerate.jsx:116 | `xs[1] \|\| xs[0]` is the second entry if present, else the first, and there is none for an empty list |
| TextStyle.RoundHalfUp | src/PsdImageGenerate.jsx:118 | `Math.round` gives the integer within one half below and strictly less than one half above |
| TextStyle.RoundHalfUpUnique | src/PsdImageGenerate.jsx:118 | that interval fixes the rounded value |
| TextStyle.RoundHalfUpOnHalves | src/PsdImageGenerate.jsx:118 | halves round towards positive infinity, negative ones included |
| TextStyle.FontSize | src/PsdImageGenerate.jsx:118 | the font size lies within one half below, and strictly less than one half above, `FontSize` times the export entry's scale |
| TextStyle.FontSizeAtUnitScale | src/PsdImageGenerate.jsx:118 | an integer font size at scale 1 is kept, and 24 at scale 0.5 becomes 12 |
| TextStyle.Rgba | src/PsdImageGenerate.jsx:119 | the fill is an `rgba(` … `)` string; `RgbaRoundTrip` reads its channels back |
| TextStyle.RgbaRoundTrip | src/PsdImageGenerate.jsx:119 | the channel values can be read back from the `rgba(...)` fill string |
| TextStyle.FontFamily | src/PsdImageGenerate.jsx:122 | no fonts give the empty family, and otherwise the family starts with the first font; `FontFamilyRecoversFonts` reads the list back |
| TextStyle.FontFamilyRecoversFonts | src/PsdImageGenerate.jsx:122 | the font list can be read back from the font family when no name holds a comma |
| TextStyle.ToUpperCase | src/PsdImageGenerate.jsx:121 | upper-casing keeps the length and turns each lower-case letter into its capital, leaving no lower-case letter and every other character unchanged |
| TextStyle.ToUpperCaseIdempotent | src/PsdImageGenerate.jsx:121 | upper-casing an upper-cased text changes nothing |
| TextStyle.DisplayText | src/PsdImageGenerate.jsx:121 | the text is upper-cased exactly when `FontCaps` is 2, and kept otherwise |
| TextStyle.FontStyle | src/PsdImageGenerate.jsx:124 | the style is "bold" exactly when `FauxBold` is set, and "normal" otherwise |
| TextStyle.DeriveStyle | src/PsdImageGenerate.jsx:114-124 | without a style run or a colour list the derivation fails, in that order, and otherwise each style field comes from the second run and colour entry (or the first) |
| SceneCompiler.FindExport | src/PsdImageGenerate.jsx:113 | the first export entry with the layer's name is found, and none is found exactly when no entry has that name |
| SceneCompiler.CompileText | src/PsdImageGenerate.jsx:112-141 | a compiled text node keeps its layer's name, top, left, width and height |
| SceneCompiler.CompileTextSpec | src/PsdImageGenerate.jsx:112-141 | a text layer fails without an export entry, then when the first matching entry has no text transform, then without a style run, then without a colour list, and compiles exactly when none of these holds; a compiled one takes its style from the first export entry with its name |
| SceneCompiler.ImageNodeOf | src/PsdImageGenerate.jsx:142-169 | an image node keeps its layer's name, position, size, base64 and visibility, and is a group exactly when its layer is one |
| SceneCompiler.Classify | src/PsdImageGenerate.jsx:110-172 | a successful compile has exactly one node, text or image, per visited layer |
| SceneCompiler.ClassifyOkIff | src/PsdImageGenerate.jsx:110-172 | the compile succeeds exactly when every text layer compiles |
| SceneCompiler.ClassifyErrPrefix | src/PsdImageGenerate.jsx:110-172 | once a text layer throws, the later nodes do not change the outcome |
| SceneCompiler.ClassifyShape | src/PsdImageGenerate.jsx:110-172 | the text nodes are the compiled text layers and the image nodes are the other layers, each in processing order |
| SceneCompiler.CompileGroup | src/PsdImageGenerate.jsx:111-171 | the inner loop over one reversed group continues the compile of the nodes visited before it, stopping at the first throwing text layer |
| SceneCompiler.CompileGroups | src/PsdImageGenerate.jsx:109-172 | the nested loop over the reversed groups gives the compile of their processing order |
| SceneCompiler.Resolve | src/PsdImageGenerate.jsx:101-175 | the first call succeeds exactly when the compile of the reversed layers does, and then keeps the document's size, nodes and export entries, one compiled node per layer, unmodified, and exactly the image and text nodes that compile yields |
| SceneCompiler.TextFields | src/PsdImageGenerate.jsx:178-181 | one text field per text node |
| SceneCompiler.ImageFields | src/PsdImageGenerate.jsx:182-185 | one image field per image node |
| SceneCompiler.FieldsOf | src/PsdImageGenerate.jsx:177-186 | the k-th text field is labelled with the k-th text node's name and holds its text; the k-th image field is labelled with the k-th image node's name and holds its base64 |
| SceneCompiler.FieldsFollowLayers | src/PsdImageGenerate.jsx:177-186 | there is one field per compiled node in the same order; its label is the node's name, and its value is the node's text or base64 |
| Render.Renderable | src/PsdImageGenerate.jsx:251-253 | an image node is drawable when it is not a group, is visible, has positive width and height, and has a non-empty base64 |
| Render.RenderedImages | src/PsdImageGenerate.jsx:251-253 | an image is drawn exactly when it is not a group, is visible, has positive width and height, and has a non-empty base64 |
| Render.RenderedImagesConcat | src/PsdImageGenerate.jsx:250-253 | filtering a concatenation filters each part, so the kept images stay in list order |
| Render.ImageShapeOf | src/PsdImageGenerate.jsx:257-264 | a drawn image carries its node's name, `left` as x, `top` as y, and its base64 as source |
| Render.TextShapeAsWritten | src/PsdImageGenerate.jsx:272-284 | as written, a text shape carries its node's name, position and text, its font family, fill and alignment, and its `fontStyle` is the font size |
| Render.TextShapeOf | src/PsdImageGenerate.jsx:272-284 | with line 278 corrected, a text shape carries its node's name, position, text, font size, font family, fill and alignment, and the derived `fontStyle` |
| Render.AsWrittenDropsBold | src/PsdImageGenerate.jsx:278 | as written, a bold text is drawn without the bold style, and the corrected shape keeps it |
| Render.Scene | src/PsdImageGenerate.jsx:250-286 | the layer holds the drawn shape of each drawable image, in list order, then the shape of each text node, in order, with line 278 corrected |
| Render.SceneAsWritten | src/PsdImageGenerate.jsx:250-286 | as written, the layer holds the same image shapes, then the text shapes of line 278 as written |
| Render.SceneAsWrittenDiffersInFontStyle | src/PsdImageGenerate.jsx:278 | the scene as written differs from the corrected one only in the `fontStyle` of its text shapes, none of which is bold |
| Render.Loaded | src/PsdImageGenerate.jsx:254-256 | the images whose data URL loads, all of them when each loads, and fewer when one fails |
| Render.ShownScene | src/PsdImageGenerate.jsx:250-286 | when every drawable image loads the layer holds the whole scene; otherwise it holds fewer images than are drawable: every drawable image that loads, only loaded ones, and no text, because `Promise.all` never settles |
| Render.ShownSceneWithinScene | src/PsdImageGenerate.jsx:250-286 | every shape drawn is a shape of the whole scene |
| Render.RenderedBoldFollowsFauxBold | src/PsdImageGenerate.jsx:116-124 | the k-th text shape is bold exactly when the run picked from the k-th text layer, in processing order (the reverse of the input), has `FauxBold` set |
| EditBinder.BuildLabelMap | src/PsdImageGenerate.jsx:321-327 | the loop builds the label map of the specification `LabelMap` |
| EditBinder.LabelMap | src/PsdImageGenerate.jsx:321-327 | after the entries are written in order, the last entry's label maps to its value |
| EditBinder.LabelMapKeys | src/PsdImageGenerate.jsx:323-325 | the map's keys are exactly the labels of the entries |
| EditBinder.LabelMapLastWins | src/PsdImageGenerate.jsx:323-325 | a label maps to the value of its last entry |
| EditBinder.ImagesOverrideTexts | src/PsdImageGenerate.jsx:323 | an image field overrides a text field with the same label |
| EditBinder.TextWinsWithoutImage | src/PsdImageGenerate.jsx:323 | a text field's value is used when no image field and no later text field share its label |
| EditBinder.Lookup | src/PsdImageGenerate.jsx:329 | `dataObj[name]` is defined exactly when the name is a label, and is then its value |
| EditBinder.SrcString | src/PsdImageGenerate.jsx:333 | `img.src` gets the looked-up value, or "undefined" when there is none |
| EditBinder.UpdateNode | src/PsdImageGenerate.jsx:328-344 | a text shape gets only its text set to the lookup of its name; an image shape gets the looked-up source when it loads and is kept otherwise; any other shape is kept |
| EditBinder.ApplyEdits | src/PsdImageGenerate.jsx:328-345 | every child of the layer is updated in place: text shapes change only their text to the lookup of their name, an image takes the looked-up source exactly when it loads and keeps its own otherwise, other shapes change nothing |
| EditBinder.ApplyEditsKeepsLayout | src/PsdImageGenerate.jsx:328-344 | an update changes no shape's kind, name or position, and no text style attribute |
| EditBinder.ApplyEditsIdempotent | src/PsdImageGenerate.jsx:328-344 | updating twice from the same form gives the same layer as updating once |
| EditBinder.SetImageValue | src/PsdImageGenerate.jsx:383-386 | an image edit replaces the value at one index, keeping its label, and changes nothing else |
| EditBinder.SetTextValue | src/PsdImageGenerate.jsx:550-553 | a text edit replaces the value at one index, keeping its label, and changes nothing else |
| EditBinder.FormEditsKeepKeys | src/PsdImageGenerate.jsx:383-386 | form edits never change the labels or their order |
| EditBinder.ImageEditReachesUpdate | src/PsdImageGenerate.jsx:321-327 | after an image edit, the label map binds that label to the new value, unless a later image field shares the label |
| EditBinder.TextEditReachesUpdate | src/PsdImageGenerate.jsx:321-327 | after a text edit, the label map binds that label to the new value, provided no later text field and no image field share it |
| EditBinder.SceneNamesAreLabels | src/PsdImageGenerate.jsx:328-329 | every shape of a freshly drawn scene is named by a label of the form, so no lookup misses |
| DataUrl.MatchFrom | src/utils.ts:5 | `/:(.*?);/` finds the leftmost `:` that a `;` follows with no line break in between, and stops at the first such `;` |
| DataUrl.LazyEnd | src/utils.ts:5 | the lazy `(.*?);` stops at a `;` with neither `;` nor a line terminator before it |
| DataUrl.MediaType | src/utils.ts:5 | there is no media type exactly when no `:` is followed by a lazy run ending at `;`; a media type is shorter than the header |
| DataUrl.MediaTypeIsPlain | src/utils.ts:5 | the media type holds neither `;` nor a line break |
| DataUrl.MediaTypeBetween | src/utils.ts:4-5 | the media type is the text strictly between the first `:` and the next `;` |
| DataUrl.NoMediaTypeWithoutSemicolon | src/utils.ts:5 | no `;` after the first `:` means no match, and so a failed conversion |
| DataUrl.NoMediaTypeWithoutColon | src/utils.ts:5 | a header without `:` has no media type |
| DataUrl.DataHeaderMediaType | src/utils.ts:5 | the header `data:<t>;base64` gives the media type `t` whenever `t` holds no `;` and no line break |
| DataUrl.PngMediaType | src/utils.ts:5 | the header `data:image/png;base64` gives the media type `image/png` |
| DataUrl.UpperCaseMediaType | src/utils.ts:5 | the header `data:Image/PNG;base64` gives the media type `Image/PNG`, capitals kept, which the Blob stores as `image/png` |
| DataUrl.Header | src/utils.ts:4 | the header is a comma-free prefix of the data URL, ended by its first comma when there is one |
| DataUrl.Payload | src/utils.ts:4-6 | the payload holds no comma, and is `undefined` when the data URL has none |
| DataUrl.HeaderAndPayload | src/utils.ts:4-6 | the header is the text before the first comma, and the payload is the text between the first and the second comma (`undefined` without a comma) |
| DataUrl.CharCodeByte | src/utils.ts:10 | the byte stored is the char code modulo 256, the code itself for every character `atob` can produce |
| DataUrl.BlobType | src/utils.ts:12 | the Blob keeps an empty type when a character lies outside U+0020 to U+007E, and otherwise the type in ASCII lower case |
| DataUrl.BlobTypeIdempotent | src/utils.ts:12 | a normalised type is kept as it is |
| DataUrl.UpperCaseBlobType | src/utils.ts:12 | the media type `Image/PNG` becomes the blob type `image/png` |
| DataUrl.DataUrlToBlob | src/utils.ts:3-13 | without a media type or with an undecodable payload the conversion fails; otherwise the blob's type is the media type as the Blob constructor normalises it, and it has one byte per decoded character, each its char code modulo 256 |
| Component.WithoutTransformers | src/PsdImageGenerate.jsx:215 | no transformer is left, and every other shape is kept as often as it occurs |
| Component.WithoutTransformersConcat | src/PsdImageGenerate.jsx:215 | removing transformers from a concatenation removes them from each part, so the kept shapes stay in order |
| Component.WithoutTransformersKeeps | src/PsdImageGenerate.jsx:215 | a layer without transformers is left as it is |
| Component.PsdImageGenerate.constructor | src/PsdImageGenerate.jsx:77-81 | the component starts with no cache, no stage and empty field lists |
| Component.PsdImageGenerate.CachePsdParsedData | src/PsdImageGenerate.jsx:101-188 | a filled cache is returned unchanged; otherwise the PSD is compiled, and on success it is stored and its fields become the form |
| Component.PsdImageGenerate.ShowImage | src/PsdImageGenerate.jsx:189-286 | (line 278 corrected) with a container and a cache, the layer becomes the shown scene of the cached data, every shape named by a label of the form, and the call returns exactly when every drawable image loads; otherwise nothing changes and it returns at once |
| Component.PsdImageGenerate.Select | src/PsdImageGenerate.jsx:214-233 | a click or drag replaces the transformer and marks the cache modified |
| Component.PsdImageGenerate.InitializeImage | src/PsdImageGenerate.jsx:374-379 | (line 278 corrected) a modified cache is drawn anew from the cached data, and marked unmodified only when that drawing returns; otherwise nothing changes |
| Component.PsdImageGenerate.UpdateImage | src/PsdImageGenerate.jsx:318-348 | every shape of the layer is updated from the form's label map, and the update completes exactly when every image loads |
| Component.PsdImageGenerate.ChangeImageMaterial | src/PsdImageGenerate.jsx:381-388 | the form becomes the image edit at that index, and the labels are kept |
| Component.PsdImageGenerate.ChangeText | src/PsdImageGenerate.jsx:549-555 | the form becomes the text edit at that index, and the labels are kept |
| Component.CacheIsIdempotent | src/PsdImageGenerate.jsx:102 | once a PSD is cached, a second call returns the first result whatever it is passed |
| Component.EditedTextShows | src/PsdImageGenerate.jsx:321-344 | after a text edit that no later text and no image of the same label shadows, an update shows the typed value on every text shape with that label |
| Component.EditTextThenUpdate | src/PsdImageGenerate.jsx:390-398 | after mounting, one text edit and an update, every text shape with that label shows the typed value |

## Left out

- psd.js decoding (`PSD.fromURL`, `tree()`, `descendants()`, `export()`) is foreign code over the network. Its output is the input record `Psd`, and `aspectRatio` is not kept.
- Konva is modelled only as the list of the layer's children and the attributes followed. Drawing, canvas export, cursor styling, drag motion and transforms are not modelled.
- The display-scale arithmetic and the resize callback use floating point and DOM sizes, so they are left out.
- `Math.round(FontSize * xx)` is taken on exact reals. Floating-point rounding of the product is not modelled.
- The `` `layer${+new Date()}` `` ids depend on the clock and are left out.
- Promises, `Image` loading, and `FileReader` (`fileToBase64`, `fileToBase64Promise`) are asynchronous. Whether an image loads is the parameter `loads`, for the initial drawing and for the update alike, and images are taken in list order rather than load order. The component's stale closure over `formData` is not modelled.
- `atob` is the parameter `atob`; None stands for its exception.
- `exportImage`, `BolbToFile`, `downFile` and `src/App.tsx` are download and page glue, so they are left out.
- TextStyle.ToUpperCase: maps only the ASCII letters, because the full Unicode case mapping of `toUpperCase` is not modelled.
- Strings.NatToDecimal: writes every number in plain decimal; JavaScript switches to exponent form from 10^21, beyond any colour channel.
- Render.RenderedImages: gives membership only in its own contract; the list order is stated by RenderedImagesConcat, and the draw order among images depends on load completion.
- Render.Scene: builds the text shapes with line 278 corrected (`fontStyle` from the derived style); the scene as written is Render.SceneAsWritten, and Render.SceneAsWrittenDiffersInFontStyle states the only difference.
- Property names that clash with JavaScript object internals (such as `__proto__`) are ordinary keys in the label map.

## Findings

| source | as written | input that shows it | evidently intended | confidence | as-written member | corrected member |
|---|---|---|---|---|---|---|
| src/PsdImageGenerate.jsx:278 | `fontStyle: node.fontSize` passes the font size as the Konva font style | a text layer whose style run has `FauxBold` set: its node has `fontStyle` "bold", and the drawn text gets a number instead | `fontStyle: node.fontStyle`, so a bold layer is drawn bold | high (not executed) | Render.AsWrittenDropsBold | Render.RenderedBoldFollowsFauxBold |
