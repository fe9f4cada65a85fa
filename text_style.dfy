/**
 * The text-style derivation of `cachePsdParsedData`: from a text layer's
 * `typeTool` and the horizontal scale of its export entry to the flat style
 * the Konva text node is built from.
 */
module TextStyle {
  import opened Wrappers
  import opened Strings
  import opened Layers

  /** The TypeErrors the derivation can throw, with the name of the layer being compiled. */
  datatype CompileError =
    | NoExportLayer(name: string)    // no export entry has the layer's name
    | NoTextTransform(name: string)  // the matching export entry has no `text.transform`
    | NoStyleRun(name: string)       // `RunArray` is empty
    | NoColor(name: string)          // `colors()` is empty

  /** `xs[1] || xs[0]` on a list of objects: the second entry when present, else the first. */
  function SecondElseFirst<T>(xs: seq<T>): (r: Option<T>)
    ensures r.Some? <==> |xs| > 0
    ensures |xs| > 1 ==> r == Some(xs[1])
    ensures |xs| == 1 ==> r == Some(xs[0])
  {
    if |xs| > 1 then Some(xs[1]) else if |xs| == 1 then Some(xs[0]) else None
  }

  /** `Math.round` on an exact real: the nearest integer, a half rounding towards +infinity. */
  function RoundHalfUp(x: real): (r: int)
    ensures r as real - 0.5 <= x < r as real + 0.5
  {
    (x + 0.5).Floor
  }

  /** The rounding interval determines the result. */
  lemma RoundHalfUpUnique(x: real, n: int)
    requires n as real - 0.5 <= x < n as real + 0.5
    ensures RoundHalfUp(x) == n
  {
  }

  /** `Math.round(FontSize * xx)`. */
  function FontSize(sheet: StyleSheetData, textScale: real): (r: int)
    ensures r as real - 0.5 <= sheet.fontSize * textScale < r as real + 0.5
  {
    RoundHalfUp(sheet.fontSize * textScale)
  }

  /** Scale-factor identity: an integer size at scale 1 is unchanged; 24 at scale 0.5 is 12. */
  lemma FontSizeAtUnitScale(sheet: StyleSheetData, size: int)
    requires sheet.fontSize == size as real
    ensures FontSize(sheet, 1.0) == size
    ensures sheet.fontSize == 24.0 ==> FontSize(sheet, 0.5) == 12
  {
    RoundHalfUpUnique(size as real * 1.0, size);
    if sheet.fontSize == 24.0 {
      RoundHalfUpUnique(12.0, 12);
    }
  }

  /** Halves go up on both sides of zero, as in JavaScript. */
  lemma RoundHalfUpOnHalves(n: int)
    ensures RoundHalfUp(n as real + 0.5) == n + 1
    ensures RoundHalfUp(n as real - 0.5) == n
  {
    RoundHalfUpUnique(n as real + 0.5, n + 1);
    RoundHalfUpUnique(n as real - 0.5, n);
  }

  /** Each channel in decimal, as template-literal interpolation of `join` renders numbers. */
  function DecimalStrings(channels: seq<nat>): (r: seq<string>)
    ensures |r| == |channels|
  {
    seq(|channels|, i requires 0 <= i < |channels| => NatToDecimal(channels[i]))
  }

  /** `` `rgba(${channels.join(', ')})` ``. */
  function Rgba(channels: seq<nat>): (r: string)
    ensures |r| >= 6 && r[..5] == "rgba(" && r[|r| - 1] == ')'
  {
    "rgba(" + Join(DecimalStrings(channels), ", ") + ")"
  }

  /** Reads the fields after the first back: each must be one space followed by decimal digits. */
  function ParseSpacedDecimals(fields: seq<string>): Option<seq<nat>>
    decreases |fields|
  {
    if |fields| == 0 then Some([])
    else if |fields[0]| >= 1 && fields[0][0] == ' ' then
      match (ParseDecimal(fields[0][1..]), ParseSpacedDecimals(fields[1..]))
      case (Some(v), Some(vs)) => Some([v] + vs)
      case _ => None
    else None
  }

  /** Reads an `rgba(...)` string back into its channel values. */
  function ParseRgba(s: string): Option<seq<nat>>
  {
    if |s| >= 6 && s[..5] == "rgba(" && s[|s| - 1] == ')' then
      var fields := Split(s[5..|s| - 1], ',');
      match (ParseDecimal(fields[0]), ParseSpacedDecimals(fields[1..]))
      case (Some(v), Some(vs)) => Some([v] + vs)
      case _ => None
    else None
  }

  lemma {:induction false} ParseSpacedRoundTrip(channels: seq<nat>)
    ensures ParseSpacedDecimals(Spaced(DecimalStrings(channels))) == Some(channels)
    decreases |channels|
  {
    var fs := Spaced(DecimalStrings(channels));
    if |channels| > 0 {
      ParseSpacedRoundTrip(channels[1..]);
      assert fs[1..] == Spaced(DecimalStrings(channels[1..]));
      assert fs[0][1..] == NatToDecimal(channels[0]);
      DecimalRoundTrip(channels[0]);
      assert [channels[0]] + channels[1..] == channels;
    }
  }

  /** The fill string loses nothing: the channels can be read back from it. */
  lemma RgbaRoundTrip(channels: seq<nat>)
    requires |channels| >= 1
    ensures ParseRgba(Rgba(channels)) == Some(channels)
  {
    var ds := DecimalStrings(channels);
    var s := Rgba(channels);
    assert forall k :: 0 <= k < |ds| ==> ',' !in ds[k];
    SplitJoinCommaSpace(ds);
    assert s[..5] == "rgba(";
    assert s[5..|s| - 1] == Join(ds, ", ");
    DecimalRoundTrip(channels[0]);
    ParseSpacedRoundTrip(channels[1..]);
    assert ds[1..] == DecimalStrings(channels[1..]);
    assert [channels[0]] + channels[1..] == channels;
  }

  /** `fonts().join(', ')`. */
  function FontFamily(fonts: seq<string>): (r: string)
    ensures |fonts| == 0 ==> r == ""
    ensures |fonts| > 0 ==> fonts[0] <= r
  {
    Join(fonts, ", ")
  }

  /** The font list can be recovered from the family string when no font name holds a comma. */
  lemma FontFamilyRecoversFonts(fonts: seq<string>)
    requires |fonts| >= 1
    requires forall k :: 0 <= k < |fonts| ==> ',' !in fonts[k]
    ensures Split(FontFamily(fonts), ',') == [fonts[0]] + Spaced(fonts[1..])
  {
    SplitJoinCommaSpace(fonts);
  }

  predicate IsLowerAscii(c: char) { 'a' <= c <= 'z' }

  function UpperChar(c: char): char
  {
    if IsLowerAscii(c) then (c as int - 32) as char else c
  }

  /** `toUpperCase()` on the ASCII letters. */
  function ToUpperCase(s: string): (r: string)
    ensures |r| == |s|
    ensures forall i :: 0 <= i < |r| ==> !IsLowerAscii(r[i])
    ensures forall i :: 0 <= i < |s| && !IsLowerAscii(s[i]) ==> r[i] == s[i]
    ensures forall i :: 0 <= i < |s| && IsLowerAscii(s[i]) ==> r[i] as int == s[i] as int - 32
  {
    seq(|s|, i requires 0 <= i < |s| => UpperChar(s[i]))
  }

  lemma ToUpperCaseIdempotent(s: string)
    ensures ToUpperCase(ToUpperCase(s)) == ToUpperCase(s)
  {
  }

  /** `FontCaps === 2 ? textValue.toUpperCase() : textValue`. */
  function DisplayText(tool: TypeTool, sheet: StyleSheetData): (r: string)
    ensures sheet.fontCaps == Some(2) ==> r == ToUpperCase(tool.textValue)
    ensures sheet.fontCaps != Some(2) ==> r == tool.textValue
  {
    if sheet.fontCaps == Some(2) then ToUpperCase(tool.textValue) else tool.textValue
  }

  /** `FauxBold ? 'bold' : 'normal'`. */
  function FontStyle(sheet: StyleSheetData): (r: string)
    ensures r == "bold" <==> sheet.fauxBold
    ensures r == "bold" || r == "normal"
  {
    if sheet.fauxBold then "bold" else "normal"
  }

  datatype Style = Style(
    text: string,
    fontFamily: string,
    fontStyle: string,
    fontSize: int,
    fill: string,
    align: seq<string>)

  /**
   * The style of a text layer whose export entry has horizontal scale
   * `textScale`. The run is read before the colours, so an empty run list is
   * reported first.
   */
  function DeriveStyle(tool: TypeTool, textScale: real, name: string): (r: Result<Style, CompileError>)
    ensures |tool.runArray| == 0 ==> r == Err(NoStyleRun(name))
    ensures |tool.runArray| > 0 && |tool.colors| == 0 ==> r == Err(NoColor(name))
    ensures r.Ok? <==> |tool.runArray| > 0 && |tool.colors| > 0
    ensures r.Ok? ==>
      var sheet := tool.runArray[if |tool.runArray| > 1 then 1 else 0];
      && r.value.fontSize == RoundHalfUp(sheet.fontSize * textScale)
      && r.value.fill == Rgba(tool.colors[if |tool.colors| > 1 then 1 else 0])
      && r.value.fontFamily == Join(tool.fonts, ", ")
      && r.value.fontStyle == (if sheet.fauxBold then "bold" else "normal")
      && r.value.text == (if sheet.fontCaps == Some(2) then ToUpperCase(tool.textValue) else tool.textValue)
      && r.value.align == tool.alignment
  {
    match SecondElseFirst(tool.runArray)
    case None => Err(NoStyleRun(name))
    case Some(sheet) =>
      match SecondElseFirst(tool.colors)
      case None => Err(NoColor(name))
      case Some(color) =>
        Ok(Style(DisplayText(tool, sheet), FontFamily(tool.fonts), FontStyle(sheet),
                 FontSize(sheet, textScale), Rgba(color), tool.alignment))
  }
}
