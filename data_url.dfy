/**
 * `dataURLtoBlob`: the media type of a data URL (the `mediatype` of section 3
 * of RFC 2397, as the regular expression `/:(.*?);/` finds it), the payload
 * after the first comma, and the byte copy of the decoded payload.
 */
module DataUrl {
  import opened Wrappers
  import opened Strings

  newtype byte = x: int | 0 <= x < 256

  datatype Blob = Blob(bytes: seq<byte>, mimeType: string)

  /** The two TypeErrors / DOMExceptions the conversion can throw. */
  datatype ConversionError =
    | NoMediaType    // `match` returned null and was indexed
    | DecodeFailed   // `atob` rejected the payload

  /** The characters `.` does not match in a JavaScript regular expression. */
  predicate IsLineTerminator(c: char)
  {
    c == '\n' || c == '\r' || c == '\U{2028}' || c == '\U{2029}'
  }

  /** Where the lazy `(.*?);` started at `from` stops: the first `;`, unless a line terminator comes first. */
  function LazyEnd(h: string, from: nat): (r: Option<nat>)
    requires from <= |h|
    ensures r.Some? ==> from <= r.value < |h| && h[r.value] == ';'
    ensures r.Some? ==> forall k :: from <= k < r.value ==> h[k] != ';' && !IsLineTerminator(h[k])
    decreases |h| - from
  {
    if from == |h| then None
    else if h[from] == ';' then Some(from)
    else if IsLineTerminator(h[from]) then None
    else LazyEnd(h, from + 1)
  }

  /** The lazy group fails only where every later `;` has a line terminator before it. */
  lemma {:induction false} LazyEndNone(h: string, from: nat)
    requires from <= |h| && LazyEnd(h, from).None?
    ensures forall e :: from <= e < |h| && h[e] == ';' ==> exists k :: from <= k < e && IsLineTerminator(h[k])
    decreases |h| - from
  {
    if from < |h| && h[from] != ';' && !IsLineTerminator(h[from]) {
      LazyEndNone(h, from + 1);
    }
  }

  /** The leftmost match of `/:(.*?);/` at or after `i`, as the positions of its `:` and `;`. */
  function MatchFrom(h: string, i: nat): (r: Option<(nat, nat)>)
    requires i <= |h|
    ensures r.Some? ==> i <= r.value.0 < r.value.1 < |h| && h[r.value.0] == ':' && LazyEnd(h, r.value.0 + 1) == Some(r.value.1)
    ensures r.Some? ==> forall c :: i <= c < r.value.0 && h[c] == ':' ==> LazyEnd(h, c + 1).None?
    decreases |h| - i
  {
    if i == |h| then None
    else if h[i] == ':' && LazyEnd(h, i + 1).Some? then Some((i, LazyEnd(h, i + 1).value))
    else MatchFrom(h, i + 1)
  }

  /** There is no match exactly when the lazy group fails after every `:`. */
  lemma {:induction false} MatchFromNone(h: string, i: nat)
    requires i <= |h|
    ensures MatchFrom(h, i).None? <==> forall c :: i <= c < |h| && h[c] == ':' ==> LazyEnd(h, c + 1).None?
    decreases |h| - i
  {
    if i < |h| && !(h[i] == ':' && LazyEnd(h, i + 1).Some?) {
      MatchFromNone(h, i + 1);
    }
  }

  /** `header.match(/:(.*?);/)[1]`, None where `match` gives null. */
  function MediaType(header: string): (r: Option<string>)
    ensures r.None? <==> forall c :: 0 <= c < |header| && header[c] == ':' ==> LazyEnd(header, c + 1).None?
    ensures r.Some? ==> |r.value| < |header|
  {
    MatchFromNone(header, 0);
    match MatchFrom(header, 0)
    case None => None
    case Some((c, e)) => Some(header[c + 1..e])
  }

  /** The matched media type contains neither `;` nor a line terminator. */
  lemma MediaTypeIsPlain(header: string)
    requires MediaType(header).Some?
    ensures ';' !in MediaType(header).value
    ensures forall k :: 0 <= k < |MediaType(header).value| ==> !IsLineTerminator(MediaType(header).value[k])
  {
    var m := MatchFrom(header, 0).value;
    var mt := MediaType(header).value;
    assert forall k :: 0 <= k < |mt| ==> mt[k] == header[m.0 + 1 + k];
  }

  /**
   * When the first `:` of a header is followed by a `;` with no line break in
   * between, the media type is the text strictly between the two.
   */
  lemma MediaTypeBetween(header: string, c: nat, e: nat)
    requires c < e < |header| && header[c] == ':' && header[e] == ';'
    requires forall k :: 0 <= k < c ==> header[k] != ':'
    requires forall k :: c < k < e ==> header[k] != ';' && !IsLineTerminator(header[k])
    ensures MediaType(header) == Some(header[c + 1..e])
  {
    LazyEndTo(header, c + 1, e);
    MatchFromNone(header, 0);
    var m := MatchFrom(header, 0);
    assert m.Some?;
    assert m.value.0 == c;
  }

  /** When no `;` follows the first `:` of a header, there is no media type. */
  lemma NoMediaTypeWithoutSemicolon(header: string, c: nat)
    requires c < |header| && header[c] == ':'
    requires forall k :: 0 <= k < c ==> header[k] != ':'
    requires forall k :: c < k < |header| ==> header[k] != ';'
    ensures MediaType(header).None?
  {
    assert forall c' :: 0 <= c' < |header| && header[c'] == ':' ==> LazyEnd(header, c' + 1).None?;
  }

  /** A header without `:` has no media type. */
  lemma NoMediaTypeWithoutColon(header: string)
    requires ':' !in header
    ensures MediaType(header).None?
  {
  }

  /** The header `data:<t>;base64` gives the media type `t` when `t` holds no `;` and no line break. */
  lemma DataHeaderMediaType(t: string)
    requires ';' !in t
    requires forall k :: 0 <= k < |t| ==> !IsLineTerminator(t[k])
    ensures MediaType("data:" + t + ";base64") == Some(t)
  {
    var h := "data:" + t + ";base64";
    var e := 5 + |t|;
    assert h[4] == ':' && h[e] == ';';
    assert forall k :: 0 <= k < 4 ==> h[k] != ':';
    assert forall k :: 4 < k < e ==> h[k] == t[k - 5];
    MediaTypeBetween(h, 4, e);
    assert h[5..e] == t;
  }

  /** The usual header of an exported image. */
  lemma PngMediaType(h: string)
    requires h == "data:image/png;base64"
    ensures MediaType(h) == Some("image/png")
  {
    assert h == "data:" + "image/png" + ";base64";
    DataHeaderMediaType("image/png");
  }

  /** A media type written in capitals is matched as written, and the Blob then keeps it in lower case. */
  lemma UpperCaseMediaType(h: string)
    requires h == "data:Image/PNG;base64"
    ensures MediaType(h) == Some("Image/PNG")
    ensures BlobType(MediaType(h).value) == "image/png"
  {
    assert h == "data:" + "Image/PNG" + ";base64";
    DataHeaderMediaType("Image/PNG");
    UpperCaseBlobType("Image/PNG");
  }

  /** The lazy group ends at the first `;` when no line break comes before it. */
  lemma {:induction false} LazyEndTo(h: string, from: nat, e: nat)
    requires from <= e < |h| && h[e] == ';'
    requires forall k :: from <= k < e ==> h[k] != ';' && !IsLineTerminator(h[k])
    ensures LazyEnd(h, from) == Some(e)
    decreases e - from
  {
    if from < e {
      LazyEndTo(h, from + 1, e);
    }
  }

  /** `dataurl.split(',')[0]`. */
  function Header(dataurl: string): (r: string)
    ensures r <= dataurl && ',' !in r
    ensures |r| < |dataurl| ==> dataurl[|r|] == ','
  {
    SplitFirst(dataurl, ',');
    Split(dataurl, ',')[0]
  }

  /** `dataurl.split(',')[1]`; when there is no comma `atob` receives `undefined`, read as "undefined". */
  function Payload(dataurl: string): (r: string)
    ensures ',' !in r
    ensures ',' !in dataurl ==> r == "undefined"
  {
    var parts := Split(dataurl, ',');
    assert ',' !in dataurl ==> parts == [dataurl] by {
      if ',' !in dataurl { SplitNoSeparator(dataurl, ','); }
    }
    if |parts| > 1 then parts[1] else "undefined"
  }

  /** The header is the text before the first comma, and the payload runs from there to the next comma. */
  lemma HeaderAndPayload(a: string, b: string, rest: string)
    requires ',' !in a && ',' !in b
    ensures Header(a) == a && Payload(a) == "undefined"
    ensures Header(a + [','] + b) == a && Payload(a + [','] + b) == b
    ensures Header(a + [','] + b + [','] + rest) == a && Payload(a + [','] + b + [','] + rest) == b
  {
    SplitNoSeparator(a, ',');
    SplitAtSeparator(a, b, ',');
    SplitNoSeparator(b, ',');
    assert a + [','] + b + [','] + rest == a + [','] + (b + [','] + rest);
    SplitAtSeparator(a, b + [','] + rest, ',');
    SplitAtSeparator(b, rest, ',');
  }

  /** The characters a Blob type may hold: U+0020 to U+007E. */
  predicate IsPrintableAscii(c: char)
  {
    ' ' <= c <= '~'
  }

  function AsciiLowerChar(c: char): char
  {
    if 'A' <= c <= 'Z' then (c as int + 32) as char else c
  }

  /**
   * The `type` the Blob constructor keeps (section 3.1 of the W3C File API):
   * empty when a character lies outside U+0020 to U+007E, otherwise the
   * given type in ASCII lower case.
   */
  function BlobType(t: string): (r: string)
    ensures (exists k :: 0 <= k < |t| && !IsPrintableAscii(t[k])) ==> r == ""
    ensures (forall k :: 0 <= k < |t| ==> IsPrintableAscii(t[k])) ==>
      |r| == |t| && forall k :: 0 <= k < |t| ==> r[k] == AsciiLowerChar(t[k])
    ensures forall k :: 0 <= k < |r| ==> IsPrintableAscii(r[k]) && !('A' <= r[k] <= 'Z')
  {
    if forall k :: 0 <= k < |t| ==> IsPrintableAscii(t[k]) then
      seq(|t|, k requires 0 <= k < |t| => AsciiLowerChar(t[k]))
    else ""
  }

  /** A type the constructor has normalised is kept as it is. */
  lemma BlobTypeIdempotent(t: string)
    ensures BlobType(BlobType(t)) == BlobType(t)
  {
    var r := BlobType(t);
    assert forall k :: 0 <= k < |r| ==> AsciiLowerChar(r[k]) == r[k];
  }

  /** The Blob constructor keeps a capitalised type in lower case. */
  lemma UpperCaseBlobType(t: string)
    requires t == "Image/PNG"
    ensures BlobType(t) == "image/png"
  {
    assert forall k :: 0 <= k < |t| ==> IsPrintableAscii(t[k]);
    var r := BlobType(t);
    assert |r| == 9;
    assert r[0] == 'i' && r[1] == 'm' && r[2] == 'a' && r[3] == 'g' && r[4] == 'e' && r[5] == '/';
    assert r[6] == 'p' && r[7] == 'n' && r[8] == 'g';
  }

  /** `u8arr[n] = bstr.charCodeAt(n)`: the code unit, reduced modulo 256 by the Uint8Array store. */
  function CharCodeByte(c: char): (r: byte)
    ensures r as int == (c as int) % 256
    ensures (c as int) < 256 ==> r as int == c as int
  {
    ((c as int) % 256) as byte
  }

  /**
   * `dataURLtoBlob`. `atob` is a parameter: None stands for the exception it
   * throws on input that is not base64.
   */
  method DataUrlToBlob(dataurl: string, atob: string -> Option<string>) returns (r: Result<Blob, ConversionError>)
    ensures MediaType(Header(dataurl)).None? ==> r == Err(NoMediaType)
    ensures MediaType(Header(dataurl)).Some? && atob(Payload(dataurl)).None? ==> r == Err(DecodeFailed)
    ensures MediaType(Header(dataurl)).Some? && atob(Payload(dataurl)).Some? ==>
      var bstr := atob(Payload(dataurl)).value;
      && r.Ok?
      && r.value.mimeType == BlobType(MediaType(Header(dataurl)).value)
      && |r.value.bytes| == |bstr|
      && forall i :: 0 <= i < |bstr| ==> r.value.bytes[i] == CharCodeByte(bstr[i])
  {
    var arr := Split(dataurl, ',');
    var mime := MediaType(arr[0]);
    if mime.None? {
      return Err(NoMediaType);
    }
    var decoded := atob(if |arr| > 1 then arr[1] else "undefined");
    if decoded.None? {
      return Err(DecodeFailed);
    }
    var bstr := decoded.value;
    var n := |bstr|;
    var u8arr := new byte[n](_ => 0);
    while n > 0
      invariant 0 <= n <= u8arr.Length == |bstr|
      invariant forall k :: n <= k < |bstr| ==> u8arr[k] == CharCodeByte(bstr[k])
      invariant forall k :: 0 <= k < n ==> u8arr[k] == 0
    {
      n := n - 1;
      u8arr[n] := CharCodeByte(bstr[n]);
    }
    r := Ok(Blob(u8arr[..], BlobType(mime.value)));
  }
}
