/** Content-Length framing of JSON-RPC messages: one frame out, one frame in. */
module Wire {
  import opened Prelude
  import opened Control
  import opened Text
  import Json

  const HEADER_LIMIT: nat := 4096
  const FRAME_LIMIT: nat := 256 * 1024

  datatype Fault =
    | FrameLimit
    | HeaderLimit
    | HeaderEncoding
    | HeaderInvalid
    | HeaderUnsupported
    | LengthInvalid
    | LengthMissing
    | JsonInvalid
    | NotJsonRpc2

  /** The JSON printer and parser and the UTF-8 reader, which this model does not look into. */
  datatype Codec = Codec(
    render: Json.Value -> Bytes,
    parse: Bytes -> Option<Json.Value>,
    text: Bytes -> Option<string>)

  /** What is relied on: printing is undone by parsing, one line per value, and ASCII reads as itself. */
  ghost predicate Faithful(codec: Codec) {
    && (forall v :: codec.parse(codec.render(v)) == Some(v))
    && (forall v :: OneLine(codec.render(v)))
    && (forall s | IsAscii(s) :: codec.text(AsciiBytes(s)) == Some(s))
  }

  predicate OneLine(b: Bytes) {
    NEWLINE !in b && exists x | x in b :: !IsAsciiSpace(x)
  }

  const CR: byte := 13
  const NEWLINE: byte := 10

  predicate IsAsciiSpace(x: byte) {
    x in {9, 10, 12, 13, 32}
  }

  // ---------------------------------------------------------------- encoding

  function Header(n: nat): (h: string)
    ensures IsAscii(h)
  {
    "Content-Length: " + Numeral(n)
  }

  const BREAK: Bytes := [CR, NEWLINE, CR, NEWLINE]

  function Encode(codec: Codec, v: Json.Value): Result<Bytes, Fault> {
    var body := codec.render(v);
    if |body| > FRAME_LIMIT then Err(FrameLimit)
    else Ok(AsciiBytes(Header(|body|)) + BREAK + body)
  }

  // ---------------------------------------------------------------- decoding

  predicate BreaksAt(b: Bytes, i: nat) {
    i + 4 <= |b| && b[i..i + 4] == BREAK
  }

  /** The first blank line of a byte string. */
  function HeaderEnd(b: Bytes): (end: Option<nat>)
    ensures end.Some? ==> BreaksAt(b, end.value) && forall j: nat | j < end.value :: !BreaksAt(b, j)
    ensures end.None? ==> forall j: nat :: !BreaksAt(b, j)
  {
    HeaderEndFrom(b, 0)
  }

  function HeaderEndFrom(b: Bytes, from: nat): (end: Option<nat>)
    requires forall j: nat | j < from :: !BreaksAt(b, j)
    ensures end.Some? ==> BreaksAt(b, end.value) && forall j: nat | j < end.value :: !BreaksAt(b, j)
    ensures end.None? ==> forall j: nat :: !BreaksAt(b, j)
    decreases |b| - from
  {
    if from + 4 > |b| then None
    else if BreaksAt(b, from) then Some(from)
    else HeaderEndFrom(b, from + 1)
  }

  /** Splits at every CRLF. */
  function Lines(s: string): (lines: seq<string>)
    ensures lines != []
  {
    if s == [] then [[]]
    else if |s| >= 2 && s[0] == '\r' && s[1] == '\n' then [[]] + Lines(s[2..])
    else
      var rest := Lines(s[1..]);
      [[s[0]] + rest[0]] + rest[1..]
  }

  predicate SameIgnoringCase(a: string, b: string) {
    Lower(a) == Lower(b)
  }

  /** One header line, given the length read so far. */
  function HeaderLine(line: string, len: Option<nat>): Result<Option<nat>, Fault> {
    match SplitOnce(line, ':')
    case None => Err(HeaderInvalid)
    case Some((k, v)) =>
      if SameIgnoringCase(k, "Content-Length") then
        var digits := Trim(v);
        if len.Some? || digits == [] || !IsDigits(digits) then Err(LengthInvalid)
        else if NumeralValue(digits) > U64_MAX then Err(LengthInvalid)
        else Ok(Some(NumeralValue(digits)))
      else if SameIgnoringCase(k, "Content-Type") then Ok(len)
      else Err(HeaderUnsupported)
  }

  function HeaderLength(lines: seq<string>): Result<Option<nat>, Fault> {
    if lines == [] then Ok(None)
    else
      match HeaderLength(lines[..|lines| - 1])
      case Err(f) => Err(f)
      case Ok(len) => HeaderLine(lines[|lines| - 1], len)
  }

  /** The body length a header announces. */
  function Announced(codec: Codec, head: Bytes): Result<nat, Fault> {
    match codec.text(head)
    case None => Err(HeaderEncoding)
    case Some(text) =>
      match HeaderLength(Lines(text))
      case Err(f) => Err(f)
      case Ok(None) => Err(LengthMissing)
      case Ok(Some(n)) => if n == 0 || n > FRAME_LIMIT then Err(FrameLimit) else Ok(n)
  }

  predicate IsJsonRpc(v: Json.Value) {
    v.Object? && Json.StringAt(v, ["jsonrpc"]) == Some("2.0")
  }

  function Body(codec: Codec, b: Bytes): Result<Json.Value, Fault> {
    match codec.parse(b)
    case None => Err(JsonInvalid)
    case Some(v) => if IsJsonRpc(v) then Ok(v) else Err(NotJsonRpc2)
  }

  /** A complete frame at the front of the bytes, or None when more bytes are needed. */
  function Decode(codec: Codec, b: Bytes): Result<Option<(nat, Json.Value)>, Fault> {
    match HeaderEnd(b)
    case None => if |b| > HEADER_LIMIT then Err(HeaderLimit) else Ok(None)
    case Some(end) =>
      if end > HEADER_LIMIT then Err(HeaderLimit)
      else
        match Announced(codec, b[..end])
        case Err(f) => Err(f)
        case Ok(n) =>
          var total := end + 4 + n;
          if |b| < total then Ok(None)
          else
            match Body(codec, b[end + 4..total])
            case Err(f) => Err(f)
            case Ok(v) => Ok(Some((total, v)))
  }

  /** The decoder as written: one pass over the header lines, updating the length found so far. */
  method DecodeFrame(codec: Codec, b: Bytes) returns (res: Result<Option<(nat, Json.Value)>, Fault>)
    ensures res == Decode(codec, b)
  {
    var end := HeaderEnd(b);
    if end.None? {
      if |b| > HEADER_LIMIT {
        return Err(HeaderLimit);
      }
      return Ok(None);
    }
    if end.value > HEADER_LIMIT {
      return Err(HeaderLimit);
    }
    var header := codec.text(b[..end.value]);
    if header.None? {
      return Err(HeaderEncoding);
    }
    var lines := Lines(header.value);
    var len: Option<nat> := None;
    for i := 0 to |lines|
      invariant HeaderLength(lines[..i]) == Ok(len)
    {
      assert lines[..i + 1][..i] == lines[..i];
      var parts := SplitOnce(lines[i], ':');
      if parts.None? {
        HeaderStops(lines, i + 1);
        return Err(HeaderInvalid);
      }
      var (k, v) := parts.value;
      if SameIgnoringCase(k, "Content-Length") {
        var digits := Trim(v);
        if len.Some? || digits == [] || !IsDigits(digits) || NumeralValue(digits) > U64_MAX {
          HeaderStops(lines, i + 1);
          return Err(LengthInvalid);
        }
        len := Some(NumeralValue(digits));
      } else if !SameIgnoringCase(k, "Content-Type") {
        HeaderStops(lines, i + 1);
        return Err(HeaderUnsupported);
      }
    }
    assert lines[..|lines|] == lines;
    if len.None? {
      return Err(LengthMissing);
    }
    if len.value == 0 || len.value > FRAME_LIMIT {
      return Err(FrameLimit);
    }
    var total := end.value + 4 + len.value;
    if |b| < total {
      return Ok(None);
    }
    var v := codec.parse(b[end.value + 4..total]);
    if v.None? {
      return Err(JsonInvalid);
    }
    if !IsJsonRpc(v.value) {
      return Err(NotJsonRpc2);
    }
    return Ok(Some((total, v.value)));
  }

  /** A bad line spoils the whole header. */
  lemma {:induction false} HeaderStops(lines: seq<string>, i: nat)
    requires i <= |lines| && HeaderLength(lines[..i]).Err?
    ensures HeaderLength(lines) == HeaderLength(lines[..i])
    decreases |lines|
  {
    if i < |lines| {
      assert lines[..|lines| - 1][..i] == lines[..i];
      HeaderStops(lines[..|lines| - 1], i);
    } else {
      assert lines[..i] == lines;
    }
  }

  // ---------------------------------------------------------------- round trip

  lemma {:induction false} TrimNumeral(n: nat)
    ensures Trim(" " + Numeral(n)) == Numeral(n)
  {
    var s := Numeral(n);
    assert (" " + s)[1..] == s;
    assert forall c | IsDigit(c) :: !IsWhitespace(c);
    assert s[0] in s && s[|s| - 1] in s;
    assert TrimStart(s) == s && TrimEnd(s) == s;
  }

  lemma {:induction false} SingleLine(s: string)
    requires '\r' !in s
    ensures Lines(s) == [s]
  {
    if s != [] {
      SingleLine(s[1..]);
      assert [s[0]] + s[1..] == s;
    }
  }

  lemma EncoderHeader(codec: Codec, n: nat)
    requires Faithful(codec) && 0 < n <= FRAME_LIMIT
    ensures Announced(codec, AsciiBytes(Header(n))) == Ok(n)
    ensures |Header(n)| <= 22
    ensures CR !in AsciiBytes(Header(n))
  {
    var h := Header(n);
    SingleLine(h);
    assert h == "Content-Length" + [':'] + (" " + Numeral(n));
    SplitOnceMeaning("Content-Length", ':', " " + Numeral(n));
    TrimNumeral(n);
    NumeralRoundTrip(n);
    assert HeaderLine(h, None) == Ok(Some(n));
    assert [h][..0] == [];
    assert HeaderLength([h]) == Ok(Some(n));
    assert Power10(6) == 1000000;
    NumeralLength(n, 6);
  }

  /** In encoder output the first blank line is the one the encoder wrote, whatever follows it. */
  lemma EncoderBreak(h: Bytes, rest: Bytes)
    requires CR !in h
    ensures HeaderEnd(h + BREAK + rest) == Some(|h|)
  {
    var b := h + BREAK + rest;
    assert b[|h|..|h| + 4] == BREAK;
    assert BreaksAt(b, |h|);
    forall j: nat | j < |h| ensures !BreaksAt(b, j) {
      assert b[j] == h[j] && h[j] in h;
      assert b[j..j + 4][0] == b[j] && BREAK[0] == CR;
    }
  }

  /** Decoding an encoded message gives the message and leaves what follows it, even if the body looks like headers. */
  lemma RoundTrip(codec: Codec, v: Json.Value, rest: Bytes)
    requires Faithful(codec) && IsJsonRpc(v)
    requires Encode(codec, v).Ok?
    ensures var frame := Encode(codec, v).value;
            Decode(codec, frame + rest) == Ok(Some((|frame|, v)))
  {
    var body := codec.render(v);
    var h := AsciiBytes(Header(|body|));
    assert OneLine(body);
    EncoderHeader(codec, |body|);
    var b := Encode(codec, v).value + rest;
    assert b == h + BREAK + (body + rest);
    EncoderBreak(h, body + rest);
    assert b[..|h|] == h;
    assert b[|h| + 4..|h| + 4 + |body|] == body;
  }

  /** Every strict prefix of a frame asks for more bytes. */
  lemma PrefixWaits(codec: Codec, v: Json.Value, k: nat)
    requires Faithful(codec) && IsJsonRpc(v)
    requires Encode(codec, v).Ok? && k < |Encode(codec, v).value|
    ensures Decode(codec, Encode(codec, v).value[..k]) == Ok(None)
  {
    var body := codec.render(v);
    var h := AsciiBytes(Header(|body|));
    assert OneLine(body);
    EncoderHeader(codec, |body|);
    var p := Encode(codec, v).value[..k];
    if k < |h| + 4 {
      forall j: nat ensures !BreaksAt(p, j) {
        if j + 4 <= |p| {
          assert p[j] == h[j] && h[j] in h;
          assert p[j..j + 4][0] == p[j] && BREAK[0] == CR;
        }
      }
    } else {
      assert p == h + BREAK + body[..k - |h| - 4];
      EncoderBreak(h, body[..k - |h| - 4]);
      assert p[..|h|] == h;
    }
  }

  // ---------------------------------------------------------------- how much of the stream has arrived

  /** The header ends so close to the limit that the last bytes of its blank line matter. */
  predicate IsSensitive(b: Bytes) {
    var end := HeaderEnd(b);
    end.Some? && HEADER_LIMIT - 2 <= end.value <= HEADER_LIMIT
  }

  lemma HeaderEndOfPrefix(p: Bytes, s: Bytes)
    requires p <= s
    ensures HeaderEnd(p).Some? ==> HeaderEnd(s) == HeaderEnd(p)
    ensures HeaderEnd(p).None? && HeaderEnd(s).Some? ==> HeaderEnd(s).value + 4 > |p|
  {
    forall j: nat | j + 4 <= |p| ensures BreaksAt(p, j) <==> BreaksAt(s, j) {
      assert p[j..j + 4] == s[j..j + 4];
    }
  }

  /** A prefix of the stream gives the answer of the whole stream or asks for more. */
  predicate Settled(codec: Codec, p: Bytes, s: Bytes) {
    Decode(codec, p) == Ok(None) || Decode(codec, p) == Decode(codec, s)
  }

  lemma PrefixSettles(codec: Codec, p: Bytes, s: Bytes)
    requires p <= s && !IsSensitive(s)
    ensures Settled(codec, p, s)
  {
    HeaderEndOfPrefix(p, s);
    if HeaderEnd(p).Some? {
      var end := HeaderEnd(p).value;
      assert p[..end] == s[..end];
      if end <= HEADER_LIMIT && Announced(codec, p[..end]).Ok? {
        var total := end + 4 + Announced(codec, p[..end]).value;
        if total <= |p| {
          assert p[end + 4..total] == s[end + 4..total];
        }
      }
    }
  }

  /**
   * Decoding does not depend on how much of the stream has arrived exactly when the header does not
   * end within the last three positions the limit allows.
   */
  lemma ArrivalMattersOnlyAtTheLimit(codec: Codec, s: Bytes)
    ensures (forall p | p <= s :: Settled(codec, p, s)) <==> !IsSensitive(s)
  {
    if IsSensitive(s) {
      var p := s[..HEADER_LIMIT + 1];
      HeaderEndOfPrefix(p, s);
      assert Decode(codec, p) == Err(HeaderLimit);
      var end := HeaderEnd(s).value;
      AnnouncedFault(codec, s[..end]);
      BodyFault(codec, s);
      assert !Settled(codec, p, s);
    } else {
      forall p | p <= s ensures Settled(codec, p, s) {
        PrefixSettles(codec, p, s);
      }
    }
  }

  lemma {:induction false} HeaderLengthFault(lines: seq<string>)
    ensures HeaderLength(lines) != Err(HeaderLimit)
  {
    if lines != [] {
      HeaderLengthFault(lines[..|lines| - 1]);
    }
  }

  lemma AnnouncedFault(codec: Codec, head: Bytes)
    ensures Announced(codec, head) != Err(HeaderLimit)
  {
    if codec.text(head).Some? {
      HeaderLengthFault(Lines(codec.text(head).value));
    }
  }

  lemma BodyFault(codec: Codec, b: Bytes)
    ensures Body(codec, b) != Err(HeaderLimit)
  {
  }

  /** Encoder output is never sensitive. */
  lemma EncoderIsInsensitive(codec: Codec, v: Json.Value, rest: Bytes)
    requires Faithful(codec) && Encode(codec, v).Ok?
    ensures !IsSensitive(Encode(codec, v).value + rest)
  {
    var body := codec.render(v);
    var h := AsciiBytes(Header(|body|));
    assert OneLine(body);
    EncoderHeader(codec, |body|);
    EncoderBreak(h, body + rest);
    assert Encode(codec, v).value + rest == h + BREAK + (body + rest);
  }
}
