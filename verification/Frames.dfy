/**
 * What the frame decoder accepts, told from the bytes: the header lines, the announced length and the
 * body, and for every other input why it waits or refuses.
 */
module Frames {
  import opened Prelude
  import opened Control
  import opened Text
  import opened Wire
  import Json

  // ---------------------------------------------------------------- header lines

  /** The line is a name, a colon and a value, and this is its first colon. */
  predicate IsField(line: string, name: string, value: string) {
    line == name + ":" + value && ':' !in name
  }

  /** Digits between any white space. */
  ghost predicate IsDigitsIn(value: string, digits: string) {
    && digits != "" && IsDigits(digits)
    && exists left, right :: IsBlank(left) && IsBlank(right) && value == left + digits + right
  }

  ghost predicate IsNamed(line: string, name: string) {
    exists field, value :: IsField(line, field, value) && Lower(field) == name
  }

  /** The line announces n bytes. */
  ghost predicate Announces(line: string, n: nat) {
    exists field, value, digits ::
      && IsField(line, field, value) && Lower(field) == "content-length"
      && IsDigitsIn(value, digits) && NumeralValue(digits) == n <= 0xFFFF_FFFF_FFFF_FFFF
  }

  lemma {:induction false} FieldMeaning(line: string, name: string, value: string)
    ensures SplitOnce(line, ':') == Some((name, value)) <==> IsField(line, name, value)
  {
    if line != [] {
      if line[0] == ':' {
        assert line == [] + ":" + line[1..];
      } else {
        var rest := if name == [] then [] else name[1..];
        FieldMeaning(line[1..], rest, value);
        if name != [] && line[0] == name[0] {
          assert name == [name[0]] + name[1..];
          assert line == name + ":" + value <==> line[1..] == name[1..] + ":" + value;
        }
      }
    }
  }

  lemma FieldExists(line: string)
    ensures SplitOnce(line, ':').None? <==> ':' !in line
    ensures SplitOnce(line, ':').Some? ==>
      IsField(line, SplitOnce(line, ':').value.0, SplitOnce(line, ':').value.1)
  {
    if SplitOnce(line, ':').Some? {
      FieldMeaning(line, SplitOnce(line, ':').value.0, SplitOnce(line, ':').value.1);
    } else if ':' in line {
      var i := FirstColon(line);
      FieldMeaning(line, line[..i], line[i + 1..]);
    }
  }

  lemma {:induction false} FirstColon(line: string) returns (i: nat)
    requires ':' in line
    ensures i < |line| && line[i] == ':' && ':' !in line[..i] && line == line[..i] + ":" + line[i + 1..]
  {
    if line[0] == ':' {
      i := 0;
    } else {
      i := FirstColon(line[1..]);
      i := i + 1;
      assert line[..i] == [line[0]] + line[1..][..i - 1];
    }
  }

  lemma {:induction false} TrimStartParts(s: string) returns (left: string)
    ensures IsBlank(left) && s == left + TrimStart(s)
    ensures TrimStart(s) == "" || !IsWhitespace(TrimStart(s)[0])
  {
    left := [];
    if s != [] && IsWhitespace(s[0]) {
      left := TrimStartParts(s[1..]);
      left := [s[0]] + left;
    }
  }

  lemma {:induction false} TrimEndParts(s: string) returns (right: string)
    ensures IsBlank(right) && s == TrimEnd(s) + right
    ensures TrimEnd(s) == "" || !IsWhitespace(TrimEnd(s)[|TrimEnd(s)| - 1])
  {
    right := [];
    if s != [] && IsWhitespace(s[|s| - 1]) {
      right := TrimEndParts(s[..|s| - 1]);
      right := right + [s[|s| - 1]];
    }
  }

  lemma {:induction false} TrimStartDrops(left: string, s: string)
    requires IsBlank(left) && (s == "" || !IsWhitespace(s[0]))
    ensures TrimStart(left + s) == s
  {
    if left == [] {
      assert left + s == s;
    } else {
      assert left[0] in left && (left + s)[1..] == left[1..] + s;
      TrimStartDrops(left[1..], s);
    }
  }

  lemma {:induction false} TrimEndDrops(s: string, right: string)
    requires IsBlank(right) && (s == "" || !IsWhitespace(s[|s| - 1]))
    ensures TrimEnd(s + right) == s
    decreases |right|
  {
    if right == [] {
      assert s + right == s;
    } else {
      var n := |right| - 1;
      assert right[n] in right && (s + right)[..|s| + n] == s + right[..n];
      assert forall c | c in right[..n] :: c in right;
      TrimEndDrops(s, right[..n]);
    }
  }

  lemma TrimLeaves(value: string, digits: string)
    requires digits != "" && IsDigits(digits) && Trim(value) == digits
    ensures IsDigitsIn(value, digits)
  {
    hide IsBlank;
    hide TrimStart;
    hide TrimEnd;
    var left := TrimStartParts(value);
    var right := TrimEndParts(TrimStart(value));
    assert value == left + digits + right;
  }

  lemma TrimDrops(left: string, digits: string, right: string)
    requires digits != "" && IsDigits(digits) && IsBlank(left) && IsBlank(right)
    ensures Trim(left + digits + right) == digits
  {
    hide IsBlank;
    hide TrimStart;
    hide TrimEnd;
    assert digits[0] in digits && digits[|digits| - 1] in digits;
    assert left + digits + right == left + (digits + right);
    TrimStartDrops(left, digits + right);
    TrimEndDrops(digits, right);
  }

  /** Trimming leaves digits exactly when there is nothing but white space around them. */
  lemma TrimMeaning(value: string, digits: string)
    requires digits != "" && IsDigits(digits)
    ensures Trim(value) == digits <==> IsDigitsIn(value, digits)
  {
    hide Trim;
    hide IsBlank;
    if Trim(value) == digits {
      TrimLeaves(value, digits);
    }
    if IsDigitsIn(value, digits) {
      var left, right :| IsBlank(left) && IsBlank(right) && value == left + digits + right;
      TrimDrops(left, digits, right);
    }
  }

  lemma LineMeaning(line: string, len: Option<nat>, n: nat)
    ensures HeaderLine(line, len) == Ok(Some(n)) <==>
      (len.None? && Announces(line, n)) || (len == Some(n) && IsNamed(line, "content-type"))
    ensures HeaderLine(line, len) == Ok(None) <==> len.None? && IsNamed(line, "content-type")
  {
    hide Lower;
    hide Trim;
    hide IsDigitsIn;
    FieldExists(line);
    NamesDiffer();
    if SplitOnce(line, ':').Some? {
      var (name, value) := SplitOnce(line, ':').value;
      forall field, other ensures IsField(line, field, other) <==> field == name && other == value {
        FieldMeaning(line, field, other);
      }
      hide IsField;
      if Trim(value) != "" && IsDigits(Trim(value)) {
        TrimMeaning(value, Trim(value));
      }
      forall digits | IsDigitsIn(value, digits) ensures Trim(value) == digits && digits != "" && IsDigits(digits) {
        DigitsInAre(value, digits);
        TrimMeaning(value, digits);
      }
    } else {
      forall field, other ensures !IsField(line, field, other) {
        FieldMeaning(line, field, other);
      }
    }
  }

  lemma DigitsInAre(value: string, digits: string)
    requires IsDigitsIn(value, digits)
    ensures digits != "" && IsDigits(digits)
  {
  }

  lemma NamesDiffer()
    ensures Lower("Content-Length") == "content-length" && Lower("Content-Type") == "content-type"
  {
  }

  /** One line announces n bytes, and every other is a content type. */
  ghost predicate IsHeader(lines: seq<string>, n: nat) {
    exists i: nat :: IsOnlyLength(lines, n, i)
  }

  ghost predicate IsOnlyLength(lines: seq<string>, n: nat, i: nat) {
    && i < |lines| && Announces(lines[i], n)
    && forall j | 0 <= j < |lines| && j != i :: IsNamed(lines[j], "content-type")
  }

  ghost predicate AreTypes(lines: seq<string>) {
    forall j | 0 <= j < |lines| :: IsNamed(lines[j], "content-type")
  }

  lemma {:induction false} HeaderMeaning(lines: seq<string>, n: nat)
    ensures HeaderLength(lines) == Ok(Some(n)) <==> IsHeader(lines, n)
    ensures HeaderLength(lines) == Ok(None) <==> AreTypes(lines)
  {
    hide HeaderLine;
    hide Announces;
    hide IsNamed;
    if lines != [] {
      var m := |lines| - 1;
      var front, last := lines[..m], lines[m];
      HeaderMeaning(front, n);
      var len := HeaderLength(front);
      if len.Ok? {
        LineMeaning(last, len.value, n);
        if len.value.Some? {
          HeaderMeaning(front, len.value.value);
          LineMeaning(last, len.value, len.value.value);
        }
      }
      HeaderSnoc(front, last, n);
      assert lines == front + [last];
      forall k: nat ensures len == Ok(Some(k)) ==> IsHeader(front, k) {
        HeaderMeaning(front, k);
      }
    }
  }

  lemma HeaderSnoc(front: seq<string>, last: string, n: nat)
    ensures AreTypes(front + [last]) <==> AreTypes(front) && IsNamed(last, "content-type")
    ensures IsHeader(front + [last], n) <==>
      (IsHeader(front, n) && IsNamed(last, "content-type")) || (AreTypes(front) && Announces(last, n))
  {
    hide Announces;
    hide IsNamed;
    var all, m := front + [last], |front|;
    assert forall j | 0 <= j < m :: all[j] == front[j];
    if i: nat :| IsOnlyLength(front, n, i) && IsNamed(last, "content-type") {
      assert IsOnlyLength(all, n, i);
    }
    if AreTypes(front) && Announces(last, n) {
      assert IsOnlyLength(all, n, m);
    }
    if i: nat :| IsOnlyLength(all, n, i) {
      if i < m {
        assert IsNamed(all[m], "content-type") && all[m] == last;
        forall j | 0 <= j < m && j != i ensures IsNamed(front[j], "content-type") {
          assert all[j] == front[j];
        }
        assert front[i] == all[i];
        assert IsOnlyLength(front, n, i);
      } else {
        forall j | 0 <= j < m ensures IsNamed(front[j], "content-type") {
          assert all[j] == front[j];
        }
      }
    }
  }

  // ---------------------------------------------------------------- lines

  /** Lines put together again, with a carriage return and a line feed between them. */
  function Joined(lines: seq<string>): string
    requires lines != []
  {
    if |lines| == 1 then lines[0] else lines[0] + "\r\n" + Joined(lines[1..])
  }

  predicate HasBreak(s: string) {
    exists i | 0 <= i < |s| - 1 :: s[i] == '\r' && s[i + 1] == '\n'
  }

  ghost predicate HaveNoBreak(lines: seq<string>) {
    forall line | line in lines :: !HasBreak(line)
  }

  lemma NoBreakInFront(c: char, line: string)
    requires !HasBreak(line) && !(c == '\r' && line != "" && line[0] == '\n')
    ensures !HasBreak([c] + line)
  {
    var s := [c] + line;
    forall i | 0 <= i < |s| - 1 ensures !(s[i] == '\r' && s[i + 1] == '\n') {
      assert i > 0 ==> s[i] == line[i - 1] && s[i + 1] == line[i];
    }
  }

  lemma LongerFirst(c: char, lines: seq<string>)
    requires lines != [] && HaveNoBreak(lines) && !(c == '\r' && lines[0] != "" && lines[0][0] == '\n')
    ensures var all := [[c] + lines[0]] + lines[1..]; HaveNoBreak(all) && Joined(all) == [c] + Joined(lines)
  {
    hide HasBreak;
    var all := [[c] + lines[0]] + lines[1..];
    assert all[1..] == lines[1..];
    NoBreakInFront(c, lines[0]);
    if |lines| > 1 {
      assert [c] + lines[0] + "\r\n" + Joined(lines[1..]) == [c] + (lines[0] + "\r\n" + Joined(lines[1..]));
    }
  }

  lemma EmptyFirst(lines: seq<string>)
    requires lines != [] && HaveNoBreak(lines)
    ensures HaveNoBreak([[]] + lines) && Joined([[]] + lines) == "\r\n" + Joined(lines)
  {
    assert ([[]] + lines)[1..] == lines;
    assert [] + "\r\n" + Joined(lines) == "\r\n" + Joined(lines);
  }

  /** The lines of a text are the texts without a break that make it up. */
  lemma {:induction false} LinesMeaning(s: string)
    ensures Joined(Lines(s)) == s && HaveNoBreak(Lines(s))
    ensures Lines(s)[0] != "" ==> s != "" && s[0] == Lines(s)[0][0]
  {
    hide Joined;
    hide HaveNoBreak;
    if s == [] {
      OneLineJoined("");
    } else if |s| >= 2 && s[0] == '\r' && s[1] == '\n' {
      LinesMeaning(s[2..]);
      EmptyFirst(Lines(s[2..]));
      assert "\r\n" + s[2..] == s;
    } else {
      LinesMeaning(s[1..]);
      LongerFirst(s[0], Lines(s[1..]));
      assert [s[0]] + s[1..] == s;
    }
  }

  lemma OneLineJoined(line: string)
    ensures Joined([line]) == line && (line == "" ==> HaveNoBreak([line]))
  {
  }

  // ---------------------------------------------------------------- frames

  /** Two line ends in a row. */
  predicate IsBlankLineAt(b: Bytes, i: nat) {
    i + 4 <= |b| && b[i] == 13 && b[i + 1] == 10 && b[i + 2] == 13 && b[i + 3] == 10
  }

  /** The header ends at the first blank line. */
  ghost predicate EndsAt(b: Bytes, end: nat) {
    IsBlankLineAt(b, end) && forall j: nat | j < end :: !IsBlankLineAt(b, j)
  }

  /** The bytes before the end are a header that announces n. */
  ghost predicate HasHeader(codec: Codec, b: Bytes, end: nat, n: nat) {
    && EndsAt(b, end) && end <= 4096
    && codec.text(b[..end]).Some? && IsHeader(Lines(codec.text(b[..end]).value), n)
  }

  /** The bytes start with a frame that carries the value. */
  ghost predicate IsFrame(codec: Codec, b: Bytes, end: nat, n: nat, v: Json.Value) {
    && HasHeader(codec, b, end, n) && 0 < n <= 262144 && end + 4 + n <= |b|
    && codec.parse(b[end + 4..end + 4 + n]) == Some(v)
    && Json.Get(v, "jsonrpc") == Some(Json.Str("2.0"))
  }

  lemma EndMeaning(b: Bytes)
    ensures match HeaderEnd(b)
      case Some(end) => forall other: nat :: EndsAt(b, other) <==> other == end
      case None => forall other: nat :: !EndsAt(b, other)
  {
    forall i: nat ensures BreaksAt(b, i) <==> IsBlankLineAt(b, i) {
      if IsBlankLineAt(b, i) {
        assert b[i..i + 4] == BREAK;
      }
      if BreaksAt(b, i) {
        assert b[i..i + 4][0] == 13 && b[i..i + 4][1] == 10 && b[i..i + 4][2] == 13 && b[i..i + 4][3] == 10;
      }
    }
    hide BreaksAt;
    hide IsBlankLineAt;
  }

  lemma AnnouncedMeaning(codec: Codec, b: Bytes, end: nat, n: nat)
    requires EndsAt(b, end) && end <= 4096
    ensures Announced(codec, b[..end]) == Ok(n) <==> HasHeader(codec, b, end, n) && 0 < n <= 262144
    ensures HasHeader(codec, b, end, n) ==>
      Announced(codec, b[..end]) == if 0 < n <= 262144 then Ok(n) else Err(FrameLimit)
  {
    hide IsHeader;
    if codec.text(b[..end]).Some? {
      HeaderMeaning(Lines(codec.text(b[..end]).value), n);
    }
  }

  lemma LimitMeaning(codec: Codec, b: Bytes, end: nat) returns (n: nat)
    requires EndsAt(b, end) && end <= 4096 && Announced(codec, b[..end]) == Err(FrameLimit)
    ensures HasHeader(codec, b, end, n) && !(0 < n <= 262144)
  {
    hide IsHeader;
    hide HeaderLength;
    var lines := Lines(codec.text(b[..end]).value);
    HeaderFaults(lines);
    n := HeaderLength(lines).value.value;
    HeaderMeaning(lines, n);
  }

  lemma {:induction false} HeaderFaults(lines: seq<string>)
    ensures HeaderLength(lines) != Err(FrameLimit)
  {
    if lines != [] {
      HeaderFaults(lines[..|lines| - 1]);
    }
  }

  /** A frame is taken exactly when the bytes start with one, and then its length and its value. */
  lemma FrameIsTaken(codec: Codec, b: Bytes, total: nat, v: Json.Value)
    ensures Decode(codec, b) == Ok(Some((total, v))) <==>
      exists end: nat, n: nat :: IsFrame(codec, b, end, n, v) && total == end + 4 + n
  {
    hide EndsAt;
    hide HasHeader;
    EndMeaning(b);
    JsonRpcMeaning(v);
    var end := HeaderEnd(b);
    if end.Some? && end.value <= 4096 {
      forall n: nat
        ensures Announced(codec, b[..end.value]) == Ok(n) <==> HasHeader(codec, b, end.value, n) && 0 < n <= 262144
      {
        AnnouncedMeaning(codec, b, end.value, n);
      }
    }
    forall other: nat, n: nat | HasHeader(codec, b, other, n) ensures EndsAt(b, other) && other <= 4096 {
      HeaderIsWithin(codec, b, other, n);
    }
    if Decode(codec, b) == Ok(Some((total, v))) {
      assert IsFrame(codec, b, end.value, Announced(codec, b[..end.value]).value, v);
    }
    if other: nat, n: nat :| IsFrame(codec, b, other, n, v) && total == other + 4 + n {
      assert HasHeader(codec, b, end.value, n);
    }
    hide Announced;
    hide IsJsonRpc;
  }

  lemma HeaderIsWithin(codec: Codec, b: Bytes, end: nat, n: nat)
    requires HasHeader(codec, b, end, n)
    ensures EndsAt(b, end) && end <= 4096
  {
  }

  lemma JsonRpcMeaning(v: Json.Value)
    ensures IsJsonRpc(v) <==> Json.Get(v, "jsonrpc") == Some(Json.Str("2.0"))
  {
    assert ["jsonrpc"][1..] == [];
    if v.Object? && "jsonrpc" in v.fields {
      assert Json.At(v.fields["jsonrpc"], []) == Some(v.fields["jsonrpc"]);
    }
  }

  /** The header has ended, and the body it announces has not arrived in full. */
  ghost predicate IsShortBody(codec: Codec, b: Bytes, end: nat, n: nat) {
    HasHeader(codec, b, end, n) && 0 < n <= 262144 && |b| < end + 4 + n
  }

  /** The decoder waits exactly while the header may still end in time, or the announced body is incomplete. */
  lemma FrameIsAwaited(codec: Codec, b: Bytes)
    ensures Decode(codec, b) == Ok(None) <==>
      (|b| <= 4096 && forall end: nat :: !EndsAt(b, end)) || exists end: nat, n: nat :: IsShortBody(codec, b, end, n)
  {
    hide EndsAt;
    hide HasHeader;
    EndMeaning(b);
    forall other: nat, n: nat | HasHeader(codec, b, other, n) ensures EndsAt(b, other) && other <= 4096 {
      HeaderIsWithin(codec, b, other, n);
    }
    if HeaderEnd(b).Some? {
      var end := HeaderEnd(b).value;
      assert EndsAt(b, end);
      if end <= 4096 {
        forall n: nat
          ensures Announced(codec, b[..end]) == Ok(n) <==> HasHeader(codec, b, end, n) && 0 < n <= 262144
        {
          AnnouncedMeaning(codec, b, end, n);
        }
        if Decode(codec, b) == Ok(None) {
          assert IsShortBody(codec, b, end, Announced(codec, b[..end]).value);
        }
      }
      if other: nat, n: nat :| IsShortBody(codec, b, other, n) {
        assert HasHeader(codec, b, end, n);
      }
    }
    hide Announced;
    hide Body;
  }

  /** A header beyond its limit, ended or not, and a length out of range are refused as such. */
  lemma LimitsAreTold(codec: Codec, b: Bytes)
    ensures Decode(codec, b) == Err(HeaderLimit) <==>
      || (|b| > 4096 && forall end: nat :: !EndsAt(b, end))
      || exists end: nat :: EndsAt(b, end) && end > 4096
    ensures Decode(codec, b) == Err(FrameLimit) <==>
      exists end: nat, n: nat :: HasHeader(codec, b, end, n) && !(0 < n <= 262144)
  {
    hide EndsAt;
    hide HasHeader;
    EndMeaning(b);
    var end := HeaderEnd(b);
    if end.Some? && end.value <= 4096 {
      AnnouncedFault(codec, b[..end.value]);
      if Announced(codec, b[..end.value]) == Err(FrameLimit) {
        var n := LimitMeaning(codec, b, end.value);
      }
      forall n: nat | HasHeader(codec, b, end.value, n) && !(0 < n <= 262144)
        ensures Announced(codec, b[..end.value]) == Err(FrameLimit)
      {
        AnnouncedMeaning(codec, b, end.value, n);
      }
    }
    forall other: nat, n: nat | HasHeader(codec, b, other, n) ensures EndsAt(b, other) && other <= 4096 {
      HeaderIsWithin(codec, b, other, n);
    }
    BodyKeepsLimits(codec, b);
    hide Announced;
    hide Body;
  }

  lemma BodyKeepsLimits(codec: Codec, b: Bytes)
    ensures forall body :: Body(codec, body) != Err(HeaderLimit) && Body(codec, body) != Err(FrameLimit)
  {
  }

  // ---------------------------------------------------------------- what the encoder writes

  /** The bytes are those of this text. */
  predicate AreBytesOf(b: Bytes, s: string) {
    |b| == |s| && forall i | 0 <= i < |b| :: b[i] as int == s[i] as int
  }

  /** A value is refused only for its length, and otherwise written behind a header that announces it. */
  lemma EncoderIsExact(codec: Codec, v: Json.Value)
    ensures var body := codec.render(v);
      match Encode(codec, v)
      case Err(f) => f == FrameLimit && |body| > 262144
      case Ok(b) =>
        && |body| <= 262144 && |body| <= |b| && b[|b| - |body|..] == body
        && AreBytesOf(b[..|b| - |body|], "Content-Length: " + Numeral(|body|) + "\r\n\r\n")
  {
    var body := codec.render(v);
    if |body| <= 262144 {
      var b, h := Encode(codec, v).value, AsciiBytes(Header(|body|));
      assert b == h + BREAK + body;
      assert b[|b| - |body|..] == body && b[..|b| - |body|] == h + BREAK;
      var text := "Content-Length: " + Numeral(|body|);
      assert |text| == |h| && forall i | 0 <= i < |h| :: h[i] as int == text[i] as int;
    }
  }
}
