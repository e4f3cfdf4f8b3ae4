/**
 * Reassembly of a child's output: bytes arrive in chunks of any size, and messages are cut from the
 * pending bytes as soon as they are complete.
 */
module External {
  import opened Prelude
  import Json
  import Wire

  const STDERR_LIMIT: nat := 256 * 1024
  const LINE_LIMIT: nat := 256 * 1024

  /** One thing the reader threads deliver; an idle wait delivers nothing. */
  datatype Arrival = Out(chunk: Bytes) | Stderr(count: nat) | OutEof | StderrEof | PipeFault | Idle

  datatype Fault =
    | Framing(fault: Wire.Fault)
    | LineTooLong
    | LineInvalid
    | EofBeforeResponse
    | OutputLimit
    | StderrLimit
    | PipeReadFailed

  /** The reader's fields, and the arrivals still to come; after the last one the pipe is disconnected. */
  datatype Reader = Reader(
    pending: Bytes,
    received: nat,
    stderrBytes: nat,
    outEof: bool,
    outputLimit: nat,
    arrivals: seq<Arrival>)

  function Pump(r: Reader): (Reader, Option<Fault>) {
    if r.arrivals == [] then (r.(outEof := true), None)
    else
      var next := r.(arrivals := r.arrivals[1..]);
      match r.arrivals[0]
      case Out(chunk) =>
        var more := next.(received := next.received + |chunk|);
        if more.received > more.outputLimit then (more, Some(OutputLimit))
        else (more.(pending := more.pending + chunk), None)
      case Stderr(count) =>
        var more := next.(stderrBytes := next.stderrBytes + count);
        (more, if more.stderrBytes > STDERR_LIMIT then Some(StderrLimit) else None)
      case OutEof => (next.(outEof := true), None)
      case PipeFault => (next, Some(PipeReadFailed))
      case _ => (next, None)
  }

  function Remaining(r: Reader): nat {
    |r.arrivals| + if r.outEof then 0 else 1
  }

  /** Waits for the next framed message. */
  function NextFramed(codec: Wire.Codec, r: Reader): (Reader, Result<Json.Value, Fault>)
    decreases Remaining(r)
  {
    match Wire.Decode(codec, r.pending)
    case Err(f) => (r, Err(Framing(f)))
    case Ok(Some((n, v))) => (r.(pending := r.pending[n..]), Ok(v))
    case Ok(None) =>
      if r.outEof then (r, Err(EofBeforeResponse))
      else
        var (next, fault) := Pump(r);
        if fault.Some? then (next, Err(fault.value)) else NextFramed(codec, next)
  }

  /** Position of the first newline. */
  function LineEnd(b: Bytes): (end: Option<nat>)
    ensures end.Some? ==> end.value < |b| && b[end.value] == Wire.NEWLINE && Wire.NEWLINE !in b[..end.value]
    ensures end.None? ==> Wire.NEWLINE !in b
  {
    if b == [] then None
    else if b[0] == Wire.NEWLINE then Some(0)
    else
      match LineEnd(b[1..])
      case None => None
      case Some(i) => assert b[..i + 1] == [b[0]] + b[1..][..i]; Some(i + 1)
  }

  predicate IsBlankLine(b: Bytes) {
    forall x | x in b :: Wire.IsAsciiSpace(x)
  }

  /** Waits for the next line that is not blank and reads it as JSON. */
  function NextJson(codec: Wire.Codec, r: Reader): (Reader, Result<Json.Value, Fault>)
    decreases Remaining(r), |r.pending|
  {
    match LineEnd(r.pending)
    case Some(n) =>
      if n > LINE_LIMIT then (r, Err(LineTooLong))
      else
        var frame, rest := r.pending[..n + 1], r.(pending := r.pending[n + 1..]);
        if IsBlankLine(frame) then NextJson(codec, rest)
        else
          var v := codec.parse(frame);
          (rest, if v.None? then Err(LineInvalid) else Ok(v.value))
    case None =>
      if |r.pending| > LINE_LIMIT then (r, Err(LineTooLong))
      else if r.outEof then (r, Err(EofBeforeResponse))
      else
        var (next, fault) := Pump(r);
        if fault.Some? then (next, Err(fault.value)) else NextJson(codec, next)
  }

  // ---------------------------------------------------------------- the reader in place

  class Running {
    var pending: Bytes
    var received: nat
    var stderrBytes: nat
    var outEof: bool
    var outputLimit: nat
    var arrivals: seq<Arrival>

    constructor (outputLimit: nat, arrivals: seq<Arrival>)
      ensures State() == Reader([], 0, 0, false, outputLimit, arrivals)
    {
      pending, received, stderrBytes, outEof := [], 0, 0, false;
      this.outputLimit, this.arrivals := outputLimit, arrivals;
    }

    ghost function State(): Reader
      reads this
    {
      Reader(pending, received, stderrBytes, outEof, outputLimit, arrivals)
    }

    method PumpOnce() returns (fault: Option<Fault>)
      modifies this
      ensures (State(), fault) == Pump(old(State()))
    {
      fault := None;
      if arrivals == [] {
        outEof := true;
        return;
      }
      var arrival := arrivals[0];
      arrivals := arrivals[1..];
      match arrival {
        case Out(chunk) =>
          received := received + |chunk|;
          if received > outputLimit {
            return Some(OutputLimit);
          }
          pending := pending + chunk;
        case Stderr(count) =>
          stderrBytes := stderrBytes + count;
          if stderrBytes > STDERR_LIMIT {
            return Some(StderrLimit);
          }
        case OutEof => outEof := true;
        case PipeFault => return Some(PipeReadFailed);
        case _ =>
      }
    }

    method ReadFramed(codec: Wire.Codec) returns (res: Result<Json.Value, Fault>)
      modifies this
      ensures (State(), res) == NextFramed(codec, old(State()))
    {
      while true
        invariant NextFramed(codec, State()) == NextFramed(codec, old(State()))
        decreases Remaining(State())
      {
        var frame := Wire.DecodeFrame(codec, pending);
        if frame.Err? {
          return Err(Framing(frame.error));
        }
        if frame.value.Some? {
          var (n, v) := frame.value.value;
          pending := pending[n..];
          return Ok(v);
        }
        if outEof {
          return Err(EofBeforeResponse);
        }
        var fault := PumpOnce();
        if fault.Some? {
          return Err(fault.value);
        }
      }
    }

    method ReadJson(codec: Wire.Codec) returns (res: Result<Json.Value, Fault>)
      modifies this
      ensures (State(), res) == NextJson(codec, old(State()))
    {
      hide IsBlankLine;
      hide LineEnd;
      while true
        invariant NextJson(codec, State()) == NextJson(codec, old(State()))
        decreases Remaining(State()), |pending|
      {
        var end := LineEnd(pending);
        if end.Some? {
          if end.value > LINE_LIMIT {
            return Err(LineTooLong);
          }
          var frame := pending[..end.value + 1];
          pending := pending[end.value + 1..];
          if IsBlankLine(frame) {
            continue;
          }
          var v := codec.parse(frame);
          if v.None? {
            return Err(LineInvalid);
          }
          return Ok(v.value);
        }
        if |pending| > LINE_LIMIT {
          return Err(LineTooLong);
        }
        if outEof {
          return Err(EofBeforeResponse);
        }
        var fault := PumpOnce();
        if fault.Some? {
          return Err(fault.value);
        }
      }
    }
  }

  // ---------------------------------------------------------------- chunks do not matter

  /** The output still to come, however it is chunked. */
  function Coming(arrivals: seq<Arrival>): Bytes {
    if arrivals == [] then []
    else (if arrivals[0].Out? then arrivals[0].chunk else []) + Coming(arrivals[1..])
  }

  function Stream(r: Reader): Bytes {
    r.pending + Coming(r.arrivals)
  }

  function StderrComing(arrivals: seq<Arrival>): nat {
    if arrivals == [] then 0
    else (if arrivals[0].Stderr? then arrivals[0].count else 0) + StderrComing(arrivals[1..])
  }

  /** No pipe fails, both limits suffice, and nothing is printed after the end of the output. */
  predicate Orderly(r: Reader) {
    && (forall a | a in r.arrivals :: a != PipeFault)
    && r.received + |Coming(r.arrivals)| <= r.outputLimit
    && r.stderrBytes + StderrComing(r.arrivals) <= 262144
    && (r.outEof ==> Coming(r.arrivals) == [])
    && EofIsLast(r.arrivals)
  }

  predicate EofIsLast(arrivals: seq<Arrival>) {
    arrivals == [] || ((arrivals[0].OutEof? ==> Coming(arrivals[1..]) == []) && EofIsLast(arrivals[1..]))
  }

  /** One arrival moves bytes from what is coming to what is pending. */
  lemma PumpKeepsStream(r: Reader)
    requires Orderly(r) && !r.outEof
    ensures Pump(r).1.None? && Orderly(Pump(r).0) && Stream(Pump(r).0) == Stream(r)
    ensures Pump(r).0.outputLimit == r.outputLimit
    ensures Pump(r).0.pending <= Stream(r)
  {
    if r.arrivals != [] {
      var next := Pump(r).0;
      assert forall a | a in next.arrivals :: a in r.arrivals;
      assert r.arrivals[0] in r.arrivals;
      assert Stream(next) == Stream(r);
    }
  }

  /**
   * The next framed message depends only on the bytes of the stream, not on how they are cut into
   * chunks: it is what the decoder says about the whole remaining stream, and the rest stays.
   */
  lemma {:induction false} FramedIsChunkFree(codec: Wire.Codec, r: Reader)
    requires Orderly(r) && !Wire.IsSensitive(Stream(r))
    ensures var (after, res) := NextFramed(codec, r);
            match Wire.Decode(codec, Stream(r))
            case Err(f) => res == Err(Framing(f))
            case Ok(None) => res == Err(EofBeforeResponse)
            case Ok(Some((n, v))) => res == Ok(v) && Orderly(after) && Stream(after) == Stream(r)[n..]
    decreases Remaining(r)
  {
    hide Wire.Decode;
    hide Wire.IsSensitive;
    var p, s := r.pending, Stream(r);
    Wire.PrefixSettles(codec, p, s);
    DecodeFits(codec, p);
    match Wire.Decode(codec, p) {
      case Err(_) =>
      case Ok(Some((n, v))) =>
        assert s[n..] == p[n..] + Coming(r.arrivals);
      case Ok(None) =>
        if r.outEof {
          assert p == s;
        } else {
          PumpKeepsStream(r);
          FramedIsChunkFree(codec, Pump(r).0);
        }
    }
  }

  lemma DecodeFits(codec: Wire.Codec, b: Bytes)
    ensures match Wire.Decode(codec, b) { case Ok(Some((n, _))) => n <= |b| case _ => true }
  {
  }

  // ---------------------------------------------------------------- a whole conversation

  predicate AllEncodable(codec: Wire.Codec, vs: seq<Json.Value>) {
    forall v | v in vs :: Wire.Encode(codec, v).Ok? && Wire.IsJsonRpc(v)
  }

  function EncodeAll(codec: Wire.Codec, vs: seq<Json.Value>): Bytes
    requires AllEncodable(codec, vs)
  {
    if vs == [] then [] else Wire.Encode(codec, vs[0]).value + EncodeAll(codec, vs[1..])
  }

  /** Reads a number of messages, stopping at the first failure. */
  function ReadMany(codec: Wire.Codec, r: Reader, count: nat): Result<seq<Json.Value>, Fault>
    decreases count
  {
    if count == 0 then Ok([])
    else
      match NextFramed(codec, r)
      case (_, Err(f)) => Err(f)
      case (after, Ok(v)) =>
        match ReadMany(codec, after, count - 1)
        case Err(f) => Err(f)
        case Ok(vs) => Ok([v] + vs)
  }

  /**
   * Whatever the chunking, reading a stream of encoded messages yields exactly those messages in
   * order, and asking for one more reports the end of the output even if a last frame is cut short.
   */
  lemma {:induction false} ConversationRoundTrip(
    codec: Wire.Codec, r: Reader, vs: seq<Json.Value>, last: Json.Value, cut: nat)
    requires Wire.Faithful(codec) && Orderly(r) && AllEncodable(codec, vs)
    requires Wire.Encode(codec, last).Ok? && Wire.IsJsonRpc(last) && cut < |Wire.Encode(codec, last).value|
    requires Stream(r) == EncodeAll(codec, vs) + Wire.Encode(codec, last).value[..cut]
    ensures ReadMany(codec, r, |vs|) == Ok(vs)
    ensures ReadMany(codec, r, |vs| + 1) == Err(EofBeforeResponse)
    decreases |vs|
  {
    hide Wire.Decode;
    hide Wire.Encode;
    hide Wire.IsSensitive;
    hide Wire.Faithful;
    hide Orderly;
    var tail := Wire.Encode(codec, last).value[..cut];
    if vs == [] {
      assert Stream(r) == tail;
      Wire.PrefixWaits(codec, last, cut);
      Wire.EncoderIsInsensitive(codec, last, []);
      assert Wire.Encode(codec, last).value + [] == Wire.Encode(codec, last).value;
      PrefixOfInsensitive(tail, Wire.Encode(codec, last).value);
      FramedIsChunkFree(codec, r);
    } else {
      var frame, rest := Wire.Encode(codec, vs[0]).value, EncodeAll(codec, vs[1..]) + tail;
      assert vs[0] in vs && forall v | v in vs[1..] :: v in vs;
      assert Stream(r) == frame + rest;
      Wire.RoundTrip(codec, vs[0], rest);
      Wire.EncoderIsInsensitive(codec, vs[0], rest);
      FramedIsChunkFree(codec, r);
      var after := NextFramed(codec, r).0;
      assert Stream(after) == rest;
      ConversationRoundTrip(codec, after, vs[1..], last, cut);
      assert [vs[0]] + vs[1..] == vs;
    }
  }

  lemma PrefixOfInsensitive(p: Bytes, s: Bytes)
    requires p <= s && !Wire.IsSensitive(s)
    ensures !Wire.IsSensitive(p)
  {
    Wire.HeaderEndOfPrefix(p, s);
  }

  // ---------------------------------------------------------------- the limits on output

  /** Neither pipe has printed more than it may, and none has failed. */
  predicate IsWithin(r: Reader, taken: seq<Arrival>) {
    && r.received + |Coming(taken)| <= r.outputLimit
    && r.stderrBytes + StderrComing(taken) <= 262144
    && PipeFault !in taken
  }

  /** The reader took these arrivals, and the first that broke a limit is what it tells. */
  predicate IsWatched(r: Reader, after: Reader, taken: seq<Arrival>, fault: Option<Fault>) {
    && r.arrivals == taken + after.arrivals && after.outputLimit == r.outputLimit
    && after.received == r.received + |Coming(taken)|
    && after.stderrBytes == r.stderrBytes + StderrComing(taken)
    && if fault in {Some(OutputLimit), Some(StderrLimit), Some(PipeReadFailed)} then
         && taken != [] && IsWithin(r, taken[..|taken| - 1])
         && match taken[|taken| - 1]
            case Out(_) => fault == Some(OutputLimit) && after.received > r.outputLimit
            case Stderr(_) => fault == Some(StderrLimit) && after.stderrBytes > 262144
            case PipeFault => fault == Some(PipeReadFailed)
            case _ => false
       else IsWithin(r, taken)
  }

  function FaultOf<T>(res: Result<T, Fault>): Option<Fault> {
    if res.Ok? then None else Some(res.error)
  }

  lemma PumpWatches(r: Reader)
    requires IsWithin(r, [])
    ensures var (after, fault) := Pump(r);
      IsWatched(r, after, if r.arrivals == [] then [] else [r.arrivals[0]], fault)
      && (fault.None? ==> IsWithin(after, []))
      && (fault.Some? ==> fault.value in {OutputLimit, StderrLimit, PipeReadFailed})
  {
    if r.arrivals != [] {
      var first := r.arrivals[0];
      assert [first][1..] == [] && [first][..0] == [] && Coming([first][1..]) == [];
      assert r.arrivals == [first] + r.arrivals[1..];
    }
  }

  /** Watching goes on where it stopped. */
  lemma WatchedLonger(
    r: Reader, next: Reader, after: Reader, first: seq<Arrival>, taken: seq<Arrival>, fault: Option<Fault>)
    requires |first| <= 1 && IsWatched(r, next, first, None) && IsWatched(next, after, taken, fault)
    ensures IsWatched(r, after, first + taken, fault)
  {
    if first == [] {
      assert first + taken == taken;
    } else {
      ComingFirst(first[0], taken);
      if taken != [] {
        ComingFirst(first[0], taken[..|taken| - 1]);
        assert (first + taken)[..|first + taken| - 1] == first + taken[..|taken| - 1];
      }
      assert first == [first[0]] && first[1..] == [];
    }
  }

  lemma ComingFirst(first: Arrival, taken: seq<Arrival>)
    ensures Coming([first] + taken) == Coming([first]) + Coming(taken)
    ensures StderrComing([first] + taken) == StderrComing([first]) + StderrComing(taken)
  {
    assert ([first] + taken)[1..] == taken && [first][1..] == [];
  }

  /** A framed read takes no more than the limits allow, and tells which limit ended it. */
  lemma {:induction false} FramedIsWatched(codec: Wire.Codec, r: Reader) returns (taken: seq<Arrival>)
    requires IsWithin(r, [])
    ensures var (after, res) := NextFramed(codec, r); IsWatched(r, after, taken, FaultOf(res))
    decreases Remaining(r)
  {
    hide Wire.Decode;
    hide IsWatched;
    taken := [];
    NothingIsTaken(r);
    if Wire.Decode(codec, r.pending) == Ok(None) && !r.outEof {
      PumpWatches(r);
      var first := if r.arrivals == [] then [] else [r.arrivals[0]];
      var (next, fault) := Pump(r);
      if fault.Some? {
        taken := first;
      } else {
        taken := FramedIsWatched(codec, next);
        var (after, res) := NextFramed(codec, next);
        WatchedLonger(r, next, after, first, taken, FaultOf(res));
        taken := first + taken;
      }
    }
  }

  /** Taking nothing keeps within the limits, whatever is left pending and whatever else is told. */
  lemma NothingIsTaken(r: Reader)
    requires IsWithin(r, [])
    ensures forall pending, fault :: fault !in {Some(OutputLimit), Some(StderrLimit), Some(PipeReadFailed)} ==>
      IsWatched(r, r.(pending := pending), [], fault)
  {
    assert [] + r.arrivals == r.arrivals;
  }

  /** So does a read of a line. */
  lemma {:induction false} LinesAreWatched(codec: Wire.Codec, r: Reader) returns (taken: seq<Arrival>)
    requires IsWithin(r, [])
    ensures var (after, res) := NextJson(codec, r); IsWatched(r, after, taken, FaultOf(res))
    decreases Remaining(r), |r.pending|
  {
    hide LineEnd;
    hide IsBlankLine;
    hide IsWatched;
    taken := [];
    NothingIsTaken(r);
    match LineEnd(r.pending) {
      case Some(n) =>
        var rest := r.(pending := r.pending[n + 1..]);
        if n <= LINE_LIMIT && IsBlankLine(r.pending[..n + 1]) {
          taken := LinesAreWatched(codec, rest);
          var (after, res) := NextJson(codec, rest);
          SameButPending(r, rest, after, taken, FaultOf(res));
        }
      case None =>
        if |r.pending| <= LINE_LIMIT && !r.outEof {
          PumpWatches(r);
          var first := if r.arrivals == [] then [] else [r.arrivals[0]];
          var (next, fault) := Pump(r);
          if fault.Some? {
            taken := first;
          } else {
            taken := LinesAreWatched(codec, next);
            var (after, res) := NextJson(codec, next);
            WatchedLonger(r, next, after, first, taken, FaultOf(res));
            taken := first + taken;
          }
        }
    }
  }

  lemma SameButPending(r: Reader, rest: Reader, after: Reader, taken: seq<Arrival>, fault: Option<Fault>)
    requires rest == r.(pending := rest.pending) && IsWatched(rest, after, taken, fault)
    ensures IsWatched(r, after, taken, fault)
  {
  }

  // ---------------------------------------------------------------- the newline-delimited twin

  /** Tabs, line feeds, form feeds, carriage returns and spaces. */
  predicate IsWhite(b: Bytes) {
    forall i | 0 <= i < |b| :: b[i] in {9, 10, 12, 13, 32}
  }

  /** What the next line of a whole stream reads as, and what it leaves. */
  function LineOf(codec: Wire.Codec, s: Bytes): (Bytes, Result<Json.Value, Fault>) {
    match LineEnd(s)
    case Some(n) =>
      if n > 262144 then (s, Err(LineTooLong))
      else if IsWhite(s[..n + 1]) then LineOf(codec, s[n + 1..])
      else
        var v := codec.parse(s[..n + 1]);
        (s[n + 1..], if v.None? then Err(LineInvalid) else Ok(v.value))
    case None => (s, Err(if |s| > 262144 then LineTooLong else EofBeforeResponse))
  }

  lemma BlankMeaning(b: Bytes)
    ensures IsBlankLine(b) <==> IsWhite(b)
  {
    if IsWhite(b) {
      forall x | x in b ensures Wire.IsAsciiSpace(x) {
        var i :| 0 <= i < |b| && b[i] == x;
      }
    }
    if IsBlankLine(b) {
      forall i | 0 <= i < |b| ensures b[i] in {9, 10, 12, 13, 32} {
        assert b[i] in b;
        assert Wire.IsAsciiSpace(b[i]);
      }
    }
  }

  lemma {:induction false} FirstNewline(b: Bytes, i: nat)
    requires i < |b| && b[i] == Wire.NEWLINE && Wire.NEWLINE !in b[..i]
    ensures LineEnd(b) == Some(i)
  {
    if i > 0 {
      assert b[0] == b[..i][0];
      assert b[1..][..i - 1] == b[..i][1..];
      FirstNewline(b[1..], i - 1);
    }
  }

  lemma LineEndAppend(p: Bytes, q: Bytes)
    ensures LineEnd(p).Some? ==> LineEnd(p + q) == LineEnd(p)
    ensures LineEnd(p).None? && LineEnd(p + q).Some? ==> LineEnd(p + q).value >= |p|
  {
    assert forall k | 0 <= k < |p| :: (p + q)[k] == p[k] && p[k] in p;
    if LineEnd(p).Some? {
      var i := LineEnd(p).value;
      assert (p + q)[..i] == p[..i];
      FirstNewline(p + q, i);
    }
  }

  /** Lines are chunk-independent without any exception, the length limit included. */
  lemma {:induction false} LinesAreChunkFree(codec: Wire.Codec, r: Reader)
    requires Orderly(r)
    ensures var (after, res) := NextJson(codec, r);
            && res == LineOf(codec, Stream(r)).1
            && (res.Ok? ==> Orderly(after) && Stream(after) == LineOf(codec, Stream(r)).0)
    decreases Remaining(r), |r.pending|
  {
    hide IsBlankLine;
    hide IsWhite;
    var p, q, s := r.pending, Coming(r.arrivals), Stream(r);
    LineEndAppend(p, q);
    hide LineEnd;
    match LineEnd(p) {
      case Some(n) =>
        if n <= LINE_LIMIT {
          assert s[..n + 1] == p[..n + 1] && s[n + 1..] == p[n + 1..] + q;
          BlankMeaning(p[..n + 1]);
          if IsBlankLine(p[..n + 1]) {
            LinesAreChunkFree(codec, r.(pending := p[n + 1..]));
          }
        }
      case None =>
        if r.outEof {
          assert p == s;
        } else if |p| <= LINE_LIMIT {
          PumpKeepsStream(r);
          LinesAreChunkFree(codec, Pump(r).0);
        }
    }
  }

  // ---------------------------------------------------------------- a whole conversation in lines

  /** Parsing does not mind the newline that ends a printed value. */
  ghost predicate ReadsLines(codec: Wire.Codec) {
    forall v :: codec.parse(Line(codec, v)) == Some(v)
  }

  function Line(codec: Wire.Codec, v: Json.Value): Bytes {
    codec.render(v) + [Wire.NEWLINE]
  }

  predicate AllFitLines(codec: Wire.Codec, vs: seq<Json.Value>) {
    forall v | v in vs :: |codec.render(v)| <= 262144
  }

  function LinesOf(codec: Wire.Codec, vs: seq<Json.Value>): Bytes {
    if vs == [] then [] else Line(codec, vs[0]) + LinesOf(codec, vs[1..])
  }

  /** Reads a number of lines, stopping at the first failure. */
  function ReadLines(codec: Wire.Codec, r: Reader, count: nat): Result<seq<Json.Value>, Fault>
    decreases count
  {
    if count == 0 then Ok([])
    else
      match NextJson(codec, r)
      case (_, Err(f)) => Err(f)
      case (after, Ok(v)) =>
        match ReadLines(codec, after, count - 1)
        case Err(f) => Err(f)
        case Ok(vs) => Ok([v] + vs)
  }

  lemma LineComesFirst(codec: Wire.Codec, v: Json.Value, rest: Bytes)
    requires Wire.Faithful(codec) && ReadsLines(codec) && |codec.render(v)| <= 262144
    ensures LineOf(codec, Line(codec, v) + rest) == (rest, Ok(v))
  {
    hide LineEnd;
    var body := codec.render(v);
    var s, n := Line(codec, v) + rest, |body|;
    assert Wire.OneLine(body);
    assert s[..n] == body && s[n] == Wire.NEWLINE;
    FirstNewline(s, n);
    assert s[..n + 1] == Line(codec, v) && s[n + 1..] == rest;
    assert codec.parse(Line(codec, v)) == Some(v);
    var x :| x in body && !Wire.IsAsciiSpace(x);
    assert x in s[..n + 1];
  }

  lemma UnfinishedLine(codec: Wire.Codec, v: Json.Value, cut: nat)
    requires Wire.Faithful(codec) && cut <= |codec.render(v)| <= 262144
    ensures LineOf(codec, codec.render(v)[..cut]).1 == Err(EofBeforeResponse)
  {
    assert Wire.OneLine(codec.render(v));
    var s := codec.render(v)[..cut];
    assert Wire.NEWLINE !in s;
  }

  /**
   * Whatever the chunking, reading a stream of printed lines yields exactly those values in order, and
   * asking for one more reports the end of the output even if a last line is cut short.
   */
  lemma {:induction false} LinesRoundTrip(codec: Wire.Codec, r: Reader, vs: seq<Json.Value>, last: Json.Value, cut: nat)
    requires Wire.Faithful(codec) && ReadsLines(codec) && Orderly(r) && AllFitLines(codec, vs)
    requires cut <= |codec.render(last)| <= 262144
    requires Stream(r) == LinesOf(codec, vs) + codec.render(last)[..cut]
    ensures ReadLines(codec, r, |vs|) == Ok(vs)
    ensures ReadLines(codec, r, |vs| + 1) == Err(EofBeforeResponse)
    decreases |vs|
  {
    hide Wire.Faithful;
    hide ReadsLines;
    hide Orderly;
    hide LineOf;
    hide NextJson;
    LinesAreChunkFree(codec, r);
    if vs == [] {
      assert Stream(r) == codec.render(last)[..cut];
      UnfinishedLine(codec, last, cut);
    } else {
      var rest := LinesOf(codec, vs[1..]) + codec.render(last)[..cut];
      assert vs[0] in vs && forall v | v in vs[1..] :: v in vs;
      assert Stream(r) == Line(codec, vs[0]) + rest;
      LineComesFirst(codec, vs[0], rest);
      LinesRoundTrip(codec, NextJson(codec, r).0, vs[1..], last, cut);
      assert [vs[0]] + vs[1..] == vs;
    }
  }
}
