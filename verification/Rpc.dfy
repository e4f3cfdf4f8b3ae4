/**
 * Request-correlated JSON lines: replies are matched to the request in flight, and turn completions
 * that overtake a reply wait in a bounded queue.
 */
module Rpc {
  import opened Prelude
  import opened Control
  import opened Json

  const MAX_FRAMES: nat := 10000
  const MAX_PENDING: nat := 32
  const COMPLETED: string := "turn/completed"
  const CANCEL_ID: string := "workstation-cancel"

  datatype Fault =
    | FrameCountLimit | TerminalQueueLimit | Uncorrelated | RemoteRejected | ResultMissing | MethodInvalid
    | IdInvalid | TurnStatusMissing | TurnStatusUnknown | IdMissing | IdRefused | Closed | Other(code: string)

  /** What the transport brings next: a message, or the fault a hook or the transport raises there. */
  datatype Arrival = Frame(v: Value) | Broken(fault: Fault)

  /**
   * The driver. `incoming` is what will still arrive; `heard` is a history variable, every frame
   * handed out so far.
   */
  datatype State = State(
    pending: seq<Value>, lastId: nat, frames: nat, notifications: nat, answered: seq<Value>,
    incoming: seq<Arrival>, heard: seq<Value>)

  function Fresh(incoming: seq<Arrival>): State {
    State([], 0, 0, 0, [], incoming, [])
  }

  // ---------------------------------------------------------------- turn completions

  predicate IsCompletion(v: Value) {
    AsString(Get(v, "method")) == Some(COMPLETED)
  }

  predicate IsMatch(v: Value, thread: string, turn: string) {
    && IsCompletion(v)
    && StringAt(v, ["params", "threadId"]) == Some(thread)
    && StringAt(v, ["params", "turn", "id"]) == Some(turn)
  }

  predicate IsStatus(s: string) {
    s in {"completed", "interrupted", "failed"}
  }

  function Status(v: Value): Result<string, Fault> {
    match StringAt(v, ["params", "turn", "status"])
    case None => Err(TurnStatusMissing)
    case Some(s) => if IsStatus(s) then Ok(s) else Err(TurnStatusUnknown)
  }

  function OpaqueId(v: Value, field: string): Result<string, Fault> {
    match AsString(Get(v, field))
    case None => Err(IdMissing)
    case Some(id) => if IsOpaque(id) then Ok(id) else Err(IdRefused)
  }

  function Projection(thread: string, turn: string, status: string): Value {
    Object(map[
      "method" := Str(COMPLETED),
      "params" := Object(map[
        "threadId" := Str(thread),
        "turn" := Object(map["id" := Str(turn), "status" := Str(status)])])])
  }

  /** Correlation and status of a completion; text and errors are dropped. */
  function TerminalTurn(v: Value): Result<Option<Value>, Fault> {
    if !IsCompletion(v) then Ok(None)
    else
      match Get(v, "params")
      case None => Err(TurnStatusMissing)
      case Some(params) => ProjectParams(params)
  }

  function ProjectParams(params: Value): Result<Option<Value>, Fault> {
    match OpaqueId(params, "threadId")
    case Err(f) => Err(f)
    case Ok(thread) =>
      match Get(params, "turn")
      case None => Err(TurnStatusMissing)
      case Some(turn) =>
        match OpaqueId(turn, "id")
        case Err(f) => Err(f)
        case Ok(id) =>
          match AsString(Get(turn, "status"))
          case None => Err(TurnStatusMissing)
          case Some(s) => if IsStatus(s) then Ok(Some(Projection(thread, id, s))) else Err(TurnStatusUnknown)
  }

  /** Dropping everything else keeps which turn ended and how. */
  lemma ProjectionKeepsTheTurn(v: Value, thread: string, turn: string)
    requires TerminalTurn(v).Ok? && TerminalTurn(v).value.Some?
    ensures var kept := TerminalTurn(v).value.value;
      && IsCompletion(v) && IsCompletion(kept)
      && (IsMatch(kept, thread, turn) <==> IsMatch(v, thread, turn))
      && Status(kept) == Status(v) && Status(v).Ok?
  {
    hide IsOpaque;
    hide IsStatus;
    var params := Get(v, "params").value;
    var inner := Get(params, "turn").value;
    PathsOf(v, params, inner);
    var p := Projection(
      AsString(Get(params, "threadId")).value, AsString(Get(inner, "id")).value, AsString(Get(inner, "status")).value);
    assert TerminalTurn(v).value.value == p;
    PathsOf(p, Get(p, "params").value, Get(Get(p, "params").value, "turn").value);
  }

  lemma PathsOf(v: Value, params: Value, turn: Value)
    requires Get(v, "params") == Some(params) && Get(params, "turn") == Some(turn)
    ensures StringAt(v, ["params", "threadId"]) == AsString(Get(params, "threadId"))
    ensures StringAt(v, ["params", "turn", "id"]) == AsString(Get(turn, "id"))
    ensures StringAt(v, ["params", "turn", "status"]) == AsString(Get(turn, "status"))
  {
    PathStep(v, "params", ["threadId"], params);
    PathStep(params, "threadId", [], Null);
    PathStep(v, "params", ["turn", "id"], params);
    PathStep(params, "turn", ["id"], turn);
    PathStep(v, "params", ["turn", "status"], params);
    PathStep(params, "turn", ["status"], turn);
    PathEnd(params, "threadId");
    PathEnd(turn, "id");
    PathEnd(turn, "status");
  }

  lemma PathStep(v: Value, field: string, rest: seq<string>, inner: Value)
    ensures Get(v, field) == Some(inner) ==> At(v, [field] + rest) == At(inner, rest)
  {
    assert ([field] + rest)[1..] == rest;
  }

  lemma PathEnd(v: Value, field: string)
    ensures At(v, [field]) == Get(v, field)
  {
    assert [field][1..] == [];
  }

  // ---------------------------------------------------------------- frames

  /** Replies to the monitor's own interrupts are dropped before anyone sees them. */
  predicate IsAck(a: Arrival) {
    a.Frame? && AsString(Get(a.v, "id")) == Some(CANCEL_ID)
  }

  function SkipAcks(incoming: seq<Arrival>): (rest: seq<Arrival>)
    ensures |rest| <= |incoming|
    ensures rest != [] ==> !IsAck(rest[0])
  {
    if incoming != [] && IsAck(incoming[0]) then SkipAcks(incoming[1..]) else incoming
  }

  function NextFrame(s: State): (r: (State, Result<Value, Fault>))
    ensures r.1.Ok? ==> |r.0.incoming| < |s.incoming| && r.0.pending == s.pending
  {
    var counted := s.(frames := s.frames + 1);
    if counted.frames > MAX_FRAMES then (counted, Err(FrameCountLimit))
    else
      var rest := SkipAcks(s.incoming);
      if rest == [] then (counted.(incoming := []), Err(Closed))
      else
        match rest[0]
        case Broken(f) => (counted.(incoming := rest[1..]), Err(f))
        case Frame(v) => (counted.(incoming := rest[1..], heard := s.heard + [v]), Ok(v))
  }

  predicate IsReplyId(id: Value) {
    id.Number? || (id.Str? && ByteLength(id.s) <= 128)
  }

  /** Notifications are counted; requests of the server are answered under their own identifier. */
  function Respond(s: State, v: Value): Result<State, Fault> {
    if AsString(Get(v, "method")).None? then Err(MethodInvalid)
    else
      match Get(v, "id")
      case None => Ok(s.(notifications := s.notifications + 1))
      case Some(id) => if IsReplyId(id) then Ok(s.(answered := s.answered + [id])) else Err(IdInvalid)
  }

  // ---------------------------------------------------------------- requests

  predicate HasId(v: Value) {
    Get(v, "id").Some?
  }

  /** A frame with a method that arrives while a reply is awaited. */
  function Overhear(s: State, v: Value): Result<State, Fault> {
    if HasId(v) then Respond(s, v)
    else
      match TerminalTurn(v)
      case Err(f) => Err(f)
      case Ok(None) => Respond(s, v)
      case Ok(Some(turn)) =>
        if |s.pending| >= MAX_PENDING then Err(TerminalQueueLimit)
        else Respond(s.(pending := s.pending + [turn]), v)
  }

  function Reply(v: Value, id: nat): Result<Value, Fault> {
    if AsU64(Get(v, "id")) != Some(id) then Err(Uncorrelated)
    else if Get(v, "error").Some? then Err(RemoteRejected)
    else
      match Get(v, "result")
      case None => Err(ResultMissing)
      case Some(result) => Ok(result)
  }

  function Await(s: State, id: nat): (State, Result<Value, Fault>)
    decreases |s.incoming|
  {
    var (t, r) := NextFrame(s);
    match r
    case Err(f) => (t, Err(f))
    case Ok(v) =>
      if Get(v, "method").None? then (t, Reply(v, id))
      else
        match Overhear(t, v)
        case Err(f) => (t, Err(f))
        case Ok(u) => Await(u, id)
  }

  function Request(s: State): (State, Result<Value, Fault>) {
    Await(s.(lastId := s.lastId + 1), s.lastId + 1)
  }

  // ---------------------------------------------------------------- waiting for a turn

  datatype TurnEnd = TurnEnd(status: string, notifications: nat)

  /** Queued completions come before the live stream. */
  function NextTurnFrame(s: State): (r: (State, Result<Value, Fault>))
    ensures r.1.Ok? ==> |r.0.pending| + |r.0.incoming| < |s.pending| + |s.incoming|
  {
    if s.pending != [] then (s.(pending := s.pending[1..]), Ok(s.pending[0])) else NextFrame(s)
  }

  function Wait(s: State, thread: string, turn: string): (State, Result<TurnEnd, Fault>)
    decreases |s.pending| + |s.incoming|
  {
    var (t, r) := NextTurnFrame(s);
    match r
    case Err(f) => (t, Err(f))
    case Ok(v) =>
      if IsMatch(v, thread, turn) then
        (match Status(v)
         case Err(f) => (t, Err(f))
         case Ok(status) => (t, Ok(TurnEnd(status, t.notifications))))
      else if IsCompletion(v) then Wait(t, thread, turn)
      else
        match Respond(t, v)
        case Err(f) => (t, Err(f))
        case Ok(u) => Wait(u, thread, turn)
  }

  // ---------------------------------------------------------------- the driver's methods

  class Driver {
    var pending: seq<Value>
    var lastId: nat
    var frames: nat
    var notifications: nat
    var answered: seq<Value>
    var incoming: seq<Arrival>
    ghost var heard: seq<Value>

    constructor (arrivals: seq<Arrival>)
      ensures Current() == Fresh(arrivals)
    {
      pending, lastId, frames, notifications, answered, incoming, heard := [], 0, 0, 0, [], arrivals, [];
    }

    ghost function Current(): State
      reads this
    {
      State(pending, lastId, frames, notifications, answered, incoming, heard)
    }

    method TakeFrame() returns (r: Result<Value, Fault>)
      modifies this
      ensures (Current(), r) == NextFrame(old(Current()))
    {
      frames := frames + 1;
      if frames > MAX_FRAMES {
        return Err(FrameCountLimit);
      }
      while incoming != [] && IsAck(incoming[0])
        invariant SkipAcks(incoming) == SkipAcks(old(incoming))
        invariant Current() == old(Current()).(frames := old(frames) + 1, incoming := incoming)
        decreases |incoming|
      {
        incoming := incoming[1..];
      }
      if incoming == [] {
        return Err(Closed);
      }
      var next := incoming[0];
      incoming := incoming[1..];
      match next {
        case Broken(f) => return Err(f);
        case Frame(v) =>
          heard := heard + [v];
          return Ok(v);
      }
    }

    method RespondToServer(v: Value) returns (fault: Option<Fault>)
      modifies this
      ensures match Respond(old(Current()), v)
        case Ok(s) => fault.None? && Current() == s
        case Err(f) => fault == Some(f) && Current() == old(Current())
    {
      if AsString(Get(v, "method")).None? {
        return Some(MethodInvalid);
      }
      var id := Get(v, "id");
      if id.None? {
        notifications := notifications + 1;
        return None;
      }
      if !IsReplyId(id.value) {
        return Some(IdInvalid);
      }
      answered := answered + [id.value];
      return None;
    }

    method SendRequest() returns (r: Result<Value, Fault>)
      modifies this
      ensures (Current(), r) == Request(old(Current()))
    {
      lastId := lastId + 1;
      var id := lastId;
      while true
        invariant Await(Current(), id) == Request(old(Current()))
        decreases |incoming|
      {
        ghost var before := Current();
        var next := TakeFrame();
        if next.Err? {
          return Err(next.error);
        }
        var v := next.value;
        if Get(v, "method").None? {
          return Reply(v, id);
        }
        ghost var taken := Current();
        if !HasId(v) {
          var terminal := TerminalTurn(v);
          if terminal.Err? {
            return Err(terminal.error);
          }
          if terminal.value.Some? {
            if |pending| >= MAX_PENDING {
              return Err(TerminalQueueLimit);
            }
            pending := pending + [terminal.value.value];
          }
        }
        var fault := RespondToServer(v);
        if fault.Some? {
          QueuedIsAnswerable(taken, v);
          return Err(fault.value);
        }
      }
    }

    method WaitCodexTurn(thread: string, turn: string) returns (r: Result<TurnEnd, Fault>)
      modifies this
      ensures (Current(), r) == Wait(old(Current()), thread, turn)
    {
      while true
        invariant Wait(Current(), thread, turn) == Wait(old(Current()), thread, turn)
        decreases |pending| + |incoming|
      {
        var v: Value;
        if pending != [] {
          v := pending[0];
          pending := pending[1..];
        } else {
          var next := TakeFrame();
          if next.Err? {
            return Err(next.error);
          }
          v := next.value;
        }
        if IsCompletion(v) {
          if !IsMatch(v, thread, turn) {
            continue;
          }
          var status := Status(v);
          if status.Err? {
            return Err(status.error);
          }
          return Ok(TurnEnd(status.value, notifications));
        }
        var fault := RespondToServer(v);
        if fault.Some? {
          return Err(fault.value);
        }
      }
    }
  }

  /** A frame worth queueing is a notification, so answering it cannot fail. */
  lemma QueuedIsAnswerable(s: State, v: Value)
    ensures !HasId(v) && TerminalTurn(v).Ok? && TerminalTurn(v).value.Some? ==> Respond(s, v).Ok?
  {
  }
}
