/**
 * The supervisor's monitor: stages, deadlines, the cancellation grace period and completions that
 * arrive early, all driven against tables that other processes change between any two calls.
 */
module DurableRuntime {
  import opened Prelude
  import opened Control
  import opened Durable
  import opened DurableLog
  import opened DurableStore
  import Json

  datatype Stage = HandshakeStage | SessionStage | TurnStage

  datatype StopCode = CancelCode | AbsoluteTimeout | HandshakeTimeout | SessionTimeout | IdleTimeout

  function CodeText(code: StopCode): string {
    match code
    case CancelCode => "DURABLE_CANCEL_REQUESTED"
    case AbsoluteTimeout => "DURABLE_ABSOLUTE_TIMEOUT"
    case HandshakeTimeout => "DURABLE_HANDSHAKE_TIMEOUT"
    case SessionTimeout => "DURABLE_SESSION_TIMEOUT"
    case IdleTimeout => "DURABLE_IDLE_TIMEOUT"
  }

  /** The deadline a stop code stands for; a cancellation stands for none. */
  function DeadlineOf(code: StopCode): Option<DeadlineKind> {
    match code
    case CancelCode => None
    case AbsoluteTimeout => Some(Absolute)
    case HandshakeTimeout => Some(Handshake)
    case SessionTimeout => Some(Session)
    case IdleTimeout => Some(Idle)
  }

  datatype EarlyTerminal = EarlyTerminal(session: string, turn: string, status: ProviderState)

  /** The monitor's fields; instants are milliseconds of a monotonic clock. */
  datatype Mon = Mon(
    id: string,
    owner: ProcessIdentity,
    startAt: int,
    stageAt: int,
    stage: Stage,
    lastProgress: int,
    lastFlush: int,
    lastHeartbeat: int,
    policy: DeadlinePolicy,
    record: RunRecord,
    cancelAt: Option<int>,
    stopCode: Option<StopCode>,
    cancelSent: bool,
    pendingTerminal: Option<EarlyTerminal>,
    progressKeys: set<string>)

  datatype Interrupt = TurnInterrupt(session: string, turn: string) | SessionCancel(session: string)

  datatype MonitorFault = FromStore(fault: StoreFault) | Stopped(code: StopCode) | OwnerMismatch | IdRejected

  /** A monitor call: the monitor and tables after it, and what it answers. */
  datatype Moved<T> = Moved(mon: Mon, db: Db, answer: Result<T, MonitorFault>)

  function Fresh(record: RunRecord, id: string, owner: ProcessIdentity, now: int): Mon {
    Mon(
      id, owner, now, now, HandshakeStage, now, now, now, record.header.deadlines, record, None, None, false, None, {})
  }

  /** A monitor is installed only by the process that holds the claim. */
  function Install(db: Db, id: string, owner: ProcessIdentity, now: int): Result<Mon, MonitorFault> {
    match Read(db, id)
    case Err(f) => Err(FromStore(f))
    case Ok(r) => if r.supervisor != Some(owner) then Err(OwnerMismatch) else Ok(Fresh(r, id, owner, now))
  }

  /** Stores an event and keeps the record the store answered with. */
  function Send(m: Mon, db: Db, e: RunEvent, epoch: int): Moved<()> {
    match Event(db, m.id, e, epoch)
    case Err(f) => Moved(m, db, Err(FromStore(f)))
    case Ok(c) =>
      if c.reply.Current? then Moved(m.(record := c.reply.record), c.db, Ok(()))
      else Moved(m, c.db, Ok(()))
  }

  // ---------------------------------------------------------------- the tick

  predicate Elapsed(now: int, since: int, seconds: nat) {
    now - since >= seconds * 1000
  }

  /** Why this owner has to stop, in the order the reasons are considered. */
  function StopDue(m: Mon, now: int): Option<StopCode> {
    if m.record.cancellationRequested then Some(CancelCode)
    else if Elapsed(now, m.startAt, m.policy.absoluteSeconds) then Some(AbsoluteTimeout)
    else if m.stage.HandshakeStage? && Elapsed(now, m.stageAt, m.policy.handshakeSeconds) then Some(HandshakeTimeout)
    else if m.stage.SessionStage? && Elapsed(now, m.stageAt, m.policy.sessionSeconds) then Some(SessionTimeout)
    else if m.stage.TurnStage? && !IsTerminal(m.record.provider)
            && Elapsed(now, m.lastProgress, m.policy.idleSeconds) then Some(IdleTimeout)
    else None
  }

  function Beat(m: Mon, db: Db, now: int, epoch: int): Moved<()> {
    if now - m.lastHeartbeat < 250 then Moved(m, db, Ok(()))
    else
      match Heartbeat(db, m.id, m.owner, epoch)
      case Err(f) => Moved(m, db, Err(FromStore(f)))
      case Ok(c) =>
        if c.reply.Current? then Moved(m.(record := c.reply.record, lastHeartbeat := now), c.db, Ok(()))
        else Moved(m, c.db, Ok(()))
  }

  /** Settles, once, why the run stops; the store decides a race with a cancellation. */
  function Decide(m: Mon, db: Db, now: int, epoch: int): Moved<()> {
    if m.cancelAt.Some? then Moved(m, db, Ok(()))
    else
      match StopDue(m, now)
      case None => Moved(m, db, Ok(()))
      case Some(code) =>
        match DeadlineOf(code)
        case None => Moved(m.(stopCode := Some(code), cancelAt := Some(now)), db, Ok(()))
        case Some(deadline) =>
          var sent := Send(m, db, DeadlineExceeded(deadline), epoch);
          if sent.answer.Err? then sent
          else
            var lost := sent.mon.record.cancellationRequested && sent.mon.record.deadlineExpired.None?;
            sent.(mon := sent.mon.(stopCode := Some(if lost then CancelCode else code), cancelAt := Some(now)))
  }

  predicate EndsWith(s: string, suffix: string) {
    |suffix| <= |s| && s[|s| - |suffix|..] == suffix
  }

  function InterruptFor(r: RunRecord): Option<Interrupt> {
    if r.header.adapter == "codex" && r.sessionId.Some? && r.turnId.Some? then
      Some(TurnInterrupt(r.sessionId.value, r.turnId.value))
    else if (EndsWith(r.header.adapter, "acp") || r.header.adapter == "opencode" || r.header.adapter == "cline")
            && r.sessionId.Some? then
      Some(SessionCancel(r.sessionId.value))
    else None
  }

  /** After the stop: ask the provider once, and give up when the grace period is over. */
  function Deliver(m: Mon, db: Db, now: int): Moved<Option<Interrupt>> {
    if m.cancelAt.None? then Moved(m, db, Ok(None))
    else if Elapsed(now, m.cancelAt.value, m.policy.cancellationGraceSeconds) then
      Moved(m, db, Err(Stopped(if m.stopCode.Some? then m.stopCode.value else CancelCode)))
    else if m.cancelSent then Moved(m, db, Ok(None))
    else Moved(m.(cancelSent := true), db, Ok(InterruptFor(m.record)))
  }

  function Tick(m: Mon, db: Db, now: int, epoch: int): Moved<Option<Interrupt>> {
    var beat := Beat(m, db, now, epoch);
    if beat.answer.Err? then Moved(beat.mon, beat.db, Err(beat.answer.error))
    else
      var decided := Decide(beat.mon, beat.db, now, epoch);
      if decided.answer.Err? then Moved(decided.mon, decided.db, Err(decided.answer.error))
      else Deliver(decided.mon, decided.db, now)
  }

  // ---------------------------------------------------------------- protocol messages

  function BindSession(m: Mon, db: Db, session: string, now: int, epoch: int): Moved<()> {
    var bound :=
      if m.record.sessionId == Some(session) then Moved(m, db, Ok(()))
      else Send(m, db, SessionBound(session), epoch);
    if bound.answer.Err? then bound
    else bound.(mon := bound.mon.(stage := TurnStage, stageAt := now, lastProgress := now))
  }

  /** Records a terminal status only for the session, and if given the turn, that is bound. */
  function Conclude(m: Mon, db: Db, session: string, turn: Option<string>, status: ProviderState, epoch: int)
    : Moved<()>
  {
    if m.record.sessionId != Some(session) then Moved(m, db, Ok(()))
    else if turn.Some? && m.record.turnId != turn then Moved(m, db, Ok(()))
    else if m.record.provider == status then Moved(m, db, Ok(()))
    else Send(m, db, ProviderTerminal(status), epoch)
  }

  function RequestStarted(m: Mon, call: string, now: int): Mon {
    if call == "initialize" then m.(stage := HandshakeStage, stageAt := now)
    else if call in {"thread/start", "thread/resume", "session/new", "session/load", "authenticate"} then
      m.(stage := SessionStage, stageAt := now)
    else if call in {"turn/start", "session/prompt"} then m.(stage := TurnStage, stageAt := now, lastProgress := now)
    else m
  }

  function TurnStarted(m: Mon, db: Db, turn: string, epoch: int): Moved<()> {
    var bound := if m.record.turnId == Some(turn) then Moved(m, db, Ok(())) else Send(m, db, TurnBound(turn), epoch);
    if bound.answer.Err? then bound
    else
      match bound.mon.pendingTerminal
      case None => bound
      case Some(early) =>
        Conclude(bound.mon.(pendingTerminal := None), bound.db, early.session, Some(early.turn), early.status, epoch)
  }

  function PromptStatus(v: Json.Value): Option<ProviderState> {
    match Json.StringAt(v, ["stopReason"])
    case Some("end_turn") => Some(Completed)
    case Some("cancelled") => Some(Interrupted)
    case _ => None
  }

  /** The reply to one of the supervisor's own requests. */
  function ResponseReceived(m: Mon, db: Db, call: string, v: Json.Value, now: int, epoch: int): Moved<()> {
    if call in {"thread/start", "thread/resume"} then
      match Json.StringAt(v, ["thread", "id"])
      case Some(s) => BindSession(m, db, s, now, epoch)
      case None => Moved(m, db, Ok(()))
    else if call == "session/new" then
      match Json.StringAt(v, ["sessionId"])
      case Some(s) => BindSession(m, db, s, now, epoch)
      case None => Moved(m, db, Ok(()))
    else if call == "turn/start" then
      match Json.StringAt(v, ["turn", "id"])
      case Some(t) => TurnStarted(m, db, t, epoch)
      case None => Moved(m, db, Ok(()))
    else if call == "session/prompt" && PromptStatus(v).Some? && m.record.sessionId.Some? then
      Conclude(m, db, m.record.sessionId.value, None, PromptStatus(v).value, epoch)
    else Moved(m, db, Ok(()))
  }

  /** A turn/completed notification with both ids and a status that is known to be final. */
  function Completion(v: Json.Value): Option<EarlyTerminal> {
    if Json.StringAt(v, ["method"]) != Some("turn/completed") then None
    else
      match (Json.StringAt(v, ["params", "threadId"]), Json.StringAt(v, ["params", "turn", "id"]),
             Json.StringAt(v, ["params", "turn", "status"]))
      case (Some(s), Some(t), Some("completed")) => Some(EarlyTerminal(s, t, Completed))
      case (Some(s), Some(t), Some("failed")) => Some(EarlyTerminal(s, t, ProviderState.Failed))
      case (Some(s), Some(t), Some("interrupted")) => Some(EarlyTerminal(s, t, Interrupted))
      case _ => None
  }

  function ObserveCompletion(m: Mon, db: Db, c: EarlyTerminal, epoch: int): Moved<()> {
    if !IsOpaque(c.session) || !IsOpaque(c.turn) then Moved(m, db, Err(IdRejected))
    else if m.record.turnId.None? then Moved(m.(pendingTerminal := Some(c)), db, Ok(()))
    else Conclude(m, db, c.session, Some(c.turn), c.status, epoch)
  }

  /** Whether a message reports work on the session this run is bound to. */
  predicate InScope(m: Mon, v: Json.Value) {
    var call := Json.StringAt(v, ["method"]);
    if call.Some? && call.value in {"item/started", "item/completed", "turn/diff/updated", "turn/plan/updated"} then
      m.record.sessionId.Some? && Json.StringAt(v, ["params", "threadId"]) == m.record.sessionId
    else if call == Some("session/update")
            && Json.StringAt(v, ["params", "update", "sessionUpdate"]) in
               {Some("tool_call"), Some("tool_call_update"), Some("plan")} then
      m.record.sessionId.Some? && Json.StringAt(v, ["params", "sessionId"]) == m.record.sessionId
    else false
  }

  /** A key that tells one step of work from a repeated report of it. */
  function ProgressKey(v: Json.Value): Option<string> {
    var item := Json.At(v, ["params", "item", "id"]);
    var id := Json.AsString(if item.Some? then item else Json.At(v, ["params", "update", "toolCallId"]));
    if id.None? || ByteLength(id.value) > 256 || (exists c | c in id.value :: IsControl(c)) then None
    else
      var call := Json.StringAt(v, ["method"]);
      var status := Json.StringAt(v, ["params", "update", "status"]);
      Some((if call.Some? then call.value else "") + ":" + id.value + ":" + (if status.Some? then status.value else ""))
  }

  function ObserveProgress(m: Mon, db: Db, v: Json.Value, now: int, epoch: int): Moved<()> {
    var key := ProgressKey(v);
    if !InScope(m, v) || key.None? || |m.progressKeys| >= 4096 || key.value in m.progressKeys then Moved(m, db, Ok(()))
    else
      var seen := m.(progressKeys := m.progressKeys + {key.value}, lastProgress := now);
      if now - m.lastFlush < 1000 then Moved(seen, db, Ok(()))
      else
        var sent := Send(seen, db, Progress, epoch);
        if sent.answer.Err? then sent else sent.(mon := sent.mon.(lastFlush := now))
  }

  /** Any message read from the provider. */
  function Observe(m: Mon, db: Db, v: Json.Value, now: int, epoch: int): Moved<()> {
    if Json.StringAt(v, ["method"]) == Some("turn/completed") then
      match Completion(v)
      case Some(c) => ObserveCompletion(m, db, c, epoch)
      case None => Moved(m, db, Ok(()))
    else ObserveProgress(m, db, v, now, epoch)
  }

  // ---------------------------------------------------------------- the end of a run

  /** Whether a successful result says that the provider completed the turn. */
  predicate SaysEnded(v: Json.Value) {
    || Json.At(v, ["continuation", "completed"]) == Some(Json.Bool(true))
    || Json.StringAt(v, ["continuation", "turn_status"]) == Some("completed")
  }

  type RunResult = Result<Json.Value, string>

  /** The completion event the end of a run sends first, judged on the record it read. */
  predicate SettlesFirst(r: RunRecord, result: RunResult) {
    result.Ok? && SaysEnded(result.value) && !IsTerminal(r.provider)
  }

  function ResultState(result: RunResult): TransportState {
    match result
    case Ok(_) => Exited
    case Err(code) =>
      if code == CodeText(CancelCode) then TransportState.Cancelled
      else if Contains(code, "TIMEOUT") then TimedOut
      else Lost
  }

  /** The transport state the end of a run stores, judged on the record it read. */
  function EndState(r: RunRecord, result: RunResult): TransportState {
    if r.deadlineExpired.Some? then TimedOut
    else if r.cancellationRequested && !r.provider.Completed? then TransportState.Cancelled
    else ResultState(result)
  }

  function EndEvent(r: RunRecord, result: RunResult): RunEvent {
    TransportEnded(EndState(r, result), match result { case Ok(_) => None case Err(code) => Some(code) })
  }

  /** Two transactions after one read; the second is skipped when the first is refused. */
  function Finish(db: Db, id: string, result: RunResult, settleAt: int, endAt: int): (Db, Option<StoreFault>) {
    match Read(db, id)
    case Err(f) => (db, Some(f))
    case Ok(r) =>
      var settled :=
        if SettlesFirst(r, result) then Event(db, id, ProviderTerminal(Completed), settleAt)
        else Ok(Commit(db, Skipped));
      match settled
      case Err(f) => (db, Some(f))
      case Ok(c) =>
        match Event(c.db, id, EndEvent(r, result), endAt)
        case Err(f) => (c.db, Some(f))
        case Ok(ended) => (ended.db, None)
  }

  // ---------------------------------------------------------------- recovery from a lost supervisor

  /** What the host answers about a process id: unreadable, no such process, or its birth time. */
  datatype Sight = Unreadable | NoProcess | Born(birth: string)

  /** The host a recovery runs on, and the processes it can see. */
  datatype Host = Host(installation: string, sight: nat -> Sight)

  /** Whether the claiming process still runs; None when that cannot be told. */
  function SupervisorAlive(r: RunRecord, host: Host): Option<bool> {
    match r.supervisor
    case None => Some(false)
    case Some(p) =>
      if p.host != host.installation then None
      else
        match host.sight(p.pid)
        case Unreadable => None
        case NoProcess => Some(false)
        case Born(birth) => Some(birth == p.birth)
  }

  predicate IsOpen(r: RunRecord) {
    r.executionId.Some? && !r.ownerReleased
  }

  predicate IsAbandoned(r: RunRecord, host: Host) {
    IsOpen(r) && SupervisorAlive(r, host) == Some(false)
  }

  const GONE: RunEvent := Recovered(true)

  /** One pass over a listing of runs: the abandoned ones are released, the others are left alone. */
  function RecoverAll(db: Db, listing: seq<RunRecord>, host: Host, epoch: int): (Db, Option<StoreFault>) {
    if listing == [] then (db, None)
    else
      var (before, fault) := RecoverAll(db, listing[..|listing| - 1], host, epoch);
      var r := listing[|listing| - 1];
      if fault.Some? || !IsAbandoned(r, host) then (before, fault)
      else
        match Event(before, r.header.id, GONE, epoch)
        case Err(f) => (before, Some(f))
        case Ok(c) => (c.db, None)
  }

  datatype Finding = FoundGone(id: string) | FoundAlive(id: string) | FoundUnknown(id: string)

  /** What a completed pass reports: one finding for each open run, in listing order. */
  function Findings(listing: seq<RunRecord>, host: Host): seq<Finding> {
    if listing == [] then []
    else
      var r := listing[|listing| - 1];
      Findings(listing[..|listing| - 1], host)
      + if !IsOpen(r) then []
        else
          match SupervisorAlive(r, host)
          case Some(false) => [FoundGone(r.header.id)]
          case Some(true) => [FoundAlive(r.header.id)]
          case None => [FoundUnknown(r.header.id)]
  }

  method RecoveryScan(store: Store, listing: seq<RunRecord>, host: Host, epoch: int)
    returns (found: seq<Finding>, fault: Option<StoreFault>)
    modifies store
    ensures (store.Tables(), fault) == RecoverAll(old(store.Tables()), listing, host, epoch)
    ensures fault.None? ==> found == Findings(listing, host)
  {
    found := [];
    fault := None;
    for i := 0 to |listing|
      invariant fault == None
      invariant (store.Tables(), fault) == RecoverAll(old(store.Tables()), listing[..i], host, epoch)
      invariant found == Findings(listing[..i], host)
    {
      assert listing[..i + 1][..i] == listing[..i];
      var r := listing[i];
      if IsOpen(r) {
        match SupervisorAlive(r, host) {
          case Some(false) =>
            var updated := store.DurableEvent(r.header.id, GONE, epoch);
            if updated.Err? {
              fault := Some(updated.error);
              RecoveryStops(old(store.Tables()), listing, i + 1, host, epoch);
              return;
            }
            found := found + [FoundGone(r.header.id)];
          case Some(true) => found := found + [FoundAlive(r.header.id)];
          case None => found := found + [FoundUnknown(r.header.id)];
        }
      }
    }
    assert listing[..|listing|] == listing;
  }

  /** A refused recovery ends the pass. */
  lemma {:induction false} RecoveryStops(db: Db, listing: seq<RunRecord>, i: nat, host: Host, epoch: int)
    requires i <= |listing|
    requires RecoverAll(db, listing[..i], host, epoch).1.Some?
    ensures RecoverAll(db, listing, host, epoch) == RecoverAll(db, listing[..i], host, epoch)
    decreases |listing|
  {
    if i < |listing| {
      assert listing[..|listing| - 1][..i] == listing[..i];
      RecoveryStops(db, listing[..|listing| - 1], i, host, epoch);
    } else {
      assert listing[..i] == listing;
    }
  }

  /**
   * Local reconciliation of one run against a revision: releases it if its supervisor is gone, and
   * then notes the state of its workspace. A live owner keeps everything as it is.
   */
  function ReconcileLocal(db: Db, id: string, expected: nat, host: Host, sighting: WorkspaceState, epoch: int)
    : (Db, Option<StoreFault>)
  {
    match Read(db, id)
    case Err(f) => (db, Some(f))
    case Ok(r) =>
      var alive := SupervisorAlive(r, host);
      if r.revision != expected then (db, Some(RevisionConflict))
      else if alive.None? then (db, Some(SupervisorUnknown))
      else if IsOpen(r) && !alive.value then
        match Event(db, id, GONE, epoch)
        case Err(f) => (db, Some(f))
        case Ok(c) => NoteWorkspace(c.db, id, if c.reply.Current? then c.reply.record else r, sighting, epoch)
      else if alive.value && !r.ownerReleased then (db, None)
      else NoteWorkspace(db, id, r, sighting, epoch)
  }

  function NoteWorkspace(db: Db, id: string, r: RunRecord, sighting: WorkspaceState, epoch: int)
    : (Db, Option<StoreFault>)
  {
    if r.workspace == sighting then (db, None)
    else
      match Event(db, id, WorkspaceObserved(sighting), epoch)
      case Err(f) => (db, Some(f))
      case Ok(c) => (c.db, None)
  }

  method DoReconcileLocal(store: Store, id: string, expected: nat, host: Host, sighting: WorkspaceState, epoch: int)
    returns (fault: Option<StoreFault>)
    modifies store
    ensures (store.Tables(), fault) == ReconcileLocal(old(store.Tables()), id, expected, host, sighting, epoch)
  {
    var read := store.ReadRun(id);
    if read.Err? {
      return Some(read.error);
    }
    var r := read.value;
    if r.revision != expected {
      return Some(RevisionConflict);
    }
    var alive := SupervisorAlive(r, host);
    if alive.None? {
      return Some(SupervisorUnknown);
    }
    if !r.ownerReleased && r.executionId.Some? && !alive.value {
      var updated := store.DurableEvent(id, GONE, epoch);
      if updated.Err? {
        return Some(updated.error);
      }
      r := updated.value;
    }
    if alive.value && !r.ownerReleased {
      return None;
    }
    if r.workspace != sighting {
      var noted := store.DurableEvent(id, WorkspaceObserved(sighting), epoch);
      if noted.Err? {
        return Some(noted.error);
      }
    }
    return None;
  }

  method FinishRun(store: Store, id: string, result: RunResult, settleAt: int, endAt: int)
    returns (fault: Option<StoreFault>)
    modifies store
    ensures (store.Tables(), fault) == Finish(old(store.Tables()), id, result, settleAt, endAt)
  {
    var read := store.ReadRun(id);
    if read.Err? {
      return Some(read.error);
    }
    var r := read.value;
    if SettlesFirst(r, result) {
      var settled := store.DurableEvent(id, ProviderTerminal(Completed), settleAt);
      if settled.Err? {
        return Some(settled.error);
      }
    }
    var state := ResultState(result);
    if r.deadlineExpired.Some? {
      state := TimedOut;
    } else if r.cancellationRequested && !r.provider.Completed? {
      state := TransportState.Cancelled;
    }
    var ended := store.DurableEvent(id, TransportEnded(state, if result.Ok? then None else Some(result.error)), endAt);
    if ended.Err? {
      return Some(ended.error);
    }
    return None;
  }

  // ---------------------------------------------------------------- the monitor in place

  class Monitor {
    const store: Store
    var mon: Mon

    constructor (store: Store, mon: Mon)
      ensures this.store == store && this.mon == mon
    {
      this.store := store;
      this.mon := mon;
    }

    method SendEvent(e: RunEvent, epoch: int) returns (fault: Option<MonitorFault>)
      modifies this, store
      ensures var sent := Send(old(mon), old(store.Tables()), e, epoch);
              mon == sent.mon && store.Tables() == sent.db && fault == Fault(sent.answer)
    {
      var res := store.DurableEvent(mon.id, e, epoch);
      if res.Err? {
        return Some(FromStore(res.error));
      }
      mon := mon.(record := res.value);
      return None;
    }

    static function Fault<T>(answer: Result<T, MonitorFault>): Option<MonitorFault> {
      if answer.Err? then Some(answer.error) else None
    }

    method DoTick(now: int, epoch: int) returns (res: Result<Option<Interrupt>, MonitorFault>)
      modifies this, store
      ensures Moved(mon, store.Tables(), res) == Tick(old(mon), old(store.Tables()), now, epoch)
    {
      if now - mon.lastHeartbeat >= 250 {
        var beat := store.DurableHeartbeat(mon.id, mon.owner, epoch);
        if beat.Err? {
          return Err(FromStore(beat.error));
        }
        mon := mon.(record := beat.value, lastHeartbeat := now);
      }
      if mon.cancelAt.None? {
        var stop := StopDue(mon, now);
        if stop.Some? {
          var effective := stop.value;
          var deadline := DeadlineOf(stop.value);
          if deadline.Some? {
            var fault := SendEvent(DeadlineExceeded(deadline.value), epoch);
            if fault.Some? {
              return Err(fault.value);
            }
            if mon.record.cancellationRequested && mon.record.deadlineExpired.None? {
              effective := CancelCode;
            }
          }
          mon := mon.(stopCode := Some(effective), cancelAt := Some(now));
        }
      }
      if mon.cancelAt.Some? {
        if Elapsed(now, mon.cancelAt.value, mon.policy.cancellationGraceSeconds) {
          return Err(Stopped(if mon.stopCode.Some? then mon.stopCode.value else CancelCode));
        }
        if !mon.cancelSent {
          mon := mon.(cancelSent := true);
          return Ok(InterruptFor(mon.record));
        }
      }
      return Ok(None);
    }

    method DoBindSession(session: string, now: int, epoch: int) returns (fault: Option<MonitorFault>)
      modifies this, store
      ensures var bound := BindSession(old(mon), old(store.Tables()), session, now, epoch);
              mon == bound.mon && store.Tables() == bound.db && fault == Fault(bound.answer)
    {
      if mon.record.sessionId != Some(session) {
        fault := SendEvent(SessionBound(session), epoch);
        if fault.Some? {
          return;
        }
      }
      mon := mon.(stage := TurnStage, stageAt := now, lastProgress := now);
      return None;
    }

    method DoConclude(session: string, turn: Option<string>, status: ProviderState, epoch: int)
      returns (fault: Option<MonitorFault>)
      modifies this, store
      ensures var done := Conclude(old(mon), old(store.Tables()), session, turn, status, epoch);
              mon == done.mon && store.Tables() == done.db && fault == Fault(done.answer)
    {
      if mon.record.sessionId != Some(session) {
        return None;
      }
      if turn.Some? && mon.record.turnId != turn {
        return None;
      }
      if mon.record.provider == status {
        return None;
      }
      fault := SendEvent(ProviderTerminal(status), epoch);
    }

    method DoTurnStarted(turn: string, epoch: int) returns (fault: Option<MonitorFault>)
      modifies this, store
      ensures var started := TurnStarted(old(mon), old(store.Tables()), turn, epoch);
              mon == started.mon && store.Tables() == started.db && fault == Fault(started.answer)
    {
      if mon.record.turnId != Some(turn) {
        fault := SendEvent(TurnBound(turn), epoch);
        if fault.Some? {
          return;
        }
      }
      var early := mon.pendingTerminal;
      mon := mon.(pendingTerminal := None);
      if early.None? {
        return None;
      }
      fault := DoConclude(early.value.session, Some(early.value.turn), early.value.status, epoch);
    }

    method DoObserve(v: Json.Value, now: int, epoch: int) returns (fault: Option<MonitorFault>)
      modifies this, store
      ensures var seen := Observe(old(mon), old(store.Tables()), v, now, epoch);
              mon == seen.mon && store.Tables() == seen.db && fault == Fault(seen.answer)
    {
      if Json.StringAt(v, ["method"]) == Some("turn/completed") {
        var c := Completion(v);
        if c.None? {
          return None;
        }
        if !IsOpaque(c.value.session) || !IsOpaque(c.value.turn) {
          return Some(IdRejected);
        }
        if mon.record.turnId.None? {
          mon := mon.(pendingTerminal := c);
          return None;
        }
        fault := DoConclude(c.value.session, Some(c.value.turn), c.value.status, epoch);
        return;
      }
      var key := ProgressKey(v);
      if !InScope(mon, v) || key.None? || |mon.progressKeys| >= 4096 || key.value in mon.progressKeys {
        return None;
      }
      mon := mon.(progressKeys := mon.progressKeys + {key.value}, lastProgress := now);
      if now - mon.lastFlush >= 1000 {
        fault := SendEvent(Progress, epoch);
        if fault.Some? {
          return;
        }
        mon := mon.(lastFlush := now);
      }
      return None;
    }

    method DoResponseReceived(call: string, v: Json.Value, now: int, epoch: int) returns (fault: Option<MonitorFault>)
      modifies this, store
      ensures var got := ResponseReceived(old(mon), old(store.Tables()), call, v, now, epoch);
              mon == got.mon && store.Tables() == got.db && fault == Fault(got.answer)
    {
      if call in {"thread/start", "thread/resume"} {
        var s := Json.StringAt(v, ["thread", "id"]);
        if s.Some? {
          fault := DoBindSession(s.value, now, epoch);
          return;
        }
      } else if call == "session/new" {
        var s := Json.StringAt(v, ["sessionId"]);
        if s.Some? {
          fault := DoBindSession(s.value, now, epoch);
          return;
        }
      } else if call == "turn/start" {
        var t := Json.StringAt(v, ["turn", "id"]);
        if t.Some? {
          fault := DoTurnStarted(t.value, epoch);
          return;
        }
      } else if call == "session/prompt" && PromptStatus(v).Some? && mon.record.sessionId.Some? {
        fault := DoConclude(mon.record.sessionId.value, None, PromptStatus(v).value, epoch);
        return;
      }
      return None;
    }
  }
}
