/**
 * What one monitor can rely on while every other process keeps changing the tables: how its stop
 * code and the stored deadline agree, and when its clocks may stop a run.
 */
module DurableSupervision {
  import opened Prelude
  import opened Control
  import opened Durable
  import opened DurableLog
  import opened DurableStore
  import opened DurableHistory
  import opened DurableRuntime
  import Json

  // ---------------------------------------------------------------- one monitor among other processes

  datatype World = World(mon: Mon, db: Db)

  /** Anything the monitor does, or any transaction of another process. */
  datatype Act =
    | Other(op: Op)
    | TickAct(now: int, epoch: int)
    | RequestAct(call: string, now: int)
    | ResponseAct(call: string, reply: Json.Value, now: int, epoch: int)
    | ObserveAct(message: Json.Value, now: int, epoch: int)
    | ChildAct(identity: ProcessIdentity, epoch: int)

  /** Deadlines of a run are reported by its own monitor only. */
  predicate Foreign(op: Op, id: string) {
    Issued(op) && !(op.EventOp? && op.id == id && op.event.DeadlineExceeded?)
  }

  predicate Fair(w: World, a: Act) {
    a.Other? ==> Foreign(a.op, w.mon.id)
  }

  function Next(w: World, a: Act): World {
    match a
    case Other(op) => w.(db := Step(w.db, op))
    case TickAct(now, epoch) => var t := Tick(w.mon, w.db, now, epoch); World(t.mon, t.db)
    case RequestAct(call, now) => w.(mon := RequestStarted(w.mon, call, now))
    case ResponseAct(call, reply, now, epoch) =>
      var t := ResponseReceived(w.mon, w.db, call, reply, now, epoch); World(t.mon, t.db)
    case ObserveAct(message, now, epoch) => var t := Observe(w.mon, w.db, message, now, epoch); World(t.mon, t.db)
    case ChildAct(identity, epoch) => var t := Send(w.mon, w.db, ChildStarted(identity), epoch); World(t.mon, t.db)
  }

  function Play(w: World, acts: seq<Act>): World {
    if acts == [] then w else Next(Play(w, acts[..|acts| - 1]), acts[|acts| - 1])
  }

  ghost predicate AllFair(w: World, acts: seq<Act>) {
    forall a | a in acts :: Fair(w, a)
  }

  /** The stop code and the stored deadline are one decision. */
  ghost predicate Decided(m: Mon, r: RunRecord) {
    && (m.stopCode.None? <==> m.cancelAt.None?)
    && r.deadlineExpired == (if m.stopCode.None? then None else DeadlineOf(m.stopCode.value))
    && (m.stopCode == Some(CancelCode) ==> r.cancellationRequested)
    && (m.record.cancellationRequested ==> r.cancellationRequested)
  }

  ghost predicate WorldInv(w: World) {
    && Inv(w.db)
    && w.mon.id in w.db.runs
    && Decided(w.mon, w.db.runs[w.mon.id].payload)
  }

  // ---------------------------------------------------------------- steps of the store, seen from one run

  lemma DeadlineOnlyByEvent(r: RunRecord, e: RunEvent, at: int)
    requires Apply(r, e, at).Ok?
    ensures Apply(r, e, at).value.deadlineExpired == if e.DeadlineExceeded? then Some(e.deadline) else r.deadlineExpired
    ensures Apply(r, e, at).value.cancellationRequested || !r.cancellationRequested
  {
  }

  /** An event at the store: what it answers and what it makes of the run it is about. */
  lemma EventMeaning(db: Db, id: string, e: RunEvent, now: int)
    requires Inv(db) && id in db.runs && !e.Claimed? && !e.CancelRequested?
    ensures match Event(db, id, e, now)
            case Err(_) => true
            case Ok(c) =>
              && Inv(c.db) && c.db == Step(db, EventOp(id, e, now))
              && id in c.db.runs
              && c.reply == Current(c.db.runs[id].payload)
              && (if IsAbsorbed(db.runs[id].payload, e) then c.db == db
                  else
                    && Apply(db.runs[id].payload, e, now) == Ok(c.db.runs[id].payload)
                    && LogOf(c.db, id) == LogOf(db, id) + [Stored(|LogOf(db, id)| + 1, now, e)])
  {
    hide Apply;
    hide Replay;
    hide Update;
    hide RunInv;
    hide ClaimsMatch;
    RowSequence(db, id);
    UpdateShape(db, id, e, now);
    EventKeepsInv(db, id, e, now);
    if Apply(db.runs[id].payload, e, now).Ok? {
      ApplyFacts(db.runs[id].payload, e, now);
    }
  }

  lemma RowSequence(db: Db, id: string)
    requires id in db.runs && RunInv(db, id)
    ensures db.runs[id].payload.sequence == |LogOf(db, id)|
  {
    hide Replay;
  }

  lemma ForeignKeepsDeadline(db: Db, op: Op, id: string)
    requires Inv(db) && id in db.runs && Foreign(op, id)
    ensures var after := Step(db, op);
            && Inv(after) && id in after.runs
            && after.runs[id].payload.deadlineExpired == db.runs[id].payload.deadlineExpired
            && (db.runs[id].payload.cancellationRequested ==> after.runs[id].payload.cancellationRequested)
  {
    hide Apply;
    hide Replay;
    hide Update;
    hide RunInv;
    hide ClaimsMatch;
    hide ValidPolicy;
    hide Prepared;
    StepKeepsInv(db, op);
    StepGrows(db, op, id);
    match op {
      case EventOp(target, e, now) =>
        if target in db.runs {
          AcceptedDeadline(db, db, target, e, now, id);
        }
      case CancelOp(target, expected, now) =>
        if target in db.runs {
          AcceptedDeadline(db, db, target, RunEvent.CancelRequested, now, id);
        }
      case StartOp(target, supervisor, execution, now) =>
        if target in db.runs && Reserve(db, execution, target).Ok? {
          AcceptedDeadline(db, Reserve(db, execution, target).value, target, Claimed(supervisor, execution), now, id);
        }
      case _ =>
    }
  }

  lemma AcceptedDeadline(db: Db, reserved: Db, target: string, e: RunEvent, now: int, id: string)
    requires Inv(db) && target in db.runs && id in db.runs
    requires reserved == db.(effects := reserved.effects)
    ensures ReadRow(db.runs[target]) == db.runs[target].payload
    ensures match Update(reserved, db.runs[target].payload, e, now)
            case Err(_) => true
            case Ok(c) =>
              && id in c.db.runs && target in c.db.runs
              && (target != id || !e.DeadlineExceeded? ==>
                    c.db.runs[id].payload.deadlineExpired == db.runs[id].payload.deadlineExpired)
  {
    hide Apply;
    hide Replay;
    hide Update;
    hide RunOk;
    assert RunInv(db, target) && RunInv(reserved, target);
    UpdateShape(reserved, target, e, now);
    if Update(reserved, db.runs[target].payload, e, now).Ok? {
      DeadlineOnlyByEvent(db.runs[target].payload, e, now);
    }
  }

  // ---------------------------------------------------------------- steps of the monitor

  /** Sending anything but a deadline keeps the decision as it is. */
  lemma SendKeepsDecision(w: World, e: RunEvent, epoch: int)
    requires WorldInv(w) && !e.Claimed? && !e.CancelRequested? && !e.DeadlineExceeded?
    ensures var t := Send(w.mon, w.db, e, epoch);
            && WorldInv(World(t.mon, t.db))
            && t.mon == w.mon.(record := t.mon.record)
  {
    hide Event;
    hide Inv;
    EventMeaning(w.db, w.mon.id, e, epoch);
    if Event(w.db, w.mon.id, e, epoch).Ok? && !IsAbsorbed(w.db.runs[w.mon.id].payload, e) {
      DeadlineOnlyByEvent(w.db.runs[w.mon.id].payload, e, epoch);
    }
  }

  lemma BeatKeepsDecision(w: World, now: int, epoch: int)
    requires WorldInv(w)
    ensures var t := Beat(w.mon, w.db, now, epoch);
            && WorldInv(World(t.mon, t.db))
            && t.mon == w.mon.(record := t.mon.record, lastHeartbeat := t.mon.lastHeartbeat)
  {
    hide RunOk;
    HeartbeatKeepsInv(w.db, w.mon.id, w.mon.owner, epoch);
    assert RunInv(w.db, w.mon.id);
    ColumnOf(w.db, w.mon.id);
  }

  lemma DecideKeepsDecision(w: World, now: int, epoch: int)
    requires WorldInv(w)
    ensures var t := Decide(w.mon, w.db, now, epoch); WorldInv(World(t.mon, t.db))
  {
    hide Event;
    hide Inv;
    if w.mon.cancelAt.None? && StopDue(w.mon, now).Some? && DeadlineOf(StopDue(w.mon, now).value).Some? {
      var e := DeadlineExceeded(DeadlineOf(StopDue(w.mon, now).value).value);
      EventMeaning(w.db, w.mon.id, e, epoch);
      if Event(w.db, w.mon.id, e, epoch).Ok? && !IsAbsorbed(w.db.runs[w.mon.id].payload, e) {
        DeadlineOnlyByEvent(w.db.runs[w.mon.id].payload, e, epoch);
      }
    }
  }

  lemma TickKeepsDecision(w: World, now: int, epoch: int)
    requires WorldInv(w)
    ensures var t := Tick(w.mon, w.db, now, epoch); WorldInv(World(t.mon, t.db))
  {
    hide Beat;
    hide Decide;
    hide Inv;
    BeatKeepsDecision(w, now, epoch);
    var beat := Beat(w.mon, w.db, now, epoch);
    DecideKeepsDecision(World(beat.mon, beat.db), now, epoch);
  }

  lemma ConcludeKeepsDecision(w: World, session: string, turn: Option<string>, status: ProviderState, epoch: int)
    requires WorldInv(w)
    ensures var t := Conclude(w.mon, w.db, session, turn, status, epoch);
            WorldInv(World(t.mon, t.db)) && t.mon == w.mon.(record := t.mon.record)
  {
    hide Send;
    hide Inv;
    SendKeepsDecision(w, ProviderTerminal(status), epoch);
  }

  lemma BindKeepsDecision(w: World, session: string, now: int, epoch: int)
    requires WorldInv(w)
    ensures var t := BindSession(w.mon, w.db, session, now, epoch); WorldInv(World(t.mon, t.db))
  {
    hide Send;
    hide Inv;
    SendKeepsDecision(w, SessionBound(session), epoch);
  }

  lemma TurnKeepsDecision(w: World, turn: string, epoch: int)
    requires WorldInv(w)
    ensures var t := TurnStarted(w.mon, w.db, turn, epoch); WorldInv(World(t.mon, t.db))
  {
    hide Send;
    hide Inv;
    hide Conclude;
    SendKeepsDecision(w, TurnBound(turn), epoch);
    var bound :=
      if w.mon.record.turnId == Some(turn) then Moved(w.mon, w.db, Ok(()))
      else Send(w.mon, w.db, TurnBound(turn), epoch);
    if bound.mon.pendingTerminal.Some? {
      var early := bound.mon.pendingTerminal.value;
      ConcludeKeepsDecision(
        World(bound.mon.(pendingTerminal := None), bound.db), early.session, Some(early.turn), early.status, epoch);
    }
  }

  lemma ResponseKeepsDecision(w: World, call: string, v: Json.Value, now: int, epoch: int)
    requires WorldInv(w)
    ensures var t := ResponseReceived(w.mon, w.db, call, v, now, epoch); WorldInv(World(t.mon, t.db))
  {
    hide WorldInv;
    hide BindSession;
    hide TurnStarted;
    hide Conclude;
    hide Json.StringAt;
    var session, created := Json.StringAt(v, ["thread", "id"]), Json.StringAt(v, ["sessionId"]);
    var turn := Json.StringAt(v, ["turn", "id"]);
    if session.Some? {
      BindKeepsDecision(w, session.value, now, epoch);
    }
    if created.Some? {
      BindKeepsDecision(w, created.value, now, epoch);
    }
    if turn.Some? {
      TurnKeepsDecision(w, turn.value, epoch);
    }
    if w.mon.record.sessionId.Some? && PromptStatus(v).Some? {
      ConcludeKeepsDecision(w, w.mon.record.sessionId.value, None, PromptStatus(v).value, epoch);
    }
  }

  lemma ProgressKeepsDecision(w: World, v: Json.Value, now: int, epoch: int)
    requires WorldInv(w)
    ensures var t := ObserveProgress(w.mon, w.db, v, now, epoch); WorldInv(World(t.mon, t.db))
  {
    hide Send;
    hide Inv;
    hide InScope;
    hide ProgressKey;
    if ProgressKey(v).Some? {
      var seen := w.mon.(progressKeys := w.mon.progressKeys + {ProgressKey(v).value}, lastProgress := now);
      SendKeepsDecision(World(seen, w.db), Progress, epoch);
    }
  }

  lemma ObserveKeepsDecision(w: World, v: Json.Value, now: int, epoch: int)
    requires WorldInv(w)
    ensures var t := Observe(w.mon, w.db, v, now, epoch); WorldInv(World(t.mon, t.db))
  {
    hide Inv;
    hide Conclude;
    hide Completion;
    hide Json.StringAt;
    hide ObserveProgress;
    ProgressKeepsDecision(w, v, now, epoch);
    if Completion(v).Some? {
      var c := Completion(v).value;
      ConcludeKeepsDecision(w, c.session, Some(c.turn), c.status, epoch);
    }
  }

  lemma RequestKeepsDecision(w: World, call: string, now: int)
    requires WorldInv(w)
    ensures WorldInv(w.(mon := RequestStarted(w.mon, call, now)))
  {
    hide Inv;
  }

  lemma OtherKeepsDecision(w: World, op: Op)
    requires WorldInv(w) && Foreign(op, w.mon.id)
    ensures WorldInv(w.(db := Step(w.db, op)))
  {
    hide Step;
    hide Inv;
    ForeignKeepsDeadline(w.db, op, w.mon.id);
  }

  lemma NextKeepsDecision(w: World, a: Act)
    requires WorldInv(w) && Fair(w, a)
    ensures WorldInv(Next(w, a))
  {
    hide WorldInv;
    hide Tick;
    hide Observe;
    hide ResponseReceived;
    hide RequestStarted;
    hide Send;
    hide Step;
    match a {
      case Other(op) => OtherKeepsDecision(w, op);
      case TickAct(now, epoch) => TickKeepsDecision(w, now, epoch);
      case RequestAct(call, now) => RequestKeepsDecision(w, call, now);
      case ResponseAct(call, reply, now, epoch) => ResponseKeepsDecision(w, call, reply, now, epoch);
      case ObserveAct(message, now, epoch) => ObserveKeepsDecision(w, message, now, epoch);
      case ChildAct(identity, epoch) => SendKeepsDecision(w, ChildStarted(identity), epoch);
    }
  }

  /** What only a tick may change. */
  predicate SameStop(m: Mon, later: Mon) {
    && later.id == m.id && later.cancelAt == m.cancelAt && later.stopCode == m.stopCode
    && later.cancelSent == m.cancelSent && later.policy == m.policy && later.startAt == m.startAt
  }

  lemma SendLeavesStop(m: Mon, db: Db, e: RunEvent, epoch: int)
    ensures SameStop(m, Send(m, db, e, epoch).mon)
  {
    hide Event;
  }

  lemma ConcludeLeavesStop(m: Mon, db: Db, session: string, turn: Option<string>, status: ProviderState, epoch: int)
    ensures SameStop(m, Conclude(m, db, session, turn, status, epoch).mon)
  {
    hide Send;
    SendLeavesStop(m, db, ProviderTerminal(status), epoch);
  }

  lemma BindLeavesStop(m: Mon, db: Db, session: string, now: int, epoch: int)
    ensures SameStop(m, BindSession(m, db, session, now, epoch).mon)
  {
    hide Send;
    SendLeavesStop(m, db, SessionBound(session), epoch);
  }

  lemma TurnLeavesStop(m: Mon, db: Db, turn: string, epoch: int)
    ensures SameStop(m, TurnStarted(m, db, turn, epoch).mon)
  {
    hide Send;
    hide Conclude;
    SendLeavesStop(m, db, TurnBound(turn), epoch);
    var bound := if m.record.turnId == Some(turn) then Moved(m, db, Ok(())) else Send(m, db, TurnBound(turn), epoch);
    if bound.mon.pendingTerminal.Some? {
      var early := bound.mon.pendingTerminal.value;
      ConcludeLeavesStop(
        bound.mon.(pendingTerminal := None), bound.db, early.session, Some(early.turn), early.status, epoch);
    }
  }

  lemma ResponseLeavesStop(m: Mon, db: Db, call: string, v: Json.Value, now: int, epoch: int)
    ensures SameStop(m, ResponseReceived(m, db, call, v, now, epoch).mon)
  {
    hide BindSession;
    hide TurnStarted;
    hide Conclude;
    hide PromptStatus;
    hide Json.StringAt;
    if call in {"thread/start", "thread/resume"} {
      var s := Json.StringAt(v, ["thread", "id"]);
      if s.Some? { BindLeavesStop(m, db, s.value, now, epoch); }
    } else if call == "session/new" {
      var s := Json.StringAt(v, ["sessionId"]);
      if s.Some? { BindLeavesStop(m, db, s.value, now, epoch); }
    } else if call == "turn/start" {
      var t := Json.StringAt(v, ["turn", "id"]);
      if t.Some? { TurnLeavesStop(m, db, t.value, epoch); }
    } else if call == "session/prompt" && PromptStatus(v).Some? && m.record.sessionId.Some? {
      ConcludeLeavesStop(m, db, m.record.sessionId.value, None, PromptStatus(v).value, epoch);
    }
  }

  lemma ObserveLeavesStop(m: Mon, db: Db, v: Json.Value, now: int, epoch: int)
    ensures SameStop(m, Observe(m, db, v, now, epoch).mon)
  {
    hide Send;
    hide Conclude;
    hide InScope;
    hide ProgressKey;
    hide Completion;
    hide IsOpaque;
    hide Json.StringAt;
    var key, c := ProgressKey(v), Completion(v);
    if key.Some? {
      SendLeavesStop(m.(progressKeys := m.progressKeys + {key.value}, lastProgress := now), db, Progress, epoch);
    }
    if c.Some? {
      ConcludeLeavesStop(m, db, c.value.session, Some(c.value.turn), c.value.status, epoch);
    }
  }

  lemma QuietActLeavesStop(w: World, a: Act)
    requires !a.TickAct?
    ensures SameStop(w.mon, Next(w, a).mon)
  {
    hide Send;
    hide Step;
    hide ResponseReceived;
    hide Observe;
    match a {
      case ResponseAct(call, reply, now, epoch) => ResponseLeavesStop(w.mon, w.db, call, reply, now, epoch);
      case ObserveAct(message, now, epoch) => ObserveLeavesStop(w.mon, w.db, message, now, epoch);
      case ChildAct(identity, epoch) => SendLeavesStop(w.mon, w.db, ChildStarted(identity), epoch);
      case _ =>
    }
  }

  lemma DecideKeepsId(m: Mon, db: Db, now: int, epoch: int)
    ensures Decide(m, db, now, epoch).mon.id == m.id
  {
    hide Send;
    hide StopDue;
    var code := StopDue(m, now);
    if code.Some? && DeadlineOf(code.value).Some? {
      SendLeavesStop(m, db, DeadlineExceeded(DeadlineOf(code.value).value), epoch);
    }
  }

  lemma TickKeepsId(m: Mon, db: Db, now: int, epoch: int)
    ensures Tick(m, db, now, epoch).mon.id == m.id
  {
    hide Decide;
    hide Heartbeat;
    hide InterruptFor;
    var beat := Beat(m, db, now, epoch);
    DecideKeepsId(beat.mon, beat.db, now, epoch);
  }

  lemma NextKeepsId(w: World, a: Act)
    ensures Next(w, a).mon.id == w.mon.id
  {
    if a.TickAct? {
      hide Tick;
      TickKeepsId(w.mon, w.db, a.now, a.epoch);
    } else {
      hide Next;
      QuietActLeavesStop(w, a);
    }
  }

  lemma {:induction false} PlayKeepsDecision(w: World, acts: seq<Act>)
    requires WorldInv(w) && AllFair(w, acts)
    ensures WorldInv(Play(w, acts)) && Play(w, acts).mon.id == w.mon.id
  {
    hide WorldInv;
    hide Next;
    if acts != [] {
      var front := acts[..|acts| - 1];
      PlayKeepsDecision(w, front);
      assert Fair(w, acts[|acts| - 1]);
      NextKeepsDecision(Play(w, front), acts[|acts| - 1]);
      NextKeepsId(Play(w, front), acts[|acts| - 1]);
    }
  }

  lemma {:induction false} ForeignRun(db: Db, ops: seq<Op>, id: string)
    requires Inv(db) && id in db.runs && forall op | op in ops :: Foreign(op, id)
    ensures var after := Execute(db, ops);
            && Inv(after) && id in after.runs
            && after.runs[id].payload.deadlineExpired == db.runs[id].payload.deadlineExpired
            && (db.runs[id].payload.cancellationRequested ==> after.runs[id].payload.cancellationRequested)
  {
    hide Inv;
    hide Step;
    if ops != [] {
      var front := ops[..|ops| - 1];
      ForeignRun(db, front, id);
      ForeignKeepsDeadline(Execute(db, front), ops[|ops| - 1], id);
    }
  }

  // ---------------------------------------------------------------- stop code, stored deadline, recorded end

  /** A monitor installed on a run that never met a deadline starts undecided. */
  lemma InstallIsUndecided(db: Db, id: string, owner: ProcessIdentity, now: int)
    requires Inv(db) && id in db.runs && !Has(LogOf(db, id), IsDeadline)
    requires Install(db, id, owner, now).Ok?
    ensures WorldInv(World(Install(db, id, owner, now).value, db))
    ensures Install(db, id, owner, now).value.id == id
    ensures Behind(World(Install(db, id, owner, now).value, db))
    ensures Install(db, id, owner, now).value.pendingTerminal.None?
  {
    assert RunInv(db, id);
    DeadlineMeaning(db.prepared[id], LogOf(db, id));
    ColumnOf(db, id);
  }

  /**
   * However the monitor and all other processes interleave, its stop code is a timeout exactly when
   * a deadline is stored in the run's log, and then it is that very deadline; a cancel code means a
   * stored cancellation.
   */
  lemma StopCodeIsStored(w: World, acts: seq<Act>)
    requires WorldInv(w) && AllFair(w, acts)
    ensures var after := Play(w, acts);
            && after.mon.id in after.db.runs
            && var code, log := after.mon.stopCode, LogOf(after.db, after.mon.id);
            && (Has(log, IsDeadline) <==> code.Some? && !code.value.CancelCode?)
            && (Has(log, IsDeadline) ==> Some(Newest(log, IsDeadline).value.event.deadline) == DeadlineOf(code.value))
            && (code == Some(CancelCode) ==> Has(log, IsCancel))
  {
    PlayKeepsDecision(w, acts);
    var after := Play(w, acts);
    StopCodeInLog(after);
  }

  lemma StopCodeInLog(w: World)
    requires WorldInv(w)
    ensures var code, log := w.mon.stopCode, LogOf(w.db, w.mon.id);
            && (Has(log, IsDeadline) <==> code.Some? && !code.value.CancelCode?)
            && (Has(log, IsDeadline) ==> Some(Newest(log, IsDeadline).value.event.deadline) == DeadlineOf(code.value))
            && (code == Some(CancelCode) ==> Has(log, IsCancel))
  {
    hide Apply;
    var id := w.mon.id;
    assert RunInv(w.db, id);
    DeadlineMeaning(w.db.prepared[id], LogOf(w.db, id));
  }

  // ---------------------------------------------------------------- deadlines, grace and interrupts

  const STAGE_CALLS: set<string> :=
    {"initialize", "thread/start", "thread/resume", "session/new", "session/load", "authenticate",
     "turn/start", "session/prompt"}

  /** The session a reply names, if it is the reply to a call that opens one. */
  function SessionNamed(call: string, v: Json.Value): Option<string> {
    if call in {"thread/start", "thread/resume"} then Json.StringAt(v, ["thread", "id"])
    else if call == "session/new" then Json.StringAt(v, ["sessionId"])
    else None
  }

  /** The act restarts the clock of a stage: a request that opens one, or a reply that binds a session. */
  predicate RestartsStage(w: World, a: Act) {
    || (a.RequestAct? && a.call in STAGE_CALLS)
    || (a.ResponseAct? && SessionNamed(a.call, a.reply).Some?
        && ResponseReceived(w.mon, w.db, a.call, a.reply, a.now, a.epoch).answer.Ok?)
  }

  /** The act restarts the idle clock: a turn is asked for, a session is bound, or new work is reported. */
  predicate ShowsWork(w: World, a: Act) {
    || (a.RequestAct? && a.call in {"turn/start", "session/prompt"})
    || (a.ResponseAct? && RestartsStage(w, a))
    || (a.ObserveAct? && Json.StringAt(a.message, ["method"]) != Some("turn/completed") && IsNewWork(w.mon, a.message))
  }

  predicate IsNewWork(m: Mon, v: Json.Value) {
    InScope(m, v) && ProgressKey(v).Some? && |m.progressKeys| < 4096 && ProgressKey(v).value !in m.progressKeys
  }

  /** The monotonic instant of an act of the monitor's own process. */
  function InstantOf(a: Act): Option<int> {
    match a
    case TickAct(now, _) => Some(now)
    case RequestAct(_, now) => Some(now)
    case ResponseAct(_, _, now, _) => Some(now)
    case ObserveAct(_, now, _) => Some(now)
    case _ => None
  }

  lemma SendLeavesClocks(m: Mon, db: Db, e: RunEvent, epoch: int)
    ensures var later := Send(m, db, e, epoch).mon;
            later.stageAt == m.stageAt && later.lastProgress == m.lastProgress && later.progressKeys == m.progressKeys
  {
    hide Event;
  }

  lemma BindClocks(m: Mon, db: Db, session: string, now: int, epoch: int)
    ensures var t := BindSession(m, db, session, now, epoch);
            && t.mon.stageAt == (if t.answer.Ok? then now else m.stageAt)
            && t.mon.lastProgress == (if t.answer.Ok? then now else m.lastProgress)
  {
    hide Send;
    SendLeavesClocks(m, db, SessionBound(session), epoch);
  }

  lemma ConcludeClocks(m: Mon, db: Db, session: string, turn: Option<string>, status: ProviderState, epoch: int)
    ensures var later := Conclude(m, db, session, turn, status, epoch).mon;
            later.stageAt == m.stageAt && later.lastProgress == m.lastProgress
  {
    hide Send;
    SendLeavesClocks(m, db, ProviderTerminal(status), epoch);
  }

  lemma TurnClocks(m: Mon, db: Db, turn: string, epoch: int)
    ensures var later := TurnStarted(m, db, turn, epoch).mon;
            later.stageAt == m.stageAt && later.lastProgress == m.lastProgress
  {
    hide Send;
    hide Conclude;
    SendLeavesClocks(m, db, TurnBound(turn), epoch);
    var bound := if m.record.turnId == Some(turn) then Moved(m, db, Ok(())) else Send(m, db, TurnBound(turn), epoch);
    if bound.mon.pendingTerminal.Some? {
      var early := bound.mon.pendingTerminal.value;
      ConcludeClocks(
        bound.mon.(pendingTerminal := None), bound.db, early.session, Some(early.turn), early.status, epoch);
    }
  }

  lemma ResponseClocks(m: Mon, db: Db, call: string, v: Json.Value, now: int, epoch: int)
    ensures var t := ResponseReceived(m, db, call, v, now, epoch);
            var bound := SessionNamed(call, v).Some? && t.answer.Ok?;
            && t.mon.stageAt == (if bound then now else m.stageAt)
            && t.mon.lastProgress == (if bound then now else m.lastProgress)
  {
    hide BindSession;
    hide TurnStarted;
    hide Conclude;
    hide PromptStatus;
    hide Json.StringAt;
    if call in {"thread/start", "thread/resume"} {
      var s := Json.StringAt(v, ["thread", "id"]);
      if s.Some? { BindClocks(m, db, s.value, now, epoch); }
    } else if call == "session/new" {
      var s := Json.StringAt(v, ["sessionId"]);
      if s.Some? { BindClocks(m, db, s.value, now, epoch); }
    } else if call == "turn/start" {
      var t := Json.StringAt(v, ["turn", "id"]);
      if t.Some? { TurnClocks(m, db, t.value, epoch); }
    } else if call == "session/prompt" && PromptStatus(v).Some? && m.record.sessionId.Some? {
      ConcludeClocks(m, db, m.record.sessionId.value, None, PromptStatus(v).value, epoch);
    }
  }

  lemma ObserveClocks(m: Mon, db: Db, v: Json.Value, now: int, epoch: int)
    ensures var later := Observe(m, db, v, now, epoch).mon;
            var work := Json.StringAt(v, ["method"]) != Some("turn/completed") && IsNewWork(m, v);
            later.stageAt == m.stageAt && later.lastProgress == (if work then now else m.lastProgress)
  {
    hide Send;
    hide Conclude;
    hide InScope;
    hide ProgressKey;
    hide Completion;
    hide IsOpaque;
    hide Json.StringAt;
    var key, c := ProgressKey(v), Completion(v);
    if key.Some? {
      SendLeavesClocks(m.(progressKeys := m.progressKeys + {key.value}, lastProgress := now), db, Progress, epoch);
    }
    if c.Some? {
      ConcludeClocks(m, db, c.value.session, Some(c.value.turn), c.value.status, epoch);
    }
  }

  lemma TickClocks(m: Mon, db: Db, now: int, epoch: int)
    ensures var later := Tick(m, db, now, epoch).mon;
            && later.stageAt == m.stageAt && later.lastProgress == m.lastProgress
            && later.policy == m.policy && later.startAt == m.startAt && later.stage == m.stage
  {
    hide StopDue;
    hide Heartbeat;
    hide InterruptFor;
    hide Event;
  }

  /** One act moves a clock exactly when it restarts it, and then to its own instant. */
  lemma ActClocks(w: World, a: Act)
    ensures var m := Next(w, a).mon;
            && (RestartsStage(w, a) ==> InstantOf(a) == Some(m.stageAt))
            && (!RestartsStage(w, a) ==> m.stageAt == w.mon.stageAt)
            && (ShowsWork(w, a) ==> InstantOf(a) == Some(m.lastProgress))
            && (!ShowsWork(w, a) ==> m.lastProgress == w.mon.lastProgress)
            && m.policy == w.mon.policy && m.startAt == w.mon.startAt
  {
    hide Tick;
    hide Send;
    hide Step;
    hide ResponseReceived;
    hide Observe;
    hide IsNewWork;
    hide SessionNamed;
    hide Json.StringAt;
    match a {
      case TickAct(now, epoch) => TickClocks(w.mon, w.db, now, epoch);
      case ResponseAct(call, reply, now, epoch) => ResponseClocks(w.mon, w.db, call, reply, now, epoch);
      case ObserveAct(message, now, epoch) => ObserveClocks(w.mon, w.db, message, now, epoch);
      case ChildAct(identity, epoch) => SendLeavesClocks(w.mon, w.db, ChildStarted(identity), epoch);
      case _ =>
    }
    if !a.TickAct? {
      hide Next;
      QuietActLeavesStop(w, a);
    }
  }

  /** The instants never go back, and none is after the given one. */
  predicate InOrder(acts: seq<Act>, now: int) {
    acts == []
    || (var front, t := acts[..|acts| - 1], InstantOf(acts[|acts| - 1]);
        (t.Some? ==> t.value <= now) && InOrder(front, if t.Some? then t.value else now))
  }

  /** Act k restarted the stage clock, or the idle clock. */
  predicate StageRestartedAt(w: World, acts: seq<Act>, k: nat)
    requires k < |acts|
  {
    RestartsStage(Play(w, acts[..k]), acts[k])
  }

  predicate WorkShownAt(w: World, acts: seq<Act>, k: nat)
    requires k < |acts|
  {
    ShowsWork(Play(w, acts[..k]), acts[k])
  }

  /** The clocks stand no earlier than any act that restarted them. */
  lemma {:induction false} ClocksAreLatest(w: World, acts: seq<Act>, now: int, k: nat)
    requires InOrder(acts, now) && k < |acts|
    ensures var m := Play(w, acts).mon;
            && (StageRestartedAt(w, acts, k) ==> InstantOf(acts[k]).Some? && InstantOf(acts[k]).value <= m.stageAt)
            && (WorkShownAt(w, acts, k) ==> InstantOf(acts[k]).Some? && InstantOf(acts[k]).value <= m.lastProgress)
    decreases |acts|
  {
    hide Next;
    hide RestartsStage;
    hide ShowsWork;
    var front, a := acts[..|acts| - 1], acts[|acts| - 1];
    var before := Play(w, front);
    ActClocks(before, a);
    assert acts[..|front|] == front;
    if k < |front| {
      assert front[..k] == acts[..k];
      var t := InstantOf(a);
      ClocksAreLatest(w, front, if t.Some? then t.value else now, k);
      if t.Some? {
        InstantsAreEarlier(front, t.value, k);
      }
    }
  }

  lemma {:induction false} InstantsAreEarlier(acts: seq<Act>, now: int, k: nat)
    requires InOrder(acts, now) && k < |acts|
    ensures InstantOf(acts[k]).Some? ==> InstantOf(acts[k]).value <= now
  {
    var front, t := acts[..|acts| - 1], InstantOf(acts[|acts| - 1]);
    if k < |front| {
      InstantsAreEarlier(front, if t.Some? then t.value else now, k);
    }
  }

  lemma {:induction false} PolicyIsFixed(w: World, acts: seq<Act>)
    ensures Play(w, acts).mon.policy == w.mon.policy && Play(w, acts).mon.startAt == w.mon.startAt
  {
    hide Next;
    hide RestartsStage;
    hide ShowsWork;
    if acts != [] {
      PolicyIsFixed(w, acts[..|acts| - 1]);
      ActClocks(Play(w, acts[..|acts| - 1]), acts[|acts| - 1]);
    }
  }

  lemma DecidedCode(m: Mon, db: Db, now: int, epoch: int, code: StopCode)
    requires m.cancelAt.None? && m.stopCode.None?
    requires Tick(m, db, now, epoch).mon.stopCode == Some(code)
    ensures !code.CancelCode? ==>
              var beat := Beat(m, db, now, epoch).mon;
              && StopDue(beat, now) == Some(code)
              && beat == m.(record := beat.record, lastHeartbeat := beat.lastHeartbeat)
  {
    hide StopDue;
    hide Event;
    hide Heartbeat;
    hide InterruptFor;
  }

  /** No instant of the acts lies before the given one. */
  ghost predicate NotBefore(acts: seq<Act>, instant: int) {
    forall a | a in acts && InstantOf(a).Some? :: instant <= InstantOf(a).value
  }

  /** The clocks a monitor was installed with never go back. */
  lemma {:induction false} ClocksAdvance(w: World, acts: seq<Act>)
    ensures NotBefore(acts, w.mon.stageAt) ==> w.mon.stageAt <= Play(w, acts).mon.stageAt
    ensures NotBefore(acts, w.mon.lastProgress) ==> w.mon.lastProgress <= Play(w, acts).mon.lastProgress
  {
    hide Next;
    hide RestartsStage;
    hide ShowsWork;
    if acts != [] {
      var front, a := acts[..|acts| - 1], acts[|acts| - 1];
      assert a in acts;
      ClocksAdvance(w, front);
      ActClocks(Play(w, front), a);
    }
  }

  /** The stage clock was set, at installation or by an act, only that long ago. */
  ghost predicate NoStageWithin(w: World, acts: seq<Act>, now: int, seconds: nat) {
    && (NotBefore(acts, w.mon.stageAt) ==> Elapsed(now, w.mon.stageAt, seconds))
    && forall k: nat | k < |acts| && StageRestartedAt(w, acts, k) ::
         InstantOf(acts[k]).Some? && Elapsed(now, InstantOf(acts[k]).value, seconds)
  }

  /** The idle clock was set, at installation or by an act, only that long ago. */
  ghost predicate NoWorkWithin(w: World, acts: seq<Act>, now: int, seconds: nat) {
    && (NotBefore(acts, w.mon.lastProgress) ==> Elapsed(now, w.mon.lastProgress, seconds))
    && forall k: nat | k < |acts| && WorkShownAt(w, acts, k) ::
         InstantOf(acts[k]).Some? && Elapsed(now, InstantOf(acts[k]).value, seconds)
  }

  /**
   * Timeouts are earned: when a tick decides one, neither the monitor's installation nor any act in
   * its whole history set the clock in question within the time the policy allows, whatever other
   * processes did.
   */
  lemma TimeoutIsEarned(w: World, acts: seq<Act>, now: int, epoch: int, code: StopCode)
    requires InOrder(acts, now)
    requires var before := Play(w, acts); before.mon.cancelAt.None? && before.mon.stopCode.None?
    requires Play(w, acts + [TickAct(now, epoch)]).mon.stopCode == Some(code)
    ensures var stage, policy := Play(w, acts).mon.stage, w.mon.policy;
            && (code.AbsoluteTimeout? ==> Elapsed(now, w.mon.startAt, policy.absoluteSeconds))
            && (code.HandshakeTimeout? ==>
                  stage.HandshakeStage? && NoStageWithin(w, acts, now, policy.handshakeSeconds))
            && (code.SessionTimeout? ==> stage.SessionStage? && NoStageWithin(w, acts, now, policy.sessionSeconds))
            && (code.IdleTimeout? ==> stage.TurnStage? && NoWorkWithin(w, acts, now, policy.idleSeconds))
  {
    hide Tick;
    hide Beat;
    hide StageRestartedAt;
    hide WorkShownAt;
    hide NotBefore;
    var all, before := acts + [TickAct(now, epoch)], Play(w, acts);
    assert all[..|all| - 1] == acts;
    PolicyIsFixed(w, acts);
    ClocksAdvance(w, acts);
    DecidedCode(before.mon, before.db, now, epoch, code);
    forall k: nat | k < |acts|
      ensures var t := InstantOf(acts[k]);
              && (StageRestartedAt(w, acts, k) ==> t.Some? && t.value <= before.mon.stageAt)
              && (WorkShownAt(w, acts, k) ==> t.Some? && t.value <= before.mon.lastProgress)
    {
      ClocksAreLatest(w, acts, now, k);
    }
  }

  lemma NextLeavesStop(w: World, a: Act)
    requires w.mon.cancelAt.Some?
    ensures var m := Next(w, a).mon;
            && m.cancelAt == w.mon.cancelAt && m.stopCode == w.mon.stopCode
            && (w.mon.cancelSent ==> m.cancelSent)
  {
    if a.TickAct? {
      hide Event;
      hide Heartbeat;
    } else {
      hide Next;
      QuietActLeavesStop(w, a);
    }
  }

  /** Once decided, a stop and its time are never revised, and a request to the provider is not forgotten. */
  lemma {:induction false} StopIsFinal(w: World, acts: seq<Act>)
    requires w.mon.cancelAt.Some?
    ensures var m := Play(w, acts).mon;
            && m.cancelAt == w.mon.cancelAt && m.stopCode == w.mon.stopCode
            && (w.mon.cancelSent ==> m.cancelSent)
  {
    hide Next;
    if acts != [] {
      StopIsFinal(w, acts[..|acts| - 1]);
      NextLeavesStop(Play(w, acts[..|acts| - 1]), acts[|acts| - 1]);
    }
  }

  /** The interrupts a sequence of acts hands to the transport. */
  function Interrupts(w: World, acts: seq<Act>): nat {
    if acts == [] then 0
    else
      var before, a := Play(w, acts[..|acts| - 1]), acts[|acts| - 1];
      Interrupts(w, acts[..|acts| - 1])
      + if a.TickAct? && IsInterrupt(Tick(before.mon, before.db, a.now, a.epoch).answer) then 1 else 0
  }

  predicate IsInterrupt(answer: Result<Option<Interrupt>, MonitorFault>) {
    answer.Ok? && answer.value.Some?
  }

  /** A run is asked to stop at most once, over any sequence of acts. */
  lemma {:induction false} OneInterrupt(w: World, acts: seq<Act>)
    requires w.mon.cancelSent ==> w.mon.cancelAt.Some?
    ensures Interrupts(w, acts) <= if w.mon.cancelSent then 0 else 1
    ensures Play(w, acts).mon.cancelSent ==> Play(w, acts).mon.cancelAt.Some?
    ensures Interrupts(w, acts) > 0 || w.mon.cancelSent ==> Play(w, acts).mon.cancelSent
  {
    hide Next;
    hide Tick;
    if acts != [] {
      OneInterrupt(w, acts[..|acts| - 1]);
      SentMeaning(Play(w, acts[..|acts| - 1]), acts[|acts| - 1]);
    }
  }

  lemma SentMeaning(w: World, a: Act)
    requires w.mon.cancelSent ==> w.mon.cancelAt.Some?
    ensures Next(w, a).mon.cancelSent ==> Next(w, a).mon.cancelAt.Some?
    ensures w.mon.cancelSent ==> Next(w, a).mon.cancelSent
    ensures a.TickAct? && IsInterrupt(Tick(w.mon, w.db, a.now, a.epoch).answer) ==>
              !w.mon.cancelSent && Next(w, a).mon.cancelSent
  {
    if a.TickAct? {
      hide Event;
      hide Heartbeat;
      hide StopDue;
    } else {
      hide Next;
      QuietActLeavesStop(w, a);
    }
  }

  /** A tick that decides a stop starts the grace period at its own instant. */
  lemma DecisionStartsGrace(m: Mon, db: Db, now: int, epoch: int)
    requires m.cancelAt.None? && m.stopCode.None?
    ensures var later := Tick(m, db, now, epoch).mon; later.stopCode.Some? ==> later.cancelAt == Some(now)
  {
    hide StopDue;
    hide Event;
    hide Heartbeat;
    hide InterruptFor;
  }

  lemma LaterTick(m: Mon, db: Db, now: int, epoch: int)
    requires m.cancelAt.Some? && m.stopCode.Some?
    requires Beat(m, db, now, epoch).answer.Ok?
    ensures Tick(m, db, now, epoch).answer == Err(Stopped(m.stopCode.value)) <==>
            Elapsed(now, m.cancelAt.value, m.policy.cancellationGraceSeconds)
    ensures Elapsed(now, m.cancelAt.value, m.policy.cancellationGraceSeconds) || Tick(m, db, now, epoch).answer.Ok?
  {
    hide Heartbeat;
  }

  /**
   * Grace is bounded: once a tick has decided a stop, and whatever the monitor and all other processes
   * do afterwards, a later tick that reaches the store gives up, with the code then decided, exactly
   * when the policy's grace period since the deciding instant is over; until then it never fails.
   */
  lemma GraceIsBounded(
      w: World, before: seq<Act>, at: int, atEpoch: int, since: seq<Act>, now: int, epoch: int, code: StopCode)
    requires Play(w, before).mon.cancelAt.None? && Play(w, before).mon.stopCode.None?
    requires Play(w, before + [TickAct(at, atEpoch)]).mon.stopCode == Some(code)
    requires var m := Play(Play(w, before + [TickAct(at, atEpoch)]), since); Beat(m.mon, m.db, now, epoch).answer.Ok?
    ensures var m := Play(Play(w, before + [TickAct(at, atEpoch)]), since);
            var answer := Tick(m.mon, m.db, now, epoch).answer;
            var over := now - at >= w.mon.policy.cancellationGraceSeconds * 1000;
            (answer == Err(Stopped(code)) <==> over) && (answer.Ok? <==> !over)
  {
    hide Tick;
    hide Beat;
    var all, early := before + [TickAct(at, atEpoch)], Play(w, before);
    assert all[..|all| - 1] == before;
    DecisionStartsGrace(early.mon, early.db, at, atEpoch);
    var decided := Play(w, all);
    StopIsFinal(decided, since);
    PolicyIsFixed(w, all);
    PolicyIsFixed(decided, since);
    var m := Play(decided, since);
    LaterTick(m.mon, m.db, now, epoch);
  }

  // ---------------------------------------------------------------- completions that arrive early

  /** A terminal status is stored only for the exact session and turn the run is bound to. */
  lemma CompletionIsBound(m: Mon, db: Db, v: Json.Value, now: int, epoch: int)
    requires Json.StringAt(v, ["method"]) == Some("turn/completed")
    requires Observe(m, db, v, now, epoch).db != db
    ensures Json.StringAt(v, ["params", "threadId"]) == m.record.sessionId
    ensures Json.StringAt(v, ["params", "turn", "id"]) == m.record.turnId
    ensures m.record.sessionId.Some? && m.record.turnId.Some?
  {
    hide Event;
  }

  /** A completion that names a session and a turn in the form ids have. */
  function CompletionOf(a: Act): Option<EarlyTerminal> {
    if !a.ObserveAct? then None
    else
      match Completion(a.message)
      case Some(c) => if IsOpaque(c.session) && IsOpaque(c.turn) then Some(c) else None
      case None => None
  }

  /** The last completion among the acts. */
  function LastCompletion(acts: seq<Act>): Option<EarlyTerminal> {
    if acts == [] then None
    else
      var c := CompletionOf(acts[|acts| - 1]);
      if c.Some? then c else LastCompletion(acts[..|acts| - 1])
  }

  /** The record in memory names no turn but the stored one. */
  ghost predicate Behind(w: World) {
    && Inv(w.db) && w.mon.id in w.db.runs
    && (w.mon.record.turnId.Some? ==> w.mon.record.turnId == w.db.runs[w.mon.id].payload.turnId)
  }

  /** A move that keeps a stored turn and, for as long as there is none, what arrived early. */
  ghost predicate IsCalm(w: World, later: World, early: Option<EarlyTerminal>)
    requires Behind(w)
  {
    && Behind(later) && later.mon.id == w.mon.id
    && Keeps(w.db.runs[w.mon.id].payload.turnId, later.db.runs[w.mon.id].payload.turnId)
    && (later.db.runs[w.mon.id].payload.turnId.None? ==> later.mon.pendingTerminal == early)
  }

  lemma SendIsCalm(w: World, e: RunEvent, epoch: int)
    requires Behind(w) && !e.Claimed? && !e.CancelRequested?
    ensures var t := Send(w.mon, w.db, e, epoch);
            && IsCalm(w, World(t.mon, t.db), w.mon.pendingTerminal)
            && t.mon == w.mon.(record := t.mon.record)
            && (t.answer.Ok? ==> t.mon.record == t.db.runs[w.mon.id].payload)
  {
    hide Event;
    hide Inv;
    hide Step;
    EventMeaning(w.db, w.mon.id, e, epoch);
    StepGrows(w.db, EventOp(w.mon.id, e, epoch), w.mon.id);
  }

  lemma BeatIsCalm(w: World, now: int, epoch: int)
    requires Behind(w)
    ensures var t := Beat(w.mon, w.db, now, epoch); IsCalm(w, World(t.mon, t.db), w.mon.pendingTerminal)
  {
    hide RunOk;
    HeartbeatKeepsInv(w.db, w.mon.id, w.mon.owner, epoch);
    assert RunInv(w.db, w.mon.id);
  }

  lemma TickIsCalm(w: World, now: int, epoch: int)
    requires Behind(w)
    ensures var t := Tick(w.mon, w.db, now, epoch); IsCalm(w, World(t.mon, t.db), w.mon.pendingTerminal)
  {
    hide Beat;
    hide Send;
    hide Inv;
    hide StopDue;
    hide InterruptFor;
    BeatIsCalm(w, now, epoch);
    var beat := Beat(w.mon, w.db, now, epoch);
    var code := StopDue(beat.mon, now);
    if code.Some? && DeadlineOf(code.value).Some? {
      SendIsCalm(World(beat.mon, beat.db), DeadlineExceeded(DeadlineOf(code.value).value), epoch);
    }
  }

  lemma ConcludeIsCalm(w: World, session: string, turn: Option<string>, status: ProviderState, epoch: int)
    requires Behind(w)
    ensures var t := Conclude(w.mon, w.db, session, turn, status, epoch);
            IsCalm(w, World(t.mon, t.db), w.mon.pendingTerminal)
  {
    hide Send;
    hide Inv;
    SendIsCalm(w, ProviderTerminal(status), epoch);
  }

  lemma TurnIsCalm(w: World, turn: string, epoch: int)
    requires Behind(w)
    ensures var t := TurnStarted(w.mon, w.db, turn, epoch);
            && IsCalm(w, World(t.mon, t.db), w.mon.pendingTerminal)
  {
    hide Event;
    hide Inv;
    hide Conclude;
    hide Apply;
    SendIsCalm(w, TurnBound(turn), epoch);
    EventMeaning(w.db, w.mon.id, TurnBound(turn), epoch);
    TurnBoundMeans(w.db.runs[w.mon.id].payload, turn, epoch);
    var bound :=
      if w.mon.record.turnId == Some(turn) then Moved(w.mon, w.db, Ok(()))
      else Send(w.mon, w.db, TurnBound(turn), epoch);
    if bound.answer.Ok? && bound.mon.pendingTerminal.Some? {
      var early := bound.mon.pendingTerminal.value;
      ConcludeIsCalm(
        World(bound.mon.(pendingTerminal := None), bound.db), early.session, Some(early.turn), early.status, epoch);
    }
  }

  lemma BindIsCalm(w: World, session: string, now: int, epoch: int)
    requires Behind(w)
    ensures var t := BindSession(w.mon, w.db, session, now, epoch);
            IsCalm(w, World(t.mon, t.db), w.mon.pendingTerminal)
  {
    hide Send;
    hide Inv;
    SendIsCalm(w, SessionBound(session), epoch);
  }

  lemma ResponseIsCalm(w: World, call: string, v: Json.Value, now: int, epoch: int)
    requires Behind(w)
    ensures var t := ResponseReceived(w.mon, w.db, call, v, now, epoch);
            IsCalm(w, World(t.mon, t.db), w.mon.pendingTerminal)
  {
    hide Inv;
    hide BindSession;
    hide TurnStarted;
    hide Conclude;
    hide Json.StringAt;
    var session, created := Json.StringAt(v, ["thread", "id"]), Json.StringAt(v, ["sessionId"]);
    var turn := Json.StringAt(v, ["turn", "id"]);
    if session.Some? {
      BindIsCalm(w, session.value, now, epoch);
    }
    if created.Some? {
      BindIsCalm(w, created.value, now, epoch);
    }
    if turn.Some? {
      TurnIsCalm(w, turn.value, epoch);
    }
    if w.mon.record.sessionId.Some? && PromptStatus(v).Some? {
      ConcludeIsCalm(w, w.mon.record.sessionId.value, None, PromptStatus(v).value, epoch);
    }
  }

  lemma ProgressIsCalm(w: World, v: Json.Value, now: int, epoch: int)
    requires Behind(w)
    ensures var t := ObserveProgress(w.mon, w.db, v, now, epoch);
            IsCalm(w, World(t.mon, t.db), w.mon.pendingTerminal)
  {
    hide Send;
    hide Inv;
    hide InScope;
    hide ProgressKey;
    if ProgressKey(v).Some? {
      var seen := w.mon.(progressKeys := w.mon.progressKeys + {ProgressKey(v).value}, lastProgress := now);
      SendIsCalm(World(seen, w.db), Progress, epoch);
    }
  }

  lemma ObserveIsCalm(w: World, v: Json.Value, now: int, epoch: int)
    requires Behind(w)
    ensures var t := Observe(w.mon, w.db, v, now, epoch);
            var c := CompletionOf(ObserveAct(v, now, epoch));
            && IsCalm(w, World(t.mon, t.db), if c.Some? then c else w.mon.pendingTerminal)
            && (c.Some? && w.db.runs[w.mon.id].payload.turnId.None? ==> t.db == w.db)
  {
    hide Inv;
    hide Conclude;
    hide ObserveProgress;
    hide Completion;
    hide IsOpaque;
    ProgressIsCalm(w, v, now, epoch);
    if Completion(v).Some? {
      var c := Completion(v).value;
      CompletionMethod(v);
      ConcludeIsCalm(w, c.session, Some(c.turn), c.status, epoch);
    }
  }

  lemma NextIsCalm(w: World, a: Act)
    requires Behind(w) && Fair(w, a)
    ensures var c := CompletionOf(a);
            && IsCalm(w, Next(w, a), if c.Some? then c else w.mon.pendingTerminal)
            && (c.Some? && w.db.runs[w.mon.id].payload.turnId.None? ==> Next(w, a).db == w.db)
  {
    hide Inv;
    hide Tick;
    hide Observe;
    hide ResponseReceived;
    hide Send;
    hide Step;
    match a {
      case Other(op) =>
        StepKeepsInv(w.db, op);
        StepGrows(w.db, op, w.mon.id);
      case TickAct(now, epoch) => TickIsCalm(w, now, epoch);
      case RequestAct(call, now) =>
      case ResponseAct(call, reply, now, epoch) => ResponseIsCalm(w, call, reply, now, epoch);
      case ObserveAct(message, now, epoch) => ObserveIsCalm(w, message, now, epoch);
      case ChildAct(identity, epoch) => SendIsCalm(w, ChildStarted(identity), epoch);
    }
  }

  /** Act k is no completion, or left the tables as they were. */
  predicate LeavesTablesAt(w: World, acts: seq<Act>, k: nat)
    requires k < |acts|
  {
    CompletionOf(acts[k]).Some? ==> Play(w, acts[..k + 1]).db == Play(w, acts[..k]).db
  }

  ghost predicate CompletionsLeaveTables(w: World, acts: seq<Act>) {
    forall k: nat | k < |acts| :: LeavesTablesAt(w, acts, k)
  }

  lemma LeavesTablesLonger(w: World, acts: seq<Act>, k: nat)
    requires k < |acts| - 1
    ensures LeavesTablesAt(w, acts, k) <==> LeavesTablesAt(w, acts[..|acts| - 1], k)
  {
    hide CompletionOf;
    hide Play;
    var front := acts[..|acts| - 1];
    assert front[..k] == acts[..k] && front[..k + 1] == acts[..k + 1] && front[k] == acts[k];
  }

  lemma TablesLeftByNext(w: World, acts: seq<Act>)
    requires acts != [] && CompletionsLeaveTables(w, acts[..|acts| - 1])
    requires CompletionOf(acts[|acts| - 1]).Some? ==> Play(w, acts).db == Play(w, acts[..|acts| - 1]).db
    ensures CompletionsLeaveTables(w, acts)
  {
    hide CompletionOf;
    hide Play;
    assert acts[..|acts|] == acts;
    assert LeavesTablesAt(w, acts, |acts| - 1);
    hide LeavesTablesAt;
    forall k: nat | k < |acts| - 1 ensures LeavesTablesAt(w, acts, k) {
      LeavesTablesLonger(w, acts, k);
    }
  }

  /**
   * For as long as no turn is stored completions leave no trace in the tables, and only the last one is
   * kept, whatever else the monitor and all other processes do.
   */
  lemma {:induction false} OnlyTheLastIsKept(w: World, acts: seq<Act>)
    requires Behind(w) && w.mon.pendingTerminal.None? && AllFair(w, acts)
    ensures Behind(Play(w, acts)) && Play(w, acts).mon.id == w.mon.id
    ensures Play(w, acts).db.runs[w.mon.id].payload.turnId.None? ==>
              && Play(w, acts).mon.pendingTerminal == LastCompletion(acts)
              && CompletionsLeaveTables(w, acts)
  {
    hide Inv;
    hide CompletionOf;
    hide Next;
    hide CompletionsLeaveTables;
    if acts == [] {
      NoActs(w);
    } else {
      var front, a := acts[..|acts| - 1], acts[|acts| - 1];
      OnlyTheLastIsKept(w, front);
      assert Fair(w, a);
      NextIsCalm(Play(w, front), a);
      if Play(w, acts).db.runs[w.mon.id].payload.turnId.None? {
        assert Play(w, front).db.runs[w.mon.id].payload.turnId.None?;
        assert Play(w, acts).mon.pendingTerminal == LastCompletion(acts);
        TablesLeftByNext(w, acts);
      }
    }
  }

  lemma NoActs(w: World)
    ensures CompletionsLeaveTables(w, []) && LastCompletion([]) == None
  {
  }

  lemma CompletionMethod(v: Json.Value)
    requires Completion(v).Some?
    ensures Json.StringAt(v, ["method"]) == Some("turn/completed")
    ensures IsTerminal(Completion(v).value.status)
  {
    hide Json.StringAt;
  }

  /**
   * When the reply that names the turn comes, after any acts of the monitor and of other processes that
   * stored no turn, the monitor's record is the stored row and its provider is settled exactly when the
   * last completion was for this turn and the session then stored; an earlier one for it is lost.
   */
  lemma EarlyCompletionSettles(w: World, acts: seq<Act>, reply: Json.Value, turn: string, now: int, epoch: int)
    requires Behind(w) && w.mon.pendingTerminal.None? && AllFair(w, acts)
    requires w.mon.id in Play(w, acts).db.runs && Play(w, acts).db.runs[w.mon.id].payload.turnId.None?
    requires Json.StringAt(reply, ["turn", "id"]) == Some(turn)
    requires ResponseReceived(Play(w, acts).mon, Play(w, acts).db, "turn/start", reply, now, epoch).answer.Ok?
    ensures var stored := Play(w, acts).db.runs[w.mon.id].payload;
            var t := ResponseReceived(Play(w, acts).mon, Play(w, acts).db, "turn/start", reply, now, epoch);
            var last := LastCompletion(acts);
            var settled := last.Some? && last.value.turn == turn && Some(last.value.session) == stored.sessionId;
            && w.mon.id in t.db.runs && t.db.runs[w.mon.id].payload == t.mon.record
            && t.mon.record.turnId == Some(turn)
            && t.mon.record.provider ==
                 if settled then last.value.status
                 else if IsTerminal(stored.provider) then stored.provider
                 else ProviderState.Running
  {
    hide Play;
    hide Inv;
    hide Event;
    hide Step;
    hide LastCompletion;
    hide Json.StringAt;
    OnlyTheLastIsKept(w, acts);
    var db, id := Play(w, acts).db, w.mon.id;
    EventMeaning(db, id, TurnBound(turn), epoch);
    if Event(db, id, TurnBound(turn), epoch).Ok? {
      var mid := Event(db, id, TurnBound(turn), epoch).value.db;
      TurnBoundMeans(db.runs[id].payload, turn, epoch);
      if LastCompletion(acts).Some? {
        var e := ProviderTerminal(LastCompletion(acts).value.status);
        EventMeaning(mid, id, e, epoch);
        SettleMeans(mid.runs[id].payload, e, epoch);
      }
    }
  }

  lemma TurnBoundMeans(r: RunRecord, turn: string, at: int)
    ensures Apply(r, TurnBound(turn), at).Ok? ==>
              var next := Apply(r, TurnBound(turn), at).value;
              && next.turnId == Some(turn) && next.sessionId == r.sessionId
              && next.provider == (if IsTerminal(r.provider) then r.provider else ProviderState.Running)
  {
  }

  lemma SettleMeans(r: RunRecord, e: RunEvent, at: int)
    requires e.ProviderTerminal?
    ensures Apply(r, e, at).Ok? ==>
              var next := Apply(r, e, at).value; next.provider == e.status && next.turnId == r.turnId
  {
  }
}
