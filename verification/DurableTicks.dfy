/**
 * What one call on the monitor does, told from its fields and the stored row alone: when a tick has to
 * stop the run and with which code, what it asks of the provider, and what messages and replies change.
 */
module DurableTicks {
  import opened Prelude
  import opened Control
  import opened Durable
  import opened DurableLog
  import opened DurableStore
  import opened DurableHistory
  import opened DurableGuards
  import opened DurableRuntime
  import opened DurableSupervision
  import Json

  // ---------------------------------------------------------------- the tick

  /** The record a tick judges: the stored row once the last beat is 250 milliseconds old. */
  function Seen(m: Mon, db: Db, now: int, epoch: int): RunRecord
    requires m.id in db.runs
  {
    if now - m.lastHeartbeat >= 250 then db.runs[m.id].payload.(lastHeartbeatAt := Some(epoch)) else m.record
  }

  /** Every 250 milliseconds the holder of the claim, and nobody else, stamps its row and reads it. */
  lemma BeatIsExact(m: Mon, db: Db, now: int, epoch: int)
    requires Inv(db) && m.id in db.runs
    ensures var t, r := Beat(m, db, now, epoch), db.runs[m.id].payload;
            && (now - m.lastHeartbeat < 250 ==> t == Moved(m, db, Ok(())))
            && (now - m.lastHeartbeat >= 250 ==>
                  && (t.answer.Ok? <==> r.supervisor == Some(m.owner) && !r.ownerReleased && r.updatedAt <= epoch)
                  && (t.answer.Err? ==> t.mon == m && t.db == db && t.answer.error.FromStore?)
                  && (t.answer.Ok? ==>
                        && t.mon == m.(record := Seen(m, db, now, epoch), lastHeartbeat := now)
                        && t.db == db.(runs := db.runs[m.id := db.runs[m.id].(payload := Seen(m, db, now, epoch))])))
  {
    hide Inv;
    hide Heartbeat;
    HeartbeatIsExact(db, m.id, m.owner, epoch);
  }

  predicate IsOver(now: int, since: int, seconds: nat) {
    now >= since + 1000 * seconds
  }

  /** The clock of the stage the monitor is in has run out; a finished turn has no clock. */
  predicate StageIsOver(m: Mon, r: RunRecord, now: int) {
    match m.stage
    case HandshakeStage => IsOver(now, m.stageAt, m.policy.handshakeSeconds)
    case SessionStage => IsOver(now, m.stageAt, m.policy.sessionSeconds)
    case TurnStage => !IsFinal(r.provider) && IsOver(now, m.lastProgress, m.policy.idleSeconds)
  }

  /** The deadline that has passed, the absolute one before that of the stage. */
  function Missed(m: Mon, now: int): DeadlineKind {
    if IsOver(now, m.startAt, m.policy.absoluteSeconds) then Absolute
    else
      match m.stage
      case HandshakeStage => Handshake
      case SessionStage => Session
      case TurnStage => Idle
  }

  predicate Names(code: StopCode, deadline: DeadlineKind) {
    match deadline
    case Absolute => code.AbsoluteTimeout?
    case Handshake => code.HandshakeTimeout?
    case Session => code.SessionTimeout?
    case Idle => code.IdleTimeout?
  }

  /** The store did what the tick asked of it. */
  predicate IsServed<T>(answer: Result<T, MonitorFault>) {
    answer.Ok? || answer.error.Stopped?
  }

  /**
   * A tick stops an undecided run exactly when it has to: when the record it judges is cancelled, the
   * whole time is over, or the time of its stage is. A cancellation it sees comes first and writes no
   * deadline; one that only the store has seen beats the deadline; otherwise the deadline is stored.
   */
  lemma TickDecides(m: Mon, db: Db, now: int, epoch: int)
    requires Inv(db) && m.id in db.runs && m.cancelAt.None? && m.stopCode.None?
    requires IsServed(Tick(m, db, now, epoch).answer)
    ensures var t, r := Tick(m, db, now, epoch), Seen(m, db, now, epoch);
            var stored := db.runs[m.id].payload;
            var late := IsOver(now, m.startAt, m.policy.absoluteSeconds) || StageIsOver(m, r, now);
            && m.id in t.db.runs
            && (t.mon.stopCode.Some? <==> r.cancellationRequested || late)
            && t.mon.cancelAt == (if t.mon.stopCode.Some? then Some(now) else None)
            && (r.cancellationRequested ==> t.mon.stopCode == Some(CancelCode))
            && (late && !r.cancellationRequested ==>
                  if stored.cancellationRequested && stored.deadlineExpired.None? then
                    t.mon.stopCode == Some(CancelCode)
                  else Names(t.mon.stopCode.value, Missed(m, now)))
            && LogOf(t.db, m.id) == LogOf(db, m.id)
                 + (if late && !r.cancellationRequested && !stored.cancellationRequested then
                      [Stored(|LogOf(db, m.id)| + 1, epoch, DeadlineExceeded(Missed(m, now)))]
                    else [])
  {
    hide Inv;
    hide Beat;
    hide Decide;
    hide IsOver;
    hide StageIsOver;
    hide Missed;
    hide Names;
    hide LogOf;
    BeatIsExact(m, db, now, epoch);
    BeatKeepsTables(m, db, now, epoch);
    var beat := Beat(m, db, now, epoch);
    FaultsAreTheStores(m, db, now, epoch);
    FaultsAreTheStores(beat.mon, beat.db, now, epoch);
    if beat.answer.Ok? {
      SameStage(m, beat.mon, now);
      DecisionIsDue(beat.mon, beat.db, now, epoch);
      DeliverKeeps(Decide(beat.mon, beat.db, now, epoch).mon, Decide(beat.mon, beat.db, now, epoch).db, now);
    }
  }

  /** Beats and decisions fail with the store only, and leave what has been asked and allowed alone. */
  lemma FaultsAreTheStores(m: Mon, db: Db, now: int, epoch: int)
    ensures var beat, decided := Beat(m, db, now, epoch), Decide(m, db, now, epoch);
            && (beat.answer.Err? ==> beat.answer.error.FromStore?)
            && (decided.answer.Err? ==> decided.answer.error.FromStore?)
            && beat.mon.cancelSent == decided.mon.cancelSent == m.cancelSent
            && beat.mon.policy == decided.mon.policy == m.policy
  {
    hide Heartbeat;
    hide Event;
    hide StopDue;
  }

  lemma SameStage(m: Mon, beat: Mon, now: int)
    requires beat == m.(record := beat.record, lastHeartbeat := beat.lastHeartbeat)
    ensures StageIsOver(beat, beat.record, now) == StageIsOver(m, beat.record, now)
    ensures Missed(beat, now) == Missed(m, now)
  {
  }

  lemma DeliverKeeps(m: Mon, db: Db, now: int)
    ensures var t := Deliver(m, db, now);
            t.db == db && t.mon.stopCode == m.stopCode && t.mon.cancelAt == m.cancelAt
  {
    hide InterruptFor;
  }

  /** The decision on the record the monitor has just read. */
  lemma DecisionIsDue(m: Mon, db: Db, now: int, epoch: int)
    requires Inv(db) && m.id in db.runs && m.cancelAt.None? && m.stopCode.None?
    requires Decide(m, db, now, epoch).answer.Ok?
    ensures var t, r, stored := Decide(m, db, now, epoch), m.record, db.runs[m.id].payload;
            var late := IsOver(now, m.startAt, m.policy.absoluteSeconds) || StageIsOver(m, r, now);
            && m.id in t.db.runs
            && (t.mon.stopCode.Some? <==> r.cancellationRequested || late)
            && t.mon.cancelAt == (if t.mon.stopCode.Some? then Some(now) else None)
            && (r.cancellationRequested ==> t.mon.stopCode == Some(CancelCode))
            && (late && !r.cancellationRequested ==>
                  if stored.cancellationRequested && stored.deadlineExpired.None? then
                    t.mon.stopCode == Some(CancelCode)
                  else Names(t.mon.stopCode.value, Missed(m, now)))
            && LogOf(t.db, m.id) == LogOf(db, m.id)
                 + (if late && !r.cancellationRequested && !stored.cancellationRequested then
                      [Stored(|LogOf(db, m.id)| + 1, epoch, DeadlineExceeded(Missed(m, now)))]
                    else [])
  {
    hide Inv;
    hide Event;
    hide StopDue;
    hide IsOver;
    hide StageIsOver;
    hide Missed;
    hide Names;
    hide LogOf;
    DueMeaning(m, now);
    DeadlineIsStored(db, m.id, Missed(m, now), epoch);
  }

  lemma BeatKeepsTables(m: Mon, db: Db, now: int, epoch: int)
    requires Inv(db) && m.id in db.runs
    ensures var after := Beat(m, db, now, epoch).db;
            && Inv(after) && m.id in after.runs && LogOf(after, m.id) == LogOf(db, m.id)
            && after.runs[m.id].payload == db.runs[m.id].payload.(
                 lastHeartbeatAt := after.runs[m.id].payload.lastHeartbeatAt)
  {
    hide RunInv;
    hide ClaimsMatch;
    HeartbeatKeepsInv(db, m.id, m.owner, epoch);
    RowFacts(db, m.id);
  }

  lemma DueMeaning(m: Mon, now: int)
    ensures var due, r := StopDue(m, now), m.record;
            var late := IsOver(now, m.startAt, m.policy.absoluteSeconds) || StageIsOver(m, r, now);
            && (due.Some? <==> r.cancellationRequested || late)
            && (r.cancellationRequested ==> due == Some(CancelCode))
            && (late && !r.cancellationRequested ==>
                  Names(due.value, Missed(m, now)) && DeadlineOf(due.value) == Some(Missed(m, now)))
  {
  }

  /** A deadline report is stored, unless a cancellation was stored before it. */
  lemma DeadlineIsStored(db: Db, id: string, kind: DeadlineKind, now: int)
    requires Inv(db) && id in db.runs
    ensures var done, r := Event(db, id, DeadlineExceeded(kind), now), db.runs[id].payload;
            done.Ok? ==>
              && id in done.value.db.runs
              && done.value.reply == Current(done.value.db.runs[id].payload)
              && (if r.cancellationRequested then done.value.db == db
                  else
                    && LogOf(done.value.db, id) ==
                         LogOf(db, id) + [Stored(|LogOf(db, id)| + 1, now, DeadlineExceeded(kind))]
                    && done.value.db.runs[id].payload.deadlineExpired == Some(kind)
                    && !done.value.db.runs[id].payload.cancellationRequested)
  {
    hide Inv;
    hide Apply;
    EventMeaning(db, id, DeadlineExceeded(kind), now);
    DeadlineMeans(db.runs[id].payload, kind, now);
  }

  lemma DeadlineMeans(r: RunRecord, kind: DeadlineKind, now: int)
    ensures Apply(r, DeadlineExceeded(kind), now).Ok? ==>
              Apply(r, DeadlineExceeded(kind), now).value.deadlineExpired == Some(kind)
              && Apply(r, DeadlineExceeded(kind), now).value.cancellationRequested == r.cancellationRequested
  {
  }

  /** After any history, a served tick past the absolute deadline, or on a cancelled row, has decided. */
  lemma StopIsPunctual(w: World, acts: seq<Act>, now: int, epoch: int)
    requires WorldInv(w) && AllFair(w, acts)
    requires var at := Play(w, acts); IsServed(Tick(at.mon, at.db, now, epoch).answer)
    requires var at := Play(w, acts);
             && at.mon.id in at.db.runs
             && (now >= w.mon.startAt + 1000 * w.mon.policy.absoluteSeconds
                 || Seen(at.mon, at.db, now, epoch).cancellationRequested)
    ensures Play(w, acts + [TickAct(now, epoch)]).mon.stopCode.Some?
  {
    hide Tick;
    hide WorldInv;
    hide StageIsOver;
    hide Seen;
    hide AllFair;
    hide LogOf;
    hide Missed;
    hide Names;
    hide Inv;
    PlayKeepsDecision(w, acts);
    PolicyIsFixed(w, acts);
    var at, all := Play(w, acts), acts + [TickAct(now, epoch)];
    assert Play(w, all) == Next(at, TickAct(now, epoch)) by { assert all[..|acts|] == acts; }
    hide Play;
    WorldIsDecided(at);
    if at.mon.cancelAt.None? {
      TickDecides(at.mon, at.db, now, epoch);
    } else {
      NextLeavesStop(at, TickAct(now, epoch));
    }
  }

  lemma WorldIsDecided(w: World)
    requires WorldInv(w)
    ensures Inv(w.db) && w.mon.id in w.db.runs && (w.mon.stopCode.None? <==> w.mon.cancelAt.None?)
  {
  }

  // ---------------------------------------------------------------- asking the provider

  /** What a provider is asked on a stop: codex by turn, the agent client protocol by session. */
  predicate IsAsked(r: RunRecord, ask: Option<Interrupt>) {
    var adapter := r.header.adapter;
    var speaksAcp := adapter in {"opencode", "cline"} || (|adapter| >= 3 && adapter[|adapter| - 3..] == "acp");
    match ask
    case Some(TurnInterrupt(session, turn)) =>
      adapter == "codex" && r.sessionId == Some(session) && r.turnId == Some(turn)
    case Some(SessionCancel(session)) => speaksAcp && r.sessionId == Some(session)
    case None =>
      && !(adapter == "codex" && r.sessionId.Some? && r.turnId.Some?)
      && !(speaksAcp && r.sessionId.Some?)
  }

  /**
   * What a served tick answers: nothing while the run goes on; after the stop the one request its
   * adapter understands, on the first tick within the grace period; and the stop once the grace is over.
   */
  lemma TickAsks(m: Mon, db: Db, now: int, epoch: int)
    requires IsServed(Tick(m, db, now, epoch).answer)
    ensures var t := Tick(m, db, now, epoch);
            && (t.mon.cancelAt.None? ==> t.answer == Ok(None) && t.mon.cancelSent == m.cancelSent)
            && (t.mon.cancelAt.Some? ==>
                  if IsOver(now, t.mon.cancelAt.value, m.policy.cancellationGraceSeconds) then
                    t.answer == Err(Stopped(if t.mon.stopCode.Some? then t.mon.stopCode.value else CancelCode))
                  else
                    && t.answer.Ok? && t.mon.cancelSent
                    && (m.cancelSent ==> t.answer == Ok(None))
                    && (!m.cancelSent ==> IsAsked(t.mon.record, t.answer.value)))
  {
    hide Beat;
    hide Decide;
    hide IsAsked;
    hide InterruptFor;
    var beat := Beat(m, db, now, epoch);
    FaultsAreTheStores(m, db, now, epoch);
    FaultsAreTheStores(beat.mon, beat.db, now, epoch);
    AskMeaning(Decide(beat.mon, beat.db, now, epoch).mon.record);
  }

  lemma AskMeaning(r: RunRecord)
    ensures IsAsked(r, InterruptFor(r))
  {
  }

  // ---------------------------------------------------------------- the stage

  /** The stage an act puts the monitor in, if it opens one. */
  function StageSet(w: World, a: Act): Option<Stage> {
    match a
    case RequestAct(call, _) =>
      if call == "initialize" then Some(HandshakeStage)
      else if call in {"thread/start", "thread/resume", "session/new", "session/load", "authenticate"} then
        Some(SessionStage)
      else if call in {"turn/start", "session/prompt"} then Some(TurnStage)
      else None
    case ResponseAct(_, _, _, _) => if RestartsStage(w, a) then Some(TurnStage) else None
    case _ => None
  }

  function LatestStage(w: World, acts: seq<Act>): Stage {
    if acts == [] then w.mon.stage
    else
      var n := |acts| - 1;
      var s := StageSet(Play(w, acts[..n]), acts[n]);
      if s.Some? then s.value else LatestStage(w, acts[..n])
  }

  /** Whatever happened, the monitor is in the stage its latest request or bound session opened. */
  lemma {:induction false} StageIsLatest(w: World, acts: seq<Act>)
    ensures Play(w, acts).mon.stage == LatestStage(w, acts)
  {
    hide Next;
    hide StageSet;
    if acts != [] {
      var n := |acts| - 1;
      StageIsLatest(w, acts[..n]);
      NextSetsStage(Play(w, acts[..n]), acts[n]);
    }
  }

  lemma NextSetsStage(w: World, a: Act)
    ensures Next(w, a).mon.stage == if StageSet(w, a).Some? then StageSet(w, a).value else w.mon.stage
  {
    hide Send;
    hide Step;
    hide Tick;
    hide ResponseReceived;
    hide Observe;
    hide SessionNamed;
    match a {
      case TickAct(now, epoch) => TickClocks(w.mon, w.db, now, epoch);
      case ResponseAct(call, reply, now, epoch) => ReplySetsStage(w.mon, w.db, call, reply, now, epoch);
      case ObserveAct(message, now, epoch) => ObserveKeepsStage(w.mon, w.db, message, now, epoch);
      case ChildAct(identity, epoch) => SendChangesRecord(w.mon, w.db, ChildStarted(identity), epoch);
      case _ =>
    }
  }

  lemma SendChangesRecord(m: Mon, db: Db, e: RunEvent, epoch: int)
    ensures Send(m, db, e, epoch).mon == m.(record := Send(m, db, e, epoch).mon.record)
  {
    hide Event;
  }

  lemma ConcludeChangesRecord(m: Mon, db: Db, session: string, turn: Option<string>, status: ProviderState, epoch: int)
    ensures var t := Conclude(m, db, session, turn, status, epoch); t.mon == m.(record := t.mon.record)
  {
    hide Send;
    SendChangesRecord(m, db, ProviderTerminal(status), epoch);
  }

  lemma ObserveKeepsStage(m: Mon, db: Db, v: Json.Value, now: int, epoch: int)
    ensures Observe(m, db, v, now, epoch).mon.stage == m.stage
  {
    hide Send;
    hide Conclude;
    hide InScope;
    hide ProgressKey;
    hide Completion;
    hide IsOpaque;
    hide Json.StringAt;
    var key, c := ProgressKey(v), Completion(v);
    if key.Some? {
      SendChangesRecord(m.(progressKeys := m.progressKeys + {key.value}, lastProgress := now), db, Progress, epoch);
    }
    if c.Some? {
      ConcludeChangesRecord(m, db, c.value.session, Some(c.value.turn), c.value.status, epoch);
    }
  }

  lemma TurnKeepsStage(m: Mon, db: Db, turn: string, epoch: int)
    ensures TurnStarted(m, db, turn, epoch).mon.stage == m.stage
  {
    hide Send;
    hide Conclude;
    SendChangesRecord(m, db, TurnBound(turn), epoch);
    var bound := if m.record.turnId == Some(turn) then Moved(m, db, Ok(())) else Send(m, db, TurnBound(turn), epoch);
    if bound.mon.pendingTerminal.Some? {
      var early := bound.mon.pendingTerminal.value;
      ConcludeChangesRecord(
        bound.mon.(pendingTerminal := None), bound.db, early.session, Some(early.turn), early.status, epoch);
    }
  }

  lemma ReplySetsStage(m: Mon, db: Db, call: string, v: Json.Value, now: int, epoch: int)
    ensures var t := ResponseReceived(m, db, call, v, now, epoch);
            t.mon.stage == if SessionNamed(call, v).Some? && t.answer.Ok? then TurnStage else m.stage
  {
    hide Send;
    hide TurnStarted;
    hide Conclude;
    hide PromptStatus;
    hide Json.StringAt;
    var s := SessionNamed(call, v);
    if s.Some? {
      SendChangesRecord(m, db, SessionBound(s.value), epoch);
    }
    var turn := Json.StringAt(v, ["turn", "id"]);
    if turn.Some? {
      TurnKeepsStage(m, db, turn.value, epoch);
    }
    if m.record.sessionId.Some? && PromptStatus(v).Some? {
      ConcludeChangesRecord(m, db, m.record.sessionId.value, None, PromptStatus(v).value, epoch);
    }
  }

  // ---------------------------------------------------------------- replies and messages

  /** The words a provider ends a turn with. */
  predicate IsEndWord(word: string, status: ProviderState) {
    || (word == "completed" && status == Completed)
    || (word == "failed" && status == ProviderState.Failed)
    || (word == "interrupted" && status == Interrupted)
  }

  /**
   * A reply that names a session binds it: the stored row then holds that very session, and a session that
   * is bound already is not stored again.
   */
  lemma ReplyBindsSession(w: World, call: string, v: Json.Value, now: int, epoch: int, session: string)
    requires Inv(w.db) && w.mon.id in w.db.runs
    requires || (call in {"thread/start", "thread/resume"} && Json.StringAt(v, ["thread", "id"]) == Some(session))
             || (call == "session/new" && Json.StringAt(v, ["sessionId"]) == Some(session))
    requires w.mon.record.sessionId.Some? ==> w.mon.record.sessionId == w.db.runs[w.mon.id].payload.sessionId
    requires ResponseReceived(w.mon, w.db, call, v, now, epoch).answer.Ok?
    ensures var t := ResponseReceived(w.mon, w.db, call, v, now, epoch);
            && t.mon.stage == TurnStage && t.mon.stageAt == t.mon.lastProgress == now
            && t.mon.record.sessionId == Some(session)
            && w.mon.id in t.db.runs && t.db.runs[w.mon.id].payload.sessionId == Some(session)
            && t.db == (if w.mon.record.sessionId == Some(session) then w.db
                        else Step(w.db, EventOp(w.mon.id, SessionBound(session), epoch)))
  {
    hide Inv;
    hide Event;
    hide Apply;
    hide Json.StringAt;
    EventMeaning(w.db, w.mon.id, SessionBound(session), epoch);
    SessionMeans(w.db.runs[w.mon.id].payload, session, epoch);
  }

  lemma SessionMeans(r: RunRecord, session: string, now: int)
    ensures Apply(r, SessionBound(session), now).Ok? ==>
              Apply(r, SessionBound(session), now).value.sessionId == Some(session)
  {
  }

  /** The end of a prompt settles the provider of the bound session; any other reason changes nothing. */
  lemma PromptSettles(w: World, v: Json.Value, now: int, epoch: int)
    requires Inv(w.db) && w.mon.id in w.db.runs && w.mon.record.sessionId.Some?
    requires w.mon.record.provider == w.db.runs[w.mon.id].payload.provider
    requires ResponseReceived(w.mon, w.db, "session/prompt", v, now, epoch).answer.Ok?
    ensures var t := ResponseReceived(w.mon, w.db, "session/prompt", v, now, epoch);
            var reason := Json.StringAt(v, ["stopReason"]);
            && w.mon.id in t.db.runs
            && t.db.runs[w.mon.id].payload.provider == t.mon.record.provider
            && (reason == Some("end_turn") ==> t.mon.record.provider == Completed)
            && (reason == Some("cancelled") ==> t.mon.record.provider == Interrupted)
            && (reason !in {Some("end_turn"), Some("cancelled")} ==> t.mon == w.mon && t.db == w.db)
  {
    hide Inv;
    hide Event;
    hide Apply;
    hide Json.StringAt;
    if PromptStatus(v).Some? {
      SettledAsSent(w, PromptStatus(v).value, epoch);
    }
  }

  lemma SettledAsSent(w: World, status: ProviderState, epoch: int)
    requires Inv(w.db) && w.mon.id in w.db.runs
    ensures var t := Send(w.mon, w.db, ProviderTerminal(status), epoch);
            t.answer.Ok? ==>
              && w.mon.id in t.db.runs && t.mon.record == t.db.runs[w.mon.id].payload
              && t.mon.record.provider == status
  {
    hide Inv;
    hide Event;
    hide Apply;
    EventMeaning(w.db, w.mon.id, ProviderTerminal(status), epoch);
    SettleMeans(w.db.runs[w.mon.id].payload, ProviderTerminal(status), epoch);
  }

  /** What a completion message has to say to be one. */
  predicate SaysCompletion(v: Json.Value, c: EarlyTerminal) {
    && Json.StringAt(v, ["method"]) == Some("turn/completed")
    && Json.StringAt(v, ["params", "threadId"]) == Some(c.session)
    && Json.StringAt(v, ["params", "turn", "id"]) == Some(c.turn)
    && Json.StringAt(v, ["params", "turn", "status"]).Some?
    && IsEndWord(Json.StringAt(v, ["params", "turn", "status"]).value, c.status)
  }

  lemma CompletionMeaning(v: Json.Value, c: EarlyTerminal)
    ensures Completion(v) == Some(c) <==> SaysCompletion(v, c)
  {
    hide Json.StringAt;
  }

  /** A completion of the bound session and turn stores the status its word means. */
  lemma CompletionIsStored(w: World, v: Json.Value, c: EarlyTerminal, now: int, epoch: int)
    requires Inv(w.db) && w.mon.id in w.db.runs && SaysCompletion(v, c)
    requires w.mon.record.sessionId == Some(c.session) && w.mon.record.turnId == Some(c.turn)
    requires w.mon.record.provider == w.db.runs[w.mon.id].payload.provider
    requires Observe(w.mon, w.db, v, now, epoch).answer.Ok?
    ensures var t := Observe(w.mon, w.db, v, now, epoch);
            && w.mon.id in t.db.runs && t.db.runs[w.mon.id].payload.provider == c.status
            && t.mon.record.provider == c.status
  {
    hide Inv;
    hide Send;
    hide Completion;
    hide IsOpaque;
    hide IsEndWord;
    hide Json.StringAt;
    CompletionMeaning(v, c);
    SettledAsSent(w, c.status, epoch);
  }

  /** Reports of work on the bound session: items and plans of codex, tool calls and plans of the other. */
  predicate IsReport(r: RunRecord, v: Json.Value) {
    var call := Json.StringAt(v, ["method"]);
    && r.sessionId.Some?
    && if call == Some("session/update") then
         && Json.StringAt(v, ["params", "sessionId"]) == r.sessionId
         && Json.StringAt(v, ["params", "update", "sessionUpdate"]) in
              {Some("plan"), Some("tool_call"), Some("tool_call_update")}
       else
         && Json.StringAt(v, ["params", "threadId"]) == r.sessionId
         && call in
              {Some("item/started"), Some("item/completed"), Some("turn/diff/updated"), Some("turn/plan/updated")}
  }

  /** The identifier of the reported step, if it is at most 256 bytes without control characters. */
  predicate HasStepId(v: Json.Value) {
    var item := Json.At(v, ["params", "item", "id"]);
    var id := if item.Some? then item else Json.At(v, ["params", "update", "toolCallId"]);
    && id.Some? && id.value.Str? && ByteLength(id.value.s) <= 256
    && forall c | c in id.value.s :: !IsControl(c)
  }

  function OrNothing(text: Option<string>): string {
    match text
    case Some(s) => s
    case None => ""
  }

  /** What tells a step of work from a repeated report of it: the kind of message, the step and its status. */
  function StepName(v: Json.Value): string
    requires HasStepId(v)
  {
    var item := Json.At(v, ["params", "item", "id"]);
    var id := if item.Some? then item else Json.At(v, ["params", "update", "toolCallId"]);
    var status := Json.StringAt(v, ["params", "update", "status"]);
    OrNothing(Json.StringAt(v, ["method"])) + ":" + id.value.s + ":" + OrNothing(status)
  }

  /** A report of work on the bound session that the monitor has not had and has room for. */
  predicate IsNewWork(m: Mon, v: Json.Value) {
    IsReport(m.record, v) && HasStepId(v) && |m.progressKeys| < 4096 && StepName(v) !in m.progressKeys
  }

  /**
   * Only a report of a new step on the bound session is work: it restarts the idle clock, and is stored at
   * most once a second, which only a stored one puts off. The same message again changes nothing.
   */
  lemma WorkCountsOnce(m: Mon, db: Db, v: Json.Value, now: int, epoch: int, again: int)
    requires Json.StringAt(v, ["method"]) != Some("turn/completed")
    ensures var t := Observe(m, db, v, now, epoch);
            && (!IsNewWork(m, v) ==> t == Moved(m, db, Ok(())))
            && (IsNewWork(m, v) ==>
                  && t.mon.progressKeys == m.progressKeys + {StepName(v)} && t.mon.lastProgress == now
                  && (now < m.lastFlush + 1000 ==> t.db == db && t.mon.lastFlush == m.lastFlush && t.answer.Ok?)
                  && (now >= m.lastFlush + 1000 ==>
                        && t.db == Step(db, EventOp(m.id, Progress, epoch))
                        && (t.answer.Ok? <==> Perform(db, EventOp(m.id, Progress, epoch)).Ok?)
                        && t.mon.lastFlush == if t.answer.Ok? then now else m.lastFlush))
            && Observe(t.mon, t.db, v, again, epoch) == Moved(t.mon, t.db, Ok(()))
  {
    hide Json.StringAt;
    hide Json.At;
    hide ByteLength;
    hide Event;
    ScopeMeaning(m, v);
    KeyMeaning(v);
    hide InScope;
    hide ProgressKey;
    hide StepName;
    hide HasStepId;
    if ProgressKey(v).Some? {
      var seen := m.(progressKeys := m.progressKeys + {ProgressKey(v).value}, lastProgress := now);
      SendChangesRecord(seen, db, Progress, epoch);
      ScopeMeaning(Observe(m, db, v, now, epoch).mon, v);
    }
  }

  /** A monitor is installed exactly by the process that holds the claim, and starts from the stored record. */
  lemma InstallIsExact(db: Db, id: string, owner: ProcessIdentity, now: int)
    requires Inv(db)
    ensures Install(db, id, owner, now).Ok? <==> id in db.runs && db.runs[id].payload.supervisor == Some(owner)
    ensures id in db.runs && db.runs[id].payload.supervisor != Some(owner) ==>
              Install(db, id, owner, now) == Err(OwnerMismatch)
    ensures Install(db, id, owner, now).Ok? ==>
              var m, r := Install(db, id, owner, now).value, db.runs[id].payload;
              && m.id == id && m.owner == owner && m.record == r && m.policy == r.header.deadlines
              && m.startAt == m.stageAt == m.lastProgress == m.lastFlush == m.lastHeartbeat == now
              && m.stage == HandshakeStage && m.cancelAt == None && m.stopCode == None && !m.cancelSent
              && m.pendingTerminal == None && m.progressKeys == {}
  {
    hide RunInv;
    if id in db.runs {
      RowFacts(db, id);
    }
  }

  lemma ScopeMeaning(m: Mon, v: Json.Value)
    ensures InScope(m, v) <==> IsReport(m.record, v)
  {
    hide Json.StringAt;
  }

  lemma KeyMeaning(v: Json.Value)
    ensures ProgressKey(v).Some? <==> HasStepId(v)
    ensures HasStepId(v) ==> ProgressKey(v) == Some(StepName(v))
  {
    hide Json.At;
    hide ByteLength;
  }
}
