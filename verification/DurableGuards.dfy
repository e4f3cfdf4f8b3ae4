/**
 * What each transaction on the durable tables accepts and what it leaves behind, told from the rows
 * alone: for every operation the exact condition under which it changes anything, and the change.
 */
module DurableGuards {
  import opened Prelude
  import opened Control
  import opened Durable
  import opened DurableLog
  import opened DurableStore
  import opened DurableHistory

  /** A provider state that is never left again. */
  predicate IsFinal(p: ProviderState) {
    p in {Completed, ProviderState.Failed, Interrupted, AuthenticationRequired}
  }

  /** The tables with one more event of a run, and its row as given. */
  function Logged(db: Db, id: string, r: RunRecord, cancelled: bool, e: RunEvent, now: int): Db {
    db.(runs := db.runs[id := Row(r.revision, r.sequence, cancelled, now, r)],
        events := db.events[id := LogOf(db, id) + [Stored(r.sequence, now, e)]])
  }

  /** The record moved on by one event at an instant. */
  function Moved(r: RunRecord, now: int): RunRecord {
    r.(updatedAt := now, revision := r.revision + 1, sequence := r.sequence + 1)
  }

  lemma RowFacts(db: Db, id: string)
    requires Inv(db) && id in db.runs
    ensures RunInv(db, id) && Read(db, id) == Ok(db.runs[id].payload)
    ensures var row := db.runs[id];
            && row.revision == row.sequence == row.payload.revision == row.payload.sequence
            && row.cancelRequested == row.payload.cancellationRequested && row.updatedAt == row.payload.updatedAt
    ensures db.runs[id].payload.revision == |LogOf(db, id)|
    ensures id in db.plans && db.plans[id]
  {
    hide Replay;
    assert RunInv(db, id);
  }

  // ---------------------------------------------------------------- cancellations

  /**
   * A cancel request changes the tables exactly when it names an open, uncancelled run at its present
   * revision with room in its log; a stale revision is refused, and a run that is over or cancelled is
   * left alone.
   */
  lemma CancelIsExact(db: Db, id: string, expected: nat, now: int)
    requires Inv(db)
    ensures var done, after := Perform(db, CancelOp(id, expected, now)), Step(db, CancelOp(id, expected, now));
            && (after != db <==>
                  && id in db.runs && db.runs[id].payload.revision == expected
                  && !db.runs[id].payload.ownerReleased && !db.runs[id].payload.cancellationRequested
                  && HasRoom(db.runs[id].payload, now))
            && (id !in db.runs ==> done == Err(DatabaseConflict))
            && (id in db.runs ==>
                  var r := db.runs[id].payload;
                  && (r.revision != expected ==> done == Err(RevisionConflict))
                  && (r.revision == expected && (r.ownerReleased || r.cancellationRequested) ==>
                        done == Ok(Commit(db, Skipped)))
                  && (after != db ==>
                        var next := Moved(r.(cancellationRequested := true), now);
                        && done.Ok? && done.value.reply == Current(next)
                        && after == Logged(db, id, next, true, RunEvent.CancelRequested, now)))
  {
    hide Apply;
    hide Update;
    hide RunInv;
    hide ClaimsMatch;
    if id in db.runs {
      RowFacts(db, id);
      var r := db.runs[id].payload;
      UpdateShape(db, id, RunEvent.CancelRequested, now);
      UpdateAccepted(db, id, RunEvent.CancelRequested, now);
      if r.sequence < MAX_EVENTS {
        CountersFit(db, id);
        StepAccepts(r, RunEvent.CancelRequested, now);
        if !r.ownerReleased {
          CancelMeans(r, now);
        }
      }
    }
  }

  lemma CancelMeans(r: RunRecord, now: int)
    requires !r.ownerReleased
    ensures Apply(r, RunEvent.CancelRequested, now).Ok? ==>
              Apply(r, RunEvent.CancelRequested, now).value == Moved(r.(cancellationRequested := true), now)
  {
  }

  // ---------------------------------------------------------------- heartbeats

  /** Only the process that holds an unreleased claim beats, and a beat changes its own column and nothing else. */
  lemma HeartbeatIsExact(db: Db, id: string, owner: ProcessIdentity, now: int)
    requires Inv(db)
    ensures var done, after := Perform(db, HeartbeatOp(id, owner, now)), Step(db, HeartbeatOp(id, owner, now));
            && (done.Ok? <==>
                  && id in db.runs && db.runs[id].payload.supervisor == Some(owner)
                  && !db.runs[id].payload.ownerReleased && db.runs[id].payload.updatedAt <= now)
            && (done.Err? ==> after == db)
            && (id in db.runs
                && (db.runs[id].payload.supervisor != Some(owner) || db.runs[id].payload.ownerReleased) ==>
                  done == Err(SupervisorChanged))
            && (done.Ok? ==>
                  var beat := db.runs[id].payload.(lastHeartbeatAt := Some(now));
                  && done.value.reply == Current(beat)
                  && after == db.(runs := db.runs[id := db.runs[id].(payload := beat)]))
  {
    hide RunInv;
    hide ClaimsMatch;
    if id in db.runs {
      RowFacts(db, id);
    }
  }

  // ---------------------------------------------------------------- preparing and claiming

  /** A policy whose six limits are positive, within their bounds, and no stage longer than the whole. */
  predicate IsPolicy(p: DeadlinePolicy) {
    && 0 < p.handshakeSeconds <= Min(120, p.absoluteSeconds)
    && 0 < p.sessionSeconds <= Min(300, p.absoluteSeconds)
    && 0 < p.idleSeconds <= Min(1800, p.absoluteSeconds)
    && p.absoluteSeconds <= 3600
    && 0 < p.cancellationGraceSeconds <= 30 && 0 < p.reconciliationSeconds <= 120
  }

  /** Nothing is known of the run yet. */
  predicate IsBlank(r: RunRecord) {
    && r.executionId.None? && r.supervisor.None? && r.child.None? && r.sessionId.None? && r.turnId.None?
    && r.transport.NotStarted? && r.provider.Unknown? && r.workspace.NotObserved? && r.verification.NotRequested?
    && r.lastHeartbeatAt.None? && r.lastProgressAt.None? && r.finishedAt.None? && r.errorCode.None?
    && r.deadlineExpired.None? && !r.cancellationRequested && !r.ownerReleased && r.revision == 0 && r.sequence == 0
  }

  /**
   * A run is reserved for a known continuation plan that has none, under a sound policy and while fewer
   * than 512 are stored; it starts blank and with an empty log. Other plans pass without a run.
   */
  lemma PrepareIsExact(db: Db, header: RunHeader, now: int)
    requires Inv(db)
    ensures var done, after, id := Perform(db, PrepareOp(header, now)), Step(db, PrepareOp(header, now)), header.id;
            && (done.Ok? <==>
                  || (id in db.plans && !db.plans[id])
                  || (id in db.plans && id !in db.runs && IsPolicy(header.deadlines) && |db.runs| < 512))
            && (after != db <==> done.Ok? && db.plans[id])
            && (after != db ==>
                  && id in after.runs && IsBlank(after.runs[id].payload) && LogOf(after, id) == []
                  && after.runs[id].payload.header == header.(planId := id)
                  && after.runs[id] == Row(0, 0, false, now, after.runs[id].payload)
                  && after.runs[id].payload.updatedAt == now
                  && after == db.(runs := db.runs[id := after.runs[id]], prepared := after.prepared))
  {
    hide RunInv;
    hide ClaimsMatch;
    if header.id in db.plans && !db.plans[header.id] && header.id in db.runs {
      RowFacts(db, header.id);
    }
  }

  /**
   * A continuation starts exactly when its run is neither cancelled nor claimed, has room, and the
   * execution is new; the claim and the reservation are stored together. A cancelled or claimed run is
   * refused as such.
   */
  lemma ClaimIsExact(db: Db, id: string, owner: ProcessIdentity, execution: string, now: int)
    requires Inv(db) && id in db.runs
    ensures var op := StartOp(id, owner, execution, now);
            var done, after := Perform(db, op), Step(db, op);
            var r := db.runs[id].payload;
            && (done.Ok? <==>
                  !r.cancellationRequested && r.executionId.None? && execution !in db.effects && HasRoom(r, now))
            && (done.Err? ==> after == db)
            && (r.cancellationRequested ==> done == Err(CancelledBeforeStart))
            && (!r.cancellationRequested && r.executionId.Some? ==> done == Err(AlreadyStarted))
            && (done.Ok? ==>
                  var next := Moved(r.(supervisor := Some(owner), executionId := Some(execution),
                                       transport := TransportState.Starting, provider := ProviderState.Starting), now);
                  && done.value.reply == Execution(execution)
                  && after == Logged(db, id, next, false, Claimed(owner, execution), now)
                              .(effects := db.effects[execution := id]))
  {
    hide Apply;
    hide Update;
    hide RunInv;
    RowFacts(db, id);
    var r, e := db.runs[id].payload, Claimed(owner, execution);
    assert id in db.effects.Values ==> r.executionId.Some?;
    hide ClaimsMatch;
    var reserved := db.(effects := db.effects[execution := id]);
    SameRunInv(db, reserved, id);
    UpdateShape(reserved, id, e, now);
    UpdateAccepted(reserved, id, e, now);
    if r.sequence < MAX_EVENTS {
      CountersFit(db, id);
      StepAccepts(r, e, now);
      ClaimedMeans(r, owner, execution, now);
    }
  }

  lemma ClaimedMeans(r: RunRecord, owner: ProcessIdentity, execution: string, now: int)
    ensures Apply(r, Claimed(owner, execution), now).Ok? ==>
              Apply(r, Claimed(owner, execution), now).value ==
              Moved(r.(supervisor := Some(owner), executionId := Some(execution),
                       transport := TransportState.Starting, provider := ProviderState.Starting), now)
  {
  }

  /** Any other plan is reserved once, under a new execution, and touches no run. */
  lemma ReserveIsExact(db: Db, id: string, owner: ProcessIdentity, execution: string, now: int)
    requires Inv(db) && id !in db.runs
    ensures var op := StartOp(id, owner, execution, now);
            var done, after := Perform(db, op), Step(db, op);
            && (done.Ok? <==>
                  id in db.plans && !db.plans[id] && execution !in db.effects && id !in db.effects.Values)
            && after == (if done.Ok? then db.(effects := db.effects[execution := id]) else db)
  {
    hide RunInv;
    hide ClaimsMatch;
    hide Update;
  }

  // ---------------------------------------------------------------- events

  /** Events the row already answers: they succeed and leave no trace. */
  predicate IsOldNews(r: RunRecord, e: RunEvent) {
    match e
    case DeadlineExceeded(_) => r.cancellationRequested
    case ProviderTerminal(status) => r.provider == status
    case Reconciled(status) => r.provider == status
    case Progress => r.sequence >= 1984 || IsFinal(r.provider)
    case _ => false
  }

  /** What an event must agree with. */
  predicate IsAgreeable(r: RunRecord, e: RunEvent) {
    match e
    case SessionBound(session) => IsProviderId(session) && (r.sessionId.Some? ==> r.sessionId == Some(session))
    case TurnBound(turn) =>
      IsProviderId(turn) && r.sessionId.Some? && (r.turnId.Some? ==> r.turnId == Some(turn))
    case ProviderTerminal(status) => IsFinal(status) && (IsFinal(r.provider) ==> r.provider == status)
    case Reconciled(status) => IsFinal(status) && (IsFinal(r.provider) ==> r.provider == status)
    case TransportEnded(state, code) =>
      && state in {Exited, Lost, TimedOut, TransportState.Cancelled}
      && (code.Some? ==>
            && 0 < |code.value| <= 96
            && forall c | c in code.value :: 'A' <= c <= 'Z' || '0' <= c <= '9' || c == '_')
    case Claimed(_, _) => r.executionId.None?
    case _ => true
  }

  /**
   * An event is absorbed, or else appended exactly when there is room and the row agrees with it; what a
   * log then says of the record is RecordMeaning. Nothing else in the tables moves.
   */
  lemma EventIsExact(db: Db, id: string, e: RunEvent, now: int)
    requires Inv(db) && id in db.runs && !e.CancelRequested?
    ensures var done, after := Perform(db, EventOp(id, e, now)), Step(db, EventOp(id, e, now));
            var r := db.runs[id].payload;
            && (done.Ok? <==> IsOldNews(r, e) || (HasRoom(r, now) && IsAgreeable(r, e)))
            && (after != db <==> !IsOldNews(r, e) && HasRoom(r, now) && IsAgreeable(r, e))
            && (IsOldNews(r, e) ==> done == Ok(Commit(db, Current(r))))
            && (after != db ==>
                  && id in after.runs && done == Ok(Commit(after, Current(after.runs[id].payload)))
                  && after == Logged(db, id, after.runs[id].payload, r.cancellationRequested, e, now))
  {
    hide Update;
    hide Apply;
    hide RunInv;
    hide Logged;
    hide HasRoom;
    hide IsAgreeable;
    hide IsOldNews;
    hide IsAbsorbed;
    RowFacts(db, id);
    OldNewsIsAbsorbed(db.runs[id].payload, e);
    var r := db.runs[id].payload;
    UpdateIsLogged(db, id, e, now);
    if !IsOldNews(r, e) && r.sequence < 2048 {
      CountersFit(db, id);
      ApplyIsExact(r, e, now);
      LoggedIsLonger(db, id, e, now);
    }
    RoomIsLimited(r, now);
  }

  lemma OldNewsIsAbsorbed(r: RunRecord, e: RunEvent)
    ensures IsAbsorbed(r, e) <==> IsOldNews(r, e)
  {
  }

  lemma RoomIsLimited(r: RunRecord, now: int)
    ensures HasRoom(r, now) <==> r.sequence < 2048 && 0 <= now <= 253_402_300_799 && r.updatedAt <= now
  {
  }

  /** An update that commits adds the event and moves the row of its run. */
  lemma UpdateIsLogged(db: Db, id: string, e: RunEvent, now: int)
    requires Inv(db) && id in db.runs && !e.CancelRequested?
    ensures var r := db.runs[id].payload;
            match Update(db, r, e, now)
            case Err(_) => !(r.sequence < 2048 && Apply(r, e, now).Ok?)
            case Ok(c) =>
              && r.sequence < 2048 && Apply(r, e, now).Ok? && id in c.db.runs
              && c == Commit(c.db, Current(c.db.runs[id].payload))
              && c.db == Logged(db, id, c.db.runs[id].payload, r.cancellationRequested, e, now)
  {
    hide Apply;
    hide Update;
    hide RunInv;
    hide ClaimsMatch;
    RowFacts(db, id);
    var r := db.runs[id].payload;
    UpdateShape(db, id, e, now);
    UpdateAccepted(db, id, e, now);
    if Apply(r, e, now).Ok? {
      ApplyFacts(r, e, now);
    }
  }

  lemma LoggedIsLonger(db: Db, id: string, e: RunEvent, now: int)
    ensures forall r, cancelled :: Logged(db, id, r, cancelled, e, now) != db
  {
    forall r, cancelled ensures Logged(db, id, r, cancelled, e, now) != db {
      assert |LogOf(Logged(db, id, r, cancelled, e, now), id)| == |LogOf(db, id)| + 1;
    }
  }

  lemma AgreeableMeaning(r: RunRecord, e: RunEvent, now: int)
    ensures Transition(r, e, now).Ok? <==> IsAgreeable(r, e)
    ensures Transition(r, e, now).Ok? ==>
      Transition(r, e, now).value.revision == r.revision && Transition(r, e, now).value.sequence == r.sequence
  {
    hide IsProviderId;
    hide IsOpaque;
    match e {
      case SessionBound(session) => OpaqueMeaning(session);
      case TurnBound(turn) => OpaqueMeaning(turn);
      case _ =>
    }
  }

  /** One event is accepted exactly at a time that has not gone back, if it agrees and the counters can move. */
  lemma ApplyIsExact(r: RunRecord, e: RunEvent, now: int)
    ensures Apply(r, e, now).Ok? <==>
      && 0 <= now <= 253_402_300_799 && r.updatedAt <= now && IsAgreeable(r, e)
      && r.revision < 0xFFFF_FFFF_FFFF_FFFF && r.sequence < 0xFFFF_FFFF_FFFF_FFFF
    ensures Apply(r, e, now).Ok? ==>
      var next := Apply(r, e, now).value;
      next.updatedAt == now && next.revision == r.revision + 1 && next.sequence == r.sequence + 1
  {
    AgreeableMeaning(r, e, now);
    hide Transition;
    hide IsAgreeable;
  }

  // ---------------------------------------------------------------- the faults

  predicate IsTimely(r: RunRecord, now: int) {
    0 <= now <= 253_402_300_799 && r.updatedAt <= now
  }

  /** Why an event does not agree with a record. */
  predicate IsReason(r: RunRecord, e: RunEvent, f: Fault) {
    match f
    case AlreadyClaimed => e.Claimed? && r.executionId.Some?
    case IdInvalid => (e.SessionBound? && !IsProviderId(e.sessionId)) || (e.TurnBound? && !IsProviderId(e.turnId))
    case SessionChanged => e.SessionBound? && IsProviderId(e.sessionId) && r.sessionId !in {None, Some(e.sessionId)}
    case SessionRequired => e.TurnBound? && IsProviderId(e.turnId) && r.sessionId.None?
    case TurnChanged =>
      e.TurnBound? && IsProviderId(e.turnId) && r.sessionId.Some? && r.turnId !in {None, Some(e.turnId)}
    case TerminalRequired => (e.ProviderTerminal? || e.Reconciled?) && !IsFinal(e.status)
    case TerminalConflict =>
      (e.ProviderTerminal? || e.Reconciled?) && IsFinal(e.status) && IsFinal(r.provider) && r.provider != e.status
    case TransportEndRequired => e.TransportEnded? && e.state !in {Exited, Lost, TimedOut, TransportState.Cancelled}
    case ErrorCodeInvalid =>
      && e.TransportEnded? && e.state in {Exited, Lost, TimedOut, TransportState.Cancelled} && !IsAgreeable(r, e)
    case _ => false
  }

  /** Why an event is refused: first the time, then what it says, then the counters. */
  predicate IsRefusedFor(r: RunRecord, e: RunEvent, now: int, f: Fault) {
    match f
    case InvalidTime => !(0 <= now <= 253_402_300_799)
    case ClockRegression => 0 <= now <= 253_402_300_799 && now < r.updatedAt
    case RevisionOverflow => IsTimely(r, now) && IsAgreeable(r, e) && r.revision >= 0xFFFF_FFFF_FFFF_FFFF
    case SequenceOverflow =>
      && IsTimely(r, now) && IsAgreeable(r, e) && r.revision < 0xFFFF_FFFF_FFFF_FFFF
      && r.sequence >= 0xFFFF_FFFF_FFFF_FFFF
    case _ => IsTimely(r, now) && IsReason(r, e, f)
  }

  lemma ReasonMeaning(r: RunRecord, e: RunEvent, now: int, f: Fault)
    ensures Transition(r, e, now) == Err(f) <==> IsReason(r, e, f)
  {
    hide IsProviderId;
    hide IsOpaque;
    match e {
      case SessionBound(session) => OpaqueMeaning(session);
      case TurnBound(turn) => OpaqueMeaning(turn);
      case _ =>
    }
  }

  /** An event step is refused with a fault exactly for its reason. */
  lemma ApplyRefuses(r: RunRecord, e: RunEvent, now: int, f: Fault)
    ensures Apply(r, e, now) == Err(f) <==> IsRefusedFor(r, e, now, f)
  {
    ReasonMeaning(r, e, now, f);
    AgreeableMeaning(r, e, now);
    NoReasonBeside(r, e, f);
    hide Transition;
    hide IsReason;
    hide IsAgreeable;
  }

  lemma NoReasonBeside(r: RunRecord, e: RunEvent, f: Fault)
    ensures f in {InvalidTime, ClockRegression, RevisionOverflow, SequenceOverflow} ==> !IsReason(r, e, f)
  {
  }

  /** The row has no room for the event, or refuses it. */
  predicate IsUnstorable(r: RunRecord, e: RunEvent, now: int, f: StoreFault) {
    match f
    case EventBudget => r.sequence >= 2048
    case Refused(reason) => r.sequence < 2048 && IsRefusedFor(r, e, now, reason)
    case _ => false
  }

  lemma UpdateRefuses(db: Db, id: string, e: RunEvent, now: int, f: StoreFault)
    requires id in db.runs && RunInv(db, id)
    ensures Update(db, db.runs[id].payload, e, now) == Err(f) <==> IsUnstorable(db.runs[id].payload, e, now, f)
  {
    hide Apply;
    hide IsRefusedFor;
    hide RunInv;
    UpdateAccepted(db, id, e, now);
    var r := db.runs[id].payload;
    if f.Refused? {
      ApplyRefuses(r, e, now, f.reason);
    }
  }

  /** Every fault of an event, exactly. */
  lemma EventFaults(db: Db, id: string, e: RunEvent, now: int, f: StoreFault)
    requires Inv(db)
    ensures Perform(db, EventOp(id, e, now)) == Err(f) <==>
      if id !in db.runs then f == DatabaseConflict
      else !IsOldNews(db.runs[id].payload, e) && IsUnstorable(db.runs[id].payload, e, now, f)
  {
    hide Update;
    hide IsAbsorbed;
    hide IsOldNews;
    hide IsUnstorable;
    hide RunInv;
    hide ClaimsMatch;
    if id in db.runs {
      RowFacts(db, id);
      OldNewsIsAbsorbed(db.runs[id].payload, e);
      UpdateRefuses(db, id, e, now, f);
    }
  }

  /** Every fault of a cancellation, exactly. */
  lemma CancelFaults(db: Db, id: string, expected: nat, now: int, f: StoreFault)
    requires Inv(db)
    ensures Perform(db, CancelOp(id, expected, now)) == Err(f) <==>
      if id !in db.runs then f == DatabaseConflict
      else if db.runs[id].payload.revision != expected then f == RevisionConflict
      else
        && !db.runs[id].payload.ownerReleased && !db.runs[id].payload.cancellationRequested
        && IsUnstorable(db.runs[id].payload, RunEvent.CancelRequested, now, f)
  {
    hide Update;
    hide IsUnstorable;
    hide RunInv;
    hide ClaimsMatch;
    if id in db.runs {
      RowFacts(db, id);
      UpdateAccepted(db, id, RunEvent.CancelRequested, now);
      UpdateRefuses(db, id, RunEvent.CancelRequested, now, f);
    }
  }

  /** Every fault of a preparation, exactly, in the order of its checks. */
  lemma PrepareFaults(db: Db, header: RunHeader, now: int, f: StoreFault)
    ensures var id := header.id;
      Perform(db, PrepareOp(header, now)) == Err(f) <==>
        && !(id in db.plans && !db.plans[id])
        && if !IsPolicy(header.deadlines) then f == DeadlineInvalid
           else if |db.runs| >= 512 then f == RunBudget
           else (id !in db.plans || id in db.runs) && f == DatabaseConflict
  {
  }

  /** Every fault of a heartbeat, exactly. */
  lemma HeartbeatFaults(db: Db, id: string, owner: ProcessIdentity, now: int, f: StoreFault)
    ensures Perform(db, HeartbeatOp(id, owner, now)) == Err(f) <==>
      if id !in db.runs then f == DatabaseConflict
      else if db.runs[id].payload.supervisor != Some(owner) || db.runs[id].payload.ownerReleased then
        f == SupervisorChanged
      else now < db.runs[id].payload.updatedAt && f == HeartbeatClock
  {
  }

  /** Every fault of a start of a prepared run, exactly. */
  lemma ClaimFaults(db: Db, id: string, owner: ProcessIdentity, execution: string, now: int, f: StoreFault)
    requires Inv(db) && id in db.runs
    ensures var r := db.runs[id].payload;
      Perform(db, StartOp(id, owner, execution, now)) == Err(f) <==>
        if r.cancellationRequested then f == CancelledBeforeStart
        else if r.executionId.Some? then f == AlreadyStarted
        else if execution in db.effects then f == DatabaseConflict
        else IsUnstorable(r, Claimed(owner, execution), now, f)
  {
    hide Update;
    hide IsUnstorable;
    hide RunInv;
    RowFacts(db, id);
    assert id in db.effects.Values ==> db.runs[id].payload.executionId.Some?;
    hide ClaimsMatch;
    var reserved := db.(effects := db.effects[execution := id]);
    SameRunInv(db, reserved, id);
    UpdateRefuses(reserved, id, Claimed(owner, execution), now, f);
  }

  // ---------------------------------------------------------------- the reported state

  /** What a log says of a run, as far as its reported state depends on it. */
  datatype Story = Story(
    cancelled: bool, claimed: bool, released: bool, verdict: VerificationState, provider: ProviderState,
    transport: TransportState, seen: WorkspaceState)

  function StoryOf(log: Log): Story {
    Story(
      Has(log, IsCancel), Has(log, IsClaim), Has(log, IsRelease),
      match Newest(log, IsVerdict) { case None => NotRequested case Some(s) => s.event.verdict },
      ProviderOf(log), TransportOf(log),
      match Newest(log, IsSighting) { case None => NotObserved case Some(s) => s.event.observed })
  }

  /** Neither settled by a verification nor waiting for a cancellation, nor cancelled before it began. */
  predicate IsUnjudged(s: Story) {
    && (s.cancelled ==> s.claimed && s.released)
    && s.verdict !in {Passed, VerificationState.Failed}
  }

  /** What is left when neither a verification nor the provider says how the run ended. */
  predicate IsUndecided(s: Story) {
    && IsUnjudged(s) && s.provider !in {Completed, ProviderState.Failed, AuthenticationRequired}
    && !(s.provider.Interrupted? && s.transport == TransportState.Cancelled)
  }

  /** The state a run reports, told from what its log holds. */
  predicate Tells(s: Story, state: RunState) {
    var stillborn := s.cancelled && !s.claimed;
    match state
    case Verified => !stillborn && s.verdict.Passed? && s.provider.Completed?
    case VerificationFailed => !stillborn && s.verdict == VerificationState.Failed
    case CancelRequested => !stillborn && s.cancelled && !s.released && s.verdict !in {Passed, VerificationState.Failed}
    case AwaitingVerification => IsUnjudged(s) && s.provider.Completed?
    case Failed => IsUnjudged(s) && s.provider in {ProviderState.Failed, AuthenticationRequired}
    case Cancelled =>
      stillborn || (IsUnjudged(s) && s.provider.Interrupted? && s.transport == TransportState.Cancelled)
    case ProgressConfirmed =>
      || (!stillborn && s.verdict.Passed? && !s.provider.Completed?)
      || (IsUndecided(s) && s.released && s.seen.Changed?)
    case ReconciliationRequired => IsUndecided(s) && s.released && !s.seen.Changed?
    case Planned => IsUndecided(s) && !s.released && s.transport.NotStarted?
    case Starting => IsUndecided(s) && !s.released && s.transport.Starting?
    case Running => IsUndecided(s) && !s.released && s.transport.Connected?
  }

  /** Every reachable run reports the one state its log tells. */
  lemma StateIsHistory(ops: seq<Op>, id: string, state: RunState)
    requires AllIssued(ops) && id in Execute(EMPTY, ops).runs
    ensures var db := Execute(EMPTY, ops);
            db.runs[id].payload.State() == state <==> Tells(StoryOf(LogOf(db, id)), state)
  {
    hide Execute;
    hide Replay;
    EveryInterleaving(EMPTY, ops);
    var db := Execute(EMPTY, ops);
    RowFacts(db, id);
    var r, log := db.runs[id].payload, LogOf(db, id);
    RecordMeaning(db.prepared[id], log);
    EndedIsReleased(log);
    StateIsTold(r, StoryOf(log), state);
  }

  lemma EndedIsReleased(log: Log)
    ensures TransportOf(log) in {Exited, TimedOut, Lost, TransportState.Cancelled} ==> Has(log, IsRelease)
  {
    NewestMeaning(log, MovesTransport);
    NewestMeaning(log, IsRelease);
  }

  lemma StateIsTold(r: RunRecord, s: Story, state: RunState)
    requires s == Story(r.cancellationRequested, r.executionId.Some?, r.ownerReleased, r.verification, r.provider,
                        r.transport, r.workspace)
    requires r.transport in {Exited, TimedOut, Lost, TransportState.Cancelled} ==> r.ownerReleased
    ensures r.State() == state <==> Tells(s, state)
  {
  }
}
