/**
 * The stored event log read as history: the record is the fold of the log, every field of it is
 * answered by one query over the log, and nothing that matters is ever taken back.
 */
module DurableLog {
  import opened Prelude
  import Control
  import opened Durable

  datatype Stored = Stored(number: nat, at: int, event: RunEvent)

  type Log = seq<Stored>

  function Front(log: Log): Log
    requires log != []
  {
    log[..|log| - 1]
  }

  function Last(log: Log): Stored
    requires log != []
  {
    log[|log| - 1]
  }

  /** Applies the whole log to a starting record. */
  function Replay(start: RunRecord, log: Log): Result<RunRecord, Fault> {
    if log == [] then Ok(start)
    else
      match Replay(start, Front(log))
      case Err(fault) => Err(fault)
      case Ok(r) => Apply(r, Last(log).event, Last(log).at)
  }

  // ---------------------------------------------------------------- queries over a log

  type Query = RunEvent -> bool

  /** The newest stored event the query selects. */
  function Newest(log: Log, q: Query): (found: Option<Stored>)
    ensures found.Some? ==> q(found.value.event)
  {
    if log == [] then None
    else if q(Last(log).event) then Some(Last(log))
    else Newest(Front(log), q)
  }

  /** The newest selected event is the one after which nothing else is selected. */
  lemma {:induction false} NewestMeaning(log: Log, q: Query)
    ensures Newest(log, q).None? <==> forall i | 0 <= i < |log| :: !q(log[i].event)
    ensures Newest(log, q).Some? ==>
              exists i | 0 <= i < |log| ::
                Newest(log, q) == Some(log[i]) && forall k | i < k < |log| :: !q(log[k].event)
  {
    if log != [] {
      NewestMeaning(Front(log), q);
      assert forall i | 0 <= i < |log| - 1 :: Front(log)[i] == log[i];
      assert log[|log| - 1] == Last(log);
    }
  }

  predicate Has(log: Log, q: Query) {
    Newest(log, q).Some?
  }

  function Count(log: Log, q: Query): (n: nat)
    ensures n <= |log|
  {
    if log == [] then 0 else Count(Front(log), q) + if q(Last(log).event) then 1 else 0
  }

  predicate IsClaim(e: RunEvent) { e.Claimed? }
  predicate IsCancel(e: RunEvent) { e.CancelRequested? }
  predicate IsDeadline(e: RunEvent) { e.DeadlineExceeded? }
  predicate IsRelease(e: RunEvent) { e.TransportEnded? || (e.Recovered? && e.supervisorGone) }
  predicate MovesTransport(e: RunEvent) { e.Claimed? || e.ChildStarted? || IsRelease(e) }
  predicate IsSession(e: RunEvent) { e.SessionBound? }
  predicate IsTurn(e: RunEvent) { e.TurnBound? }
  predicate IsChild(e: RunEvent) { e.ChildStarted? }
  predicate IsEnd(e: RunEvent) { e.TransportEnded? }
  predicate IsSighting(e: RunEvent) { e.WorkspaceObserved? }
  predicate IsVerdict(e: RunEvent) { e.Verification? }
  predicate IsSettled(e: RunEvent) { e.ProviderTerminal? || e.Reconciled? }
  predicate ShowsLife(e: RunEvent) { e.TurnBound? || e.Progress? }
  predicate IsProgress(e: RunEvent) { e.Progress? }
  predicate IsClaimOrSettled(e: RunEvent) { IsClaim(e) || IsSettled(e) }
  predicate IsClaimOrLife(e: RunEvent) { IsClaim(e) || ShowsLife(e) }
  predicate IsLasting(e: RunEvent) { !e.Progress? }

  function TransportAfter(e: RunEvent): TransportState
    requires MovesTransport(e)
  {
    match e
    case Claimed(_, _) => TransportState.Starting
    case ChildStarted(_) => Connected
    case TransportEnded(state, _) => state
    case _ => Lost
  }

  /** The transport is where the newest event about it left it. */
  function TransportOf(log: Log): TransportState {
    match Newest(log, MovesTransport)
    case None => NotStarted
    case Some(s) => TransportAfter(s.event)
  }

  /** The provider's settled status if one is known since the claim, else the signs of life since then. */
  function ProviderOf(log: Log): ProviderState {
    match (Newest(log, IsClaimOrSettled), Newest(log, IsClaimOrLife))
    case (Some(s), life) =>
      if IsSettled(s.event) then s.event.status
      else if life.Some? && ShowsLife(life.value.event) then ProviderState.Running
      else ProviderState.Starting
    case (None, life) => if life.Some? then ProviderState.Running else Unknown
  }

  /** The newest progress report that came while the provider was not settled. */
  function NewestCounted(log: Log): Option<Stored> {
    if log == [] then None
    else if Last(log).event.Progress? && !IsTerminal(ProviderOf(Front(log))) then Some(Last(log))
    else NewestCounted(Front(log))
  }

  /** A cancellation counts when it is asked for before the owner let go of the run. */
  ghost predicate CancelledBeforeRelease(log: Log) {
    exists i | 0 <= i < |log| :: log[i].event.CancelRequested? && !Has(log[..i], IsRelease)
  }

  // ---------------------------------------------------------------- what the record means

  ghost predicate ClaimRead(log: Log, r: RunRecord) {
    && r.executionId == (match Newest(log, IsClaim) case None => None case Some(s) => Some(s.event.executionId))
    && r.supervisor == (match Newest(log, IsClaim) case None => None case Some(s) => Some(s.event.supervisor))
  }

  ghost predicate SessionRead(log: Log, r: RunRecord) {
    && r.sessionId == (match Newest(log, IsSession) case None => None case Some(s) => Some(s.event.sessionId))
    && r.turnId == (match Newest(log, IsTurn) case None => None case Some(s) => Some(s.event.turnId))
  }

  ghost predicate ReleaseRead(log: Log, r: RunRecord) {
    && r.ownerReleased == Has(log, IsRelease)
    && r.finishedAt == (match Newest(log, IsRelease) case None => None case Some(s) => Some(s.at))
  }

  ghost predicate TransportRead(log: Log, r: RunRecord) {
    r.transport == TransportOf(log)
  }

  ghost predicate EndRead(log: Log, r: RunRecord) {
    && r.errorCode == (match Newest(log, IsEnd) case None => None case Some(s) => s.event.errorCode)
    && r.child == (match Newest(log, IsChild) case None => None case Some(s) => Some(s.event.identity))
  }

  ghost predicate ProviderRead(log: Log, r: RunRecord) {
    && r.provider == ProviderOf(log)
    && (var s := Newest(log, IsClaimOrSettled);
        s.Some? && IsSettled(s.value.event) ==> IsTerminal(s.value.event.status))
  }

  ghost predicate ProgressRead(log: Log, r: RunRecord) {
    r.lastProgressAt == match NewestCounted(log) case None => None case Some(s) => Some(s.at)
  }

  ghost predicate SightingRead(log: Log, r: RunRecord) {
    && r.workspace == (match Newest(log, IsSighting) case None => NotObserved case Some(s) => s.event.observed)
    && r.verification == (match Newest(log, IsVerdict) case None => NotRequested case Some(s) => s.event.verdict)
  }

  ghost predicate DeadlineRead(log: Log, r: RunRecord) {
    r.deadlineExpired == match Newest(log, IsDeadline) case None => None case Some(s) => Some(s.event.deadline)
  }

  ghost predicate CountersRead(start: RunRecord, log: Log, r: RunRecord) {
    && r.header == start.header
    && r.lastHeartbeatAt == start.lastHeartbeatAt
    && r.revision == r.sequence == |log|
    && r.updatedAt == if log == [] then start.updatedAt else Last(log).at
  }

  /** How one accepted event moves each field. */
  lemma StepTexts(r: RunRecord, e: RunEvent, at: int)
    requires Transition(r, e, at).Ok?
    ensures var next := Transition(r, e, at).value;
            && next.errorCode == (if IsEnd(e) then e.errorCode else r.errorCode)
            && next.child == (if IsChild(e) then Some(e.identity) else r.child)
            && next.workspace == (if IsSighting(e) then e.observed else r.workspace)
            && next.verification == (if IsVerdict(e) then e.verdict else r.verification)
            && next.sessionId == (if IsSession(e) then Some(e.sessionId) else r.sessionId)
            && next.turnId == (if IsTurn(e) then Some(e.turnId) else r.turnId)
            && next.lastProgressAt == (if IsProgress(e) && !IsTerminal(r.provider) then Some(at) else r.lastProgressAt)
            && next.deadlineExpired == (if IsDeadline(e) then Some(e.deadline) else r.deadlineExpired)
  {
    hide Control.IsOpaque;
    hide BoundedCode;
  }

  lemma StepFlags(r: RunRecord, e: RunEvent, at: int)
    requires Transition(r, e, at).Ok?
    ensures var next := Transition(r, e, at).value;
            && next.transport == (if MovesTransport(e) then TransportAfter(e) else r.transport)
            && next.executionId == (if IsClaim(e) then Some(e.executionId) else r.executionId)
            && next.supervisor == (if IsClaim(e) then Some(e.supervisor) else r.supervisor)
            && next.ownerReleased == (r.ownerReleased || IsRelease(e))
            && next.finishedAt == (if IsRelease(e) then Some(at) else r.finishedAt)
            && next.cancellationRequested == (r.cancellationRequested || (IsCancel(e) && !r.ownerReleased))
  {
    hide Control.IsOpaque;
    hide BoundedCode;
  }

  lemma StepStates(r: RunRecord, e: RunEvent, at: int)
    requires Transition(r, e, at).Ok?
    ensures var next := Transition(r, e, at).value;
            && next.header == r.header && next.lastHeartbeatAt == r.lastHeartbeatAt
            && next.revision == r.revision && next.sequence == r.sequence
            && next.provider ==
                 (if IsSettled(e) then e.status
                  else if IsClaim(e) then ProviderState.Starting
                  else if ShowsLife(e) && !IsTerminal(r.provider) then ProviderState.Running
                  else r.provider)
    ensures IsSettled(e) ==> IsTerminal(e.status)
  {
    hide Control.IsOpaque;
    hide BoundedCode;
  }

  lemma StepFields(r: RunRecord, e: RunEvent, at: int)
    requires Apply(r, e, at).Ok?
    ensures var next := Apply(r, e, at).value;
            && next.errorCode == (if IsEnd(e) then e.errorCode else r.errorCode)
            && next.child == (if IsChild(e) then Some(e.identity) else r.child)
            && next.workspace == (if IsSighting(e) then e.observed else r.workspace)
            && next.verification == (if IsVerdict(e) then e.verdict else r.verification)
            && next.sessionId == (if IsSession(e) then Some(e.sessionId) else r.sessionId)
            && next.turnId == (if IsTurn(e) then Some(e.turnId) else r.turnId)
            && next.lastProgressAt == (if IsProgress(e) && !IsTerminal(r.provider) then Some(at) else r.lastProgressAt)
            && next.deadlineExpired == (if IsDeadline(e) then Some(e.deadline) else r.deadlineExpired)
    ensures var next := Apply(r, e, at).value;
            && next.transport == (if MovesTransport(e) then TransportAfter(e) else r.transport)
            && next.executionId == (if IsClaim(e) then Some(e.executionId) else r.executionId)
            && next.supervisor == (if IsClaim(e) then Some(e.supervisor) else r.supervisor)
            && next.ownerReleased == (r.ownerReleased || IsRelease(e))
            && next.finishedAt == (if IsRelease(e) then Some(at) else r.finishedAt)
            && next.cancellationRequested == (r.cancellationRequested || (IsCancel(e) && !r.ownerReleased))
    ensures var next := Apply(r, e, at).value;
            && next.header == r.header && next.lastHeartbeatAt == r.lastHeartbeatAt
            && next.revision == r.revision + 1 && next.sequence == r.sequence + 1 && next.updatedAt == at
    ensures Apply(r, e, at).value.provider ==
            (if IsSettled(e) then e.status
             else if IsClaim(e) then ProviderState.Starting
             else if ShowsLife(e) && !IsTerminal(r.provider) then ProviderState.Running
             else r.provider)
    ensures IsSettled(e) ==> IsTerminal(e.status)
  {
    StepTexts(r, e, at);
    StepFlags(r, e, at);
    StepStates(r, e, at);
    hide Transition;
  }

  lemma {:induction false} ClaimMeaning(start: RunRecord, log: Log)
    requires start == Prepared(start.header, start.updatedAt)
    requires Replay(start, log).Ok?
    ensures ClaimRead(log, Replay(start, log).value)
  {
    hide Apply;
    if log != [] {
      ClaimMeaning(start, Front(log));
      StepFields(Replay(start, Front(log)).value, Last(log).event, Last(log).at);
    }
  }

  lemma {:induction false} SessionMeaning(start: RunRecord, log: Log)
    requires start == Prepared(start.header, start.updatedAt)
    requires Replay(start, log).Ok?
    ensures SessionRead(log, Replay(start, log).value)
  {
    hide Apply;
    if log != [] {
      SessionMeaning(start, Front(log));
      StepFields(Replay(start, Front(log)).value, Last(log).event, Last(log).at);
    }
  }

  lemma {:induction false} ReleaseMeaning(start: RunRecord, log: Log)
    requires start == Prepared(start.header, start.updatedAt)
    requires Replay(start, log).Ok?
    ensures ReleaseRead(log, Replay(start, log).value)
  {
    hide Apply;
    if log != [] {
      ReleaseMeaning(start, Front(log));
      StepFields(Replay(start, Front(log)).value, Last(log).event, Last(log).at);
    }
  }

  lemma {:induction false} TransportMeaning(start: RunRecord, log: Log)
    requires start == Prepared(start.header, start.updatedAt)
    requires Replay(start, log).Ok?
    ensures TransportRead(log, Replay(start, log).value)
  {
    hide Apply;
    if log != [] {
      TransportMeaning(start, Front(log));
      StepFields(Replay(start, Front(log)).value, Last(log).event, Last(log).at);
    }
  }

  lemma {:induction false} EndMeaning(start: RunRecord, log: Log)
    requires start == Prepared(start.header, start.updatedAt)
    requires Replay(start, log).Ok?
    ensures EndRead(log, Replay(start, log).value)
  {
    hide Apply;
    if log != [] {
      EndMeaning(start, Front(log));
      StepFields(Replay(start, Front(log)).value, Last(log).event, Last(log).at);
    }
  }

  lemma {:induction false} ProviderMeaning(start: RunRecord, log: Log)
    requires start == Prepared(start.header, start.updatedAt)
    requires Replay(start, log).Ok?
    ensures ProviderRead(log, Replay(start, log).value)
  {
    hide Apply;
    if log != [] {
      ProviderMeaning(start, Front(log));
      StepFields(Replay(start, Front(log)).value, Last(log).event, Last(log).at);
      var e := Last(log).event;
      assert Newest(log, IsClaimOrSettled) ==
             if IsClaim(e) || IsSettled(e) then Some(Last(log)) else Newest(Front(log), IsClaimOrSettled);
      assert Newest(log, IsClaimOrLife) ==
             if IsClaim(e) || ShowsLife(e) then Some(Last(log)) else Newest(Front(log), IsClaimOrLife);
    }
  }

  lemma {:induction false} ProgressMeaning(start: RunRecord, log: Log)
    requires start == Prepared(start.header, start.updatedAt)
    requires Replay(start, log).Ok?
    ensures ProgressRead(log, Replay(start, log).value)
  {
    hide Apply;
    if log != [] {
      ProgressMeaning(start, Front(log));
      StepFields(Replay(start, Front(log)).value, Last(log).event, Last(log).at);
      ProviderMeaning(start, Front(log));
    }
  }

  lemma {:induction false} SightingMeaning(start: RunRecord, log: Log)
    requires start == Prepared(start.header, start.updatedAt)
    requires Replay(start, log).Ok?
    ensures SightingRead(log, Replay(start, log).value)
  {
    hide Apply;
    if log != [] {
      SightingMeaning(start, Front(log));
      StepFields(Replay(start, Front(log)).value, Last(log).event, Last(log).at);
    }
  }

  lemma {:induction false} DeadlineMeaning(start: RunRecord, log: Log)
    requires start == Prepared(start.header, start.updatedAt)
    requires Replay(start, log).Ok?
    ensures DeadlineRead(log, Replay(start, log).value)
  {
    hide Apply;
    if log != [] {
      DeadlineMeaning(start, Front(log));
      StepFields(Replay(start, Front(log)).value, Last(log).event, Last(log).at);
    }
  }

  lemma {:induction false} CountersMeaning(start: RunRecord, log: Log)
    requires start == Prepared(start.header, start.updatedAt)
    requires Replay(start, log).Ok?
    ensures CountersRead(start, log, Replay(start, log).value)
  {
    hide Apply;
    if log != [] {
      CountersMeaning(start, Front(log));
      StepFields(Replay(start, Front(log)).value, Last(log).event, Last(log).at);
    }
  }

  lemma {:induction false} CancelMeaning(start: RunRecord, log: Log)
    requires start == Prepared(start.header, start.updatedAt)
    requires Replay(start, log).Ok?
    ensures Replay(start, log).value.cancellationRequested <==> CancelledBeforeRelease(log)
  {
    hide Apply;
    if log != [] {
      CancelMeaning(start, Front(log));
      StepFields(Replay(start, Front(log)).value, Last(log).event, Last(log).at);
      ReleaseMeaning(start, Front(log));
      CancelGrows(log);
    }
  }

  /**
   * The fold of an accepted log from the prepared record answers, field by field, exactly what the
   * declarative queries over that log answer.
   */
  lemma RecordMeaning(start: RunRecord, log: Log)
    requires start == Prepared(start.header, start.updatedAt)
    requires Replay(start, log).Ok?
    ensures var r := Replay(start, log).value;
            && ClaimRead(log, r)
            && SessionRead(log, r)
            && ReleaseRead(log, r)
            && TransportRead(log, r)
            && EndRead(log, r)
            && ProviderRead(log, r)
            && ProgressRead(log, r)
            && SightingRead(log, r)
            && DeadlineRead(log, r)
            && CountersRead(start, log, r)
            && (r.cancellationRequested <==> CancelledBeforeRelease(log))
  {
    ClaimMeaning(start, log);
    SessionMeaning(start, log);
    ReleaseMeaning(start, log);
    TransportMeaning(start, log);
    EndMeaning(start, log);
    ProviderMeaning(start, log);
    ProgressMeaning(start, log);
    SightingMeaning(start, log);
    DeadlineMeaning(start, log);
    CountersMeaning(start, log);
    CancelMeaning(start, log);
  }

  lemma CancelGrows(log: Log)
    requires log != []
    ensures CancelledBeforeRelease(log) <==>
            CancelledBeforeRelease(Front(log)) ||
            (Last(log).event.CancelRequested? && !Has(Front(log), IsRelease))
  {
    assert forall i | 0 <= i < |log| - 1 :: Front(log)[..i] == log[..i];
    assert log[..|log| - 1] == Front(log);
    if CancelledBeforeRelease(Front(log)) {
      var i :| 0 <= i < |log| - 1 && Front(log)[i].event.CancelRequested? && !Has(Front(log)[..i], IsRelease);
      assert log[i].event.CancelRequested? && !Has(log[..i], IsRelease);
    }
    if Last(log).event.CancelRequested? && !Has(Front(log), IsRelease) {
      assert log[|log| - 1].event.CancelRequested? && !Has(log[..|log| - 1], IsRelease);
    }
  }

  // ---------------------------------------------------------------- nothing is taken back

  ghost predicate Keeps<T>(before: Option<T>, after: Option<T>) {
    before.Some? ==> after == before
  }

  /** What no event can undo. */
  ghost predicate Extends(r: RunRecord, later: RunRecord) {
    && later.header == r.header
    && Keeps(r.executionId, later.executionId)
    && Keeps(r.supervisor, later.supervisor)
    && Keeps(r.sessionId, later.sessionId)
    && Keeps(r.turnId, later.turnId)
    && (r.ownerReleased ==> later.ownerReleased)
    && (r.cancellationRequested ==> later.cancellationRequested)
    && (r.deadlineExpired.Some? ==> later.deadlineExpired.Some?)
    && (r.lastHeartbeatAt.Some? ==> later.lastHeartbeatAt.Some?)
    && r.updatedAt <= later.updatedAt
    && (r.executionId.Some? && IsTerminal(r.provider) ==> later.provider == r.provider)
  }

  /** A claim and its supervisor are written together. */
  ghost predicate Claimable(r: RunRecord) {
    r.executionId.Some? <==> r.supervisor.Some?
  }

  lemma StepIsBound(r: RunRecord, e: RunEvent, at: int)
    requires Transition(r, e, at).Ok?
    ensures IsSession(e) && r.sessionId.Some? ==> r.sessionId == Some(e.sessionId)
    ensures IsTurn(e) && r.turnId.Some? ==> r.turnId == Some(e.turnId)
    ensures IsClaim(e) ==> r.executionId.None?
    ensures IsSettled(e) && IsTerminal(r.provider) ==> r.provider == e.status
  {
    hide Control.IsOpaque;
    hide BoundedCode;
  }

  lemma StepExtends(r: RunRecord, e: RunEvent, at: int)
    requires Claimable(r) && Apply(r, e, at).Ok?
    ensures Extends(r, Apply(r, e, at).value) && Claimable(Apply(r, e, at).value)
  {
    StepFields(r, e, at);
    StepIsBound(r, e, at);
    assert r.updatedAt <= at;
    hide Apply;
  }

  /**
   * Over any accepted continuation of a run: ids are write-once, flags never clear, time never goes
   * back, and once the run is claimed a settled provider status is final.
   */
  lemma {:induction false} RunsOnlyExtend(r: RunRecord, log: Log)
    requires Claimable(r) && Replay(r, log).Ok?
    ensures Extends(r, Replay(r, log).value) && Claimable(Replay(r, log).value)
  {
    if log != [] {
      RunsOnlyExtend(r, Front(log));
      StepExtends(Replay(r, Front(log)).value, Last(log).event, Last(log).at);
    }
  }

  /** A claimed run whose provider completed is only ever waiting, being cancelled, verified or rejected. */
  lemma CompletedStates(r: RunRecord, log: Log)
    requires Claimable(r) && r.executionId.Some? && r.provider.Completed?
    requires Replay(r, log).Ok?
    ensures Replay(r, log).value.State() in
            {AwaitingVerification, RunState.CancelRequested, Verified, VerificationFailed}
  {
    RunsOnlyExtend(r, log);
  }

  lemma TransitionIgnoresHeartbeat(r: RunRecord, e: RunEvent, at: int, beat: Option<int>)
    ensures Transition(r.(lastHeartbeatAt := beat), e, at) ==
            match Transition(r, e, at) { case Err(f) => Err(f) case Ok(next) => Ok(next.(lastHeartbeatAt := beat)) }
  {
    hide Control.IsOpaque;
    hide BoundedCode;
  }

  lemma StepIgnoresHeartbeat(r: RunRecord, e: RunEvent, at: int, beat: Option<int>)
    ensures Apply(r.(lastHeartbeatAt := beat), e, at) ==
            match Apply(r, e, at) { case Err(f) => Err(f) case Ok(next) => Ok(next.(lastHeartbeatAt := beat)) }
  {
    TransitionIgnoresHeartbeat(r, e, at, beat);
    hide Transition;
  }

  /** At most one claim is ever accepted. */
  lemma {:induction false} SingleClaim(start: RunRecord, log: Log)
    requires Replay(start, log).Ok?
    ensures forall i, j | 0 <= i < j < |log| :: !(log[i].event.Claimed? && log[j].event.Claimed?)
    ensures (exists i | 0 <= i < |log| :: log[i].event.Claimed?) ==> Replay(start, log).value.executionId.Some?
    ensures start.executionId.Some? ==> forall i | 0 <= i < |log| :: !log[i].event.Claimed?
    ensures start.executionId.Some? ==> Replay(start, log).value.executionId.Some?
  {
    if log != [] {
      SingleClaim(start, Front(log));
      assert forall i | 0 <= i < |log| - 1 :: Front(log)[i] == log[i];
    }
  }

  /** Whatever session or turn was ever bound is the one the record names at the end. */
  lemma {:induction false} BindingsStay(start: RunRecord, log: Log, i: nat)
    requires Replay(start, log).Ok? && i < |log|
    ensures log[i].event.SessionBound? ==> Replay(start, log).value.sessionId == Some(log[i].event.sessionId)
    ensures log[i].event.TurnBound? ==> Replay(start, log).value.turnId == Some(log[i].event.turnId)
  {
    if i < |log| - 1 {
      BindingsStay(start, Front(log), i);
    }
  }
}
