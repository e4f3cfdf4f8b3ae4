/** The durable run record and its event step: evidence about a run, never a replay of it. */
module Durable {
  import opened Prelude
  import opened Control
  import Json

  const MAX_EVENTS: nat := 2048

  datatype DeadlineKind = Handshake | Session | Idle | Absolute

  datatype DeadlinePolicy = DeadlinePolicy(
    handshakeSeconds: nat,
    sessionSeconds: nat,
    idleSeconds: nat,
    absoluteSeconds: nat,
    cancellationGraceSeconds: nat,
    reconciliationSeconds: nat)

  datatype TransportState = NotStarted | Starting | Connected | Exited | TimedOut | Lost | Cancelled

  datatype ProviderState =
    Unknown | Starting | Running | Completed | Failed | Interrupted | AuthenticationRequired

  datatype WorkspaceState = NotObserved | Unchanged | Changed | Unexpected | Unavailable

  datatype VerificationState = NotRequested | Pending | Passed | Failed | Stale | Unavailable

  datatype RunState =
    | Planned
    | Starting
    | Running
    | CancelRequested
    | ReconciliationRequired
    | AwaitingVerification
    | ProgressConfirmed
    | Verified
    | VerificationFailed
    | Failed
    | Cancelled

  datatype ProcessIdentity = ProcessIdentity(pid: nat, birth: string, host: string)

  /** Facts fixed when the run is prepared; no event touches them. */
  datatype RunHeader = RunHeader(
    id: string,
    planId: string,
    projectId: string,
    adapter: string,
    workspaceId: string,
    deadlines: DeadlinePolicy,
    createdAt: int)

  datatype RunRecord = RunRecord(
    header: RunHeader,
    executionId: Option<string>,
    supervisor: Option<ProcessIdentity>,
    child: Option<ProcessIdentity>,
    sessionId: Option<string>,
    turnId: Option<string>,
    transport: TransportState,
    provider: ProviderState,
    workspace: WorkspaceState,
    verification: VerificationState,
    updatedAt: int,
    lastHeartbeatAt: Option<int>,
    lastProgressAt: Option<int>,
    finishedAt: Option<int>,
    cancellationRequested: bool,
    ownerReleased: bool,
    revision: nat,
    sequence: nat,
    errorCode: Option<string>,
    deadlineExpired: Option<DeadlineKind>)
  {
    function State(): RunState {
      if cancellationRequested && executionId.None? then RunState.Cancelled
      else if verification.Passed? then
        (if provider.Completed? then Verified else ProgressConfirmed)
      else if verification == VerificationState.Failed then VerificationFailed
      else if cancellationRequested && !ownerReleased then RunState.CancelRequested
      else if provider.Completed? then AwaitingVerification
      else if provider == ProviderState.Failed || provider.AuthenticationRequired? then RunState.Failed
      else if provider.Interrupted? && transport == TransportState.Cancelled then RunState.Cancelled
      else if workspace.Changed? && ownerReleased then ProgressConfirmed
      else if ownerReleased || transport in {TimedOut, Lost, TransportState.Cancelled} then ReconciliationRequired
      else
        match transport
        case NotStarted => Planned
        case Starting => RunState.Starting
        case _ => RunState.Running
    }
  }

  datatype RunEvent =
    | DeadlineExceeded(deadline: DeadlineKind)
    | Claimed(supervisor: ProcessIdentity, executionId: string)
    | ChildStarted(identity: ProcessIdentity)
    | SessionBound(sessionId: string)
    | TurnBound(turnId: string)
    | Progress
    | ProviderTerminal(status: ProviderState)
    | TransportEnded(state: TransportState, errorCode: Option<string>)
    | CancelRequested
    | Recovered(supervisorGone: bool)
    | WorkspaceObserved(observed: WorkspaceState)
    | Verification(verdict: VerificationState)
    | Reconciled(status: ProviderState)

  datatype Fault =
    | InvalidTime
    | ClockRegression
    | AlreadyClaimed
    | IdInvalid
    | SessionChanged
    | SessionRequired
    | TurnChanged
    | TerminalRequired
    | TerminalConflict
    | TransportEndRequired
    | ErrorCodeInvalid
    | RevisionOverflow
    | SequenceOverflow

  predicate BoundedCode(s: string) {
    && 0 < |s| <= 96
    && forall c | c in s :: 'A' <= c <= 'Z' || IsDigit(c) || c == '_'
  }

  predicate IsTerminal(p: ProviderState) {
    p.Completed? || p == ProviderState.Failed || p.Interrupted? || p.AuthenticationRequired?
  }

  predicate EndsTransport(t: TransportState) {
    t in {Exited, Lost, TimedOut, TransportState.Cancelled}
  }

  /** The record before anything happened to the run. */
  function Prepared(header: RunHeader, updatedAt: int): RunRecord {
    RunRecord(header, None, None, None, None, None, NotStarted, Unknown, NotObserved, NotRequested,
              updatedAt, None, None, None, false, false, 0, 0, None, None)
  }

  /** What one event does to the record, before the revision counters move. */
  function Transition(r: RunRecord, e: RunEvent, at: int): Result<RunRecord, Fault> {
    match e
    case DeadlineExceeded(deadline) => Ok(r.(deadlineExpired := Some(deadline)))
    case Claimed(supervisor, executionId) =>
      if r.executionId.Some? then Err(AlreadyClaimed)
      else Ok(r.(supervisor := Some(supervisor), executionId := Some(executionId),
                 transport := TransportState.Starting, provider := ProviderState.Starting))
    case ChildStarted(identity) => Ok(r.(child := Some(identity), transport := Connected))
    case SessionBound(sessionId) =>
      if !IsOpaque(sessionId) then Err(IdInvalid)
      else if r.sessionId.Some? && r.sessionId.value != sessionId then Err(SessionChanged)
      else Ok(r.(sessionId := Some(sessionId)))
    case TurnBound(turnId) =>
      if !IsOpaque(turnId) then Err(IdInvalid)
      else if r.sessionId.None? then Err(SessionRequired)
      else if r.turnId.Some? && r.turnId.value != turnId then Err(TurnChanged)
      else Ok(r.(turnId := Some(turnId),
                 provider := if IsTerminal(r.provider) then r.provider else ProviderState.Running))
    case Progress =>
      if IsTerminal(r.provider) then Ok(r)
      else Ok(r.(provider := ProviderState.Running, lastProgressAt := Some(at)))
    case ProviderTerminal(status) => Settle(r, status)
    case Reconciled(status) => Settle(r, status)
    case TransportEnded(state, errorCode) =>
      if !EndsTransport(state) then Err(TransportEndRequired)
      else if errorCode.Some? && !BoundedCode(errorCode.value) then Err(ErrorCodeInvalid)
      else Ok(r.(transport := state, errorCode := errorCode, ownerReleased := true, finishedAt := Some(at)))
    case CancelRequested =>
      Ok(r.(cancellationRequested := r.cancellationRequested || !r.ownerReleased))
    case Recovered(gone) =>
      if gone then Ok(r.(ownerReleased := true, transport := Lost, finishedAt := Some(at))) else Ok(r)
    case WorkspaceObserved(observed) => Ok(r.(workspace := observed))
    case Verification(verdict) => Ok(r.(verification := verdict))
  }

  function Settle(r: RunRecord, status: ProviderState): Result<RunRecord, Fault> {
    if !IsTerminal(status) then Err(TerminalRequired)
    else if IsTerminal(r.provider) && r.provider != status then Err(TerminalConflict)
    else Ok(r.(provider := status))
  }

  /** One accepted or refused event. */
  function Apply(r: RunRecord, e: RunEvent, at: int): Result<RunRecord, Fault> {
    if !IsTimestamp(at) then Err(InvalidTime)
    else if at < r.updatedAt then Err(ClockRegression)
    else
      match Transition(r, e, at)
      case Err(fault) => Err(fault)
      case Ok(next) =>
        if next.revision >= U64_MAX then Err(RevisionOverflow)
        else if next.sequence >= U64_MAX then Err(SequenceOverflow)
        else Ok(next.(updatedAt := at, revision := next.revision + 1, sequence := next.sequence + 1))
  }

  /** The record held in place while an event is applied to it. */
  class RunCell {
    var record: RunRecord

    constructor (record: RunRecord)
      ensures this.record == record
    {
      this.record := record;
    }

    /** The arms of the event step, each changing only the fields the event speaks about. */
    method Transit(e: RunEvent, at: int) returns (fault: Option<Fault>)
      modifies this
      ensures match Transition(old(record), e, at)
              case Ok(next) => fault == None && record == next
              case Err(reason) => fault == Some(reason) && record == old(record)
    {
      match e {
        case DeadlineExceeded(deadline) =>
          record := record.(deadlineExpired := Some(deadline));
        case Claimed(supervisor, executionId) =>
          if record.executionId.Some? {
            return Some(AlreadyClaimed);
          }
          record := record.(supervisor := Some(supervisor), executionId := Some(executionId));
          record := record.(transport := TransportState.Starting);
          record := record.(provider := ProviderState.Starting);
        case ChildStarted(identity) =>
          record := record.(child := Some(identity));
          record := record.(transport := Connected);
        case SessionBound(sessionId) =>
          if !IsOpaque(sessionId) {
            return Some(IdInvalid);
          }
          if record.sessionId.Some? && record.sessionId.value != sessionId {
            return Some(SessionChanged);
          }
          record := record.(sessionId := Some(sessionId));
        case TurnBound(turnId) =>
          if !IsOpaque(turnId) {
            return Some(IdInvalid);
          }
          if record.sessionId.None? {
            return Some(SessionRequired);
          }
          if record.turnId.Some? && record.turnId.value != turnId {
            return Some(TurnChanged);
          }
          record := record.(turnId := Some(turnId));
          if !IsTerminal(record.provider) {
            record := record.(provider := ProviderState.Running);
          }
        case Progress =>
          if !IsTerminal(record.provider) {
            record := record.(provider := ProviderState.Running);
            record := record.(lastProgressAt := Some(at));
          }
        case ProviderTerminal(status) =>
          var settled := Settle(record, status);
          if settled.Err? {
            return Some(settled.error);
          }
          record := settled.value;
        case Reconciled(status) =>
          var settled := Settle(record, status);
          if settled.Err? {
            return Some(settled.error);
          }
          record := settled.value;
        case TransportEnded(state, errorCode) =>
          if !EndsTransport(state) {
            return Some(TransportEndRequired);
          }
          if errorCode.Some? && !BoundedCode(errorCode.value) {
            return Some(ErrorCodeInvalid);
          }
          record := record.(transport := state, errorCode := errorCode);
          record := record.(ownerReleased := true);
          record := record.(finishedAt := Some(at));
        case CancelRequested =>
          if !record.ownerReleased {
            record := record.(cancellationRequested := true);
          }
        case Recovered(gone) =>
          if gone {
            record := record.(ownerReleased := true);
            record := record.(transport := Lost);
            record := record.(finishedAt := Some(at));
          }
        case WorkspaceObserved(observed) =>
          record := record.(workspace := observed);
        case Verification(verdict) =>
          record := record.(verification := verdict);
      }
      return None;
    }

    /** Applies an event in place; only a counter overflow can leave a partial change behind a refusal. */
    method ApplyEvent(e: RunEvent, at: int) returns (fault: Option<Fault>)
      modifies this
      ensures match Apply(old(record), e, at)
              case Ok(next) => fault == None && record == next
              case Err(reason) => fault == Some(reason)
      ensures fault.Some? && !fault.value.RevisionOverflow? && !fault.value.SequenceOverflow? ==> record == old(record)
    {
      if !IsTimestamp(at) {
        return Some(InvalidTime);
      }
      if at < record.updatedAt {
        return Some(ClockRegression);
      }
      fault := Transit(e, at);
      if fault.Some? {
        return;
      }
      record := record.(updatedAt := at);
      if record.revision >= U64_MAX {
        return Some(RevisionOverflow);
      }
      record := record.(revision := record.revision + 1);
      if record.sequence >= U64_MAX {
        return Some(SequenceOverflow);
      }
      record := record.(sequence := record.sequence + 1);
      return None;
    }
  }

  // ---------------------------------------------------------------- provider reconciliation

  datatype ReconcileFault = ThreadMissing | ThreadMismatch | TurnLimit | DuplicateTurn

  predicate IsTurn(item: Json.Value, turn: string) {
    Json.AsString(Json.Get(item, "id")) == Some(turn)
  }

  function TurnStatus(item: Json.Value): Option<ProviderState> {
    match Json.AsString(Json.Get(item, "status"))
    case Some("completed") => Some(Completed)
    case Some("failed") => Some(ProviderState.Failed)
    case Some("interrupted") => Some(Interrupted)
    case _ => None
  }

  /** The three words a listed turn can have ended with, and what they mean. */
  predicate IsStatusOf(item: Json.Value, status: Option<ProviderState>) {
    var word := Json.Get(item, "status");
    && (status == Some(Completed) <==> word == Some(Json.Str("completed")))
    && (status == Some(ProviderState.Failed) <==> word == Some(Json.Str("failed")))
    && (status == Some(Interrupted) <==> word == Some(Json.Str("interrupted")))
    && status in {Some(Completed), Some(ProviderState.Failed), Some(Interrupted), None}
  }

  /** The positions at which the requested turn is listed. */
  function TurnPositions(items: seq<Json.Value>, turn: string): (found: set<nat>)
    ensures forall i :: i in found <==> 0 <= i < |items| && Json.Get(items[i], "id") == Some(Json.Str(turn))
  {
    set i | 0 <= i < |items| && IsTurn(items[i], turn)
  }

  /**
   * Reads the status of one exact turn from a thread listing. A status is reported only for a
   * turn that is listed exactly once, and a second listing is refused whatever the statuses say.
   */
  method CodexTurnStatus(value: Json.Value, session: string, turn: string)
    returns (res: Result<Option<ProviderState>, ReconcileFault>)
    ensures Json.Get(value, "thread").None? <==> res == Err(ThreadMissing)
    ensures Json.Get(value, "thread").Some? ==>
              (res == Err(ThreadMismatch) <==> Json.StringAt(value, ["thread", "id"]) != Some(session))
    ensures Json.StringAt(value, ["thread", "id"]) == Some(session) ==>
              match Json.At(value, ["thread", "turns"])
              case Some(Array(items)) =>
                var found := TurnPositions(items, turn);
                && (res == Err(TurnLimit) <==> |items| > 4096)
                && (|items| <= 4096 ==>
                      && (res == Err(DuplicateTurn) <==> exists i, j :: i in found && j in found && i != j)
                      && (found == {} ==> res == Ok(None))
                      && (forall i :: found == {i} ==> res.Ok? && IsStatusOf(items[i], res.value)))
              case _ => res == Ok(None)
  {
    var thread := Json.Get(value, "thread");
    assert Json.At(value, ["thread", "id"]) == if thread.None? then None else Json.Get(thread.value, "id") by {
      ThreadField(value, "id");
    }
    assert Json.At(value, ["thread", "turns"]) == if thread.None? then None else Json.Get(thread.value, "turns") by {
      ThreadField(value, "turns");
    }
    if thread.None? {
      return Err(ThreadMissing);
    }
    if Json.AsString(Json.Get(thread.value, "id")) != Some(session) {
      return Err(ThreadMismatch);
    }
    var turns := Json.Get(thread.value, "turns");
    if turns.None? || !turns.value.Array? {
      return Ok(None);
    }
    var items := turns.value.items;
    if |items| > 4096 {
      return Err(TurnLimit);
    }
    var found: Option<Option<ProviderState>> := None;
    ghost var hit: nat := 0;
    for i := 0 to |items|
      invariant found.None? ==> forall k | 0 <= k < i :: !IsTurn(items[k], turn)
      invariant found.Some? ==>
                  && hit < i && IsTurn(items[hit], turn) && found.value == TurnStatus(items[hit])
                  && forall k | 0 <= k < i && k != hit :: !IsTurn(items[k], turn)
    {
      if !IsTurn(items[i], turn) {
        continue;
      }
      if found.Some? {
        assert hit in TurnPositions(items, turn) && i in TurnPositions(items, turn);
        return Err(DuplicateTurn);
      }
      found := Some(TurnStatus(items[i]));
      hit := i;
    }
    if found.None? {
      return Ok(None);
    }
    assert hit in TurnPositions(items, turn);
    return Ok(found.value);
  }

  lemma ThreadField(value: Json.Value, field: string)
    ensures Json.At(value, ["thread", field]) ==
            match Json.Get(value, "thread") { case None => None case Some(t) => Json.Get(t, field) }
  {
    assert ["thread", field][1..] == [field];
    assert [field][1..] == [];
    var t := Json.Get(value, "thread");
    if t.Some? {
      assert Json.At(t.value, [field]) == Json.Get(t.value, field);
    }
  }
}
