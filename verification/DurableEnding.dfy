/**
 * How runs end while other processes keep stepping: what the end of a run stores, when a cancellation
 * shows in it, and what a recovery pass over an old listing does to it.
 */
module DurableEnding {
  import opened Prelude
  import opened Control
  import opened Durable
  import opened DurableLog
  import opened DurableStore
  import opened DurableHistory
  import opened DurableGuards
  import opened DurableRuntime
  import opened DurableSupervision
  import Json

  // ---------------------------------------------------------------- the recorded end

  /**
   * The end of a run with other processes stepping between its read and its two transactions. Both
   * events are chosen from the record that was read.
   */
  function FinishAmid(
    db: Db, id: string, result: RunResult, first: seq<Op>, second: seq<Op>, settleAt: int, endAt: int)
    : (Db, Option<StoreFault>)
  {
    match Read(db, id)
    case Err(f) => (db, Some(f))
    case Ok(r) =>
      var current := Execute(db, first);
      var settled :=
        if SettlesFirst(r, result) then Event(current, id, ProviderTerminal(Completed), settleAt)
        else Ok(Commit(current, Skipped));
      match settled
      case Err(f) => (current, Some(f))
      case Ok(c) =>
        var latest := Execute(c.db, second);
        match Event(latest, id, EndEvent(r, result), endAt)
        case Err(f) => (latest, Some(f))
        case Ok(ended) => (ended.db, None)
  }

  lemma FinishIsUninterrupted(db: Db, id: string, result: RunResult, settleAt: int, endAt: int)
    ensures Finish(db, id, result, settleAt, endAt) == FinishAmid(db, id, result, [], [], settleAt, endAt)
  {
    hide Event;
    hide SettlesFirst;
    hide EndEvent;
  }

  lemma ReadIsPayload(db: Db, id: string)
    requires Inv(db) && id in db.runs
    ensures Read(db, id) == Ok(db.runs[id].payload)
  {
    hide Replay;
    assert RunInv(db, id);
  }

  lemma OthersKeepRun(db: Db, ops: seq<Op>, id: string)
    requires Inv(db) && AllIssued(ops) && id in db.runs
    ensures Inv(Execute(db, ops)) && id in Execute(db, ops).runs
  {
    hide Inv;
    hide Execute;
    EveryInterleaving(db, ops);
    RunsGrow(db, ops, id);
  }

  lemma EndMeans(r: RunRecord, e: RunEvent, now: int)
    requires e.TransportEnded? && Apply(r, e, now).Ok?
    ensures var next := Apply(r, e, now).value;
            && next.transport == e.state && next.ownerReleased && next.finishedAt == Some(now)
            && next.cancellationRequested == r.cancellationRequested && next.executionId == r.executionId
  {
  }

  /** The last step of the end: whatever happened since the read, its own judgement is what gets stored. */
  lemma EndEventIsStored(latest: Db, id: string, r: RunRecord, result: RunResult, endAt: int)
    requires Inv(latest) && id in latest.runs && Event(latest, id, EndEvent(r, result), endAt).Ok?
    ensures var after := Event(latest, id, EndEvent(r, result), endAt).value.db;
            && Inv(after) && id in after.runs
            && var end, was := after.runs[id].payload, latest.runs[id].payload;
            && end.transport == EndState(r, result) && end.ownerReleased && end.finishedAt == Some(endAt)
            && end.cancellationRequested == was.cancellationRequested && end.executionId == was.executionId
            && LogOf(after, id) == LogOf(latest, id) + [Stored(|LogOf(latest, id)| + 1, endAt, EndEvent(r, result))]
            && Apply(was, EndEvent(r, result), endAt) == Ok(end)
  {
    hide Event;
    hide Inv;
    hide Apply;
    hide EndState;
    EventMeaning(latest, id, EndEvent(r, result), endAt);
    EndMeans(latest.runs[id].payload, EndEvent(r, result), endAt);
  }

  /** Whether the record an end reads makes it a cancellation. */
  predicate ReadsAsCancelled(r: RunRecord, result: RunResult) {
    && r.deadlineExpired.None?
    && ((r.cancellationRequested && !r.provider.Completed?) || result == Err("DURABLE_CANCEL_REQUESTED"))
  }

  /** Whether the record an end reads makes it a timeout. */
  predicate ReadsAsTimedOut(r: RunRecord, result: RunResult) {
    || r.deadlineExpired.Some?
    || (!ReadsAsCancelled(r, result) && result.Err? && Contains(result.error, "TIMEOUT"))
  }

  /**
   * An accepted end stores the state judged on the record it read, whatever other processes did since:
   * a stored cancellation shows as one exactly when the read saw it before the provider completed and
   * without a deadline, or the result itself is the cancel code; a timeout likewise.
   */
  lemma EndIsRecorded(
    db: Db, id: string, result: RunResult, first: seq<Op>, second: seq<Op>, settleAt: int, endAt: int)
    requires Inv(db) && id in db.runs && AllIssued(first) && AllIssued(second)
    requires FinishAmid(db, id, result, first, second, settleAt, endAt).1.None?
    ensures var r, after := db.runs[id].payload, FinishAmid(db, id, result, first, second, settleAt, endAt).0;
            && Inv(after) && id in after.runs
            && var end, log := after.runs[id].payload, LogOf(after, id);
            && end.ownerReleased && end.finishedAt == Some(endAt)
            && log != [] && Last(log).event == EndEvent(r, result)
            && (end.transport == TransportState.Cancelled <==> ReadsAsCancelled(r, result))
            && (end.transport == TimedOut <==> ReadsAsTimedOut(r, result))
            && (end.transport == Exited <==> result.Ok? && !ReadsAsCancelled(r, result) && !ReadsAsTimedOut(r, result))
  {
    hide Event;
    hide Inv;
    hide Execute;
    hide AllIssued;
    hide Contains;
    hide SettlesFirst;
    ReadIsPayload(db, id);
    OthersKeepRun(db, first, id);
    var r, current := db.runs[id].payload, Execute(db, first);
    EventMeaning(current, id, ProviderTerminal(Completed), settleAt);
    var between :=
      if SettlesFirst(r, result) then Event(current, id, ProviderTerminal(Completed), settleAt).value.db
      else current;
    OthersKeepRun(between, second, id);
    EndEventIsStored(Execute(between, second), id, r, result, endAt);
  }

  /** A result that says the provider completed the turn. */
  predicate SaysCompleted(result: RunResult) {
    && result.Ok?
    && (Json.At(result.value, ["continuation", "completed"]) == Some(Json.Bool(true))
        || Json.StringAt(result.value, ["continuation", "turn_status"]) == Some("completed"))
  }

  /**
   * The end of a run appends at most two events: a completion if the result reports one the row does not
   * have yet, and the end with the error code of the result.
   */
  lemma FinishAppends(db: Db, id: string, result: RunResult, settleAt: int, endAt: int)
    requires Inv(db) && id in db.runs && Finish(db, id, result, settleAt, endAt).1.None?
    ensures var r, log, after := db.runs[id].payload, LogOf(db, id), Finish(db, id, result, settleAt, endAt).0;
            var settles := SaysCompleted(result) && !IsFinal(r.provider);
            && id in after.runs
            && after.runs[id].payload.provider == (if settles then Completed else r.provider)
            && after.runs[id].payload.errorCode == (if result.Ok? then None else Some(result.error))
            && |LogOf(after, id)| == |log| + (if settles then 2 else 1)
            && (settles ==>
                  LogOf(after, id)[..|log| + 1] == log + [Stored(|log| + 1, settleAt, ProviderTerminal(Completed))])
            && var end := after.runs[id].payload;
               Last(LogOf(after, id)) == Stored(|LogOf(after, id)|, endAt, TransportEnded(end.transport, end.errorCode))
  {
    hide Event;
    hide Inv;
    hide Apply;
    hide EndState;
    hide LogOf;
    hide Json.At;
    hide Json.StringAt;
    ReadIsPayload(db, id);
    var r := db.runs[id].payload;
    EventMeaning(db, id, ProviderTerminal(Completed), settleAt);
    var mid := if SettlesFirst(r, result) then Event(db, id, ProviderTerminal(Completed), settleAt).value.db else db;
    if SettlesFirst(r, result) {
      StepFields(r, ProviderTerminal(Completed), settleAt);
    }
    EndEventIsStored(mid, id, r, result, endAt);
    StepFields(mid.runs[id].payload, EndEvent(r, result), endAt);
  }

  /**
   * From the stop to the tables: after any acts of the monitor and any steps of others, an end that is
   * accepted stores a timeout for a timeout code, whatever the result, and for the cancel code a
   * cancellation, unless the provider had completed and the result is not the code itself.
   */
  lemma StopDecidesTheEnd(
    w: World, acts: seq<Act>, more: seq<Op>, code: StopCode, result: RunResult, first: seq<Op>, second: seq<Op>,
    settleAt: int, endAt: int)
    requires WorldInv(w) && AllFair(w, acts)
    requires forall op | op in more :: Foreign(op, w.mon.id)
    requires AllIssued(first) && AllIssued(second)
    requires Play(w, acts).mon.stopCode == Some(code)
    requires FinishAmid(Execute(Play(w, acts).db, more), w.mon.id, result, first, second, settleAt, endAt).1.None?
    ensures var db := Execute(Play(w, acts).db, more);
            var after := FinishAmid(db, w.mon.id, result, first, second, settleAt, endAt).0;
            && w.mon.id in db.runs && w.mon.id in after.runs
            && var transport := after.runs[w.mon.id].payload.transport;
            && (!code.CancelCode? ==> transport == TimedOut)
            && (code.CancelCode? ==>
                  (transport == TransportState.Cancelled <==>
                   !db.runs[w.mon.id].payload.provider.Completed? || result == Err(CodeText(CancelCode))))
            && (result == Err(CodeText(code)) ==>
                  transport == if code.CancelCode? then TransportState.Cancelled else TimedOut)
  {
    hide Inv;
    hide FinishAmid;
    hide Play;
    hide Execute;
    hide AllFair;
    hide Contains;
    PlayKeepsDecision(w, acts);
    ForeignRun(Play(w, acts).db, more, w.mon.id);
    EndIsRecorded(Execute(Play(w, acts).db, more), w.mon.id, result, first, second, settleAt, endAt);
  }

  // ---------------------------------------------------------------- a cancellation the end does not see

  lemma CancelAccepted(db: Db, id: string, now: int)
    requires Inv(db) && id in db.runs && HasRoom(db.runs[id].payload, now)
    requires !db.runs[id].payload.ownerReleased && !db.runs[id].payload.cancellationRequested
    ensures var r, cancelled := db.runs[id].payload, Cancel(db, id, db.runs[id].payload.revision, now);
            && cancelled.Ok? && cancelled.value.db == Step(db, CancelOp(id, r.revision, now))
            && var after := cancelled.value.db;
            && Inv(after) && id in after.runs
            && after.runs[id].payload.cancellationRequested
            && Apply(r, RunEvent.CancelRequested, now) == Ok(after.runs[id].payload)
  {
    hide Apply;
    hide Update;
    hide RunInv;
    hide ClaimsMatch;
    var r := db.runs[id].payload;
    CountersFit(db, id);
    StepAccepts(r, RunEvent.CancelRequested, now);
    UpdateAccepted(db, id, RunEvent.CancelRequested, now);
    UpdateShape(db, id, RunEvent.CancelRequested, now);
    ApplyFacts(r, RunEvent.CancelRequested, now);
    CancelKeepsInv(db, id, r.revision, now);
  }

  lemma SettleAccepted(db: Db, id: string, now: int)
    requires Inv(db) && id in db.runs && HasRoom(db.runs[id].payload, now)
    requires !IsTerminal(db.runs[id].payload.provider)
    ensures Event(db, id, ProviderTerminal(Completed), now).Ok?
    ensures Apply(db.runs[id].payload, ProviderTerminal(Completed), now).Ok?
  {
    hide Update;
    hide RunInv;
    hide ClaimsMatch;
    CountersFit(db, id);
    UpdateAccepted(db, id, ProviderTerminal(Completed), now);
  }

  lemma CancelKeepsProvider(r: RunRecord, now: int)
    requires Apply(r, RunEvent.CancelRequested, now).Ok?
    ensures Apply(r, RunEvent.CancelRequested, now).value.provider == r.provider
  {
  }

  lemma LateCancelState(r: RunRecord)
    requires r.cancellationRequested && r.executionId.Some? && r.ownerReleased && r.transport == Exited
    ensures r.State() !in {RunState.Cancelled, RunState.CancelRequested}
  {
  }

  /**
   * A cancellation that commits after the read is accepted and kept, but the run ends as an ordinary
   * exit: so it goes for every claimed run that is open, not stopped and has room in its log.
   */
  lemma LateCancelIsMissed(db: Db, id: string, v: Json.Value, cancelAt: int, settleAt: int, endAt: int)
    requires Inv(db) && id in db.runs
    requires var r := db.runs[id].payload;
             && r.executionId.Some? && !r.ownerReleased && !r.cancellationRequested && r.deadlineExpired.None?
             && r.sequence + (if SettlesFirst(r, Ok(v)) then 3 else 2) <= MAX_EVENTS
             && r.updatedAt <= cancelAt <= endAt && (SettlesFirst(r, Ok(v)) ==> cancelAt <= settleAt <= endAt)
    requires IsTimestamp(cancelAt) && IsTimestamp(endAt)
    ensures var late := [CancelOp(id, db.runs[id].payload.revision, cancelAt)];
            var (after, fault) := FinishAmid(db, id, Ok(v), late, [], settleAt, endAt);
            && fault.None? && id in after.runs
            && var end := after.runs[id].payload;
            && end.cancellationRequested && end.transport == Exited
            && end.State() !in {RunState.Cancelled, RunState.CancelRequested}
  {
    hide Event;
    hide Cancel;
    hide Inv;
    hide Apply;
    hide Step;
    hide SaysEnded;
    var r := db.runs[id].payload;
    var late := [CancelOp(id, r.revision, cancelAt)];
    ReadIsPayload(db, id);
    CancelAccepted(db, id, cancelAt);
    ApplyFacts(r, RunEvent.CancelRequested, cancelAt);
    CancelKeepsProvider(r, cancelAt);
    var current := Step(db, late[0]);
    assert late[..0] == [] && Execute(db, late) == current;
    var between := current;
    if SettlesFirst(r, Ok(v)) {
      SettleAccepted(current, id, settleAt);
      EventMeaning(current, id, ProviderTerminal(Completed), settleAt);
      ApplyFacts(current.runs[id].payload, ProviderTerminal(Completed), settleAt);
      between := Event(current, id, ProviderTerminal(Completed), settleAt).value.db;
    }
    EventAccepted(between, id, EndEvent(r, Ok(v)), endAt);
    EndEventIsStored(between, id, r, Ok(v), endAt);
    LateCancelState(Event(between, id, EndEvent(r, Ok(v)), endAt).value.db.runs[id].payload);
  }

  /** An ended run keeps the transport it ended with for as long as nothing else moves the transport. */
  lemma EndStays(start: RunRecord, log: Log, k: nat)
    requires start == Prepared(start.header, start.updatedAt)
    requires Replay(start, log).Ok? && k < |log| && log[k].event.TransportEnded?
    requires forall j | k < j < |log| :: !MovesTransport(log[j].event)
    ensures Replay(start, log).value.transport == log[k].event.state
  {
    TransportMeaning(start, log);
    NewestMeaning(log, MovesTransport);
  }

  // ---------------------------------------------------------------- recovery

  /** What a recovery makes of a run. */
  predicate IsReleased(r: RunRecord, epoch: int) {
    r.ownerReleased && r.transport == Lost && r.finishedAt == Some(epoch)
  }

  lemma GoneMeans(r: RunRecord, now: int)
    requires Apply(r, GONE, now).Ok?
    ensures var next := Apply(r, GONE, now).value;
            next.ownerReleased && next.transport == Lost && next.finishedAt == Some(now)
  {
  }

  /** One release: accepted exactly when the row has room, and it touches that row alone. */
  lemma GoneTouchesOne(db: Db, id: string, epoch: int)
    requires Inv(db) && id in db.runs
    ensures Event(db, id, GONE, epoch).Ok? <==> HasRoom(db.runs[id].payload, epoch)
    ensures Event(db, id, GONE, epoch).Ok? ==>
              var after := Event(db, id, GONE, epoch).value.db;
              && Inv(after) && after.runs.Keys == db.runs.Keys
              && (forall other | other in db.runs && other != id ::
                    after.runs[other] == db.runs[other] && LogOf(after, other) == LogOf(db, other))
              && IsReleased(after.runs[id].payload, epoch)
              && LogOf(after, id) == LogOf(db, id) + [Stored(|LogOf(db, id)| + 1, epoch, GONE)]
  {
    hide Apply;
    hide Replay;
    hide Update;
    hide RunInv;
    hide ClaimsMatch;
    EventMeaning(db, id, GONE, epoch);
    EventAccepted(db, id, GONE, epoch);
    UpdateShape(db, id, GONE, epoch);
    if Apply(db.runs[id].payload, GONE, epoch).Ok? {
      ApplyFacts(db.runs[id].payload, GONE, epoch);
      GoneMeans(db.runs[id].payload, epoch);
    }
  }

  /** The claiming process still runs: this host sees its identifier with the birth it claimed with. */
  predicate IsAlive(r: RunRecord, host: Host) {
    && r.supervisor.Some? && r.supervisor.value.host == host.installation
    && host.sight(r.supervisor.value.pid) == Born(r.supervisor.value.birth)
  }

  /** Nothing can be said of the claiming process: it belongs to another host, or cannot be looked at. */
  predicate IsUnknown(r: RunRecord, host: Host) {
    && r.supervisor.Some?
    && (r.supervisor.value.host != host.installation || host.sight(r.supervisor.value.pid) == Unreadable)
  }

  /** Claimed, unreleased, and its process is gone: not there, or another one under the same identifier. */
  predicate IsDeserted(r: RunRecord, host: Host) {
    r.executionId.Some? && !r.ownerReleased && !IsAlive(r, host) && !IsUnknown(r, host)
  }

  lemma VerdictMeaning(r: RunRecord, host: Host)
    ensures SupervisorAlive(r, host) ==
            if IsAlive(r, host) then Some(true) else if IsUnknown(r, host) then None else Some(false)
    ensures IsAbandoned(r, host) <==> IsDeserted(r, host)
  {
  }

  /** A recovery pass touches a run only when its listing shows it deserted. */
  lemma {:induction false} RecoverySparesTheLiving(db: Db, listing: seq<RunRecord>, host: Host, epoch: int, id: string)
    requires Inv(db) && id in db.runs
    requires forall r | r in listing :: r.header.id in db.runs
    ensures var after := RecoverAll(db, listing, host, epoch).0;
            && Inv(after) && after.runs.Keys == db.runs.Keys
            && (after.runs[id] != db.runs[id] ==> exists r | r in listing :: r.header.id == id && IsDeserted(r, host))
  {
    hide Event;
    hide Inv;
    if listing != [] {
      var front := listing[..|listing| - 1];
      RecoverySparesTheLiving(db, front, host, epoch, id);
      var before, r := RecoverAll(db, front, host, epoch).0, listing[|listing| - 1];
      VerdictMeaning(r, host);
      GoneTouchesOne(before, r.header.id, epoch);
    }
  }

  ghost predicate ListsRuns(db: Db, listing: seq<RunRecord>) {
    && (forall r | r in listing :: r.header.id in db.runs)
    && (forall i, j | 0 <= i < j < |listing| :: listing[i].header.id != listing[j].header.id)
  }

  /** Every run the listing shows deserted has room for its release. */
  ghost predicate AllHaveRoom(db: Db, listing: seq<RunRecord>, host: Host, epoch: int)
    requires forall r | r in listing :: r.header.id in db.runs
  {
    forall r | r in listing && IsDeserted(r, host) :: HasRoom(db.runs[r.header.id].payload, epoch)
  }

  /** Entry k shows the run deserted, and nothing up to it stops the pass. */
  ghost predicate IsReachedAt(db: Db, listing: seq<RunRecord>, host: Host, epoch: int, id: string, k: nat)
    requires k < |listing| && forall r | r in listing :: r.header.id in db.runs
  {
    listing[k].header.id == id && IsDeserted(listing[k], host) && AllHaveRoom(db, listing[..k + 1], host, epoch)
  }

  /** The listing shows the run deserted, and the pass gets as far as releasing it. */
  ghost predicate IsReached(db: Db, listing: seq<RunRecord>, host: Host, epoch: int, id: string)
    requires forall r | r in listing :: r.header.id in db.runs
  {
    exists k | 0 <= k < |listing| :: IsReachedAt(db, listing, host, epoch, id, k)
  }

  lemma ListSnoc(db: Db, front: seq<RunRecord>, r: RunRecord, host: Host, epoch: int)
    requires ListsRuns(db, front + [r])
    ensures ListsRuns(db, front)
    ensures forall q | q in front :: q.header.id != r.header.id
    ensures AllHaveRoom(db, front + [r], host, epoch) <==>
            AllHaveRoom(db, front, host, epoch)
            && (IsDeserted(r, host) ==> HasRoom(db.runs[r.header.id].payload, epoch))
  {
    hide IsDeserted;
    hide HasRoom;
    var listing := front + [r];
    assert forall q :: q in listing <==> q in front || q == r;
    assert forall k | 0 <= k < |front| :: listing[k] == front[k];
    assert listing[|front|] == r;
  }

  lemma ReachedSnoc(db: Db, front: seq<RunRecord>, r: RunRecord, host: Host, epoch: int, id: string)
    requires ListsRuns(db, front + [r])
    ensures ListsRuns(db, front)
    ensures IsReached(db, front + [r], host, epoch, id) <==>
            IsReached(db, front, host, epoch, id)
            || (r.header.id == id && IsDeserted(r, host) && AllHaveRoom(db, front + [r], host, epoch))
    ensures !IsReached(db, front, host, epoch, r.header.id)
  {
    ListSnoc(db, front, r, host, epoch);
    hide IsDeserted;
    hide AllHaveRoom;
    hide ListsRuns;
    var listing := front + [r];
    forall k | 0 <= k < |front|
      ensures IsReachedAt(db, listing, host, epoch, id, k) <==> IsReachedAt(db, front, host, epoch, id, k)
    {
      assert listing[..k + 1] == front[..k + 1];
    }
    assert IsReachedAt(db, listing, host, epoch, id, |front|) <==>
           r.header.id == id && IsDeserted(r, host) && AllHaveRoom(db, listing, host, epoch) by {
      assert listing[..|front| + 1] == listing;
    }
    assert forall k | 0 <= k < |front| :: front[k] in front;
  }

  /**
   * What a pass does, exactly: it runs through when everything it has to release has room, it releases
   * the runs it reaches, and it leaves every other row and log alone.
   */
  lemma {:induction false} RecoveryIsExact(db: Db, listing: seq<RunRecord>, host: Host, epoch: int, id: string)
    requires Inv(db) && id in db.runs && ListsRuns(db, listing)
    ensures var (after, fault) := RecoverAll(db, listing, host, epoch);
            && Inv(after) && id in after.runs
            && (fault.None? <==> AllHaveRoom(db, listing, host, epoch))
            && (if IsReached(db, listing, host, epoch, id) then
                  && IsReleased(after.runs[id].payload, epoch)
                  && LogOf(after, id) == LogOf(db, id) + [Stored(|LogOf(db, id)| + 1, epoch, GONE)]
                else after.runs[id] == db.runs[id] && LogOf(after, id) == LogOf(db, id))
    decreases |listing|
  {
    hide Event;
    hide Inv;
    hide IsDeserted;
    hide IsAbandoned;
    hide HasRoom;
    hide IsReached;
    hide AllHaveRoom;
    hide LogOf;
    hide IsReleased;
    if listing == [] {
      NobodyReached(db, host, epoch, id);
    } else {
      var front, r := listing[..|listing| - 1], listing[|listing| - 1];
      assert listing == front + [r];
      ListSnoc(db, front, r, host, epoch);
      ReachedSnoc(db, front, r, host, epoch, id);
      RecoveryIsExact(db, front, host, epoch, id);
      RecoveryIsExact(db, front, host, epoch, r.header.id);
      GoneTouchesOne(RecoverAll(db, front, host, epoch).0, r.header.id, epoch);
      VerdictMeaning(r, host);
    }
  }

  lemma NobodyReached(db: Db, host: Host, epoch: int, id: string)
    ensures !IsReached(db, [], host, epoch, id) && AllHaveRoom(db, [], host, epoch)
  {
  }

  /** A completed pass leaves every run it listed as deserted released and lost. */
  lemma CompletedPassReleases(db: Db, listing: seq<RunRecord>, host: Host, epoch: int, r: RunRecord)
    requires Inv(db) && ListsRuns(db, listing) && r in listing && IsDeserted(r, host)
    requires RecoverAll(db, listing, host, epoch).1.None?
    ensures var after := RecoverAll(db, listing, host, epoch).0;
            r.header.id in after.runs && IsReleased(after.runs[r.header.id].payload, epoch)
  {
    hide Inv;
    hide RecoverAll;
    hide IsDeserted;
    hide IsReleased;
    hide HasRoom;
    RecoveryIsExact(db, listing, host, epoch, r.header.id);
    var k :| 0 <= k < |listing| && listing[k] == r;
    assert forall q | q in listing[..k + 1] :: q in listing;
    assert IsReachedAt(db, listing, host, epoch, r.header.id, k);
  }

  /** The record is one its run had at some moment of the history. */
  ghost predicate WasListed(r: RunRecord, ops: seq<Op>) {
    exists n: nat | n <= |ops| ::
      r.header.id in Execute(EMPTY, ops[..n]).runs && r == Execute(EMPTY, ops[..n]).runs[r.header.id].payload
  }

  lemma {:induction false} ExecuteAppend(db: Db, a: seq<Op>, b: seq<Op>)
    ensures Execute(db, a + b) == Execute(Execute(db, a), b)
  {
    hide Step;
    if b == [] {
      assert a + b == a;
    } else {
      ExecuteAppend(db, a, b[..|b| - 1]);
      assert (a + b)[..|a + b| - 1] == a + b[..|b| - 1];
    }
  }

  lemma ListedRunsRemain(r: RunRecord, ops: seq<Op>)
    requires AllIssued(ops) && WasListed(r, ops)
    ensures r.header.id in Execute(EMPTY, ops).runs
  {
    hide Execute;
    var n: nat :| n <= |ops| && r.header.id in Execute(EMPTY, ops[..n]).runs;
    assert ops == ops[..n] + ops[n..];
    ExecuteAppend(EMPTY, ops[..n], ops[n..]);
    StartIsGood();
    EveryInterleaving(EMPTY, ops[..n]);
    OthersKeepRun(Execute(EMPTY, ops[..n]), ops[n..], r.header.id);
  }

  lemma StartIsGood()
    ensures Inv(EMPTY)
  {
  }

  /**
   * A pass whose listing was read run by run at earlier moments turns a run that has ended since into a
   * lost one exactly when the listing shows it deserted and the pass reaches it. The log keeps the end.
   */
  lemma StaleRecoveryErasesExit(ops: seq<Op>, listing: seq<RunRecord>, host: Host, epoch: int, id: string)
    requires AllIssued(ops) && (forall r | r in listing :: WasListed(r, ops))
    requires forall i, j | 0 <= i < j < |listing| :: listing[i].header.id != listing[j].header.id
    requires var db := Execute(EMPTY, ops);
             id in db.runs && db.runs[id].payload.ownerReleased && db.runs[id].payload.transport != Lost
    ensures var db := Execute(EMPTY, ops);
            var after := RecoverAll(db, listing, host, epoch).0;
            && ListsRuns(db, listing) && id in after.runs
            && (after.runs[id].payload.transport == Lost <==> IsReached(db, listing, host, epoch, id))
            && (IsReached(db, listing, host, epoch, id) ==> after.runs[id].payload.finishedAt == Some(epoch))
            && LogOf(db, id) <= LogOf(after, id)
  {
    hide Execute;
    hide RecoverAll;
    hide Inv;
    hide WasListed;
    hide IsReached;
    forall r | r in listing ensures r.header.id in Execute(EMPTY, ops).runs {
      ListedRunsRemain(r, ops);
    }
    StartIsGood();
    EveryInterleaving(EMPTY, ops);
    RecoveryIsExact(Execute(EMPTY, ops), listing, host, epoch, id);
  }

  // ---------------------------------------------------------------- a pass with others stepping in between

  /** The pass with transactions of other processes before each entry it looks at. */
  function RecoverAmid(db: Db, listing: seq<RunRecord>, gaps: seq<seq<Op>>, host: Host, epoch: int)
    : (Db, Option<StoreFault>)
    requires |gaps| == |listing|
    decreases |listing|, 0
  {
    if listing == [] then (db, None)
    else
      var n := |listing| - 1;
      var (at, reached) := ComesTo(db, listing, gaps, host, epoch, n);
      if reached.Some? || !IsAbandoned(listing[n], host) then (at, reached)
      else
        match Event(at, listing[n].header.id, GONE, epoch)
        case Err(f) => (at, Some(f))
        case Ok(c) => (c.db, None)
  }

  /** The tables when the pass comes to entry k, or the fault that stopped it before and the tables then. */
  function ComesTo(db: Db, listing: seq<RunRecord>, gaps: seq<seq<Op>>, host: Host, epoch: int, k: nat)
    : (Db, Option<StoreFault>)
    requires |gaps| == |listing| && k < |listing|
    decreases k, 1
  {
    var (before, fault) := RecoverAmid(db, listing[..k], gaps[..k], host, epoch);
    if fault.Some? then (before, fault) else (Execute(before, gaps[k]), None)
  }

  lemma {:induction false} RecoveryIsUninterrupted(db: Db, listing: seq<RunRecord>, host: Host, epoch: int)
    ensures RecoverAll(db, listing, host, epoch) ==
            RecoverAmid(db, listing, seq(|listing|, _ => []), host, epoch)
  {
    hide Event;
    hide IsAbandoned;
    if listing != [] {
      var n := |listing| - 1;
      RecoveryIsUninterrupted(db, listing[..n], host, epoch);
      assert seq(n + 1, _ => [])[..n] == seq<seq<Op>>(n, _ => []);
    }
  }

  /** Other processes neither end, recover, start nor connect this run. */
  predicate LeavesTransport(op: Op, id: string) {
    && (op.EventOp? && op.id == id ==> !MovesTransport(op.event))
    && (op.StartOp? ==> op.id != id)
  }

  predicate AllLeaveTransport(ops: seq<Op>, id: string) {
    forall op | op in ops :: LeavesTransport(op, id)
  }

  predicate SameTransport(r: RunRecord, later: RunRecord) {
    later.transport == r.transport && later.finishedAt == r.finishedAt
  }

  lemma QuietKeepsTransport(db: Db, op: Op, id: string)
    requires Inv(db) && id in db.runs && Issued(op) && LeavesTransport(op, id)
    ensures id in Step(db, op).runs && SameTransport(db.runs[id].payload, Step(db, op).runs[id].payload)
  {
    hide Apply;
    hide Replay;
    hide Update;
    hide RunInv;
    hide ClaimsMatch;
    hide ValidPolicy;
    hide Prepared;
    match op {
      case EventOp(target, e, now) =>
        if target in db.runs {
          AcceptedTransport(db, db, target, e, now, id);
        }
      case CancelOp(target, expected, now) =>
        if target in db.runs {
          AcceptedTransport(db, db, target, RunEvent.CancelRequested, now, id);
        }
      case StartOp(target, supervisor, execution, now) =>
        if target in db.runs && Reserve(db, execution, target).Ok? {
          AcceptedTransport(db, Reserve(db, execution, target).value, target, Claimed(supervisor, execution), now, id);
        }
      case _ =>
    }
  }

  lemma AcceptedTransport(db: Db, reserved: Db, target: string, e: RunEvent, now: int, id: string)
    requires Inv(db) && target in db.runs && id in db.runs
    requires reserved == db.(effects := reserved.effects)
    ensures ReadRow(db.runs[target]) == db.runs[target].payload
    ensures match Update(reserved, db.runs[target].payload, e, now)
            case Err(_) => true
            case Ok(c) =>
              && id in c.db.runs && target in c.db.runs
              && (target != id || !MovesTransport(e) ==>
                    SameTransport(db.runs[id].payload, c.db.runs[id].payload))
  {
    hide Apply;
    hide Replay;
    hide Update;
    hide RunOk;
    assert RunInv(db, target) && RunInv(reserved, target);
    UpdateShape(reserved, target, e, now);
    if Update(reserved, db.runs[target].payload, e, now).Ok? {
      StepFields(db.runs[target].payload, e, now);
    }
  }

  lemma {:induction false} QuietRunKeepsTransport(db: Db, ops: seq<Op>, id: string)
    requires Inv(db) && id in db.runs && AllIssued(ops) && AllLeaveTransport(ops, id)
    ensures id in Execute(db, ops).runs && SameTransport(db.runs[id].payload, Execute(db, ops).runs[id].payload)
  {
    hide Inv;
    hide Step;
    hide LeavesTransport;
    if ops != [] {
      var front := ops[..|ops| - 1];
      QuietRunKeepsTransport(db, front, id);
      EveryInterleaving(db, front);
      QuietKeepsTransport(Execute(db, front), ops[|ops| - 1], id);
    }
  }

  ghost predicate GapsIssued(gaps: seq<seq<Op>>) {
    forall k | 0 <= k < |gaps| :: AllIssued(gaps[k])
  }

  /** The pass, too, only appends to logs. */
  lemma {:induction false} PassGrows(
    db: Db, listing: seq<RunRecord>, gaps: seq<seq<Op>>, host: Host, epoch: int, id: string)
    requires Inv(db) && id in db.runs && |gaps| == |listing| && GapsIssued(gaps)
    requires forall r | r in listing :: r.header.id in db.runs
    ensures var after := RecoverAmid(db, listing, gaps, host, epoch).0;
            && Inv(after) && id in after.runs && LogOf(db, id) <= LogOf(after, id)
    decreases |listing|, 0
  {
    hide Event;
    hide Inv;
    hide IsAbandoned;
    hide HasRoom;
    hide LogOf;
    hide IsReleased;
    hide Execute;
    if listing != [] {
      var n := |listing| - 1;
      assert forall q | q in listing[..n] :: q in listing;
      ComingGrows(db, listing, gaps, host, epoch, n, id);
      ComingGrows(db, listing, gaps, host, epoch, n, listing[n].header.id);
      GoneTouchesOne(ComesTo(db, listing, gaps, host, epoch, n).0, listing[n].header.id, epoch);
    }
  }

  lemma {:induction false} ComingGrows(
    db: Db, listing: seq<RunRecord>, gaps: seq<seq<Op>>, host: Host, epoch: int, k: nat, id: string)
    requires Inv(db) && id in db.runs && |gaps| == |listing| && k < |listing| && GapsIssued(gaps)
    requires forall r | r in listing :: r.header.id in db.runs
    ensures var at := ComesTo(db, listing, gaps, host, epoch, k).0;
            && Inv(at) && id in at.runs && LogOf(db, id) <= LogOf(at, id)
    decreases k, 1
  {
    hide Inv;
    hide RecoverAmid;
    hide LogOf;
    hide Execute;
    assert forall q | q in listing[..k] :: q in listing;
    PassGrows(db, listing[..k], gaps[..k], host, epoch, id);
    var (before, fault) := RecoverAmid(db, listing[..k], gaps[..k], host, epoch);
    if fault.None? {
      EveryInterleaving(before, gaps[k]);
      RunsGrow(before, gaps[k], id);
    }
  }

  /** What follows entry k in a pass leaves the transport of its run as entry k left it, and its log. */
  lemma {:induction false} RestKeepsTransport(
    db: Db, listing: seq<RunRecord>, gaps: seq<seq<Op>>, host: Host, epoch: int, k: nat)
    requires Inv(db) && ListsRuns(db, listing) && |gaps| == |listing| && k < |listing| && GapsIssued(gaps)
    requires forall j | k < j < |gaps| :: AllLeaveTransport(gaps[j], listing[k].header.id)
    ensures var id := listing[k].header.id;
            var here, after := RecoverAmid(db, listing[..k + 1], gaps[..k + 1], host, epoch).0,
                               RecoverAmid(db, listing, gaps, host, epoch).0;
            && id in here.runs && id in after.runs
            && SameTransport(here.runs[id].payload, after.runs[id].payload)
            && LogOf(here, id) <= LogOf(after, id)
    decreases |listing|
  {
    hide Event;
    hide Inv;
    hide IsAbandoned;
    hide LogOf;
    hide Execute;
    hide AllLeaveTransport;
    var n, id := |listing| - 1, listing[k].header.id;
    PassGrows(db, listing, gaps, host, epoch, id);
    if k == n {
      assert listing[..k + 1] == listing && gaps[..k + 1] == gaps;
    } else {
      assert listing[..n][..k + 1] == listing[..k + 1] && gaps[..n][..k + 1] == gaps[..k + 1];
      assert forall q | q in listing[..n] :: q in listing;
      RestKeepsTransport(db, listing[..n], gaps[..n], host, epoch, k);
      PassGrows(db, listing[..n], gaps[..n], host, epoch, id);
      var (before, fault) := RecoverAmid(db, listing[..n], gaps[..n], host, epoch);
      if fault.None? {
        QuietRunKeepsTransport(before, gaps[n], id);
        RunsGrow(before, gaps[n], id);
        ComingGrows(db, listing, gaps, host, epoch, n, id);
        ComingGrows(db, listing, gaps, host, epoch, n, listing[n].header.id);
        GoneTouchesOne(Execute(before, gaps[n]), listing[n].header.id, epoch);
      }
    }
  }

  /** Every run shown deserted before entry k had room at the moment the pass came to it. */
  ghost predicate AllHadRoom(db: Db, listing: seq<RunRecord>, gaps: seq<seq<Op>>, host: Host, epoch: int, k: nat)
    requires |gaps| == |listing| && k <= |listing|
  {
    forall j | 0 <= j < k && IsDeserted(listing[j], host) ::
      var at := ComesTo(db, listing, gaps, host, epoch, j).0;
      listing[j].header.id in at.runs && HasRoom(at.runs[listing[j].header.id].payload, epoch)
  }

  lemma HadRoomNext(db: Db, listing: seq<RunRecord>, gaps: seq<seq<Op>>, host: Host, epoch: int, k: nat)
    requires |gaps| == |listing| && k < |listing|
    ensures var at, id := ComesTo(db, listing, gaps, host, epoch, k).0, listing[k].header.id;
            AllHadRoom(db, listing, gaps, host, epoch, k + 1) <==>
            AllHadRoom(db, listing, gaps, host, epoch, k)
            && (IsDeserted(listing[k], host) ==> id in at.runs && HasRoom(at.runs[id].payload, epoch))
  {
    hide ComesTo;
    hide IsDeserted;
    hide HasRoom;
  }

  lemma {:induction false} PassComesThisFar(
    db: Db, listing: seq<RunRecord>, gaps: seq<seq<Op>>, host: Host, epoch: int, k: nat)
    requires Inv(db) && |gaps| == |listing| && k < |listing| && GapsIssued(gaps)
    requires forall r | r in listing :: r.header.id in db.runs
    ensures ComesTo(db, listing, gaps, host, epoch, k).1.None? <==> AllHadRoom(db, listing, gaps, host, epoch, k)
    decreases k
  {
    hide Execute;
    hide Event;
    hide Inv;
    hide HasRoom;
    hide IsDeserted;
    hide IsAbandoned;
    hide LogOf;
    hide IsReleased;
    if k > 0 {
      var j := k - 1;
      PassComesThisFar(db, listing, gaps, host, epoch, j);
      ComingGrows(db, listing, gaps, host, epoch, j, listing[j].header.id);
      assert listing[..k][..j] == listing[..j] && gaps[..k][..j] == gaps[..j];
      assert ComesTo(db, listing[..k], gaps[..k], host, epoch, j) == ComesTo(db, listing, gaps, host, epoch, j);
      var at, id := ComesTo(db, listing, gaps, host, epoch, j).0, listing[j].header.id;
      GoneTouchesOne(at, id, epoch);
      HadRoomNext(db, listing, gaps, host, epoch, j);
      VerdictMeaning(listing[j], host);
      hide AllHadRoom;
      hide ComesTo;
      assert listing[..k][j] == listing[j];
    }
  }

  /**
   * The same with other processes stepping between the releases of the pass: a run that has ended
   * before the pass comes to its entry ends up lost exactly when the listing shows it deserted and
   * its row, like that of every run shown deserted before it, has room when the pass comes to it. The
   * log keeps the end.
   */
  lemma RecoveryAmidErasesExit(
    ops: seq<Op>, listing: seq<RunRecord>, gaps: seq<seq<Op>>, host: Host, epoch: int, k: nat)
    requires AllIssued(ops) && (forall r | r in listing :: WasListed(r, ops))
    requires forall i, j | 0 <= i < j < |listing| :: listing[i].header.id != listing[j].header.id
    requires |gaps| == |listing| && k < |listing| && GapsIssued(gaps)
    requires forall j | k < j < |gaps| :: AllLeaveTransport(gaps[j], listing[k].header.id)
    requires var id, at := listing[k].header.id, ComesTo(Execute(EMPTY, ops), listing, gaps, host, epoch, k).0;
             id in at.runs ==> at.runs[id].payload.ownerReleased && at.runs[id].payload.transport != Lost
    ensures var id, db := listing[k].header.id, Execute(EMPTY, ops);
            var at := ComesTo(db, listing, gaps, host, epoch, k).0;
            var after := RecoverAmid(db, listing, gaps, host, epoch).0;
            && id in at.runs && id in after.runs
            && (after.runs[id].payload.transport == Lost <==>
                AllHadRoom(db, listing, gaps, host, epoch, k)
                && IsDeserted(listing[k], host) && HasRoom(at.runs[id].payload, epoch))
            && (after.runs[id].payload.transport == Lost ==> after.runs[id].payload.finishedAt == Some(epoch))
            && LogOf(at, id) <= LogOf(after, id)
  {
    hide Execute;
    hide Event;
    hide Inv;
    hide WasListed;
    hide LogOf;
    hide HasRoom;
    hide IsDeserted;
    hide IsAbandoned;
    hide AllLeaveTransport;
    var id, db := listing[k].header.id, Execute(EMPTY, ops);
    forall r | r in listing ensures r.header.id in db.runs {
      ListedRunsRemain(r, ops);
    }
    StartIsGood();
    EveryInterleaving(EMPTY, ops);
    ComingGrows(db, listing, gaps, host, epoch, k, id);
    RestKeepsTransport(db, listing, gaps, host, epoch, k);
    VerdictMeaning(listing[k], host);
    PassComesThisFar(db, listing, gaps, host, epoch, k);
    hide AllHadRoom;
    assert listing[..k + 1][..k] == listing[..k] && gaps[..k + 1][..k] == gaps[..k];
    GoneTouchesOne(ComesTo(db, listing, gaps, host, epoch, k).0, id, epoch);
  }

  /** A listing that agrees with the rows never touches a run that has ended. */
  lemma FreshRecoverySparesTheEnded(db: Db, listing: seq<RunRecord>, host: Host, epoch: int, id: string)
    requires Inv(db) && ListsRuns(db, listing) && id in db.runs && db.runs[id].payload.ownerReleased
    requires forall r | r in listing :: r == db.runs[r.header.id].payload
    ensures var after := RecoverAll(db, listing, host, epoch).0;
            id in after.runs && after.runs[id] == db.runs[id] && LogOf(after, id) == LogOf(db, id)
  {
    hide Inv;
    hide RecoverAll;
    hide AllHaveRoom;
    hide HasRoom;
    RecoveryIsExact(db, listing, host, epoch, id);
  }

  /** A run claimed by a process that is gone, listed and then ended, is erased: the case is reachable. */
  lemma StaleRecoveryIsReachable()
    ensures var claimed := Execute(EMPTY, SAMPLE_RUN + [StartOp("run", SAMPLE_OWNER, "execution", 0)]);
            var host := Host("host", _ => NoProcess);
            && "run" in claimed.runs
            && var (ended, fault) := Finish(claimed, "run", Ok(Json.Null), 0, 0);
            && fault.None? && "run" in ended.runs && ended.runs["run"].payload.transport == Exited
            && var after := RecoverAll(ended, [claimed.runs["run"].payload], host, 0).0;
            "run" in after.runs && after.runs["run"].payload.transport == Lost
  {
    hide Event;
    hide Inv;
    hide Apply;
    hide Step;
    var claimed := Execute(EMPTY, SAMPLE_RUN + [StartOp("run", SAMPLE_OWNER, "execution", 0)]);
    SampleClaim();
    var r := claimed.runs["run"].payload;
    ReadIsPayload(claimed, "run");
    assert !SaysEnded(Json.Null) by { NullSaysNothing(); }
    EventAccepted(claimed, "run", EndEvent(r, Ok(Json.Null)), 0);
    EndEventIsStored(claimed, "run", r, Ok(Json.Null), 0);
    var ended := Finish(claimed, "run", Ok(Json.Null), 0, 0).0;
    ApplyFacts(r, EndEvent(r, Ok(Json.Null)), 0);
    GoneTouchesOne(ended, "run", 0);
    assert [r][..0] == [];
    assert RecoverAll(ended, [r][..0], Host("host", _ => NoProcess), 0) == (ended, None);
  }

  lemma NullSaysNothing()
    ensures !SaysEnded(Json.Null)
  {
    assert Json.At(Json.Null, ["continuation", "completed"]) == None;
    assert Json.At(Json.Null, ["continuation", "turn_status"]) == None;
  }

  /** The sample run once its supervisor has claimed it. */
  lemma SampleClaim()
    ensures var claimed := Execute(EMPTY, SAMPLE_RUN + [StartOp("run", SAMPLE_OWNER, "execution", 0)]);
            && Inv(claimed) && "run" in claimed.runs
            && var r := claimed.runs["run"].payload;
            && r.header == SAMPLE_HEADER && r.supervisor == Some(SAMPLE_OWNER) && r.executionId == Some("execution")
            && !r.ownerReleased && !r.cancellationRequested && r.deadlineExpired.None?
            && r.sequence == 1 && r.updatedAt == 0
  {
    hide Apply;
    hide Inv;
    var ops := SAMPLE_RUN + [StartOp("run", SAMPLE_OWNER, "execution", 0)];
    assert ops[..|ops| - 1] == SAMPLE_RUN;
    var db := Execute(EMPTY, SAMPLE_RUN);
    SampleRun();
    StartIsGood();
    EveryInterleaving(EMPTY, ops);
    var e := Claimed(SAMPLE_OWNER, "execution");
    SampleTables();
    var reserved := db.(effects := map["execution" := "run"]);
    assert db.effects == map[] && db.plans == map["run" := true];
    SampleReserved(db, reserved);
    StepAccepts(db.runs["run"].payload, e, 0);
    UpdateAccepted(reserved, "run", e, 0);
    UpdateShape(reserved, "run", e, 0);
    ApplyFacts(db.runs["run"].payload, e, 0);
    ClaimMeans(db.runs["run"].payload, e, 0);
  }

  /** The missed cancellation happens to the sample run. */
  lemma LateCancelIsReachable()
    ensures var claimed := Execute(EMPTY, SAMPLE_RUN + [StartOp("run", SAMPLE_OWNER, "execution", 0)]);
            && "run" in claimed.runs
            && var late := [CancelOp("run", claimed.runs["run"].payload.revision, 0)];
            var (after, fault) := FinishAmid(claimed, "run", Ok(Json.Null), late, [], 0, 0);
            && fault.None? && "run" in after.runs
            && after.runs["run"].payload.cancellationRequested && after.runs["run"].payload.transport == Exited
  {
    hide Execute;
    hide FinishAmid;
    hide Inv;
    hide SaysEnded;
    SampleClaim();
    LateCancelIsMissed(
      Execute(EMPTY, SAMPLE_RUN + [StartOp("run", SAMPLE_OWNER, "execution", 0)]), "run", Json.Null, 0, 0, 0);
  }

  lemma SampleTables()
    ensures var db := Execute(EMPTY, SAMPLE_RUN); db.effects == map[] && db.plans == map["run" := true]
  {
    var first := SAMPLE_RUN[..1];
    assert first == [SavePlanOp("run", true)] && first[..0] == [];
    assert Execute(EMPTY, first) == EMPTY.(plans := map["run" := true]);
  }

  lemma SampleReserved(db: Db, reserved: Db)
    requires Inv(db) && "run" in db.runs && reserved == db.(effects := reserved.effects)
    ensures RunInv(reserved, "run")
  {
    hide RunOk;
    assert RunInv(db, "run");
  }

  lemma ClaimMeans(r: RunRecord, e: RunEvent, at: int)
    requires e.Claimed? && Apply(r, e, at).Ok?
    ensures Apply(r, e, at).value.supervisor == Some(e.supervisor)
    ensures Apply(r, e, at).value.deadlineExpired == r.deadlineExpired
  {
  }

  /** The events a reconciliation that knows its supervisor appends: the release, then the new sighting. */
  function Reconciling(r: RunRecord, host: Host, sighting: WorkspaceState): seq<RunEvent> {
    (if IsDeserted(r, host) then [GONE] else [])
    + (if r.workspace != sighting then [WorkspaceObserved(sighting)] else [])
  }

  /** The log with events appended at one instant. */
  function Extended(log: Log, events: seq<RunEvent>, at: int): Log {
    log + seq(|events|, i requires 0 <= i < |events| => Stored(|log| + i + 1, at, events[i]))
  }

  /**
   * Local reconciliation, exactly: another revision or an unknown supervisor is refused and a running one
   * respected, all without a trace; otherwise a deserted run is released and the workspace noted, and the
   * call succeeds when those events fit. No other run moves.
   */
  lemma ReconcileIsExact(db: Db, id: string, expected: nat, host: Host, sighting: WorkspaceState, epoch: int)
    requires Inv(db) && id in db.runs
    ensures var (after, fault) := ReconcileLocal(db, id, expected, host, sighting, epoch);
            var r, events := db.runs[id].payload, Reconciling(db.runs[id].payload, host, sighting);
            && Inv(after) && id in after.runs
            && (if r.revision != expected then after == db && fault == Some(RevisionConflict)
                else if IsUnknown(r, host) then after == db && fault == Some(SupervisorUnknown)
                else if IsAlive(r, host) && !r.ownerReleased then after == db && fault == None
                else
                  && (fault == None <==>
                        events == [] || (HasRoom(r, epoch) && r.sequence + |events| <= 2048))
                  && (fault == None ==> LogOf(after, id) == Extended(LogOf(db, id), events, epoch)))
            && (forall other | other in db.runs && other != id ::
                  other in after.runs && after.runs[other] == db.runs[other])
  {
    hide Event;
    hide Inv;
    hide SupervisorAlive;
    hide IsAlive;
    hide IsUnknown;
    hide LogOf;
    hide HasRoom;
    hide Reconciling;
    hide Extended;
    hide NoteWorkspace;
    var r := db.runs[id].payload;
    RowFacts(db, id);
    VerdictMeaning(r, host);
    AliveIsKnown(r, host);
    ReconcilingIs(r, host, sighting, LogOf(db, id), epoch);
    if IsDeserted(r, host) {
      hide IsDeserted;
      ReconcilingAppends(db, id, GONE, epoch);
      if Event(db, id, GONE, epoch).Ok? {
        var mid := Event(db, id, GONE, epoch).value.db;
        RoomNext(r, mid.runs[id].payload, epoch);
        NoteIsAppended(mid, id, mid.runs[id].payload, sighting, epoch);
      }
    } else {
      NoteIsAppended(db, id, r, sighting, epoch);
      RoomNext(r, r, epoch);
    }
  }

  /** The four things a reconciliation can have to append. */
  lemma ReconcilingIs(r: RunRecord, host: Host, sighting: WorkspaceState, log: Log, at: int)
    ensures var events, changed := Reconciling(r, host, sighting), r.workspace != sighting;
            var note := WorkspaceObserved(sighting);
            && |events| == (if IsDeserted(r, host) then 1 else 0) + (if changed then 1 else 0)
            && (events == [] <==> !IsDeserted(r, host) && !changed)
            && (!IsDeserted(r, host) ==>
                  Extended(log, events, at) == log + if changed then [Stored(|log| + 1, at, note)] else [])
            && (IsDeserted(r, host) ==>
                  Extended(log, events, at) ==
                    log + [Stored(|log| + 1, at, GONE)] + if changed then [Stored(|log| + 2, at, note)] else [])
  {
    hide IsDeserted;
    assert [GONE] + [WorkspaceObserved(sighting)] == [GONE, WorkspaceObserved(sighting)];
  }

  lemma RoomNext(r: RunRecord, next: RunRecord, epoch: int)
    ensures HasRoom(r, epoch) ==> r.sequence + 1 <= 2048
    ensures HasRoom(r, epoch) && next.updatedAt == epoch && next.sequence == r.sequence + 1 ==>
              (HasRoom(next, epoch) <==> r.sequence + 2 <= 2048)
  {
  }

  /** An event that always leaves its mark: accepted when there is room, appended, and nobody else moves. */
  lemma ReconcilingAppends(db: Db, id: string, e: RunEvent, epoch: int)
    requires Inv(db) && id in db.runs && (e == GONE || e.WorkspaceObserved?)
    ensures var done, r := Event(db, id, e, epoch), db.runs[id].payload;
            && (done.Ok? <==> HasRoom(r, epoch))
            && (done.Ok? ==>
                  var after := done.value.db;
                  && Inv(after) && id in after.runs && done.value.reply == Current(after.runs[id].payload)
                  && LogOf(after, id) == LogOf(db, id) + [Stored(|LogOf(db, id)| + 1, epoch, e)]
                  && after.runs[id].payload.sequence == r.sequence + 1 && after.runs[id].payload.updatedAt == epoch
                  && after.runs[id].payload.workspace == (if e.WorkspaceObserved? then e.observed else r.workspace)
                  && (forall other | other in db.runs && other != id ::
                        other in after.runs && after.runs[other] == db.runs[other]))
  {
    hide Inv;
    hide Apply;
    hide HasRoom;
    EventIsExact(db, id, e, epoch);
    EventMeaning(db, id, e, epoch);
    RowFacts(db, id);
    if Event(db, id, e, epoch).Ok? {
      StepFields(db.runs[id].payload, e, epoch);
    }
  }

  lemma NoteIsAppended(db: Db, id: string, r: RunRecord, sighting: WorkspaceState, epoch: int)
    requires Inv(db) && id in db.runs && r == db.runs[id].payload
    ensures var (after, fault) := NoteWorkspace(db, id, r, sighting, epoch);
            && Inv(after) && id in after.runs
            && (fault == None <==> r.workspace == sighting || HasRoom(r, epoch))
            && (fault == None ==>
                  LogOf(after, id) == LogOf(db, id)
                    + if r.workspace == sighting then []
                      else [Stored(|LogOf(db, id)| + 1, epoch, WorkspaceObserved(sighting))])
            && (forall other | other in db.runs && other != id ::
                  other in after.runs && after.runs[other] == db.runs[other])
  {
    hide Event;
    hide Inv;
    hide LogOf;
    hide HasRoom;
    ReconcilingAppends(db, id, WorkspaceObserved(sighting), epoch);
  }

  // ---------------------------------------------------------------- what a pass reports

  /** The entries of a listing that are claimed and unreleased. */
  function OpenRuns(listing: seq<RunRecord>): seq<RunRecord> {
    if listing == [] then []
    else
      var r := listing[|listing| - 1];
      OpenRuns(listing[..|listing| - 1]) + if r.executionId.Some? && !r.ownerReleased then [r] else []
  }

  /** A completed pass reports on every open run it was given, in that order, what the host lets it see. */
  lemma {:induction false} FindingsMeaning(listing: seq<RunRecord>, host: Host)
    ensures |Findings(listing, host)| == |OpenRuns(listing)|
    ensures forall i | 0 <= i < |OpenRuns(listing)| ::
      var r := OpenRuns(listing)[i];
      && (IsAlive(r, host) ==> Findings(listing, host)[i] == FoundAlive(r.header.id))
      && (IsUnknown(r, host) ==> Findings(listing, host)[i] == FoundUnknown(r.header.id))
      && (IsDeserted(r, host) ==> Findings(listing, host)[i] == FoundGone(r.header.id))
  {
    hide SupervisorAlive;
    hide IsAlive;
    hide IsUnknown;
    if listing != [] {
      var r := listing[|listing| - 1];
      FindingsMeaning(listing[..|listing| - 1], host);
      VerdictMeaning(r, host);
      AliveIsKnown(r, host);
    }
  }

  lemma AliveIsKnown(r: RunRecord, host: Host)
    ensures !(IsAlive(r, host) && IsUnknown(r, host))
  {
  }

  /** Whatever the pass does, a run that every listed record of it shows alive or unknown is left alone. */
  lemma LivingAreSpared(db: Db, listing: seq<RunRecord>, host: Host, epoch: int, id: string)
    requires Inv(db) && id in db.runs && (forall r | r in listing :: r.header.id in db.runs)
    requires forall r | r in listing && r.header.id == id :: IsAlive(r, host) || IsUnknown(r, host)
    ensures var after := RecoverAll(db, listing, host, epoch).0; id in after.runs && after.runs[id] == db.runs[id]
  {
    hide Inv;
    hide RecoverAll;
    hide IsAlive;
    hide IsUnknown;
    RecoverySparesTheLiving(db, listing, host, epoch, id);
  }
}
