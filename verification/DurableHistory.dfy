/**
 * What holds of the durable tables after every interleaving of committed and refused transactions,
 * by any number of supervisors, cancellers and reconcilers.
 */
module DurableHistory {
  import opened Prelude
  import opened Control
  import opened Durable
  import opened DurableLog
  import opened DurableStore

  // ---------------------------------------------------------------- the invariant

  ghost predicate Numbered(log: Log) {
    forall k | 0 <= k < |log| :: log[k].number == k + 1
  }

  /** Nothing is claimed, cancelled or timed out after a cancellation. */
  ghost predicate CancelIsLast(log: Log) {
    forall i, j | 0 <= i < j < |log| && log[i].event.CancelRequested? ::
      !log[j].event.CancelRequested? && !log[j].event.DeadlineExceeded? && !log[j].event.Claimed?
  }

  ghost predicate WithinBudget(log: Log) {
    && |log| <= MAX_EVENTS
    && |log| <= MAX_EVENTS - RESERVED + Count(log, IsLasting)
    && (forall k | 0 <= k < |log| && log[k].event.Progress? :: log[k].number <= MAX_EVENTS - RESERVED)
  }

  /** The row is the fold of its log, up to the heartbeat column that leaves no event. */
  ghost predicate RowIsItsLog(id: string, start: RunRecord, row: Row, log: Log) {
    && start == Prepared(start.header, start.updatedAt)
    && start.header.id == start.header.planId == id
    && Replay(start, log) == Ok(row.payload.(lastHeartbeatAt := None))
    && row.revision == row.sequence == row.payload.revision == row.payload.sequence == |log|
    && row.updatedAt == row.payload.updatedAt
    && row.payload.header == start.header
    && Numbered(log)
  }

  ghost predicate Disciplined(row: Row, log: Log) {
    && CancelIsLast(log)
    && WithinBudget(log)
    && (row.payload.cancellationRequested <==> Has(log, IsCancel))
    && row.cancelRequested == row.payload.cancellationRequested
  }

  ghost predicate RunOk(id: string, start: RunRecord, row: Row, log: Log) {
    RowIsItsLog(id, start, row, log) && Disciplined(row, log)
  }

  ghost predicate RunInv(db: Db, id: string)
    requires id in db.runs
  {
    && id in db.prepared
    && id in db.plans && db.plans[id]
    && RunOk(id, db.prepared[id], db.runs[id], LogOf(db, id))
  }

  /** The effect reservation of a continuation plan and the claim of its run are one fact. */
  ghost predicate ClaimsMatch(db: Db) {
    && (forall x | x in db.effects ::
          && db.effects[x] in db.plans
          && (db.plans[db.effects[x]] ==>
                db.effects[x] in db.runs && db.runs[db.effects[x]].payload.executionId == Some(x)))
    && (forall id | id in db.runs && db.runs[id].payload.executionId.Some? ::
          var x := db.runs[id].payload.executionId.value;
          x in db.effects && db.effects[x] == id)
  }

  ghost predicate Inv(db: Db) {
    && (forall id | id in db.runs :: RunInv(db, id))
    && db.events.Keys <= db.runs.Keys
    && ClaimsMatch(db)
  }

  // ---------------------------------------------------------------- one run grows

  /** When an event may be appended to a run without breaking the discipline. */
  predicate Admissible(r: RunRecord, e: RunEvent) {
    && (e.DeadlineExceeded? || e.Claimed? || e.CancelRequested? ==> !r.cancellationRequested)
    && (e.CancelRequested? ==> !r.ownerReleased)
    && (e.Progress? ==> r.sequence < MAX_EVENTS - RESERVED)
  }

  function RowOf(r: RunRecord): Row {
    Row(r.revision, r.sequence, r.cancellationRequested, r.updatedAt, r)
  }

  /** The facts about one accepted event that the table proofs need. */
  lemma ApplyFacts(r: RunRecord, e: RunEvent, at: int)
    requires Apply(r, e, at).Ok?
    ensures var next := Apply(r, e, at).value;
            && next.header == r.header
            && next.revision == r.revision + 1 && next.sequence == r.sequence + 1
            && next.updatedAt == at
            && next.lastHeartbeatAt == r.lastHeartbeatAt
            && next.cancellationRequested == (r.cancellationRequested || (e.CancelRequested? && !r.ownerReleased))
            && next.ownerReleased == (r.ownerReleased || IsRelease(e))
            && next.executionId == if e.Claimed? then Some(e.executionId) else r.executionId
  {
  }

  lemma GrowRow(id: string, start: RunRecord, row: Row, log: Log, e: RunEvent, now: int)
    requires RunOk(id, start, row, log) && Apply(row.payload, e, now).Ok?
    ensures var next := Apply(row.payload, e, now).value;
            RowIsItsLog(id, start, RowOf(next), log + [Stored(next.sequence, next.updatedAt, e)])
  {
    hide Apply;
    var next := Apply(row.payload, e, now).value;
    var longer := log + [Stored(next.sequence, next.updatedAt, e)];
    ApplyFacts(row.payload, e, now);
    StepIgnoresHeartbeat(row.payload, e, now, None);
    assert Front(longer) == log;
  }

  lemma GrowCancelIsLast(row: Row, log: Log, next: Stored)
    requires CancelIsLast(log) && (row.payload.cancellationRequested <==> Has(log, IsCancel))
    requires Admissible(row.payload, next.event)
    ensures CancelIsLast(log + [next])
    ensures Has(log + [next], IsCancel) <==> Has(log, IsCancel) || next.event.CancelRequested?
  {
    NewestMeaning(log, IsCancel);
    assert Front(log + [next]) == log;
  }

  lemma GrowBudget(row: Row, log: Log, next: Stored)
    requires WithinBudget(log) && row.payload.sequence == |log| < MAX_EVENTS && next.number == |log| + 1
    requires Admissible(row.payload, next.event)
    requires row.payload.sequence < MAX_EVENTS - RESERVED || IsLasting(next.event) || next.event.Progress?
    ensures WithinBudget(log + [next])
  {
    assert Front(log + [next]) == log;
    assert Count(log + [next], IsLasting) == Count(log, IsLasting) + if IsLasting(next.event) then 1 else 0;
  }

  lemma GrowDiscipline(id: string, start: RunRecord, row: Row, log: Log, e: RunEvent, now: int)
    requires RunOk(id, start, row, log) && Apply(row.payload, e, now).Ok?
    requires Admissible(row.payload, e) && row.payload.sequence < MAX_EVENTS
    ensures var next := Apply(row.payload, e, now).value;
            Disciplined(RowOf(next), log + [Stored(next.sequence, next.updatedAt, e)])
  {
    hide Apply;
    hide Replay;
    hide Numbered;
    hide CancelIsLast;
    hide WithinBudget;
    hide Has;
    var next := Apply(row.payload, e, now).value;
    ApplyFacts(row.payload, e, now);
    GrowCancelIsLast(row, log, Stored(next.sequence, next.updatedAt, e));
    GrowBudget(row, log, Stored(next.sequence, next.updatedAt, e));
  }

  // ---------------------------------------------------------------- the tables grow

  /** The tables after an accepted event, its cancel column included. */
  function Appended(db: Db, id: string, e: RunEvent, next: RunRecord): Db
    requires id in db.runs
  {
    db.(runs := db.runs[id := RowOf(next)],
        events := db.events[id := LogOf(db, id) + [Stored(next.sequence, next.updatedAt, e)]])
  }

  /** On a good row, an update is refused for the budget or by the event step, and otherwise appends. */
  lemma UpdateShape(db: Db, id: string, e: RunEvent, now: int)
    requires id in db.runs && RunInv(db, id)
    ensures ReadRow(db.runs[id]) == db.runs[id].payload
    ensures var r := db.runs[id].payload;
            match Update(db, r, e, now)
            case Err(f) => f == EventBudget || (f.Refused? && Apply(r, e, now) == Err(f.reason))
            case Ok(c) =>
              && r.sequence < MAX_EVENTS && Apply(r, e, now).Ok?
              && var next := Apply(r, e, now).value;
              && c.reply == Current(next)
              && c.db == db.(runs := db.runs[id := RowOf(next).(cancelRequested := r.cancellationRequested)],
                             events := Appended(db, id, e, next).events)
              && (e.CancelRequested? || RowOf(next).cancelRequested == r.cancellationRequested)
  {
    hide Apply;
    hide Replay;
    var r := db.runs[id].payload;
    if Apply(r, e, now).Ok? {
      ApplyFacts(r, e, now);
    }
  }

  /** Appending an admissible event to one run keeps every run good. */
  lemma AppendKeepsRuns(db: Db, id: string, e: RunEvent, now: int)
    requires Inv(db) && id in db.runs
    requires Apply(db.runs[id].payload, e, now).Ok?
    requires Admissible(db.runs[id].payload, e) && db.runs[id].payload.sequence < MAX_EVENTS
    ensures var after := Appended(db, id, e, Apply(db.runs[id].payload, e, now).value);
            forall other | other in after.runs :: RunInv(after, other)
  {
    hide Apply;
    hide Replay;
    var after := Appended(db, id, e, Apply(db.runs[id].payload, e, now).value);
    forall other | other in after.runs ensures RunInv(after, other) {
      assert RunInv(db, other);
      if other == id {
        GrowRow(id, db.prepared[id], db.runs[id], LogOf(db, id), e, now);
        GrowDiscipline(id, db.prepared[id], db.runs[id], LogOf(db, id), e, now);
      } else {
        hide *;
        assert LogOf(after, other) == LogOf(db, other);
      }
    }
  }

  lemma AppendKeepsInv(db: Db, id: string, e: RunEvent, now: int)
    requires Inv(db) && id in db.runs && !e.Claimed?
    requires Apply(db.runs[id].payload, e, now).Ok?
    requires Admissible(db.runs[id].payload, e) && db.runs[id].payload.sequence < MAX_EVENTS
    ensures Inv(Appended(db, id, e, Apply(db.runs[id].payload, e, now).value))
  {
    hide Apply;
    hide Replay;
    hide RunInv;
    AppendKeepsRuns(db, id, e, now);
    ApplyFacts(db.runs[id].payload, e, now);
  }

  lemma EventKeepsInv(db: Db, id: string, e: RunEvent, now: int)
    requires Inv(db) && !e.Claimed? && !e.CancelRequested?
    ensures Inv(Step(db, EventOp(id, e, now)))
  {
    hide Apply;
    hide Replay;
    hide Update;
    hide RunInv;
    hide ClaimsMatch;
    if id in db.runs {
      assert RunInv(db, id);
      UpdateShape(db, id, e, now);
      var r := db.runs[id].payload;
      if !IsAbsorbed(r, e) && Update(db, r, e, now).Ok? {
        AppendKeepsInv(db, id, e, now);
        assert Step(db, EventOp(id, e, now)) == Appended(db, id, e, Apply(r, e, now).value);
      }
    }
  }

  lemma CancelKeepsInv(db: Db, id: string, expected: nat, now: int)
    requires Inv(db)
    ensures Inv(Step(db, CancelOp(id, expected, now)))
  {
    hide Apply;
    hide Replay;
    hide Update;
    hide RunInv;
    hide ClaimsMatch;
    var e := RunEvent.CancelRequested;
    if id in db.runs {
      UpdateShape(db, id, e, now);
      var r := db.runs[id].payload;
      if r.revision == expected && !r.ownerReleased && !r.cancellationRequested && Update(db, r, e, now).Ok? {
        AppendKeepsInv(db, id, e, now);
        ApplyFacts(r, e, now);
        assert Step(db, CancelOp(id, expected, now)) == Appended(db, id, e, Apply(r, e, now).value);
      }
    }
  }

  lemma ClaimKeepsInv(db: Db, id: string, e: RunEvent, now: int)
    requires Inv(db) && id in db.runs && e.Claimed?
    requires Apply(db.runs[id].payload, e, now).Ok? && db.runs[id].payload.executionId.None?
    requires Admissible(db.runs[id].payload, e) && db.runs[id].payload.sequence < MAX_EVENTS
    requires Reserve(db, e.executionId, id).Ok?
    ensures var grown := Appended(db, id, e, Apply(db.runs[id].payload, e, now).value);
            Inv(grown.(effects := db.effects[e.executionId := id]))
  {
    hide Apply;
    hide Replay;
    hide RunInv;
    AppendKeepsRuns(db, id, e, now);
    ApplyFacts(db.runs[id].payload, e, now);
    var grown := Appended(db, id, e, Apply(db.runs[id].payload, e, now).value);
    var after := grown.(effects := db.effects[e.executionId := id]);
    forall other | other in after.runs ensures RunInv(after, other) {
      SameRunInv(grown, after, other);
    }
  }

  /** The effect rows have no part in a run's own invariant. */
  lemma SameRunInv(db: Db, after: Db, id: string)
    requires after == db.(effects := after.effects) && id in db.runs
    ensures RunInv(after, id) == RunInv(db, id)
  {
    hide RunOk;
  }

  lemma StartKeepsInv(db: Db, id: string, supervisor: ProcessIdentity, execution: string, now: int)
    requires Inv(db)
    ensures Inv(Step(db, StartOp(id, supervisor, execution, now)))
  {
    hide Apply;
    hide Replay;
    hide Update;
    hide RunInv;
    var after := Step(db, StartOp(id, supervisor, execution, now));
    if id in db.plans && Reserve(db, execution, id).Ok? {
      if db.plans[id] {
        hide ClaimsMatch;
        if id in db.runs {
          var e, reserved := Claimed(supervisor, execution), Reserve(db, execution, id).value;
          var r := db.runs[id].payload;
          SameRunInv(db, reserved, id);
          UpdateShape(reserved, id, e, now);
          if !r.cancellationRequested && r.executionId.None? && Update(reserved, r, e, now).Ok? {
            ClaimKeepsInv(db, id, e, now);
            assert after == Appended(db, id, e, Apply(r, e, now).value).(effects := reserved.effects);
          }
        }
      } else {
        forall other | other in after.runs ensures RunInv(after, other) {
          SameRunInv(db, after, other);
        }
      }
    }
  }

  lemma SavePlanKeepsInv(db: Db, id: string, continues: bool)
    requires Inv(db)
    ensures Inv(Step(db, SavePlanOp(id, continues)))
  {
    hide RunOk;
  }

  lemma FreshRow(header: RunHeader, now: int)
    requires header.id == header.planId
    ensures RunOk(header.id, Prepared(header, now), RowOf(Prepared(header, now)), [])
  {
  }

  lemma PrepareKeepsInv(db: Db, header: RunHeader, now: int)
    requires Inv(db)
    ensures Inv(Step(db, PrepareOp(header, now)))
  {
    hide RunOk;
    hide ValidPolicy;
    hide Prepared;
    hide ClaimsMatch;
    FreshRow(header.(planId := header.id), now);
    FreshFields(header.(planId := header.id), now);
    PrepareKeepsClaims(db, header, now);
  }

  lemma PrepareKeepsClaims(db: Db, header: RunHeader, now: int)
    requires Inv(db)
    ensures ClaimsMatch(Step(db, PrepareOp(header, now)))
  {
    hide RunInv;
    hide ValidPolicy;
    hide Prepared;
    FreshFields(header.(planId := header.id), now);
  }

  lemma FreshFields(header: RunHeader, now: int)
    ensures var r := Prepared(header, now);
            r.updatedAt == now && r.executionId.None? && r.revision == r.sequence == 0 && !r.cancellationRequested
  {
  }

  lemma BeatKeepsRow(id: string, start: RunRecord, row: Row, log: Log, now: int)
    requires RunOk(id, start, row, log)
    ensures RunOk(id, start, row.(payload := ReadRow(row).(lastHeartbeatAt := Some(now))), log)
  {
  }

  lemma HeartbeatKeepsInv(db: Db, id: string, owner: ProcessIdentity, now: int)
    requires Inv(db)
    ensures Inv(Step(db, HeartbeatOp(id, owner, now)))
  {
    hide RunInv;
    hide ClaimsMatch;
    hide ReadRow;
    var after := Step(db, HeartbeatOp(id, owner, now));
    if id in db.runs && after != db {
      assert after == Beaten(db, id, now);
      forall other | other in after.runs ensures RunInv(after, other) {
        BeatKeepsRun(db, id, now, other);
      }
      BeatKeepsClaims(db, id, now);
    }
  }

  /** The tables after an accepted heartbeat. */
  function Beaten(db: Db, id: string, now: int): Db
    requires id in db.runs
  {
    db.(runs := db.runs[id := db.runs[id].(payload := ReadRow(db.runs[id]).(lastHeartbeatAt := Some(now)))])
  }

  lemma BeatKeepsRun(db: Db, id: string, now: int, other: string)
    requires id in db.runs && other in db.runs && RunInv(db, other)
    ensures RunInv(Beaten(db, id, now), other)
  {
    hide RunOk;
    if other == id {
      BeatKeepsRow(id, db.prepared[id], db.runs[id], LogOf(db, id), now);
    }
  }

  lemma BeatKeepsClaims(db: Db, id: string, now: int)
    requires id in db.runs && ClaimsMatch(db)
    ensures ClaimsMatch(Beaten(db, id, now))
  {
  }

  /** Every transaction of the crate keeps the invariant, refused or not. */
  lemma StepKeepsInv(db: Db, op: Op)
    requires Inv(db) && Issued(op)
    ensures Inv(Step(db, op))
  {
    hide Perform;
    hide Inv;
    match op {
      case StartOp(id, supervisor, execution, now) => StartKeepsInv(db, id, supervisor, execution, now);
      case EventOp(id, e, now) => EventKeepsInv(db, id, e, now);
      case CancelOp(id, expected, now) => CancelKeepsInv(db, id, expected, now);
      case SavePlanOp(id, continues) => SavePlanKeepsInv(db, id, continues);
      case PrepareOp(header, now) => PrepareKeepsInv(db, header, now);
      case HeartbeatOp(id, owner, now) => HeartbeatKeepsInv(db, id, owner, now);
    }
  }

  lemma {:induction false} EveryInterleaving(db: Db, ops: seq<Op>)
    requires Inv(db) && AllIssued(ops)
    ensures Inv(Execute(db, ops))
  {
    hide Step;
    hide Inv;
    if ops != [] {
      EveryInterleaving(db, ops[..|ops| - 1]);
      StepKeepsInv(Execute(db, ops[..|ops| - 1]), ops[|ops| - 1]);
    }
  }

  // ---------------------------------------------------------------- runs only move forward

  /** How one run may differ between two states of the tables. */
  ghost predicate RunGrows(db: Db, after: Db, id: string)
    requires id in db.runs
  {
    && id in after.runs
    && Extends(db.runs[id].payload, after.runs[id].payload)
    && LogOf(db, id) <= LogOf(after, id)
    && (db.runs[id].payload.cancellationRequested && db.runs[id].payload.executionId.None? ==>
          after.runs[id].payload.executionId.None?)
  }

  lemma RunIsClaimable(db: Db, id: string)
    requires id in db.runs && RunInv(db, id)
    ensures Claimable(db.runs[id].payload)
  {
    ClaimMeaning(db.prepared[id], LogOf(db, id));
  }

  lemma QuietGrows(db: Db, op: Op, id: string)
    requires Inv(db) && id in db.runs && (op.SavePlanOp? || op.PrepareOp? || op.HeartbeatOp?)
    ensures RunGrows(db, Step(db, op), id)
  {
    hide ValidPolicy;
    hide Prepared;
    hide RunOk;
    assert RunInv(db, id);
  }

  lemma StepGrows(db: Db, op: Op, id: string)
    requires Inv(db) && Issued(op) && id in db.runs
    ensures RunGrows(db, Step(db, op), id)
  {
    hide Update;
    hide RunInv;
    hide ClaimsMatch;
    hide Extends;
    hide Claimable;
    RunIsClaimable(db, id);
    SameExtends(db.runs[id].payload);
    match op {
      case EventOp(target, e, now) =>
        if target in db.runs {
          AcceptedGrows(db, db, target, e, now, id);
        }
      case CancelOp(target, expected, now) =>
        if target in db.runs {
          AcceptedGrows(db, db, target, RunEvent.CancelRequested, now, id);
        }
      case StartOp(target, supervisor, execution, now) =>
        if target in db.runs && Reserve(db, execution, target).Ok? {
          AcceptedGrows(db, Reserve(db, execution, target).value, target, Claimed(supervisor, execution), now, id);
        }
      case _ =>
        QuietGrows(db, op, id);
    }
  }

  lemma SameExtends(r: RunRecord)
    ensures Extends(r, r)
  {
  }

  lemma AcceptedGrows(db: Db, reserved: Db, target: string, e: RunEvent, now: int, id: string)
    requires Inv(db) && target in db.runs && id in db.runs && Claimable(db.runs[id].payload)
    requires reserved == db.(effects := reserved.effects)
    ensures var r := db.runs[target].payload;
            && ReadRow(db.runs[target]) == r
            && match Update(reserved, r, e, now)
               case Ok(c) =>
                 && target in c.db.runs && id in c.db.runs
                 && c.db.runs.Keys == db.runs.Keys
                 && Extends(db.runs[id].payload, c.db.runs[id].payload)
                 && LogOf(db, id) <= LogOf(c.db, id)
                 && (e.Claimed? || c.db.runs[id].payload.executionId == db.runs[id].payload.executionId)
                 && (id != target ==> c.db.runs[id] == db.runs[id])
               case Err(_) => true
  {
    hide Apply;
    hide Replay;
    hide Update;
    hide RunInv;
    hide ClaimsMatch;
    SameRunInv(db, reserved, target);
    UpdateShape(reserved, target, e, now);
    var r := db.runs[target].payload;
    if Update(reserved, r, e, now).Ok? {
      ApplyFacts(r, e, now);
      if id == target {
        StepExtends(r, e, now);
      }
    }
  }

  /** Whatever happens next, ids stay, flags stay, time advances and the log is only appended to. */
  lemma {:induction false} RunsGrow(db: Db, ops: seq<Op>, id: string)
    requires Inv(db) && AllIssued(ops) && id in db.runs
    ensures RunGrows(db, Execute(db, ops), id)
  {
    hide Step;
    hide Inv;
    if ops != [] {
      var front := ops[..|ops| - 1];
      RunsGrow(db, front, id);
      EveryInterleaving(db, front);
      StepGrows(Execute(db, front), ops[|ops| - 1], id);
    }
  }

  // ---------------------------------------------------------------- main results

  /**
   * Event sourcing: after any interleaving, each row is the fold of its event log from the prepared
   * record (the heartbeat aside), counters equal the log length, the log is numbered 1..n, and the
   * cancel column says what the payload says.
   */
  lemma RecordsAreTheirLogs(ops: seq<Op>, id: string)
    requires AllIssued(ops)
    requires id in Execute(EMPTY, ops).runs
    ensures var db := Execute(EMPTY, ops);
            var row, log := db.runs[id], LogOf(db, id);
            && id in db.prepared
            && db.prepared[id] == Prepared(db.prepared[id].header, db.prepared[id].updatedAt)
            && Replay(db.prepared[id], log) == Ok(row.payload.(lastHeartbeatAt := None))
            && row.revision == row.sequence == row.payload.revision == row.payload.sequence == |log|
            && (forall k | 0 <= k < |log| :: log[k].number == k + 1)
            && row.cancelRequested == row.payload.cancellationRequested
            && (row.payload.cancellationRequested <==> exists k | 0 <= k < |log| :: log[k].event.CancelRequested?)
  {
    EveryInterleaving(EMPTY, ops);
    var db := Execute(EMPTY, ops);
    assert RunInv(db, id);
    NewestMeaning(LogOf(db, id), IsCancel);
  }

  /** A deadline never follows a cancellation, and there is at most one cancellation. */
  lemma CancelWinsOverDeadline(ops: seq<Op>, id: string, i: nat, j: nat)
    requires AllIssued(ops)
    requires id in Execute(EMPTY, ops).runs
    requires i < |LogOf(Execute(EMPTY, ops), id)| && j < |LogOf(Execute(EMPTY, ops), id)|
    requires LogOf(Execute(EMPTY, ops), id)[j].event.CancelRequested?
    ensures var log := LogOf(Execute(EMPTY, ops), id);
            && (log[i].event.DeadlineExceeded? ==> i < j)
            && (log[i].event.Claimed? ==> i < j)
            && (log[i].event.CancelRequested? ==> i == j)
  {
    EveryInterleaving(EMPTY, ops);
    assert RunInv(Execute(EMPTY, ops), id);
  }

  /**
   * At most one supervisor ever claims a run, and the claim and the effect reservation of a
   * continuation plan exist together, with the same execution id.
   */
  lemma AtMostOnceClaim(ops: seq<Op>, id: string, execution: string)
    requires AllIssued(ops)
    requires id in Execute(EMPTY, ops).runs
    ensures var db := Execute(EMPTY, ops);
            var log := LogOf(db, id);
            && (forall i, j | 0 <= i < j < |log| :: !(log[i].event.Claimed? && log[j].event.Claimed?))
            && (execution in db.effects && db.effects[execution] == id <==>
                exists k | 0 <= k < |log| :: log[k].event.Claimed? && log[k].event.executionId == execution)
  {
    hide Step;
    hide Replay;
    EveryInterleaving(EMPTY, ops);
    var db := Execute(EMPTY, ops);
    assert RunInv(db, id);
    ClaimInLog(db.prepared[id], LogOf(db, id), execution);
  }

  /** The record names an execution exactly when its log holds that execution's claim. */
  lemma ClaimInLog(start: RunRecord, log: Log, execution: string)
    requires start == Prepared(start.header, start.updatedAt)
    requires Replay(start, log).Ok?
    ensures forall i, j | 0 <= i < j < |log| :: !(log[i].event.Claimed? && log[j].event.Claimed?)
    ensures Replay(start, log).value.executionId == Some(execution) <==>
            exists k | 0 <= k < |log| :: log[k].event.Claimed? && log[k].event.executionId == execution
  {
    hide Apply;
    SingleClaim(start, log);
    ClaimMeaning(start, log);
    NewestMeaning(log, IsClaim);
  }

  /** A run cancelled before anyone claimed it reports Cancelled in every later state. */
  lemma CancelledBeforeClaimStays(ops: seq<Op>, more: seq<Op>, id: string)
    requires AllIssued(ops) && AllIssued(more)
    requires id in Execute(EMPTY, ops).runs
    requires var r := Execute(EMPTY, ops).runs[id].payload; r.cancellationRequested && r.executionId.None?
    ensures var later := Execute(Execute(EMPTY, ops), more);
            && id in later.runs
            && later.runs[id].payload.State() == RunState.Cancelled
            && id !in later.effects.Values
  {
    EveryInterleaving(EMPTY, ops);
    RunsGrow(Execute(EMPTY, ops), more, id);
    EveryInterleaving(Execute(EMPTY, ops), more);
    assert RunInv(Execute(Execute(EMPTY, ops), more), id);
  }

  /**
   * Progress reports cannot crowd out the end of a run: the log stays within its budget, and while
   * fewer than the reserved number of other events were stored no event is refused for budget.
   */
  lemma BudgetIsReserved(ops: seq<Op>, id: string, e: RunEvent, expected: nat, now: int)
    requires AllIssued(ops)
    requires id in Execute(EMPTY, ops).runs
    ensures var db := Execute(EMPTY, ops);
            var log := LogOf(db, id);
            && |log| <= MAX_EVENTS
            && |log| <= MAX_EVENTS - RESERVED + Count(log, IsLasting)
            && (forall k | 0 <= k < |log| && log[k].event.Progress? :: k + 1 <= MAX_EVENTS - RESERVED)
            && (Count(log, IsLasting) < RESERVED ==>
                  && Event(db, id, e, now) != Err(EventBudget)
                  && Cancel(db, id, expected, now) != Err(EventBudget))
  {
    hide Step;
    hide Replay;
    hide Apply;
    EveryInterleaving(EMPTY, ops);
    var db := Execute(EMPTY, ops);
    assert RunInv(db, id);
    assert |LogOf(db, id)| == db.runs[id].payload.sequence;
    assert ReadRow(db.runs[id]) == db.runs[id].payload;
    BudgetMeaning(db, db.runs[id].payload, e, now);
    BudgetMeaning(db, db.runs[id].payload, RunEvent.CancelRequested, now);
  }

  lemma BudgetMeaning(db: Db, r: RunRecord, e: RunEvent, now: int)
    ensures Update(db, r, e, now) == Err(EventBudget) <==> r.sequence >= MAX_EVENTS
  {
    hide Apply;
  }

  // ---------------------------------------------------------------- why claims and cancels have their own steps

  /** The clock and the log leave room for one more event. */
  predicate HasRoom(r: RunRecord, now: int) {
    r.sequence < 2048 && 0 <= now <= 253_402_300_799 && r.updatedAt <= now
  }

  lemma CountersFit(db: Db, id: string)
    requires id in db.runs && RunInv(db, id) && db.runs[id].payload.sequence < MAX_EVENTS
    ensures db.runs[id].payload.revision < U64_MAX && db.runs[id].payload.sequence < U64_MAX
  {
    hide Replay;
  }

  /** On a good row an update commits exactly when the log has room and the event step accepts. */
  lemma UpdateAccepted(db: Db, id: string, e: RunEvent, now: int)
    requires id in db.runs && RunInv(db, id)
    ensures Read(db, id) == Ok(db.runs[id].payload)
    ensures Update(db, db.runs[id].payload, e, now).Ok? <==>
            db.runs[id].payload.sequence < MAX_EVENTS && Apply(db.runs[id].payload, e, now).Ok?
    ensures Update(db, db.runs[id].payload, e, now).Ok? ==>
              && Update(db, db.runs[id].payload, e, now).value.reply != Skipped
              && id in Update(db, db.runs[id].payload, e, now).value.db.runs
  {
    hide Apply;
    hide Update;
    hide RunInv;
    UpdateShape(db, id, e, now);
    BudgetMeaning(db, db.runs[id].payload, e, now);
  }

  /** What the event step asks of the events that carry no identifiers or statuses, and of a claim. */
  lemma StepAccepts(r: RunRecord, e: RunEvent, now: int)
    requires r.revision < U64_MAX && r.sequence < U64_MAX
    requires e.CancelRequested? || e.Claimed? || e.Recovered? || e.TransportEnded?
    ensures Apply(r, e, now).Ok? <==>
            && IsTimestamp(now) && r.updatedAt <= now
            && (e.Claimed? ==> r.executionId.None?)
            && (e.TransportEnded? ==>
                  EndsTransport(e.state) && (e.errorCode.Some? ==> BoundedCode(e.errorCode.value)))
  {
  }

  /** An event that leaves its mark is accepted exactly when there is room for it. */
  lemma EventAccepted(db: Db, id: string, e: RunEvent, now: int)
    requires Inv(db) && id in db.runs
    requires e.CancelRequested? || e.Claimed? || e.Recovered? || e.TransportEnded?
    ensures Event(db, id, e, now).Ok? <==>
            && HasRoom(db.runs[id].payload, now)
            && (e.Claimed? ==> db.runs[id].payload.executionId.None?)
            && (e.TransportEnded? ==>
                  EndsTransport(e.state) && (e.errorCode.Some? ==> BoundedCode(e.errorCode.value)))
  {
    hide Apply;
    hide Update;
    hide RunInv;
    hide ClaimsMatch;
    hide BoundedCode;
    UpdateAccepted(db, id, e, now);
    if db.runs[id].payload.sequence < MAX_EVENTS {
      CountersFit(db, id);
      StepAccepts(db.runs[id].payload, e, now);
    }
  }

  /** The cancel column agrees after an event exactly unless that event is a fresh cancellation with room. */
  lemma ColumnAgreesUnlessStray(db: Db, id: string, e: RunEvent, now: int)
    requires Inv(db) && id in db.runs
    ensures var r, after := db.runs[id].payload, Step(db, EventOp(id, e, now));
            && id in after.runs
            && (after.runs[id].cancelRequested == after.runs[id].payload.cancellationRequested <==>
                !(e.CancelRequested? && !r.cancellationRequested && !r.ownerReleased && HasRoom(r, now)))
  {
    hide Apply;
    hide Replay;
    hide Update;
    hide RunInv;
    hide ClaimsMatch;
    hide HasRoom;
    UpdateShape(db, id, e, now);
    if Apply(db.runs[id].payload, e, now).Ok? {
      ApplyFacts(db.runs[id].payload, e, now);
    }
    if e.CancelRequested? {
      EventAccepted(db, id, e, now);
    }
    ColumnOf(db, id);
  }

  lemma ColumnOf(db: Db, id: string)
    requires id in db.runs && RunInv(db, id)
    ensures db.runs[id].cancelRequested == db.runs[id].payload.cancellationRequested
  {
    hide Replay;
  }

  /** A claim accepted as a bare event is a claim without a reservation. */
  lemma ClaimsMatchUnlessStray(db: Db, id: string, e: RunEvent, now: int)
    requires Inv(db) && id in db.runs
    ensures var r := db.runs[id].payload;
            ClaimsMatch(Step(db, EventOp(id, e, now))) <==> !(e.Claimed? && r.executionId.None? && HasRoom(r, now))
  {
    hide Apply;
    hide Replay;
    hide Update;
    hide RunInv;
    hide ClaimsMatch;
    UpdateShape(db, id, e, now);
    var r := db.runs[id].payload;
    var after := Step(db, EventOp(id, e, now));
    if e.Claimed? {
      EventAccepted(db, id, e, now);
    }
    if Apply(r, e, now).Ok? {
      ApplyFacts(r, e, now);
      if e.Claimed? {
        ClaimNeedsRoom(r, e, now);
        if Event(db, id, e, now).Ok? {
          RunIsPlanned(db, id);
          StrayClaim(db, after, id, e.executionId);
        }
      } else if after != db {
        SameClaims(db, after, id);
      }
    }
  }

  lemma RunIsPlanned(db: Db, id: string)
    requires id in db.runs && RunInv(db, id)
    ensures id in db.plans && db.plans[id]
  {
    hide RunOk;
  }

  lemma StrayClaim(db: Db, after: Db, id: string, execution: string)
    requires ClaimsMatch(db) && id in db.runs && db.runs[id].payload.executionId.None?
    requires after.effects == db.effects && after.plans == db.plans
    requires id in after.runs && after.runs[id].payload.executionId == Some(execution)
    requires id in db.plans && db.plans[id]
    ensures !ClaimsMatch(after)
  {
  }

  lemma SameClaims(db: Db, after: Db, id: string)
    requires ClaimsMatch(db) && id in db.runs
    requires after.effects == db.effects && after.plans == db.plans && after.runs.Keys == db.runs.Keys
    requires forall other | other in db.runs ::
      after.runs[other].payload.executionId == db.runs[other].payload.executionId
    ensures ClaimsMatch(after)
  {
  }

  lemma ClaimNeedsRoom(r: RunRecord, e: RunEvent, at: int)
    requires e.Claimed? && Apply(r, e, at).Ok?
    ensures r.executionId.None?
  {
  }

  // ---------------------------------------------------------------- the two failures are reachable

  const SAMPLE_HEADER: RunHeader :=
    RunHeader("run", "run", "project", "codex", "workspace", DeadlinePolicy(1, 1, 1, 1, 1, 1), 0)

  const SAMPLE_OWNER: ProcessIdentity := ProcessIdentity(1, "birth", "host")

  /** A continuation plan and its prepared run. */
  const SAMPLE_RUN: seq<Op> := [SavePlanOp("run", true), PrepareOp(SAMPLE_HEADER, 0)]

  lemma SampleRun()
    ensures var db := Execute(EMPTY, SAMPLE_RUN);
            && Inv(db) && db.runs == map["run" := RowOf(Prepared(SAMPLE_HEADER, 0))]
  {
    var first := SAMPLE_RUN[..1];
    assert first == [SavePlanOp("run", true)] && first[..0] == [];
    assert Execute(EMPTY, first) == EMPTY.(plans := map["run" := true]);
    assert ValidPolicy(SAMPLE_HEADER.deadlines);
    EveryInterleaving(EMPTY, SAMPLE_RUN);
  }

  /** A bare cancellation event on a freshly prepared run leaves the column behind. */
  lemma StrayCancelIsReachable()
    ensures var after := Execute(EMPTY, SAMPLE_RUN + [EventOp("run", RunEvent.CancelRequested, 0)]);
            && "run" in after.runs
            && after.runs["run"].cancelRequested != after.runs["run"].payload.cancellationRequested
  {
    hide Step;
    var ops := SAMPLE_RUN + [EventOp("run", RunEvent.CancelRequested, 0)];
    assert ops[..|ops| - 1] == SAMPLE_RUN;
    SampleRun();
    ColumnAgreesUnlessStray(Execute(EMPTY, SAMPLE_RUN), "run", RunEvent.CancelRequested, 0);
  }

  /** A bare claim event on a freshly prepared run is a claim without a reservation. */
  lemma StrayClaimIsReachable()
    ensures !ClaimsMatch(Execute(EMPTY, SAMPLE_RUN + [EventOp("run", Claimed(SAMPLE_OWNER, "execution"), 0)]))
  {
    hide Step;
    hide ClaimsMatch;
    var ops := SAMPLE_RUN + [EventOp("run", Claimed(SAMPLE_OWNER, "execution"), 0)];
    assert ops[..|ops| - 1] == SAMPLE_RUN;
    SampleRun();
    ClaimsMatchUnlessStray(Execute(EMPTY, SAMPLE_RUN), "run", Claimed(SAMPLE_OWNER, "execution"), 0);
  }
}
