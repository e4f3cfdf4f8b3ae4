/**
 * The durable tables and their atomic steps. Every step is one immediate transaction: it commits a
 * whole new state or leaves the old one, and steps of different processes interleave freely.
 */
module DurableStore {
  import opened Prelude
  import opened Control
  import opened Durable
  import opened DurableLog

  const MAX_RUNS: nat := 512
  /** Event slots that progress reports may not use up. */
  const RESERVED: nat := 64

  /** A row of external_runs; the payload column is the encoded record. */
  datatype Row = Row(revision: nat, sequence: nat, cancelRequested: bool, updatedAt: int, payload: RunRecord)

  /**
   * The tables: effect plans (and whether each one continues an agent run), external_runs,
   * external_run_events and effect_runs. `prepared` is a history variable: the record each run was
   * prepared with, which no operation reads.
   */
  datatype Db = Db(
    plans: map<string, bool>,
    runs: map<string, Row>,
    events: map<string, Log>,
    effects: map<string, string>,
    prepared: map<string, RunRecord>)

  const EMPTY: Db := Db(map[], map[], map[], map[], map[])

  datatype StoreFault =
    | DatabaseConflict
    | DeadlineInvalid
    | RunBudget
    | CancelledBeforeStart
    | AlreadyStarted
    | EventBudget
    | RevisionConflict
    | SupervisorChanged
    | SupervisorUnknown
    | HeartbeatClock
    | IntegerRange
    | Refused(reason: Fault)

  datatype Reply = Saved | Execution(id: string) | Current(record: RunRecord) | Skipped

  /** What a committed transaction leaves behind and answers. */
  datatype Commit = Commit(db: Db, reply: Reply)

  type Outcome = Result<Commit, StoreFault>

  predicate ValidPolicy(p: DeadlinePolicy) {
    && 1 <= p.handshakeSeconds <= 120
    && 1 <= p.sessionSeconds <= 300
    && 1 <= p.idleSeconds <= 1800
    && 1 <= p.absoluteSeconds <= 3600
    && 1 <= p.cancellationGraceSeconds <= 30
    && 1 <= p.reconciliationSeconds <= 120
    && p.handshakeSeconds <= p.absoluteSeconds
    && p.sessionSeconds <= p.absoluteSeconds
    && p.idleSeconds <= p.absoluteSeconds
  }

  function LogOf(db: Db, id: string): Log {
    if id in db.events then db.events[id] else []
  }

  /** The stored record with the cancel column folded in. */
  function ReadRow(row: Row): RunRecord {
    row.payload.(cancellationRequested := row.payload.cancellationRequested || row.cancelRequested)
  }

  function Read(db: Db, id: string): Result<RunRecord, StoreFault> {
    if id in db.runs then Ok(ReadRow(db.runs[id])) else Err(DatabaseConflict)
  }

  /** Applies an event to a record that was read, rewrites its row and appends the event. */
  function Update(db: Db, r: RunRecord, e: RunEvent, now: int): Outcome {
    if r.sequence >= MAX_EVENTS then Err(EventBudget)
    else
      match Apply(r, e, now)
      case Err(reason) => Err(Refused(reason))
      case Ok(next) =>
        var id := next.header.id;
        if next.revision > I64_MAX || next.sequence > I64_MAX then Err(IntegerRange)
        else if id !in db.runs || db.runs[id].revision != r.revision then Err(RevisionConflict)
        else if exists k | 0 <= k < |LogOf(db, id)| :: LogOf(db, id)[k].number == next.sequence then
          Err(DatabaseConflict)
        else
          var row := Row(next.revision, next.sequence, db.runs[id].cancelRequested, next.updatedAt, next);
          var entry := Stored(next.sequence, next.updatedAt, e);
          Ok(Commit(db.(runs := db.runs[id := row], events := db.events[id := LogOf(db, id) + [entry]]), Current(next)))
  }

  // ---------------------------------------------------------------- transactions

  function SavePlan(db: Db, id: string, continues: bool): Outcome {
    if id in db.plans then Err(DatabaseConflict)
    else Ok(Commit(db.(plans := db.plans[id := continues]), Saved))
  }

  /** Reserves the run of a continuation plan; other plans have none. */
  function Prepare(db: Db, header: RunHeader, now: int): Outcome {
    var id := header.id;
    if id in db.plans && !db.plans[id] then Ok(Commit(db, Skipped))
    else if !ValidPolicy(header.deadlines) then Err(DeadlineInvalid)
    else if |db.runs| >= MAX_RUNS then Err(RunBudget)
    else if id !in db.plans || id in db.runs then Err(DatabaseConflict)
    else
      var r := Prepared(header.(planId := id), now);
      Ok(Commit(db.(runs := db.runs[id := Row(0, 0, false, r.updatedAt, r)], prepared := db.prepared[id := r]), Saved))
  }

  /** Inserts an effect_runs row; the execution id and the plan are both unique there. */
  function Reserve(db: Db, execution: string, plan: string): Result<Db, StoreFault> {
    if execution in db.effects || plan in db.effects.Values || plan !in db.plans then Err(DatabaseConflict)
    else Ok(db.(effects := db.effects[execution := plan]))
  }

  /** The effect reservation and the supervisor's claim commit together. */
  function Begin(db: Db, id: string, supervisor: ProcessIdentity, execution: string, now: int): Outcome {
    match Read(db, id)
    case Err(f) => Err(f)
    case Ok(r) =>
      if r.cancellationRequested then Err(CancelledBeforeStart)
      else if r.executionId.Some? then Err(AlreadyStarted)
      else
        match Reserve(db, execution, id)
        case Err(f) => Err(f)
        case Ok(reserved) =>
          match Update(reserved, r, Claimed(supervisor, execution), now)
          case Err(f) => Err(f)
          case Ok(c) => Ok(Commit(c.db, Execution(execution)))
  }

  /** Starts whatever plan is named: continuations claim their run, the rest only reserve. */
  function Start(db: Db, id: string, supervisor: ProcessIdentity, execution: string, now: int): Outcome {
    if id !in db.plans then Err(DatabaseConflict)
    else if db.plans[id] then Begin(db, id, supervisor, execution, now)
    else
      match Reserve(db, execution, id)
      case Err(f) => Err(f)
      case Ok(reserved) => Ok(Commit(reserved, Execution(execution)))
  }

  /** Events that the tables already answer, so that nothing is appended. */
  predicate IsAbsorbed(r: RunRecord, e: RunEvent) {
    || (e.DeadlineExceeded? && r.cancellationRequested)
    || ((e.ProviderTerminal? || e.Reconciled?) && e.status == r.provider)
    || (e.Progress? && (r.sequence >= MAX_EVENTS - RESERVED || IsTerminal(r.provider)))
  }

  function Event(db: Db, id: string, e: RunEvent, now: int): Outcome {
    match Read(db, id)
    case Err(f) => Err(f)
    case Ok(r) => if IsAbsorbed(r, e) then Ok(Commit(db, Current(r))) else Update(db, r, e, now)
  }

  function Heartbeat(db: Db, id: string, owner: ProcessIdentity, now: int): Outcome {
    match Read(db, id)
    case Err(f) => Err(f)
    case Ok(r) =>
      if r.supervisor != Some(owner) || r.ownerReleased then Err(SupervisorChanged)
      else if now < r.updatedAt then Err(HeartbeatClock)
      else
        var beat := r.(lastHeartbeatAt := Some(now));
        Ok(Commit(db.(runs := db.runs[id := db.runs[id].(payload := beat)]), Current(beat)))
  }

  function Cancel(db: Db, id: string, expected: nat, now: int): Outcome {
    match Read(db, id)
    case Err(f) => Err(f)
    case Ok(r) =>
      if r.revision != expected then Err(RevisionConflict)
      else if r.ownerReleased || r.cancellationRequested then Ok(Commit(db, Skipped))
      else
        match Update(db, r, RunEvent.CancelRequested, now)
        case Err(f) => Err(f)
        case Ok(c) =>
          var marked := c.db.runs[id].(cancelRequested := true);
          Ok(Commit(c.db.(runs := c.db.runs[id := marked]), c.reply))
  }

  datatype Op =
    | SavePlanOp(id: string, continues: bool)
    | PrepareOp(header: RunHeader, now: int)
    | StartOp(id: string, supervisor: ProcessIdentity, execution: string, now: int)
    | EventOp(id: string, event: RunEvent, now: int)
    | HeartbeatOp(id: string, owner: ProcessIdentity, now: int)
    | CancelOp(id: string, expected: nat, now: int)

  function Perform(db: Db, op: Op): Outcome {
    match op
    case SavePlanOp(id, continues) => SavePlan(db, id, continues)
    case PrepareOp(header, now) => Prepare(db, header, now)
    case StartOp(id, supervisor, execution, now) => Start(db, id, supervisor, execution, now)
    case EventOp(id, e, now) => Event(db, id, e, now)
    case HeartbeatOp(id, owner, now) => Heartbeat(db, id, owner, now)
    case CancelOp(id, expected, now) => Cancel(db, id, expected, now)
  }

  /** A refused transaction rolls back. */
  function Step(db: Db, op: Op): Db {
    match Perform(db, op)
    case Ok(c) => c.db
    case Err(_) => db
  }

  function Execute(db: Db, ops: seq<Op>): Db {
    if ops == [] then db else Step(Execute(db, ops[..|ops| - 1]), ops[|ops| - 1])
  }

  /**
   * What the event entry point is called with inside the crate: claims and cancellations have
   * transactions of their own.
   */
  predicate Issued(op: Op) {
    op.EventOp? ==> !op.event.Claimed? && !op.event.CancelRequested?
  }

  predicate AllIssued(ops: seq<Op>) {
    forall op | op in ops :: Issued(op)
  }

  // ---------------------------------------------------------------- the tables in place

  class Store {
    var plans: map<string, bool>
    var runs: map<string, Row>
    var events: map<string, Log>
    var effects: map<string, string>
    ghost var prepared: map<string, RunRecord>

    constructor ()
      ensures Tables() == EMPTY
    {
      plans, runs, events, effects, prepared := map[], map[], map[], map[], map[];
    }

    ghost function Tables(): Db
      reads this
    {
      Db(plans, runs, events, effects, prepared)
    }

    method ReadRun(id: string) returns (res: Result<RunRecord, StoreFault>)
      ensures res == Read(Tables(), id)
    {
      if id !in runs {
        return Err(DatabaseConflict);
      }
      var record := runs[id].payload;
      if runs[id].cancelRequested {
        record := record.(cancellationRequested := true);
      }
      return Ok(record);
    }

    /** Within a transaction: rewrites the row guarded by its revision, then appends the event. */
    method UpdateRun(r: RunRecord, e: RunEvent, now: int) returns (res: Result<RunRecord, StoreFault>)
      modifies this
      ensures match Update(old(Tables()), r, e, now)
              case Ok(c) => res.Ok? && c.reply == Current(res.value) && Tables() == c.db
              case Err(f) => res == Err(f) && Tables() == old(Tables())
    {
      if r.sequence >= MAX_EVENTS {
        return Err(EventBudget);
      }
      var cell := new RunCell(r);
      var fault := cell.ApplyEvent(e, now);
      if fault.Some? {
        return Err(Refused(fault.value));
      }
      var next := cell.record;
      var id := next.header.id;
      if next.revision > I64_MAX || next.sequence > I64_MAX {
        return Err(IntegerRange);
      }
      if id !in runs || runs[id].revision != r.revision {
        return Err(RevisionConflict);
      }
      var log: Log := if id in events then events[id] else [];
      if exists k | 0 <= k < |log| :: log[k].number == next.sequence {
        return Err(DatabaseConflict);
      }
      runs := runs[id :=
        runs[id].(
          revision := next.revision, sequence := next.sequence, updatedAt := next.updatedAt, payload := next)];
      events := events[id := log + [Stored(next.sequence, next.updatedAt, e)]];
      return Ok(next);
    }

    method DurablePrepare(header: RunHeader, now: int) returns (fault: Option<StoreFault>)
      modifies this
      ensures match Prepare(old(Tables()), header, now)
              case Ok(c) => fault == None && Tables() == c.db
              case Err(f) => fault == Some(f) && Tables() == old(Tables())
    {
      var id := header.id;
      if id in plans && !plans[id] {
        return None;
      }
      if !ValidPolicy(header.deadlines) {
        return Some(DeadlineInvalid);
      }
      if |runs| >= MAX_RUNS {
        return Some(RunBudget);
      }
      if id !in plans || id in runs {
        return Some(DatabaseConflict);
      }
      var r := Prepared(header.(planId := id), now);
      runs := runs[id := Row(0, 0, false, r.updatedAt, r)];
      prepared := prepared[id := r];
      return None;
    }

    method SaveEffectPlan(id: string, continues: bool) returns (fault: Option<StoreFault>)
      modifies this
      ensures match SavePlan(old(Tables()), id, continues)
              case Ok(c) => fault == None && Tables() == c.db
              case Err(f) => fault == Some(f) && Tables() == old(Tables())
    {
      if id in plans {
        return Some(DatabaseConflict);
      }
      plans := plans[id := continues];
      return None;
    }

    method BeginEffect(id: string, execution: string) returns (res: Result<string, StoreFault>)
      modifies this
      ensures match Reserve(old(Tables()), execution, id)
              case Ok(db) => res == Ok(execution) && Tables() == db
              case Err(f) => res == Err(f) && Tables() == old(Tables())
    {
      if execution in effects || id in effects.Values || id !in plans {
        return Err(DatabaseConflict);
      }
      effects := effects[execution := id];
      return Ok(execution);
    }

    /** Only continuation plans go through the durable claim. */
    method StartEffect(id: string, supervisor: ProcessIdentity, execution: string, now: int)
      returns (res: Result<string, StoreFault>)
      modifies this
      ensures match Start(old(Tables()), id, supervisor, execution, now)
              case Ok(c) => res == Ok(execution) && Tables() == c.db
              case Err(f) => res == Err(f) && Tables() == old(Tables())
    {
      if id !in plans {
        return Err(DatabaseConflict);
      }
      if plans[id] {
        res := DurableBegin(id, supervisor, execution, now);
      } else {
        res := BeginEffect(id, execution);
      }
    }

    method DurableBegin(id: string, supervisor: ProcessIdentity, execution: string, now: int)
      returns (res: Result<string, StoreFault>)
      modifies this
      ensures match Begin(old(Tables()), id, supervisor, execution, now)
              case Ok(c) => res == Ok(execution) && Tables() == c.db
              case Err(f) => res == Err(f) && Tables() == old(Tables())
    {
      var read := ReadRun(id);
      if read.Err? {
        return Err(read.error);
      }
      var r := read.value;
      if r.cancellationRequested {
        return Err(CancelledBeforeStart);
      }
      if r.executionId.Some? {
        return Err(AlreadyStarted);
      }
      if execution in effects || id in effects.Values || id !in plans {
        return Err(DatabaseConflict);
      }
      var savepoint := effects;
      effects := effects[execution := id];
      var updated := UpdateRun(r, Claimed(supervisor, execution), now);
      if updated.Err? {
        effects := savepoint;
        return Err(updated.error);
      }
      return Ok(execution);
    }

    method DurableEvent(id: string, e: RunEvent, now: int) returns (res: Result<RunRecord, StoreFault>)
      modifies this
      ensures match Event(old(Tables()), id, e, now)
              case Ok(c) => res.Ok? && c.reply == Current(res.value) && Tables() == c.db
              case Err(f) => res == Err(f) && Tables() == old(Tables())
    {
      var read := ReadRun(id);
      if read.Err? {
        return read;
      }
      var r := read.value;
      if e.DeadlineExceeded? && r.cancellationRequested {
        return Ok(r);
      }
      if (e.ProviderTerminal? || e.Reconciled?) && e.status == r.provider {
        return Ok(r);
      }
      if e.Progress? && (r.sequence >= MAX_EVENTS - RESERVED || IsTerminal(r.provider)) {
        return Ok(r);
      }
      res := UpdateRun(r, e, now);
    }

    method DurableHeartbeat(id: string, owner: ProcessIdentity, now: int) returns (res: Result<RunRecord, StoreFault>)
      modifies this
      ensures match Heartbeat(old(Tables()), id, owner, now)
              case Ok(c) => res.Ok? && c.reply == Current(res.value) && Tables() == c.db
              case Err(f) => res == Err(f) && Tables() == old(Tables())
    {
      var read := ReadRun(id);
      if read.Err? {
        return read;
      }
      var r := read.value;
      if r.supervisor != Some(owner) || r.ownerReleased {
        return Err(SupervisorChanged);
      }
      if now < r.updatedAt {
        return Err(HeartbeatClock);
      }
      r := r.(lastHeartbeatAt := Some(now));
      runs := runs[id := runs[id].(payload := r)];
      return Ok(r);
    }

    method DurableCancel(id: string, expected: nat, now: int) returns (res: Result<bool, StoreFault>)
      modifies this
      ensures match Cancel(old(Tables()), id, expected, now)
              case Ok(c) => res == Ok(c.reply != Skipped) && Tables() == c.db
              case Err(f) => res == Err(f) && Tables() == old(Tables())
    {
      var read := ReadRun(id);
      if read.Err? {
        return Err(read.error);
      }
      var r := read.value;
      if r.revision != expected {
        return Err(RevisionConflict);
      }
      if r.ownerReleased || r.cancellationRequested {
        return Ok(false);
      }
      var updated := UpdateRun(r, RunEvent.CancelRequested, now);
      if updated.Err? {
        return Err(updated.error);
      }
      runs := runs[id := runs[id].(cancelRequested := true)];
      return Ok(true);
    }
  }
}
