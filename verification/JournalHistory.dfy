/**
 * Archiving moves texts and keeps history: in every reachable state each plan, receipt and step
 * reads as it was first written, however writers and archivers interleave, unless it is unarchived
 * and its own text looks like a marker.
 */
module JournalHistory {
  import opened Prelude
  import opened Control
  import opened Json
  import opened Text
  import opened Ordering
  import opened JournalArchive

  // ---------------------------------------------------------------- the invariant

  /** The text is JSON without the marker key. */
  predicate IsClean(h: Host, text: string) {
    var v := h.parse(text);
    v.Some? && Get(v.value, MARKER_KEY).None?
  }

  /** The record is stored as written, or as a marker whose pack entry is what was written. */
  predicate Held(h: Host, db: Db, ref: Ref)
    requires ref in db.original && IsProper(ref)
  {
    var slot, text := SlotOf(ref), db.original[ref];
    if slot !in db.entries then Current(db, ref) == Some(text)
    else
      var e := db.entries[slot];
      && Current(db, ref) == Some(Marker(h, e.archive, e.digest))
      && e.digest == h.sha(text)
      && e.archive in db.archives
      && var a := db.archives[e.archive];
      && IsSafeName(a.file)
      && FromFile(h, a, FindFile(db.files, a.file), slot, e.digest) == Ok(text)
  }

  /** The run a record belongs to is over and known to be. */
  ghost predicate OwnerSettled(db: Db, ref: Ref) {
    match ref
    case PlanRef(p) => exists r | r in db.runs :: db.runs[r].plan == p && IsSettled(db.runs[r].state)
    case ReceiptRef(r) => r in db.runs && IsSettled(db.runs[r].state)
    case StepRef(r, _) => r in db.runs && IsSettled(db.runs[r].state)
  }

  predicate RecordHeld(h: Host, db: Db, ref: Ref)
    requires ref in db.original
  {
    IsProper(ref) && Held(h, db, ref)
  }

  ghost predicate RecordsHeld(h: Host, db: Db) {
    && (forall ref | ref in db.original :: RecordHeld(h, db, ref))
    && (forall ref | Current(db, ref).Some? :: ref in db.original)
  }

  ghost predicate EntrySettled(db: Db, slot: Slot) {
    IsCanonical(slot) && RefOf(slot).value in db.original && OwnerSettled(db, RefOf(slot).value)
  }

  ghost predicate EntriesSettled(db: Db) {
    forall slot | slot in db.entries :: EntrySettled(db, slot)
  }

  ghost predicate PlansOk(h: Host, db: Db) {
    forall p | p in db.plans :: PlanRef(p) in db.original && db.plans[p].digest == h.sha(db.original[PlanRef(p)])
  }

  ghost predicate RunsOk(db: Db) {
    && db.runs.Keys == db.steps.Keys
    && (forall r | r in db.runs ::
          db.runs[r].plan in db.plans && (db.runs[r].state.Running? ==> db.runs[r].receipt.None?))
  }

  ghost predicate PlansRunOnce(db: Db) {
    forall r, q | r in db.runs && q in db.runs && db.runs[r].plan == db.runs[q].plan :: r == q
  }

  ghost predicate RowsWellFormed(h: Host, db: Db) {
    PlansOk(h, db) && RunsOk(db) && PlansRunOnce(db)
  }

  ghost predicate Inv(h: Host, db: Db) {
    RecordsHeld(h, db) && EntriesSettled(db) && RowsWellFormed(h, db)
  }

  // ---------------------------------------------------------------- what a held record gives

  /** The reader can tell the record's text from a marker: the text lacks the marker key, or is archived. */
  predicate IsReadable(h: Host, db: Db, ref: Ref)
    requires ref in db.original && IsProper(ref)
  {
    IsClean(h, db.original[ref]) || SlotOf(ref) in db.entries
  }

  lemma HeldReadsBack(h: Host, db: Db, ref: Ref)
    requires Faithful(h) && ref in db.original && RecordHeld(h, db, ref)
    ensures IsReadable(h, db, ref) ==> Read(h, db, ref) == Ok(db.original[ref])
    ensures !IsReadable(h, db, ref) ==> Read(h, db, ref).Err?
  {
    hide FromFile;
    hide FindFile;
    hide IsSafeName;
    var slot := SlotOf(ref);
    if slot in db.entries {
      var e := db.entries[slot];
      var v := MarkerValue(e.archive, e.digest);
      assert h.parse(h.render(v)) == Some(v);
    }
  }

  lemma ReadsBack(h: Host, db: Db, ref: Ref)
    requires Faithful(h) && Inv(h, db) && ref in db.original
    ensures IsProper(ref)
    ensures IsReadable(h, db, ref) ==> Read(h, db, ref) == Ok(db.original[ref])
    ensures !IsReadable(h, db, ref) ==> Read(h, db, ref).Err?
  {
    hide Held;
    hide IsClean;
    hide Faithful;
    hide EntriesSettled;
    hide RowsWellFormed;
    HeldReadsBack(h, db, ref);
  }

  /** The texts of runs that are still open, or whose end is unknown, stay in place. */
  lemma OpenRunsUntouched(h: Host, db: Db, ref: Ref)
    requires Inv(h, db) && ref in db.original && !OwnerSettled(db, ref)
    ensures IsProper(ref) && SlotOf(ref) !in db.entries && Current(db, ref) == Some(db.original[ref])
  {
    NameRoundTrip(ref);
  }

  // ---------------------------------------------------------------- steps that leave the archive alone

  /** What no operation undoes. */
  ghost predicate Grows(db: Db, later: Db) {
    && (forall ref | ref in db.original :: ref in later.original && later.original[ref] == db.original[ref])
    && (forall slot | slot in db.entries :: slot in later.entries && later.entries[slot] == db.entries[slot])
    && (forall name | FindFile(db.files, name).Some? :: FindFile(later.files, name) == FindFile(db.files, name))
    && RunsStay(db, later)
  }

  ghost predicate RunsStay(db: Db, later: Db) {
    forall r | r in db.runs ::
      && r in later.runs
      && later.runs[r].plan == db.runs[r].plan
      && (IsSettled(db.runs[r].state) ==> later.runs[r].state == db.runs[r].state)
  }

  lemma SettledStays(db: Db, later: Db, ref: Ref)
    requires RunsStay(db, later) && OwnerSettled(db, ref)
    ensures OwnerSettled(later, ref)
  {
    if ref.PlanRef? {
      var r :| r in db.runs && db.runs[r].plan == ref.id && IsSettled(db.runs[r].state);
      assert r in later.runs && later.runs[r].plan == ref.id;
    }
  }

  lemma GrowsTransitive(a: Db, b: Db, c: Db)
    requires Grows(a, b) && Grows(b, c)
    ensures Grows(a, c)
  {
    hide FindFile;
  }

  ghost predicate SameArchive(db: Db, later: Db) {
    db.entries == later.entries && db.archives == later.archives && db.files == later.files
  }

  /** A new record has no archive entry and is not among the recorded ones. */
  lemma NewRecord(h: Host, db: Db, ref: Ref)
    requires Inv(h, db) && IsProper(ref) && Current(db, ref).None?
    ensures ref !in db.original && SlotOf(ref) !in db.entries
  {
    hide FromFile;
    hide FindFile;
    hide IsSafeName;
    hide RowsWellFormed;
    NameRoundTrip(ref);
  }

  lemma HeldMoves(h: Host, db: Db, later: Db, ref: Ref)
    requires SameArchive(db, later) && Current(later, ref) == Current(db, ref)
    requires ref in db.original && ref in later.original && later.original[ref] == db.original[ref]
    requires RecordHeld(h, db, ref)
    ensures RecordHeld(h, later, ref)
  {
    hide FromFile;
    hide FindFile;
    hide IsSafeName;
    hide Current;
  }

  lemma EntriesStay(db: Db, later: Db)
    requires EntriesSettled(db) && RunsStay(db, later) && later.entries == db.entries
    requires forall ref | ref in db.original :: ref in later.original
    ensures EntriesSettled(later)
  {
    forall slot | slot in later.entries ensures EntrySettled(later, slot) {
      EntryStays(db, later, slot);
    }
  }

  lemma EntryStays(db: Db, later: Db, slot: Slot)
    requires EntrySettled(db, slot) && RunsStay(db, later)
    requires forall ref | ref in db.original :: ref in later.original
    ensures EntrySettled(later, slot)
  {
    hide RunsStay;
    hide OwnerSettled;
    SettledStays(db, later, RefOf(slot).value);
  }

  /** Writing one new record beside the others keeps every record held. */
  lemma AddedRecord(h: Host, db: Db, later: Db, ref: Ref, text: string)
    requires Inv(h, db) && SameArchive(db, later) && IsProper(ref)
    requires Current(db, ref).None?
    requires later.original == db.original[ref := text]
    requires forall other :: Current(later, other) == if other == ref then Some(text) else Current(db, other)
    requires RunsStay(db, later)
    ensures RecordsHeld(h, later) && EntriesSettled(later) && Grows(db, later)
  {
    hide FindFile;
    hide RowsWellFormed;
    hide RecordHeld;
    hide EntriesSettled;
    hide RunsStay;
    hide Current;
    NewRecord(h, db, ref);
    forall other | other in later.original ensures RecordHeld(h, later, other) {
      if other == ref {
        NewIsHeld(h, later, ref);
      } else {
        HeldMoves(h, db, later, other);
      }
    }
    EntriesStay(db, later);
  }

  lemma NewIsHeld(h: Host, db: Db, ref: Ref)
    requires ref in db.original && IsProper(ref)
    requires SlotOf(ref) !in db.entries && Current(db, ref) == Some(db.original[ref])
    ensures RecordHeld(h, db, ref)
  {
  }

  lemma SavePlanKeepsInv(h: Host, db: Db, id: string, project: string, plan: Value)
    requires Inv(h, db)
    requires SavePlan(h, db, id, project, plan).Ok?
    ensures Inv(h, SavePlan(h, db, id, project, plan).value) && Grows(db, SavePlan(h, db, id, project, plan).value)
  {
    hide RecordsHeld;
    hide EntriesSettled;
    hide FindFile;
    hide RowsWellFormed;
    hide RunsStay;
    hide Current;
    SavePlanRows(h, db, id, project, plan);
    AddedRecord(h, db, SavePlan(h, db, id, project, plan).value, PlanRef(id), h.render(plan));
  }

  lemma SavePlanRows(h: Host, db: Db, id: string, project: string, plan: Value)
    requires RowsWellFormed(h, db) && SavePlan(h, db, id, project, plan).Ok?
    ensures var later := SavePlan(h, db, id, project, plan).value;
      && RowsWellFormed(h, later) && RunsStay(db, later)
      && Current(db, PlanRef(id)).None?
      && forall other ::
           Current(later, other) == if other == PlanRef(id) then Some(h.render(plan)) else Current(db, other)
  {
    var later := SavePlan(h, db, id, project, plan).value;
    assert PlansOk(h, later) by { hide RunsOk; hide PlansRunOnce; }
    hide PlansOk;
    assert RunsOk(later);
    assert PlansRunOnce(later) && RunsStay(db, later) by { hide RunsOk; }
  }

  lemma BeginKeepsInv(h: Host, db: Db, run: string, plan: string)
    requires Inv(h, db) && Begin(db, run, plan).Ok?
    ensures Inv(h, Begin(db, run, plan).value) && Grows(db, Begin(db, run, plan).value)
  {
    hide FindFile;
    hide RecordHeld;
    hide EntriesSettled;
    hide RowsWellFormed;
    hide RunsStay;
    hide Current;
    var later := Begin(db, run, plan).value;
    BeginRows(h, db, run, plan);
    forall ref | ref in later.original ensures RecordHeld(h, later, ref) {
      HeldMoves(h, db, later, ref);
    }
    EntriesStay(db, later);
  }

  lemma BeginRows(h: Host, db: Db, run: string, plan: string)
    requires RowsWellFormed(h, db) && Begin(db, run, plan).Ok?
    ensures var later := Begin(db, run, plan).value;
      RowsWellFormed(h, later) && RunsStay(db, later) && forall ref :: Current(later, ref) == Current(db, ref)
  {
    hide RunsStay;
    hide Current;
    var later := Begin(db, run, plan).value;
    assert PlansOk(h, later) by { hide RunsOk; hide PlansRunOnce; }
    hide PlansOk;
    assert RunsOk(later) by { hide PlansRunOnce; }
    assert run !in db.steps;
    hide RunsOk;
    assert PlansRunOnce(later);
    hide PlansRunOnce;
    forall ref ensures Current(later, ref) == Current(db, ref) && RunsStay(db, later) {
      NewRunText(db, later, run, plan, ref);
    }
    NewRunText(db, later, run, plan, PlanRef(plan));
  }

  lemma NewRunText(db: Db, later: Db, run: string, plan: string, ref: Ref)
    requires run !in db.runs && run !in db.steps
    requires later.runs == db.runs[run := RunRow(plan, Running, None, None)]
    requires later.steps == db.steps[run := []] && later.plans == db.plans
    ensures Current(later, ref) == Current(db, ref) && RunsStay(db, later)
  {
  }

  lemma AddStepKeepsInv(h: Host, db: Db, run: string, payload: Value)
    requires Inv(h, db)
    requires AddStep(h, db, run, payload).Ok?
    ensures Inv(h, AddStep(h, db, run, payload).value) && Grows(db, AddStep(h, db, run, payload).value)
  {
    hide RecordsHeld;
    hide EntriesSettled;
    hide FindFile;
    hide ByteLength;
    hide RowsWellFormed;
    hide RunsStay;
    hide Current;
    var later := AddStep(h, db, run, payload).value;
    AddStepRows(h, db, run, payload);
    AddedRecord(h, db, later, StepRef(run, |db.steps[run]| + 1), h.render(payload));
  }

  lemma AddStepRows(h: Host, db: Db, run: string, payload: Value)
    requires Inv(h, db) && AddStep(h, db, run, payload).Ok?
    ensures var later := AddStep(h, db, run, payload).value;
      var ref := StepRef(run, |db.steps[run]| + 1);
      && RowsWellFormed(h, later) && RunsStay(db, later)
      && Current(db, ref).None?
      && forall other :: Current(later, other) == if other == ref then Some(h.render(payload)) else Current(db, other)
  {
    hide RecordsHeld;
    hide EntriesSettled;
    hide ByteLength;
    var later := AddStep(h, db, run, payload).value;
    var ref, text := StepRef(run, |db.steps[run]| + 1), h.render(payload);
    assert Current(db, ref).None?;
    hide RowsWellFormed;
    RowsWithStep(h, db, later, run, ref, text);
    forall other ensures Current(later, other) == if other == ref then Some(text) else Current(db, other) {
      StepAppended(db, later, run, text, other);
    }
  }

  lemma RowsWithStep(h: Host, db: Db, later: Db, run: string, ref: Ref, text: string)
    requires RowsWellFormed(h, db) && run in db.steps && ref.StepRef?
    requires later == db.(steps := db.steps[run := db.steps[run] + [text]], original := db.original[ref := text])
    ensures RowsWellFormed(h, later) && RunsStay(db, later)
  {
    assert PlansOk(h, later) by { hide RunsOk; hide PlansRunOnce; }
    hide PlansOk;
    assert RunsOk(later) by { hide PlansRunOnce; }
    assert PlansRunOnce(later) && RunsStay(db, later) by { hide RunsOk; }
  }

  lemma StepAppended(db: Db, later: Db, run: string, text: string, other: Ref)
    requires run in db.steps && later.steps == db.steps[run := db.steps[run] + [text]]
    requires later.plans == db.plans && later.runs == db.runs
    ensures Current(later, other)
      == if other == StepRef(run, |db.steps[run]| + 1) then Some(text) else Current(db, other)
  {
  }

  lemma FinishKeepsInv(
    h: Host, db: Db, run: string, plan: string, state: ExecutionState, at: Option<int>, receipt: Value)
    requires Inv(h, db) && state != Running
    requires Finish(h, db, run, plan, state, at, receipt).Ok?
    ensures Inv(h, Finish(h, db, run, plan, state, at, receipt).value)
    ensures Grows(db, Finish(h, db, run, plan, state, at, receipt).value)
  {
    hide RecordsHeld;
    hide EntriesSettled;
    hide FindFile;
    hide RowsWellFormed;
    hide RunsStay;
    hide Current;
    FinishRows(h, db, run, plan, state, at, receipt);
    AddedRecord(h, db, Finish(h, db, run, plan, state, at, receipt).value, ReceiptRef(run), h.render(receipt));
  }

  lemma FinishRows(h: Host, db: Db, run: string, plan: string, state: ExecutionState, at: Option<int>, receipt: Value)
    requires RowsWellFormed(h, db) && state != Running && Finish(h, db, run, plan, state, at, receipt).Ok?
    ensures var later := Finish(h, db, run, plan, state, at, receipt).value;
      && RowsWellFormed(h, later) && RunsStay(db, later)
      && Current(db, ReceiptRef(run)).None?
      && forall other ::
           Current(later, other) == if other == ReceiptRef(run) then Some(h.render(receipt)) else Current(db, other)
  {
    hide PlansOk;
    hide RunsOk;
    hide PlansRunOnce;
    hide RunsStay;
    hide Current;
    var later := Finish(h, db, run, plan, state, at, receipt).value;
    var row := RunRow(plan, state, at, Some(h.render(receipt)));
    PlansKeep(h, db, later, ReceiptRef(run), h.render(receipt));
    FinishedRow(db, later, run, row);
    forall other
      ensures Current(later, other) == if other == ReceiptRef(run) then Some(h.render(receipt)) else Current(db, other)
    {
      FinishedText(db, later, run, row, other);
    }
  }

  /** Recording anything but a plan leaves the plan rows in order. */
  lemma PlansKeep(h: Host, db: Db, later: Db, ref: Ref, text: string)
    requires PlansOk(h, db) && !ref.PlanRef?
    requires later.plans == db.plans && later.original == db.original[ref := text]
    ensures PlansOk(h, later)
  {
  }

  lemma FinishedRow(db: Db, later: Db, run: string, row: RunRow)
    requires RunsOk(db) && PlansRunOnce(db)
    requires run in db.runs && db.runs[run].state == Running && row.plan == db.runs[run].plan && row.state != Running
    requires later.runs == db.runs[run := row] && later.plans == db.plans && later.steps == db.steps
    ensures RunsOk(later) && PlansRunOnce(later) && RunsStay(db, later)
    ensures Current(db, ReceiptRef(run)).None?
  {
    hide PlansRunOnce;
    SamePlanPerRun(db, later, run, row);
  }

  lemma SamePlanPerRun(db: Db, later: Db, run: string, row: RunRow)
    requires PlansRunOnce(db) && run in db.runs && row.plan == db.runs[run].plan
    requires later.runs == db.runs[run := row]
    ensures PlansRunOnce(later)
  {
  }

  lemma FinishedText(db: Db, later: Db, run: string, row: RunRow, other: Ref)
    requires later.runs == db.runs[run := row] && later.plans == db.plans && later.steps == db.steps
    requires row.receipt.Some?
    ensures Current(later, other) == if other == ReceiptRef(run) then row.receipt else Current(db, other)
  {
  }

  // ---------------------------------------------------------------- writing a pack file

  lemma FindFileAppended(files: seq<File>, f: File, name: string)
    ensures FindFile(files + [f], name) == if name == f.name then Some(f.text) else FindFile(files, name)
  {
    assert (files + [f])[..|files|] == files;
  }

  lemma WriteFileKeepsInv(h: Host, db: Db, archive: string, pack: Pack)
    requires Inv(h, db) && WriteFile(h, db, archive, pack).Ok?
    ensures var later := WriteFile(h, db, archive, pack).value;
      && Inv(h, later) && Grows(db, later)
      && FindFile(later.files, FileName(archive)) == Some(h.pack(pack))
  {
    hide FindFile;
    hide RecordHeld;
    hide EntriesSettled;
    var later := WriteFile(h, db, archive, pack).value;
    var f := File(FileName(archive), h.pack(pack));
    forall name
      ensures FindFile(later.files, name) == if name == f.name then Some(f.text) else FindFile(db.files, name)
    {
      FindFileAppended(db.files, f, name);
    }
    assert Grows(db, later);
    forall ref | ref in db.original ensures RecordHeld(h, later, ref) {
      HeldWithFiles(h, db, later, ref);
    }
    EntriesStay(db, later);
  }

  lemma HeldWithFiles(h: Host, db: Db, later: Db, ref: Ref)
    requires later == db.(files := later.files) && ref in db.original && RecordHeld(h, db, ref)
    requires forall name | FindFile(db.files, name).Some? :: FindFile(later.files, name) == FindFile(db.files, name)
    ensures RecordHeld(h, later, ref)
  {
    hide FindFile;
    hide IsSafeName;
    hide FromFile;
    assert Held(h, db, ref);
    if SlotOf(ref) in db.entries {
      var e := db.entries[SlotOf(ref)];
      MissingFile(h, db.archives[e.archive], SlotOf(ref), e.digest);
    }
  }

  lemma MissingFile(h: Host, a: ArchiveRow, slot: Slot, digest: string)
    ensures FromFile(h, a, None, slot, digest).Err?
  {
  }

  // ---------------------------------------------------------------- committing a pack

  /** An entry as the scan makes it: spelled canonically, digested, of a run that is over. */
  ghost predicate EntryOk(h: Host, db: Db, e: Entry) {
    IsCanonical(e.slot) && e.digest == h.sha(e.value) && OwnerSettled(db, RefOf(e.slot).value)
  }

  ghost predicate EntriesOk(h: Host, db: Db, es: seq<Entry>) {
    forall e | e in es :: EntryOk(h, db, e)
  }

  function Slots(es: seq<Entry>): set<Slot> {
    set e | e in es :: e.slot
  }

  /** Tables that differ in stored texts and archive entries only. */
  ghost predicate SameRows(db: Db, later: Db) {
    && db.archives == later.archives && db.files == later.files && db.original == later.original
    && db.plans.Keys == later.plans.Keys
    && (forall p | p in db.plans :: later.plans[p].digest == db.plans[p].digest)
    && db.runs.Keys == later.runs.Keys
    && (forall r | r in db.runs ::
          && later.runs[r].plan == db.runs[r].plan && later.runs[r].state == db.runs[r].state
          && (db.runs[r].receipt.None? ==> later.runs[r].receipt.None?))
    && db.steps.Keys == later.steps.Keys
  }

  /** What committing leaves: every packed text was current and is a marker now, the rest stays. */
  ghost predicate Replaced(h: Host, db: Db, archive: string, es: seq<Entry>, later: Db) {
    && later.entries.Keys == db.entries.Keys + Slots(es)
    && (forall slot | slot in db.entries :: later.entries[slot] == db.entries[slot])
    && (forall e | e in es :: Moved(h, db, archive, e, later))
    && (forall ref :: (IsProper(ref) && SlotOf(ref) in Slots(es)) || Current(later, ref) == Current(db, ref))
  }

  ghost predicate Moved(h: Host, db: Db, archive: string, e: Entry, later: Db) {
    && e.slot !in db.entries
    && e.slot in later.entries && later.entries[e.slot] == EntryRow(archive, e.digest)
    && RefOf(e.slot).Some?
    && Current(db, RefOf(e.slot).value) == Some(e.value)
    && Current(later, RefOf(e.slot).value) == Some(Marker(h, archive, e.digest))
  }

  /** One entry: its record alone changes text. */
  ghost predicate MovedAlone(h: Host, db: Db, archive: string, e: Entry, later: Db) {
    && Moved(h, db, archive, e, later)
    && later.entries == db.entries[e.slot := EntryRow(archive, e.digest)]
    && (forall ref | RefOf(e.slot) != Some(ref) :: Current(later, ref) == Current(db, ref))
  }

  lemma SetTextRows(db: Db, ref: Ref, text: string)
    requires Current(db, ref).Some?
    ensures SameRows(db, SetText(db, ref, text)) && SetText(db, ref, text).entries == db.entries
  {
  }

  lemma CommitOneMeaning(h: Host, db: Db, archive: string, e: Entry)
    requires CommitOne(h, db, archive, e).Ok?
    ensures var later := CommitOne(h, db, archive, e).value;
      MovedAlone(h, db, archive, e, later) && SameRows(db, later)
  {
    hide RefOf;
    hide Marker;
    var ref := RefOf(e.slot).value;
    var claimed := db.(entries := db.entries[e.slot := EntryRow(archive, e.digest)]);
    var text := Marker(h, archive, e.digest);
    assert forall other :: Current(claimed, other) == Current(db, other);
    SetTextRows(claimed, ref, text);
    assert SameRows(db, claimed);
    SameRowsTransitive(db, claimed, SetText(claimed, ref, text));
    hide SameRows;
    forall other
      ensures Current(SetText(claimed, ref, text), other) == if other == ref then Some(text) else Current(db, other)
    {
      SetTextMeaning(claimed, ref, text, other);
    }
    hide Current;
    hide SetText;
  }

  lemma {:induction false} CommitMeaning(h: Host, db: Db, archive: string, es: seq<Entry>)
    requires CommitEntries(h, db, archive, es).Ok?
    requires forall e | e in es :: IsCanonical(e.slot)
    ensures Replaced(h, db, archive, es, CommitEntries(h, db, archive, es).value)
    ensures SameRows(db, CommitEntries(h, db, archive, es).value)
    ensures forall e | e in es :: Matching(es, e.slot) == [e]
    decreases |es|
  {
    hide Replaced;
    hide SameRows;
    hide CommitOne;
    hide MovedAlone;
    hide IsCanonical;
    if es == [] {
      NothingReplaced(h, db, archive);
    } else {
      var front, last := es[..|es| - 1], es[|es| - 1];
      assert es == front + [last];
      CommitMeaning(h, db, archive, front);
      var middle := CommitEntries(h, db, archive, front).value;
      var later := CommitOne(h, middle, archive, last).value;
      CommitOneMeaning(h, middle, archive, last);
      SameRowsTransitive(db, middle, later);
      ReplacedMore(h, db, archive, front, middle, last, later);
      NewSlot(h, db, archive, front, middle, last, later);
      NoMatch(front, last.slot);
    }
  }

  lemma NothingReplaced(h: Host, db: Db, archive: string)
    ensures Replaced(h, db, archive, [], db) && SameRows(db, db)
  {
  }

  lemma SameRowsTransitive(a: Db, b: Db, c: Db)
    requires SameRows(a, b) && SameRows(b, c)
    ensures SameRows(a, c)
  {
  }

  lemma NewSlot(h: Host, db: Db, archive: string, es: seq<Entry>, middle: Db, e: Entry, later: Db)
    requires Replaced(h, db, archive, es, middle) && MovedAlone(h, middle, archive, e, later)
    ensures e.slot !in Slots(es)
    ensures forall other | other in es :: other.slot != e.slot
  {
    hide Current;
    hide RefOf;
    hide SlotOf;
    forall other | other in es ensures other.slot != e.slot {
      assert Moved(h, db, archive, other, middle);
    }
  }

  lemma {:induction false} NoMatch(es: seq<Entry>, slot: Slot)
    requires forall e | e in es :: e.slot != slot
    ensures Matching(es, slot) == []
  {
    if es != [] {
      NoMatch(es[..|es| - 1], slot);
    }
  }

  lemma ReplacedMore(h: Host, db: Db, archive: string, es: seq<Entry>, middle: Db, e: Entry, later: Db)
    requires Replaced(h, db, archive, es, middle) && MovedAlone(h, middle, archive, e, later)
    requires IsCanonical(e.slot) && forall o | o in es :: IsCanonical(o.slot)
    ensures Replaced(h, db, archive, es + [e], later)
  {
    hide Current;
    hide RefOf;
    hide SlotOf;
    hide Marker;
    NewSlot(h, db, archive, es, middle, e, later);
    assert Slots(es + [e]) == Slots(es) + {e.slot} by {
      forall s | s in Slots(es) + {e.slot} ensures s in Slots(es + [e]) {
        if s == e.slot {
          assert e in es + [e];
        } else {
          var o :| o in es && o.slot == s;
          assert o in es + [e];
        }
      }
    }
    forall o | o in es + [e] ensures Moved(h, db, archive, o, later) {
      if o in es {
        assert Moved(h, db, archive, o, middle);
        OtherRecord(o.slot, e.slot);
      } else {
        CanonicalName(e.slot);
        assert Current(middle, RefOf(e.slot).value) == Current(db, RefOf(e.slot).value);
      }
    }
    forall ref | !(IsProper(ref) && SlotOf(ref) in Slots(es + [e]))
      ensures Current(later, ref) == Current(db, ref)
    {
      CanonicalName(e.slot);
      assert Current(middle, ref) == Current(db, ref);
    }
  }

  lemma CanonicalName(slot: Slot)
    requires IsCanonical(slot)
    ensures IsProper(RefOf(slot).value) && SlotOf(RefOf(slot).value) == slot
  {
  }

  lemma OtherRecord(a: Slot, b: Slot)
    requires IsCanonical(a) && IsCanonical(b) && a != b
    ensures RefOf(a) != RefOf(b)
  {
  }

  /** The entry's record is unarchived, still has the packed text, and may be replaced. */
  predicate Fits(db: Db, e: Entry) {
    && RefOf(e.slot).Some?
    && var ref := RefOf(e.slot).value;
    && e.slot !in db.entries
    && Current(db, ref) == Some(e.value)
    && (ref.ReceiptRef? ==> IsSettled(db.runs[ref.run].state))
    && (ref.PlanRef? ==> db.plans[ref.id].digest == e.digest)
  }

  /** Every entry fits the tables as they stand before the commit, and no record is named twice. */
  predicate Committable(db: Db, es: seq<Entry>) {
    es == []
    || (var front, last := es[..|es| - 1], es[|es| - 1];
        Committable(db, front) && Fits(db, last) && last.slot !in Slots(front))
  }

  /** A pack commits exactly when nothing in it is stale, archived or doubled; else nothing of it does. */
  lemma {:induction false} CommitsIffCommittable(h: Host, db: Db, archive: string, es: seq<Entry>)
    requires forall e | e in es :: IsCanonical(e.slot)
    ensures CommitEntries(h, db, archive, es).Ok? <==> Committable(db, es)
    decreases |es|
  {
    hide Fits;
    hide CommitOne;
    hide IsCanonical;
    hide Slots;
    hide SameRows;
    hide Replaced;
    if es != [] {
      var front, last := es[..|es| - 1], es[|es| - 1];
      CommitsIffCommittable(h, db, archive, front);
      if CommitEntries(h, db, archive, front).Ok? {
        CommitMeaning(h, db, archive, front);
        FitsLater(h, db, archive, front, CommitEntries(h, db, archive, front).value, last);
      }
    }
  }

  lemma FitsLater(h: Host, db: Db, archive: string, es: seq<Entry>, middle: Db, e: Entry)
    requires Replaced(h, db, archive, es, middle) && SameRows(db, middle) && IsCanonical(e.slot)
    ensures CommitOne(h, middle, archive, e).Ok? <==> Fits(db, e) && e.slot !in Slots(es)
  {
    hide SlotOf;
    hide Slots;
    hide Moved;
    hide Marker;
    CanonicalName(e.slot);
  }

  /** A pack on file under its archive name, made of entries of settled runs. */
  ghost predicate Filed(h: Host, db: Db, archive: string, pack: Pack) {
    && FindFile(db.files, FileName(archive)) == Some(h.pack(pack))
    && IsSafeName(FileName(archive))
    && pack.version == 1 && |pack.entries| <= MAX_RECORDS
    && EntriesOk(h, db, pack.entries)
  }

  /** The tables after the archive row is inserted and before the entries are. */
  function WithArchive(h: Host, db: Db, archive: string, pack: Pack): Db {
    var text := h.pack(pack);
    db.(archives := db.archives[archive :=
      ArchiveRow(pack.project, FileName(archive), h.sha(text), ByteLength(text), |pack.entries|)])
  }

  lemma CommitPackMeaning(h: Host, db: Db, archive: string, pack: Pack)
    requires CommitPack(h, db, archive, pack).Ok? && EntriesOk(h, db, pack.entries)
    ensures archive !in db.archives && ByteLength(h.pack(pack)) <= PACK_LIMIT
    ensures var later := CommitPack(h, db, archive, pack).value;
      && Replaced(h, db, archive, pack.entries, later)
      && SameRows(WithArchive(h, db, archive, pack), later)
      && forall e | e in pack.entries :: Matching(pack.entries, e.slot) == [e]
  {
    hide ByteLength;
    hide SameRows;
    hide CommitEntries;
    hide FileName;
    var start := WithArchive(h, db, archive, pack);
    assert CommitPack(h, db, archive, pack) == CommitEntries(h, start, archive, pack.entries);
    CommitMeaning(h, start, archive, pack.entries);
    SameStart(h, db, start, archive, pack.entries, CommitPack(h, db, archive, pack).value);
  }

  lemma SameStart(h: Host, db: Db, start: Db, archive: string, es: seq<Entry>, later: Db)
    requires start == db.(archives := start.archives) && Replaced(h, start, archive, es, later)
    ensures Replaced(h, db, archive, es, later)
  {
    hide RefOf;
    hide SlotOf;
    hide Marker;
    assert forall ref :: Current(start, ref) == Current(db, ref);
  }

  /** A record that no packed entry names is held as before. */
  lemma HeldOutside(h: Host, db: Db, archive: string, pack: Pack, later: Db, ref: Ref)
    requires Replaced(h, db, archive, pack.entries, later) && SameRows(WithArchive(h, db, archive, pack), later)
    requires archive !in db.archives && ref in db.original && RecordHeld(h, db, ref)
    requires SlotOf(ref) !in Slots(pack.entries)
    ensures RecordHeld(h, later, ref)
  {
    hide Current;
    hide RefOf;
    hide FromFile;
    hide FindFile;
    hide IsSafeName;
    hide ByteLength;
    hide Slots;
    hide Moved;
  }

  /** A packed record is held through its pack. */
  lemma HeldInside(h: Host, db: Db, archive: string, pack: Pack, later: Db, ref: Ref, e: Entry)
    requires Faithful(h) && Filed(h, db, archive, pack)
    requires Moved(h, db, archive, e, later) && SameRows(WithArchive(h, db, archive, pack), later)
    requires ByteLength(h.pack(pack)) <= PACK_LIMIT && Matching(pack.entries, e.slot) == [e]
    requires ref in db.original && RecordHeld(h, db, ref)
    requires e in pack.entries && e.slot == SlotOf(ref)
    ensures e.value == db.original[ref] && RecordHeld(h, later, ref)
  {
    hide Current;
    hide SlotOf;
    hide RefOf;
    hide FindFile;
    hide IsSafeName;
    hide Matching;
    hide ByteLength;
    hide OwnerSettled;
    NameRoundTrip(ref);
    assert EntryOk(h, db, e);
    assert Held(h, db, ref);
    assert h.unpack(h.pack(pack)) == Some(pack);
  }

  lemma CommitKeepsInv(h: Host, db: Db, archive: string, pack: Pack)
    requires Faithful(h) && Inv(h, db) && Filed(h, db, archive, pack)
    requires CommitPack(h, db, archive, pack).Ok?
    ensures var later := CommitPack(h, db, archive, pack).value; Inv(h, later) && Grows(db, later)
  {
    hide CommitPack;
    hide RecordHeld;
    hide EntrySettled;
    hide Replaced;
    hide SameRows;
    hide FindFile;
    hide IsSafeName;
    hide ByteLength;
    hide Current;
    hide RowsWellFormed;
    hide Grows;
    hide Slots;
    var later := CommitPack(h, db, archive, pack).value;
    CommitPackMeaning(h, db, archive, pack);
    RowsAfterCommit(h, db, archive, pack, later);
    forall ref | ref in later.original ensures RecordHeld(h, later, ref) {
      HeldAfterCommit(h, db, archive, pack, later, ref);
    }
    forall slot | slot in later.entries ensures EntrySettled(later, slot) {
      SettledAfterCommit(h, db, archive, pack, later, slot);
    }
    forall ref | Current(later, ref).Some? ensures ref in later.original {
      NothingAppears(h, db, archive, pack, later, ref);
    }
  }

  lemma RowsAfterCommit(h: Host, db: Db, archive: string, pack: Pack, later: Db)
    requires RowsWellFormed(h, db)
    requires Replaced(h, db, archive, pack.entries, later) && SameRows(WithArchive(h, db, archive, pack), later)
    ensures RowsWellFormed(h, later) && Grows(db, later)
    ensures later.original == db.original
  {
    hide Current;
    hide FindFile;
    hide ByteLength;
    hide Moved;
    hide Slots;
  }

  lemma HeldAfterCommit(h: Host, db: Db, archive: string, pack: Pack, later: Db, ref: Ref)
    requires Faithful(h) && Filed(h, db, archive, pack) && archive !in db.archives
    requires Replaced(h, db, archive, pack.entries, later) && SameRows(WithArchive(h, db, archive, pack), later)
    requires ByteLength(h.pack(pack)) <= PACK_LIMIT
    requires forall e | e in pack.entries :: Matching(pack.entries, e.slot) == [e]
    requires ref in db.original && RecordHeld(h, db, ref)
    ensures ref in later.original && RecordHeld(h, later, ref)
    ensures forall e | e in pack.entries && e.slot == SlotOf(ref) :: e.value == db.original[ref]
  {
    hide Current;
    hide RefOf;
    hide SlotOf;
    hide Held;
    hide FindFile;
    hide IsSafeName;
    hide ByteLength;
    hide Matching;
    hide Filed;
    hide Moved;
    forall e | e in pack.entries && e.slot == SlotOf(ref) ensures e.value == db.original[ref] {
      HeldInside(h, db, archive, pack, later, ref, e);
    }
    if SlotOf(ref) in Slots(pack.entries) {
      var e :| e in pack.entries && e.slot == SlotOf(ref);
      HeldInside(h, db, archive, pack, later, ref, e);
    } else {
      HeldOutside(h, db, archive, pack, later, ref);
    }
  }

  lemma SettledAfterCommit(h: Host, db: Db, archive: string, pack: Pack, later: Db, slot: Slot)
    requires Inv(h, db) && EntriesOk(h, db, pack.entries) && slot in later.entries
    requires Replaced(h, db, archive, pack.entries, later) && Grows(db, later) && later.original == db.original
    ensures EntrySettled(later, slot)
  {
    hide RecordHeld;
    hide RowsWellFormed;
    hide RefOf;
    hide SlotOf;
    hide Current;
    hide FindFile;
    hide OwnerSettled;
    hide RunsStay;
    if slot !in db.entries {
      var e :| e in pack.entries && e.slot == slot;
      assert EntryOk(h, db, e) && Moved(h, db, archive, e, later);
      SettledStays(db, later, RefOf(slot).value);
    } else {
      assert EntrySettled(db, slot);
      SettledStays(db, later, RefOf(slot).value);
    }
  }

  lemma NothingAppears(h: Host, db: Db, archive: string, pack: Pack, later: Db, ref: Ref)
    requires Inv(h, db) && Current(later, ref).Some?
    requires Replaced(h, db, archive, pack.entries, later) && SameRows(WithArchive(h, db, archive, pack), later)
    ensures ref in db.original
  {
    hide RecordHeld;
    hide RowsWellFormed;
    hide RefOf;
    hide SlotOf;
    hide Current;
    if IsProper(ref) && SlotOf(ref) in Slots(pack.entries) {
      var e :| e in pack.entries && e.slot == SlotOf(ref);
      assert Moved(h, db, archive, e, later);
      NameRoundTrip(ref);
    }
  }

  /** A committed pack holds first-written texts only: a marker put in place of one is never archived again. */
  lemma NoMarkerIsArchived(h: Host, db: Db, archive: string, pack: Pack, e: Entry)
    requires Faithful(h) && Inv(h, db) && Filed(h, db, archive, pack) && e in pack.entries
    requires CommitPack(h, db, archive, pack).Ok?
    ensures e.slot !in db.entries && RefOf(e.slot).Some? && RefOf(e.slot).value in db.original
    ensures e.value == db.original[RefOf(e.slot).value]
  {
    hide CommitPack;
    hide SameRows;
    hide FindFile;
    hide IsSafeName;
    hide ByteLength;
    hide Current;
    hide RowsWellFormed;
    hide Held;
    hide OwnerSettled;
    hide RefOf;
    hide SlotOf;
    hide Filed;
    var later := CommitPack(h, db, archive, pack).value;
    assert EntriesOk(h, db, pack.entries) by { FiledEntries(h, db, archive, pack); }
    CommitPackMeaning(h, db, archive, pack);
    assert Moved(h, db, archive, e, later) && EntryOk(h, db, e);
    var ref := RefOf(e.slot).value;
    assert RecordHeld(h, db, ref);
    HeldAfterCommit(h, db, archive, pack, later, ref);
  }

  lemma FiledEntries(h: Host, db: Db, archive: string, pack: Pack)
    requires Filed(h, db, archive, pack)
    ensures EntriesOk(h, db, pack.entries)
  {
  }

  // ---------------------------------------------------------------- the scan

  lemma MadeEntryOk(h: Host, db: Db, ref: Ref, text: string)
    requires IsProper(ref) && OwnerSettled(db, ref)
    ensures EntryOk(h, db, MakeEntry(h, ref, text))
  {
    NameRoundTrip(ref);
  }

  lemma PushedOk(h: Host, db: Db, k: Kept, es: seq<Entry>)
    requires WithinBudget(k) && EntriesOk(h, db, k.records) && EntriesOk(h, db, es)
    ensures PushAll(h, k, es).Ok? ==>
      WithinBudget(PushAll(h, k, es).value) && EntriesOk(h, db, PushAll(h, k, es).value.records)
  {
    hide EntryOk;
    PushAllMeaning(h, k, es);
  }

  lemma ListedOk(h: Host, db: Db, project: string, before: int, k: Kept, run: string)
    requires IsEligible(db, project, before, run)
    ensures EntriesOk(h, db, RunEntries(h, db, run))
  {
    hide EntryOk;
    hide SlotOf;
    var row := db.runs[run];
    assert OwnerSettled(db, PlanRef(row.plan));
    MadeEntryOk(h, db, PlanRef(row.plan), db.plans[row.plan].payload);
    if row.receipt.Some? {
      MadeEntryOk(h, db, ReceiptRef(run), row.receipt.value);
    }
  }

  lemma {:induction false} ListOk(h: Host, db: Db, project: string, before: int, k: Kept, picked: seq<string>)
    requires forall r | r in picked :: IsEligible(db, project, before, r)
    requires WithinBudget(k) && EntriesOk(h, db, k.records) && ListEntries(h, db, k, picked).Ok?
    ensures WithinBudget(ListEntries(h, db, k, picked).value)
    ensures EntriesOk(h, db, ListEntries(h, db, k, picked).value.records)
  {
    hide IsEligible;
    hide EntriesOk;
    hide RunEntries;
    hide PushAll;
    if picked != [] {
      var front, run := picked[..|picked| - 1], picked[|picked| - 1];
      ListOk(h, db, project, before, k, front);
      ListedOk(h, db, project, before, k, run);
      PushedOk(h, db, ListEntries(h, db, k, front).value, RunEntries(h, db, run));
    }
  }

  lemma ScanOk(h: Host, db: Db, k: Kept, run: string)
    requires run in db.runs && IsSettled(db.runs[run].state)
    requires WithinBudget(k) && EntriesOk(h, db, k.records) && ScanSteps(h, db, k, run).Ok?
    ensures WithinBudget(ScanSteps(h, db, k, run).value) && EntriesOk(h, db, ScanSteps(h, db, k, run).value.records)
  {
    hide EntryOk;
    hide PushAll;
    hide SlotOf;
    var texts := StepTexts(db, run);
    var es := StepEntries(h, db, run, Min(|texts|, MAX_STEPS));
    forall e | e in es ensures EntryOk(h, db, e) {
      var i :| 0 <= i < |es| && es[i] == e;
      MadeEntryOk(h, db, StepRef(run, i + 1), texts[i]);
    }
    PushedOk(h, db, k, es);
  }

  lemma {:induction false} ScanAllOk(h: Host, db: Db, k: Kept, runs: seq<string>)
    requires forall r | r in runs :: r in db.runs && IsSettled(db.runs[r].state)
    requires WithinBudget(k) && EntriesOk(h, db, k.records) && ScanAll(h, db, k, runs).Ok?
    ensures WithinBudget(ScanAll(h, db, k, runs).value)
    ensures EntriesOk(h, db, ScanAll(h, db, k, runs).value.records)
  {
    hide EntriesOk;
    hide ScanSteps;
    if runs != [] {
      ScanAllOk(h, db, k, runs[..|runs| - 1]);
      ScanOk(h, db, ScanAll(h, db, k, runs[..|runs| - 1]).value, runs[|runs| - 1]);
    }
  }

  // ---------------------------------------------------------------- what a selection holds

  lemma {:induction false} WeightAppend(h: Host, a: seq<Entry>, b: seq<Entry>)
    ensures Weight(h, a + b) == Weight(h, a) + Weight(h, b)
  {
    if b == [] {
      assert a + b == a;
    } else {
      WeightAppend(h, a, b[..|b| - 1]);
      assert (a + b)[..|a + b| - 1] == a + b[..|b| - 1];
    }
  }

  /** The entry is the plan of one of the runs, or its receipt. */
  predicate IsListed(h: Host, db: Db, picked: seq<string>, e: Entry) {
    exists r | r in picked :: e in RunEntries(h, db, r)
  }

  /** The entry is a step of one of the runs. */
  predicate IsStepOf(h: Host, db: Db, picked: seq<string>, e: Entry) {
    exists r | r in picked :: IsStepOfRun(h, db, r, e)
  }

  predicate IsStepOfRun(h: Host, db: Db, run: string, e: Entry) {
    exists i | 0 <= i < |StepTexts(db, run)| && i < MAX_STEPS ::
      e == MakeEntry(h, StepRef(run, i + 1), StepTexts(db, run)[i])
  }

  /** Plans and receipts in listing order. */
  function AllListed(h: Host, db: Db, picked: seq<string>): seq<Entry> {
    if picked == [] then []
    else AllListed(h, db, picked[..|picked| - 1]) + RunEntries(h, db, picked[|picked| - 1])
  }

  /** The steps of the runs in listing order, at most a thousand of each. */
  function AllSteps(h: Host, db: Db, picked: seq<string>): seq<Entry> {
    if picked == [] then []
    else
      var run := picked[|picked| - 1];
      AllSteps(h, db, picked[..|picked| - 1]) + StepEntries(h, db, run, Min(|StepTexts(db, run)|, MAX_STEPS))
  }

  lemma {:induction false} ListedMeaning(h: Host, db: Db, picked: seq<string>, e: Entry)
    ensures e in AllListed(h, db, picked) <==> IsListed(h, db, picked, e)
  {
    hide RunEntries;
    if picked != [] {
      var front, run := picked[..|picked| - 1], picked[|picked| - 1];
      ListedMeaning(h, db, front, e);
      assert picked == front + [run];
    }
  }

  lemma {:induction false} StepsMeaning(h: Host, db: Db, picked: seq<string>, e: Entry)
    ensures e in AllSteps(h, db, picked) <==> IsStepOf(h, db, picked, e)
  {
    hide StepEntries;
    hide IsStepOfRun;
    if picked != [] {
      var front, run := picked[..|picked| - 1], picked[|picked| - 1];
      StepsMeaning(h, db, front, e);
      StepsOfRun(h, db, run, e);
      assert picked == front + [run];
    }
  }

  lemma StepsOfRun(h: Host, db: Db, run: string, e: Entry)
    ensures e in StepEntries(h, db, run, Min(|StepTexts(db, run)|, MAX_STEPS)) <==> IsStepOfRun(h, db, run, e)
  {
    hide MakeEntry;
    var n := Min(|StepTexts(db, run)|, MAX_STEPS);
    var es := StepEntries(h, db, run, n);
    assert forall i | 0 <= i < n :: es[i] == MakeEntry(h, StepRef(run, i + 1), StepTexts(db, run)[i]);
  }

  /** Within both budgets counting what is kept already. */
  predicate FitsBudgets(h: Host, k: Kept, es: seq<Entry>) {
    |k.records| + |es| <= MAX_RECORDS && k.used + Weight(h, es) <= RECORD_BUDGET
  }

  /** Keeping one batch after another is keeping them together. */
  lemma PushInTurn(h: Host, k: Kept, a: seq<Entry>, b: seq<Entry>)
    requires WithinBudget(k)
    ensures FitsBudgets(h, k, a + b) <==>
      FitsBudgets(h, k, a) && FitsBudgets(h, Kept(k.records + a, k.used + Weight(h, a)), b)
    ensures k.records + (a + b) == k.records + a + b
    ensures k.used + Weight(h, a + b) == k.used + Weight(h, a) + Weight(h, b)
  {
    WeightAppend(h, a, b);
  }

  lemma {:induction false} ListIsExact(h: Host, db: Db, k: Kept, picked: seq<string>)
    requires WithinBudget(k)
    ensures var es, r := AllListed(h, db, picked), ListEntries(h, db, k, picked);
      && (r.Ok? <==> FitsBudgets(h, k, es))
      && (r.Ok? ==> r.value == Kept(k.records + es, k.used + Weight(h, es)))
  {
    hide RunEntries;
    hide PushAll;
    hide Weight;
    if picked == [] {
      NoWeight(h);
      assert k.records + [] == k.records;
    } else {
      var front, run := picked[..|picked| - 1], picked[|picked| - 1];
      var before := AllListed(h, db, front);
      ListIsExact(h, db, k, front);
      PushInTurn(h, k, before, RunEntries(h, db, run));
      if FitsBudgets(h, k, before) {
        PushAllMeaning(h, Kept(k.records + before, k.used + Weight(h, before)), RunEntries(h, db, run));
      }
    }
  }

  lemma NoWeight(h: Host)
    ensures Weight(h, []) == 0
  {
  }

  predicate HasFewSteps(db: Db, picked: seq<string>) {
    forall r | r in picked :: |StepTexts(db, r)| <= MAX_STEPS
  }

  lemma {:induction false} ScanIsExact(h: Host, db: Db, k: Kept, picked: seq<string>)
    requires WithinBudget(k)
    ensures var es, r := AllSteps(h, db, picked), ScanAll(h, db, k, picked);
      && (r.Ok? <==> FitsBudgets(h, k, es) && HasFewSteps(db, picked))
      && (r.Ok? ==> r.value == Kept(k.records + es, k.used + Weight(h, es)))
  {
    hide StepEntries;
    hide PushAll;
    hide Weight;
    hide StepTexts;
    if picked == [] {
      NoWeight(h);
      assert k.records + [] == k.records;
    } else {
      var front, run := picked[..|picked| - 1], picked[|picked| - 1];
      var before, more := AllSteps(h, db, front), StepEntries(h, db, run, Min(|StepTexts(db, run)|, MAX_STEPS));
      ScanIsExact(h, db, k, front);
      assert picked == front + [run];
      PushInTurn(h, k, before, more);
      if FitsBudgets(h, k, before) {
        PushAllMeaning(h, Kept(k.records + before, k.used + Weight(h, before)), more);
      }
    }
  }

  /**
   * A selection succeeds exactly when the cutoff is valid, no listed run has more than a thousand steps
   * and all of it fits both budgets; then it holds the listed plans and receipts and their steps, all of
   * them and nothing else.
   */
  lemma SelectionIsExact(h: Host, db: Db, before: int, limit: int, now: int, picked: seq<string>, e: Entry)
    ensures var all := AllListed(h, db, picked) + AllSteps(h, db, picked);
      var r := SelectRecords(h, db, before, limit, now, picked);
      && (r.Ok? <==> ValidCutoff(before, limit, now) && HasFewSteps(db, picked) && FitsBudgets(h, Kept([], 0), all))
      && (r.Ok? ==>
            && r.value.records == all
            && (e in r.value.records <==> IsListed(h, db, picked, e) || IsStepOf(h, db, picked, e)))
  {
    hide AllListed;
    hide AllSteps;
    hide ListEntries;
    hide ScanAll;
    hide Weight;
    hide IsListed;
    hide IsStepOf;
    hide HasFewSteps;
    var listed, steps := AllListed(h, db, picked), AllSteps(h, db, picked);
    ListedMeaning(h, db, picked, e);
    StepsMeaning(h, db, picked, e);
    ListIsExact(h, db, Kept([], 0), picked);
    PushInTurn(h, Kept([], 0), listed, steps);
    if FitsBudgets(h, Kept([], 0), listed) {
      ScanIsExact(h, db, Kept([] + listed, Weight(h, listed)), picked);
    }
    assert [] + listed == listed;
  }

  // ---------------------------------------------------------------- interleaved writers and archivers

  /**
   * An archiver between its atomic steps: what it retained, the runs whose steps it has still to read,
   * and the file it has written. Other processes step in between.
   */
  datatype Draft = Draft(project: string, kept: Kept, todo: seq<string>, filed: Option<(string, Pack)>)

  datatype World = World(db: Db, drafts: map<string, Draft>)

  datatype Act =
    | SavesPlan(id: string, project: string, payload: Value)
    | Begins(run: string, plan: string)
    | AddsStep(run: string, payload: Value)
    | Finishes(run: string, plan: string, state: ExecutionState, at: Option<int>, receipt: Value)
    | Lists(worker: string, project: string, before: int, limit: int, now: int, picked: seq<string>)
    | Scans(worker: string)
    | Files(worker: string, archive: string, now: int, approved: string)
    | Commits(worker: string)

  function OrElse(r: Result<Db, Fault>, db: Db): Db {
    match r
    case Ok(later) => later
    case Err(_) => db
  }

  /** One atomic step; a refused step changes nothing, a listing is one the query could return. */
  ghost function Perform(h: Host, w: World, act: Act): World {
    match act
    case SavesPlan(id, project, plan) => w.(db := OrElse(SavePlan(h, w.db, id, project, plan), w.db))
    case Begins(run, plan) => w.(db := OrElse(Begin(w.db, run, plan), w.db))
    case AddsStep(run, payload) => w.(db := OrElse(AddStep(h, w.db, run, payload), w.db))
    case Finishes(run, plan, state, at, receipt) =>
      w.(db := OrElse(Finish(h, w.db, run, plan, state, at, receipt), w.db))
    case Lists(worker, project, before, limit, now, picked) =>
      if ValidCutoff(before, limit, now) && IsListing(w.db, project, before, limit, picked) then
        (match ListEntries(h, w.db, Kept([], 0), picked)
         case Err(_) => w
         case Ok(k) => w.(drafts := w.drafts[worker := Draft(project, k, picked, None)]))
      else w
    case Scans(worker) => ScanStep(h, w, worker)
    case Files(worker, archive, now, approved) => FileStep(h, w, worker, archive, now, approved)
    case Commits(worker) =>
      if worker in w.drafts && w.drafts[worker].filed.Some? then
        var (archive, pack) := w.drafts[worker].filed.value;
        World(OrElse(CommitPack(h, w.db, archive, pack), w.db), w.drafts - {worker})
      else w
  }

  function ScanStep(h: Host, w: World, worker: string): World {
    if worker in w.drafts && w.drafts[worker].todo != [] then
      var d := w.drafts[worker];
      match ScanSteps(h, w.db, d.kept, d.todo[0])
      case Err(_) => w.(drafts := w.drafts - {worker})
      case Ok(k) => w.(drafts := w.drafts[worker := d.(kept := k, todo := d.todo[1..])])
    else w
  }

  function FileStep(h: Host, w: World, worker: string, archive: string, now: int, approved: string): World {
    if worker in w.drafts && w.drafts[worker].todo == [] && w.drafts[worker].filed.None? then
      var d := w.drafts[worker];
      var pack := Pack(1, d.project, now, d.kept.records);
      if h.sha(h.records(pack.entries)) != approved || pack.entries == [] || Refusal(h, w.db, pack).Some? then w
      else
        match WriteFile(h, w.db, archive, pack)
        case Err(_) => w
        case Ok(later) => World(later, w.drafts[worker := d.(filed := Some((archive, pack)))])
    else w
  }

  /**
   * What callers bring: runs finished into a final state, and archive identifiers that make safe file
   * names. Payloads are arbitrary, those that carry the marker key included.
   */
  predicate IsFair(act: Act) {
    && (act.Finishes? ==> act.state != Running)
    && (act.Files? ==> IsSafeName(FileName(act.archive)))
  }

  ghost function Play(h: Host, w: World, acts: seq<Act>): World {
    if acts == [] then w else Perform(h, Play(h, w, acts[..|acts| - 1]), acts[|acts| - 1])
  }

  const START: World := World(EMPTY, map[])

  ghost predicate DraftOk(h: Host, db: Db, d: Draft) {
    && WithinBudget(d.kept) && EntriesOk(h, db, d.kept.records)
    && (forall r | r in d.todo :: r in db.runs && IsSettled(db.runs[r].state))
    && (d.filed.Some? ==> Filed(h, db, d.filed.value.0, d.filed.value.1))
  }

  ghost predicate WorldInv(h: Host, w: World) {
    Inv(h, w.db) && forall worker | worker in w.drafts :: DraftOk(h, w.db, w.drafts[worker])
  }

  lemma EntriesStayOk(h: Host, db: Db, later: Db, es: seq<Entry>)
    requires Grows(db, later) && EntriesOk(h, db, es)
    ensures EntriesOk(h, later, es)
  {
    hide FindFile;
    hide RunsStay;
    hide OwnerSettled;
    hide IsCanonical;
    hide RefOf;
    forall e | e in es ensures EntryOk(h, later, e) {
      assert EntryOk(h, db, e);
      if RefOf(e.slot).Some? {
        SettledStays(db, later, RefOf(e.slot).value);
      } else {
        CanonicalNames(e.slot);
      }
    }
  }

  lemma CanonicalNames(slot: Slot)
    ensures IsCanonical(slot) ==> RefOf(slot).Some?
  {
  }

  lemma DraftStaysOk(h: Host, db: Db, later: Db, d: Draft)
    requires Grows(db, later) && DraftOk(h, db, d)
    ensures DraftOk(h, later, d)
  {
    hide FindFile;
    hide EntriesOk;
    hide IsSafeName;
    EntriesStayOk(h, db, later, d.kept.records);
    if d.filed.Some? {
      EntriesStayOk(h, db, later, d.filed.value.1.entries);
    }
  }

  lemma GrowsSelf(db: Db)
    ensures Grows(db, db)
  {
  }

  lemma WriterKeepsInv(h: Host, w: World, act: Act)
    requires Faithful(h) && WorldInv(h, w) && IsFair(act)
    requires act.SavesPlan? || act.Begins? || act.AddsStep? || act.Finishes?
    ensures Inv(h, Perform(h, w, act).db) && Grows(w.db, Perform(h, w, act).db)
    ensures Perform(h, w, act).drafts == w.drafts
  {
    hide Inv;
    hide Grows;
    hide Faithful;
    hide SavePlan;
    hide Begin;
    hide AddStep;
    hide Finish;
    GrowsSelf(w.db);
    match act {
      case SavesPlan(id, project, plan) =>
        if SavePlan(h, w.db, id, project, plan).Ok? { SavePlanKeepsInv(h, w.db, id, project, plan); }
      case Begins(run, plan) =>
        if Begin(w.db, run, plan).Ok? { BeginKeepsInv(h, w.db, run, plan); }
      case AddsStep(run, payload) =>
        if AddStep(h, w.db, run, payload).Ok? { AddStepKeepsInv(h, w.db, run, payload); }
      case Finishes(run, plan, state, at, receipt) =>
        if Finish(h, w.db, run, plan, state, at, receipt).Ok? {
          FinishKeepsInv(h, w.db, run, plan, state, at, receipt);
        }
    }
  }

  lemma ScanStepKeepsInv(h: Host, w: World, worker: string)
    requires WorldInv(h, w)
    ensures WorldInv(h, ScanStep(h, w, worker)) && ScanStep(h, w, worker).db == w.db
  {
    hide Inv;
    hide EntriesOk;
    hide Filed;
    hide ScanSteps;
    hide WithinBudget;
    if worker in w.drafts && w.drafts[worker].todo != [] {
      var d := w.drafts[worker];
      assert DraftOk(h, w.db, d);
      if ScanSteps(h, w.db, d.kept, d.todo[0]).Ok? {
        ScanOk(h, w.db, d.kept, d.todo[0]);
      }
    }
  }

  lemma FileStepKeepsInv(h: Host, w: World, worker: string, archive: string, now: int, approved: string)
    requires WorldInv(h, w) && IsSafeName(FileName(archive))
    ensures var later := FileStep(h, w, worker, archive, now, approved);
      WorldInv(h, later) && Grows(w.db, later.db)
  {
    hide Inv;
    hide Grows;
    hide EntriesOk;
    hide FindFile;
    hide IsSafeName;
    hide FileName;
    hide WriteFile;
    hide Refusal;
    GrowsSelf(w.db);
    var later := FileStep(h, w, worker, archive, now, approved);
    if later != w {
      var d := w.drafts[worker];
      var pack := Pack(1, d.project, now, d.kept.records);
      WriteFileKeepsInv(h, w.db, archive, pack);
      forall other | other in later.drafts ensures DraftOk(h, later.db, later.drafts[other]) {
        if other in w.drafts {
          DraftStaysOk(h, w.db, later.db, w.drafts[other]);
        }
      }
    }
  }

  lemma ListKeepsInv(h: Host, w: World, act: Act)
    requires WorldInv(h, w) && act.Lists?
    ensures WorldInv(h, Perform(h, w, act)) && Perform(h, w, act).db == w.db
  {
    hide Inv;
    hide EntriesOk;
    hide ListEntries;
    hide Filed;
    var later := Perform(h, w, act);
    if later != w {
      NoEntries(h, w.db);
      forall r | r in act.picked ensures r in w.db.runs && IsSettled(w.db.runs[r].state) {
        assert IsEligible(w.db, act.project, act.before, r);
      }
      ListOk(h, w.db, act.project, act.before, Kept([], 0), act.picked);
    }
  }

  lemma NoEntries(h: Host, db: Db)
    ensures EntriesOk(h, db, [])
  {
  }

  lemma CommitStepKeepsInv(h: Host, w: World, worker: string)
    requires Faithful(h) && WorldInv(h, w)
    ensures Inv(h, Perform(h, w, Commits(worker)).db) && Grows(w.db, Perform(h, w, Commits(worker)).db)
    ensures forall other | other in Perform(h, w, Commits(worker)).drafts ::
      other in w.drafts && Perform(h, w, Commits(worker)).drafts[other] == w.drafts[other]
  {
    hide Inv;
    hide Grows;
    hide Faithful;
    hide EntriesOk;
    hide Filed;
    hide CommitPack;
    GrowsSelf(w.db);
    if worker in w.drafts && w.drafts[worker].filed.Some? {
      var (archive, pack) := w.drafts[worker].filed.value;
      assert DraftOk(h, w.db, w.drafts[worker]);
      if CommitPack(h, w.db, archive, pack).Ok? {
        CommitKeepsInv(h, w.db, archive, pack);
      }
    }
  }

  lemma PerformKeepsInv(h: Host, w: World, act: Act)
    requires Faithful(h) && WorldInv(h, w) && IsFair(act)
    ensures WorldInv(h, Perform(h, w, act)) && Grows(w.db, Perform(h, w, act).db)
  {
    var later := Perform(h, w, act);
    hide Inv;
    hide Grows;
    hide Faithful;
    hide DraftOk;
    hide IsSafeName;
    GrowsSelf(w.db);
    if act.Lists? {
      ListKeepsInv(h, w, act);
    } else if act.Scans? {
      ScanStepKeepsInv(h, w, act.worker);
    } else if act.Files? {
      FileStepKeepsInv(h, w, act.worker, act.archive, act.now, act.approved);
    } else {
      if act.Commits? {
        CommitStepKeepsInv(h, w, act.worker);
      } else {
        WriterKeepsInv(h, w, act);
      }
      hide Perform;
      forall worker | worker in later.drafts ensures DraftOk(h, later.db, later.drafts[worker]) {
        DraftStaysOk(h, w.db, later.db, w.drafts[worker]);
      }
    }
  }

  lemma {:induction false} PlayKeepsInv(h: Host, w: World, acts: seq<Act>)
    requires Faithful(h) && WorldInv(h, w) && forall act | act in acts :: IsFair(act)
    ensures WorldInv(h, Play(h, w, acts)) && Grows(w.db, Play(h, w, acts).db)
  {
    hide WorldInv;
    hide Grows;
    hide Faithful;
    hide IsFair;
    hide Perform;
    if acts == [] {
      GrowsSelf(w.db);
    } else {
      var front, last := acts[..|acts| - 1], acts[|acts| - 1];
      PlayKeepsInv(h, w, front);
      PerformKeepsInv(h, Play(h, w, front), last);
      GrowsTransitive(w.db, Play(h, w, front).db, Play(h, w, acts).db);
    }
  }

  lemma StartIsOk(h: Host)
    ensures WorldInv(h, START)
  {
  }

  /**
   * Archiving preserves history: in every reachable state every plan, receipt and step there is reads
   * exactly as it was first written, and keeps reading so, if that text lacks the marker key, whatever
   * other records hold; a text that carries the key reads back exactly once it is archived.
   */
  lemma LogicalHistoryUnchanged(h: Host, before: seq<Act>, after: seq<Act>, ref: Ref)
    requires Faithful(h)
    requires forall act | act in before + after :: IsFair(act)
    requires var w := Play(h, START, before); Current(w.db, ref).Some?
    ensures var w := Play(h, START, before);
      var later := Play(h, w, after);
      && IsProper(ref) && ref in w.db.original && ref in later.db.original
      && var text := w.db.original[ref];
         && later.db.original[ref] == text
         && (if IsClean(h, text) || SlotOf(ref) in w.db.entries
             then Read(h, w.db, ref) == Ok(text) && Read(h, later.db, ref) == Ok(text)
             else Read(h, w.db, ref).Err?)
  {
    hide Faithful;
    hide IsFair;
    hide Perform;
    hide RecordHeld;
    hide EntriesSettled;
    hide RowsWellFormed;
    hide Current;
    hide FindFile;
    hide DraftOk;
    hide Play;
    hide Read;
    forall act | act in before ensures IsFair(act) {
      assert act in before + after;
    }
    forall act | act in after ensures IsFair(act) {
      assert act in before + after;
    }
    StartIsOk(h);
    PlayKeepsInv(h, START, before);
    var w := Play(h, START, before);
    PlayKeepsInv(h, w, after);
    ReadsBack(h, w.db, ref);
    ReadsBack(h, Play(h, w, after).db, ref);
  }

  /** Approval binds the very records: what gets on file is what the approved digest was taken of. */
  lemma ApprovalBindsSelection(
    h: Host, w: World, worker: string, archive: string, now: int, approved: seq<Entry>)
    requires Faithful(h) && worker in w.drafts
    requires var later := FileStep(h, w, worker, archive, now, h.sha(h.records(approved)));
      w.drafts[worker].filed.None? && worker in later.drafts && later.drafts[worker].filed.Some?
    ensures var later := FileStep(h, w, worker, archive, now, h.sha(h.records(approved)));
      later.drafts[worker].filed.value.1.entries == approved == w.drafts[worker].kept.records
  {
    hide Refusal;
    hide WriteFile;
  }

  /** The uninterrupted archive call keeps history too, wherever it stops. */
  lemma ArchiveCallKeepsInv(
    h: Host, db: Db, run: string, project: string, before: int, limit: int, now: int, picked: seq<string>,
    approved: string, archive: string)
    requires Faithful(h) && Inv(h, db) && IsListing(db, project, before, limit, picked)
    requires IsSafeName(FileName(archive)) && SelectRecords(h, db, before, limit, now, picked).Ok?
    ensures var records := SelectRecords(h, db, before, limit, now, picked).value.records;
      var (later, _) := ArchiveSelected(h, db, run, project, now, records, approved, archive);
      Inv(h, later) && Grows(db, later)
  {
    hide Inv;
    hide Grows;
    hide EntriesOk;
    hide ListEntries;
    hide ScanAll;
    hide Refusal;
    hide StorePack;
    hide Faithful;
    hide IsSafeName;
    NoEntries(h, db);
    forall r | r in picked ensures r in db.runs && IsSettled(db.runs[r].state) {
      assert IsEligible(db, project, before, r);
    }
    ListOk(h, db, project, before, Kept([], 0), picked);
    var listed := ListEntries(h, db, Kept([], 0), picked).value;
    ScanAllOk(h, db, listed, picked);
    var pack := Pack(1, project, now, ScanAll(h, db, listed, picked).value.records);
    GrowsSelf(db);
    StorePackKeepsInv(h, db, run, archive, pack);
  }

  lemma StorePackKeepsInv(h: Host, db: Db, run: string, archive: string, pack: Pack)
    requires Faithful(h) && Inv(h, db) && EntriesOk(h, db, pack.entries)
    requires pack.version == 1 && |pack.entries| <= MAX_RECORDS && IsSafeName(FileName(archive))
    ensures var (later, _) := StorePack(h, db, run, archive, pack); Inv(h, later) && Grows(db, later)
  {
    hide Inv;
    hide Grows;
    hide EntriesOk;
    hide Faithful;
    hide IsSafeName;
    hide AddStep;
    hide WriteFile;
    hide CommitPack;
    hide FindFile;
    GrowsSelf(db);
    var intended := AddStep(h, db, run, Intent(h, archive, pack));
    if intended.Ok? {
      AddStepKeepsInv(h, db, run, Intent(h, archive, pack));
      var filed := WriteFile(h, intended.value, archive, pack);
      if filed.Ok? {
        WriteFileKeepsInv(h, intended.value, archive, pack);
        GrowsTransitive(db, intended.value, filed.value);
        EntriesStayOk(h, db, filed.value, pack.entries);
        var committed := CommitPack(h, filed.value, archive, pack);
        if committed.Ok? {
          CommitKeepsInv(h, filed.value, archive, pack);
          GrowsTransitive(db, filed.value, committed.value);
          var reported := AddStep(h, committed.value, run, Summary(h, archive, pack));
          if reported.Ok? {
            AddStepKeepsInv(h, committed.value, run, Summary(h, archive, pack));
            GrowsTransitive(db, committed.value, reported.value);
          }
        }
      }
    }
  }
}
