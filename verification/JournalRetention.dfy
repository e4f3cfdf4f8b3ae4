/**
 * What archiving may take and what it leaves: which records leave their place, what a selection is made
 * of, what a successful archive call has done, and what corrupted files can do to a reader.
 */
module JournalRetention {
  import opened Prelude
  import opened Control
  import opened Json
  import opened Text
  import opened Ordering
  import opened JournalArchive
  import opened JournalHistory

  // ---------------------------------------------------------------- what stays

  /** The run is over and known to be. */
  predicate IsFinished(s: ExecutionState) {
    s in {Succeeded, ExecutionState.Failed, ExecutionState.Cancelled}
  }

  /** The run a record belongs to; the record of a plan belongs to whichever run executed it. */
  predicate BelongsTo(db: Db, ref: Ref, run: string) {
    match ref
    case PlanRef(p) => run in db.runs && db.runs[run].plan == p
    case ReceiptRef(r) => r == run
    case StepRef(r, _) => r == run
  }

  /**
   * In every reachable state an archived record belongs to a run that succeeded, failed or was cancelled;
   * every record of a run that is prepared, running or indeterminate sits where it was written.
   */
  lemma RunningAndIndeterminateRetained(h: Host, acts: seq<Act>, ref: Ref)
    requires Faithful(h) && forall act | act in acts :: IsFair(act)
    requires ref in Play(h, START, acts).db.original
    ensures var db := Play(h, START, acts).db;
      && IsProper(ref)
      && (SlotOf(ref) in db.entries ==>
            exists run | run in db.runs :: BelongsTo(db, ref, run) && IsFinished(db.runs[run].state))
      && ((forall run | run in db.runs && BelongsTo(db, ref, run) ::
             db.runs[run].state in {Prepared, Running, Indeterminate}) ==>
            SlotOf(ref) !in db.entries && Current(db, ref) == Some(db.original[ref]))
  {
    hide Faithful;
    hide IsFair;
    hide Play;
    hide Inv;
    hide DraftOk;
    StartIsOk(h);
    PlayKeepsInv(h, START, acts);
    var db := Play(h, START, acts).db;
    OriginalsAreProper(h, db, ref);
    if !OwnerSettled(db, ref) {
      OpenRunsUntouched(h, db, ref);
    }
  }

  lemma OriginalsAreProper(h: Host, db: Db, ref: Ref)
    requires Inv(h, db) && ref in db.original
    ensures IsProper(ref)
  {
    hide Held;
  }

  // ---------------------------------------------------------------- what is selected

  /** The entry holds the plan, the receipt or a step of the run, as it stands in the tables. */
  predicate IsRecordOf(h: Host, db: Db, run: string, e: Entry) {
    && RefOf(e.slot).Some? && e.digest == h.sha(e.value)
    && var ref := RefOf(e.slot).value;
       Current(db, ref) == Some(e.value) && BelongsTo(db, ref, run)
  }

  /**
   * A selection takes records of runs of the project that succeeded, failed or were cancelled at least an
   * hour ago and before the cutoff, and whose plans are not archived; one to a hundred runs are asked for.
   */
  lemma SelectionIsFinished(
    h: Host, db: Db, project: string, before: int, limit: int, now: int, picked: seq<string>, e: Entry)
    requires IsListing(db, project, before, limit, picked)
    requires SelectRecords(h, db, before, limit, now, picked).Ok?
    requires e in SelectRecords(h, db, before, limit, now, picked).value.records
    ensures 0 <= before <= now - 3600 && 1 <= limit <= 100 && |picked| <= limit
    ensures exists run | run in picked ::
      && run in db.runs && IsFinished(db.runs[run].state)
      && db.runs[run].finishedAt.Some? && db.runs[run].finishedAt.value < before
      && db.runs[run].plan in db.plans && db.plans[db.runs[run].plan].project == project
      && Slot("plan", db.runs[run].plan) !in db.entries
      && IsRecordOf(h, db, run, e)
  {
    hide IsListed;
    hide IsStepOf;
    hide IsRecordOf;
    hide SelectRecords;
    hide IsEligible;
    SelectionIsExact(h, db, before, limit, now, picked, e);
    ListingIsEligible(db, project, before, limit, picked);
    var run := SelectedFrom(h, db, picked, e, project, before);
    EligibleIsFinished(db, project, before, run);
  }

  lemma EligibleIsFinished(db: Db, project: string, before: int, run: string)
    requires IsEligible(db, project, before, run)
    ensures run in db.runs && IsFinished(db.runs[run].state)
    ensures db.runs[run].finishedAt.Some? && db.runs[run].finishedAt.value < before
    ensures db.runs[run].plan in db.plans && db.plans[db.runs[run].plan].project == project
    ensures Slot("plan", db.runs[run].plan) !in db.entries
  {
  }

  lemma SelectedFrom(h: Host, db: Db, picked: seq<string>, e: Entry, project: string, before: int) returns (run: string)
    requires IsListed(h, db, picked, e) || IsStepOf(h, db, picked, e)
    requires forall r | r in picked :: IsEligible(db, project, before, r)
    ensures run in picked && IsRecordOf(h, db, run, e) && IsEligible(db, project, before, run)
  {
    hide SlotOf;
    hide RefOf;
    if IsListed(h, db, picked, e) {
      run :| run in picked && e in RunEntries(h, db, run);
      ListedIsRecord(h, db, run, e);
    } else {
      run :| run in picked && IsStepOfRun(h, db, run, e);
      StepIsRecord(h, db, run, e);
    }
  }

  lemma ListedIsRecord(h: Host, db: Db, run: string, e: Entry)
    requires e in RunEntries(h, db, run)
    ensures IsRecordOf(h, db, run, e)
  {
    hide SlotOf;
    hide RefOf;
    NameRoundTrip(PlanRef(db.runs[run].plan));
    NameRoundTrip(ReceiptRef(run));
  }

  lemma StepIsRecord(h: Host, db: Db, run: string, e: Entry)
    requires IsStepOfRun(h, db, run, e)
    ensures IsRecordOf(h, db, run, e)
  {
    hide SlotOf;
    hide RefOf;
    var i :| 0 <= i < |StepTexts(db, run)| && i < MAX_STEPS
      && e == MakeEntry(h, StepRef(run, i + 1), StepTexts(db, run)[i]);
    NameRoundTrip(StepRef(run, i + 1));
  }

  /** The plan, the receipt or a step of a run, under its own name. */
  predicate IsWanted(h: Host, db: Db, run: string, e: Entry) {
    && e.digest == h.sha(e.value) && run in db.runs && db.runs[run].plan in db.plans
    && (|| (e.slot == Slot("plan", db.runs[run].plan) && e.value == db.plans[db.runs[run].plan].payload)
        || (e.slot == Slot("receipt", run) && db.runs[run].receipt == Some(e.value))
        || (run in db.steps && exists i | 0 <= i < |db.steps[run]| :: IsStepAt(db, run, e, i)))
  }

  predicate IsStepAt(db: Db, run: string, e: Entry, i: nat)
    requires run in db.steps && i < |db.steps[run]|
  {
    e.slot == Slot("step", run + ":" + Numeral(i + 1)) && e.value == db.steps[run][i]
  }

  /**
   * A selection takes every plan, receipt and step of the listed runs and nothing else. It is refused for
   * the cutoff or the number asked for, for a run of more than a thousand steps, or for its budgets.
   */
  lemma SelectionIsComplete(
    h: Host, db: Db, project: string, before: int, limit: int, now: int, picked: seq<string>, e: Entry)
    requires IsListing(db, project, before, limit, picked)
    ensures var r := SelectRecords(h, db, before, limit, now, picked);
      && (r == Err(CutoffOrLimit) <==> !(1 <= limit <= 100 && 0 <= before <= now - 3600))
      && (r.Ok? ==>
            && (e in r.value.records <==> exists run | run in picked :: IsWanted(h, db, run, e))
            && (forall run | run in picked && run in db.steps :: |db.steps[run]| <= 1000)
            && |r.value.records| <= 10000 && Weight(h, r.value.records) <= 8 * 1024 * 1024 - 4096)
  {
    hide RunEntries;
    hide IsStepOfRun;
    hide IsWanted;
    hide IsEligible;
    hide AllListed;
    hide AllSteps;
    hide ListEntries;
    hide ScanAll;
    hide Weight;
    SelectionIsExact(h, db, before, limit, now, picked, e);
    CutoffFaults(h, db, before, limit, now, picked);
    ListingIsEligible(db, project, before, limit, picked);
    if SelectRecords(h, db, before, limit, now, picked).Ok? {
      forall run | run in picked
        ensures IsWanted(h, db, run, e) <==> e in RunEntries(h, db, run) || IsStepOfRun(h, db, run, e)
      {
        EligibleIsFinished(db, project, before, run);
        assert |StepTexts(db, run)| <= MAX_STEPS;
        WantedMeaning(h, db, run, e);
      }
    }
  }

  predicate FewStepsOf(db: Db, run: string) {
    run in db.steps ==> |db.steps[run]| <= 1000
  }

  lemma WantedMeaning(h: Host, db: Db, run: string, e: Entry)
    requires FewStepsOf(db, run) && run in db.runs && db.runs[run].plan in db.plans
    ensures IsWanted(h, db, run, e) <==> e in RunEntries(h, db, run) || IsStepOfRun(h, db, run, e)
  {
    hide Numeral;
    if run in db.steps && exists i | 0 <= i < |db.steps[run]| :: IsStepAt(db, run, e, i) {
      var i: nat :| i < |db.steps[run]| && IsStepAt(db, run, e, i);
      assert e.digest == h.sha(e.value) ==> e == MakeEntry(h, StepRef(run, i + 1), StepTexts(db, run)[i]);
    }
    if IsStepOfRun(h, db, run, e) {
      var i: nat :| i < |StepTexts(db, run)| && i < MAX_STEPS
        && e == MakeEntry(h, StepRef(run, i + 1), StepTexts(db, run)[i]);
      assert IsStepAt(db, run, e, i);
    }
  }

  lemma CutoffFaults(h: Host, db: Db, before: int, limit: int, now: int, picked: seq<string>)
    ensures SelectRecords(h, db, before, limit, now, picked) == Err(CutoffOrLimit) <==>
      !(1 <= limit <= 100 && 0 <= before <= now - 3600)
  {
    ListHasOwnFaults(h, db, Kept([], 0), picked);
    hide ListEntries;
    if ListEntries(h, db, Kept([], 0), picked).Ok? {
      ScanHasOwnFaults(h, db, ListEntries(h, db, Kept([], 0), picked).value, picked);
    }
    hide ScanAll;
  }

  lemma {:induction false} PushHasOwnFaults(h: Host, k: Kept, es: seq<Entry>)
    ensures PushAll(h, k, es) != Err(CutoffOrLimit)
  {
    hide ByteLength;
    if es != [] {
      PushHasOwnFaults(h, k, es[..|es| - 1]);
    }
  }

  lemma {:induction false} ListHasOwnFaults(h: Host, db: Db, k: Kept, picked: seq<string>)
    ensures ListEntries(h, db, k, picked) != Err(CutoffOrLimit)
  {
    hide PushAll;
    hide RunEntries;
    if picked != [] {
      var front := picked[..|picked| - 1];
      ListHasOwnFaults(h, db, k, front);
      if ListEntries(h, db, k, front).Ok? {
        PushHasOwnFaults(h, ListEntries(h, db, k, front).value, RunEntries(h, db, picked[|picked| - 1]));
      }
    }
  }

  lemma {:induction false} ScanHasOwnFaults(h: Host, db: Db, k: Kept, runs: seq<string>)
    ensures ScanAll(h, db, k, runs) != Err(CutoffOrLimit)
  {
    hide PushAll;
    hide StepEntries;
    if runs != [] {
      var front, run := runs[..|runs| - 1], runs[|runs| - 1];
      ScanHasOwnFaults(h, db, k, front);
      if ScanAll(h, db, k, front).Ok? {
        PushHasOwnFaults(
          h, ScanAll(h, db, k, front).value, StepEntries(h, db, run, Min(|StepTexts(db, run)|, MAX_STEPS)));
      }
    }
  }

  // ---------------------------------------------------------------- what is written

  /** A step is added exactly to a running execution and within 32 KiB, behind the others and nowhere else. */
  lemma StepIsExact(h: Host, db: Db, run: string, payload: Value)
    requires run in db.steps && |db.steps[run]| < 0x7FFF_FFFF_FFFF_FFFF
    ensures var text, r := h.render(payload), AddStep(h, db, run, payload);
      && (r.Ok? <==> ByteLength(text) <= 32768 && run in db.runs && db.runs[run].state == Running)
      && (r == Err(StepSize) <==> ByteLength(text) > 32768)
      && (r == Err(NotRunning) <==> ByteLength(text) <= 32768 && run in db.runs && db.runs[run].state != Running)
      && (r.Ok? ==> r.value == db.(steps := db.steps[run := db.steps[run] + [text]], original := r.value.original))
  {
    hide ByteLength;
  }

  /** An execution ends exactly once, from running, in a state that is not the one it was prepared in. */
  lemma FinishIsExact(
    h: Host, db: Db, run: string, plan: string, state: ExecutionState, at: Option<int>, receipt: Value)
    ensures var r := Finish(h, db, run, plan, state, at, receipt);
      && (r.Ok? <==>
            run in db.runs && db.runs[run].plan == plan && db.runs[run].state == Running && state != Prepared)
      && (r == Err(StateConflict) <==>
            !(run in db.runs && db.runs[run].plan == plan && db.runs[run].state == Running))
      && (r.Ok? ==> r.value == db.(
            runs := db.runs[run := RunRow(plan, state, at, Some(h.render(receipt)))], original := r.value.original))
  {
  }

  // ---------------------------------------------------------------- what a reader checks

  /** The file that was written last under a name. */
  ghost predicate IsFileAt(files: seq<File>, name: string, text: string, k: nat) {
    k < |files| && files[k] == File(name, text) && forall j | k < j < |files| :: files[j].name != name
  }

  lemma {:induction false} FileMeaning(files: seq<File>, name: string, text: string)
    ensures FindFile(files, name) == Some(text) <==> exists k: nat :: IsFileAt(files, name, text, k)
  {
    if files != [] {
      var front, last := files[..|files| - 1], files[|files| - 1];
      FileMeaning(front, name, text);
      if last == File(name, text) {
        assert IsFileAt(files, name, text, |front|);
      }
      if k: nat :| IsFileAt(front, name, text, k) && last.name != name {
        assert IsFileAt(files, name, text, k);
      }
      if k: nat :| IsFileAt(files, name, text, k) && k < |front| {
        assert IsFileAt(front, name, text, k);
      }
    }
  }

  /** The one entry of a pack for a slot. */
  predicate IsOnlyEntry(es: seq<Entry>, slot: Slot, e: Entry, k: nat) {
    k < |es| && es[k] == e && e.slot == slot && forall j | 0 <= j < |es| && j != k :: es[j].slot != slot
  }

  lemma {:induction false} NoMatchMeaning(es: seq<Entry>, slot: Slot)
    ensures Matching(es, slot) == [] <==> forall j | 0 <= j < |es| :: es[j].slot != slot
  {
    if es != [] {
      NoMatchMeaning(es[..|es| - 1], slot);
      assert forall j | 0 <= j < |es| - 1 :: es[..|es| - 1][j] == es[j];
    }
  }

  lemma {:induction false} OnlyMatchMeaning(es: seq<Entry>, slot: Slot, e: Entry)
    ensures Matching(es, slot) == [e] <==> exists k: nat :: IsOnlyEntry(es, slot, e, k)
  {
    if es != [] {
      var front, last := es[..|es| - 1], es[|es| - 1];
      assert Matching(es, slot) == Matching(front, slot) + if last.slot == slot then [last] else [];
      OnlyMatchMeaning(front, slot, e);
      NoMatchMeaning(front, slot);
      hide Matching;
      assert forall j | 0 <= j < |front| :: front[j] == es[j];
      if Matching(es, slot) == [e] {
        if last.slot == slot {
          assert |Matching(front, slot)| == 0 && [e][0] == last;
          assert IsOnlyEntry(es, slot, e, |front|);
        } else {
          assert Matching(front, slot) == [e];
          var k: nat :| IsOnlyEntry(front, slot, e, k);
          assert IsOnlyEntry(es, slot, e, k);
        }
      }
      if k: nat :| IsOnlyEntry(es, slot, e, k) {
        if k < |front| {
          assert es[|front|].slot != slot && IsOnlyEntry(front, slot, e, k);
        } else {
          assert Matching(front, slot) == [];
        }
      }
    }
  }

  /** The file is the one the archive was recorded with, and its one entry for the slot is sound. */
  ghost predicate IsSoundFile(h: Host, a: ArchiveRow, file: string, slot: Slot, digest: string, text: string) {
    && ByteLength(file) == a.size <= 8 * 1024 * 1024 && h.sha(file) == a.digest
    && h.unpack(file).Some?
    && var pack := h.unpack(file).value;
    && pack.version == 1 && pack.project == a.project && |pack.entries| <= 10000
    && digest == h.sha(text) && exists k: nat :: IsOnlyEntry(pack.entries, slot, Entry(slot, digest, text), k)
  }

  lemma SoundFileMeaning(h: Host, a: ArchiveRow, file: string, slot: Slot, digest: string, text: string)
    ensures FromFile(h, a, Some(file), slot, digest) == Ok(text) <==> IsSoundFile(h, a, file, slot, digest, text)
  {
    hide ByteLength;
    hide IsOnlyEntry;
    hide Matching;
    if h.unpack(file).Some? {
      var es := h.unpack(file).value.entries;
      OnlyMatchMeaning(es, slot, Entry(slot, digest, text));
      if |Matching(es, slot)| == 1 {
        OneMatch(es, slot);
        assert Matching(es, slot) == [Matching(es, slot)[0]];
      }
    }
  }

  lemma {:induction false} OneMatch(es: seq<Entry>, slot: Slot)
    ensures forall e | e in Matching(es, slot) :: e.slot == slot
  {
    if es != [] {
      OneMatch(es[..|es| - 1], slot);
    }
  }

  /** A file name that stays in its directory. */
  predicate IsPlainName(s: string) {
    && ByteLength(s) <= 80 && |s| >= 5 && s[|s| - 5..] == ".json"
    && forall c | c in s :: 'a' <= c <= 'z' || 'A' <= c <= 'Z' || '0' <= c <= '9' || c == '-' || c == '.'
  }

  /** The tables and the file a marker leads to agree with it. */
  ghost predicate LeadsTo(h: Host, db: Db, slot: Slot, archive: string, digest: string, text: string) {
    && slot in db.entries && db.entries[slot] == EntryRow(archive, digest) && archive in db.archives
    && IsPlainName(db.archives[archive].file)
    && exists file, k: nat ::
         && IsFileAt(db.files, db.archives[archive].file, file, k)
         && IsSoundFile(h, db.archives[archive], file, slot, digest, text)
  }

  /** The stored text is a marker with this archive and digest. */
  predicate Marks(marker: Value, archive: string, digest: string) {
    Get(marker, "id") == Some(Str(archive)) && Get(marker, "sha256") == Some(Str(digest))
  }

  /**
   * A record reads as a text exactly when that is what is stored and it is no marker, or when it is a
   * marker whose archive, file and entry agree in every respect and hold that text.
   */
  lemma ReadIsExact(h: Host, db: Db, ref: Ref, current: string, text: string)
    requires IsProper(ref) && Current(db, ref) == Some(current)
    ensures Read(h, db, ref) == Ok(text) <==>
      && h.parse(current).Some?
      && match Get(h.parse(current).value, "workstation_archive")
         case None => text == current
         case Some(marker) =>
           exists archive, digest ::
             Marks(marker, archive, digest) && LeadsTo(h, db, SlotOf(ref), archive, digest, text)
  {
    hide IsSoundFile;
    hide IsFileAt;
    hide IsSafeName;
    hide IsPlainName;
    hide FromFile;
    hide FindFile;
    var slot := SlotOf(ref);
    if h.parse(current).Some? && Get(h.parse(current).value, MARKER_KEY).Some? {
      var marker := Get(h.parse(current).value, MARKER_KEY).value;
      var id, digest := AsString(Get(marker, "id")), AsString(Get(marker, "sha256"));
      if id.Some? && digest.Some? {
        assert Marks(marker, id.value, digest.value);
        if slot in db.entries && id.value in db.archives {
          FileLeads(h, db, slot, id.value, digest.value, text);
        }
      }
    }
  }

  lemma FileLeads(h: Host, db: Db, slot: Slot, archive: string, digest: string, text: string)
    requires archive in db.archives
    ensures var a := db.archives[archive];
      && (IsSafeName(a.file) <==> IsPlainName(a.file))
      && (FromFile(h, a, FindFile(db.files, a.file), slot, digest) == Ok(text) <==>
            exists file, k: nat :: IsFileAt(db.files, a.file, file, k) && IsSoundFile(h, a, file, slot, digest, text))
  {
    hide ByteLength;
    hide IsSoundFile;
    hide IsFileAt;
    hide FindFile;
    var a := db.archives[archive];
    if FindFile(db.files, a.file).Some? {
      var file := FindFile(db.files, a.file).value;
      SoundFileMeaning(h, a, file, slot, digest, text);
      FileMeaning(db.files, a.file, file);
      var k: nat :| IsFileAt(db.files, a.file, file, k);
    }
    if file, k: nat :| IsFileAt(db.files, a.file, file, k) && IsSoundFile(h, a, file, slot, digest, text) {
      FileMeaning(db.files, a.file, file);
      SoundFileMeaning(h, a, file, slot, digest, text);
    }
  }

  // ---------------------------------------------------------------- corrupted files

  /**
   * Whatever happens to the files, a reader of an archived record gets its first-written text or a fault,
   * never another text.
   */
  lemma CorruptFilesNeverMislead(h: Host, acts: seq<Act>, ref: Ref, files: seq<File>)
    requires Faithful(h) && forall act | act in acts :: IsFair(act)
    requires ref in Play(h, START, acts).db.original
    ensures var db := Play(h, START, acts).db;
      && IsProper(ref)
      && (SlotOf(ref) in db.entries ==>
            var r := Read(h, db.(files := files), ref); r.Ok? ==> r.value == db.original[ref])
  {
    hide IsFair;
    hide Play;
    hide DraftOk;
    hide EntriesSettled;
    hide RowsWellFormed;
    StartIsOk(h);
    PlayKeepsInv(h, START, acts);
    var db := Play(h, START, acts).db;
    OriginalsAreProper(h, db, ref);
    assert RecordHeld(h, db, ref);
    if SlotOf(ref) in db.entries {
      MarkedReadIsChecked(h, db, db.(files := files), ref);
    }
  }

  lemma MarkedReadIsChecked(h: Host, db: Db, other: Db, ref: Ref)
    requires Faithful(h) && ref in db.original && IsProper(ref) && Held(h, db, ref)
    requires SlotOf(ref) in db.entries && other == db.(files := other.files)
    ensures Read(h, other, ref).Ok? ==> Read(h, other, ref).value == db.original[ref]
  {
    hide FindFile;
    hide IsSafeName;
    hide SlotOf;
    var e := db.entries[SlotOf(ref)];
    var v := MarkerValue(e.archive, e.digest);
    assert h.parse(h.render(v)) == Some(v);
    FileIsChecked(h, db.archives[e.archive], FindFile(other.files, db.archives[e.archive].file), SlotOf(ref), e.digest);
  }

  lemma FileIsChecked(h: Host, a: ArchiveRow, text: Option<string>, slot: Slot, digest: string)
    ensures FromFile(h, a, text, slot, digest).Ok? ==> h.sha(FromFile(h, a, text, slot, digest).value) == digest
  {
    hide ByteLength;
    hide Matching;
  }

  // ---------------------------------------------------------------- budgets of the archive directory

  /** At most 128 files of at most 64 MiB together. */
  predicate WithinStorage(db: Db) {
    |db.files| <= 128 && TotalSize(db.files) <= 64 * 1024 * 1024
  }

  lemma {:induction false} ArchiveStaysWithinBudgets(h: Host, acts: seq<Act>)
    ensures WithinStorage(Play(h, START, acts).db)
  {
    hide Perform;
    if acts != [] {
      var n := |acts| - 1;
      ArchiveStaysWithinBudgets(h, acts[..n]);
      PerformKeepsStorage(h, Play(h, START, acts[..n]), acts[n]);
    }
  }

  lemma PerformKeepsStorage(h: Host, w: World, act: Act)
    requires WithinStorage(w.db)
    ensures WithinStorage(Perform(h, w, act).db)
  {
    hide SelectRecords;
    hide ListEntries;
    hide ScanSteps;
    hide CommitPack;
    hide ByteLength;
    if act.Commits? && act.worker in w.drafts && w.drafts[act.worker].filed.Some? {
      var (archive, pack) := w.drafts[act.worker].filed.value;
      CommitKeepsFiles(h, w.db, archive, pack);
    }
    if act.Files? && act.worker in w.drafts {
      var pack := Pack(1, w.drafts[act.worker].project, act.now, w.drafts[act.worker].kept.records);
      OneMoreFile(h, w.db, act.archive, pack);
    }
  }

  lemma OneMoreFile(h: Host, db: Db, archive: string, pack: Pack)
    requires WithinStorage(db)
    ensures Refusal(h, db, pack).None? && WriteFile(h, db, archive, pack).Ok? ==>
      WithinStorage(WriteFile(h, db, archive, pack).value)
  {
  }

  lemma {:induction false} EntriesKeepFiles(h: Host, db: Db, archive: string, es: seq<Entry>)
    ensures CommitEntries(h, db, archive, es).Ok? ==> CommitEntries(h, db, archive, es).value.files == db.files
  {
    hide CommitOne;
    if es != [] {
      EntriesKeepFiles(h, db, archive, es[..|es| - 1]);
      if CommitEntries(h, db, archive, es[..|es| - 1]).Ok? {
        EntryKeepsFiles(h, CommitEntries(h, db, archive, es[..|es| - 1]).value, archive, es[|es| - 1]);
      }
    }
  }

  lemma EntryKeepsFiles(h: Host, db: Db, archive: string, e: Entry)
    ensures CommitOne(h, db, archive, e).Ok? ==> CommitOne(h, db, archive, e).value.files == db.files
  {
    hide RefOf;
    hide Marker;
  }

  lemma CommitKeepsFiles(h: Host, db: Db, archive: string, pack: Pack)
    ensures CommitPack(h, db, archive, pack).Ok? ==> CommitPack(h, db, archive, pack).value.files == db.files
  {
    hide CommitEntries;
    hide ByteLength;
    var row := WithArchive(h, db, archive, pack);
    EntriesKeepFiles(h, row, archive, pack.entries);
  }

  // ---------------------------------------------------------------- the archive call

  /** A pack commits exactly when its name and file are new, its size is allowed and its entries commit. */
  lemma PackIsExact(h: Host, db: Db, archive: string, pack: Pack)
    requires forall e | e in pack.entries :: IsCanonical(e.slot)
    ensures CommitPack(h, db, archive, pack).Ok? <==>
      && archive !in db.archives && (forall a | a in db.archives :: db.archives[a].file != archive + ".json")
      && 1 <= ByteLength(h.pack(pack)) <= 8 * 1024 * 1024
      && pack.entries != [] && Committable(db, pack.entries)
  {
    hide CommitEntries;
    hide ByteLength;
    hide IsCanonical;
    hide Committable;
    var start := WithArchive(h, db, archive, pack);
    CommitsIffCommittable(h, start, archive, pack.entries);
    SameCommittable(db, start, pack.entries);
  }

  lemma {:induction false} SameCommittable(db: Db, start: Db, es: seq<Entry>)
    requires start == db.(archives := start.archives)
    ensures Committable(start, es) <==> Committable(db, es)
  {
    hide RefOf;
    if es != [] {
      SameCommittable(db, start, es[..|es| - 1]);
      SameFit(db, start, es[|es| - 1]);
    }
  }

  lemma SameFit(db: Db, start: Db, e: Entry)
    requires start == db.(archives := start.archives)
    ensures Fits(start, e) <==> Fits(db, e)
  {
    hide RefOf;
  }

  /**
   * A call is turned away, before anything is written, for another digest than the approved one, for a pack
   * of more than eight megabytes, for a 129th file and for more than 64 megabytes in all, in this order.
   */
  lemma RefusalIsExact(
    h: Host, db: Db, run: string, project: string, now: int, records: seq<Entry>, approved: string, archive: string)
    ensures var (later, r) := ArchiveSelected(h, db, run, project, now, records, approved, archive);
      var size := ByteLength(h.pack(Pack(1, project, now, records)));
      if approved != h.sha(h.records(records)) then later == db && r == Err(SelectionChanged)
      else if records == [] then later == db && r == Ok(Nothing)
      else if size > 8 * 1024 * 1024 then later == db && r == Err(TooLarge)
      else if |db.files| >= 128 then later == db && r == Err(FileBudget)
      else if TotalSize(db.files) + size > 64 * 1024 * 1024 then later == db && r == Err(StorageBudget)
      else r != Ok(Nothing) && (r.Err? ==> !IsRefusal(r.error))
  {
    var pack := Pack(1, project, now, records);
    IntentsAreNoRefusals(h, db, run, Intent(h, archive, pack));
    if AddStep(h, db, run, Intent(h, archive, pack)).Ok? {
      var intended := AddStep(h, db, run, Intent(h, archive, pack)).value;
      if WriteFile(h, intended, archive, pack).Ok? {
        var filed := WriteFile(h, intended, archive, pack).value;
        CommitsAreNoRefusals(h, filed, archive, pack);
        if CommitPack(h, filed, archive, pack).Ok? {
          IntentsAreNoRefusals(h, CommitPack(h, filed, archive, pack).value, run, Summary(h, archive, pack));
        }
      }
    }
    hide ByteLength;
    hide TotalSize;
    hide CommitPack;
    hide AddStep;
    hide FindFile;
  }

  predicate IsRefusal(f: Fault) {
    f in {SelectionChanged, TooLarge, FileBudget, StorageBudget}
  }

  lemma IntentsAreNoRefusals(h: Host, db: Db, run: string, payload: Value)
    ensures AddStep(h, db, run, payload).Err? ==> !IsRefusal(AddStep(h, db, run, payload).error)
  {
    hide ByteLength;
  }

  lemma {:induction false} EntriesAreNoRefusals(h: Host, db: Db, archive: string, es: seq<Entry>)
    ensures CommitEntries(h, db, archive, es).Err? ==> !IsRefusal(CommitEntries(h, db, archive, es).error)
  {
    hide RefOf;
    hide SetText;
    if es != [] {
      EntriesAreNoRefusals(h, db, archive, es[..|es| - 1]);
    }
  }

  lemma CommitsAreNoRefusals(h: Host, db: Db, archive: string, pack: Pack)
    ensures CommitPack(h, db, archive, pack).Err? ==> !IsRefusal(CommitPack(h, db, archive, pack).error)
  {
    hide ByteLength;
    hide CommitEntries;
    EntriesAreNoRefusals(h, WithArchive(h, db, archive, pack), archive, pack.entries);
  }

  /** The record has moved into the archive and still reads as it was first written. */
  ghost predicate IsArchivedIn(h: Host, db: Db, archive: string, e: Entry) {
    && e.slot in db.entries && db.entries[e.slot] == EntryRow(archive, e.digest)
    && RefOf(e.slot).Some? && IsProper(RefOf(e.slot).value) && SlotOf(RefOf(e.slot).value) == e.slot
    && RefOf(e.slot).value in db.original && db.original[RefOf(e.slot).value] == e.value
    && Read(h, db, RefOf(e.slot).value) == Ok(e.value)
  }

  /**
   * A call that reports an archive has archived the very records whose digest was approved, all of them,
   * and reports their number; one that reports nothing had nothing to take and changed nothing.
   */
  lemma ReportIsTrue(
    h: Host, db: Db, run: string, project: string, now: int, records: seq<Entry>, approved: string, archive: string)
    requires Faithful(h) && Inv(h, db) && EntriesOk(h, db, records)
    requires |records| <= MAX_RECORDS && IsSafeName(FileName(archive))
    ensures var (later, r) := ArchiveSelected(h, db, run, project, now, records, approved, archive);
      && (r.Ok? ==> approved == h.sha(h.records(records)))
      && (r == Ok(Nothing) ==> records == [] && later == db)
      && (r.Ok? && r.value.Archived? ==>
            && r.value == Archived(archive, |records|) && records != []
            && forall e | e in records :: IsArchivedIn(h, later, archive, e))
  {
    hide Inv;
    hide Grows;
    hide EntriesOk;
    hide Faithful;
    hide IsSafeName;
    hide IsArchivedIn;
    hide Refusal;
    hide StorePack;
    var pack := Pack(1, project, now, records);
    forall e | e in records && StorePack(h, db, run, archive, pack).1.Ok?
      ensures IsArchivedIn(h, StorePack(h, db, run, archive, pack).0, archive, e)
    {
      StoredIsArchived(h, db, run, archive, pack, e);
    }
    StoredReport(h, db, run, archive, pack);
  }

  lemma StoredReport(h: Host, db: Db, run: string, archive: string, pack: Pack)
    ensures var r := StorePack(h, db, run, archive, pack).1; r.Ok? ==> r.value == Archived(archive, |pack.entries|)
  {
    hide AddStep;
    hide WriteFile;
    hide CommitPack;
  }

  lemma StoredIsArchived(h: Host, db: Db, run: string, archive: string, pack: Pack, e: Entry)
    requires Faithful(h) && Inv(h, db) && EntriesOk(h, db, pack.entries) && e in pack.entries
    requires pack.version == 1 && |pack.entries| <= MAX_RECORDS && IsSafeName(FileName(archive))
    requires StorePack(h, db, run, archive, pack).1.Ok?
    ensures IsArchivedIn(h, StorePack(h, db, run, archive, pack).0, archive, e)
  {
    hide Inv;
    hide Grows;
    hide EntriesOk;
    hide Faithful;
    hide IsSafeName;
    hide AddStep;
    hide WriteFile;
    hide CommitPack;
    hide FindFile;
    hide IsArchivedIn;
    var intended := AddStep(h, db, run, Intent(h, archive, pack)).value;
    AddStepKeepsInv(h, db, run, Intent(h, archive, pack));
    var filed := WriteFile(h, intended, archive, pack).value;
    WriteFileKeepsInv(h, intended, archive, pack);
    GrowsTransitive(db, intended, filed);
    EntriesStayOk(h, db, filed, pack.entries);
    var committed := CommitPack(h, filed, archive, pack).value;
    CommitKeepsInv(h, filed, archive, pack);
    var reported := AddStep(h, committed, run, Summary(h, archive, pack)).value;
    AddStepKeepsInv(h, committed, run, Summary(h, archive, pack));
    CommittedIsArchived(h, filed, archive, pack, committed, reported, e);
  }

  lemma CommittedIsArchived(h: Host, filed: Db, archive: string, pack: Pack, committed: Db, reported: Db, e: Entry)
    requires Faithful(h) && Inv(h, filed) && Filed(h, filed, archive, pack) && e in pack.entries
    requires CommitPack(h, filed, archive, pack) == Ok(committed)
    requires Grows(filed, committed) && Grows(committed, reported) && Inv(h, reported)
    ensures IsArchivedIn(h, reported, archive, e)
  {
    hide Inv;
    hide CommitPack;
    hide Faithful;
    hide FindFile;
    hide SameRows;
    hide RefOf;
    hide SlotOf;
    hide RunsStay;
    hide Read;
    hide IsSafeName;
    hide ByteLength;
    NoMarkerIsArchived(h, filed, archive, pack, e);
    assert EntriesOk(h, filed, pack.entries) by { FiledEntries(h, filed, archive, pack); }
    hide Filed;
    CommitPackMeaning(h, filed, archive, pack);
    assert Moved(h, filed, archive, e, committed) && EntryOk(h, filed, e);
    var ref := RefOf(e.slot).value;
    ReadsBack(h, reported, ref);
  }

  // ---------------------------------------------------------------- executions end once

  /** The run is as before up to markers put in place of its texts. */
  ghost predicate IsFrozen(db: Db, later: Db, run: string)
    requires run in db.runs
  {
    && run in later.runs
    && later.runs[run] == db.runs[run].(receipt := later.runs[run].receipt)
    && (db.runs[run].receipt.None? <==> later.runs[run].receipt.None?)
    && (run in db.steps ==> run in later.steps && |later.steps[run]| == |db.steps[run]|)
  }

  /** Once a run is no longer running nothing restarts it, ends it again or adds steps to it. */
  lemma {:induction false} FinishedRunsAreFrozen(h: Host, w: World, acts: seq<Act>, run: string)
    requires run in w.db.runs && w.db.runs[run].state != Running
    ensures IsFrozen(w.db, Play(h, w, acts).db, run)
  {
    hide Perform;
    if acts != [] {
      var n := |acts| - 1;
      FinishedRunsAreFrozen(h, w, acts[..n], run);
      PerformKeepsFrozen(h, Play(h, w, acts[..n]), acts[n], run);
    }
  }

  lemma PerformKeepsFrozen(h: Host, w: World, act: Act, run: string)
    requires run in w.db.runs && w.db.runs[run].state != Running
    ensures IsFrozen(w.db, Perform(h, w, act).db, run)
  {
    hide ListEntries;
    hide CommitPack;
    hide ScanStep;
    hide FileStep;
    hide SavePlan;
    hide Begin;
    hide AddStep;
    hide Finish;
    hide IsFrozen;
    SelfFrozen(w.db, run);
    match act {
      case Commits(worker) =>
        if worker in w.drafts && w.drafts[worker].filed.Some? {
          CommitKeepsFrozen(h, w.db, w.drafts[worker].filed.value.0, w.drafts[worker].filed.value.1, run);
        }
      case Scans(worker) => DraftingKeepsRuns(h, w, worker, "", 0, "");
      case Files(worker, archive, now, approved) => DraftingKeepsRuns(h, w, worker, archive, now, approved);
      case Lists(_, _, _, _, _, _) =>
      case _ => WritingKeepsFrozen(h, w.db, act, run);
    }
  }

  lemma SelfFrozen(db: Db, run: string)
    requires run in db.runs
    ensures forall later: Db | later.runs == db.runs && later.steps == db.steps :: IsFrozen(db, later, run)
  {
  }

  lemma DraftingKeepsRuns(h: Host, w: World, worker: string, archive: string, now: int, approved: string)
    ensures var later := ScanStep(h, w, worker).db; later.runs == w.db.runs && later.steps == w.db.steps
    ensures var later := FileStep(h, w, worker, archive, now, approved).db;
      later.runs == w.db.runs && later.steps == w.db.steps
  {
    hide ScanSteps;
    hide Refusal;
  }

  lemma WritingKeepsFrozen(h: Host, db: Db, act: Act, run: string)
    requires run in db.runs && db.runs[run].state != Running
    ensures match act
      case SavesPlan(id, project, plan) => IsFrozen(db, OrElse(SavePlan(h, db, id, project, plan), db), run)
      case Begins(other, plan) => IsFrozen(db, OrElse(Begin(db, other, plan), db), run)
      case AddsStep(other, payload) => IsFrozen(db, OrElse(AddStep(h, db, other, payload), db), run)
      case Finishes(other, plan, state, at, receipt) =>
        IsFrozen(db, OrElse(Finish(h, db, other, plan, state, at, receipt), db), run)
      case _ => true
  {
    hide ByteLength;
  }

  lemma CommitKeepsFrozen(h: Host, db: Db, archive: string, pack: Pack, run: string)
    requires run in db.runs
    ensures CommitPack(h, db, archive, pack).Ok? ==> IsFrozen(db, CommitPack(h, db, archive, pack).value, run)
  {
    hide CommitEntries;
    hide ByteLength;
    EntriesKeepFrozen(h, WithArchive(h, db, archive, pack), archive, pack.entries, run);
  }

  lemma {:induction false} EntriesKeepFrozen(h: Host, db: Db, archive: string, es: seq<Entry>, run: string)
    requires run in db.runs
    ensures CommitEntries(h, db, archive, es).Ok? ==> IsFrozen(db, CommitEntries(h, db, archive, es).value, run)
  {
    hide CommitOne;
    if es != [] {
      EntriesKeepFrozen(h, db, archive, es[..|es| - 1], run);
      if CommitEntries(h, db, archive, es[..|es| - 1]).Ok? {
        EntryKeepsFrozen(h, CommitEntries(h, db, archive, es[..|es| - 1]).value, archive, es[|es| - 1], run);
      }
    }
  }

  lemma EntryKeepsFrozen(h: Host, db: Db, archive: string, e: Entry, run: string)
    requires run in db.runs
    ensures CommitOne(h, db, archive, e).Ok? ==> IsFrozen(db, CommitOne(h, db, archive, e).value, run)
  {
    hide RefOf;
    hide Marker;
  }
}
