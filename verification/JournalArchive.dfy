/**
 * The effect journal and its archive. Plans, receipts and steps are written once. Archiving moves
 * the texts of settled runs into a pack file and leaves a marker behind; hydration reads them back.
 */
module JournalArchive {
  import opened Prelude
  import opened Control
  import opened Json
  import opened Text
  import opened Ordering

  const PACK_LIMIT: nat := 8 * 1024 * 1024
  const RECORD_BUDGET: nat := PACK_LIMIT - 4096
  const MAX_RECORDS: nat := 10000
  const ARCHIVE_LIMIT: nat := 64 * 1024 * 1024
  const MAX_FILES: nat := 128
  const MAX_STEPS: nat := 1000
  const STEP_LIMIT: nat := 32768
  const MARKER_KEY: string := "workstation_archive"

  datatype ExecutionState = Prepared | Running | Succeeded | Failed | Indeterminate | Cancelled

  /** Only runs in these states are archived. */
  predicate IsSettled(s: ExecutionState) {
    s.Succeeded? || s.Failed? || s.Cancelled?
  }

  datatype Fault =
    | Database | JsonInvalid | KindInvalid | MarkerInvalid | ReferenceMismatch | FilenameUnsafe | Missing
    | SizeOrType | ChecksumMismatch | FormatInvalid | FormatLimit | EntryAmbiguous | EntryCorrupt
    | RecordBudget | TooLarge | CutoffOrLimit | SelectionChanged | FileBudget | StorageBudget | FileCreate
    | KeyInvalid | SourceChanged | StepSize | NotRunning | StateConflict

  // ---------------------------------------------------------------- tables

  /** What a journal record is called: a plan, the receipt of a run, or a numbered step of a run. */
  datatype Ref = PlanRef(id: string) | ReceiptRef(run: string) | StepRef(run: string, number: int)

  /** How the archive tables and packs spell a record's name. */
  datatype Slot = Slot(kind: string, key: string)

  datatype PlanRow = PlanRow(project: string, digest: string, payload: string)
  datatype RunRow = RunRow(plan: string, state: ExecutionState, finishedAt: Option<int>, receipt: Option<string>)
  datatype ArchiveRow = ArchiveRow(project: string, file: string, digest: string, size: nat, records: nat)
  datatype EntryRow = EntryRow(archive: string, digest: string)
  datatype Entry = Entry(slot: Slot, digest: string, value: string)
  datatype Pack = Pack(version: nat, project: string, createdAt: int, entries: seq<Entry>)
  datatype File = File(name: string, text: string)

  /**
   * The tables and the archive directory. The i-th step of a run carries sequence number i + 1.
   * `original` is a history variable: the text each record was first written with.
   */
  datatype Db = Db(
    plans: map<string, PlanRow>,
    runs: map<string, RunRow>,
    steps: map<string, seq<string>>,
    archives: map<string, ArchiveRow>,
    entries: map<Slot, EntryRow>,
    files: seq<File>,
    original: map<Ref, string>)

  const EMPTY: Db := Db(map[], map[], map[], map[], map[], [], map[])

  /** The JSON codec and SHA-256. */
  datatype Host = Host(
    render: Value -> string,
    parse: string -> Option<Value>,
    sha: string -> string,
    entry: Entry -> string,
    records: seq<Entry> -> string,
    pack: Pack -> string,
    unpack: string -> Option<Pack>)

  ghost predicate Faithful(h: Host) {
    && (forall v :: h.parse(h.render(v)) == Some(v))
    && (forall p :: h.unpack(h.pack(p)) == Some(p))
    && (forall a, b :: h.sha(a) == h.sha(b) ==> a == b)
    && (forall a, b :: h.records(a) == h.records(b) ==> a == b)
  }

  function FindFile(files: seq<File>, name: string): Option<string> {
    if files == [] then None
    else if files[|files| - 1].name == name then Some(files[|files| - 1].text)
    else FindFile(files[..|files| - 1], name)
  }

  function TotalSize(files: seq<File>): nat {
    if files == [] then 0 else TotalSize(files[..|files| - 1]) + ByteLength(files[|files| - 1].text)
  }

  // ---------------------------------------------------------------- names

  function SlotOf(ref: Ref): Slot
    requires ref.StepRef? ==> ref.number >= 0
  {
    match ref
    case PlanRef(id) => Slot("plan", id)
    case ReceiptRef(run) => Slot("receipt", run)
    case StepRef(run, number) => Slot("step", run + ":" + Numeral(number))
  }

  /** The record a slot names; a step key splits at its last colon. */
  function RefOf(slot: Slot): Option<Ref> {
    if slot.kind == "plan" then Some(PlanRef(slot.key))
    else if slot.kind == "receipt" then Some(ReceiptRef(slot.key))
    else if slot.kind == "step" then
      match RSplitOnce(slot.key, ':')
      case None => None
      case Some((run, tail)) => (match ParseI64(tail) case None => None case Some(n) => Some(StepRef(run, n)))
    else None
  }

  predicate IsProper(ref: Ref) {
    ref.StepRef? ==> 1 <= ref.number <= I64_MAX
  }

  /** The slot is spelled the way terminal records spell it. */
  predicate IsCanonical(slot: Slot) {
    RefOf(slot).Some? && IsProper(RefOf(slot).value) && SlotOf(RefOf(slot).value) == slot
  }

  /** Splitting a record's name undoes joining it, whatever colons the run identifier has. */
  lemma NameRoundTrip(ref: Ref)
    requires IsProper(ref)
    ensures RefOf(SlotOf(ref)) == Some(ref) && IsCanonical(SlotOf(ref))
  {
    hide ParseI64;
    hide RSplitOnce;
    hide Numeral;
    if ref.StepRef? {
      DigitsHaveNoColon(Numeral(ref.number));
      RSplitOnceMeaning(ref.run, ':', Numeral(ref.number));
      ParsesNumeral(ref.number);
    }
  }

  lemma DigitsHaveNoColon(s: string)
    requires IsDigits(s)
    ensures ':' !in s
  {
  }

  /** The text a record is stored with. */
  function Current(db: Db, ref: Ref): Option<string> {
    match ref
    case PlanRef(id) => if id in db.plans then Some(db.plans[id].payload) else None
    case ReceiptRef(run) => if run in db.runs then db.runs[run].receipt else None
    case StepRef(run, number) =>
      if run in db.steps && 1 <= number <= |db.steps[run]| then Some(db.steps[run][number - 1]) else None
  }

  function SetText(db: Db, ref: Ref, text: string): Db
    requires Current(db, ref).Some?
  {
    match ref
    case PlanRef(id) => db.(plans := db.plans[id := db.plans[id].(payload := text)])
    case ReceiptRef(run) => db.(runs := db.runs[run := db.runs[run].(receipt := Some(text))])
    case StepRef(run, number) =>
      db.(steps := db.steps[run := db.steps[run][number - 1 := text]])
  }

  lemma SetTextMeaning(db: Db, ref: Ref, text: string, other: Ref)
    requires Current(db, ref).Some?
    ensures Current(SetText(db, ref, text), other) == if other == ref then Some(text) else Current(db, other)
  {
  }

  // ---------------------------------------------------------------- writing the journal

  function SavePlan(h: Host, db: Db, id: string, project: string, plan: Value): Result<Db, Fault> {
    var text := h.render(plan);
    if id in db.plans then Err(Database)
    else Ok(db.(
        plans := db.plans[id := PlanRow(project, h.sha(text), text)],
        original := db.original[PlanRef(id) := text]))
  }

  /** A plan is run at most once: the plan column is unique. */
  function Begin(db: Db, run: string, plan: string): Result<Db, Fault> {
    if run in db.runs || plan !in db.plans || exists r | r in db.runs :: db.runs[r].plan == plan then Err(Database)
    else Ok(db.(
        runs := db.runs[run := RunRow(plan, Running, None, None)],
        steps := db.steps[run := []]))
  }

  function AddStep(h: Host, db: Db, run: string, payload: Value): Result<Db, Fault> {
    var text := h.render(payload);
    if ByteLength(text) > STEP_LIMIT then Err(StepSize)
    else if run !in db.runs || run !in db.steps then Err(Database)
    else if db.runs[run].state != Running then Err(NotRunning)
    else if |db.steps[run]| >= I64_MAX then Err(Database)
    else Ok(db.(
        steps := db.steps[run := db.steps[run] + [text]],
        original := db.original[StepRef(run, |db.steps[run]| + 1) := text]))
  }

  function Finish(h: Host, db: Db, run: string, plan: string, state: ExecutionState, at: Option<int>, receipt: Value)
    : Result<Db, Fault>
  {
    var text := h.render(receipt);
    if run !in db.runs || db.runs[run].plan != plan || db.runs[run].state != Running then Err(StateConflict)
    else if state == Prepared then Err(Database)
    else Ok(db.(
        runs := db.runs[run := RunRow(plan, state, at, Some(text))],
        original := db.original[ReceiptRef(run) := text]))
  }

  // ---------------------------------------------------------------- selecting terminal records

  /** Entries retained so far and the bytes they take. */
  datatype Kept = Kept(records: seq<Entry>, used: nat)

  function Push(h: Host, k: Kept, e: Entry): Result<Kept, Fault> {
    if |k.records| >= MAX_RECORDS then Err(RecordBudget)
    else
      var next := k.used + ByteLength(h.entry(e)) + 1;
      // Past the machine word the addition is refused with the same error.
      if next > RECORD_BUDGET then Err(TooLarge) else Ok(Kept(k.records + [e], next))
  }

  function PushAll(h: Host, k: Kept, es: seq<Entry>): Result<Kept, Fault> {
    if es == [] then Ok(k)
    else
      match PushAll(h, k, es[..|es| - 1])
      case Err(f) => Err(f)
      case Ok(kept) => Push(h, kept, es[|es| - 1])
  }

  function Weight(h: Host, es: seq<Entry>): nat {
    if es == [] then 0 else Weight(h, es[..|es| - 1]) + ByteLength(h.entry(es[|es| - 1])) + 1
  }

  predicate WithinBudget(k: Kept) {
    |k.records| <= MAX_RECORDS && k.used <= RECORD_BUDGET
  }

  /** A batch is kept exactly when both budgets hold for all of it, and then it is kept whole. */
  lemma {:induction false} PushAllMeaning(h: Host, k: Kept, es: seq<Entry>)
    requires WithinBudget(k)
    ensures PushAll(h, k, es).Ok? <==>
      |k.records| + |es| <= MAX_RECORDS && k.used + Weight(h, es) <= RECORD_BUDGET
    ensures PushAll(h, k, es).Ok? ==>
      PushAll(h, k, es).value == Kept(k.records + es, k.used + Weight(h, es))
  {
    if es == [] {
      assert k.records + es == k.records;
    } else {
      var front, last := es[..|es| - 1], es[|es| - 1];
      PushAllMeaning(h, k, front);
      assert es == front + [last];
      assert k.records + es == k.records + front + [last];
    }
  }

  lemma {:induction false} PushAllStops(h: Host, k: Kept, es: seq<Entry>, i: nat)
    requires i <= |es| && PushAll(h, k, es[..i]).Err?
    ensures PushAll(h, k, es) == PushAll(h, k, es[..i])
    decreases |es|
  {
    if i == |es| {
      assert es[..i] == es;
    } else {
      var front := es[..|es| - 1];
      assert front[..i] == es[..i];
      PushAllStops(h, k, front, i);
    }
  }

  lemma PushFew(h: Host, k: Kept, es: seq<Entry>)
    requires 1 <= |es| <= 2
    ensures |es| == 1 ==> PushAll(h, k, es) == Push(h, k, es[0])
    ensures |es| == 2 ==>
      PushAll(h, k, es) == (match Push(h, k, es[0]) case Err(f) => Err(f) case Ok(kept) => Push(h, kept, es[1]))
  {
    hide Push;
    assert es[..1] == [es[0]] && es[..1][..0] == [];
    assert PushAll(h, k, es[..1]) == Push(h, k, es[0]);
  }

  function MakeEntry(h: Host, ref: Ref, text: string): Entry
    requires IsProper(ref)
  {
    Entry(SlotOf(ref), h.sha(text), text)
  }

  /** A run the listing may pick: settled long enough ago and its plan not archived yet. */
  predicate IsEligible(db: Db, project: string, before: int, run: string) {
    && run in db.runs
    && var row := db.runs[run];
    && row.plan in db.plans && db.plans[row.plan].project == project
    && IsSettled(row.state) && row.finishedAt.Some? && row.finishedAt.value < before
    && Slot("plan", row.plan) !in db.entries
  }

  /** The listing's order: by finishing time, then by identifier. */
  predicate ListedBefore(db: Db, a: string, b: string) {
    && a in db.runs && b in db.runs
    && var x, y := db.runs[a].finishedAt, db.runs[b].finishedAt;
    && x.Some? && y.Some?
    && (x.value < y.value || (x.value == y.value && AtMost(a, b)))
  }

  /** What the listing query promises: the first `limit` eligible runs in order. */
  ghost predicate IsListing(db: Db, project: string, before: int, limit: int, picked: seq<string>) {
    && |picked| <= limit
    && (forall r | r in picked :: IsEligible(db, project, before, r))
    && (forall i, j | 0 <= i < j < |picked| :: picked[i] != picked[j] && ListedBefore(db, picked[i], picked[j]))
    && (forall r | IsEligible(db, project, before, r) && r !in picked ::
          |picked| == limit && forall p | p in picked :: ListedBefore(db, p, r))
  }

  lemma ListingIsEligible(db: Db, project: string, before: int, limit: int, picked: seq<string>)
    requires IsListing(db, project, before, limit, picked)
    ensures forall r | r in picked :: IsEligible(db, project, before, r)
  {
  }

  /** The plan of a listed run and its receipt if it has one. */
  function RunEntries(h: Host, db: Db, run: string): seq<Entry> {
    if run !in db.runs || db.runs[run].plan !in db.plans then []
    else
      var row := db.runs[run];
      [MakeEntry(h, PlanRef(row.plan), db.plans[row.plan].payload)]
      + (if row.receipt.Some? then [MakeEntry(h, ReceiptRef(run), row.receipt.value)] else [])
  }

  function ListEntries(h: Host, db: Db, k: Kept, picked: seq<string>): Result<Kept, Fault> {
    if picked == [] then Ok(k)
    else
      match ListEntries(h, db, k, picked[..|picked| - 1])
      case Err(f) => Err(f)
      case Ok(kept) => PushAll(h, kept, RunEntries(h, db, picked[|picked| - 1]))
  }

  function StepTexts(db: Db, run: string): seq<string> {
    if run in db.steps then db.steps[run] else []
  }

  function StepEntries(h: Host, db: Db, run: string, n: nat): seq<Entry>
    requires n <= |StepTexts(db, run)| && n <= MAX_STEPS
  {
    seq(n, i requires 0 <= i < n => MakeEntry(h, StepRef(run, i + 1), StepTexts(db, run)[i]))
  }

  /** The steps of one run; the thousand and first one is refused. */
  function ScanSteps(h: Host, db: Db, k: Kept, run: string): Result<Kept, Fault> {
    var n := |StepTexts(db, run)|;
    match PushAll(h, k, StepEntries(h, db, run, Min(n, MAX_STEPS)))
    case Err(f) => Err(f)
    case Ok(kept) => if n > MAX_STEPS then Err(RecordBudget) else Ok(kept)
  }

  function ScanAll(h: Host, db: Db, k: Kept, runs: seq<string>): Result<Kept, Fault> {
    if runs == [] then Ok(k)
    else
      match ScanAll(h, db, k, runs[..|runs| - 1])
      case Err(f) => Err(f)
      case Ok(kept) => ScanSteps(h, db, kept, runs[|runs| - 1])
  }

  predicate ValidCutoff(before: int, limit: int, now: int) {
    1 <= limit <= 100 && 0 <= before <= now - 3600
  }

  // ---------------------------------------------------------------- writing and committing a pack

  function FileName(archive: string): string {
    archive + ".json"
  }

  predicate IsSafeName(s: string) {
    && ByteLength(s) <= 80
    && |s| >= 5 && s[|s| - 5..] == ".json"
    && forall c | c in s :: IsAsciiAlphanumeric(c) || c in "-."
  }

  function WriteFile(h: Host, db: Db, archive: string, pack: Pack): Result<Db, Fault> {
    if FindFile(db.files, FileName(archive)).Some? then Err(FileCreate)
    else Ok(db.(files := db.files + [File(FileName(archive), h.pack(pack))]))
  }

  function Marker(h: Host, archive: string, digest: string): string {
    h.render(MarkerValue(archive, digest))
  }

  function MarkerValue(archive: string, digest: string): Value {
    Object(map[MARKER_KEY := Object(map["id" := Str(archive), "sha256" := Str(digest)])])
  }

  /**
   * Claims the slot, then replaces the stored text if it is still the packed one. The immutability
   * trigger admits the replacement of a plan only under the digest of the plan row.
   */
  function CommitOne(h: Host, db: Db, archive: string, e: Entry): Result<Db, Fault> {
    var claimed := db.(entries := db.entries[e.slot := EntryRow(archive, e.digest)]);
    if e.slot in db.entries || e.slot.kind !in {"plan", "receipt", "step"} then Err(Database)
    else
      match RefOf(e.slot)
      case None => Err(KeyInvalid)
      case Some(ref) =>
        if Current(db, ref) != Some(e.value) then Err(SourceChanged)
        else if ref.ReceiptRef? && !IsSettled(db.runs[ref.run].state) then Err(SourceChanged)
        else if ref.PlanRef? && db.plans[ref.id].digest != e.digest then Err(Database)
        else Ok(SetText(claimed, ref, Marker(h, archive, e.digest)))
  }

  function CommitEntries(h: Host, db: Db, archive: string, es: seq<Entry>): Result<Db, Fault> {
    if es == [] then Ok(db)
    else
      match CommitEntries(h, db, archive, es[..|es| - 1])
      case Err(f) => Err(f)
      case Ok(d) => CommitOne(h, d, archive, es[|es| - 1])
  }

  /** One transaction: a fault anywhere leaves the tables alone. */
  function CommitPack(h: Host, db: Db, archive: string, pack: Pack): Result<Db, Fault> {
    var text := h.pack(pack);
    var row := ArchiveRow(pack.project, FileName(archive), h.sha(text), ByteLength(text), |pack.entries|);
    if || archive in db.archives
       || exists a | a in db.archives :: db.archives[a].file == row.file
    then Err(Database)
    else if !(1 <= row.size <= PACK_LIMIT) || row.records == 0 then Err(Database)
    else CommitEntries(h, db.(archives := db.archives[archive := row]), archive, pack.entries)
  }

  // ---------------------------------------------------------------- hydration

  function Matching(es: seq<Entry>, slot: Slot): seq<Entry> {
    if es == [] then []
    else Matching(es[..|es| - 1], slot) + (if es[|es| - 1].slot == slot then [es[|es| - 1]] else [])
  }

  function Hydrate(h: Host, db: Db, slot: Slot, current: string): Result<string, Fault> {
    var v := h.parse(current);
    if v.None? then Err(JsonInvalid)
    else
      var marker := Get(v.value, MARKER_KEY);
      if marker.None? then Ok(current)
      else if slot.kind !in {"plan", "receipt", "step"} then Err(KindInvalid)
      else
        var id, digest := AsString(Get(marker.value, "id")), AsString(Get(marker.value, "sha256"));
        if id.None? || digest.None? then Err(MarkerInvalid)
        else if slot !in db.entries || db.entries[slot].archive !in db.archives then Err(Database)
        else
          var e := db.entries[slot];
          var a := db.archives[e.archive];
          if e.archive != id.value || e.digest != digest.value then Err(ReferenceMismatch)
          else if !IsSafeName(a.file) then Err(FilenameUnsafe)
          else FromFile(h, a, FindFile(db.files, a.file), slot, digest.value)
  }

  function FromFile(h: Host, a: ArchiveRow, text: Option<string>, slot: Slot, digest: string): Result<string, Fault> {
    if text.None? then Err(Missing)
    else if ByteLength(text.value) > PACK_LIMIT then Err(SizeOrType)
    else if ByteLength(text.value) != a.size || h.sha(text.value) != a.digest then Err(ChecksumMismatch)
    else
      match h.unpack(text.value)
      case None => Err(FormatInvalid)
      case Some(pack) =>
        var items := Matching(pack.entries, slot);
        if pack.version != 1 || pack.project != a.project || |pack.entries| > MAX_RECORDS then Err(FormatLimit)
        else if |items| != 1 then Err(EntryAmbiguous)
        else if items[0].digest != digest || h.sha(items[0].value) != digest then Err(EntryCorrupt)
        else Ok(items[0].value)
  }

  /** Reading a record the way plans, receipts and steps are read. */
  function Read(h: Host, db: Db, ref: Ref): Result<string, Fault>
    requires IsProper(ref)
  {
    match Current(db, ref)
    case None => Err(Database)
    case Some(text) => Hydrate(h, db, SlotOf(ref), text)
  }

  /**
   * A record read before it is archived comes back as written exactly when it does not carry the
   * marker key: the reader cannot tell such a payload from a marker.
   */
  lemma FreshTextReadsBack(h: Host, db: Db, ref: Ref, payload: Value)
    requires Faithful(h) && IsProper(ref)
    requires Current(db, ref) == Some(h.render(payload)) && SlotOf(ref) !in db.entries
    ensures Read(h, db, ref) == Ok(h.render(payload)) <==> Get(payload, MARKER_KEY).None?
    ensures Get(payload, MARKER_KEY).Some? ==> Read(h, db, ref).Err?
  {
  }

  // ---------------------------------------------------------------- archiving terminal journals

  /** The bounded selection: listed plans and receipts first, then the steps of each listed run. */
  function SelectRecords(h: Host, db: Db, before: int, limit: int, now: int, picked: seq<string>)
    : Result<Kept, Fault>
  {
    if !ValidCutoff(before, limit, now) then Err(CutoffOrLimit)
    else
      match ListEntries(h, db, Kept([], 0), picked)
      case Err(f) => Err(f)
      case Ok(k) => ScanAll(h, db, k, picked)
  }

  /** Limits checked before anything is written. */
  function Refusal(h: Host, db: Db, pack: Pack): Option<Fault> {
    var size := ByteLength(h.pack(pack));
    if size > PACK_LIMIT then Some(TooLarge)
    else if |db.files| >= MAX_FILES then Some(FileBudget)
    else if TotalSize(db.files) + size > ARCHIVE_LIMIT then Some(StorageBudget)
    else None
  }

  function Intent(h: Host, archive: string, pack: Pack): Value {
    Object(map["archive_id" := Str(archive), "sha256" := Str(h.sha(h.pack(pack))), "records" := Number(|pack.entries|)])
  }

  function Summary(h: Host, archive: string, pack: Pack): Value {
    Object(map[
      "archive_id" := Str(archive), "sha256" := Str(h.sha(h.pack(pack))), "records" := Number(|pack.entries|),
      "bytes" := Number(ByteLength(h.pack(pack))), "logical_history_unchanged" := Bool(true),
      "succeeded_failed_cancelled_only" := Bool(true), "indeterminate_and_running_retained" := Bool(true),
      "physical_disk_shrink_claimed" := Bool(false)])
  }

  datatype Report = Nothing | Archived(archive: string, records: nat)

  /** The four separate writes: intent step, pack file, commit transaction, completion step. */
  function StorePack(h: Host, db: Db, run: string, archive: string, pack: Pack): (Db, Result<Report, Fault>) {
    match AddStep(h, db, run, Intent(h, archive, pack))
    case Err(f) => (db, Err(f))
    case Ok(intended) =>
      match WriteFile(h, intended, archive, pack)
      case Err(f) => (intended, Err(f))
      case Ok(filed) =>
        match CommitPack(h, filed, archive, pack)
        case Err(f) => (filed, Err(f))
        case Ok(committed) =>
          match AddStep(h, committed, run, Summary(h, archive, pack))
          case Err(f) => (committed, Err(f))
          case Ok(reported) => (reported, Ok(Archived(archive, |pack.entries|)))
  }

  function ArchiveSelected(
    h: Host, db: Db, run: string, project: string, now: int, records: seq<Entry>, approved: string, archive: string)
    : (Db, Result<Report, Fault>)
  {
    var pack := Pack(1, project, now, records);
    if h.sha(h.records(records)) != approved then (db, Err(SelectionChanged))
    else if records == [] then (db, Ok(Nothing))
    else
      match Refusal(h, db, pack)
      case Some(f) => (db, Err(f))
      case None => StorePack(h, db, run, archive, pack)
  }

  // ---------------------------------------------------------------- the store's methods

  lemma {:induction false} ListStops(h: Host, db: Db, k: Kept, picked: seq<string>, i: nat)
    requires i <= |picked| && ListEntries(h, db, k, picked[..i]).Err?
    ensures ListEntries(h, db, k, picked) == ListEntries(h, db, k, picked[..i])
    decreases |picked|
  {
    if i == |picked| {
      assert picked[..i] == picked;
    } else {
      var front := picked[..|picked| - 1];
      assert front[..i] == picked[..i];
      ListStops(h, db, k, front, i);
    }
  }

  lemma {:induction false} ScanStops(h: Host, db: Db, k: Kept, runs: seq<string>, i: nat)
    requires i <= |runs| && ScanAll(h, db, k, runs[..i]).Err?
    ensures ScanAll(h, db, k, runs) == ScanAll(h, db, k, runs[..i])
    decreases |runs|
  {
    if i == |runs| {
      assert runs[..i] == runs;
    } else {
      var front := runs[..|runs| - 1];
      assert front[..i] == runs[..i];
      ScanStops(h, db, k, front, i);
    }
  }

  lemma ScanNothing(h: Host, db: Db, k: Kept, runs: seq<string>)
    ensures ScanAll(h, db, k, runs[..0]) == Ok(k)
  {
  }

  lemma ScanNext(h: Host, db: Db, k: Kept, runs: seq<string>, i: nat)
    requires i < |runs| && ScanAll(h, db, k, runs[..i]).Ok?
    ensures ScanAll(h, db, k, runs[..i + 1]) == ScanSteps(h, db, ScanAll(h, db, k, runs[..i]).value, runs[i])
  {
    hide ScanSteps;
    assert runs[..i + 1][..i] == runs[..i];
  }

  lemma CommitNothing(h: Host, db: Db, archive: string, es: seq<Entry>)
    ensures CommitEntries(h, db, archive, es[..0]) == Ok(db)
  {
  }

  lemma CommitNext(h: Host, db: Db, archive: string, es: seq<Entry>, i: nat)
    requires i < |es| && CommitEntries(h, db, archive, es[..i]).Ok?
    ensures CommitEntries(h, db, archive, es[..i + 1])
      == CommitOne(h, CommitEntries(h, db, archive, es[..i]).value, archive, es[i])
  {
    hide CommitOne;
    assert es[..i + 1][..i] == es[..i];
  }

  /** The vector of entries and the byte counter that terminal selection fills. */
  class Retained {
    var records: seq<Entry>
    var used: nat

    constructor ()
      ensures records == [] && used == 0
    {
      records, used := [], 0;
    }

    function State(): Kept
      reads this
    {
      Kept(records, used)
    }

    /** Nothing is retained when either budget would be passed. */
    method PushBounded(h: Host, e: Entry) returns (fault: Option<Fault>)
      modifies this
      ensures match Push(h, old(State()), e)
        case Ok(k) => fault.None? && State() == k
        case Err(f) => fault == Some(f) && State() == old(State())
    {
      if |records| >= MAX_RECORDS {
        return Some(RecordBudget);
      }
      var next := used + ByteLength(h.entry(e)) + 1;
      if next > RECORD_BUDGET {
        return Some(TooLarge);
      }
      used := next;
      records := records + [e];
      return None;
    }
  }

  class Journal {
    var db: Db

    constructor ()
      ensures db == EMPTY
    {
      db := EMPTY;
    }

    method SaveEffectPlan(h: Host, id: string, project: string, plan: Value) returns (fault: Option<Fault>)
      modifies this
      ensures match SavePlan(h, old(db), id, project, plan)
        case Ok(d) => fault.None? && db == d
        case Err(f) => fault == Some(f) && db == old(db)
    {
      if id in db.plans {
        return Some(Database);
      }
      var text := h.render(plan);
      db := db.(
        plans := db.plans[id := PlanRow(project, h.sha(text), text)],
        original := db.original[PlanRef(id) := text]);
      return None;
    }

    method BeginEffect(run: string, plan: string) returns (fault: Option<Fault>)
      modifies this
      ensures match Begin(old(db), run, plan)
        case Ok(d) => fault.None? && db == d
        case Err(f) => fault == Some(f) && db == old(db)
    {
      if run in db.runs || plan !in db.plans || exists r | r in db.runs :: db.runs[r].plan == plan {
        return Some(Database);
      }
      db := db.(
        runs := db.runs[run := RunRow(plan, Running, None, None)],
        steps := db.steps[run := []]);
      return None;
    }

    method EffectStep(h: Host, run: string, payload: Value) returns (fault: Option<Fault>)
      modifies this
      ensures match AddStep(h, old(db), run, payload)
        case Ok(d) => fault.None? && db == d
        case Err(f) => fault == Some(f) && db == old(db)
    {
      var text := h.render(payload);
      if ByteLength(text) > STEP_LIMIT {
        return Some(StepSize);
      }
      if run !in db.runs || run !in db.steps {
        return Some(Database);
      }
      if db.runs[run].state != Running {
        return Some(NotRunning);
      }
      var number := |db.steps[run]| + 1;
      if number > I64_MAX {
        return Some(Database);
      }
      db := db.(
        steps := db.steps[run := db.steps[run] + [text]],
        original := db.original[StepRef(run, number) := text]);
      return None;
    }

    method FinishEffect(h: Host, run: string, plan: string, state: ExecutionState, at: Option<int>, receipt: Value)
      returns (fault: Option<Fault>)
      modifies this
      ensures match Finish(h, old(db), run, plan, state, at, receipt)
        case Ok(d) => fault.None? && db == d
        case Err(f) => fault == Some(f) && db == old(db)
    {
      if run !in db.runs || db.runs[run].plan != plan || db.runs[run].state != Running {
        return Some(StateConflict);
      }
      if state == Prepared {
        return Some(Database);
      }
      var text := h.render(receipt);
      db := db.(
        runs := db.runs[run := RunRow(plan, state, at, Some(text))],
        original := db.original[ReceiptRef(run) := text]);
      return None;
    }

    /** The plan of one listed run, then its receipt if it has one. */
    method RetainRun(h: Host, run: string, into: Retained) returns (fault: Option<Fault>)
      requires run in db.runs && db.runs[run].plan in db.plans
      modifies into
      ensures match PushAll(h, old(into.State()), RunEntries(h, db, run))
        case Ok(k) => fault.None? && into.State() == k
        case Err(f) => fault == Some(f)
    {
      var row := db.runs[run];
      PushFew(h, into.State(), RunEntries(h, db, run));
      fault := into.PushBounded(h, MakeEntry(h, PlanRef(row.plan), db.plans[row.plan].payload));
      if fault.None? && row.receipt.Some? {
        fault := into.PushBounded(h, MakeEntry(h, ReceiptRef(run), row.receipt.value));
      }
    }

    /** Plans and receipts of the listed runs, in listing order. */
    method RetainListed(h: Host, project: string, before: int, picked: seq<string>, into: Retained)
      returns (fault: Option<Fault>)
      requires forall r | r in picked :: IsEligible(db, project, before, r)
      modifies into
      ensures match ListEntries(h, db, old(into.State()), picked)
        case Ok(k) => fault.None? && into.State() == k
        case Err(f) => fault == Some(f)
    {
      hide RunEntries;
      hide PushAll;
      ghost var start := into.State();
      var i := 0;
      assert picked[..0] == [];
      while i < |picked|
        invariant i <= |picked|
        invariant ListEntries(h, db, start, picked[..i]) == Ok(into.State())
      {
        assert picked[..i + 1][..i] == picked[..i];
        assert IsEligible(db, project, before, picked[i]);
        fault := RetainRun(h, picked[i], into);
        if fault.Some? {
          ListStops(h, db, start, picked, i + 1);
          return;
        }
        i := i + 1;
      }
      assert picked[..i] == picked;
      fault := None;
    }

    /** The steps of one run, at most a thousand of them. */
    method RetainSteps(h: Host, run: string, into: Retained) returns (fault: Option<Fault>)
      modifies into
      ensures match ScanSteps(h, db, old(into.State()), run)
        case Ok(k) => fault.None? && into.State() == k
        case Err(f) => fault == Some(f)
    {
      ghost var start := into.State();
      var texts := StepTexts(db, run);
      ghost var all := StepEntries(h, db, run, Min(|texts|, MAX_STEPS));
      var i := 0;
      assert all[..0] == [];
      while i < |texts|
        invariant i <= |all| == Min(|texts|, MAX_STEPS)
        invariant PushAll(h, start, all[..i]) == Ok(into.State())
      {
        if i + 1 > MAX_STEPS {
          assert all[..i] == all;
          return Some(RecordBudget);
        }
        assert all[..i + 1][..i] == all[..i];
        fault := into.PushBounded(h, MakeEntry(h, StepRef(run, i + 1), texts[i]));
        if fault.Some? {
          PushAllStops(h, start, all, i + 1);
          return;
        }
        i := i + 1;
      }
      assert all[..i] == all;
      fault := None;
    }

    method TerminalRecords(h: Host, project: string, before: int, limit: int, now: int, picked: seq<string>)
      returns (r: Result<Kept, Fault>)
      requires ValidCutoff(before, limit, now) ==> IsListing(db, project, before, limit, picked)
      ensures r == SelectRecords(h, db, before, limit, now, picked)
    {
      if !ValidCutoff(before, limit, now) {
        return Err(CutoffOrLimit);
      }
      hide ScanSteps;
      hide ScanAll;
      hide ListEntries;
      hide IsEligible;
      ListingIsEligible(db, project, before, limit, picked);
      hide IsListing;
      hide ValidCutoff;
      var records := new Retained();
      var fault := RetainListed(h, project, before, picked, records);
      if fault.Some? {
        return Err(fault.value);
      }
      ghost var tables, listed := db, records.State();
      var i := 0;
      ScanNothing(h, tables, listed, picked);
      while i < |picked|
        invariant i <= |picked| && db == tables
        invariant ScanAll(h, tables, listed, picked[..i]) == Ok(records.State())
      {
        ScanNext(h, tables, listed, picked, i);
        fault := RetainSteps(h, picked[i], records);
        if fault.Some? {
          ScanStops(h, tables, listed, picked, i + 1);
          return Err(fault.value);
        }
        i := i + 1;
      }
      assert picked[..i] == picked;
      return Ok(records.State());
    }

    /** The entries are claimed and replaced one by one inside a transaction that a fault rolls back. */
    method Commit(h: Host, archive: string, pack: Pack) returns (fault: Option<Fault>)
      modifies this
      ensures match CommitPack(h, old(db), archive, pack)
        case Ok(d) => fault.None? && db == d
        case Err(f) => fault == Some(f) && db == old(db)
    {
      hide CommitOne;
      hide CommitEntries;
      hide ByteLength;
      var text := h.pack(pack);
      var row := ArchiveRow(pack.project, FileName(archive), h.sha(text), ByteLength(text), |pack.entries|);
      if || archive in db.archives
         || exists a | a in db.archives :: db.archives[a].file == row.file {
        return Some(Database);
      }
      if !(1 <= row.size <= PACK_LIMIT) || row.records == 0 {
        return Some(Database);
      }
      var es := pack.entries;
      ghost var start := db.(archives := db.archives[archive := row]);
      var transaction := db.(archives := db.archives[archive := row]);
      var i := 0;
      CommitNothing(h, start, archive, es);
      while i < |es|
        invariant i <= |es| && db == old(db)
        invariant CommitEntries(h, start, archive, es[..i]) == Ok(transaction)
      {
        CommitNext(h, start, archive, es, i);
        match CommitOne(h, transaction, archive, es[i]) {
          case Err(f) =>
            CommitStops(h, start, archive, es, i + 1);
            return Some(f);
          case Ok(d) =>
            transaction := d;
        }
        i := i + 1;
      }
      assert es[..i] == es;
      db := transaction;
      return None;
    }

    method ArchiveTerminalJournals(
      h: Host, run: string, project: string, before: int, limit: int, now: int, picked: seq<string>,
      approved: string, archive: string)
      returns (r: Result<Report, Fault>)
      requires ValidCutoff(before, limit, now) ==> IsListing(db, project, before, limit, picked)
      modifies this
      ensures match SelectRecords(h, old(db), before, limit, now, picked)
        case Err(f) => r == Err(f) && db == old(db)
        case Ok(k) => (db, r) == ArchiveSelected(h, old(db), run, project, now, k.records, approved, archive)
    {
      var selection := TerminalRecords(h, project, before, limit, now, picked);
      if selection.Err? {
        return Err(selection.error);
      }
      var records := selection.value.records;
      if h.sha(h.records(records)) != approved {
        return Err(SelectionChanged);
      }
      if records == [] {
        return Ok(Nothing);
      }
      var pack := Pack(1, project, now, records);
      var refusal := Refusal(h, db, pack);
      if refusal.Some? {
        return Err(refusal.value);
      }
      var fault := EffectStep(h, run, Intent(h, archive, pack));
      if fault.Some? {
        return Err(fault.value);
      }
      if FindFile(db.files, FileName(archive)).Some? {
        return Err(FileCreate);
      }
      db := db.(files := db.files + [File(FileName(archive), h.pack(pack))]);
      fault := Commit(h, archive, pack);
      if fault.Some? {
        return Err(fault.value);
      }
      fault := EffectStep(h, run, Summary(h, archive, pack));
      if fault.Some? {
        return Err(fault.value);
      }
      return Ok(Archived(archive, |pack.entries|));
    }
  }

  lemma {:induction false} CommitStops(h: Host, db: Db, archive: string, es: seq<Entry>, i: nat)
    requires i <= |es| && CommitEntries(h, db, archive, es[..i]).Err?
    ensures CommitEntries(h, db, archive, es) == CommitEntries(h, db, archive, es[..i])
    decreases |es|
  {
    if i == |es| {
      assert es[..i] == es;
    } else {
      var front := es[..|es| - 1];
      assert front[..i] == es[..i];
      CommitStops(h, db, archive, front, i);
    }
  }
}
