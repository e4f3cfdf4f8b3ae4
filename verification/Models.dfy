/** Comparing measured models: the frontier of quality against task cost, and ranked selections. */
module Models {
  import opened Prelude
  import opened Control
  import opened Ordering

  datatype Metric = Metric(
    model: string, benchmark: string, revision: string, quality: real, cost: real, latency: Option<real>,
    available: bool, license: string, source: string)

  datatype Fault =
    | ModelLimit | TextRejected | IdentityInvalid | MetricInvalid | LicenseNotPermitted | Incomparable
    | CriterionUnsupported

  const PERMITTED: string := "permitted_local_use"

  predicate HasTexts(m: Metric) {
    IsText(m.model, 128) && IsText(m.source, 512) && IsText(m.benchmark, 256) && IsText(m.revision, 256)
  }

  predicate HasIdentity(m: Metric) {
    m.model != "" && m.source != "" && m.benchmark != "" && m.revision != ""
  }

  predicate HasMetrics(m: Metric) {
    m.cost >= 0.0 && (m.latency.Some? ==> m.latency.value >= 0.0)
  }

  /** The checks on one row, given the names of the rows before it. */
  function CheckRow(m: Metric, names: set<string>): Option<Fault> {
    if !HasTexts(m) then Some(TextRejected)
    else if !HasIdentity(m) || m.model in names then Some(IdentityInvalid)
    else if !HasMetrics(m) then Some(MetricInvalid)
    else if m.license != PERMITTED then Some(LicenseNotPermitted)
    else None
  }

  function Names(models: seq<Metric>): set<string> {
    set m | m in models :: m.model
  }

  function CheckRows(models: seq<Metric>): Option<Fault> {
    if models == [] then None
    else
      match CheckRows(models[..|models| - 1])
      case Some(f) => Some(f)
      case None => CheckRow(models[|models| - 1], Names(models[..|models| - 1]))
  }

  function Available(models: seq<Metric>): seq<Metric> {
    if models == [] then []
    else
      var last := models[|models| - 1];
      Available(models[..|models| - 1]) + (if last.available then [last] else [])
  }

  /** At least as good and as cheap, and better in one of the two. */
  predicate Dominates(b: Metric, a: Metric) {
    b.quality >= a.quality && b.cost <= a.cost && (b.quality > a.quality || b.cost < a.cost)
  }

  predicate IsUndominated(a: Metric, eligible: seq<Metric>) {
    !exists b | b in eligible :: Dominates(b, a)
  }

  function Undominated(ms: seq<Metric>, eligible: seq<Metric>): seq<Metric> {
    if ms == [] then []
    else
      var last := ms[|ms| - 1];
      Undominated(ms[..|ms| - 1], eligible) + (if IsUndominated(last, eligible) then [last] else [])
  }

  /** The frontier; models of different benchmarks or revisions are not compared. */
  function Pareto(models: seq<Metric>): Result<seq<Metric>, Fault> {
    if |models| > 500 then Err(ModelLimit)
    else
      match CheckRows(models)
      case Some(f) => Err(f)
      case None =>
        var eligible := Available(models);
        if exists m | m in eligible :: m.benchmark != eligible[0].benchmark || m.revision != eligible[0].revision
        then Err(Incomparable)
        else Ok(Undominated(eligible, eligible))
  }

  // ---------------------------------------------------------------- ranking

  datatype Criterion = BestQuality | CheapestAboveThreshold | FastestAboveThreshold

  function CriterionOf(s: string): Option<Criterion> {
    if s == "best_quality" then Some(BestQuality)
    else if s == "cheapest_above_threshold" then Some(CheapestAboveThreshold)
    else if s == "fastest_above_threshold" then Some(FastestAboveThreshold)
    else None
  }

  predicate ByName(a: Metric, b: Metric) {
    AtMost(a.model, b.model)
  }

  predicate ByQuality(a: Metric, b: Metric) {
    a.quality > b.quality || (a.quality == b.quality && (a.cost < b.cost || (a.cost == b.cost && ByName(a, b))))
  }

  predicate ByCost(a: Metric, b: Metric) {
    a.cost < b.cost || (a.cost == b.cost && (a.quality > b.quality || (a.quality == b.quality && ByName(a, b))))
  }

  function Latency(m: Metric): real {
    if m.latency.Some? then m.latency.value else 0.0
  }

  predicate BySpeed(a: Metric, b: Metric) {
    Latency(a) < Latency(b) || (Latency(a) == Latency(b) && ByName(a, b))
  }

  function Ranking(c: Criterion): Order<Metric> {
    match c
    case BestQuality => (a, b) => ByQuality(a, b)
    case CheapestAboveThreshold => (a, b) => ByCost(a, b)
    case FastestAboveThreshold => (a, b) => BySpeed(a, b)
  }

  predicate IsCandidate(m: Metric, c: Criterion, threshold: real) {
    m.available && m.quality >= threshold && (c.FastestAboveThreshold? ==> m.latency.Some?)
  }

  function Candidates(models: seq<Metric>, c: Criterion, threshold: real): seq<Metric> {
    if models == [] then []
    else
      var last := models[|models| - 1];
      Candidates(models[..|models| - 1], c, threshold) + (if IsCandidate(last, c, threshold) then [last] else [])
  }

  datatype Selection = Selection(ranked: seq<Metric>, frontier: seq<Metric>)

  function Select(models: seq<Metric>, criterion: string, threshold: real): Result<Selection, Fault> {
    match Pareto(models)
    case Err(f) => Err(f)
    case Ok(frontier) =>
      match CriterionOf(criterion)
      case None => Err(CriterionUnsupported)
      case Some(c) => Ok(Selection(Sort(Candidates(models, c, threshold), Ranking(c)), frontier))
  }

  // ---------------------------------------------------------------- membership

  lemma {:induction false} AvailableMeaning(models: seq<Metric>, m: Metric)
    ensures m in Available(models) <==> m in models && m.available
  {
    if models != [] {
      AvailableMeaning(models[..|models| - 1], m);
      assert models == models[..|models| - 1] + [models[|models| - 1]];
    }
  }

  lemma {:induction false} UndominatedMeaning(ms: seq<Metric>, eligible: seq<Metric>, m: Metric)
    ensures m in Undominated(ms, eligible) <==> m in ms && IsUndominated(m, eligible)
  {
    hide IsUndominated;
    if ms != [] {
      UndominatedMeaning(ms[..|ms| - 1], eligible, m);
      assert ms == ms[..|ms| - 1] + [ms[|ms| - 1]];
    }
  }

  lemma {:induction false} CandidatesMeaning(models: seq<Metric>, c: Criterion, threshold: real, m: Metric)
    ensures m in Candidates(models, c, threshold) <==> m in models && IsCandidate(m, c, threshold)
  {
    hide IsCandidate;
    if models != [] {
      CandidatesMeaning(models[..|models| - 1], c, threshold, m);
      assert models == models[..|models| - 1] + [models[|models| - 1]];
    }
  }

  // ---------------------------------------------------------------- the frontier is complete

  lemma RankingIsTotal(c: Criterion)
    ensures IsTotalPreorder(Ranking(c))
  {
    var leq := Ranking(c);
    forall a, b: Metric ensures leq(a, b) || leq(b, a) {
      AtMostTotal(a.model, b.model);
    }
    forall x, y, z: Metric | leq(x, y) && leq(y, z) ensures leq(x, z) {
      if ByName(x, y) && ByName(y, z) {
        AtMostTransitive(x.model, y.model, z.model);
      }
    }
  }

  /** The element that ranks first. */
  function First(s: seq<Metric>, c: Criterion): Metric
    requires s != []
  {
    SortedByRank(s, c);
    Sort(s, Ranking(c))[0]
  }

  lemma SortedByRank(s: seq<Metric>, c: Criterion)
    ensures var sorted := Sort(s, Ranking(c));
      IsSorted(sorted, Ranking(c)) && multiset(sorted) == multiset(s) && |sorted| == |s|
  {
    RankingIsTotal(c);
    SortMeaning(s, Ranking(c));
    assert |Sort(s, Ranking(c))| == |multiset(Sort(s, Ranking(c)))| == |multiset(s)| == |s|;
  }

  lemma FirstIsFirst(s: seq<Metric>, c: Criterion, m: Metric)
    requires m in s
    ensures First(s, c) in s && Ranking(c)(First(s, c), m)
  {
    hide Sort;
    hide IsSorted;
    SortedByRank(s, c);
    var sorted := Sort(s, Ranking(c));
    assert m in multiset(sorted) && sorted[0] in multiset(sorted);
    assert sorted[0] in multiset(s);
    var j :| 0 <= j < |sorted| && sorted[j] == m;
    if j > 0 {
      SortedAt(sorted, Ranking(c), 0, j);
    } else {
      AtMostTotal(m.model, m.model);
    }
  }

  /** What dominates ranks strictly earlier by quality and by cost. */
  lemma DominatorsRankEarlier(b: Metric, a: Metric)
    requires Dominates(b, a)
    ensures !ByQuality(a, b) && !ByCost(a, b)
  {
  }

  function Dominators(eligible: seq<Metric>, a: Metric): seq<Metric> {
    if eligible == [] then []
    else
      var last := eligible[|eligible| - 1];
      Dominators(eligible[..|eligible| - 1], a) + (if Dominates(last, a) then [last] else [])
  }

  lemma {:induction false} DominatorsMeaning(eligible: seq<Metric>, a: Metric, m: Metric)
    ensures m in Dominators(eligible, a) <==> m in eligible && Dominates(m, a)
  {
    hide Dominates;
    if eligible != [] {
      DominatorsMeaning(eligible[..|eligible| - 1], a, m);
      assert eligible == eligible[..|eligible| - 1] + [eligible[|eligible| - 1]];
    }
  }

  /** The best of the models that dominate one is itself undominated. */
  lemma BestDominator(eligible: seq<Metric>, a: Metric) returns (b: Metric)
    requires !IsUndominated(a, eligible)
    ensures b in eligible && Dominates(b, a) && IsUndominated(b, eligible)
  {
    var c :| c in eligible && Dominates(c, a);
    DominatorsMeaning(eligible, a, c);
    var ds := Dominators(eligible, a);
    b := First(ds, BestQuality);
    FirstIsFirst(ds, BestQuality, c);
    DominatorsMeaning(eligible, a, b);
    forall d | d in eligible ensures !Dominates(d, b) {
      if Dominates(d, b) {
        DominatorsMeaning(eligible, a, d);
        FirstIsFirst(ds, BestQuality, d);
        DominatorsRankEarlier(d, b);
      }
    }
  }

  /** At least as good and at most as dear, and not the same in both. */
  predicate IsBetter(b: Metric, a: Metric) {
    b.quality >= a.quality && b.cost <= a.cost && (b.quality, b.cost) != (a.quality, a.cost)
  }

  /**
   * The frontier holds exactly the available models no available one is better than; for every other
   * available model a better one is on it, and it is empty only when no model is available.
   */
  lemma FrontierIsComplete(models: seq<Metric>, a: Metric)
    requires Pareto(models).Ok? && a in models && a.available
    ensures var frontier := Pareto(models).value;
      && (a in frontier <==> !exists b | b in models :: b.available && IsBetter(b, a))
      && (a !in frontier ==> exists b | b in frontier :: b in models && b.available && IsBetter(b, a))
      && (forall m | m in frontier :: m in models && m.available)
      && frontier != []
  {
    hide CheckRows;
    forall b ensures Dominates(b, a) <==> IsBetter(b, a) {
    }
    hide Dominates;
    hide IsBetter;
    var eligible, frontier := Available(models), Pareto(models).value;
    UndominatedMeaning(eligible, eligible, a);
    forall b ensures b in eligible <==> b in models && b.available {
      AvailableMeaning(models, b);
    }
    forall m | m in frontier ensures m in eligible {
      UndominatedMeaning(eligible, eligible, m);
    }
    if a !in frontier {
      var b := BestDominator(eligible, a);
      UndominatedMeaning(eligible, eligible, b);
      assert b in frontier;
    }
  }

  lemma EmptyFrontier(models: seq<Metric>)
    requires Pareto(models).Ok?
    ensures Pareto(models).value == [] <==> forall m | m in models :: !m.available
  {
    hide CheckRows;
    hide Undominated;
    if m :| m in models && m.available {
      FrontierIsComplete(models, m);
    } else {
      NoneAvailable(models);
    }
  }

  lemma {:induction false} NoneAvailable(models: seq<Metric>)
    requires forall m | m in models :: !m.available
    ensures Available(models) == [] && Undominated([], []) == []
  {
    if models != [] {
      NoneAvailable(models[..|models| - 1]);
    }
  }

  // ---------------------------------------------------------------- selections

  /** What a criterion asks of a model. */
  predicate Qualifies(m: Metric, criterion: string, threshold: real) {
    m.available && m.quality >= threshold && (criterion == "fastest_above_threshold" ==> m.latency.Some?)
  }

  /** The order a criterion ranks by, ties going to the other figure and then to the name. */
  predicate Leads(criterion: string, a: Metric, b: Metric) {
    match criterion
    case "best_quality" =>
      && a.quality >= b.quality
      && (a.quality == b.quality ==> a.cost <= b.cost && (a.cost == b.cost ==> AtMost(a.model, b.model)))
    case "cheapest_above_threshold" =>
      && a.cost <= b.cost
      && (a.cost == b.cost ==> a.quality >= b.quality && (a.quality == b.quality ==> AtMost(a.model, b.model)))
    case "fastest_above_threshold" =>
      && a.latency.Some? && b.latency.Some? && a.latency.value <= b.latency.value
      && (a.latency == b.latency ==> AtMost(a.model, b.model))
    case _ => false
  }

  /** All rows that are offered were measured on one benchmark in one revision. */
  predicate AreComparable(models: seq<Metric>) {
    forall a, b | a in models && b in models && a.available && b.available ::
      a.benchmark == b.benchmark && a.revision == b.revision
  }

  /**
   * A selection is made of at most five hundred fit and comparable rows by one of three criteria, and
   * ranks exactly the models that qualify, each as often as it is listed, in the order of the criterion.
   */
  lemma SelectionMeaning(models: seq<Metric>, criterion: string, threshold: real)
    ensures var r := Select(models, criterion, threshold);
      && (r.Ok? <==>
            && |models| <= 500 && (forall m | m in models :: RowOk(m)) && DistinctNames(models) && AreComparable(models)
            && criterion in {"best_quality", "cheapest_above_threshold", "fastest_above_threshold"})
      && (r.Ok? ==>
            var ranked := r.value.ranked;
            && (forall m ::
                  multiset(ranked)[m] == if Qualifies(m, criterion, threshold) then multiset(models)[m] else 0)
            && (forall i, j | 0 <= i < j < |ranked| :: Leads(criterion, ranked[i], ranked[j])))
  {
    hide CheckRows;
    hide RowOk;
    hide DistinctNames;
    hide AreComparable;
    hide Sort;
    hide IsSorted;
    hide Candidates;
    CheckMeaning(models);
    ComparableMeaning(models);
    if Select(models, criterion, threshold).Ok? {
      var c, ranked := CriterionOf(criterion).value, Select(models, criterion, threshold).value.ranked;
      SortedByRank(Candidates(models, c, threshold), c);
      CandidatesCount(models, c, threshold);
      forall m ensures multiset(ranked)[m] == if Qualifies(m, criterion, threshold) then multiset(models)[m] else 0 {
        assert IsCandidate(m, c, threshold) <==> Qualifies(m, criterion, threshold);
      }
      hide Qualifies;
      forall i, j | 0 <= i < j < |ranked| ensures Leads(criterion, ranked[i], ranked[j]) {
        SortedAt(ranked, Ranking(c), i, j);
        RankedIsCandidate(models, criterion, threshold, ranked[i]);
        RankedIsCandidate(models, criterion, threshold, ranked[j]);
        RankMeaning(criterion, ranked[i], ranked[j]);
      }
    }
  }

  lemma RankedIsCandidate(models: seq<Metric>, criterion: string, threshold: real, m: Metric)
    requires Select(models, criterion, threshold).Ok? && m in Select(models, criterion, threshold).value.ranked
    ensures criterion == "fastest_above_threshold" ==> m.latency.Some?
  {
    hide CheckRows;
    hide Sort;
    hide IsSorted;
    hide Candidates;
    var c, ranked := CriterionOf(criterion).value, Select(models, criterion, threshold).value.ranked;
    SortedByRank(Candidates(models, c, threshold), c);
    assert m in multiset(ranked);
    CandidatesMeaning(models, c, threshold, m);
  }

  lemma RankMeaning(criterion: string, a: Metric, b: Metric)
    requires CriterionOf(criterion).Some? && Ranking(CriterionOf(criterion).value)(a, b)
    requires criterion == "fastest_above_threshold" ==> a.latency.Some? && b.latency.Some?
    ensures Leads(criterion, a, b)
  {
  }

  lemma ComparableMeaning(models: seq<Metric>)
    ensures var eligible := Available(models);
      AreComparable(models) <==>
      !exists m | m in eligible :: m.benchmark != eligible[0].benchmark || m.revision != eligible[0].revision
  {
    var eligible := Available(models);
    forall m ensures m in eligible <==> m in models && m.available {
      AvailableMeaning(models, m);
    }
    hide Available;
    if eligible != [] {
      assert eligible[0] in eligible;
    }
  }

  /** The head of the best-quality and of the cheapest ranking is on the frontier. */
  lemma HeadIsOnFrontier(models: seq<Metric>, criterion: string, threshold: real)
    requires Select(models, criterion, threshold).Ok?
    requires criterion == "best_quality" || criterion == "cheapest_above_threshold"
    ensures var s := Select(models, criterion, threshold).value;
      s.ranked != [] ==> s.ranked[0] in s.frontier
  {
    hide CheckRows;
    hide Sort;
    hide IsSorted;
    hide Undominated;
    hide Candidates;
    var c := CriterionOf(criterion).value;
    var s := Select(models, criterion, threshold).value;
    var candidates := Candidates(models, c, threshold);
    SortedByRank(candidates, c);
    if s.ranked != [] {
      var head := First(candidates, c);
      FirstIsFirst(candidates, c, candidates[0]);
      CandidatesMeaning(models, c, threshold, head);
      forall d | d in models && d.available ensures !Dominates(d, head) {
        if Dominates(d, head) {
          CandidatesMeaning(models, c, threshold, d);
          FirstIsFirst(candidates, c, d);
          DominatorsRankEarlier(d, head);
        }
      }
      FrontierIsComplete(models, head);
    }
  }

  /** The order in which models are listed does not matter to the ranking: names are unique. */
  lemma RankingIsOrderFree(a: seq<Metric>, b: seq<Metric>, criterion: string, threshold: real)
    requires multiset(a) == multiset(b)
    requires Select(a, criterion, threshold).Ok? && Select(b, criterion, threshold).Ok?
    ensures Select(a, criterion, threshold).value.ranked == Select(b, criterion, threshold).value.ranked
  {
    hide Sort;
    hide IsSorted;
    hide Undominated;
    hide Candidates;
    hide CheckRow;
    hide CheckRows;
    var c := CriterionOf(criterion).value;
    var x, y := Candidates(a, c, threshold), Candidates(b, c, threshold);
    CandidatesCount(a, c, threshold);
    CandidatesCount(b, c, threshold);
    assert multiset(x) == multiset(y);
    SortedByRank(x, c);
    SortedByRank(y, c);
    var s, t := Sort(x, Ranking(c)), Sort(y, Ranking(c));
    forall p, q | p in s && q in s && Ranking(c)(p, q) && Ranking(c)(q, p) ensures p == q {
      assert p in multiset(s) && q in multiset(s);
      assert p in x && q in x by {
        assert p in multiset(x) && q in multiset(x);
      }
      CandidatesMeaning(a, c, threshold, p);
      CandidatesMeaning(a, c, threshold, q);
      AtMostTotal(p.model, q.model);
      SameNameSameRow(a, p, q);
    }
    SortedIsUnique(s, t, Ranking(c));
  }

  lemma {:induction false} CandidatesCount(models: seq<Metric>, c: Criterion, threshold: real)
    ensures forall m ::
      multiset(Candidates(models, c, threshold))[m] == (if IsCandidate(m, c, threshold) then multiset(models)[m] else 0)
  {
    hide IsCandidate;
    if models != [] {
      var front, last := models[..|models| - 1], models[|models| - 1];
      CandidatesCount(front, c, threshold);
      assert models == front + [last];
    }
  }

  /** A row that is fit on its own. */
  predicate RowOk(m: Metric) {
    && m.model != "" && m.source != "" && m.benchmark != "" && m.revision != ""
    && IsText(m.model, 128) && IsText(m.source, 512) && IsText(m.benchmark, 256) && IsText(m.revision, 256)
    && m.cost >= 0.0 && (m.latency.Some? ==> m.latency.value >= 0.0)
    && m.license == "permitted_local_use"
  }

  ghost predicate DistinctNames(models: seq<Metric>) {
    forall i, j | 0 <= i < j < |models| :: models[i].model != models[j].model
  }

  lemma NamesSnoc(models: seq<Metric>, m: Metric)
    ensures DistinctNames(models + [m]) <==> DistinctNames(models) && m.model !in Names(models)
  {
    var all := models + [m];
    assert forall i | 0 <= i < |models| :: all[i] == models[i];
    if DistinctNames(all) {
      forall x | x in models ensures x.model != m.model {
        var i :| 0 <= i < |models| && models[i] == x;
        assert all[i].model != all[|models|].model;
      }
    }
  }

  /** A table is accepted exactly when every row is fit on its own and no two rows have one name. */
  lemma {:induction false} CheckMeaning(models: seq<Metric>)
    ensures CheckRows(models).None? <==> (forall m | m in models :: RowOk(m)) && DistinctNames(models)
  {
    hide IsText;
    if models != [] {
      hide DistinctNames;
      hide Names;
      var front, last := models[..|models| - 1], models[|models| - 1];
      assert models == front + [last];
      assert forall m :: m in models <==> m in front || m == last;
      CheckMeaning(front);
      NamesSnoc(front, last);
      assert CheckRow(last, Names(front)).None? <==> RowOk(last) && last.model !in Names(front);
    }
  }

  /** What is first wrong with a row behind the given ones. */
  predicate IsFaultOf(m: Metric, before: seq<Metric>, f: Fault) {
    var texts := IsText(m.model, 128) && IsText(m.source, 512) && IsText(m.benchmark, 256) && IsText(m.revision, 256);
    var identity :=
      && "" !in {m.model, m.source, m.benchmark, m.revision}
      && forall b | b in before :: b.model != m.model;
    var metrics := m.cost >= 0.0 && (m.latency.Some? ==> m.latency.value >= 0.0);
    match f
    case TextRejected => !texts
    case IdentityInvalid => texts && !identity
    case MetricInvalid => texts && identity && !metrics
    case LicenseNotPermitted => texts && identity && metrics && m.license != "permitted_local_use"
    case _ => false
  }

  /** The rows before are fit, and this is what is wrong with row i. */
  predicate IsFirstFault(models: seq<Metric>, i: nat, f: Fault) {
    i < |models| && CheckRows(models[..i]).None? && IsFaultOf(models[i], models[..i], f)
  }

  /** A table is refused for what is first wrong with its first unfit row. */
  lemma FirstFaultIsTold(models: seq<Metric>, f: Fault)
    ensures CheckRows(models) == Some(f) <==> exists i: nat :: IsFirstFault(models, i, f)
  {
    hide CheckRows;
    hide IsFaultOf;
    if CheckRows(models) == Some(f) {
      var i := FirstUnfit(models, f);
    }
    if i: nat :| IsFirstFault(models, i, f) {
      FaultOfRow(models[i], models[..i], f);
      RowDecides(models, i);
      CheckStops(models, i + 1);
    }
  }

  lemma RowDecides(models: seq<Metric>, i: nat)
    requires i < |models| && CheckRows(models[..i]).None?
    ensures CheckRows(models[..i + 1]) == CheckRow(models[i], Names(models[..i]))
  {
    hide CheckRow;
    assert models[..i + 1][..i] == models[..i];
  }

  lemma {:induction false} FirstUnfit(models: seq<Metric>, f: Fault) returns (i: nat)
    requires CheckRows(models) == Some(f)
    ensures IsFirstFault(models, i, f)
  {
    hide IsFaultOf;
    hide CheckRow;
    var n := |models| - 1;
    if CheckRows(models[..n]).Some? {
      i := FirstUnfit(models[..n], f);
      assert models[..n][..i] == models[..i];
    } else {
      i := n;
      FaultOfRow(models[n], models[..n], f);
    }
  }

  lemma FaultOfRow(m: Metric, before: seq<Metric>, f: Fault)
    ensures CheckRow(m, Names(before)) == Some(f) <==> IsFaultOf(m, before, f)
  {
    hide IsText;
    assert m.model in Names(before) <==> exists b | b in before :: b.model == m.model;
  }

  /** Accepted rows have pairwise different names. */
  lemma {:induction false} SameNameSameRow(models: seq<Metric>, p: Metric, q: Metric)
    requires CheckRows(models).None? && p in models && q in models && p.model == q.model
    ensures p == q
  {
    hide HasTexts;
    hide HasIdentity;
    hide HasMetrics;
    var front, last := models[..|models| - 1], models[|models| - 1];
    assert models == front + [last];
    if p in front && q in front {
      SameNameSameRow(front, p, q);
    }
  }

  // ---------------------------------------------------------------- the loops

  lemma {:induction false} CheckStops(models: seq<Metric>, i: nat)
    requires i <= |models| && CheckRows(models[..i]).Some?
    ensures CheckRows(models) == CheckRows(models[..i])
    decreases |models|
  {
    if i == |models| {
      assert models[..i] == models;
    } else {
      assert models[..|models| - 1][..i] == models[..i];
      CheckStops(models[..|models| - 1], i);
    }
  }

  method CheckModels(models: seq<Metric>) returns (fault: Option<Fault>)
    ensures fault == CheckRows(models)
  {
    var names: set<string> := {};
    var i := 0;
    while i < |models|
      invariant i <= |models| && names == Names(models[..i]) && CheckRows(models[..i]) == None
    {
      var m := models[i];
      assert models[..i + 1][..i] == models[..i] && models[..i + 1] == models[..i] + [m];
      fault := CheckRow(m, names);
      if fault.Some? {
        CheckStops(models, i + 1);
        return;
      }
      names := names + {m.model};
      i := i + 1;
    }
    assert models[..i] == models;
    fault := None;
  }

  method SelectModels(models: seq<Metric>, criterion: string, threshold: real)
    returns (r: Result<Selection, Fault>)
    ensures r == Select(models, criterion, threshold)
  {
    if |models| > 500 {
      return Err(ModelLimit);
    }
    var fault := CheckModels(models);
    if fault.Some? {
      return Err(fault.value);
    }
    var eligible := Available(models);
    if exists m | m in eligible :: m.benchmark != eligible[0].benchmark || m.revision != eligible[0].revision {
      return Err(Incomparable);
    }
    var frontier := Undominated(eligible, eligible);
    var c := CriterionOf(criterion);
    if c.None? {
      return Err(CriterionUnsupported);
    }
    var candidates := Candidates(models, c.value, threshold);
    candidates := Sort(candidates, Ranking(c.value));
    return Ok(Selection(candidates, frontier));
  }
}
