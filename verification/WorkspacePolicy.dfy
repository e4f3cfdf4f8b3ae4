/**
 * Workspace collisions: the ordered-set lookup behind the path overlap test, and the pairwise
 * conflicts of a roster. Rust orders strings by their UTF-8 bytes, which is the order of characters.
 */
module WorkspacePolicy {
  import opened Prelude
  import opened Control
  import opened Ordering

  // ---------------------------------------------------------------- ordered sets of strings

  predicate Below(x: string, s: seq<string>) {
    forall y | y in s :: AtMost(x, y) && x != y
  }

  /** A list of distinct strings in order: the contents of an ordered set. */
  predicate Ascending(s: seq<string>) {
    s == [] || (Below(s[0], s[1..]) && Ascending(s[1..]))
  }

  /** Adds a string to an ordered set. */
  function Insert(s: seq<string>, x: string): seq<string> {
    if x in s then s
    else if s == [] then [x]
    else if AtMost(x, s[0]) then [x] + s
    else [s[0]] + Insert(s[1..], x)
  }

  lemma AscendingCons(x: string, s: seq<string>)
    ensures Ascending([x] + s) <==> Below(x, s) && Ascending(s)
  {
    assert ([x] + s)[1..] == s;
  }

  /** Inserting adds one member and keeps the order. */
  lemma {:induction false} InsertMeaning(s: seq<string>, x: string)
    requires Ascending(s)
    ensures Ascending(Insert(s, x))
    ensures forall y :: y in Insert(s, x) <==> y in s || y == x
    ensures |s| <= |Insert(s, x)| <= |s| + 1 && Insert(s, x) != []
  {
    hide Ascending;
    if x !in s && s != [] {
      assert s == [s[0]] + s[1..];
      AscendingCons(s[0], s[1..]);
      AtMostTotal(x, s[0]);
      if AtMost(x, s[0]) {
        forall y | y in s ensures AtMost(x, y) {
          if y != s[0] {
            AtMostTransitive(x, s[0], y);
          }
        }
        AscendingCons(x, s);
      } else {
        InsertMeaning(s[1..], x);
        AscendingCons(s[0], Insert(s[1..], x));
      }
    } else if s == [] {
      AscendingCons(x, []);
      assert [x] + [] == [x];
      EmptyAscends();
    }
  }

  lemma EmptyAscends()
    ensures Ascending([])
  {
  }

  /** The first member not below a bound, as a range query over an ordered set gives it. */
  function FirstFrom(s: seq<string>, bound: string): (x: Option<string>)
    ensures x.Some? ==> x.value in s && AtMost(bound, x.value)
    ensures x.None? ==> forall y | y in s :: !AtMost(bound, y)
    ensures x.Some? && Ascending(s) ==> forall y | y in s && AtMost(bound, y) :: AtMost(x.value, y)
  {
    if s == [] then None
    else if AtMost(bound, s[0]) then
      AtMostTotal(s[0], s[0]);
      Some(s[0])
    else FirstFrom(s[1..], bound)
  }

  // ---------------------------------------------------------------- overlapping paths

  const SLASH: char := '/'

  function KeyChar(c: char): char {
    if c == '\\' then SLASH else LowerChar(c)
  }

  /** Paths are compared with forward slashes and ASCII lower case. */
  function Key(s: string): (k: string)
    ensures |k| == |s|
  {
    seq(|s|, i requires 0 <= i < |s| => KeyChar(s[i]))
  }

  predicate IsKey(s: string) {
    Key(s) == s
  }

  lemma KeyIsKey(s: string)
    ensures IsKey(Key(s))
  {
    assert forall c: char :: KeyChar(KeyChar(c)) == KeyChar(c);
  }

  /** Characters a path does not tell apart: the two slashes, and the two cases of an ASCII letter. */
  predicate Alike(c: char, d: char) {
    || c == d
    || (c in {'/', '\\'} && d in {'/', '\\'})
    || ('A' <= c <= 'Z' && d as int == c as int + 32)
    || ('A' <= d <= 'Z' && c as int == d as int + 32)
  }

  /** The second path is the first, or lies below it. */
  predicate Reaches(a: string, b: string) {
    && |a| <= |b| && (forall i | 0 <= i < |a| :: Alike(a[i], b[i]))
    && (|a| < |b| ==> b[|a|] in {'/', '\\'})
  }

  /** The pairwise definition: the same path, or one an ancestor of the other. */
  predicate Overlap(a: string, b: string) {
    Reaches(a, b) || Reaches(b, a)
  }

  lemma OverlapIsSymmetric(a: string, b: string)
    ensures Overlap(a, b) <==> Overlap(b, a)
  {
  }

  /** The same on keys. */
  predicate KeysOverlap(x: string, y: string) {
    x == y || y + [SLASH] <= x || x + [SLASH] <= y
  }

  lemma KeyReaches(a: string, b: string)
    ensures Reaches(a, b) <==> Key(a) == Key(b) || Key(a) + [SLASH] <= Key(b)
  {
    var x, y := Key(a), Key(b);
    assert forall c, d: char :: KeyChar(c) == KeyChar(d) <==> Alike(c, d);
    assert forall c: char :: KeyChar(c) == SLASH <==> c in {'/', '\\'};
    hide Alike;
    hide KeyChar;
    if Reaches(a, b) {
      assert forall i | 0 <= i < |a| :: x[i] == y[i];
      if |a| < |b| {
        assert y[|a|] == SLASH;
        assert x + [SLASH] == y[..|a| + 1];
      }
    }
    if x == y || x + [SLASH] <= y {
      forall i | 0 <= i < |a| ensures Alike(a[i], b[i]) {
        assert x[i] == (x + [SLASH])[i] == y[i];
      }
      if x + [SLASH] <= y {
        assert (x + [SLASH])[|a|] == y[|a|];
      }
    }
  }

  lemma OverlapByKey(a: string, b: string)
    ensures Overlap(a, b) <==> KeysOverlap(Key(a), Key(b))
  {
    hide Reaches;
    KeyReaches(a, b);
    KeyReaches(b, a);
  }

  /** The indexed test: the path itself, one of its ancestors, or the first member below it. */
  predicate IndexedOverlap(path: string, others: seq<string>) {
    || path in others
    || (exists i | 0 <= i < |path| :: path[i] == SLASH && path[..i] in others)
    || (var first := FirstFrom(others, path + [SLASH]);
        first.Some? && path + [SLASH] <= first.value)
  }

  /**
   * Sandwich: strings that start with a prefix are contiguous in the order, so whatever lies between
   * the prefix and one of them starts with the prefix too.
   */
  lemma {:induction false} Sandwich(prefix: string, x: string, y: string)
    requires AtMost(prefix, x) && AtMost(x, y) && prefix <= y
    ensures prefix <= x
  {
    if prefix != [] {
      assert x[0] == prefix[0] == y[0];
      assert prefix[1..] <= y[1..];
      Sandwich(prefix[1..], x[1..], y[1..]);
      assert x == [x[0]] + x[1..] && prefix == [prefix[0]] + prefix[1..];
    }
  }

  lemma {:induction false} PrefixIsAtMost(prefix: string, y: string)
    requires prefix <= y
    ensures AtMost(prefix, y)
  {
    if prefix != [] {
      PrefixIsAtMost(prefix[1..], y[1..]);
    }
  }

  /** The ordered-set lookup finds an overlap exactly when some member overlaps pairwise. */
  lemma IndexAgrees(path: string, others: seq<string>)
    requires Ascending(others) && IsKey(path) && forall x | x in others :: IsKey(x)
    ensures IndexedOverlap(path, others) <==> exists x | x in others :: KeysOverlap(path, x)
  {
    var below := path + [SLASH];
    if x :| x in others && KeysOverlap(path, x) {
      if x + [SLASH] <= path {
        assert path[|x|] == SLASH && path[..|x|] == x;
      } else if below <= x {
        PrefixIsAtMost(below, x);
        var first := FirstFrom(others, below).value;
        Sandwich(below, first, x);
      }
    }
    if i :| 0 <= i < |path| && path[i] == SLASH && path[..i] in others {
      var x := path[..i];
      assert x + [SLASH] == path[..i + 1];
      assert KeysOverlap(path, x);
    }
  }

  // ---------------------------------------------------------------- rosters

  datatype Actor = Actor(
    sessionId: string,
    workId: Option<string>,
    projectId: string,
    workspaceId: Option<string>,
    repository: Option<string>,
    branch: Option<string>,
    paths: seq<string>,
    pathsComplete: bool,
    role: string,
    ended: bool,
    leaseUntil: Option<int>,
    lastObserved: int)

  datatype Kind = SameWorkItem | SameWorkspace | SameBranch | OverlappingPaths | UnknownScope

  datatype Risk = High | Medium | UnknownRisk

  datatype Conflict = Conflict(
    first: string, second: string, kind: Kind, risk: Risk, paths: seq<string>, uncertain: bool)

  datatype Fault =
    | InvalidTime
    | RosterLimit
    | InvalidId
    | RoleInvalid
    | DuplicateActor
    | PathBudget
    | PathNotRelative
    | ResultLimit

  const PATH_BYTES: nat := 4 * 1024 * 1024

  function Segments(s: string): (parts: seq<string>)
    ensures parts != []
  {
    if s == [] then [[]]
    else
      var rest := Segments(s[1..]);
      if s[0] == SLASH then [[]] + rest else [[s[0]] + rest[0]] + rest[1..]
  }

  function Slashed(s: string): string {
    seq(|s|, i requires 0 <= i < |s| => if s[i] == '\\' then SLASH else s[i])
  }

  predicate IsRelative(p: string) {
    && IsText(p, 4096)
    && var s := Slashed(p);
       && s != [] && s[0] != SLASH && ':' !in s
       && forall part | part in Segments(s) :: part != ".." && part != "." && part != ""
  }

  type Identity = (string, Option<string>, Option<string>)

  function IdentityOf(a: Actor): Identity {
    (a.sessionId, a.workId, a.workspaceId)
  }

  /** The path bytes an actor adds to the budget, or why its paths are refused. */
  function PathLoad(paths: seq<string>, used: nat): Result<nat, Fault> {
    if paths == [] then Ok(used)
    else
      match PathLoad(paths[..|paths| - 1], used)
      case Err(f) => Err(f)
      case Ok(bytes) =>
        var p := paths[|paths| - 1];
        if !IsRelative(p) then Err(PathNotRelative)
        else if bytes + ByteLength(p) > PATH_BYTES then Err(PathBudget)
        else Ok(bytes + ByteLength(p))
  }

  function ActorFault(a: Actor): Option<Fault> {
    if !IsId(a.sessionId) || !IsId(a.projectId) then Some(InvalidId)
    else if !IsTimestamp(a.lastObserved) || (a.leaseUntil.Some? && !IsTimestamp(a.leaseUntil.value)) then
      Some(InvalidTime)
    else if a.role !in {"primary", "reviewer", "observer"} then Some(RoleInvalid)
    else None
  }

  datatype Intake = Intake(seen: set<Identity>, bytes: nat)

  function Admit(a: Actor, so: Intake): Result<Intake, Fault> {
    if ActorFault(a).Some? then Err(ActorFault(a).value)
    else if IdentityOf(a) in so.seen then Err(DuplicateActor)
    else if |a.paths| > 512 then Err(PathBudget)
    else
      match PathLoad(a.paths, so.bytes)
      case Err(f) => Err(f)
      case Ok(bytes) => Ok(Intake(so.seen + {IdentityOf(a)}, bytes))
  }

  function AdmitAll(actors: seq<Actor>): Result<Intake, Fault> {
    if actors == [] then Ok(Intake({}, 0))
    else
      match AdmitAll(actors[..|actors| - 1])
      case Err(f) => Err(f)
      case Ok(so) => Admit(actors[|actors| - 1], so)
  }

  /** The ordered set of an actor's normalized paths. */
  function IndexOf(paths: seq<string>): seq<string> {
    if paths == [] then [] else Insert(IndexOf(paths[..|paths| - 1]), Key(paths[|paths| - 1]))
  }

  lemma {:induction false} IndexMeaning(paths: seq<string>)
    ensures Ascending(IndexOf(paths))
    ensures forall k :: k in IndexOf(paths) <==> exists p | p in paths :: Key(p) == k
  {
    hide Ascending;
    if paths == [] {
      EmptyAscends();
    } else {
      var front, p := paths[..|paths| - 1], paths[|paths| - 1];
      IndexMeaning(front);
      InsertMeaning(IndexOf(front), Key(p));
      assert paths == front + [p];
    }
  }

  /** The actor's own spellings of paths that overlap an index, up to 32 of them, in order. */
  function Overlapping(paths: seq<string>, index: seq<string>): seq<string> {
    if paths == [] then []
    else
      var before := Overlapping(paths[..|paths| - 1], index);
      var p := paths[|paths| - 1];
      if |before| >= 32 || !IndexedOverlap(Key(p), index) then before else Insert(before, p)
  }

  predicate IsLive(a: Actor) {
    !a.ended && a.role != "observer"
  }

  predicate SameRepository(a: Actor, b: Actor) {
    a.repository.Some? && a.repository == b.repository
  }

  predicate SharesWorkspace(a: Actor, b: Actor) {
    a.projectId == b.projectId && a.workspaceId.Some? && a.workspaceId == b.workspaceId
  }

  predicate SharesWork(a: Actor, b: Actor) {
    a.projectId == b.projectId && a.workId.Some? && a.workId == b.workId && a.role == "primary" && b.role == "primary"
  }

  predicate IsStale(a: Actor, now: int) {
    a.lastObserved > now || now - a.lastObserved > 300 || a.leaseUntil.None? || a.leaseUntil.value < now
  }

  function SharedPaths(a: Actor, b: Actor, index: seq<string>): seq<string> {
    if SameRepository(a, b) || SharesWorkspace(a, b) then Overlapping(a.paths, index) else []
  }

  function KindOf(a: Actor, b: Actor, shared: seq<string>): Option<Kind> {
    if SharesWork(a, b) then Some(SameWorkItem)
    else if SharesWorkspace(a, b) then Some(SameWorkspace)
    else if shared != [] then Some(OverlappingPaths)
    else if SameRepository(a, b) && a.branch.Some? && a.branch == b.branch then Some(SameBranch)
    else if SameRepository(a, b) && (!a.pathsComplete || !b.pathsComplete) then Some(UnknownScope)
    else None
  }

  function RiskOf(kind: Kind): Risk {
    match kind
    case SameWorkItem => High
    case SameWorkspace => High
    case UnknownScope => UnknownRisk
    case _ => Medium
  }

  /** The row of one ordered pair of actors, if they conflict. */
  function PairRow(a: Actor, b: Actor, now: int): seq<Conflict> {
    var shared := SharedPaths(a, b, IndexOf(b.paths));
    var kind := KindOf(a, b, shared);
    if !IsLive(a) || !IsLive(b) || a.sessionId == b.sessionId || kind.None? then []
    else
      var uncertain := IsStale(a, now) || IsStale(b, now);
      [Conflict(a.sessionId, b.sessionId, kind.value, RiskOf(kind.value), shared, uncertain)]
  }

  /** The rows of one actor against the actors after it. */
  function RowsAgainst(a: Actor, others: seq<Actor>, now: int): seq<Conflict> {
    if others == [] then []
    else RowsAgainst(a, others[..|others| - 1], now) + PairRow(a, others[|others| - 1], now)
  }

  /** All rows of a roster, pair by pair. */
  function Rows(actors: seq<Actor>, now: int): seq<Conflict> {
    if actors == [] then [] else RowsAgainst(actors[0], actors[1..], now) + Rows(actors[1..], now)
  }

  function Intaken(actors: seq<Actor>, now: int): Result<Intake, Fault> {
    if !IsTimestamp(now) then Err(InvalidTime)
    else if |actors| > 256 then Err(RosterLimit)
    else AdmitAll(actors)
  }

  /** What the whole check answers. */
  function Judge(actors: seq<Actor>, now: int): Result<seq<Conflict>, Fault> {
    match Intaken(actors, now)
    case Err(f) => Err(f)
    case Ok(_) => if |Rows(actors, now)| > 1024 then Err(ResultLimit) else Ok(Rows(actors, now))
  }

  // ---------------------------------------------------------------- the loops as written

  lemma {:induction false} AdmitStops(actors: seq<Actor>, i: nat)
    requires i <= |actors| && AdmitAll(actors[..i]).Err?
    ensures AdmitAll(actors) == AdmitAll(actors[..i])
    decreases |actors|
  {
    if i < |actors| {
      assert actors[..|actors| - 1][..i] == actors[..i];
      AdmitStops(actors[..|actors| - 1], i);
    } else {
      assert actors[..i] == actors;
    }
  }

  lemma {:induction false} LoadStops(paths: seq<string>, i: nat, used: nat)
    requires i <= |paths| && PathLoad(paths[..i], used).Err?
    ensures PathLoad(paths, used) == PathLoad(paths[..i], used)
    decreases |paths|
  {
    if i < |paths| {
      assert paths[..|paths| - 1][..i] == paths[..i];
      LoadStops(paths[..|paths| - 1], i, used);
    } else {
      assert paths[..i] == paths;
    }
  }

  /** Checks the paths of one actor and builds its index in the same pass. */
  method Normalize(paths: seq<string>, used: nat) returns (load: Result<nat, Fault>, index: seq<string>)
    ensures load == PathLoad(paths, used)
    ensures load.Ok? ==> index == IndexOf(paths)
  {
    var bytes := used;
    index := [];
    for i := 0 to |paths|
      invariant PathLoad(paths[..i], used) == Ok(bytes)
      invariant index == IndexOf(paths[..i])
    {
      assert paths[..i + 1][..i] == paths[..i];
      if !IsRelative(paths[i]) {
        load := Err(PathNotRelative);
        LoadStops(paths, i + 1, used);
        return;
      }
      bytes := bytes + ByteLength(paths[i]);
      if bytes > PATH_BYTES {
        load := Err(PathBudget);
        LoadStops(paths, i + 1, used);
        return;
      }
      index := Insert(index, Key(paths[i]));
    }
    assert paths[..|paths|] == paths;
    load := Ok(bytes);
  }

  lemma AdmitNobody()
    ensures AdmitAll([]).Ok? && AdmitAll([]).value == Intake({}, 0)
  {
  }

  lemma AdmitNext(actors: seq<Actor>, i: nat)
    requires i < |actors| && AdmitAll(actors[..i]).Ok?
    ensures AdmitAll(actors[..i + 1]) == Admit(actors[i], AdmitAll(actors[..i]).value)
  {
    assert actors[..i + 1][..i] == actors[..i];
  }

  method Intakes(actors: seq<Actor>, now: int) returns (fault: Option<Fault>, indexed: seq<seq<string>>)
    ensures fault == match Intaken(actors, now) { case Err(f) => Some(f) case Ok(_) => None }
    ensures fault.None? ==>
              |indexed| == |actors| && forall k | 0 <= k < |actors| :: indexed[k] == IndexOf(actors[k].paths)
  {
    hide AdmitAll;
    hide PathLoad;
    hide ActorFault;
    hide IndexOf;
    indexed := [];
    AdmitNobody();
    assert actors[..0] == [];
    if !IsTimestamp(now) {
      return Some(InvalidTime), indexed;
    }
    if |actors| > 256 {
      return Some(RosterLimit), indexed;
    }
    var ids: set<Identity> := {};
    var bytes := 0;
    for i := 0 to |actors|
      invariant AdmitAll(actors[..i]) == Ok(Intake(ids, bytes))
      invariant |indexed| == i && forall k | 0 <= k < i :: indexed[k] == IndexOf(actors[k].paths)
    {
      var a := actors[i];
      AdmitNext(actors, i);
      var next := Admit(a, Intake(ids, bytes));
      if next.Err? {
        AdmitStops(actors, i + 1);
      }
      if ActorFault(a).Some? {
        return ActorFault(a), indexed;
      }
      if IdentityOf(a) in ids {
        return Some(DuplicateActor), indexed;
      }
      if |a.paths| > 512 {
        return Some(PathBudget), indexed;
      }
      var load, index := Normalize(a.paths, bytes);
      if load.Err? {
        return Some(load.error), indexed;
      }
      ids, bytes := ids + {IdentityOf(a)}, load.value;
      indexed := indexed + [index];
    }
    assert actors[..|actors|] == actors;
    return None, indexed;
  }

  method OverlappingPathsOf(paths: seq<string>, index: seq<string>) returns (found: seq<string>)
    ensures found == Overlapping(paths, index)
  {
    found := [];
    for i := 0 to |paths|
      invariant found == Overlapping(paths[..i], index) && |found| < 32
    {
      assert paths[..i + 1][..i] == paths[..i];
      if IndexedOverlap(Key(paths[i]), index) {
        found := Insert(found, paths[i]);
        if |found| >= 32 {
          FullStays(paths, i + 1, index);
          return;
        }
      }
    }
    assert paths[..|paths|] == paths;
  }

  lemma {:induction false} FullStays(paths: seq<string>, i: nat, index: seq<string>)
    requires i <= |paths| && |Overlapping(paths[..i], index)| >= 32
    ensures Overlapping(paths, index) == Overlapping(paths[..i], index)
    decreases |paths|
  {
    if i < |paths| {
      assert paths[..|paths| - 1][..i] == paths[..i];
      FullStays(paths[..|paths| - 1], i, index);
    } else {
      assert paths[..i] == paths;
    }
  }

  lemma RowsAgainstStep(a: Actor, others: seq<Actor>, k: nat, now: int)
    requires k < |others|
    ensures RowsAgainst(a, others[..k + 1], now) == RowsAgainst(a, others[..k], now) + PairRow(a, others[k], now)
  {
    assert others[..k + 1][..k] == others[..k];
  }

  /** The inner loop: appends one actor's rows, unless they exceed the limit. */
  method AppendRows(a: Actor, others: seq<Actor>, indexed: seq<seq<string>>, now: int, before: seq<Conflict>)
    returns (result: seq<Conflict>, full: bool)
    requires |indexed| == |others| && forall k | 0 <= k < |others| :: indexed[k] == IndexOf(others[k].paths)
    requires |before| <= 1024
    ensures full <==> |before + RowsAgainst(a, others, now)| > 1024
    ensures !full ==> result == before + RowsAgainst(a, others, now)
  {
    result, full := before, false;
    if !IsLive(a) {
      NoRows(a, others, now);
      return;
    }
    for k := 0 to |others|
      invariant result == before + RowsAgainst(a, others[..k], now)
      invariant |result| <= 1024 && !full
    {
      RowsAgainstStep(a, others, k, now);
      var b := others[k];
      if !IsLive(b) || a.sessionId == b.sessionId {
        continue;
      }
      var shared: seq<string> := [];
      if SameRepository(a, b) || SharesWorkspace(a, b) {
        shared := OverlappingPathsOf(a.paths, indexed[k]);
      }
      var kind := KindOf(a, b, shared);
      if kind.None? {
        continue;
      }
      var uncertain := IsStale(a, now) || IsStale(b, now);
      result := result + [Conflict(a.sessionId, b.sessionId, kind.value, RiskOf(kind.value), shared, uncertain)];
      if |result| > 1024 {
        RowsAgainstPrefix(a, others, k + 1, now);
        full := true;
        return;
      }
    }
    assert others[..|others|] == others;
  }

  lemma {:induction false} NoRows(a: Actor, others: seq<Actor>, now: int)
    requires !IsLive(a)
    ensures RowsAgainst(a, others, now) == []
  {
    if others != [] {
      NoRows(a, others[..|others| - 1], now);
    }
  }

  method Conflicts(actors: seq<Actor>, now: int) returns (res: Result<seq<Conflict>, Fault>)
    ensures res == Judge(actors, now)
  {
    hide RowsAgainst;
    hide AdmitAll;
    var fault, indexed := Intakes(actors, now);
    if fault.Some? {
      return Err(fault.value);
    }
    var result: seq<Conflict> := [];
    for n := 0 to |actors|
      invariant result + Rows(actors[n..], now) == Rows(actors, now)
      invariant |result| <= 1024
    {
      var others := actors[n + 1..];
      assert actors[n..][0] == actors[n] && actors[n..][1..] == others;
      var more, full := AppendRows(actors[n], others, indexed[n + 1..], now, result);
      assert result + Rows(actors[n..], now) == result + RowsAgainst(actors[n], others, now) + Rows(others, now);
      if full {
        return Err(ResultLimit);
      }
      result := more;
    }
    assert actors[|actors|..] == [] && result + [] == result;
    return Ok(result);
  }

  lemma {:induction false} RowsAgainstPrefix(a: Actor, others: seq<Actor>, k: nat, now: int)
    requires k <= |others|
    ensures |RowsAgainst(a, others[..k], now)| <= |RowsAgainst(a, others, now)|
    decreases |others|
  {
    if k < |others| {
      assert others[..|others| - 1][..k] == others[..k];
      RowsAgainstPrefix(a, others[..|others| - 1], k, now);
    } else {
      assert others[..k] == others;
    }
  }

  // ---------------------------------------------------------------- intake does not depend on order

  function TotalBytes(paths: seq<string>): nat {
    if paths == [] then 0 else TotalBytes(paths[..|paths| - 1]) + ByteLength(paths[|paths| - 1])
  }

  function RosterBytes(actors: seq<Actor>): nat {
    if actors == [] then 0 else RosterBytes(actors[..|actors| - 1]) + TotalBytes(actors[|actors| - 1].paths)
  }

  /** Well-formed identifiers, times and role, and at most 512 relative paths. */
  ghost predicate ActorOk(a: Actor) {
    && IsId(a.sessionId) && IsId(a.projectId) && a.role in {"primary", "reviewer", "observer"}
    && 0 <= a.lastObserved <= 253_402_300_799
    && (a.leaseUntil.Some? ==> 0 <= a.leaseUntil.value <= 253_402_300_799)
    && |a.paths| <= 512 && forall p | p in a.paths :: StaysInside(p)
  }

  /** The piece of a text between two slashes of either kind, or its ends. */
  predicate IsPiece(s: string, i: nat, j: nat) {
    && i <= j <= |s|
    && (i > 0 ==> s[i - 1] in {'/', '\\'}) && (j < |s| ==> s[j] in {'/', '\\'})
    && forall k | i <= k < j :: s[k] !in {'/', '\\'}
  }

  /** A path that names something below where it starts: relative, without drive, gaps or steps up. */
  ghost predicate StaysInside(p: string) {
    && IsText(p, 4096) && p != [] && ':' !in p
    && forall i: nat, j: nat | IsPiece(p, i, j) :: p[i..j] !in {"", ".", ".."}
  }

  lemma {:induction false} PieceIsSegment(s: string, i: nat, j: nat)
    requires IsPiece(s, i, j) && '\\' !in s
    ensures i == 0 ==> s[..j] == Segments(s)[0]
    ensures i > 0 ==> s[i..j] in Segments(s)[1..]
  {
    if s != [] {
      assert '\\' !in s[1..];
      if i == 0 {
        if s[0] != '/' {
          PieceIsSegment(s[1..], 0, j - 1);
          assert s[..j] == [s[0]] + s[1..][..j - 1];
        }
      } else {
        PieceIsSegment(s[1..], i - 1, j - 1);
        assert s[i..j] == s[1..][i - 1..j - 1];
        if s[0] == '/' && i == 1 {
          assert s[i..j] == Segments(s[1..])[0];
        }
      }
    }
  }

  /** Pieces of a text are pieces of the text with one more character in front. */
  lemma PieceBehind(c: char, rest: string, i: nat, j: nat)
    requires IsPiece(rest, i, j)
    ensures i > 0 || c in {'/', '\\'} ==>
      IsPiece([c] + rest, i + 1, j + 1) && ([c] + rest)[i + 1..j + 1] == rest[i..j]
    ensures i == 0 && c !in {'/', '\\'} ==>
      IsPiece([c] + rest, 0, j + 1) && ([c] + rest)[..j + 1] == [c] + rest[..j]
  {
    var s := [c] + rest;
    assert forall k | 0 < k < |s| :: s[k] == rest[k - 1];
  }

  lemma {:induction false} SegmentIsPiece(s: string, k: nat) returns (i: nat, j: nat)
    requires k < |Segments(s)| && '\\' !in s
    ensures IsPiece(s, i, j) && s[i..j] == Segments(s)[k] && (i == 0 <==> k == 0)
  {
    hide IsPiece;
    if s == [] || (s[0] == '/' && k == 0) {
      i, j := 0, 0;
      NoPiece(s);
    } else {
      var rest := s[1..];
      assert '\\' !in rest && s[0] in s && s == [s[0]] + rest;
      i, j := SegmentIsPiece(rest, if s[0] == '/' then k - 1 else k);
      PieceBehind(s[0], rest, i, j);
      PieceFits(rest, i, j);
      if s[0] == '/' || k > 0 {
        i, j := i + 1, j + 1;
      } else {
        j := j + 1;
      }
    }
  }

  lemma NoPiece(s: string)
    ensures s == [] || s[0] == '/' ==> IsPiece(s, 0, 0)
  {
  }

  lemma SlashedPiece(p: string, i: nat, j: nat)
    ensures IsPiece(Slashed(p), i, j) <==> IsPiece(p, i, j)
    ensures IsPiece(p, i, j) ==> Slashed(p)[i..j] == p[i..j]
  {
    assert |Slashed(p)| == |p|;
    assert forall k | 0 <= k < |p| :: Slashed(p)[k] in {'/', '\\'} <==> p[k] in {'/', '\\'};
  }

  /** The checks on a path, piece by piece, say that it stays inside. */
  lemma RelativeMeaning(p: string)
    ensures IsRelative(p) <==> StaysInside(p)
  {
    hide IsText;
    hide Segments;
    hide IsPiece;
    var s := Slashed(p);
    SlashedCharacters(p);
    forall i: nat, j: nat | IsPiece(p, i, j) ensures i <= j <= |p| && p[i..j] in Segments(s) {
      PieceFits(p, i, j);
      SlashedPiece(p, i, j);
      PieceIsSegment(s, i, j);
      if i == 0 {
        assert p[i..j] == s[..j];
      }
    }
    forall part | part in Segments(s)
      ensures exists i: nat, j: nat | IsPiece(p, i, j) :: i <= j <= |p| && p[i..j] == part
    {
      var k :| 0 <= k < |Segments(s)| && Segments(s)[k] == part;
      var i, j := SegmentIsPiece(s, k);
      SlashedPiece(p, i, j);
      PieceFits(p, i, j);
    }
    if p != [] && s[0] == '/' {
      FirstPiece(p);
    }
  }

  lemma SlashedCharacters(p: string)
    ensures |Slashed(p)| == |p| && '\\' !in Slashed(p) && (':' in Slashed(p) <==> ':' in p)
  {
    var s := Slashed(p);
    if k :| 0 <= k < |p| && p[k] == ':' {
      assert s[k] == ':';
    }
    if k :| 0 <= k < |s| && s[k] == ':' {
      assert p[k] == ':';
    }
  }

  lemma PieceFits(p: string, i: nat, j: nat)
    ensures IsPiece(p, i, j) ==> i <= j <= |p|
  {
  }

  lemma FirstPiece(p: string)
    requires p != [] && p[0] in {'/', '\\'}
    ensures IsPiece(p, 0, 0) && p[0..0] == ""
  {
  }

  ghost predicate Distinct(actors: seq<Actor>) {
    forall i, j | 0 <= i < j < |actors| ::
      || actors[i].sessionId != actors[j].sessionId
      || actors[i].workId != actors[j].workId || actors[i].workspaceId != actors[j].workspaceId
  }

  ghost predicate Lists(actors: seq<Actor>, x: Identity) {
    exists a | a in actors :: IdentityOf(a) == x
  }

  lemma DistinctSnoc(actors: seq<Actor>, a: Actor)
    ensures Distinct(actors + [a]) <==> Distinct(actors) && !Lists(actors, IdentityOf(a))
    ensures forall x :: Lists(actors + [a], x) <==> Lists(actors, x) || IdentityOf(a) == x
  {
    var all := actors + [a];
    assert forall i | 0 <= i < |actors| :: all[i] == actors[i];
    if Distinct(all) {
      forall i | 0 <= i < |actors| ensures IdentityOf(actors[i]) != IdentityOf(a) {
        assert IdentityOf(all[i]) != IdentityOf(all[|actors|]);
      }
    }
    if Distinct(actors) && !Lists(actors, IdentityOf(a)) {
      forall i | 0 <= i < |actors| ensures IdentityOf(actors[i]) != IdentityOf(a) {
        assert actors[i] in actors;
      }
      forall i, j | 0 <= i < j < |all| ensures IdentityOf(all[i]) != IdentityOf(all[j]) {
        assert j < |actors| ==> all[j] == actors[j];
      }
    }
    forall x ensures Lists(all, x) <==> Lists(actors, x) || IdentityOf(a) == x {
      assert forall b :: b in all <==> b in actors || b == a;
    }
  }

  /** Every actor is well formed, no two are the same, and all paths together fit the budget. */
  ghost predicate RosterOk(actors: seq<Actor>) {
    && (forall a | a in actors :: ActorOk(a))
    && Distinct(actors)
    && RosterBytes(actors) <= PATH_BYTES
  }

  lemma {:induction false} LoadMeaning(paths: seq<string>, used: nat)
    requires used <= PATH_BYTES
    ensures PathLoad(paths, used).Ok? <==>
            (forall p | p in paths :: IsRelative(p)) && used + TotalBytes(paths) <= PATH_BYTES
    ensures PathLoad(paths, used).Ok? ==> PathLoad(paths, used).value == used + TotalBytes(paths)
  {
    if paths != [] {
      var front, p := paths[..|paths| - 1], paths[|paths| - 1];
      LoadMeaning(front, used);
      assert paths == front + [p];
    }
  }

  lemma NobodyListed()
    ensures Distinct([]) && forall x :: !Lists([], x)
  {
  }

  lemma RosterSnoc(front: seq<Actor>, a: Actor)
    ensures RosterBytes(front + [a]) == RosterBytes(front) + TotalBytes(a.paths)
    ensures RosterOk(front + [a]) <==>
            RosterOk(front) && ActorOk(a) && !Lists(front, IdentityOf(a))
            && RosterBytes(front) + TotalBytes(a.paths) <= PATH_BYTES
  {
    hide Distinct;
    hide Lists;
    hide ActorOk;
    var actors := front + [a];
    assert actors[..|front|] == front;
    assert forall b :: b in actors <==> b in front || b == a;
    DistinctSnoc(front, a);
  }

  lemma AdmitOne(a: Actor, intake: Intake)
    requires intake.bytes <= PATH_BYTES
    ensures Admit(a, intake).Ok? <==>
            ActorOk(a) && IdentityOf(a) !in intake.seen && intake.bytes + TotalBytes(a.paths) <= PATH_BYTES
    ensures Admit(a, intake).Ok? ==>
            Admit(a, intake).value == Intake(intake.seen + {IdentityOf(a)}, intake.bytes + TotalBytes(a.paths))
  {
    hide ActorFault;
    hide IsRelative;
    hide StaysInside;
    hide IsId;
    FaultMeaning(a);
    forall p | p in a.paths ensures IsRelative(p) <==> StaysInside(p) {
      RelativeMeaning(p);
    }
    LoadMeaning(a.paths, intake.bytes);
  }

  lemma FaultMeaning(a: Actor)
    ensures ActorFault(a).None? <==>
      && IsId(a.sessionId) && IsId(a.projectId) && a.role in {"primary", "reviewer", "observer"}
      && 0 <= a.lastObserved <= 253_402_300_799
      && (a.leaseUntil.Some? ==> 0 <= a.leaseUntil.value <= 253_402_300_799)
  {
    hide IsId;
  }

  lemma {:induction false} AdmitMeaning(actors: seq<Actor>)
    ensures AdmitAll(actors).Ok? <==> RosterOk(actors)
    ensures AdmitAll(actors).Ok? ==>
              && AdmitAll(actors).value.bytes == RosterBytes(actors) <= PATH_BYTES
              && forall x :: x in AdmitAll(actors).value.seen <==> Lists(actors, x)
  {
    hide Distinct;
    hide Lists;
    hide ActorOk;
    hide Admit;
    if actors == [] {
      NobodyListed();
    } else {
      hide RosterOk;
      var front, a := actors[..|actors| - 1], actors[|actors| - 1];
      AdmitMeaning(front);
      assert actors == front + [a];
      DistinctSnoc(front, a);
      RosterSnoc(front, a);
      if AdmitAll(front).Ok? {
        AdmitOne(a, AdmitAll(front).value);
      }
    }
  }

  // ---------------------------------------------------------------- symmetry and completeness

  /** The search keeps at most 32 overlapping paths, all of them if there are fewer, and some if there are any. */
  lemma {:induction false} OverlappingMeaning(paths: seq<string>, index: seq<string>)
    ensures var found := Overlapping(paths, index);
            && Ascending(found) && |found| <= 32
            && (forall p | p in found :: p in paths && IndexedOverlap(Key(p), index))
            && (|found| < 32 ==> forall p | p in paths && IndexedOverlap(Key(p), index) :: p in found)
  {
    hide Ascending;
    hide IndexedOverlap;
    if paths == [] {
      EmptyAscends();
    } else {
      var front, p := paths[..|paths| - 1], paths[|paths| - 1];
      OverlappingMeaning(front, index);
      assert paths == front + [p];
      InsertMeaning(Overlapping(front, index), p);
    }
  }

  ghost predicate PathsMeet(a: Actor, b: Actor) {
    exists p, q | p in a.paths && q in b.paths :: Overlap(p, q)
  }

  /** Looking one path up in the index of a list is comparing it with every path of the list. */
  lemma LookupMeaning(p: string, paths: seq<string>)
    ensures IndexedOverlap(Key(p), IndexOf(paths)) <==> exists q | q in paths :: Overlap(p, q)
  {
    hide IndexedOverlap;
    var index := IndexOf(paths);
    IndexMeaning(paths);
    forall k | k in index ensures IsKey(k) {
      var q :| q in paths && Key(q) == k;
      KeyIsKey(q);
    }
    KeyIsKey(p);
    IndexAgrees(Key(p), index);
    forall q | q in paths ensures Key(q) in index && (KeysOverlap(Key(p), Key(q)) <==> Overlap(p, q)) {
      OverlapByKey(p, q);
    }
  }

  /** The path overlaps one of the list. */
  ghost predicate Meets(p: string, paths: seq<string>) {
    exists q | q in paths :: Overlap(p, q)
  }

  /** Only actors of one repository or one workspace have their paths compared. */
  predicate AreCompared(a: Actor, b: Actor) {
    || (a.repository.Some? && a.repository == b.repository)
    || (a.projectId == b.projectId && a.workspaceId.Some? && a.workspaceId == b.workspaceId)
  }

  /** The indexed search over two actors' paths finds something exactly when two paths overlap. */
  lemma SharedMeaning(a: Actor, b: Actor)
    ensures var found := SharedPaths(a, b, IndexOf(b.paths));
            && (found != [] <==> AreCompared(a, b) && PathsMeet(a, b))
            && Ascending(found) && |found| <= 32
            && (forall p | p in found :: p in a.paths && Meets(p, b.paths))
            && (AreCompared(a, b) && |found| < 32 ==> forall p | p in a.paths && Meets(p, b.paths) :: p in found)
  {
    hide IndexedOverlap;
    hide Overlap;
    hide Ascending;
    EmptyAscends();
    var index := IndexOf(b.paths);
    OverlappingMeaning(a.paths, index);
    forall p | p in a.paths
      ensures IndexedOverlap(Key(p), index) <==> Meets(p, b.paths)
    {
      LookupMeaning(p, b.paths);
    }
    var found := Overlapping(a.paths, index);
    if found != [] {
      assert found[0] in found;
      var q :| q in b.paths && Overlap(found[0], q);
    }
    if p, q :| p in a.paths && q in b.paths && Overlap(p, q) {
      assert IndexedOverlap(Key(p), index);
    }
  }

  lemma MeetIsSymmetric(a: Actor, b: Actor)
    ensures PathsMeet(a, b) <==> PathsMeet(b, a)
  {
    if p, q :| p in a.paths && q in b.paths && Overlap(p, q) {
      OverlapIsSymmetric(p, q);
    }
    if p, q :| p in b.paths && q in a.paths && Overlap(p, q) {
      OverlapIsSymmetric(p, q);
    }
  }

  /** What a row says, whichever of the two actors is listed first. */
  datatype Finding = Finding(sessions: set<string>, kind: Kind, risk: Risk, uncertain: bool)

  function FindingOf(c: Conflict): Finding {
    Finding({c.first, c.second}, c.kind, c.risk, c.uncertain)
  }

  function FindingsOf(rows: seq<Conflict>): multiset<Finding> {
    if rows == [] then multiset{} else FindingsOf(rows[..|rows| - 1]) + multiset{FindingOf(rows[|rows| - 1])}
  }

  lemma FindingsSnoc(rows: seq<Conflict>, c: Conflict)
    ensures FindingsOf(rows + [c]) == FindingsOf(rows) + multiset{FindingOf(c)}
  {
    assert (rows + [c])[..|rows|] == rows;
  }

  lemma {:induction false} FindingsAppend(a: seq<Conflict>, b: seq<Conflict>)
    ensures FindingsOf(a + b) == FindingsOf(a) + FindingsOf(b)
  {
    hide FindingsOf;
    hide FindingOf;
    if b == [] {
      assert a + b == a;
      FindingsOfNone();
    } else {
      var front, last := b[..|b| - 1], b[|b| - 1];
      assert a + b == (a + front) + [last] && b == front + [last];
      FindingsAppend(a, front);
      FindingsSnoc(a + front, last);
      FindingsSnoc(front, last);
    }
  }

  /** Swapping two actors changes neither whether they conflict nor what the conflict is. */
  lemma PairIsSymmetric(a: Actor, b: Actor, now: int)
    ensures FindingsOf(PairRow(a, b, now)) == FindingsOf(PairRow(b, a, now))
  {
    SharedMeaning(a, b);
    SharedMeaning(b, a);
    MeetIsSymmetric(a, b);
    var x, y := PairRow(a, b, now), PairRow(b, a, now);
    assert x != [] <==> y != [];
    if x != [] {
      assert FindingOf(x[0]) == FindingOf(y[0]);
      assert FindingsOf(x) == FindingsOf([]) + multiset{FindingOf(x[0])} by { assert x[..0] == []; }
      assert FindingsOf(y) == FindingsOf([]) + multiset{FindingOf(y[0])} by { assert y[..0] == []; }
    }
  }

  /** The findings between one actor and each of a list. */
  function Between(a: Actor, others: seq<Actor>, now: int): multiset<Finding> {
    if others == [] then multiset{} else FindingsOf(PairRow(a, others[0], now)) + Between(a, others[1..], now)
  }

  lemma {:induction false} BetweenAppend(a: Actor, xs: seq<Actor>, ys: seq<Actor>, now: int)
    ensures Between(a, xs + ys, now) == Between(a, xs, now) + Between(a, ys, now)
  {
    if xs == [] {
      assert xs + ys == ys;
    } else {
      assert (xs + ys)[1..] == xs[1..] + ys;
      BetweenAppend(a, xs[1..], ys, now);
    }
  }

  lemma FindingsOfNone()
    ensures FindingsOf([]) == multiset{}
  {
  }

  lemma BetweenOne(a: Actor, b: Actor, now: int)
    ensures Between(a, [b], now) == FindingsOf(PairRow(a, b, now))
  {
    assert [b][1..] == [];
  }

  lemma {:induction false} AgainstIsBetween(a: Actor, others: seq<Actor>, now: int)
    ensures FindingsOf(RowsAgainst(a, others, now)) == Between(a, others, now)
  {
    hide PairRow;
    hide FindingsOf;
    FindingsOfNone();
    if others != [] {
      var front, b := others[..|others| - 1], others[|others| - 1];
      AgainstIsBetween(a, front, now);
      FindingsAppend(RowsAgainst(a, front, now), PairRow(a, b, now));
      BetweenAppend(a, front, [b], now);
      BetweenOne(a, b, now);
      assert front + [b] == others;
    }
  }

  lemma NobodyAfter(a: Actor, now: int)
    ensures RowsAgainst(a, [], now) == []
  {
  }

  /** An actor added at the end meets everyone before it. */
  lemma {:induction false} RowsSnoc(actors: seq<Actor>, a: Actor, now: int)
    ensures FindingsOf(Rows(actors + [a], now)) == FindingsOf(Rows(actors, now)) + Between(a, actors, now)
  {
    hide PairRow;
    hide FindingsOf;
    hide RowsAgainst;
    if actors == [] {
      assert actors + [a] == [a] && [a][1..] == [];
      FindingsOfNone();
      NobodyAfter(a, now);
      assert Rows([a], now) == RowsAgainst(a, [], now) + Rows([], now);
    } else {
      var head, tail := actors[0], actors[1..];
      assert (actors + [a])[0] == head && (actors + [a])[1..] == tail + [a];
      RowsSnoc(tail, a, now);
      FindingsAppend(RowsAgainst(head, tail + [a], now), Rows(tail + [a], now));
      FindingsAppend(RowsAgainst(head, tail, now), Rows(tail, now));
      AgainstIsBetween(head, tail + [a], now);
      AgainstIsBetween(head, tail, now);
      BetweenAppend(head, tail, [a], now);
      BetweenOne(head, a, now);
      PairIsSymmetric(head, a, now);
    }
  }

  lemma {:induction false} FindingsCount(rows: seq<Conflict>)
    ensures |FindingsOf(rows)| == |rows|
  {
    if rows != [] {
      FindingsCount(rows[..|rows| - 1]);
    }
  }

  lemma {:induction false} BetweenPermuted(a: Actor, xs: seq<Actor>, ys: seq<Actor>, now: int)
    requires multiset(xs) == multiset(ys)
    ensures Between(a, xs, now) == Between(a, ys, now)
    decreases |xs|
  {
    hide Between;
    PermutedMembers(xs, ys);
    if xs != [] {
      var front, last := xs[..|xs| - 1], xs[|xs| - 1];
      var l, r := WithoutLast(xs, ys);
      assert xs == front + [last];
      BetweenPermuted(a, front, l + r, now);
      BetweenAppend(a, front, [last], now);
      BetweenAppend(a, l + [last], r, now);
      BetweenAppend(a, l, [last], now);
      BetweenAppend(a, l, r, now);
    }
  }

  /** Wherever an actor stands in the roster, its rows are those against all others. */
  lemma {:induction false} FindingsInsert(l: seq<Actor>, a: Actor, r: seq<Actor>, now: int)
    ensures FindingsOf(Rows(l + [a] + r, now)) == FindingsOf(Rows(l + r, now)) + Between(a, l + r, now)
    decreases |r|
  {
    hide Between;
    hide Rows;
    hide PairRow;
    hide FindingsOf;
    if r == [] {
      assert l + [a] + r == l + [a] && l + r == l;
      RowsSnoc(l, a, now);
    } else {
      var front, b := r[..|r| - 1], r[|r| - 1];
      assert l + [a] + r == l + [a] + front + [b] && l + r == l + front + [b];
      FindingsInsert(l, a, front, now);
      RowsSnoc(l + [a] + front, b, now);
      RowsSnoc(l + front, b, now);
      BetweenAppend(b, l + [a], front, now);
      BetweenAppend(b, l, [a], now);
      BetweenAppend(b, l, front, now);
      BetweenAppend(a, l + front, [b], now);
      BetweenOne(b, a, now);
      BetweenOne(a, b, now);
      PairIsSymmetric(a, b, now);
    }
  }

  lemma {:induction false} FindingsPermuted(a: seq<Actor>, b: seq<Actor>, now: int)
    requires multiset(a) == multiset(b)
    ensures FindingsOf(Rows(a, now)) == FindingsOf(Rows(b, now))
    decreases |a|
  {
    hide Between;
    hide Rows;
    hide FindingsOf;
    PermutedMembers(a, b);
    if a != [] {
      var front, last := a[..|a| - 1], a[|a| - 1];
      var l, r := WithoutLast(a, b);
      assert a == front + [last];
      FindingsPermuted(front, l + r, now);
      RowsSnoc(front, last, now);
      FindingsInsert(l, last, r, now);
      BetweenPermuted(last, front, l + r, now);
    }
  }

  lemma {:induction false} BytesInsert(l: seq<Actor>, a: Actor, r: seq<Actor>)
    ensures RosterBytes(l + [a] + r) == RosterBytes(l + r) + TotalBytes(a.paths)
    decreases |r|
  {
    if r == [] {
      assert l + [a] + r == l + [a] && l + r == l && (l + [a])[..|l|] == l;
    } else {
      var front := r[..|r| - 1];
      assert (l + [a] + r)[..|l| + |r|] == l + [a] + front;
      assert (l + r)[..|l| + |r| - 1] == l + front;
      BytesInsert(l, a, front);
    }
  }

  lemma {:induction false} BytesPermuted(a: seq<Actor>, b: seq<Actor>)
    requires multiset(a) == multiset(b)
    ensures RosterBytes(a) == RosterBytes(b)
    decreases |a|
  {
    PermutedMembers(a, b);
    if a != [] {
      var l, r := WithoutLast(a, b);
      BytesPermuted(a[..|a| - 1], l + r);
      BytesInsert(l, a[|a| - 1], r);
    }
  }

  lemma DistinctPermuted(a: seq<Actor>, b: seq<Actor>)
    requires multiset(a) == multiset(b) && Distinct(a)
    ensures Distinct(b)
  {
    forall i, j | 0 <= i < j < |b| ensures IdentityOf(b[i]) != IdentityOf(b[j]) {
      var p, q := TwoPlaces(b, a, i, j);
      assert IdentityOf(a[p]) != IdentityOf(a[q]);
      assert b[i] in {a[p], a[q]} && b[j] in {a[p], a[q]} && {b[i], b[j]} == {a[p], a[q]};
    }
  }

  lemma RosterPermuted(a: seq<Actor>, b: seq<Actor>)
    requires multiset(a) == multiset(b)
    ensures RosterOk(a) ==> RosterOk(b)
  {
    hide ActorOk;
    hide Distinct;
    if RosterOk(a) {
      PermutedMembers(a, b);
      BytesPermuted(a, b);
      DistinctPermuted(a, b);
    }
  }

  /**
   * Rearranging the roster in any way changes neither whether it is accepted nor, as unordered pairs
   * with their kind, risk and uncertainty, the conflicts it reports.
   */
  lemma ConflictsAreOrderFree(a: seq<Actor>, b: seq<Actor>, now: int)
    requires multiset(a) == multiset(b)
    ensures Judge(a, now).Ok? <==> Judge(b, now).Ok?
    ensures Judge(a, now).Ok? ==> FindingsOf(Judge(a, now).value) == FindingsOf(Judge(b, now).value)
  {
    hide RosterOk;
    hide Rows;
    hide FindingsOf;
    hide AdmitAll;
    PermutedMembers(a, b);
    AdmitMeaning(a);
    AdmitMeaning(b);
    RosterPermuted(a, b);
    RosterPermuted(b, a);
    FindingsPermuted(a, b, now);
    FindingsCount(Rows(a, now));
    FindingsCount(Rows(b, now));
  }

  lemma {:induction false} PairIsListed(actors: seq<Actor>, i: nat, j: nat, now: int)
    requires i < j < |actors|
    ensures forall c | c in PairRow(actors[i], actors[j], now) :: c in Rows(actors, now)
  {
    hide PairRow;
    if i == 0 {
      AgainstLists(actors[0], actors[1..], j - 1, now);
    } else {
      PairIsListed(actors[1..], i - 1, j - 1, now);
    }
  }

  lemma {:induction false} AgainstLists(a: Actor, others: seq<Actor>, k: nat, now: int)
    requires k < |others|
    ensures forall c | c in PairRow(a, others[k], now) :: c in RowsAgainst(a, others, now)
  {
    hide PairRow;
    if k < |others| - 1 {
      AgainstLists(a, others[..|others| - 1], k, now);
    }
  }

  /** What two actors have to share for a row of each kind; at most one kind fits. */
  ghost predicate IsCause(kind: Kind, a: Actor, b: Actor) {
    var work := a.projectId == b.projectId && a.workId.Some? && a.workId == b.workId && a.role == b.role == "primary";
    var workspace := a.projectId == b.projectId && a.workspaceId.Some? && a.workspaceId == b.workspaceId;
    var branch := a.branch.Some? && a.branch == b.branch;
    var apart := !work && !workspace && a.repository.Some? && a.repository == b.repository;
    match kind
    case SameWorkItem => work
    case SameWorkspace => workspace && !work
    case OverlappingPaths => apart && PathsMeet(a, b)
    case SameBranch => apart && !PathsMeet(a, b) && branch
    case UnknownScope => apart && !PathsMeet(a, b) && !branch && (!a.pathsComplete || !b.pathsComplete)
  }

  /** The actor counts: it is neither over nor only watching. */
  predicate IsActive(a: Actor) {
    !a.ended && a.role != "observer"
  }

  /** The actor was seen in the last five minutes and its lease still runs. */
  predicate IsCurrent(a: Actor, now: int) {
    a.lastObserved <= now <= a.lastObserved + 300 && a.leaseUntil.Some? && now <= a.leaseUntil.value
  }

  /** The paths of the first actor that overlap one of the second, or 32 of them if there are more. */
  ghost predicate ShowsPaths(paths: seq<string>, a: Actor, b: Actor) {
    && (paths != [] <==> AreCompared(a, b) && PathsMeet(a, b))
    && Ascending(paths) && |paths| <= 32
    && (forall p | p in paths :: p in a.paths && Meets(p, b.paths))
    && (AreCompared(a, b) && |paths| < 32 ==> forall p | p in a.paths && Meets(p, b.paths) :: p in paths)
  }

  /** The row is right about the two actors. */
  ghost predicate IsJustified(c: Conflict, a: Actor, b: Actor, now: int) {
    && IsActive(a) && IsActive(b) && a.sessionId != b.sessionId
    && c.first == a.sessionId && c.second == b.sessionId
    && IsCause(c.kind, a, b)
    && (c.risk == High <==> c.kind in {SameWorkItem, SameWorkspace})
    && (c.risk == UnknownRisk <==> c.kind == UnknownScope)
    && ShowsPaths(c.paths, a, b)
    && (c.uncertain <==> !IsCurrent(a, now) || !IsCurrent(b, now))
  }

  lemma PairMeaning(a: Actor, b: Actor, now: int)
    ensures |PairRow(a, b, now)| <= 1
    ensures PairRow(a, b, now) != [] <==>
            IsActive(a) && IsActive(b) && a.sessionId != b.sessionId && exists kind :: IsCause(kind, a, b)
    ensures PairRow(a, b, now) != [] ==> IsJustified(PairRow(a, b, now)[0], a, b, now)
  {
    hide PathsMeet;
    hide Meets;
    hide Ascending;
    hide SharedPaths;
    SharedMeaning(a, b);
    var kind := KindOf(a, b, SharedPaths(a, b, IndexOf(b.paths)));
    if kind.Some? {
      assert IsCause(kind.value, a, b);
    }
  }

  /**
   * Any two live actors of different sessions that have a cause of some kind, overlapping paths among
   * them, get a row, and the row is right about them.
   */
  lemma CausesAreReported(actors: seq<Actor>, i: nat, j: nat, kind: Kind, now: int)
    requires i < j < |actors| && Judge(actors, now).Ok?
    requires IsActive(actors[i]) && IsActive(actors[j]) && actors[i].sessionId != actors[j].sessionId
    requires IsCause(kind, actors[i], actors[j])
    ensures exists c | c in Judge(actors, now).value :: c.kind == kind && IsJustified(c, actors[i], actors[j], now)
  {
    hide IsJustified;
    hide IsCause;
    hide PairRow;
    var a, b := actors[i], actors[j];
    PairMeaning(a, b, now);
    PairIsListed(actors, i, j, now);
    var c := PairRow(a, b, now)[0];
    assert c in PairRow(a, b, now);
    CauseIsUnique(a, b, now, c, kind);
  }

  lemma CauseIsUnique(a: Actor, b: Actor, now: int, c: Conflict, kind: Kind)
    requires IsJustified(c, a, b, now) && IsCause(kind, a, b)
    ensures c.kind == kind
  {
    hide PathsMeet;
    hide ShowsPaths;
  }

  /** Every reported row is about two listed actors, the earlier one first, and right about them. */
  lemma RowsAreJustified(actors: seq<Actor>, now: int, c: Conflict)
    requires Judge(actors, now).Ok? && c in Judge(actors, now).value
    ensures exists i, j | 0 <= i < j < |actors| :: IsJustified(c, actors[i], actors[j], now)
  {
    hide IsJustified;
    hide IsCause;
    hide PairRow;
    var i, j := RowIsOfPair(actors, now, c);
    PairMeaning(actors[i], actors[j], now);
  }

  lemma {:induction false} RowIsOfPair(actors: seq<Actor>, now: int, c: Conflict) returns (i: nat, j: nat)
    requires c in Rows(actors, now)
    ensures i < j < |actors| && c in PairRow(actors[i], actors[j], now)
  {
    hide PairRow;
    if c in Rows(actors[1..], now) {
      i, j := RowIsOfPair(actors[1..], now, c);
      i, j := i + 1, j + 1;
    } else {
      j := RowIsAgainst(actors[0], actors[1..], now, c);
      i, j := 0, j + 1;
    }
  }

  lemma {:induction false} RowIsAgainst(a: Actor, others: seq<Actor>, now: int, c: Conflict) returns (k: nat)
    requires c in RowsAgainst(a, others, now)
    ensures k < |others| && c in PairRow(a, others[k], now)
  {
    hide PairRow;
    if c in PairRow(a, others[|others| - 1], now) {
      k := |others| - 1;
    } else {
      k := RowIsAgainst(a, others[..|others| - 1], now, c);
    }
  }

  // ---------------------------------------------------------------- when there is an answer

  ghost predicate AreInConflict(a: Actor, b: Actor) {
    IsActive(a) && IsActive(b) && a.sessionId != b.sessionId && exists kind :: IsCause(kind, a, b)
  }

  ghost function ConflictsWith(a: Actor, others: seq<Actor>): nat {
    if others == [] then 0
    else
      var n := |others| - 1;
      ConflictsWith(a, others[..n]) + if AreInConflict(a, others[n]) then 1 else 0
  }

  /** The number of pairs of actors that are in conflict. */
  ghost function PairsInConflict(actors: seq<Actor>): nat {
    if actors == [] then 0 else ConflictsWith(actors[0], actors[1..]) + PairsInConflict(actors[1..])
  }

  lemma {:induction false} RowsAreCounted(actors: seq<Actor>, now: int)
    ensures |Rows(actors, now)| == PairsInConflict(actors)
  {
    hide RowsAgainst;
    hide ConflictsWith;
    if actors != [] {
      AgainstIsCounted(actors[0], actors[1..], now);
      RowsAreCounted(actors[1..], now);
    }
  }

  lemma {:induction false} AgainstIsCounted(a: Actor, others: seq<Actor>, now: int)
    ensures |RowsAgainst(a, others, now)| == ConflictsWith(a, others)
  {
    hide PairRow;
    hide IsCause;
    if others != [] {
      var n := |others| - 1;
      AgainstIsCounted(a, others[..n], now);
      PairMeaning(a, others[n], now);
    }
  }

  /**
   * A roster is answered exactly at a valid time, with at most 256 actors that are well formed, different
   * and within four megabytes of paths, and at most 1024 pairs in conflict.
   */
  lemma AnswerMeaning(actors: seq<Actor>, now: int)
    ensures Judge(actors, now).Ok? <==>
      && 0 <= now <= 253_402_300_799 && |actors| <= 256
      && (forall a | a in actors :: ActorOk(a)) && Distinct(actors) && RosterBytes(actors) <= 4194304
      && PairsInConflict(actors) <= 1024
    ensures Judge(actors, now).Ok? ==> |Judge(actors, now).value| == PairsInConflict(actors)
  {
    hide AdmitAll;
    hide ActorOk;
    hide Distinct;
    hide RosterBytes;
    hide Rows;
    hide PairsInConflict;
    AdmitMeaning(actors);
    RowsAreCounted(actors, now);
  }
}
