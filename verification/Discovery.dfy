/**
 * Recommending catalog resources for a project's focus: candidates are ranked, and at most three are
 * kept, no two from one source or for one purpose.
 */
module Discovery {
  import opened Prelude
  import opened Control
  import opened Ordering

  datatype Capability = Capability(
    id: string, title: string, kind: string, source: string, needs: seq<string>, platforms: seq<string>,
    cost: string, privacy: string, equivalence: Option<string>, purpose: string, reviewStatus: string,
    reviewRevision: string, reviewedAt: int, freshFor: nat)

  datatype Feedback = Feedback(
    id: string, project: string, resource: string, need: string, disposition: string, until: Option<int>,
    outcome: string, revision: Option<string>, recordedAt: int)

  datatype Focus = Focus(
    needs: seq<string>, evidence: string, blocked: seq<string>, existing: seq<string>, freeOnly: bool,
    localOnly: bool, platform: string)

  datatype Benefit = ObservedUseful | NotUseful | Inconclusive | Potential

  /** The computed part of a card; titles and descriptions are those of the resource. */
  datatype Card = Card(
    resource: Capability, need: string, available: bool, unknown: bool, stale: bool, benefit: Benefit)

  datatype Fault = DiscoveryLimit | CatalogDuplicate

  // ---------------------------------------------------------------- canonical sources

  /** Splits at the first "://". */
  function SplitScheme(s: string): Option<(string, string)> {
    if |s| < 3 then None
    else if s[..3] == "://" then Some(([], s[3..]))
    else
      match SplitScheme(s[1..])
      case None => None
      case Some((scheme, rest)) => Some(([s[0]] + scheme, rest))
  }

  /** Host and path around the first slash; without a slash the path is empty. */
  function SplitHost(s: string): (string, string) {
    if s == [] then ([], [])
    else if s[0] == '/' then ([], s[1..])
    else
      var (host, path) := SplitHost(s[1..]);
      ([s[0]] + host, path)
  }

  function TrimSlashes(s: string): string {
    if s != [] && s[|s| - 1] == '/' then TrimSlashes(s[..|s| - 1]) else s
  }

  function CanonicalSource(source: string): string {
    match SplitScheme(source)
    case None => source
    case Some((scheme, rest)) =>
      var (host, path) := SplitHost(rest);
      Lower(scheme) + "://" + Lower(host) + "/" + TrimSlashes(path)
  }

  lemma {:induction false} SplitSchemeJoins(s: string, tail: string)
    requires SplitScheme(s).Some?
    ensures var (scheme, rest) := SplitScheme(s).value;
      && s == scheme + "://" + rest
      && SplitScheme(Lower(scheme) + "://" + tail) == Some((Lower(scheme), tail))
  {
    hide Lower;
    hide SplitScheme;
    SplitSchemeSteps(s);
    if s[..3] == "://" {
      LowerNothing();
      assert [] + "://" + tail == "://" + tail;
      SplitSchemeSteps("://" + tail);
    } else {
      SplitSchemeJoins(s[1..], tail);
      var (scheme, rest) := SplitScheme(s[1..]).value;
      Regrouped(s, scheme, rest);
      NoEarlierScheme(s, scheme, rest, tail);
      LowerMore(s[0], scheme, tail);
      SplitSchemeLater(LowerChar(s[0]), Lower(scheme) + "://" + tail);
    }
  }

  lemma Regrouped(s: string, scheme: string, rest: string)
    requires s != [] && s[1..] == scheme + "://" + rest
    ensures s == [s[0]] + scheme + "://" + rest
  {
  }

  lemma SplitSchemeSteps(s: string)
    ensures SplitScheme(s).Some? ==> |s| >= 3
    ensures "://" <= s ==> s == "://" + s[3..] && SplitScheme(s) == Some(([], s[3..]))
    ensures SplitScheme(s).Some? && s[..3] == "://" ==> "://" <= s
    ensures SplitScheme(s).Some? && s[..3] != "://" ==>
      SplitScheme(s[1..]).Some?
      && SplitScheme(s).value == ([s[0]] + SplitScheme(s[1..]).value.0, SplitScheme(s[1..]).value.1)
  {
  }

  lemma LowerNothing()
    ensures Lower([]) == []
  {
  }

  lemma LowerMore(c: char, scheme: string, tail: string)
    ensures Lower([c] + scheme) == [LowerChar(c)] + Lower(scheme)
    ensures Lower([c] + scheme) + "://" + tail == [LowerChar(c)] + (Lower(scheme) + "://" + tail)
  {
    assert Lower([c] + scheme) == [LowerChar(c)] + Lower(scheme);
  }

  lemma SplitSchemeLater(c: char, s: string)
    requires SplitScheme(s).Some? && ([c] + s)[..3] != "://"
    ensures SplitScheme([c] + s) == Some(([c] + SplitScheme(s).value.0, SplitScheme(s).value.1))
  {
    assert ([c] + s)[1..] == s;
  }

  /** Lowering letters moves no delimiter, and the delimiter cannot overlap itself. */
  lemma NoEarlierScheme(s: string, scheme: string, rest: string, tail: string)
    requires s != [] && s == [s[0]] + scheme + "://" + rest && s[..3] != "://"
    ensures (Lower([s[0]] + scheme) + "://" + tail)[..3] != "://"
  {
    var lowered := Lower([s[0]] + scheme) + "://" + tail;
    assert forall i | 0 <= i < 3 && i < |scheme| + 1 :: lowered[i] == LowerChar(s[i]);
    assert forall i | |scheme| + 1 <= i < 3 :: lowered[i] == s[i];
    assert lowered[..3] == [lowered[0], lowered[1], lowered[2]];
    assert s[..3] == [s[0], s[1], s[2]];
  }

  lemma {:induction false} SplitHostRejoins(s: string, tail: string)
    ensures SplitHost(Lower(SplitHost(s).0) + "/" + tail) == (Lower(SplitHost(s).0), tail)
  {
    if s == [] || s[0] == '/' {
      assert Lower([]) + "/" + tail == "/" + tail;
    } else {
      SplitHostRejoins(s[1..], tail);
      var host := SplitHost(s[1..]).0;
      assert Lower([s[0]] + host) == [LowerChar(s[0])] + Lower(host);
      assert ([LowerChar(s[0])] + Lower(host) + "/" + tail)[1..] == Lower(host) + "/" + tail;
    }
  }

  lemma {:induction false} TrimSlashesTwice(s: string)
    ensures TrimSlashes(TrimSlashes(s)) == TrimSlashes(s)
  {
    if s != [] && s[|s| - 1] == '/' {
      TrimSlashesTwice(s[..|s| - 1]);
    }
  }

  lemma LowerTwice(s: string)
    ensures Lower(Lower(s)) == Lower(s)
  {
  }

  /** Canonical sources are canonical. */
  lemma CanonicalIsStable(source: string)
    ensures CanonicalSource(CanonicalSource(source)) == CanonicalSource(source)
  {
    if SplitScheme(source).Some? {
      var (scheme, rest) := SplitScheme(source).value;
      var (host, path) := SplitHost(rest);
      var tail := Lower(host) + "/" + TrimSlashes(path);
      SplitSchemeJoins(source, tail);
      assert CanonicalSource(source) == Lower(scheme) + "://" + tail;
      SplitHostRejoins(rest, TrimSlashes(path));
      TrimSlashesTwice(path);
      LowerTwice(scheme);
      LowerTwice(host);
    }
  }

  // ---------------------------------------------------------------- feedback

  datatype Context = Context(
    project: string, focus: Focus, catalog: seq<Capability>, feedback: seq<Feedback>, now: int)

  /** What feedback is looked up about: one resource, or every resource of one source. */
  datatype Topic = Resource(id: string, need: string) | Source(canonical: string, need: string)

  predicate HasAlias(catalog: seq<Capability>, id: string, canonical: string) {
    exists a | a in catalog :: a.id == id && CanonicalSource(a.source) == canonical
  }

  predicate IsAbout(f: Feedback, topic: Topic, x: Context) {
    && f.project == x.project && f.need == topic.need && f.recordedAt <= x.now
    && match topic
       case Resource(id, _) => f.resource == id
       case Source(canonical, _) => HasAlias(x.catalog, f.resource, canonical)
  }

  predicate NotLater(a: Feedback, b: Feedback) {
    a.recordedAt < b.recordedAt || (a.recordedAt == b.recordedAt && AtMost(a.id, b.id))
  }

  function Newest(fs: seq<Feedback>, topic: Topic, x: Context): Option<Feedback> {
    if fs == [] then None
    else
      var best, last := Newest(fs[..|fs| - 1], topic, x), fs[|fs| - 1];
      if IsAbout(last, topic, x) && (best.None? || NotLater(best.value, last)) then Some(last) else best
  }

  predicate IsNewest(fs: seq<Feedback>, topic: Topic, x: Context, f: Feedback) {
    && f in fs && IsAbout(f, topic, x)
    && forall g | g in fs && IsAbout(g, topic, x) :: NotLater(g, f)
  }

  lemma {:induction false} NewestMeaning(fs: seq<Feedback>, topic: Topic, x: Context)
    ensures match Newest(fs, topic, x)
      case None => forall g | g in fs :: !IsAbout(g, topic, x)
      case Some(f) => IsNewest(fs, topic, x, f)
  {
    hide IsAbout;
    if fs != [] {
      var front, last := fs[..|fs| - 1], fs[|fs| - 1];
      assert fs == front + [last];
      NewestMeaning(front, topic, x);
      AtMostTotal(last.id, last.id);
      if Newest(front, topic, x).Some? {
        var best := Newest(front, topic, x).value;
        AtMostTotal(best.id, last.id);
        forall g | g in front && IsAbout(g, topic, x) && NotLater(best, last) ensures NotLater(g, last) {
          if g.recordedAt == best.recordedAt == last.recordedAt {
            AtMostTransitive(g.id, best.id, last.id);
          }
        }
      }
    }
  }

  predicate DistinctIds(fs: seq<Feedback>) {
    forall i, j | 0 <= i < j < |fs| :: fs[i].id != fs[j].id
  }

  // ---------------------------------------------------------------- candidates

  predicate IsExcluded(c: Capability, x: Context) {
    || c.reviewStatus != "reviewed"
    || c.reviewedAt > x.now
    || c.id in x.focus.blocked
    || (exists a | a in x.catalog :: a.id in x.focus.blocked && CanonicalSource(a.source) == CanonicalSource(c.source))
    || (x.focus.freeOnly && c.cost == "paid")
    || (x.focus.localOnly && c.privacy == "external")
    || (c.platforms != [] && x.focus.platform !in c.platforms && "platform_neutral" !in c.platforms)
  }

  /** The newest word on the need for this source, under any of its names, turns it down for now. */
  predicate IsDeclined(c: Capability, need: string, x: Context) {
    var f := Newest(x.feedback, Source(CanonicalSource(c.source), need), x);
    && f.Some?
    && (f.value.disposition == "dismissed"
        || (f.value.disposition == "snoozed" && f.value.until.Some? && f.value.until.value > x.now))
  }

  function Wanted(needs: seq<string>, focus: Focus): seq<string> {
    if needs == [] then []
    else
      var last := needs[|needs| - 1];
      Wanted(needs[..|needs| - 1], focus) + (if last in focus.needs then [last] else [])
  }

  function Undeclined(needs: seq<string>, c: Capability, x: Context): seq<string> {
    if needs == [] then []
    else
      var last := needs[|needs| - 1];
      Undeclined(needs[..|needs| - 1], c, x) + (if IsDeclined(c, last, x) then [] else [last])
  }

  /** Focus needs the resource serves, in order, without the declined ones. */
  function OpenNeeds(c: Capability, x: Context): seq<string> {
    Undeclined(Sort(Wanted(c.needs, x.focus), AtMost), c, x)
  }

  function BenefitOf(c: Capability, need: string, x: Context): Benefit {
    var f := Newest(x.feedback, Resource(c.id, need), x);
    if f.None? || f.value.disposition != "evaluated" || f.value.revision != Some(c.reviewRevision) then Potential
    else if f.value.outcome == "useful" then ObservedUseful
    else if f.value.outcome == "not_useful" then NotUseful
    else Inconclusive
  }

  predicate IsStale(c: Capability, x: Context) {
    x.now - c.reviewedAt > c.freshFor
  }

  predicate IsUnknown(c: Capability, x: Context) {
    || (x.focus.freeOnly && c.cost == "unknown")
    || (x.focus.localOnly && c.privacy == "unknown")
    || c.platforms == []
    || IsStale(c, x)
  }

  function CardOf(c: Capability, x: Context): Option<Card> {
    if IsExcluded(c, x) then None
    else
      var needs := OpenNeeds(c, x);
      if needs == [] then None
      else Some(Card(
          c, needs[0], c.id in x.focus.existing, IsUnknown(c, x), IsStale(c, x), BenefitOf(c, needs[0], x)))
  }

  function Cards(cs: seq<Capability>, x: Context): seq<Card> {
    if cs == [] then []
    else
      var card := CardOf(cs[|cs| - 1], x);
      Cards(cs[..|cs| - 1], x) + (if card.Some? then [card.value] else [])
  }

  predicate BoolAtMost(a: bool, b: bool) {
    a ==> b
  }

  /** Known before unknown, available before new, fresh before stale, then by identifier. */
  predicate Ranks(a: Card, b: Card) {
    if a.unknown != b.unknown then BoolAtMost(a.unknown, b.unknown)
    else if a.available != b.available then BoolAtMost(b.available, a.available)
    else if a.stale != b.stale then BoolAtMost(a.stale, b.stale)
    else AtMost(a.resource.id, b.resource.id)
  }

  /** Same source, or the same declared purpose. */
  predicate Clash(a: Card, b: Card) {
    || CanonicalSource(a.resource.source) == CanonicalSource(b.resource.source)
    || (a.resource.equivalence.Some? && a.resource.equivalence == b.resource.equivalence)
  }

  /** Keeps up to three cards, skipping those that clash with a kept one. */
  function Pick(cards: seq<Card>): seq<Card> {
    if cards == [] then []
    else
      var kept, last := Pick(cards[..|cards| - 1]), cards[|cards| - 1];
      if |kept| >= 3 || (exists k | k in kept :: Clash(k, last)) then kept else kept + [last]
  }

  predicate HasDuplicate(catalog: seq<Capability>) {
    exists i, j | 0 <= i < j < |catalog| :: catalog[i].id == catalog[j].id
  }

  function Recommended(x: Context): Result<seq<Card>, Fault> {
    if |x.catalog| > 100 || |x.feedback| > 1000 then Err(DiscoveryLimit)
    else if x.focus.evidence == [] || x.focus.needs == [] then Ok([])
    else if HasDuplicate(x.catalog) then Err(CatalogDuplicate)
    else Ok(Pick(Sort(Cards(x.catalog, x), Ranks)))
  }

  // ---------------------------------------------------------------- greedy maximality

  lemma {:induction false} PickIsApart(cards: seq<Card>)
    ensures |Pick(cards)| <= 3
    ensures forall i, j | 0 <= i < j < |Pick(cards)| :: !Clash(Pick(cards)[i], Pick(cards)[j])
    ensures forall k | k in Pick(cards) :: k in cards
  {
    hide Clash;
    if cards != [] {
      PickIsApart(cards[..|cards| - 1]);
    }
  }

  /** Whatever is not kept clashes with a kept card before it, or stands behind three kept cards. */
  lemma {:induction false} PickIsGreedy(cards: seq<Card>, i: nat)
    requires i < |cards|
    ensures cards[i] in Pick(cards)
      || (exists j | 0 <= j < i :: cards[j] in Pick(cards) && Clash(cards[j], cards[i]))
      || (|Pick(cards)| == 3 && forall k | k in Pick(cards) :: k in cards[..i])
  {
    hide Clash;
    var front, last := cards[..|cards| - 1], cards[|cards| - 1];
    PickIsApart(front);
    if i == |front| {
      assert cards[..i] == front;
      if k :| k in Pick(front) && Clash(k, last) {
        var j :| 0 <= j < |front| && front[j] == k;
        assert cards[j] == k;
      }
    } else {
      PickIsGreedy(front, i);
      assert front[..i] == cards[..i];
      if j :| 0 <= j < i && front[j] in Pick(front) && Clash(front[j], front[i]) {
        assert cards[j] in Pick(cards);
      }
    }
  }

  // ---------------------------------------------------------------- order of catalog and feedback

  /** The same question asked of rearranged tables. */
  ghost predicate SameContext(x: Context, y: Context) {
    && x.project == y.project && x.focus == y.focus && x.now == y.now
    && SameMembers(x.catalog, y.catalog) && SameMembers(x.feedback, y.feedback)
    && DistinctIds(x.feedback)
  }

  lemma SameAbout(f: Feedback, topic: Topic, x: Context, y: Context)
    requires SameContext(x, y)
    ensures IsAbout(f, topic, x) == IsAbout(f, topic, y)
  {
    hide CanonicalSource;
    hide DistinctIds;
  }

  lemma NewestAgrees(topic: Topic, x: Context, y: Context)
    requires SameContext(x, y)
    ensures Newest(x.feedback, topic, x) == Newest(y.feedback, topic, y)
  {
    hide IsAbout;
    hide SameContext;
    SameFeedback(x, y);
    NewestMeaning(x.feedback, topic, x);
    NewestMeaning(y.feedback, topic, y);
    var p, q := Newest(x.feedback, topic, x), Newest(y.feedback, topic, y);
    if p.Some? {
      SameAbout(p.value, topic, x, y);
    }
    if q.Some? {
      SameAbout(q.value, topic, x, y);
    }
    if p.Some? && q.Some? {
      AtMostTotal(p.value.id, q.value.id);
      SameIdSameFeedback(x.feedback, p.value, q.value);
    }
  }

  lemma SameFeedback(x: Context, y: Context)
    requires SameContext(x, y)
    ensures SameMembers(x.feedback, y.feedback) && DistinctIds(x.feedback)
  {
  }

  lemma SameIdSameFeedback(fs: seq<Feedback>, f: Feedback, g: Feedback)
    requires DistinctIds(fs) && f in fs && g in fs && f.id == g.id
    ensures f == g
  {
    var i :| 0 <= i < |fs| && fs[i] == f;
    var j :| 0 <= j < |fs| && fs[j] == g;
    assert i == j;
  }

  lemma {:induction false} UndeclinedAgrees(needs: seq<string>, c: Capability, x: Context, y: Context)
    requires SameContext(x, y)
    ensures Undeclined(needs, c, x) == Undeclined(needs, c, y)
  {
    hide SameContext;
    hide CanonicalSource;
    if needs != [] {
      UndeclinedAgrees(needs[..|needs| - 1], c, x, y);
      NewestAgrees(Source(CanonicalSource(c.source), needs[|needs| - 1]), x, y);
      SameScalars(x, y);
    }
  }

  lemma SameScalars(x: Context, y: Context)
    requires SameContext(x, y)
    ensures x.project == y.project && x.focus == y.focus && x.now == y.now
  {
  }

  lemma CardAgrees(c: Capability, x: Context, y: Context)
    requires SameContext(x, y)
    ensures CardOf(c, x) == CardOf(c, y)
  {
    hide CanonicalSource;
    hide Undeclined;
    hide Newest;
    hide DistinctIds;
    UndeclinedAgrees(Sort(Wanted(c.needs, x.focus), AtMost), c, x, y);
    assert IsExcluded(c, x) == IsExcluded(c, y);
    hide IsExcluded;
    var needs := OpenNeeds(c, x);
    if needs != [] {
      NewestAgrees(Resource(c.id, needs[0]), x, y);
    }
  }

  lemma {:induction false} CardsAgree(cs: seq<Capability>, x: Context, y: Context)
    requires SameContext(x, y)
    ensures Cards(cs, x) == Cards(cs, y)
  {
    hide CardOf;
    hide SameContext;
    if cs != [] {
      CardsAgree(cs[..|cs| - 1], x, y);
      CardAgrees(cs[|cs| - 1], x, y);
    }
  }

  lemma {:induction false} CardsAppend(a: seq<Capability>, b: seq<Capability>, x: Context)
    ensures Cards(a + b, x) == Cards(a, x) + Cards(b, x)
  {
    hide CardOf;
    if b == [] {
      assert a + b == a;
    } else {
      var front := b[..|b| - 1];
      CardsAppend(a, front, x);
      assert (a + b)[..|a + b| - 1] == a + front;
    }
  }

  lemma {:induction false} CardsPermute(a: seq<Capability>, b: seq<Capability>, x: Context)
    requires multiset(a) == multiset(b)
    ensures multiset(Cards(a, x)) == multiset(Cards(b, x))
  {
    hide CardOf;
    PermutedMembers(a, b);
    if a != [] {
      var front, last := a[..|a| - 1], a[|a| - 1];
      var l, r := WithoutLast(a, b);
      CardsPermute(front, l + r, x);
      hide Cards;
      CardsAppend(l, r, x);
      CardsAppend(l + [last], r, x);
      CardsAppend(l, [last], x);
      CardsAppend(front, [last], x);
      assert a == front + [last];
      Inserted(Cards(front, x), Cards(l, x), Cards(r, x), Cards([last], x));
    }
  }

  lemma Inserted<T>(whole: seq<T>, l: seq<T>, r: seq<T>, x: seq<T>)
    requires multiset(whole) == multiset(l + r)
    ensures multiset(whole + x) == multiset(l + x + r)
  {
  }

  lemma {:induction false} CardsComeFrom(cs: seq<Capability>, x: Context, card: Card)
    ensures card in Cards(cs, x) <==> card.resource in cs && CardOf(card.resource, x) == Some(card)
  {
    hide IsExcluded;
    hide OpenNeeds;
    hide BenefitOf;
    if cs != [] {
      CardsComeFrom(cs[..|cs| - 1], x, card);
      assert cs == cs[..|cs| - 1] + [cs[|cs| - 1]];
    }
  }

  lemma RanksIsTotal()
    ensures IsTotalPreorder(Ranks)
  {
    forall a, b: Card ensures Ranks(a, b) || Ranks(b, a) {
      AtMostTotal(a.resource.id, b.resource.id);
    }
    forall a, b, c: Card | Ranks(a, b) && Ranks(b, c) ensures Ranks(a, c) {
      if AtMost(a.resource.id, b.resource.id) && AtMost(b.resource.id, c.resource.id) {
        AtMostTransitive(a.resource.id, b.resource.id, c.resource.id);
      }
    }
  }

  lemma SameIdSameResource(catalog: seq<Capability>, c: Capability, d: Capability)
    requires !HasDuplicate(catalog) && c in catalog && d in catalog && c.id == d.id
    ensures c == d
  {
    var i :| 0 <= i < |catalog| && catalog[i] == c;
    var j :| 0 <= j < |catalog| && catalog[j] == d;
    assert i == j;
  }

  lemma CardsDoNotTie(x: Context, a: Card, b: Card)
    requires !HasDuplicate(x.catalog) && a in Cards(x.catalog, x) && b in Cards(x.catalog, x)
    requires Ranks(a, b) && Ranks(b, a)
    ensures a == b
  {
    hide CardOf;
    CardsComeFrom(x.catalog, x, a);
    CardsComeFrom(x.catalog, x, b);
    AtMostTotal(a.resource.id, b.resource.id);
    SameIdSameResource(x.catalog, a.resource, b.resource);
  }

  lemma DuplicatesArePermuted(a: seq<Capability>, b: seq<Capability>)
    requires multiset(a) == multiset(b) && HasDuplicate(a)
    ensures HasDuplicate(b)
  {
    PermutedMembers(a, b);
    var i, j :| 0 <= i < j < |a| && a[i].id == a[j].id;
    if a[i] == a[j] {
      TwiceInSequence(a, i, j);
      TwiceMeansTwo(b, a[i]);
    } else {
      assert a[i] in b && a[j] in b;
      var p :| 0 <= p < |b| && b[p] == a[i];
      var q :| 0 <= q < |b| && b[q] == a[j];
      if p < q {
        assert b[p].id == b[q].id;
      } else {
        assert b[q].id == b[p].id;
      }
    }
  }

  /** Rearranging the catalog or the feedback leaves the recommendation unchanged. */
  lemma RecommendationIsOrderFree(x: Context, y: Context)
    requires y == x.(catalog := y.catalog, feedback := y.feedback)
    requires multiset(x.catalog) == multiset(y.catalog) && multiset(x.feedback) == multiset(y.feedback)
    requires DistinctIds(x.feedback)
    ensures Recommended(x) == Recommended(y)
  {
    hide Cards;
    hide Sort;
    hide Pick;
    hide Ranks;
    hide IsSorted;
    hide DistinctIds;
    hide IsTotalPreorder;
    hide HasDuplicate;
    PermutedMembers(x.catalog, y.catalog);
    PermutedMembers(x.feedback, y.feedback);
    if HasDuplicate(x.catalog) {
      DuplicatesArePermuted(x.catalog, y.catalog);
    } else if HasDuplicate(y.catalog) {
      DuplicatesArePermuted(y.catalog, x.catalog);
    } else {
      CardsAgree(y.catalog, x, y);
      CardsPermute(x.catalog, y.catalog, x);
      var p, q := Cards(x.catalog, x), Cards(y.catalog, y);
      RanksIsTotal();
      SortMeaning(p, Ranks);
      SortMeaning(q, Ranks);
      var s, t := Sort(p, Ranks), Sort(q, Ranks);
      forall a, b | a in s && b in s && Ranks(a, b) && Ranks(b, a) ensures a == b {
        assert a in multiset(s) && b in multiset(s);
        assert a in multiset(p) && b in multiset(p);
        CardsDoNotTie(x, a, b);
      }
      SortedIsUnique(s, t, Ranks);
    }
  }

  lemma {:induction false} PickIsRanked(cards: seq<Card>)
    requires IsSorted(cards, Ranks)
    ensures forall i, j | 0 <= i < j < |Pick(cards)| :: Ranks(Pick(cards)[i], Pick(cards)[j])
  {
    hide Clash;
    hide Ranks;
    if cards != [] {
      PickIsRanked(cards[..|cards| - 1]);
      PickIsApart(cards[..|cards| - 1]);
    }
  }

  /** At most three candidates come back, in rank order, and no two are of one source or one purpose. */
  lemma RecommendationIsApart(x: Context)
    requires Recommended(x).Ok?
    ensures var kept := Recommended(x).value;
      && |kept| <= 3
      && (forall k | k in kept :: k in Cards(x.catalog, x))
      && (forall i, j | 0 <= i < j < |kept| :: !Clash(kept[i], kept[j]) && Ranks(kept[i], kept[j]))
  {
    hide Cards;
    hide Sort;
    hide Pick;
    hide Ranks;
    hide Clash;
    hide IsSorted;
    hide IsTotalPreorder;
    hide HasDuplicate;
    var cards := Cards(x.catalog, x);
    var sorted := Sort(cards, Ranks);
    RanksIsTotal();
    SortMeaning(cards, Ranks);
    PickIsApart(sorted);
    PickIsRanked(sorted);
    forall k | k in sorted ensures k in cards {
      assert k in multiset(sorted);
    }
  }

  /** Each omitted candidate clashes with a kept card that ranks before it or is outranked by three kept cards. */
  lemma RecommendationIsGreedilyMaximal(x: Context, omitted: Card)
    requires Recommended(x).Ok? && x.focus.evidence != [] && x.focus.needs != []
    requires omitted in Cards(x.catalog, x) && omitted !in Recommended(x).value
    ensures var kept := Recommended(x).value;
      || (exists k | k in kept :: Ranks(k, omitted) && k != omitted && Clash(k, omitted))
      || (|kept| == 3 && forall k | k in kept :: Ranks(k, omitted) && k != omitted)
  {
    hide Cards;
    hide Sort;
    hide Pick;
    hide Ranks;
    hide Clash;
    hide IsSorted;
    hide IsTotalPreorder;
    hide HasDuplicate;
    var cards := Cards(x.catalog, x);
    var sorted := Sort(cards, Ranks);
    var kept := Recommended(x).value;
    RanksIsTotal();
    SortMeaning(cards, Ranks);
    assert omitted in multiset(sorted);
    var i :| 0 <= i < |sorted| && sorted[i] == omitted;
    PickIsGreedy(sorted, i);
    if j :| 0 <= j < i && sorted[j] in kept && Clash(sorted[j], omitted) {
      SortedAt(sorted, Ranks, j, i);
    } else {
      forall k | k in kept ensures Ranks(k, omitted) && k != omitted {
        assert k in sorted[..i];
        var j :| 0 <= j < i && sorted[j] == k;
        SortedAt(sorted, Ranks, j, i);
      }
    }
  }

  // ---------------------------------------------------------------- the loops

  method Recommend(x: Context) returns (r: Result<seq<Card>, Fault>)
    ensures r == Recommended(x)
  {
    hide CardOf;
    hide Ranks;
    hide CanonicalSource;
    if |x.catalog| > 100 || |x.feedback| > 1000 {
      return Err(DiscoveryLimit);
    }
    if x.focus.evidence == [] || x.focus.needs == [] {
      return Ok([]);
    }
    if HasDuplicate(x.catalog) {
      return Err(CatalogDuplicate);
    }
    var candidates: seq<Card> := [];
    var i := 0;
    while i < |x.catalog|
      invariant i <= |x.catalog| && candidates == Cards(x.catalog[..i], x)
    {
      assert x.catalog[..i + 1][..i] == x.catalog[..i];
      var card := CardOf(x.catalog[i], x);
      if card.Some? {
        candidates := candidates + [card.value];
      }
      i := i + 1;
    }
    assert x.catalog[..i] == x.catalog;
    candidates := Sort(candidates, Ranks);
    var kept := Deduplicate(candidates);
    return Ok(kept);
  }

  function Sources(cards: seq<Card>): set<string> {
    set k | k in cards :: CanonicalSource(k.resource.source)
  }

  function Purposes(cards: seq<Card>): set<string> {
    set k | k in cards && k.resource.equivalence.Some? :: k.resource.equivalence.value
  }

  /** Passes once over the ranked cards with the sources and purposes seen so far. */
  method Deduplicate(cards: seq<Card>) returns (result: seq<Card>)
    ensures result == Pick(cards)
  {
    hide CanonicalSource;
    var seen: set<string>, equivalents: set<string> := {}, {};
    result := [];
    var i := 0;
    while i < |cards|
      invariant i <= |cards| && result == Pick(cards[..i]) && |result| < 3
      invariant seen == Sources(result) && equivalents == Purposes(result)
    {
      var card := cards[i];
      assert cards[..i + 1][..i] == cards[..i];
      i := i + 1;
      var source, purpose := CanonicalSource(card.resource.source), card.resource.equivalence;
      SeenMeansClash(result, card);
      if source in seen || (purpose.Some? && purpose.value in equivalents) {
        continue;
      }
      SeenGrows(result, card);
      seen := seen + {source};
      if purpose.Some? {
        equivalents := equivalents + {purpose.value};
      }
      result := result + [card];
      if |result| == 3 {
        PickStops(cards, i);
        return;
      }
    }
    assert cards[..i] == cards;
  }

  lemma SeenMeansClash(kept: seq<Card>, card: Card)
    ensures (exists k | k in kept :: Clash(k, card)) <==>
      CanonicalSource(card.resource.source) in Sources(kept)
      || (card.resource.equivalence.Some? && card.resource.equivalence.value in Purposes(kept))
  {
    hide CanonicalSource;
    if k :| k in kept && Clash(k, card) {
      assert CanonicalSource(k.resource.source) in Sources(kept);
    }
  }

  lemma SeenGrows(kept: seq<Card>, card: Card)
    ensures Sources(kept + [card]) == Sources(kept) + {CanonicalSource(card.resource.source)}
    ensures Purposes(kept + [card]) == Purposes(kept)
      + (if card.resource.equivalence.Some? then {card.resource.equivalence.value} else {})
  {
    hide CanonicalSource;
    forall k | k in kept ensures k in kept + [card] {
    }
    assert card in kept + [card];
  }

  lemma {:induction false} PickStops(cards: seq<Card>, i: nat)
    requires i <= |cards| && |Pick(cards[..i])| == 3
    ensures Pick(cards) == Pick(cards[..i])
    decreases |cards|
  {
    if i == |cards| {
      assert cards[..i] == cards;
    } else {
      assert cards[..|cards| - 1][..i] == cards[..i];
      PickStops(cards[..|cards| - 1], i);
    }
  }
}
