/**
 * What a recommendation is made of, told from the catalog, the focus and the feedback alone: which
 * capabilities qualify and for which need, when two sources are one, and which candidates are kept.
 */
module Recommendations {
  import opened Prelude
  import opened Control
  import opened Ordering
  import opened Discovery

  // ---------------------------------------------------------------- one source

  predicate AllSlashes(s: string) {
    forall c | c in s :: c == '/'
  }

  /** The source as scheme, host and path; behind the host or the path any number of slashes may stand. */
  ghost predicate ReadsAs(s: string, scheme: string, host: string, path: string) {
    && |scheme| <= |s| && (forall i | 0 <= i < |scheme| :: !("://" <= s[i..]))
    && '/' !in host && (path == "" || path[|path| - 1] != '/')
    && ((s == scheme + "://" + host && path == "")
        || exists slashes :: AllSlashes(slashes) && s == scheme + "://" + host + "/" + path + slashes)
  }

  /** Both name a scheme, and they differ at most in the case of scheme and host and in trailing slashes. */
  ghost predicate SameParts(a: string, b: string) {
    exists scheme, host, path, other, otherHost ::
      && ReadsAs(a, scheme, host, path) && ReadsAs(b, other, otherHost, path)
      && Lower(scheme) == Lower(other) && Lower(host) == Lower(otherHost)
  }

  lemma {:induction false} SchemeIsFirst(s: string, scheme: string, rest: string)
    requires s == scheme + "://" + rest && forall i | 0 <= i < |scheme| :: !("://" <= s[i..])
    ensures SplitScheme(s) == Some((scheme, rest))
  {
    if scheme == [] {
      assert s[..3] == "://" && s[3..] == rest;
    } else {
      assert s[0..] == s && scheme == [scheme[0]] + scheme[1..];
      assert s[..3] == "://" ==> "://" <= s;
      assert s[1..] == scheme[1..] + "://" + rest;
      forall i | 0 <= i < |scheme[1..]| ensures !("://" <= s[1..][i..]) {
        assert s[1..][i..] == s[i + 1..];
      }
      SchemeIsFirst(s[1..], scheme[1..], rest);
    }
  }

  lemma {:induction false} NothingBeforeScheme(s: string)
    requires SplitScheme(s).Some?
    ensures var (scheme, rest) := SplitScheme(s).value;
      s == scheme + "://" + rest && forall i | 0 <= i < |scheme| :: !("://" <= s[i..])
  {
    SplitSchemeJoins(s, []);
    var (scheme, rest) := SplitScheme(s).value;
    if s[..3] != "://" {
      NothingBeforeScheme(s[1..]);
      forall i | 0 <= i < |scheme| ensures !("://" <= s[i..]) {
        if i == 0 {
          assert s[0..] == s;
        } else {
          assert s[1..][i - 1..] == s[i..];
        }
      }
    }
  }

  lemma {:induction false} HostIsFirst(s: string, host: string, tail: string)
    requires '/' !in host
    ensures s == host ==> SplitHost(s) == (host, [])
    ensures s == host + "/" + tail ==> SplitHost(s) == (host, tail)
  {
    if host == [] {
      assert s == "/" + tail ==> s[1..] == tail;
    } else {
      assert host[0] in host && host == [host[0]] + host[1..];
      if s == host || s == host + "/" + tail {
        assert s[1..] == host[1..] || s[1..] == host[1..] + "/" + tail;
        HostIsFirst(s[1..], host[1..], tail);
      }
    }
  }

  lemma {:induction false} HostAndRest(s: string)
    ensures var (host, path) := SplitHost(s); '/' !in host && (s == host + "/" + path || (s == host && path == []))
  {
    if s != [] && s[0] != '/' {
      HostAndRest(s[1..]);
    }
  }

  lemma {:induction false} TrimmedPath(path: string, slashes: string)
    requires AllSlashes(slashes) && (path == "" || path[|path| - 1] != '/')
    ensures TrimSlashes(path + slashes) == path
    decreases |slashes|
  {
    if slashes == [] {
      assert path + slashes == path;
    } else {
      var n, s := |slashes| - 1, path + slashes;
      assert s[|s| - 1] == slashes[n] && s[..|s| - 1] == path + slashes[..n];
      assert slashes[n] in slashes && forall c | c in slashes[..n] :: c in slashes;
      TrimmedPath(path, slashes[..n]);
    }
  }

  lemma {:induction false} TrimmedParts(s: string) returns (slashes: string)
    ensures AllSlashes(slashes) && s == TrimSlashes(s) + slashes
    ensures TrimSlashes(s) == "" || TrimSlashes(s)[|TrimSlashes(s)| - 1] != '/'
  {
    slashes := [];
    if s != [] && s[|s| - 1] == '/' {
      slashes := TrimmedParts(s[..|s| - 1]);
      slashes := slashes + "/";
    }
  }

  lemma ReadingDecides(s: string, scheme: string, host: string, path: string)
    requires ReadsAs(s, scheme, host, path)
    ensures SplitScheme(s).Some?
    ensures CanonicalSource(s) == Lower(scheme) + "://" + Lower(host) + "/" + path
  {
    hide Lower;
    if s == scheme + "://" + host && path == "" {
      SchemeIsFirst(s, scheme, host);
      HostIsFirst(host, host, []);
      TrimmedPath("", "");
    } else {
      var slashes :| AllSlashes(slashes) && s == scheme + "://" + host + "/" + path + slashes;
      var rest := host + "/" + (path + slashes);
      assert s == scheme + "://" + rest;
      SchemeIsFirst(s, scheme, rest);
      HostIsFirst(rest, host, path + slashes);
      TrimmedPath(path, slashes);
    }
  }

  lemma ReadingExists(s: string) returns (scheme: string, host: string, path: string)
    requires SplitScheme(s).Some?
    ensures ReadsAs(s, scheme, host, path)
  {
    hide SplitScheme;
    hide SplitHost;
    hide TrimSlashes;
    var rest, tail;
    scheme, rest := SplitScheme(s).value.0, SplitScheme(s).value.1;
    NothingBeforeScheme(s);
    host, tail := SplitHost(rest).0, SplitHost(rest).1;
    HostAndRest(rest);
    path := TrimSlashes(tail);
    var slashes := TrimmedParts(tail);
    Regathered(scheme, host, path, slashes);
    assert |scheme| <= |s|;
    if rest != host + "/" + tail {
      TrimmedPath("", "");
    }
  }

  lemma Regathered(scheme: string, host: string, path: string, slashes: string)
    ensures scheme + "://" + (host + "/" + (path + slashes)) == scheme + "://" + host + "/" + path + slashes
  {
  }

  /** The canonical forms agree exactly when the sources do, up to the case of scheme and host and trailing slashes. */
  lemma CanonicalMeaning(a: string, b: string)
    ensures CanonicalSource(a) == CanonicalSource(b) <==> a == b || SameParts(a, b)
  {
    hide Lower;
    hide SplitScheme;
    hide ReadsAs;
    if SameParts(a, b) {
      var scheme, host, path, other, otherHost :|
        && ReadsAs(a, scheme, host, path) && ReadsAs(b, other, otherHost, path)
        && Lower(scheme) == Lower(other) && Lower(host) == Lower(otherHost);
      ReadingDecides(a, scheme, host, path);
      ReadingDecides(b, other, otherHost, path);
    } else if CanonicalSource(a) == CanonicalSource(b) {
      CanonicalHasScheme(a);
      CanonicalHasScheme(b);
      if SplitScheme(a).Some? {
        var scheme, host, path := ReadingExists(a);
        var other, otherHost, otherPath := ReadingExists(b);
        ReadingDecides(a, scheme, host, path);
        ReadingDecides(b, other, otherHost, otherPath);
        PartsAreEqual(a, scheme, host, path, b, other, otherHost, otherPath);
      }
    }
  }

  lemma CanonicalHasScheme(s: string)
    ensures SplitScheme(CanonicalSource(s)).Some? <==> SplitScheme(s).Some?
    ensures SplitScheme(s).None? ==> CanonicalSource(s) == s
  {
    hide SplitScheme;
    hide SplitHost;
    hide Lower;
    hide TrimSlashes;
    if SplitScheme(s).Some? {
      var (scheme, rest) := SplitScheme(s).value;
      var (host, path) := SplitHost(rest);
      SplitSchemeJoins(s, Lower(host) + "/" + TrimSlashes(path));
      Grouped(Lower(scheme), Lower(host), TrimSlashes(path));
    }
  }

  lemma Grouped(x: string, y: string, z: string)
    ensures x + "://" + y + "/" + z == x + "://" + (y + "/" + z)
  {
  }

  lemma PartsAreEqual(
    a: string, scheme: string, host: string, path: string,
    b: string, other: string, otherHost: string, otherPath: string)
    requires ReadsAs(a, scheme, host, path) && ReadsAs(b, other, otherHost, otherPath)
    requires Lower(scheme) + "://" + Lower(host) + "/" + path ==
      Lower(other) + "://" + Lower(otherHost) + "/" + otherPath
    ensures Lower(scheme) == Lower(other) && Lower(host) == Lower(otherHost) && path == otherPath
  {
    LoweredSplit(a, scheme, host, path, Lower(host) + "/" + path);
    LoweredSplit(b, other, otherHost, otherPath, Lower(otherHost) + "/" + otherPath);
    LoweredHost(host);
    LoweredHost(otherHost);
    hide Lower;
    JoinsAreEqual(Lower(scheme), Lower(host), path, Lower(other), Lower(otherHost), otherPath);
  }

  lemma JoinsAreEqual(x: string, y: string, z: string, u: string, v: string, w: string)
    requires x + "://" + y + "/" + z == u + "://" + v + "/" + w && '/' !in y && '/' !in v
    requires SplitScheme(x + "://" + (y + "/" + z)) == Some((x, y + "/" + z))
    requires SplitScheme(u + "://" + (v + "/" + w)) == Some((u, v + "/" + w))
    ensures x == u && y == v && z == w
  {
    hide SplitScheme;
    hide SplitHost;
    Grouped(x, y, z);
    Grouped(u, v, w);
    HostIsFirst(y + "/" + z, y, z);
    HostIsFirst(v + "/" + w, v, w);
  }

  lemma LoweredHost(host: string)
    ensures '/' !in host ==> '/' !in Lower(host)
  {
    assert forall i | 0 <= i < |host| :: Lower(host)[i] == LowerChar(host[i]) && host[i] in host;
    assert forall c | c in Lower(host) :: exists i | 0 <= i < |host| :: c == LowerChar(host[i]);
  }

  lemma LoweredSplit(s: string, scheme: string, host: string, path: string, tail: string)
    requires ReadsAs(s, scheme, host, path)
    ensures SplitScheme(Lower(scheme) + "://" + tail) == Some((Lower(scheme), tail))
  {
    hide Lower;
    if s == scheme + "://" + host && path == "" {
      SchemeIsFirst(s, scheme, host);
    } else {
      var slashes :| AllSlashes(slashes) && s == scheme + "://" + host + "/" + path + slashes;
      assert s == scheme + "://" + (host + "/" + path + slashes);
      SchemeIsFirst(s, scheme, host + "/" + path + slashes);
    }
    SplitSchemeJoins(s, tail);
  }

  // ---------------------------------------------------------------- feedback

  /** The feedback is about the topic in this project, and was recorded by now. */
  predicate Concerns(f: Feedback, topic: Topic, x: Context) {
    && f.project == x.project && f.recordedAt <= x.now && f.need == topic.need
    && match topic
       case Resource(id, _) => f.resource == id
       case Source(canonical, _) =>
         exists a | a in x.catalog :: a.id == f.resource && CanonicalSource(a.source) == canonical
  }

  /** The newest feedback about the topic, ties going to the greater identifier. */
  ghost predicate IsLastWord(f: Feedback, topic: Topic, x: Context) {
    && f in x.feedback && Concerns(f, topic, x)
    && forall g | g in x.feedback && Concerns(g, topic, x) ::
         g.recordedAt < f.recordedAt || (g.recordedAt == f.recordedAt && AtMost(g.id, f.id))
  }

  lemma LastWordMeaning(topic: Topic, x: Context, f: Feedback)
    requires DistinctIds(x.feedback)
    ensures Newest(x.feedback, topic, x) == Some(f) <==> IsLastWord(f, topic, x)
    ensures Newest(x.feedback, topic, x).None? ==> forall g | g in x.feedback :: !Concerns(g, topic, x)
  {
    NewestMeaning(x.feedback, topic, x);
    forall g ensures IsAbout(g, topic, x) <==> Concerns(g, topic, x) {
    }
    hide IsAbout;
    hide Concerns;
    var n := Newest(x.feedback, topic, x);
    if IsLastWord(f, topic, x) && n.Some? {
      AtMostTotal(n.value.id, f.id);
      SameIdSameFeedback(x.feedback, n.value, f);
    }
  }

  /** The last word on the capability's source, for this need, is a dismissal, or a snooze that still runs. */
  ghost predicate IsTurnedDown(c: Capability, need: string, x: Context) {
    exists f ::
      && IsLastWord(f, Source(CanonicalSource(c.source), need), x)
      && (f.disposition == "dismissed" || (f.disposition == "snoozed" && f.until.Some? && x.now < f.until.value))
  }

  lemma DeclinedMeaning(c: Capability, need: string, x: Context)
    requires DistinctIds(x.feedback)
    ensures IsDeclined(c, need, x) <==> IsTurnedDown(c, need, x)
  {
    hide IsLastWord;
    var topic := Source(CanonicalSource(c.source), need);
    var n := Newest(x.feedback, topic, x);
    if n.Some? {
      LastWordMeaning(topic, x, n.value);
    }
    if f :| IsLastWord(f, topic, x) {
      LastWordMeaning(topic, x, f);
    }
    forall f ensures IsLastWord(f, topic, x) <==> n == Some(f) {
      LastWordMeaning(topic, x, f);
    }
  }

  // ---------------------------------------------------------------- candidates

  /** Reviewed by now, not blocked itself or through another entry of its source, and within the focus. */
  predicate IsEligible(c: Capability, x: Context) {
    && c.reviewStatus == "reviewed" && c.reviewedAt <= x.now
    && c.id !in x.focus.blocked
    && (forall a | a in x.catalog && a.id in x.focus.blocked :: CanonicalSource(a.source) != CanonicalSource(c.source))
    && (x.focus.freeOnly ==> c.cost != "paid") && (x.focus.localOnly ==> c.privacy != "external")
    && (c.platforms != [] ==> x.focus.platform in c.platforms || "platform_neutral" in c.platforms)
  }

  /** A need of the focus the capability serves and that was not turned down. */
  ghost predicate IsOpen(c: Capability, need: string, x: Context) {
    need in c.needs && need in x.focus.needs && !IsTurnedDown(c, need, x)
  }

  /** A trial of the very revision on offer. */
  ghost predicate IsTrial(f: Feedback, c: Capability, need: string, x: Context) {
    IsLastWord(f, Resource(c.id, need), x) && f.disposition == "evaluated" && f.revision == Some(c.reviewRevision)
  }

  /** What such a trial found, if there was one. */
  ghost predicate IsBenefit(benefit: Benefit, c: Capability, need: string, x: Context) {
    && (benefit.Potential? <==> !exists f :: IsTrial(f, c, need, x))
    && forall f | IsTrial(f, c, need, x) ::
         && (benefit.ObservedUseful? <==> f.outcome == "useful")
         && (benefit.NotUseful? <==> f.outcome == "not_useful")
  }

  /** A card says of an eligible capability what the context says of it, for its first open need. */
  ghost predicate IsCandidate(k: Card, x: Context) {
    var c, stale := k.resource, x.now > k.resource.reviewedAt + k.resource.freshFor;
    && c in x.catalog && IsEligible(c, x)
    && IsOpen(c, k.need, x) && (forall need | IsOpen(c, need, x) :: AtMost(k.need, need))
    && (k.available <==> c.id in x.focus.existing)
    && (k.stale <==> stale)
    && (k.unknown <==>
          || (x.focus.freeOnly && c.cost == "unknown") || (x.focus.localOnly && c.privacy == "unknown")
          || c.platforms == [] || stale)
    && IsBenefit(k.benefit, c, k.need, x)
  }

  lemma EligibleMeaning(c: Capability, x: Context)
    ensures IsExcluded(c, x) <==> !IsEligible(c, x)
  {
    hide CanonicalSource;
  }

  lemma BenefitMeaning(c: Capability, need: string, x: Context, benefit: Benefit)
    requires DistinctIds(x.feedback)
    ensures benefit == BenefitOf(c, need, x) <==> IsBenefit(benefit, c, need, x)
  {
    hide IsLastWord;
    var topic := Resource(c.id, need);
    var n := Newest(x.feedback, topic, x);
    forall f ensures IsLastWord(f, topic, x) <==> n == Some(f) {
      LastWordMeaning(topic, x, f);
    }
    if n.Some? {
      assert IsTrial(n.value, c, need, x) <==>
        n.value.disposition == "evaluated" && n.value.revision == Some(c.reviewRevision);
    }
  }

  lemma {:induction false} WantedMeaning(needs: seq<string>, focus: Focus, need: string)
    ensures need in Wanted(needs, focus) <==> need in needs && need in focus.needs
  {
    if needs != [] {
      WantedMeaning(needs[..|needs| - 1], focus, need);
      assert needs == needs[..|needs| - 1] + [needs[|needs| - 1]];
    }
  }

  lemma {:induction false} UndeclinedMeaning(needs: seq<string>, c: Capability, x: Context, need: string)
    ensures need in Undeclined(needs, c, x) <==> need in needs && !IsDeclined(c, need, x)
  {
    hide IsDeclined;
    if needs != [] {
      UndeclinedMeaning(needs[..|needs| - 1], c, x, need);
      assert needs == needs[..|needs| - 1] + [needs[|needs| - 1]];
    }
  }

  lemma {:induction false} UndeclinedKeepsOrder(needs: seq<string>, c: Capability, x: Context)
    requires IsSorted(needs, AtMost)
    ensures IsSorted(Undeclined(needs, c, x), AtMost)
  {
    hide IsDeclined;
    if needs != [] {
      var front, last := needs[..|needs| - 1], needs[|needs| - 1];
      UndeclinedKeepsOrder(front, c, x);
      var kept := Undeclined(front, c, x);
      if !IsDeclined(c, last, x) {
        forall n | n in kept ensures AtMost(n, last) {
          UndeclinedMeaning(front, c, x, n);
        }
        SortedSnoc(kept, last, AtMost);
      } else {
        assert Undeclined(needs, c, x) == kept;
      }
    }
  }

  lemma NamesAreOrdered()
    ensures IsTotalPreorder(AtMost)
  {
    forall a, b ensures AtMost(a, b) || AtMost(b, a) {
      AtMostTotal(a, b);
    }
    forall a, b, c | AtMost(a, b) && AtMost(b, c) ensures AtMost(a, c) {
      AtMostTransitive(a, b, c);
    }
  }

  /** The needs a capability is offered for, in alphabetical order. */
  lemma OpenNeedsMeaning(c: Capability, x: Context)
    requires DistinctIds(x.feedback)
    ensures IsSorted(OpenNeeds(c, x), AtMost)
    ensures forall need :: need in OpenNeeds(c, x) <==> IsOpen(c, need, x)
  {
    hide IsSorted;
    hide IsTurnedDown;
    hide IsDeclined;
    hide Sort;
    hide IsTotalPreorder;
    var wanted := Wanted(c.needs, x.focus);
    NamesAreOrdered();
    SortMeaning(wanted, AtMost);
    UndeclinedKeepsOrder(Sort(wanted, AtMost), c, x);
    forall need ensures need in OpenNeeds(c, x) <==> IsOpen(c, need, x) {
      WantedMeaning(c.needs, x.focus, need);
      PermutedMembers(Sort(wanted, AtMost), wanted);
      UndeclinedMeaning(Sort(wanted, AtMost), c, x, need);
      DeclinedMeaning(c, need, x);
    }
  }

  lemma FirstIsLeast(s: seq<string>, need: string)
    requires IsSorted(s, AtMost) && need in s
    ensures AtMost(s[0], need)
  {
    hide IsSorted;
    var i :| 0 <= i < |s| && s[i] == need;
    if i > 0 {
      SortedAt(s, AtMost, 0, i);
    } else {
      AtMostTotal(need, need);
    }
  }

  /** The candidates are exactly the cards that say of an eligible capability what is so. */
  lemma CardMeaning(k: Card, x: Context)
    requires DistinctIds(x.feedback)
    ensures k in Cards(x.catalog, x) <==> IsCandidate(k, x)
  {
    hide IsExcluded;
    hide IsEligible;
    hide IsOpen;
    hide IsBenefit;
    hide BenefitOf;
    hide OpenNeeds;
    hide IsSorted;
    hide Cards;
    var c := k.resource;
    CardsComeFrom(x.catalog, x, k);
    EligibleMeaning(c, x);
    OpenNeedsMeaning(c, x);
    var needs := OpenNeeds(c, x);
    BenefitMeaning(c, k.need, x, k.benefit);
    forall need | need in needs ensures AtMost(needs[0], need) {
      FirstIsLeast(needs, need);
    }
    if needs != [] {
      assert needs[0] in needs;
      AtMostTotal(needs[0], k.need);
    }
  }

  // ---------------------------------------------------------------- the recommendation

  /** Known before unknown, then at hand before new, then fresh before stale, then by identifier. */
  predicate ComesFirst(a: Card, b: Card) {
    if a.unknown != b.unknown then b.unknown
    else if a.available != b.available then a.available
    else if a.stale != b.stale then b.stale
    else AtMost(a.resource.id, b.resource.id)
  }

  /** One would do for the other: one source, or one stated purpose. */
  predicate IsSubstitute(a: Card, b: Card) {
    || CanonicalSource(a.resource.source) == CanonicalSource(b.resource.source)
    || (a.resource.equivalence.Some? && b.resource.equivalence == a.resource.equivalence)
  }

  /**
   * A recommendation is at most three candidates, in order of rank and no two of them substitutes, and it
   * leaves a candidate out only for a substitute or three that come first. It fails exactly for too many
   * entries, or for two entries of one identifier when the focus asks for anything.
   */
  lemma RecommendationMeaning(x: Context)
    requires DistinctIds(x.feedback)
    ensures var asked := x.focus.evidence != [] && x.focus.needs != [];
      && (Recommended(x).Ok? <==>
            && |x.catalog| <= 100 && |x.feedback| <= 1000
            && (asked ==> forall i, j | 0 <= i < j < |x.catalog| :: x.catalog[i].id != x.catalog[j].id))
      && (Recommended(x).Ok? && !asked ==> Recommended(x).value == [])
      && (Recommended(x).Ok? && asked ==>
            var kept := Recommended(x).value;
            && |kept| <= 3 && (forall k | k in kept :: IsCandidate(k, x))
            && (forall i, j | 0 <= i < j < |kept| :: !IsSubstitute(kept[i], kept[j]) && ComesFirst(kept[i], kept[j]))
            && (forall k | IsCandidate(k, x) && k !in kept ::
                  || (exists better | better in kept :: ComesFirst(better, k) && IsSubstitute(better, k))
                  || (|kept| == 3 && forall better | better in kept :: ComesFirst(better, k))))
  {
    hide IsCandidate;
    hide Cards;
    hide CanonicalSource;
    hide Pick;
    forall a, b ensures (Ranks(a, b) <==> ComesFirst(a, b)) && (Clash(a, b) <==> IsSubstitute(a, b)) {
    }
    if Recommended(x).Ok? && x.focus.evidence != [] && x.focus.needs != [] {
      hide Ranks;
      hide Clash;
      hide ComesFirst;
      hide IsSubstitute;
      RecommendationIsApart(x);
      var kept := Recommended(x).value;
      forall k | k in kept ensures IsCandidate(k, x) {
        CardMeaning(k, x);
      }
      forall k | IsCandidate(k, x) && k !in kept
        ensures || (exists better | better in kept :: ComesFirst(better, k) && IsSubstitute(better, k))
                || (|kept| == 3 && forall better | better in kept :: ComesFirst(better, k))
      {
        CardMeaning(k, x);
        RecommendationIsGreedilyMaximal(x, k);
      }
    }
  }
}
