/** The order of strings and stable sorting by a total preorder. */
module Ordering {

  /** Lexicographic order. */
  predicate AtMost(a: string, b: string) {
    a == [] || (b != [] && (a[0] < b[0] || (a[0] == b[0] && AtMost(a[1..], b[1..]))))
  }

  lemma {:induction false} AtMostTotal(a: string, b: string)
    ensures AtMost(a, b) || AtMost(b, a)
    ensures AtMost(a, b) && AtMost(b, a) ==> a == b
    ensures AtMost(a, a)
  {
    if a != [] {
      AtMostTotal(a[1..], if b == [] then [] else b[1..]);
      if b != [] && AtMost(a, b) && AtMost(b, a) {
        assert a == [a[0]] + a[1..] && b == [b[0]] + b[1..];
      }
    }
  }

  lemma {:induction false} AtMostTransitive(a: string, b: string, c: string)
    requires AtMost(a, b) && AtMost(b, c)
    ensures AtMost(a, c)
  {
    if a != [] && a[0] == b[0] && b[0] == c[0] {
      AtMostTransitive(a[1..], b[1..], c[1..]);
    }
  }

  // ---------------------------------------------------------------- sorting

  type Order<!T> = (T, T) -> bool

  ghost predicate IsTotalPreorder<T(!new)>(leq: Order<T>) {
    && (forall x, y :: leq(x, y) || leq(y, x))
    && (forall x, y, z :: leq(x, y) && leq(y, z) ==> leq(x, z))
  }

  lemma Transitive<T(!new)>(leq: Order<T>, x: T, y: T, z: T)
    requires IsTotalPreorder(leq) && leq(x, y) && leq(y, z)
    ensures leq(x, z)
  {
  }

  lemma Connected<T(!new)>(leq: Order<T>, x: T, y: T)
    requires IsTotalPreorder(leq)
    ensures leq(x, y) || leq(y, x)
  {
  }

  ghost predicate AllAtMost<T>(s: seq<T>, x: T, leq: Order<T>) {
    forall y | y in s :: leq(y, x)
  }

  ghost predicate IsSorted<T>(s: seq<T>, leq: Order<T>) {
    s == [] || (AllAtMost(s[..|s| - 1], s[|s| - 1], leq) && IsSorted(s[..|s| - 1], leq))
  }

  /** Places an element behind everything it is not strictly below. */
  function Place<T>(s: seq<T>, x: T, leq: Order<T>): seq<T> {
    if s == [] || leq(s[|s| - 1], x) then s + [x]
    else Place(s[..|s| - 1], x, leq) + [s[|s| - 1]]
  }

  /** The stable sort of a sequence. */
  function Sort<T>(s: seq<T>, leq: Order<T>): seq<T> {
    if s == [] then [] else Place(Sort(s[..|s| - 1], leq), s[|s| - 1], leq)
  }

  lemma SortedSnoc<T>(s: seq<T>, x: T, leq: Order<T>)
    ensures IsSorted(s + [x], leq) <==> AllAtMost(s, x, leq) && IsSorted(s, leq)
  {
    assert (s + [x])[..|s|] == s;
  }

  lemma {:induction false} PlaceMeaning<T(!new)>(s: seq<T>, x: T, leq: Order<T>)
    requires IsTotalPreorder(leq) && IsSorted(s, leq)
    ensures IsSorted(Place(s, x, leq), leq)
    ensures multiset(Place(s, x, leq)) == multiset(s) + multiset{x}
  {
    hide IsTotalPreorder;
    hide IsSorted;
    if s == [] {
      SortedSnoc(s, x, leq);
      NothingSorted(leq);
    } else {
      var front, last := s[..|s| - 1], s[|s| - 1];
      assert s == front + [last];
      SortedSnoc(front, last, leq);
      Connected(leq, last, x);
      if leq(last, x) {
        forall y | y in s ensures leq(y, x) {
          if y in front {
            Transitive(leq, y, last, x);
          }
        }
        SortedSnoc(s, x, leq);
      } else {
        PlaceMeaning(front, x, leq);
        var placed := Place(front, x, leq);
        forall y | y in placed ensures leq(y, last) {
          assert y in multiset(placed);
        }
        SortedSnoc(placed, last, leq);
      }
    }
  }

  lemma NothingSorted<T>(leq: Order<T>)
    ensures IsSorted([], leq)
  {
  }

  /** Sorting orders a sequence and keeps its elements. */
  lemma {:induction false} SortMeaning<T(!new)>(s: seq<T>, leq: Order<T>)
    requires IsTotalPreorder(leq)
    ensures IsSorted(Sort(s, leq), leq)
    ensures multiset(Sort(s, leq)) == multiset(s)
  {
    hide IsTotalPreorder;
    hide IsSorted;
    hide Place;
    NothingSorted(leq);
    if s != [] {
      SortMeaning(s[..|s| - 1], leq);
      PlaceMeaning(Sort(s[..|s| - 1], leq), s[|s| - 1], leq);
      assert s == s[..|s| - 1] + [s[|s| - 1]];
    }
  }

  /** No two different elements tie. */
  ghost predicate NoTies<T>(s: seq<T>, leq: Order<T>) {
    forall x, y | x in s && y in s && leq(x, y) && leq(y, x) :: x == y
  }

  /** Two sorted arrangements of the same elements are equal when no two elements tie. */
  lemma {:induction false} SortedIsUnique<T>(a: seq<T>, b: seq<T>, leq: Order<T>)
    requires IsSorted(a, leq) && IsSorted(b, leq)
    requires multiset(a) == multiset(b) && NoTies(a, leq)
    ensures a == b
    decreases |a|
  {
    assert |a| == |multiset(a)| == |multiset(b)| == |b|;
    if a != [] {
      var m := |a| - 1;
      var x, y := a[m], b[m];
      LastIsTop(a, y, leq);
      LastIsTop(b, x, leq);
      assert x == y by {
        assert x in a && y in multiset(a);
      }
      assert a == a[..m] + [x] && b == b[..m] + [y];
      assert multiset(a[..m]) == multiset(a) - multiset{x};
      assert multiset(b[..m]) == multiset(b) - multiset{y};
      SortedIsUnique(a[..m], b[..m], leq);
    }
  }

  lemma LastIsTop<T>(s: seq<T>, x: T, leq: Order<T>)
    requires s != [] && IsSorted(s, leq)
    ensures IsSorted(s[..|s| - 1], leq)
    ensures x in multiset(s) ==> x == s[|s| - 1] || leq(x, s[|s| - 1])
    ensures s[|s| - 1] in multiset(s)
  {
    assert s == s[..|s| - 1] + [s[|s| - 1]];
  }

  /** In a sorted sequence what stands earlier is at most what stands later. */
  lemma {:induction false} SortedAt<T>(s: seq<T>, leq: Order<T>, i: nat, j: nat)
    requires IsSorted(s, leq) && i < j < |s|
    ensures leq(s[i], s[j])
  {
    if j < |s| - 1 {
      SortedAt(s[..|s| - 1], leq, i, j);
    } else {
      assert s[..j][i] in s[..j];
    }
  }

  // ---------------------------------------------------------------- rearrangements

  ghost predicate SameMembers<T(!new)>(a: seq<T>, b: seq<T>) {
    forall t :: t in a <==> t in b
  }

  lemma PermutedMembers<T(!new)>(a: seq<T>, b: seq<T>)
    requires multiset(a) == multiset(b)
    ensures SameMembers(a, b) && |a| == |b|
  {
    assert |a| == |multiset(a)| == |multiset(b)| == |b|;
    forall t ensures t in a <==> t in b {
      assert t in a <==> t in multiset(a);
      assert t in b <==> t in multiset(b);
    }
  }

  lemma WithoutLast<T(!new)>(a: seq<T>, b: seq<T>) returns (l: seq<T>, r: seq<T>)
    requires multiset(a) == multiset(b) && a != []
    ensures b == l + [a[|a| - 1]] + r && multiset(a[..|a| - 1]) == multiset(l + r)
  {
    var front, last := a[..|a| - 1], a[|a| - 1];
    PermutedMembers(a, b);
    assert a == front + [last] && last in b;
    var j :| 0 <= j < |b| && b[j] == last;
    l, r := b[..j], b[j + 1..];
    assert b == l + [last] + r;
    assert multiset(l + r) == multiset(l) + multiset(r);
    Cancel(multiset(front), multiset(l) + multiset(r), last);
  }

  lemma Cancel<T>(p: multiset<T>, q: multiset<T>, x: T)
    requires p + multiset{x} == q + multiset{x}
    ensures p == q
  {
    forall t ensures p[t] == q[t] {
      assert (p + multiset{x})[t] == (q + multiset{x})[t];
    }
  }

  lemma TwiceInSequence<T>(a: seq<T>, i: nat, j: nat)
    requires i < j < |a| && a[i] == a[j]
    ensures multiset(a)[a[i]] >= 2
  {
    assert a == a[..j] + [a[j]] + a[j + 1..];
    assert a[i] == a[..j][i];
    assert multiset(a[..j])[a[i]] >= 1;
    assert multiset(a) == multiset(a[..j]) + multiset{a[j]} + multiset(a[j + 1..]);
  }

  lemma {:induction false} TwiceMeansTwo<T>(b: seq<T>, c: T)
    requires multiset(b)[c] >= 2
    ensures exists i, j | 0 <= i < j < |b| :: b[i] == c && b[j] == c
  {
    var front, last := b[..|b| - 1], b[|b| - 1];
    assert b == front + [last];
    if last == c {
      assert c in multiset(front);
      var i :| 0 <= i < |front| && front[i] == c;
      assert b[i] == c && b[|front|] == c;
    } else {
      TwiceMeansTwo(front, c);
      var i, j :| 0 <= i < j < |front| && front[i] == c && front[j] == c;
      assert b[i] == c && b[j] == c;
    }
  }

  /** Two positions of a sequence have two positions in any rearrangement. */
  lemma TwoPlaces<T(!new)>(a: seq<T>, b: seq<T>, i: nat, j: nat) returns (p: nat, q: nat)
    requires multiset(a) == multiset(b) && i < j < |a|
    ensures p < q < |b| && {b[p], b[q]} == {a[i], a[j]}
  {
    if a[i] == a[j] {
      TwiceInSequence(a, i, j);
      TwiceMeansTwo(b, a[i]);
      p, q :| 0 <= p < q < |b| && b[p] == a[i] && b[q] == a[i];
    } else {
      PermutedMembers(a, b);
      assert a[i] in b && a[j] in b;
      p :| 0 <= p < |b| && b[p] == a[i];
      q :| 0 <= q < |b| && b[q] == a[j];
      if q < p {
        p, q := q, p;
      }
    }
  }
}
