/**
 * Sequence helpers shared by the handlers and the UI rules: order-preserving
 * filtering and mapping (the `for … push` loops of the source build exactly these),
 * and the stable sort that `Array.prototype.sort` and Dexie's `sortBy` perform.
 */
module Seqs {
  import opened Wrappers

  /** The elements of `s` satisfying `p`, in their original order. */
  function Filter<T>(p: T -> bool, s: seq<T>): (r: seq<T>)
    ensures |r| <= |s|
    ensures forall i :: 0 <= i < |r| ==> p(r[i])
  {
    if s == [] then []
    else Filter(p, s[..|s| - 1]) + (if p(s[|s| - 1]) then [s[|s| - 1]] else [])
  }

  /** The test that passes exactly where `p` fails. */
  function Not<T>(p: T -> bool): T -> bool
  {
    (x: T) => !p(x)
  }

  lemma {:induction false} FilterMembership<T>(p: T -> bool, s: seq<T>, x: T)
    ensures x in Filter(p, s) <==> x in s && p(x)
  {
    if s != [] {
      FilterMembership(p, s[..|s| - 1], x);
      assert s == s[..|s| - 1] + [s[|s| - 1]];
    }
  }

  lemma {:induction false} FilterAll<T>(p: T -> bool, s: seq<T>)
    requires forall i :: 0 <= i < |s| ==> p(s[i])
    ensures Filter(p, s) == s
  {
    if s != [] {
      FilterAll(p, s[..|s| - 1]);
    }
  }

  lemma {:induction false} FilterAppend<T>(p: T -> bool, a: seq<T>, b: seq<T>)
    ensures Filter(p, a + b) == Filter(p, a) + Filter(p, b)
    decreases |b|
  {
    if b == [] {
      assert a + b == a;
    } else {
      assert (a + b)[..|a + b| - 1] == a + b[..|b| - 1];
      FilterAppend(p, a, b[..|b| - 1]);
    }
  }

  /** Two tests that agree on the elements of `s` keep the same elements. */
  lemma {:induction false} FilterExt<T>(p: T -> bool, q: T -> bool, s: seq<T>)
    requires forall i :: 0 <= i < |s| ==> p(s[i]) == q(s[i])
    ensures Filter(p, s) == Filter(q, s)
  {
    if s != [] {
      FilterExt(p, q, s[..|s| - 1]);
    }
  }

  /** Filtering twice keeps the elements that pass both tests. */
  lemma {:induction false} FilterCompose<T>(p: T -> bool, q: T -> bool, r: T -> bool, s: seq<T>)
    requires forall i :: 0 <= i < |s| ==> r(s[i]) == (p(s[i]) && q(s[i]))
    ensures Filter(q, Filter(p, s)) == Filter(r, s)
  {
    if s != [] {
      var init := s[..|s| - 1];
      FilterCompose(p, q, r, init);
      var x := s[|s| - 1];
      FilterAppend(q, Filter(p, init), if p(x) then [x] else []);
    }
  }

  /** The elements a test keeps and the ones it drops together make up the whole sequence. */
  lemma {:induction false} FilterSplitsLength<T>(p: T -> bool, q: T -> bool, s: seq<T>)
    requires forall i :: 0 <= i < |s| ==> q(s[i]) == !p(s[i])
    ensures |Filter(p, s)| + |Filter(q, s)| == |s|
  {
    if s != [] {
      FilterSplitsLength(p, q, s[..|s| - 1]);
    }
  }

  /** Index of the first element of `s` satisfying `p`: what a loop that stops at the first match finds. */
  function Find<T>(p: T -> bool, s: seq<T>): (r: Option<nat>)
    ensures r.Some? ==> r.value < |s| && p(s[r.value]) && forall j :: 0 <= j < r.value ==> !p(s[j])
    ensures r.None? ==> forall j :: 0 <= j < |s| ==> !p(s[j])
  {
    if s == [] then None
    else if p(s[0]) then Some(0)
    else match Find(p, s[1..])
      case None => None
      case Some(k) => Some(k + 1)
  }

  /** Two tests that agree on every element find the same first match. */
  lemma FindExt<T>(p: T -> bool, q: T -> bool, s: seq<T>)
    requires forall i :: 0 <= i < |s| ==> p(s[i]) == q(s[i])
    ensures Find(p, s) == Find(q, s)
  {
    var a, b := Find(p, s), Find(q, s);
    if a.Some? && b.Some? {
      assert !(a.value < b.value) && !(b.value < a.value);
    }
  }

  /** One more element of a prefix: the step a loop over `s` takes. */
  lemma FilterStep<T>(p: T -> bool, s: seq<T>, i: nat)
    requires i < |s|
    ensures Filter(p, s[..i + 1]) == Filter(p, s[..i]) + (if p(s[i]) then [s[i]] else [])
  {
    assert s[..i + 1][..i] == s[..i];
  }

  /** `f` applied to every element, in order. */
  function Map<T, U>(f: T -> U, s: seq<T>): (r: seq<U>)
    ensures |r| == |s|
    ensures forall i :: 0 <= i < |s| ==> r[i] == f(s[i])
  {
    if s == [] then [] else Map(f, s[..|s| - 1]) + [f(s[|s| - 1])]
  }

  lemma MapAppend<T, U>(f: T -> U, s: seq<T>, x: T)
    ensures Map(f, s + [x]) == Map(f, s) + [f(x)]
  {
    assert (s + [x])[..|s|] == s;
  }

  /** `s.slice().reverse()`. */
  function Reverse<T>(s: seq<T>): (r: seq<T>)
    ensures |r| == |s|
    ensures forall i :: 0 <= i < |s| ==> r[i] == s[|s| - 1 - i]
  {
    if s == [] then [] else [s[|s| - 1]] + Reverse(s[..|s| - 1])
  }

  /** No element occurs twice. */
  predicate Distinct<T(==)>(s: seq<T>)
  {
    forall i, j :: 0 <= i < j < |s| ==> s[i] != s[j]
  }

  /** Number of elements of `s` satisfying `p`. */
  function Count<T>(p: T -> bool, s: seq<T>): (n: nat)
    ensures n == |Filter(p, s)|
  {
    if s == [] then 0 else Count(p, s[..|s| - 1]) + (if p(s[|s| - 1]) then 1 else 0)
  }

  /** `leq` orders the elements of `s` totally and transitively (a total preorder on them). */
  ghost predicate TotalPreorderOn<T>(leq: (T, T) -> bool, s: seq<T>)
  {
    && (forall a, b :: a in s && b in s ==> leq(a, b) || leq(b, a))
    && (forall a, b, c :: a in s && b in s && c in s && leq(a, b) && leq(b, c) ==> leq(a, c))
  }

  ghost predicate SortedBy<T>(leq: (T, T) -> bool, s: seq<T>)
  {
    forall i, j :: 0 <= i < j < |s| ==> leq(s[i], s[j])
  }

  /** Inserts `x` after the leading run of elements that are `leq` to it (keeps equal keys stable). */
  function Insert<T>(leq: (T, T) -> bool, s: seq<T>, x: T): (r: seq<T>)
    ensures |r| == |s| + 1
  {
    if s == [] then [x]
    else if leq(s[0], x) then [s[0]] + Insert(leq, s[1..], x)
    else [x] + s
  }

  /**
   * Stable insertion sort under the comparator `leq`: each element is inserted,
   * in input order, after the elements already placed that compare `leq` to it.
   */
  function SortBy<T>(leq: (T, T) -> bool, s: seq<T>): (r: seq<T>)
    ensures |r| == |s|
  {
    if s == [] then [] else Insert(leq, SortBy(leq, s[..|s| - 1]), s[|s| - 1])
  }

  lemma {:induction false} InsertPermutes<T>(leq: (T, T) -> bool, s: seq<T>, x: T)
    ensures multiset(Insert(leq, s, x)) == multiset(s) + multiset{x}
  {
    if s != [] && leq(s[0], x) {
      InsertPermutes(leq, s[1..], x);
      assert s == [s[0]] + s[1..];
    }
  }

  /** Sorting only reorders: the result is a permutation of the input. */
  lemma {:induction false} SortPermutes<T>(leq: (T, T) -> bool, s: seq<T>)
    ensures multiset(SortBy(leq, s)) == multiset(s)
  {
    if s != [] {
      SortPermutes(leq, s[..|s| - 1]);
      InsertPermutes(leq, SortBy(leq, s[..|s| - 1]), s[|s| - 1]);
      assert s == s[..|s| - 1] + [s[|s| - 1]];
    }
  }

  lemma ConsSorted<T>(leq: (T, T) -> bool, a: T, r: seq<T>)
    requires SortedBy(leq, r)
    requires forall j :: 0 <= j < |r| ==> leq(a, r[j])
    ensures SortedBy(leq, [a] + r)
  {
  }

  lemma {:induction false} InsertElements<T>(leq: (T, T) -> bool, s: seq<T>, x: T)
    ensures forall y :: y in Insert(leq, s, x) ==> y in s || y == x
  {
    if s != [] && leq(s[0], x) {
      InsertElements(leq, s[1..], x);
    }
  }

  lemma {:induction false} InsertSorted<T>(leq: (T, T) -> bool, s: seq<T>, x: T)
    requires SortedBy(leq, s)
    requires TotalPreorderOn(leq, s + [x])
    ensures SortedBy(leq, Insert(leq, s, x))
  {
    if s == [] {
    } else if leq(s[0], x) {
      var t := s[1..];
      assert forall a :: a in t + [x] ==> a in s + [x];
      InsertSorted(leq, t, x);
      InsertElements(leq, t, x);
      var r := Insert(leq, t, x);
      forall j | 0 <= j < |r|
        ensures leq(s[0], r[j])
      {
        if r[j] != x {
          assert r[j] in r;
          assert r[j] in t;
          var k :| 0 <= k < |t| && t[k] == r[j];
          assert s[k + 1] == t[k];
        }
      }
      ConsSorted(leq, s[0], r);
    } else {
      forall j | 0 <= j < |s|
        ensures leq(x, s[j])
      {
        assert s[0] in s + [x] && x in s + [x] && s[j] in s + [x];
      }
      ConsSorted(leq, x, s);
    }
  }

  /** Under a comparator that is a total preorder on the input, the result is sorted. */
  lemma {:induction false} SortSorted<T>(leq: (T, T) -> bool, s: seq<T>)
    requires TotalPreorderOn(leq, s)
    ensures SortedBy(leq, SortBy(leq, s))
  {
    if s != [] {
      var init := s[..|s| - 1];
      assert s == init + [s[|s| - 1]];
      SortSorted(leq, init);
      SortPermutes(leq, init);
      var sorted := SortBy(leq, init);
      forall a | a in sorted + [s[|s| - 1]]
        ensures a in s
      {
        if a in sorted {
          assert a in multiset(sorted);
        }
      }
      InsertSorted(leq, sorted, s[|s| - 1]);
    }
  }

  /** An item is in a sorted projection of a selection exactly when some selected element projects to it. */
  lemma SelectionMembers<T, U>(leq: (U, U) -> bool, f: T -> U, p: T -> bool, s: seq<T>, x: U)
    ensures x in SortBy(leq, Map(f, Filter(p, s))) <==> exists e :: e in s && p(e) && x == f(e)
  {
    var matched := Filter(p, s);
    var items := Map(f, matched);
    SortPermutes(leq, items);
    assert x in SortBy(leq, items) <==> x in multiset(items);
    if x in items {
      var k :| 0 <= k < |items| && items[k] == x;
      FilterMembership(p, s, matched[k]);
    }
    if exists e :: e in s && p(e) && x == f(e) {
      var e :| e in s && p(e) && x == f(e);
      FilterMembership(p, s, e);
      var k :| 0 <= k < |matched| && matched[k] == e;
      assert items[k] == x;
    }
  }
}
