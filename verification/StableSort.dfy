/** The bottom-up merge sort on sequences, and what it must achieve: sorted, and with the elements
  of equal rank in the order they came. */
module StableSort {
  import opened Common
  import opened Elements

  ghost function Merge(a: seq<Element>, b: seq<Element>): (m: seq<Element>)
    ensures |m| == |a| + |b|
  {
    if a == [] then b
    else if b == [] then a
    else if a[0].rank <= b[0].rank then [a[0]] + Merge(a[1..], b)
    else [b[0]] + Merge(a, b[1..])
  }

  /** One pass: neighbouring runs of n elements are merged two by two. */
  ghost function Pass(s: seq<Element>, n: nat): (t: seq<Element>)
    requires n >= 1
    ensures |t| == |s|
    decreases |s|
  {
    if s == [] then []
    else
      var k := Min(n, |s|);
      var m := Min(2 * n, |s|);
      Merge(s[..k], s[k..m]) + Pass(s[m..], n)
  }

  ghost function SortFrom(s: seq<Element>, n: nat): (t: seq<Element>)
    requires n >= 1
    decreases |s| - n
  {
    if |s| <= 2 * n then Pass(s, n) else SortFrom(Pass(s, n), 2 * n)
  }

  ghost predicate Sorted(s: seq<Element>) {
    forall i, j :: 0 <= i < j < |s| ==> s[i].rank <= s[j].rank
  }

  /** The elements of one rank, in order. */
  ghost function WithRank(s: seq<Element>, r: int): seq<Element> {
    if s == [] then []
    else if s[0].rank == r then [s[0]] + WithRank(s[1..], r)
    else WithRank(s[1..], r)
  }

  ghost predicate SameRanks(s: seq<Element>, t: seq<Element>) {
    forall r :: WithRank(s, r) == WithRank(t, r)
  }

  ghost predicate AtLeast(s: seq<Element>, r: int) {
    forall i :: 0 <= i < |s| ==> r <= s[i].rank
  }

  lemma {:induction false} WithRankConcat(a: seq<Element>, b: seq<Element>, r: int)
    ensures WithRank(a + b, r) == WithRank(a, r) + WithRank(b, r)
    decreases |a|
  {
    if a == [] {
      assert a + b == b;
    } else {
      assert (a + b)[1..] == a[1..] + b;
      WithRankConcat(a[1..], b, r);
    }
  }

  lemma {:induction false} WithRankAbove(s: seq<Element>, r: int, low: int)
    requires AtLeast(s, low) && r < low
    ensures WithRank(s, r) == []
    decreases |s|
  {
    if s != [] {
      assert s[0].rank != r;
      WithRankAbove(s[1..], r, low);
    }
  }

  lemma {:induction false} MergeAtLeast(a: seq<Element>, b: seq<Element>, r: int)
    requires AtLeast(a, r) && AtLeast(b, r)
    ensures AtLeast(Merge(a, b), r)
    decreases |a| + |b|
  {
    if a != [] && b != [] {
      if a[0].rank <= b[0].rank {
        MergeAtLeast(a[1..], b, r);
      } else {
        MergeAtLeast(a, b[1..], r);
      }
    }
  }

  lemma SortedCons(x: Element, s: seq<Element>)
    requires Sorted(s) && AtLeast(s, x.rank)
    ensures Sorted([x] + s)
  {
  }

  lemma {:induction false} MergeSorted(a: seq<Element>, b: seq<Element>)
    requires Sorted(a) && Sorted(b)
    ensures Sorted(Merge(a, b))
    decreases |a| + |b|
  {
    if a != [] && b != [] {
      if a[0].rank <= b[0].rank {
        MergeSorted(a[1..], b);
        MergeAtLeast(a[1..], b, a[0].rank);
        SortedCons(a[0], Merge(a[1..], b));
      } else {
        MergeSorted(a, b[1..]);
        MergeAtLeast(a, b[1..], b[0].rank);
        SortedCons(b[0], Merge(a, b[1..]));
      }
    }
  }

  /** Merging two sorted runs keeps the order of equal elements, those of the first run first. */
  lemma {:induction false} MergeStable(a: seq<Element>, b: seq<Element>, r: int)
    requires Sorted(a) && Sorted(b)
    ensures WithRank(Merge(a, b), r) == WithRank(a, r) + WithRank(b, r)
    decreases |a| + |b|
  {
    if a == [] {
      assert Merge(a, b) == b;
    } else if b == [] {
      assert Merge(a, b) == a;
    } else if a[0].rank <= b[0].rank {
      MergeStable(a[1..], b, r);
      WithRankConcat([a[0]], Merge(a[1..], b), r);
      WithRankConcat([a[0]], a[1..], r);
      assert a == [a[0]] + a[1..];
    } else {
      MergeStable(a, b[1..], r);
      WithRankConcat([b[0]], Merge(a, b[1..]), r);
      WithRankConcat([b[0]], b[1..], r);
      assert b == [b[0]] + b[1..];
      if r == b[0].rank {
        WithRankAbove(a, r, a[0].rank);
      }
    }
  }

  /** Cut into runs of n, every run is sorted. */
  ghost predicate RunsSorted(s: seq<Element>, n: nat)
    requires n >= 1
    decreases |s|
  {
    if |s| <= n then Sorted(s) else Sorted(s[..n]) && RunsSorted(s[n..], n)
  }

  lemma {:induction false} SinglesSorted(s: seq<Element>)
    ensures RunsSorted(s, 1)
    decreases |s|
  {
    if |s| > 1 {
      SinglesSorted(s[1..]);
    }
  }

  /** The two runs a pass merges first are sorted, and so are the runs after them. */
  lemma RunsSplit(s: seq<Element>, n: nat)
    requires n >= 1 && RunsSorted(s, n)
    ensures var k, m := Min(n, |s|), Min(2 * n, |s|);
      Sorted(s[..k]) && Sorted(s[k..m]) && RunsSorted(s[m..], n)
  {
    if |s| <= n {
      assert s[..|s|] == s;
    } else {
      var t := s[n..];
      if |t| <= n {
        assert s[n..Min(2 * n, |s|)] == t;
      } else {
        assert s[n..2 * n] == t[..n];
        assert s[2 * n..] == t[n..];
      }
    }
  }

  lemma RunsCons(a: seq<Element>, t: seq<Element>, n: nat)
    requires n >= 1 && Sorted(a) && RunsSorted(t, n)
    requires |a| == n || (|a| < n && t == [])
    ensures RunsSorted(a + t, n)
  {
    if t == [] {
      assert a + t == a;
      if |a| == n {
        assert (a + t)[..n] == a;
      }
    } else {
      assert (a + t)[..n] == a;
      assert (a + t)[n..] == t;
    }
  }

  lemma {:induction false} PassRuns(s: seq<Element>, n: nat)
    requires n >= 1 && RunsSorted(s, n)
    ensures RunsSorted(Pass(s, n), 2 * n)
    decreases |s|
  {
    if s != [] {
      var k, m := Min(n, |s|), Min(2 * n, |s|);
      RunsSplit(s, n);
      MergeSorted(s[..k], s[k..m]);
      PassRuns(s[m..], n);
      RunsCons(Merge(s[..k], s[k..m]), Pass(s[m..], n), 2 * n);
    }
  }

  lemma RanksOfParts(s: seq<Element>, k: nat, m: nat, r: int)
    requires k <= m <= |s|
    ensures WithRank(s, r) == WithRank(s[..k], r) + WithRank(s[k..m], r) + WithRank(s[m..], r)
  {
    WithRankConcat(s[..k], s[k..m], r);
    assert s[..k] + s[k..m] == s[..m];
    WithRankConcat(s[..m], s[m..], r);
    assert s[..m] + s[m..] == s;
  }

  lemma {:induction false} PassStable(s: seq<Element>, n: nat, r: int)
    requires n >= 1 && RunsSorted(s, n)
    ensures WithRank(Pass(s, n), r) == WithRank(s, r)
    decreases |s|
  {
    if s != [] {
      var k, m := Min(n, |s|), Min(2 * n, |s|);
      RunsSplit(s, n);
      MergeStable(s[..k], s[k..m], r);
      PassStable(s[m..], n, r);
      WithRankConcat(Merge(s[..k], s[k..m]), Pass(s[m..], n), r);
      RanksOfParts(s, k, m, r);
    }
  }

  lemma {:induction false} SortFromCorrect(s: seq<Element>, n: nat)
    requires n >= 1 && RunsSorted(s, n)
    ensures Sorted(SortFrom(s, n)) && SameRanks(SortFrom(s, n), s)
    decreases |s| - n
  {
    PassRuns(s, n);
    forall r ensures WithRank(Pass(s, n), r) == WithRank(s, r) {
      PassStable(s, n, r);
    }
    if |s| > 2 * n {
      SortFromCorrect(Pass(s, n), 2 * n);
    }
  }

  /** The merge sort sorts, and keeps the elements of each rank in their order. */
  lemma SortCorrect(s: seq<Element>)
    ensures Sorted(SortFrom(s, 1))
    ensures SameRanks(SortFrom(s, 1), s)
    ensures multiset(SortFrom(s, 1)) == multiset(s)
  {
    SinglesSorted(s);
    SortFromCorrect(s, 1);
    SameRanksPermutation(SortFrom(s, 1), s);
  }

  lemma {:induction false} CountInRank(s: seq<Element>, e: Element)
    ensures multiset(s)[e] == multiset(WithRank(s, e.rank))[e]
    decreases |s|
  {
    if s != [] {
      assert s == [s[0]] + s[1..];
      CountInRank(s[1..], e);
    }
  }

  lemma SameRanksPermutation(s: seq<Element>, t: seq<Element>)
    requires SameRanks(s, t)
    ensures multiset(s) == multiset(t)
  {
    forall e: Element | e in s || e in t
      ensures multiset(s)[e] == multiset(t)[e]
    {
      CountInRank(s, e);
      CountInRank(t, e);
    }
  }

  lemma WithRankHead(s: seq<Element>)
    requires s != []
    ensures WithRank(s, s[0].rank) != [] && WithRank(s, s[0].rank)[0] == s[0]
  {
  }

  lemma {:induction false} WithRankMember(s: seq<Element>, r: int)
    requires WithRank(s, r) != []
    ensures exists i :: 0 <= i < |s| && s[i].rank == r
    decreases |s|
  {
    if s[0].rank != r {
      WithRankMember(s[1..], r);
      var i :| 0 <= i < |s[1..]| && s[1..][i].rank == r;
      assert s[i + 1].rank == r;
    }
  }

  lemma SameRanksTail(s: seq<Element>, t: seq<Element>)
    requires s != [] && t != [] && s[0] == t[0] && SameRanks(s, t)
    ensures SameRanks(s[1..], t[1..])
  {
    forall r ensures WithRank(s[1..], r) == WithRank(t[1..], r) {
      assert WithRank(s, r) == WithRank(t, r);
      if s[0].rank == r {
        assert WithRank(s[1..], r) == WithRank(s, r)[1..];
        assert WithRank(t[1..], r) == WithRank(t, r)[1..];
      }
    }
  }

  /** Sorted with equal elements in a given order: there is only one such sequence. */
  lemma {:induction false} StableUnique(s: seq<Element>, t: seq<Element>)
    requires Sorted(s) && Sorted(t) && SameRanks(s, t)
    ensures s == t
    decreases |s|
  {
    if s == [] || t == [] {
      if s != [] {
        WithRankHead(s);
      } else if t != [] {
        WithRankHead(t);
      }
    } else {
      WithRankHead(s);
      WithRankHead(t);
      WithRankMember(s, t[0].rank);
      WithRankMember(t, s[0].rank);
      SameRanksTail(s, t);
      StableUnique(s[1..], t[1..]);
      assert s == [s[0]] + s[1..];
      assert t == [t[0]] + t[1..];
    }
  }

  /** The first position whose element does not compare below a rank. */
  ghost function LowerBound(s: seq<Element>, r: int): (k: nat)
    ensures k <= |s|
    ensures forall i :: 0 <= i < k ==> s[i].rank < r
    ensures k < |s| ==> s[k].rank >= r
  {
    if s == [] || s[0].rank >= r then 0 else 1 + LowerBound(s[1..], r)
  }

  /** The first position whose element compares above a rank. */
  ghost function UpperBound(s: seq<Element>, r: int): (k: nat)
    ensures k <= |s|
    ensures forall i :: 0 <= i < k ==> s[i].rank <= r
    ensures k < |s| ==> s[k].rank > r
  {
    if s == [] || s[0].rank > r then 0 else 1 + UpperBound(s[1..], r)
  }

  ghost function InsertAt(s: seq<Element>, k: nat, e: Element): seq<Element>
    requires k <= |s|
  {
    s[..k] + [e] + s[k..]
  }

  ghost function InsertBefore(s: seq<Element>, e: Element): seq<Element> {
    InsertAt(s, LowerBound(s, e.rank), e)
  }

  ghost function InsertAfter(s: seq<Element>, e: Element): seq<Element> {
    InsertAt(s, UpperBound(s, e.rank), e)
  }

  lemma {:induction false} InsertSorted(s: seq<Element>, k: nat, e: Element)
    requires k <= |s| && Sorted(s)
    requires forall i :: 0 <= i < k ==> s[i].rank <= e.rank
    requires k < |s| ==> e.rank <= s[k].rank
    ensures Sorted(InsertAt(s, k, e))
  {
  }

  lemma InsertRanks(s: seq<Element>, k: nat, e: Element, r: int)
    requires k <= |s|
    ensures WithRank(InsertAt(s, k, e), r) ==
            WithRank(s[..k], r) + WithRank([e], r) + WithRank(s[k..], r)
    ensures WithRank(s, r) == WithRank(s[..k], r) + WithRank(s[k..], r)
  {
    WithRankConcat(s[..k] + [e], s[k..], r);
    WithRankConcat(s[..k], [e], r);
    WithRankConcat(s[..k], s[k..], r);
    assert s[..k] + s[k..] == s;
  }

  lemma {:induction false} WithRankBelow(s: seq<Element>, r: int)
    requires forall i :: 0 <= i < |s| ==> s[i].rank < r
    ensures WithRank(s, r) == []
    decreases |s|
  {
    if s != [] {
      assert s[0].rank < r;
      WithRankBelow(s[1..], r);
    }
  }

  /** Inserting in order keeps a list sorted and puts the new element before its equals. */
  lemma InsertBeforeCorrect(s: seq<Element>, e: Element)
    requires Sorted(s)
    ensures Sorted(InsertBefore(s, e)) && SameRanks(InsertBefore(s, e), [e] + s)
  {
    var k := LowerBound(s, e.rank);
    InsertSorted(s, k, e);
    forall r ensures WithRank(InsertBefore(s, e), r) == WithRank([e] + s, r) {
      InsertRanks(s, k, e, r);
      WithRankConcat([e], s, r);
      if r == e.rank {
        WithRankBelow(s[..k], r);
      }
    }
  }

  /** The hash table's insertion keeps its order sorted and puts the new element after its equals. */
  lemma InsertAfterCorrect(s: seq<Element>, e: Element)
    requires Sorted(s)
    ensures Sorted(InsertAfter(s, e)) && SameRanks(InsertAfter(s, e), s + [e])
  {
    var k := UpperBound(s, e.rank);
    InsertSorted(s, k, e);
    forall r ensures WithRank(InsertAfter(s, e), r) == WithRank(s + [e], r) {
      InsertRanks(s, k, e, r);
      WithRankConcat(s, [e], r);
      if r == e.rank {
        if k < |s| {
          WithRankAbove(s[k..], r, s[k].rank);
        }
      }
    }
  }

  /** Insertion from the last element to the first, each before its equals. */
  ghost function InsertAllBefore(s: seq<Element>): seq<Element> {
    if s == [] then [] else InsertBefore(InsertAllBefore(s[1..]), s[0])
  }

  /** Insertion from the first element to the last, each after its equals. */
  ghost function InsertAllAfter(s: seq<Element>): seq<Element> {
    if s == [] then [] else InsertAfter(InsertAllAfter(s[..|s| - 1]), s[|s| - 1])
  }

  lemma {:induction false} InsertAllBeforeCorrect(s: seq<Element>)
    ensures Sorted(InsertAllBefore(s)) && SameRanks(InsertAllBefore(s), s)
    decreases |s|
  {
    if s != [] {
      var t := InsertAllBefore(s[1..]);
      InsertAllBeforeCorrect(s[1..]);
      InsertBeforeCorrect(t, s[0]);
      forall r ensures WithRank(InsertAllBefore(s), r) == WithRank(s, r) {
        WithRankConcat([s[0]], t, r);
        WithRankConcat([s[0]], s[1..], r);
        assert WithRank(t, r) == WithRank(s[1..], r);
        assert s == [s[0]] + s[1..];
      }
    }
  }

  lemma {:induction false} InsertAllAfterCorrect(s: seq<Element>)
    ensures Sorted(InsertAllAfter(s)) && SameRanks(InsertAllAfter(s), s)
    decreases |s|
  {
    if s != [] {
      var front, last := s[..|s| - 1], s[|s| - 1];
      var t := InsertAllAfter(front);
      InsertAllAfterCorrect(front);
      InsertAfterCorrect(t, last);
      forall r ensures WithRank(InsertAllAfter(s), r) == WithRank(s, r) {
        WithRankConcat(t, [last], r);
        WithRankConcat(front, [last], r);
        assert WithRank(t, r) == WithRank(front, r);
        assert s == front + [last];
      }
    }
  }

  /** Three ways to the same list: the merge sort, `DL_INSERT_INORDER` from the last element to
    the first, and `HASH_ADD_INORDER` from the first to the last. */
  lemma SortIsInsertion(s: seq<Element>)
    ensures SortFrom(s, 1) == InsertAllBefore(s) == InsertAllAfter(s)
  {
    SortCorrect(s);
    InsertAllBeforeCorrect(s);
    InsertAllAfterCorrect(s);
    assert SameRanks(SortFrom(s, 1), InsertAllBefore(s)) by {
      forall r ensures WithRank(SortFrom(s, 1), r) == WithRank(InsertAllBefore(s), r) {
        assert WithRank(InsertAllBefore(s), r) == WithRank(s, r);
      }
    }
    assert SameRanks(SortFrom(s, 1), InsertAllAfter(s)) by {
      forall r ensures WithRank(SortFrom(s, 1), r) == WithRank(InsertAllAfter(s), r) {
        assert WithRank(InsertAllAfter(s), r) == WithRank(s, r);
      }
    }
    StableUnique(SortFrom(s, 1), InsertAllBefore(s));
    StableUnique(SortFrom(s, 1), InsertAllAfter(s));
  }
}
