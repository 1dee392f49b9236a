/** `DL_SORT2` and `HASH_SRT`: the bottom-up merge sort that relinks a list in place. */
module ListSort {
  import opened Common
  import opened Elements
  import opened StableSort

  ghost function At(s: seq<Element>, i: nat): Element? {
    if i < |s| then s[i] else null
  }

  ghost function Before(s: seq<Element>, i: nat): Element?
    requires i <= |s|
  {
    if i == 0 then null else s[i - 1]
  }

  ghost function Last(s: seq<Element>): Element? {
    if s == [] then null else s[|s| - 1]
  }

  /** Following `next` from s[0] visits s and then ends. */
  ghost predicate Forward(s: seq<Element>)
    reads s`next
  {
    forall i {:trigger s[i].next} :: 0 <= i < |s| ==> s[i].next == At(s, i + 1)
  }

  /** Following `next` from s[0] visits s; where its last element leads does not matter. */
  ghost predicate Run(s: seq<Element>)
    reads s`next
  {
    forall i {:trigger s[i].next} :: 0 <= i < |s| - 1 ==> s[i].next == s[i + 1]
  }

  ghost predicate Backward(s: seq<Element>)
    reads s`prev
  {
    forall i {:trigger s[i].prev} :: 0 <= i < |s| ==> s[i].prev == Before(s, i)
  }

  /** The list built so far: its two ends and its links. */
  ghost predicate Output(list: Element?, tail: Element?, done: seq<Element>)
    reads done`next, done`prev
  {
    && list == At(done, 0)
    && tail == Last(done)
    && Run(done)
    && Backward(done)
  }

  ghost predicate Apart(a: seq<Element>, b: seq<Element>) {
    forall i, j :: 0 <= i < |a| && 0 <= j < |b| ==> a[i] != b[j]
  }

  /** The built list, the rest of the first run, and all that follows it share no element. */
  ghost predicate Parts(done: seq<Element>, p: seq<Element>, q: seq<Element>) {
    && Distinct(done) && Distinct(p) && Distinct(q)
    && Apart(done, p) && Apart(done, q) && Apart(p, q)
  }

  ghost predicate Within(s: seq<Element>, all: set<Element>) {
    forall i :: 0 <= i < |s| ==> s[i] in all
  }

  lemma PartsTakeP(done: seq<Element>, p: seq<Element>, q: seq<Element>)
    requires p != [] && Parts(done, p, q)
    ensures Parts(done + [p[0]], p[1..], q)
  {
  }

  lemma PartsTakeQ(done: seq<Element>, p: seq<Element>, q: seq<Element>)
    requires q != [] && Parts(done, p, q)
    ensures Parts(done + [q[0]], p, q[1..])
  {
  }

  lemma PartsSplit(done: seq<Element>, s: seq<Element>, k: nat)
    requires k <= |s| && Parts(done, [], s)
    ensures Parts(done, s[..k], s[k..])
  {
  }

  lemma {:induction false} MergeTakeP(done: seq<Element>, p: seq<Element>, q: seq<Element>)
    requires p != [] && (q == [] || p[0].rank <= q[0].rank)
    ensures (done + [p[0]]) + Merge(p[1..], q) == done + Merge(p, q)
  {
    if q == [] {
      assert p == [p[0]] + p[1..];
      assert Merge(p[1..], q) == p[1..];
    }
  }

  lemma {:induction false} MergeTakeQ(done: seq<Element>, p: seq<Element>, q: seq<Element>)
    requires q != [] && (p == [] || p[0].rank > q[0].rank)
    ensures (done + [q[0]]) + Merge(p, q[1..]) == done + Merge(p, q)
  {
    if p == [] {
      assert q == [q[0]] + q[1..];
    }
  }

  lemma {:induction false} Extended(done: seq<Element>, e: Element)
    requires Run(done) && (done != [] ==> done[|done| - 1].next == e)
    requires Backward(done) && e.prev == Last(done)
    ensures Run(done + [e]) && Backward(done + [e])
  {
    var built := done + [e];
    forall i | 0 <= i < |built| ensures built[i].prev == Before(built, i) {
      if i < |done| {
        assert done[i].prev == Before(done, i);
      }
    }
  }

  /** The next element joins the end of the built list. */
  method Emit(list: Element?, tail: Element?, e: Element, ghost done: seq<Element>,
              ghost p: seq<Element>, ghost q: seq<Element>, ghost all: set<Element>)
    returns (list': Element?, tail': Element?)
    requires Output(list, tail, done) && Distinct(done) && e !in done
    requires Within(done, all) && e in all
    requires Run(p) && Forward(q) && Apart(done, p) && Apart(done, q)
    modifies all`next, all`prev
    ensures Output(list', tail', done + [e])
    ensures Run(p) && Forward(q)
  {
    list' := list;
    if tail != null {
      tail.next := e;
    } else {
      list' := e;
    }
    e.prev := tail;
    tail' := e;
    Extended(done, e);
  }

  /** The run of up to n elements that starts at p: its length, and what comes after it. */
  method SkipRun(p: Element, n: nat, ghost s: seq<Element>) returns (q: Element?, psize: nat)
    requires s != [] && p == s[0] && Forward(s) && n >= 1
    ensures psize == Min(n, |s|)
    ensures q == At(s, psize)
  {
    q, psize := p, 0;
    var i := 0;
    while i < n
      invariant i == psize <= Min(n, |s|) && q == At(s, psize)
      invariant psize == |s| ==> i == n
    {
      psize := psize + 1;
      q := q.next;
      assert q == At(s, psize);
      if q == null {
        assert psize == |s|;
        break;
      }
      i := i + 1;
    }
    assert psize <= |s|;
  }

  /** Between two steps of a merge: built already holds part of the result; what is left of the
    first run and the first k elements of s are still to come. */
  ghost predicate Merging(built: seq<Element>, left: seq<Element>, s: seq<Element>, k: nat,
                          target: seq<Element>, after: seq<Element>, all: set<Element>) {
    && Parts(built, left, s)
    && Within(built, all) && Within(left, all) && Within(s, all)
    && k <= |s|
    && built + Merge(left, s[..k]) == target
    && s[k..] == after
  }

  lemma {:induction false} StepP(built: seq<Element>, left: seq<Element>, s: seq<Element>, k: nat,
              target: seq<Element>, after: seq<Element>, all: set<Element>)
    requires Merging(built, left, s, k, target, after, all)
    requires left != [] && (k == 0 || left[0].rank <= s[0].rank)
    ensures Merging(built + [left[0]], left[1..], s, k, target, after, all)
    ensures Distinct(built) && Within(built, all) && left[0] !in built && left[0] in all
    ensures Apart(built, left[1..]) && Apart(built, s)
  {
    PartsTakeP(built, left, s);
    MergeTakeP(built, left, s[..k]);
  }

  lemma {:induction false} StepQ(built: seq<Element>, left: seq<Element>, s: seq<Element>, k: nat,
              target: seq<Element>, after: seq<Element>, all: set<Element>)
    requires Merging(built, left, s, k, target, after, all)
    requires k > 0 && (left == [] || left[0].rank > s[0].rank)
    ensures Merging(built + [s[0]], left, s[1..], k - 1, target, after, all)
    ensures Distinct(built) && Within(built, all) && s[0] !in built && s[0] in all
    ensures Apart(built, left) && Apart(built, s[1..])
  {
    PartsTakeQ(built, left, s);
    MergeTakeQ(built, left, s[..k]);
    assert s[..k][1..] == s[1..][..k - 1];
    assert s[1..][k - 1..] == s[k..];
  }

  lemma Merged(built: seq<Element>, left: seq<Element>, s: seq<Element>,
               target: seq<Element>, after: seq<Element>, all: set<Element>)
    requires Merging(built, left, s, 0, target, after, all) && left == []
    ensures built == target && s == after
  {
    assert Merge([], s[..0]) == [];
  }

  /** The merge loop's variables: the built list, the cursor p with the count of its run, and the
    cursor q with the count its run may still have. */
  ghost predicate Cursors(list: Element?, tail: Element?, p: Element?, psize: nat, q: Element?, qsize: nat,
                          built: seq<Element>, left: seq<Element>, rest: seq<Element>)
    reads built`next, built`prev, left`next, rest`next
  {
    && Output(list, tail, built) && Run(left) && Forward(rest)
    && psize == |left| && (psize > 0 ==> p == left[0])
    && q == At(rest, 0)
  }

  /** One step of a merge: the smaller of the two next elements, the first run's if they are
    equal, joins the built list. */
  method MergeOne(list: Element?, tail: Element?, p: Element?, psize: nat, q: Element?, qsize: nat,
                  ghost built: seq<Element>, ghost left: seq<Element>, ghost rest: seq<Element>,
                  ghost target: seq<Element>, ghost after: seq<Element>, ghost all: set<Element>)
    returns (list': Element?, tail': Element?, p': Element?, psize': nat, q': Element?, qsize': nat,
             ghost built': seq<Element>, ghost left': seq<Element>, ghost rest': seq<Element>)
    requires Cursors(list, tail, p, psize, q, qsize, built, left, rest)
    requires Merging(built, left, rest, Min(qsize, |rest|), target, after, all)
    requires psize > 0 || (qsize > 0 && q != null)
    modifies all`next, all`prev
    ensures Cursors(list', tail', p', psize', q', qsize', built', left', rest')
    ensures Merging(built', left', rest', Min(qsize', |rest'|), target, after, all)
    ensures |left'| + |rest'| < |left| + |rest|
  {
    p', psize', q', qsize' := p, psize, q, qsize;
    left', rest' := left, rest;
    var fromQ: bool;
    if psize == 0 {
      fromQ := true;
    } else if qsize == 0 || q == null {
      fromQ := false;
    } else {
      fromQ := p.rank > q.rank;
    }
    var e: Element;
    if fromQ {
      e := q;
      q' := q.next;
      qsize' := qsize - 1;
      StepQ(built, left, rest, Min(qsize, |rest|), target, after, all);
      rest' := rest[1..];
    } else {
      e := p;
      p' := p.next;
      psize' := psize - 1;
      StepP(built, left, rest, Min(qsize, |rest|), target, after, all);
      left' := left[1..];
    }
    list', tail' := Emit(list, tail, e, built, left', rest', all);
    built' := built + [e];
  }

  /** Merges the run p with the first n elements of s, both relinked to the end of the built
    list. */
  method MergeRuns(list: Element?, tail: Element?, p: Element?, psize: nat, q: Element?, n: nat,
                   ghost done: seq<Element>, ghost run: seq<Element>, ghost s: seq<Element>,
                   ghost all: set<Element>)
    returns (list': Element?, tail': Element?, q': Element?, ghost built: seq<Element>)
    requires Cursors(list, tail, p, psize, q, n, done, run, s)
    requires Parts(done, run, s) && Within(done, all) && Within(run, all) && Within(s, all)
    modifies all`next, all`prev
    ensures var m := Min(n, |s|);
      && built == done + Merge(run, s[..m])
      && Output(list', tail', built) && Forward(s[m..]) && q' == At(s, m)
      && Parts(built, [], s[m..]) && Within(built, all)
  {
    list', tail', q' := list, tail, q;
    var p', psize', qsize := p, psize, n;
    ghost var target, after := done + Merge(run, s[..Min(n, |s|)]), s[Min(n, |s|)..];
    ghost var left, rest;
    built, left, rest := done, run, s;
    while psize' > 0 || (qsize > 0 && q' != null)
      invariant Cursors(list', tail', p', psize', q', qsize, built, left, rest)
      invariant Merging(built, left, rest, Min(qsize, |rest|), target, after, all)
      decreases |left| + |rest|
    {
      list', tail', p', psize', q', qsize, built, left, rest :=
        MergeOne(list', tail', p', psize', q', qsize, built, left, rest, target, after, all);
    }
    Merged(built, left, rest, target, after, all);
  }

  lemma PassStep(done: seq<Element>, s: seq<Element>, n: nat)
    requires n >= 1 && s != []
    ensures var k, m := Min(n, |s|), Min(2 * n, |s|);
      var m' := Min(n, |s[k..]|);
      && s[k..][m'..] == s[m..]
      && done + Pass(s, n) == (done + Merge(s[..k], s[k..][..m'])) + Pass(s[m..], n)
  {
    var k, m := Min(n, |s|), Min(2 * n, |s|);
    var m' := Min(n, |s[k..]|);
    assert s[k..][..m'] == s[k..m];
    assert s[k..][m'..] == s[m..];
    Assoc(done, Merge(s[..k], s[k..m]), Pass(s[m..], n));
  }

  lemma Assoc(a: seq<Element>, b: seq<Element>, c: seq<Element>)
    ensures a + (b + c) == (a + b) + c
  {
  }

  lemma ForwardSplit(s: seq<Element>, k: nat)
    requires k <= |s| && Forward(s)
    ensures Run(s[..k]) && Forward(s[k..]) && At(s[k..], 0) == At(s, k)
  {
  }

  /** Between two merges of a pass: the list built so far and the untouched rest. */
  ghost predicate Passing(list: Element?, tail: Element?, p: Element?, t: seq<Element>, rest: seq<Element>,
                          all: set<Element>)
    reads t`next, t`prev, rest`next
  {
    && Output(list, tail, t) && Forward(rest) && p == At(rest, 0)
    && Parts(t, [], rest) && Within(t, all) && Within(rest, all)
  }

  /** The next two runs of a pass are found and merged. */
  method MergeNext(list: Element?, tail: Element?, p: Element, n: nat,
                   ghost t: seq<Element>, ghost rest: seq<Element>, ghost all: set<Element>)
    returns (list': Element?, tail': Element?, q: Element?, ghost t': seq<Element>, ghost rest': seq<Element>)
    requires Passing(list, tail, p, t, rest, all) && rest != [] && n >= 1
    modifies all`next, all`prev
    ensures Passing(list', tail', q, t', rest', all)
    ensures t' + Pass(rest', n) == t + Pass(rest, n)
    ensures |t'| + |rest'| == |t| + |rest|
    ensures |rest'| == if |rest| <= 2 * n then 0 else |rest| - 2 * n
  {
    var psize;
    q, psize := SkipRun(p, n, rest);
    ForwardSplit(rest, psize);
    PartsSplit(t, rest, psize);
    PassStep(t, rest, n);
    list', tail', q, t' := MergeRuns(list, tail, p, psize, q, n, t, rest[..psize], rest[psize..], all);
    rest' := rest[Min(2 * n, |rest|)..];
  }

  /** The built list gets its end. */
  method Terminate(list: Element?, tail: Element, ghost t: seq<Element>)
    requires Output(list, tail, t) && Distinct(t) && t != []
    modifies tail`next
    ensures Forward(t) && Backward(t)
  {
    tail.next := null;
  }

  /** One pass over the list: neighbouring runs of n elements are merged two by two. */
  method MergePass(list: Element, n: nat, ghost s: seq<Element>, ghost all: set<Element>)
    returns (list': Element, tail: Element, nmerges: nat, ghost t: seq<Element>)
    requires s != [] && list == s[0] && Forward(s) && Distinct(s) && Within(s, all) && n >= 1
    modifies all`next, all`prev
    ensures t == Pass(s, n) && Forward(t) && Backward(t) && Distinct(t) && Within(t, all)
    ensures list' == t[0] && tail == t[|t| - 1]
    ensures nmerges <= 1 <==> |s| <= 2 * n
  {
    var p: Element?, first: Element?, last: Element? := list, null, null;
    nmerges := 0;
    t := [];
    ghost var rest := s;
    while p != null
      invariant Passing(first, last, p, t, rest, all)
      invariant t + Pass(rest, n) == Pass(s, n)
      invariant |rest| <= |s| == |t| + |rest| && (nmerges == 0 <==> |t| == 0)
      invariant nmerges <= 1 <==> |t| <= 2 * n
      invariant nmerges > 0 && |rest| > 0 ==> |t| >= 2 * n
      decreases |rest|
    {
      nmerges := nmerges + 1;
      first, last, p, t, rest := MergeNext(first, last, p, n, t, rest, all);
    }
    assert t == Pass(s, n) && |t| == |s|;
    list', tail := first, last;
    Terminate(first, tail, t);
  }

  /** Sorts the list s in place.  The hash table's list ends at both sides; in a plain list the
    head's back link leads to the tail. */
  method SortList(list: Element, circular: bool, ghost s: seq<Element>, ghost all: set<Element>)
    returns (head: Element, tail: Element, ghost t: seq<Element>)
    requires s != [] && list == s[0] && Forward(s) && Distinct(s) && Within(s, all)
    modifies all`next, all`prev
    ensures t == SortFrom(s, 1) && t != [] && Forward(t) && Distinct(t) && Within(t, all)
    ensures head == t[0] && tail == t[|t| - 1]
    ensures forall i {:trigger t[i].prev} :: 0 < i < |t| ==> t[i].prev == t[i - 1]
    ensures head.prev == if circular then tail else null
  {
    var insize, looping, nmerges := 1, true, 0;
    head, tail, t := list, list, s;
    while looping
      invariant insize >= 1 && t != [] && head == t[0] && Forward(t) && Distinct(t) && Within(t, all)
      invariant looping ==> SortFrom(t, insize) == SortFrom(s, 1)
      invariant !looping ==> t == SortFrom(s, 1) && tail == t[|t| - 1]
      invariant !looping ==> forall i {:trigger t[i].prev} :: 0 < i < |t| ==> t[i].prev == t[i - 1]
      invariant !looping ==> head.prev == if circular then tail else null
      decreases looping, |s| - insize
      invariant |t| == |s|
    {
      head, tail, nmerges, t := MergePass(head, insize, t, all);
      assert forall i {:trigger t[i].prev} :: 0 < i < |t| ==> t[i].prev == t[i - 1];
      if circular {
        head.prev := tail;
      }
      if nmerges <= 1 {
        looping := false;
      }
      insize := insize * 2;
    }
  }
}
