/** The bucket array of `UT_hash_table`: chains threaded through the items, and its doubling. */
module HashBuckets {
  import opened Elements
  import opened ListSort
  import opened Buckets

  const INITIAL_LOG2 := 5
  const CAPACITY := 10

  datatype Slot = Slot(hhHead: Element?, count: nat, expandMult: nat)

  /** Following `hh_next` from s[0] visits s and then ends. */
  ghost predicate Onward(s: seq<Element>)
    reads s`hhNext
  {
    forall i {:trigger s[i].hhNext} :: 0 <= i < |s| ==> s[i].hhNext == At(s, i + 1)
  }

  ghost predicate Backlinked(s: seq<Element>)
    reads s`hhPrev
  {
    forall i {:trigger s[i].hhPrev} :: 0 <= i < |s| ==> s[i].hhPrev == Before(s, i)
  }

  /** Every slot counts its chain, leads to its first item, and the chain is linked both ways. */
  ghost predicate Threaded(slots: array<Slot>, chains: Chains, all: set<Element>)
    requires Housed(chains, all)
    reads slots, all`hhNext, all`hhPrev
  {
    && slots.Length == |chains|
    && (forall b :: 0 <= b < |chains| ==> slots[b].hhHead == At(chains[b], 0) && slots[b].count == |chains[b]|)
    && (forall b :: 0 <= b < |chains| ==> Onward(chains[b]) && Backlinked(chains[b]))
  }

  /** A chain linked both ways visits no item twice. */
  lemma {:induction false} ChainDistinct(c: seq<Element>, i: nat, j: nat)
    requires Onward(c) && Backlinked(c) && i < j < |c|
    ensures c[i] != c[j]
    decreases i
  {
    assert c[i].hhPrev == Before(c, i) && c[j].hhPrev == Before(c, j);
    if i > 0 {
      ChainDistinct(c, i - 1, j - 1);
    }
  }

  lemma ChainsDistinct(c: seq<Element>)
    requires Onward(c) && Backlinked(c)
    ensures Distinct(c)
  {
    forall i, j | 0 <= i < j < |c| ensures c[i] != c[j] {
      ChainDistinct(c, i, j);
    }
  }

  lemma {:induction false} LinkFront(c: seq<Element>, e: Element)
    requires Onward(c) && (c == [] || e.hhNext == c[0]) && (c == [] ==> e.hhNext == null)
    requires e.hhPrev == null
    requires forall i {:trigger c[i].hhPrev} :: 0 <= i < |c| ==> c[i].hhPrev == if i == 0 then e else c[i - 1]
    ensures Onward([e] + c) && Backlinked([e] + c)
  {
    var d := [e] + c;
    forall i | 0 <= i < |d| ensures d[i].hhNext == At(d, i + 1) && d[i].hhPrev == Before(d, i) {
      if i > 0 {
        assert d[i] == c[i - 1];
      }
    }
  }

  /** An item goes to the front of its chain. */
  method PushFront(slots: array<Slot>, b: nat, e: Element, slot: Slot,
                   ghost chains: Chains, ghost all: set<Element>)
    requires Housed(chains, all) && Threaded(slots, chains, all) && b < |chains| && e !in all
    requires Bucket(e.hashv, |chains|) == b
    requires slot.hhHead == slots[b].hhHead && slot.count == slots[b].count + 1
    modifies slots, all`hhPrev, e`hhNext, e`hhPrev
    ensures Housed(Put(chains, b, e), all + {e}) && Threaded(slots, Put(chains, b, e), all + {e})
    ensures forall b' :: 0 <= b' < |chains| && b' != b ==> slots[b'] == old(slots[b'])
    ensures slots[b].expandMult == slot.expandMult
  {
    ghost var c := chains[b];
    assert c != [] ==> c[0].hhPrev == null;
    assert forall i {:trigger c[i].hhPrev} :: 0 < i < |c| ==> c[i].hhPrev == c[i - 1];
    e.hhPrev := null;
    e.hhNext := slot.hhHead;
    if slot.hhHead != null {
      slot.hhHead.hhPrev := e;
    }
    slots[b] := slot.(hhHead := e);
    LinkFront(c, e);
    ghost var next := Put(chains, b, e);
    forall b' | 0 <= b' < |chains| ensures Onward(next[b']) && Backlinked(next[b']) {
      if b' != b {
        assert next[b'] == chains[b'];
        assert c != [] ==> Bucket(c[0].hashv, |chains|) == b;
      }
    }
  }

  /** The neighbours of an item are linked to each other. */
  method Bridge(del: Element, ghost c: seq<Element>, ghost i: nat)
    requires Onward(c) && Backlinked(c) && Distinct(c) && i < |c| && c[i] == del
    modifies c`hhNext, c`hhPrev
    ensures Onward(c[..i] + c[i + 1..]) && Backlinked(c[..i] + c[i + 1..])
    ensures del.hhNext == old(del.hhNext)
  {
    ghost var d := c[..i] + c[i + 1..];
    if del.hhPrev != null {
      del.hhPrev.hhNext := del.hhNext;
    }
    if del.hhNext != null {
      del.hhNext.hhPrev := del.hhPrev;
    }
    forall j | 0 <= j < |d| ensures d[j].hhNext == At(d, j + 1) && d[j].hhPrev == Before(d, j) {
      assert d[j] == c[if j < i then j else j + 1];
    }
  }

  /** An item leaves its chain. */
  method Unlink(slots: array<Slot>, b: nat, del: Element,
                ghost chains: Chains, ghost all: set<Element>, ghost i: nat)
    requires Housed(chains, all) && Threaded(slots, chains, all) && b < |chains|
    requires i < |chains[b]| && chains[b][i] == del && Distinct(chains[b])
    requires Housed(chains[b := chains[b][..i] + chains[b][i + 1..]], all - {del})
    modifies slots, all`hhNext, all`hhPrev
    ensures Threaded(slots, chains[b := chains[b][..i] + chains[b][i + 1..]], all - {del})
    ensures forall b' :: 0 <= b' < |chains| ==> slots[b'].expandMult == old(slots[b'].expandMult)
  {
    ghost var c := chains[b];
    ghost var next := chains[b := c[..i] + c[i + 1..]];
    slots[b] := slots[b].(count := slots[b].count - 1);
    if slots[b].hhHead == del {
      slots[b] := slots[b].(hhHead := del.hhNext);
    }
    assert slots[b].hhHead == At(next[b], 0);
    Bridge(del, c, i);
    forall b' | 0 <= b' < |chains| ensures Onward(next[b']) && Backlinked(next[b']) {
      if b' != b {
        assert next[b'] == chains[b'];
      }
    }
  }

  /** The new bucket array of a doubling while items are moved into it in some order: what it
    holds, how often each threshold was raised, and how many items are past the ideal length. */
  ghost predicate Filling(slots: array<Slot>, order: seq<Element>, k: nat, moved: set<Element>,
                          ideal: nat, nonideal: nat)
    reads slots, moved`hhNext, moved`hhPrev
  {
    var chains := Built(order, k);
    && Housed(chains, moved)
    && Threaded(slots, chains, moved)
    && (forall b :: 0 <= b < |chains| ==> slots[b].expandMult == Raised(|chains[b]|, ideal))
    && nonideal == Excess(chains, ideal)
  }

  lemma NothingMoved(slots: array<Slot>, k: nat, ideal: nat)
    requires slots.Length == Pow2(k)
    requires forall b :: 0 <= b < slots.Length ==> slots[b] == Slot(null, 0, 0)
    ensures Filling(slots, [], k, {}, ideal, 0)
  {
    EmptyCounts(Pow2(k), ideal, Pow2(k));
  }

  /** One item moves to its new bucket. */
  method MoveItem(slots: array<Slot>, e: Element, ghost k: nat, ideal: nat, nonideal: nat,
                  ghost moved: set<Element>, ghost order: seq<Element>)
    returns (nonideal': nat)
    requires Filling(slots, order, k, moved, ideal, nonideal) && e !in moved
    modifies slots, moved`hhPrev, e`hhNext, e`hhPrev
    ensures Filling(slots, order + [e], k, moved + {e}, ideal, nonideal')
  {
    ghost var chains := Built(order, k);
    BuiltNext(order, e, k);
    var b := Bucket(e.hashv, slots.Length);
    var slot := slots[b];
    slot := slot.(count := slot.count + 1);
    nonideal' := nonideal;
    if slot.count > ideal {
      nonideal' := nonideal' + 1;
      if slot.count > slot.expandMult * ideal {
        slot := slot.(expandMult := slot.expandMult + 1);
      }
    }
    PushFront(slots, b, e, slot, chains, moved);
    ExcessPut(chains, b, e, ideal, |chains|);
    assert |Put(chains, b, e)[b]| == |chains[b]| + 1;
  }

  ghost function SetOf(s: seq<Element>): set<Element> {
    set e | e in s
  }

  lemma SetOfStep(moved: set<Element>, s: seq<Element>)
    requires s != []
    ensures (moved + {s[0]}) + SetOf(s[1..]) == moved + SetOf(s)
  {
    assert s == [s[0]] + s[1..];
  }

  /** One old chain is moved, item by item from its front. */
  method MoveChain(slots: array<Slot>, first: Element?, ghost k: nat, ideal: nat, nonideal: nat,
                   ghost moved: set<Element>, ghost order: seq<Element>, ghost s: seq<Element>)
    returns (nonideal': nat)
    requires Filling(slots, order, k, moved, ideal, nonideal)
    requires first == At(s, 0) && Onward(s) && Distinct(s) && forall i :: 0 <= i < |s| ==> s[i] !in moved
    modifies slots, moved`hhPrev, s`hhNext, s`hhPrev
    ensures Filling(slots, order + s, k, moved + SetOf(s), ideal, nonideal')
  {
    var thh := first;
    nonideal' := nonideal;
    ghost var rest: seq<Element>, now: set<Element>, sofar: seq<Element> := s, moved, order;
    while thh != null
      invariant Filling(slots, sofar, k, now, ideal, nonideal')
      invariant sofar + rest == order + s
      invariant now + SetOf(rest) == moved + SetOf(s)
      invariant thh == At(rest, 0) && Onward(rest) && Distinct(rest)
      invariant forall i :: 0 <= i < |rest| ==> rest[i] !in now && rest[i] in s
      invariant now <= moved + SetOf(s)
      decreases |rest|
    {
      var next := thh.hhNext;
      SetOfStep(now, rest);
      Shift(sofar, rest);
      nonideal' := MoveItem(slots, thh, k, ideal, nonideal', now, sofar);
      now, sofar := now + {thh}, sofar + [thh];
      rest := rest[1..];
      thh := next;
    }
    assert now + SetOf(rest) == now && sofar + rest == sofar;
  }

  lemma Shift(a: seq<Element>, s: seq<Element>)
    requires s != []
    ensures (a + [s[0]]) + s[1..] == a + s
  {
  }

  /** `UT_hash_table`: its buckets and counters.  The ghost fields name the chains and the items
    threaded on them. */
  class Table {
    var buckets: array<Slot>
    var numBuckets: nat
    var log2NumBuckets: nat
    var numItems: nat
    var tail: Element?
    var idealChainMaxlen: nat
    var nonidealItems: nat
    var ineffExpands: nat
    var noexpand: bool
    ghost var chains: Chains
    ghost var members: set<Element>

    ghost predicate Valid()
      reads `buckets, `numBuckets, `log2NumBuckets, `chains, `members
      reads buckets, members`hhNext, members`hhPrev
    {
      && numBuckets == Pow2(log2NumBuckets) == |chains|
      && Placed(chains, members)
      && Threaded(buckets, chains, members)
    }

    /** `HASH_MAKE_TABLE`. */
    constructor (first: Element)
      ensures Valid() && chains == Empty(32) && members == {} && fresh(buckets)
      ensures numItems == 0 && tail == first && !noexpand && ineffExpands == 0
    {
      numBuckets, log2NumBuckets := 32, INITIAL_LOG2;
      numItems, tail := 0, first;
      idealChainMaxlen, nonidealItems, ineffExpands, noexpand := 0, 0, 0, false;
      buckets := new Slot[32](_ => Slot(null, 0, 0));
      chains, members := Empty(32), {};
      new;
      assert Pow2(5) == 32;
    }

    /** `HASH_ADD_TO_BKT`: to the front of its chain, and a doubling once the chain is as long as
      its threshold. */
    method AddToBucket(e: Element)
      requires Valid() && e !in members
      modifies this, buckets, members`hhNext, members`hhPrev, e`hhNext, e`hhPrev
      ensures Valid() && members == old(members) + {e}
      ensures buckets == old(buckets) || fresh(buckets)
      ensures numItems == old(numItems) && tail == old(tail)
      ensures Bucket(e.hashv, old(numBuckets)) < |old(chains)|
      ensures var b := Bucket(e.hashv, old(numBuckets));
        var put, k := Put(old(chains), b, e), old(log2NumBuckets);
        if |put[b]| >= (old(buckets[b].expandMult) + 1) * 10 && !old(noexpand)
        then
          && chains == Doubled(put, k) && log2NumBuckets == k + 1
          && idealChainMaxlen == IdealLength(numItems, old(numBuckets), k)
          && nonidealItems == Excess(chains, idealChainMaxlen)
          && (forall i :: 0 <= i < |chains| ==> buckets[i].expandMult == Raised(|chains[i]|, idealChainMaxlen))
          && ineffExpands == (if nonidealItems > numItems / 2 then old(ineffExpands) + 1 else 0)
          && noexpand == (ineffExpands > 1)
        else
          && chains == put && log2NumBuckets == k && buckets == old(buckets)
          && (forall i :: 0 <= i < |chains| ==> buckets[i].expandMult == old(buckets[i].expandMult))
          && idealChainMaxlen == old(idealChainMaxlen) && nonidealItems == old(nonidealItems)
          && ineffExpands == old(ineffExpands) && noexpand == old(noexpand)
    {
      var full := Enchain(e);
      if full && !noexpand {
        Expand();
      }
    }

    /** The item goes to the front of its chain; whether the chain has reached its threshold. */
    method Enchain(e: Element) returns (full: bool)
      requires Valid() && e !in members
      modifies `chains, `members, buckets, members`hhNext, members`hhPrev, e`hhNext, e`hhPrev
      ensures Valid() && members == old(members) + {e}
      ensures Bucket(e.hashv, numBuckets) < |chains| == |old(chains)|
      ensures var b := Bucket(e.hashv, numBuckets);
        && chains == Put(old(chains), b, e)
        && full == (|chains[b]| >= (old(buckets[b].expandMult) + 1) * 10)
      ensures forall i :: 0 <= i < |chains| ==> buckets[i].expandMult == old(buckets[i].expandMult)
    {
      BucketBelow(e.hashv, log2NumBuckets);
      var b := Bucket(e.hashv, numBuckets);
      var slot := buckets[b];
      slot := slot.(count := slot.count + 1);
      PlacedPut(chains, members, b, e);
      PushFront(buckets, b, e, slot, chains, members);
      chains, members := Put(chains, b, e), members + {e};
      full := slot.count >= (slot.expandMult + 1) * CAPACITY;
    }

    /** `HASH_DEL_IN_BKT` of item i of chain b. */
    method DelInBucket(del: Element, ghost i: nat)
      requires Valid() && Bucket(del.hashv, numBuckets) < |chains|
      requires i < |chains[Bucket(del.hashv, numBuckets)]|
      requires chains[Bucket(del.hashv, numBuckets)][i] == del
      modifies this`chains, this`members, buckets, members`hhNext, members`hhPrev
      ensures Valid() && members == old(members) - {del}
      ensures var b := Bucket(del.hashv, numBuckets);
        chains == old(chains)[b := old(chains)[b][..i] + old(chains)[b][i + 1..]]
      ensures forall b :: 0 <= b < |chains| ==> buckets[b].expandMult == old(buckets[b].expandMult)
    {
      var b := Bucket(del.hashv, numBuckets);
      ghost var c := chains[b];
      ghost var next := chains[b := c[..i] + c[i + 1..]];
      ChainsDistinct(c);
      PlacedRemove(chains, members, b, i);
      Unlink(buckets, b, del, chains, members, i);
      chains, members := next, members - {del};
    }

    /** `HASH_FIND_IN_BKT`. */
    method FindInBucket(b: nat, key: int, hashv: nat) returns (out: Element?)
      requires Valid() && b < |chains|
      ensures out == FindIn(chains[b], key, hashv)
    {
      out := buckets[b].hhHead;
      ghost var rest := chains[b];
      while out != null
        invariant out == At(rest, 0) && Onward(rest)
        invariant FindIn(rest, key, hashv) == FindIn(chains[b], key, hashv)
        decreases |rest|
      {
        if out.hashv == hashv && out.key == key {
          break;
        }
        out := out.hhNext;
        rest := rest[1..];
      }
    }

    /** `HASH_EXPAND_BUCKETS`: twice the buckets, every item in its new one. */
    method Expand()
      requires Valid()
      modifies this, members`hhNext, members`hhPrev
      ensures Valid() && fresh(buckets) && members == old(members)
      ensures chains == Doubled(old(chains), old(log2NumBuckets))
      ensures log2NumBuckets == old(log2NumBuckets) + 1
      ensures idealChainMaxlen == IdealLength(numItems, old(numBuckets), old(log2NumBuckets))
      ensures nonidealItems == Excess(chains, idealChainMaxlen)
      ensures forall b :: 0 <= b < |chains| ==> buckets[b].expandMult == Raised(|chains[b]|, idealChainMaxlen)
      ensures ineffExpands == if nonidealItems > numItems / 2 then old(ineffExpands) + 1 else 0
      ensures noexpand == (old(noexpand) || ineffExpands > 1)
      ensures numItems == old(numItems) && tail == old(tail)
    {
      var newBuckets := new Slot[2 * numBuckets](_ => Slot(null, 0, 0));
      var ideal := IdealLength(numItems, numBuckets, log2NumBuckets);
      var nonideal;
      ghost var next;
      nonideal, next := Redistribute(newBuckets, ideal);
      Install(newBuckets, ideal, nonideal, next);
    }

    /** All items move from the old buckets to the new ones. */
    method Redistribute(slots: array<Slot>, ideal: nat) returns (nonideal: nat, ghost next: Chains)
      requires Valid() && slots != buckets && slots.Length == 2 * numBuckets
      requires forall b :: 0 <= b < slots.Length ==> slots[b] == Slot(null, 0, 0)
      modifies slots, members`hhNext, members`hhPrev
      ensures next == Doubled(chains, log2NumBuckets) && |next| == Pow2(log2NumBuckets + 1)
      ensures Placed(next, members) && Threaded(slots, next, members)
      ensures nonideal == Excess(next, ideal)
      ensures forall b :: 0 <= b < |next| ==> slots[b].expandMult == Raised(|next[b]|, ideal)
    {
      ghost var now: set<Element>, order: seq<Element> := {}, [];
      NothingMoved(slots, log2NumBuckets + 1, ideal);
      forall b | 0 <= b < |chains| ensures Distinct(chains[b]) {
        ChainsDistinct(chains[b]);
      }
      nonideal, now, order := MoveAll(slots, ideal, now);
      GoneAll(chains, members, now);
      next := Built(order, log2NumBuckets + 1);
      assert Filling(slots, order, log2NumBuckets + 1, members, ideal, nonideal);
      DoubledPlaced(chains, log2NumBuckets, members);
    }

    /** The new buckets take the place of the old ones. */
    method Install(newBuckets: array<Slot>, ideal: nat, nonideal: nat, ghost next: Chains)
      requires numBuckets == Pow2(log2NumBuckets) && |next| == Pow2(log2NumBuckets + 1)
      requires Placed(next, members) && Threaded(newBuckets, next, members)
      modifies this
      ensures Valid() && buckets == newBuckets && chains == next && members == old(members)
      ensures log2NumBuckets == old(log2NumBuckets) + 1
      ensures idealChainMaxlen == ideal && nonidealItems == nonideal
      ensures ineffExpands == if nonidealItems > numItems / 2 then old(ineffExpands) + 1 else 0
      ensures noexpand == (old(noexpand) || ineffExpands > 1)
      ensures numItems == old(numItems) && tail == old(tail)
    {
      assert |next| == 2 * numBuckets;
      chains := next;
      idealChainMaxlen, nonidealItems := ideal, nonideal;
      numBuckets := numBuckets * 2;
      log2NumBuckets := log2NumBuckets + 1;
      buckets := newBuckets;
      ineffExpands := if nonidealItems > numItems / 2 then ineffExpands + 1 else 0;
      if ineffExpands > 1 {
        noexpand := true;
      }
    }

    /** While the items are moved, bucket after bucket: those of the first i are in the new chains,
      the others still are on the old ones. */
    ghost predicate Moving(slots: array<Slot>, ideal: nat, nonideal: nat, now: set<Element>,
                           order: seq<Element>, i: nat)
      requires Housed(chains, members) && i <= |chains|
      reads this, slots, members`hhNext, now`hhNext, now`hhPrev
    {
      && order == OrderTo(chains, i)
      && Filling(slots, order, log2NumBuckets + 1, now, ideal, nonideal)
      && now <= members
      && Gone(chains, now, i)
      && (forall b :: i <= b < |chains| ==> Onward(chains[b]))
    }

    /** The old buckets hold the heads of the old chains. */
    ghost predicate Loaded()
      reads `numBuckets, `chains, `buckets, buckets
    {
      && numBuckets == |chains| == buckets.Length
      && forall b :: 0 <= b < |chains| ==> Distinct(chains[b]) && buckets[b].hhHead == At(chains[b], 0)
    }

    /** The loop of the doubling over the old buckets. */
    method MoveAll(slots: array<Slot>, ideal: nat, ghost start: set<Element>)
      returns (nonideal: nat, ghost now: set<Element>, ghost order: seq<Element>)
      requires Housed(chains, members) && Loaded() && slots != buckets
      requires Moving(slots, ideal, 0, start, [], 0)
      modifies slots, members`hhNext, members`hhPrev
      ensures Moving(slots, ideal, nonideal, now, order, |chains|)
    {
      nonideal, now, order := 0, start, [];
      var i := 0;
      while i < numBuckets
        invariant i <= numBuckets && Loaded()
        invariant Moving(slots, ideal, nonideal, now, order, i)
      {
        nonideal, now, order := MoveBucket(slots, ideal, nonideal, now, order, i, buckets[i].hhHead);
        i := i + 1;
      }
    }

    /** The chain of one old bucket is moved. */
    method MoveBucket(slots: array<Slot>, ideal: nat, nonideal: nat, ghost now: set<Element>,
                      ghost order: seq<Element>, ghost i: nat, thh: Element?)
      returns (nonideal': nat, ghost now': set<Element>, ghost order': seq<Element>)
      requires Housed(chains, members) && i < |chains| && Distinct(chains[i])
      requires Moving(slots, ideal, nonideal, now, order, i)
      requires thh == At(chains[i], 0)
      modifies slots, members`hhNext, members`hhPrev
      ensures Moving(slots, ideal, nonideal', now', order', i + 1)
    {
      ghost var c := chains[i];
      now', order' := now + SetOf(c), order + c;
      GoneStep(chains, now, i);
      nonideal' := MoveChain(slots, thh, log2NumBuckets + 1, ideal, nonideal, now, order, c);
      forall b | i < b < |chains| ensures Onward(chains[b]) {
        forall j | 0 <= j < |chains[b]| ensures chains[b][j].hhNext == At(chains[b], j + 1) {
          assert chains[b][j] !in now' && chains[b][j].hhNext == old(chains[b][j].hhNext);
        }
      }
    }
  }

  /** The set holds the items of the first i chains and none of the others. */
  ghost predicate Gone(chains: Chains, now: set<Element>, i: nat) {
    forall b, j :: 0 <= b < |chains| && 0 <= j < |chains[b]| ==> (chains[b][j] in now <==> b < i)
  }

  lemma GoneAll(chains: Chains, members: set<Element>, now: set<Element>)
    requires Placed(chains, members) && now <= members && Gone(chains, now, |chains|)
    ensures now == members
  {
  }

  lemma GoneStep(chains: Chains, now: set<Element>, i: nat)
    requires Homed(chains) && i < |chains| && Gone(chains, now, i)
    ensures Gone(chains, now + SetOf(chains[i]), i + 1)
  {
    var now' := now + SetOf(chains[i]);
    forall b, j | 0 <= b < |chains| && 0 <= j < |chains[b]|
      ensures chains[b][j] in now' <==> b < i + 1
    {
      if chains[b][j] in SetOf(chains[i]) {
        assert Bucket(chains[b][j].hashv, |chains|) == i;
      }
    }
  }
}
