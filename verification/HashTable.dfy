/** The hash table macros on a whole table: the items in the order they were added, and the
  buckets that find them. */
module HashTable {
  import opened Elements
  import opened StableSort
  import opened ListSort
  import opened Buckets
  import opened HashBuckets
  import opened DoublyLinkedList

  ghost predicate Fits(e: Element, key: int, hashv: nat) {
    e.key == key && e.hashv == hashv
  }

  ghost predicate UniqueKeys(s: seq<Element>) {
    forall i, j :: 0 <= i < j < |s| ==> !Fits(s[i], s[j].key, s[j].hashv)
  }

  class Hash {
    var head: Element?
    var tbl: Table?
    ghost var items: seq<Element>

    ghost function Own(): set<object>
      reads this, tbl
    {
      if tbl == null then {this} else var t: Table := tbl; {this, t, t.buckets}
    }

    ghost function Tables(): set<Table>
      reads this
    {
      if tbl == null then {} else {tbl}
    }

    ghost function Members(): set<Element>
      reads this, tbl
    {
      if tbl == null then {} else tbl.members
    }

    /** The list in app order: linked both ways, ending at the table's tail. */
    ghost predicate Ordered()
      reads this, Tables()`tail, items`next, items`prev
    {
      && head == At(items, 0)
      && (tbl == null <==> items == [])
      && (tbl != null ==> tbl.tail == Last(items))
      && Distinct(items) && Forward(items) && Backward(items)
    }

    /** The buckets: well linked, with every item in its bucket and all of them counted. */
    ghost predicate Indexed()
      reads Own(), Members()`hhNext, Members()`hhPrev
    {
      tbl != null ==>
        && tbl.Valid()
        && tbl.members == SetOf(items)
        && tbl.numItems == |items| == Total(tbl.chains)
    }

    ghost predicate Valid()
      reads Own(), items`next, items`prev, Members()`hhNext, Members()`hhPrev
    {
      Ordered() && Indexed()
    }

    /** Work on the buckets leaves the app order alone. */
    twostate lemma KeepsOrder()
      requires old(Ordered()) && head == old(head) && items == old(items) && tbl == old(tbl)
      requires tbl != null ==> tbl.tail == old(tbl.tail)
      requires forall e :: e in items ==> e.next == old(e.next) && e.prev == old(e.prev)
      ensures Ordered()
    {
    }

    constructor ()
      ensures Valid() && items == []
    {
      head, tbl, items := null, null, [];
    }

    /** `HASH_ADD_TO_TABLE`, after the item joined the list. */
    method AddToTable(add: Element, ghost was: seq<Element>)
      requires tbl != null && tbl.Valid() && tbl.members == SetOf(was)
      requires tbl.numItems == |was| == Total(tbl.chains)
      requires add !in was && |items| == |was| + 1 && SetOf(items) == SetOf(was) + {add}
      requires Ordered()
      modifies tbl, tbl.buckets, was`hhNext, was`hhPrev, add`hhNext, add`hhPrev
      ensures Valid()
    {
      ghost var chains, k := tbl.chains, tbl.log2NumBuckets;
      tbl.numItems := tbl.numItems + 1;
      tbl.AddToBucket(add);
      var b := Bucket(add.hashv, |chains|);
      TotalUpdate(chains, b, [add] + chains[b], |chains|);
      DoubledTotal(Put(chains, b, add), k);
      KeepsOrder();
    }
  
    /** `HASH_APPEND_LIST`. */
    method AppendToList(add: Element)
      requires Ordered() && tbl != null && add !in items
      modifies this`items, tbl`tail, items`next, add`next, add`prev
      ensures Ordered() && items == old(items) + [add]
    {
      ghost var was := items;
      add.next := null;
      add.prev := tbl.tail;
      tbl.tail.next := add;
      tbl.tail := add;
      items := was + [add];
      DistinctInsert(was, |was|, add);
      assert items == InsertAt(was, |was|, add);
      forall i | 0 <= i < |items| ensures items[i].prev == Before(items, i) {
        assert i < |was| ==> was[i].prev == Before(was, i);
      }
    }

    /** The first item of a table. */
    method Start(add: Element)
      requires Valid() && head == null
      modifies this, add`next, add`prev
      ensures Ordered() && tbl != null && fresh(tbl) && fresh(tbl.buckets) && items == [add]
      ensures tbl.Valid() && tbl.members == {} && tbl.numItems == 0 == Total(tbl.chains)
    {
      add.next := null;
      add.prev := null;
      tbl := new Table(add);
      head, items := add, [add];
      EmptyCounts(32, 0, 32);
    }

    method AddFirst(add: Element)
      requires Valid() && head == null
      modifies this, add
      ensures Valid() && items == [add]
    {
      Start(add);
      AddToTable(add, []);
    }

    /** `HASH_ADD_KEYPTR_BYHASHVALUE`. */
    method Add(add: Element)
      requires Valid() && add !in items
      modifies Own(), items`next, items`hhNext, items`hhPrev, add
      ensures Valid() && items == old(items) + [add]
    {
      ghost var was := items;
      if head == null {
        AddFirst(add);
      } else {
        AppendToList(add);
        AddToTable(add, was);
      }
    }

    /** `HASH_FIND_BYHASHVALUE`: an item with the key, exactly when the table holds one. */
    method Find(key: int, hashv: nat) returns (out: Element?)
      requires Valid()
      ensures out != null ==> out in items && Fits(out, key, hashv)
      ensures out == null ==> forall i :: 0 <= i < |items| ==> !Fits(items[i], key, hashv)
      ensures UniqueKeys(items) ==> forall i :: 0 <= i < |items| && Fits(items[i], key, hashv) ==> out == items[i]
    {
      out := null;
      if head != null {
        BucketBelow(hashv, tbl.log2NumBuckets);
        var b := Bucket(hashv, tbl.numBuckets);
        FoundIff(tbl.chains, tbl.members, key, hashv, tbl.log2NumBuckets);
        out := tbl.FindInBucket(b, key, hashv);
      }
    }

    /** `HASH_DELETE_HH` of the item at position k; the last one takes the table with it. */
    method Delete(del: Element, ghost k: nat)
      requires Valid() && k < |items| && items[k] == del
      modifies Own(), items`next, items`prev, items`hhNext, items`hhPrev
      ensures Valid() && items == RemoveAt(old(items), k)
      ensures del.next == old(del.next) && del.prev == old(del.prev)
    {
      ghost var was := items;
      if del.prev == null && del.next == null {
        head, tbl, items := null, null, [];
      } else {
        UnlinkFromList(del, k);
        RemovedSet(was, k);
        RemoveFromTable(del, was);
      }
    }

    /** The item leaves its bucket and is no longer counted. */
    method RemoveFromTable(del: Element, ghost was: seq<Element>)
      requires tbl != null && tbl.Valid() && tbl.members == SetOf(was) && del in was
      requires tbl.numItems == |was| == Total(tbl.chains)
      requires Ordered() && |items| == |was| - 1 && SetOf(items) == SetOf(was) - {del}
      modifies tbl, tbl.buckets, was`hhNext, was`hhPrev
      ensures Valid()
    {
      ghost var b := Bucket(del.hashv, tbl.numBuckets);
      assert del in tbl.members;
      ghost var c := tbl.chains[b];
      ghost var i :| 0 <= i < |c| && c[i] == del;
      TotalUpdate(tbl.chains, b, c[..i] + c[i + 1..], |tbl.chains|);
      tbl.DelInBucket(del, i);
      tbl.numItems := tbl.numItems - 1;
      KeepsOrder();
    }

    method UnlinkFromList(del: Element, ghost k: nat)
      requires Ordered() && k < |items| && items[k] == del && |items| > 1 && tbl != null
      modifies this`head, this`items, tbl`tail, items`next, items`prev
      ensures Ordered() && items == RemoveAt(old(items), k)
      ensures del.next == old(del.next) && del.prev == old(del.prev)
    {
      ghost var was := items;
      if del == tbl.tail {
        tbl.tail := del.prev;
      }
      if del.prev != null {
        del.prev.next := del.next;
      } else {
        head := del.next;
      }
      if del.next != null {
        del.next.prev := del.prev;
      }
      items := RemoveAt(was, k);
      DistinctRemove(was, k);
      forall i | 0 <= i < |items| ensures items[i].next == At(items, i + 1) && items[i].prev == Before(items, i) {
        assert items[i] == was[if i < k then i else i + 1];
      }
    }
  
    /** `HASH_ADD_KEYPTR_BYHASHVALUE_INORDER`: before the first item that compares above. */
    method AddInOrder(add: Element)
      requires Valid() && add !in items
      modifies Own(), items`next, items`prev, items`hhNext, items`hhPrev, add
      ensures Valid() && items == InsertAfter(old(items), add)
      ensures Sorted(old(items)) ==> Sorted(items) && SameRanks(items, old(items) + [add])
    {
      ghost var was := items;
      if Sorted(was) {
        InsertAfterCorrect(was, add);
      }
      if head == null {
        AddFirst(add);
      } else {
        AddNextInOrder(add);
      }
    }

    method AddNextInOrder(add: Element)
      requires Valid() && head != null && add !in items
      modifies Own(), items`next, items`prev, items`hhNext, items`hhPrev, add
      ensures Valid() && items == InsertAfter(old(items), add)
    {
      ghost var was := items;
      InsertOrdered(add);
      AddToTable(add, was);
    }

    method InsertOrdered(add: Element)
      requires Ordered() && head != null && add !in items
      modifies this`head, this`items, tbl`tail, items`next, items`prev, add`next, add`prev
      ensures Ordered() && items == InsertAfter(old(items), add)
      ensures SetOf(items) == SetOf(old(items)) + {add}
    {
      ghost var was, k := items, UpperBound(items, add.rank);
      var iter := FirstAbove(add.rank);
      InsertedSet(was, k, add);
      if iter != null {
        InsertInList(iter, add, k);
      } else {
        AppendToList(add);
        assert InsertAt(was, |was|, add) == was + [add];
      }
    }

    /** The inner loop of the ordered insertion. */
    method FirstAbove(rank: int) returns (iter: Element?)
      requires Ordered() && head != null
      ensures iter == At(items, UpperBound(items, rank))
    {
      iter := head;
      ghost var k := 0;
      while iter != null
        invariant k <= |items| && iter == At(items, k)
        invariant forall i :: 0 <= i < k ==> items[i].rank <= rank
        decreases |items| - k
      {
        if iter.rank > rank {
          break;
        }
        iter := iter.next;
        k := k + 1;
      }
      UpperBoundUnique(items, rank, k);
    }

    method InsertInList(iter: Element, add: Element, ghost k: nat)
      requires Ordered() && tbl != null && add !in items && k < |items| && items[k] == iter
      modifies this`head, this`items, items`next, items`prev, add`next, add`prev
      ensures Ordered() && items == InsertAt(old(items), k, add)
    {
      ghost var was := items;
      add.next := iter;
      add.prev := iter.prev;
      if add.prev != null {
        add.prev.next := add;
      } else {
        head := add;
      }
      iter.prev := add;
      items := InsertAt(was, k, add);
      DistinctInsert(was, k, add);
      forall i | 0 <= i < |items| ensures items[i].next == At(items, i + 1) && items[i].prev == Before(items, i) {
        assert i < k ==> items[i] == was[i];
        assert i > k ==> items[i] == was[i - 1];
      }
    }

    /** `HASH_SRT`: the items in order, the buckets untouched. */
    method Sort()
      requires Valid()
      modifies this`head, this`items, (if tbl == null then {} else {tbl})`tail, items`next, items`prev
      ensures Valid() && items == SortFrom(old(items), 1)
      ensures tbl != null ==> tbl.chains == old(tbl.chains) && tbl.buckets == old(tbl.buckets)
      ensures Sorted(items) && SameRanks(items, old(items))
    {
      SortCorrect(items);
      if head != null {
        SamePermutation(items, SortFrom(items, 1));
        SortOrder();
      }
    }

    method SortOrder()
      requires Ordered() && head != null
      modifies this`head, this`items, tbl`tail, items`next, items`prev
      ensures Ordered() && items == SortFrom(old(items), 1)
    {
      ghost var t;
      head, tbl.tail, t := SortList(head, false, items, SetOf(items));
      items := t;
    }

    /** `HASH_FSCK` finds nothing wrong with a table. */
    method Check() returns (ok: bool)
      requires Valid()
      ensures ok
    {
      ok := true;
      if head != null {
        var count := 0;
        var b := 0;
        while b < tbl.numBuckets
          invariant b <= |tbl.chains| && count == TotalTo(tbl.chains, b)
        {
          var bktCount;
          ok, bktCount := CheckChain(tbl.buckets[b].hhHead, tbl.chains[b]);
          if !ok || tbl.buckets[b].count != bktCount {
            return false;
          }
          count := count + bktCount;
          b := b + 1;
        }
        if count != tbl.numItems {
          return false;
        }
        ok, count := CheckList();
        if !ok || count != tbl.numItems {
          return false;
        }
      }
    }

    method CheckChain(first: Element?, ghost c: seq<Element>) returns (ok: bool, count: nat)
      requires Onward(c) && Backlinked(c) && first == At(c, 0)
      ensures ok && count == |c|
    {
      var thh, prev: Element? := first, null;
      ok, count := true, 0;
      while thh != null
        invariant count <= |c| && thh == At(c, count) && prev == Before(c, count)
        decreases |c| - count
      {
        if prev != thh.hhPrev {
          return false, count;
        }
        count := count + 1;
        prev := thh;
        thh := thh.hhNext;
      }
    }

    method CheckList() returns (ok: bool, count: nat)
      requires Ordered()
      ensures ok && count == |items|
    {
      var thh, prev: Element? := head, null;
      ok, count := true, 0;
      while thh != null
        invariant count <= |items| && thh == At(items, count) && prev == Before(items, count)
        decreases |items| - count
      {
        if prev != thh.prev {
          return false, count;
        }
        count := count + 1;
        prev := thh;
        thh := thh.next;
      }
    }
  }

  lemma {:induction false} UpperBoundUnique(s: seq<Element>, r: int, k: nat)
    requires k <= |s| && (k < |s| ==> s[k].rank > r)
    requires forall i :: 0 <= i < k ==> s[i].rank <= r
    ensures UpperBound(s, r) == k
    decreases |s|
  {
    if k > 0 {
      UpperBoundUnique(s[1..], r, k - 1);
    }
  }

  lemma InsertedSet(s: seq<Element>, k: nat, e: Element)
    requires k <= |s|
    ensures SetOf(InsertAt(s, k, e)) == SetOf(s) + {e}
  {
    var t := InsertAt(s, k, e);
    assert s == s[..k] + s[k..];
    assert t[k] == e;
  }

  lemma RemovedSet(s: seq<Element>, k: nat)
    requires k < |s| && Distinct(s)
    ensures SetOf(RemoveAt(s, k)) == SetOf(s) - {s[k]}
  {
    var t := RemoveAt(s, k);
    assert s == s[..k] + [s[k]] + s[k + 1..];
    assert forall i :: 0 <= i < |t| ==> t[i] == s[if i < k then i else i + 1];
  }

  lemma SamePermutation(s: seq<Element>, t: seq<Element>)
    requires multiset(t) == multiset(s)
    ensures SetOf(s) == SetOf(t) && |s| == |t|
  {
    forall e | e in SetOf(s) ensures e in t {
      assert e in multiset(s);
    }
    forall e | e in SetOf(t) ensures e in s {
      assert e in multiset(t);
    }
    assert |multiset(s)| == |multiset(t)|;
  }
}
