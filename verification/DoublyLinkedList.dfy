/** The doubly linked list macros: an intrusive list whose head keeps a back link to the tail. */
module DoublyLinkedList {
  import opened Elements
  import opened StableSort
  import opened ListSort

  /** The element a back link leads to; the head's leads to the tail. */
  ghost function Behind(s: seq<Element>, i: nat): Element?
    requires i < |s|
  {
    if i == 0 then s[|s| - 1] else s[i - 1]
  }

  ghost predicate Circular(s: seq<Element>)
    reads s`prev
  {
    forall i {:trigger s[i].prev} :: 0 <= i < |s| ==> s[i].prev == Behind(s, i)
  }

  ghost function RemoveAt(s: seq<Element>, k: nat): seq<Element>
    requires k < |s|
  {
    s[..k] + s[k + 1..]
  }

  lemma DistinctInsert(s: seq<Element>, k: nat, e: Element)
    requires k <= |s| && Distinct(s) && e !in s
    ensures Distinct(InsertAt(s, k, e))
  {
  }

  lemma DistinctRemove(s: seq<Element>, k: nat)
    requires k < |s| && Distinct(s)
    ensures Distinct(RemoveAt(s, k))
  {
  }

  class List {
    var head: Element?
    ghost var nodes: seq<Element>

    ghost predicate Valid()
      reads this, nodes`next, nodes`prev
    {
      && head == At(nodes, 0)
      && Distinct(nodes)
      && Forward(nodes)
      && Circular(nodes)
    }

    constructor ()
      ensures Valid() && nodes == []
    {
      head, nodes := null, [];
    }

    /** `DL_APPEND2`. */
    method Append(add: Element)
      requires Valid() && add !in nodes
      modifies this, nodes`next, nodes`prev, add`next, add`prev
      ensures Valid() && nodes == old(nodes) + [add]
    {
      ghost var was := nodes;
      if head != null {
        add.prev := head.prev;
        head.prev.next := add;
        head.prev := add;
        add.next := null;
      } else {
        head := add;
        head.prev := head;
        head.next := null;
      }
      nodes := was + [add];
    }

    /** `DL_PREPEND2`. */
    method Prepend(add: Element)
      requires Valid() && add !in nodes
      modifies this, nodes`next, nodes`prev, add`next, add`prev
      ensures Valid() && nodes == [add] + old(nodes)
    {
      ghost var was := nodes;
      add.next := head;
      if head != null {
        add.prev := head.prev;
        head.prev := add;
      } else {
        add.prev := add;
      }
      head := add;
      nodes := [add] + was;
    }

    /** `DL_APPEND_ELEM2`: after the element at position k - 1, or at the front. */
    method AppendElem(el: Element?, add: Element, ghost k: nat)
      requires Valid() && add !in nodes && k <= |nodes|
      requires el == if k == 0 then null else nodes[k - 1]
      modifies this, nodes`next, nodes`prev, add`next, add`prev
      ensures Valid() && nodes == InsertAt(old(nodes), k, add)
    {
      ghost var was := nodes;
      if el != null {
        InsertBehind(el, add, k);
      } else {
        Prepend(add);
        assert nodes == InsertAt(was, 0, add);
      }
    }

    /** `DL_APPEND_ELEM2` with an element to go after. */
    method InsertBehind(el: Element, add: Element, ghost k: nat)
      requires Valid() && add !in nodes && 0 < k <= |nodes| && el == nodes[k - 1]
      modifies `nodes, nodes`next, nodes`prev, add`next, add`prev
      ensures Valid() && nodes == InsertAt(old(nodes), k, add)
    {
      ghost var was := nodes;
      add.next := el.next;
      add.prev := el;
      el.next := add;
      if add.next != null {
        add.next.prev := add;
      } else {
        head.prev := add;
      }
      nodes := InsertAt(was, k, add);
      DistinctInsert(was, k, add);
      forall i | 0 <= i < |nodes| ensures nodes[i].next == At(nodes, i + 1) && nodes[i].prev == Behind(nodes, i) {
        assert i < k ==> nodes[i] == was[i];
        assert i > k ==> nodes[i] == was[i - 1];
      }
    }

    /** `DL_LOWER_BOUND2`: the last element before the first that does not compare below. */
    method FindLowerBound(like: Element) returns (elt: Element?)
      requires Valid()
      ensures var k := LowerBound(nodes, like.rank); elt == Before(nodes, k)
    {
      if head == null || head.rank >= like.rank {
        elt := null;
      } else {
        elt := head;
        ghost var i := 0;
        while elt.next != null
          invariant 0 <= i < |nodes| && elt == nodes[i]
          invariant forall j :: 0 <= j <= i ==> nodes[j].rank < like.rank
          decreases |nodes| - i
        {
          if elt.next.rank >= like.rank {
            break;
          }
          elt := elt.next;
          i := i + 1;
        }
        LowerBoundUnique(nodes, like.rank, i + 1);
      }
    }

    /** `DL_INSERT_INORDER2`. */
    method InsertInOrder(add: Element)
      requires Valid() && add !in nodes
      modifies this, nodes`next, nodes`prev, add`next, add`prev
      ensures Valid() && nodes == InsertBefore(old(nodes), add)
      ensures Sorted(old(nodes)) ==> Sorted(nodes) && SameRanks(nodes, [add] + old(nodes))
    {
      ghost var was := nodes;
      if head != null {
        var elt := FindLowerBound(add);
        AppendElem(elt, add, LowerBound(nodes, add.rank));
      } else {
        head := add;
        head.prev := head;
        head.next := null;
        nodes := InsertBefore(nodes, add);
      }
      if Sorted(was) {
        InsertBeforeCorrect(was, add);
      }
    }

    /** `DL_DELETE2` of the element at position k. */
    method Delete(del: Element, ghost k: nat)
      requires Valid() && k < |nodes| && nodes[k] == del
      modifies this, nodes`next, nodes`prev
      ensures Valid() && nodes == RemoveAt(old(nodes), k)
      ensures del.next == old(del.next) && del.prev == old(del.prev)
    {
      ghost var was := nodes;
      if del.prev == del {
        head := null;
      } else if del == head {
        del.next.prev := del.prev;
        head := del.next;
      } else {
        del.prev.next := del.next;
        if del.next != null {
          del.next.prev := del.prev;
        } else {
          head.prev := del.prev;
        }
      }
      nodes := RemoveAt(was, k);
      DistinctRemove(was, k);
    }

    /** `DL_SORT2`. */
    method Sort()
      requires Valid()
      modifies this, nodes`next, nodes`prev
      ensures Valid() && nodes == SortFrom(old(nodes), 1)
      ensures Sorted(nodes) && SameRanks(nodes, old(nodes))
      ensures multiset(nodes) == multiset(old(nodes))
    {
      SortCorrect(nodes);
      if head != null {
        ghost var all := set e | e in nodes;
        ghost var t;
        var tail;
        head, tail, t := SortList(head, true, nodes, all);
        nodes := t;
      }
    }
  }

  lemma {:induction false} LowerBoundUnique(s: seq<Element>, r: int, k: nat)
    requires k <= |s| && (k < |s| ==> s[k].rank >= r)
    requires forall i :: 0 <= i < k ==> s[i].rank < r
    ensures LowerBound(s, r) == k
    decreases |s|
  {
    if k > 0 {
      LowerBoundUnique(s[1..], r, k - 1);
    }
  }
}
