/** All the lists of a process over the one element allocator (gLinkedElementAllocator).

    The invariant is what makes a raw element pointer meaningful: an element is in exactly the list
    its back pointer names, or it is on the free queue and names none. The two ghost maps say what
    the pointers amount to, so that callers can reason about values. */
module ListHeaps {
  import opened LinkedLists

  class ListHeap {
    const pool: ElementPool
    ghost var lists: set<LinkedList>
    // the chain of every list
    ghost var chains: map<LinkedList, seq<LinkedElement>>
    // what every element that is in some list carries
    ghost var carries: map<LinkedElement, object?>
    // every element handed out so far, listed or free
    ghost var cells: set<LinkedElement>

    /** The lists and the free queue are well formed. */
    ghost predicate Formed()
      reads this`lists, this`cells, pool, lists, cells
    {
      && (forall e :: e in pool.free ==> e in cells)
      && pool.Valid()
      && (forall l, e :: l in lists && e in l.elems ==> e in cells)
      && (forall l :: l in lists ==> l.Valid())
    }

    /** The ghost maps say what the pointers say. */
    ghost predicate Mirrored()
      reads this, lists`elems, cells`ptr, cells`list
    {
      && carries.Keys <= cells && chains.Keys == lists
      && (forall l :: l in chains ==> l.elems == chains[l])
      && (forall l, e :: l in chains && e in chains[l] ==> e in carries)
      && (forall e :: e in carries ==> e.ptr == carries[e] && e.list in chains && e in chains[e.list])
    }

    ghost predicate Valid()
      reads this, pool, lists, cells
    {
      Formed() && Mirrored()
    }

    /** Lists and elements only ever join the heap's frame as new objects. */
    twostate predicate Grown()
      reads this`lists, this`cells
    {
      && (forall l <- lists :: l in old(lists) || fresh(l))
      && (forall e <- cells :: e in old(cells) || fresh(e))
    }

    /** An element sits in one list only, once, and its back pointer names that list. */
    lemma OnePlace(e: LinkedElement, l: LinkedList)
      requires Valid() && l in chains && e in chains[l]
      ensures e in carries && e in cells && e.list == l && Distinct(chains[l])
      ensures forall m :: m in chains && e in chains[m] ==> m == l
    {
    }

    lemma OnlyHere(e: LinkedElement, l: LinkedList)
      requires Valid() && l in chains && e in chains[l]
      ensures Distinct(chains[l]) && forall m <- chains :: m != l ==> e !in chains[m]
    {
      OnePlace(e, l);
    }

    /** What the real fields say about a chain. */
    lemma Reading(l: LinkedList)
      requires Valid() && l in chains
      ensures l.Valid() && l.elems == chains[l] && l.size == |chains[l]|
      ensures forall x <- chains[l] :: x in carries && x.ptr == carries[x]
    {
    }

    constructor ()
      ensures Valid() && chains == map[] && carries == map[] && fresh(pool) && lists == {} && cells == {}
    {
      pool := new ElementPool();
      new;
      lists, chains, carries, cells := {}, map[], map[], {};
    }

    method NewList(ghost owner: object?, ghost slot: nat) returns (l: LinkedList)
      requires Valid()
      modifies this
      ensures Valid() && fresh(l) && lists == old(lists) + {l} && l.owner == owner && l.slot == slot
      ensures chains == old(chains)[l := []] && carries == old(carries) && cells == old(cells)
    {
      hide LinkedList.Valid, ElementPool.Valid;
      l := new LinkedList(owner, slot);
      lists, chains := lists + {l}, chains[l := []];
    }

    /** The pointer work of `Add`. */
    method Hook(l: LinkedList, ptr: object?) returns (e: LinkedElement)
      requires Formed() && l in lists
      modifies this`cells, pool, lists, cells
      ensures Formed() && cells == old(cells) + {e} && (fresh(e) || e in old(cells))
      ensures l.elems == old(l.elems) + [e] && e.ptr == ptr && e.list == l
      ensures forall m :: m in lists && m != l ==> m.elems == old(m.elems)
      ensures forall x :: x in old(cells) && x != e ==> x.ptr == old(x.ptr) && x.list == old(x.list)
      ensures old(allocated(e)) ==> old(e.list) == null
    {
      assert l.tail != null ==> l.tail in l.elems && l.tail.list == l;
      e := l.AddToEnd(ptr, pool);
      forall m | m in lists && m != l
        ensures m.Valid()
      {
        m.StaysValid();
      }
      cells := cells + {e};
    }

    method Add(l: LinkedList, ptr: object?) returns (e: LinkedElement)
      requires Valid() && l in chains
      modifies this, pool, lists, cells
      ensures Valid() && lists == old(lists) && e !in old(carries) && (fresh(e) || e in old(cells))
      ensures cells == old(cells) + {e}
      ensures chains == old(chains)[l := old(chains)[l] + [e]]
      ensures carries == old(carries)[e := ptr]
    {
      hide LinkedList.Valid, ElementPool.Valid;
      e := Hook(l, ptr);
      chains, carries := chains[l := chains[l] + [e]], carries[e := ptr];
    }

    /** The pointer work of `Del`. */
    method Unhook(l: LinkedList, e: LinkedElement)
      requires Formed() && l in lists && e in l.elems
      modifies pool, lists, cells
      ensures Formed() && l.elems == Minus(old(l.elems), {e})
      ensures forall m :: m in lists && m != l ==> m.elems == old(m.elems)
      ensures forall x :: x in cells ==> x.ptr == old(x.ptr) && (x != e ==> x.list == old(x.list))
      ensures forall m :: m in lists ==> e !in m.elems
    {
      assert l.Valid();
      l.LinksStayInside(e);
      l.DelElement(e, pool);
      forall m | m in lists && m != l
        ensures m.Valid()
      {
        m.StaysValid();
      }
    }

    method Del(l: LinkedList, e: LinkedElement)
      requires Valid() && l in chains && e in chains[l]
      modifies this, pool, lists, cells
      ensures Valid() && lists == old(lists) && cells == old(cells)
      ensures chains == old(chains)[l := Minus(old(chains)[l], {e})]
      ensures carries == old(carries) - {e}
    {
      hide LinkedList.Valid, ElementPool.Valid, Minus;
      Unhook(l, e);
      chains, carries := chains[l := Minus(chains[l], {e})], carries - {e};
    }

    /** LinkedElement::DeleteFromList: an element leaves whichever list its back pointer names. */
    method DeleteFromList(e: LinkedElement)
      requires Valid() && e in carries
      modifies this, pool, lists, cells
      ensures Valid() && lists == old(lists) && cells == old(cells) && carries == old(carries) - {e}
      ensures var l := old(e.list); l in old(chains) && chains == old(chains)[l := Minus(old(chains)[l], {e})]
    {
      if e.list != null {
        Del(e.list, e);
      }
    }

    method Release(l: LinkedList)
      requires Valid() && l in chains
      modifies this, pool, lists, cells
      ensures Valid() && lists == old(lists) && cells == old(cells)
      ensures chains == old(chains)[l := []]
      ensures carries == old(carries) - Elements(old(chains)[l])
    {
      hide LinkedList.Valid, ElementPool.Valid;
      Empty(l);
      carries := carries - Elements(chains[l]);
      chains := chains[l := []];
    }

    /** Deletes an empty list. */
    method Drop(l: LinkedList)
      requires Valid() && l in chains && chains[l] == []
      modifies this
      ensures Valid() && lists == old(lists) - {l} && cells == old(cells)
      ensures chains == old(chains) - {l} && carries == old(carries)
    {
      hide LinkedList.Valid, ElementPool.Valid;
      lists, chains := lists - {l}, chains - {l};
    }

    method Empty(l: LinkedList)
      requires Formed() && l in lists
      modifies pool, lists, cells
      ensures Formed() && l.elems == []
      ensures forall m :: m in lists && m != l ==> m.elems == old(m.elems)
      ensures forall x :: x in cells ==> x.ptr == old(x.ptr) && (x !in old(l.elems) ==> x.list == old(x.list))
      ensures forall m, x :: m in lists && m != l && x in m.elems ==> x !in old(l.elems)
    {
      assert l.Valid();
      l.Release(pool);
      forall x | x in pool.free
        ensures x in cells
      {
        assert x in multiset(pool.free);
      }
      forall m | m in lists && m != l
        ensures m.Valid()
      {
        m.StaysValid();
      }
    }
  }
}
