/** The intrusive doubly-linked list (global/list.cpp) and the recycling allocator behind it.

    A list owns its elements through back pointers: `element.list`. That one field is what lets an
    element be deleted from its list by someone who only holds the element, and it is also what keeps
    two lists disjoint without any separate bookkeeping. */
module LinkedLists {

  /** The k-th element of a chain, or null on either side of it. */
  function Nth(s: seq<LinkedElement>, k: int): LinkedElement? {
    if 0 <= k < |s| then s[k] else null
  }

  /** What a nullable link contributes to a frame. */
  function IfAny(e: LinkedElement?): set<LinkedElement> {
    if e == null then {} else {e}
  }

  ghost predicate Distinct<T>(s: seq<T>) {
    forall i, j :: 0 <= i < j < |s| ==> s[i] != s[j]
  }

  /** The sequence without its k-th entry. */
  function Without<T>(s: seq<T>, k: nat): seq<T>
    requires k < |s|
  {
    s[..k] + s[k + 1..]
  }

  /** The sequence with `e` at place k, and what was there after it. */
  function With<T>(s: seq<T>, k: nat, e: T): seq<T>
    requires k <= |s|
  {
    s[..k] + [e] + s[k..]
  }

  lemma DistinctWith<T>(s: seq<T>, k: nat, e: T)
    requires k <= |s| && Distinct(s) && e !in s
    ensures Distinct(With(s, k, e))
  {
  }

  ghost function Elements<T>(s: seq<T>): set<T> {
    set x | x in s
  }

  /** The sequence without the members of `xs`, order kept. */
  function Minus<T(==)>(s: seq<T>, xs: set<T>): (r: seq<T>)
    ensures |r| <= |s| && forall i :: 0 <= i < |r| ==> r[i] in s && r[i] !in xs
    ensures forall i :: 0 <= i < |s| && s[i] !in xs ==> s[i] in r
  {
    if s == [] then [] else (if s[0] in xs then [] else [s[0]]) + Minus(s[1..], xs)
  }

  lemma {:induction false} MinusAppend<T>(s: seq<T>, t: seq<T>, xs: set<T>)
    ensures Minus(s + t, xs) == Minus(s, xs) + Minus(t, xs)
  {
    if s == [] {
      assert s + t == t;
    } else {
      assert (s + t)[1..] == s[1..] + t;
      MinusAppend(s[1..], t, xs);
    }
  }

  lemma {:induction false} MinusNone<T>(s: seq<T>, xs: set<T>)
    requires forall x :: x in s ==> x !in xs
    ensures Minus(s, xs) == s
  {
    if s != [] {
      MinusNone(s[1..], xs);
    }
  }

  lemma {:induction false} MinusTwice<T>(s: seq<T>, xs: set<T>, ys: set<T>)
    ensures Minus(Minus(s, xs), ys) == Minus(s, xs + ys)
  {
    if s != [] {
      MinusTwice(s[1..], xs, ys);
      MinusAppend(if s[0] in xs then [] else [s[0]], Minus(s[1..], xs), ys);
    }
  }

  /** Removing a value that was not there, or was only just appended, gives back the sequence. */
  lemma MinusNew<T>(s: seq<T>, e: T)
    requires e !in s
    ensures Minus(s, {e}) == s && Minus(s + [e], {e}) == s
  {
    MinusNone(s, {e});
    MinusAppend(s, [e], {e});
  }

  lemma DistinctAppend<T>(s: seq<T>, e: T)
    requires Distinct(s) && e !in s
    ensures Distinct(s + [e])
  {
  }

  lemma {:induction false} MinusDistinct<T>(s: seq<T>, xs: set<T>)
    requires Distinct(s)
    ensures Distinct(Minus(s, xs))
  {
    if s != [] {
      MinusDistinct(s[1..], xs);
      assert s[0] !in s[1..];
    }
  }

  lemma DistinctWithout<T>(s: seq<T>, k: nat)
    requires k < |s| && Distinct(s)
    ensures Distinct(Without(s, k))
    ensures forall x :: x in Without(s, k) <==> x in s && x != s[k]
  {
    forall x | x in s && x != s[k]
      ensures x in Without(s, k)
    {
      var i :| 0 <= i < |s| && s[i] == x;
      assert Without(s, k)[if i < k then i else i - 1] == x;
    }
  }

  /** Taking out one position of a duplicate-free sequence takes out just that value. */
  lemma {:induction false} WithoutIsMinus<T>(s: seq<T>, k: nat)
    requires k < |s| && Distinct(s)
    ensures Without(s, k) == Minus(s, {s[k]})
  {
    if k == 0 {
      MinusNone(s[1..], {s[0]});
    } else {
      WithoutIsMinus(s[1..], k - 1);
      assert Without(s, k) == [s[0]] + Without(s[1..], k - 1);
    }
  }

  /** `LinkedList::del`, on a list that is seen as a sequence: the first occurrence goes. */
  function Del<T(==)>(s: seq<T>, x: T): seq<T> {
    if s == [] then [] else if s[0] == x then s[1..] else [s[0]] + Del(s[1..], x)
  }

  lemma {:induction false} DelIsMinus<T>(s: seq<T>, x: T)
    requires Distinct(s)
    ensures Del(s, x) == Minus(s, {x})
  {
    if s != [] {
      DelIsMinus(s[1..], x);
      if s[0] == x {
        MinusNone(s[1..], {x});
      }
    }
  }

  class LinkedElement {
    var ptr: object?
    var next: LinkedElement?
    var prev: LinkedElement?
    var list: LinkedList?

    constructor ()
      ensures ptr == null && next == null && prev == null && list == null
    {
      ptr, next, prev, list := null, null, null, null;
    }

    method LinkAfter(left: LinkedElement)
      requires left != this && left.next != this && left.next != left
      modifies this`next, this`prev, left`next, IfAny(left.next)`prev
      ensures prev == left && next == old(left.next) && left.next == this
      ensures old(left.next) != null ==> old(left.next).prev == this
    {
      var right := left.next;
      prev, next := left, right;
      left.next := this;
      if right != null {
        right.prev := this;
      }
    }

    method LinkBefore(right: LinkedElement)
      requires right != this && right.prev != this && right.prev != right
      modifies this`next, this`prev, right`prev, IfAny(right.prev)`next
      ensures next == right && prev == old(right.prev) && right.prev == this
      ensures old(right.prev) != null ==> old(right.prev).next == this
    {
      var left := right.prev;
      prev, next := left, right;
      right.prev := this;
      if left != null {
        left.next := this;
      }
    }

    method Unlink()
      requires prev != this && next != this
      modifies this`next, this`prev, this`list, IfAny(prev)`next, IfAny(next)`prev
      ensures next == null && prev == null && list == null
      ensures old(prev) != null ==> old(prev).next == old(next)
      ensures old(next) != null ==> old(next).prev == old(prev)
    {
      if prev != null {
        prev.next := next;
      }
      if next != null {
        next.prev := prev;
      }
      next, prev, list := null, null, null;
    }
  }

  /** The allocator all lists share: a FIFO of released elements, so a deleted element is handed out
      again later, possibly to another list. MemoryPools proves the pool underneath is that FIFO. */
  class ElementPool {
    var free: seq<LinkedElement>

    ghost predicate Valid()
      reads this, free
    {
      && Distinct(free)
      && forall e :: e in free ==> e.list == null
    }

    constructor ()
      ensures Valid() && free == []
    {
      free := [];
    }

    /** The element the next allocation hands out, if there is one. */
    function Front(): set<LinkedElement>
      reads this
    {
      if free == [] then {} else {free[0]}
    }

    method Allocate() returns (e: LinkedElement)
      requires Valid()
      modifies this, Front()
      ensures Valid() && e !in free
      ensures if old(free) == [] then fresh(e) else e in old(free) && e == old(free)[0]
      ensures free == if old(free) == [] then [] else old(free)[1..]
      ensures e.ptr == null && e.next == null && e.prev == null && e.list == null
    {
      if free == [] {
        e := new LinkedElement();
      } else {
        e := free[0];
        free := free[1..];
      }
      e.ptr, e.next, e.prev, e.list := null, null, null, null;
    }

    method Deallocate(e: LinkedElement)
      requires Valid() && e !in free && e.list == null
      modifies this
      ensures Valid() && free == old(free) + [e]
    {
      free := free + [e];
    }
  }

  class LinkedList {
    var head: LinkedElement?
    var tail: LinkedElement?
    var size: int
    ghost var elems: seq<LinkedElement>
    // whose list this is, and which of the owner's lists
    ghost const owner: object?
    ghost const slot: nat

    /** The links at position k agree with the chain. */
    ghost predicate LinkedAt(k: int)
      requires 0 <= k < |elems|
      reads this, elems
    {
      elems[k].prev == Nth(elems, k - 1) && elems[k].next == Nth(elems, k + 1)
    }

    ghost predicate Valid()
      reads this, elems
    {
      && size == |elems|
      && head == Nth(elems, 0)
      && tail == Nth(elems, |elems| - 1)
      && Distinct(elems)
      && (forall e :: e in elems ==> e.list == this)
      && forall k :: 0 <= k < |elems| ==> LinkedAt(k)
    }

    constructor (ghost owner: object?, ghost slot: nat)
      ensures Valid() && elems == [] && this.owner == owner && this.slot == slot
    {
      this.owner, this.slot := owner, slot;
      head, tail, size, elems := null, null, 0, [];
    }

    /** Writes elsewhere do not disturb a list. */
    twostate lemma StaysValid()
      requires old(Valid()) && unchanged(this) && forall e :: e in elems ==> unchanged(e)
      ensures Valid()
    {
      forall k | 0 <= k < |elems|
        ensures LinkedAt(k)
      {
        assert elems[k] in elems && old(LinkedAt(k));
      }
    }

    lemma LinksStayInside(e: LinkedElement)
      requires Valid() && e in elems
      ensures e.prev != null ==> e.prev in elems
      ensures e.next != null ==> e.next in elems
    {
      var k :| 0 <= k < |elems| && elems[k] == e;
      assert LinkedAt(k);
    }

    /** Hooks a freshly allocated element onto the end of the chain. */
    method Append(e: LinkedElement)
      requires Valid() && e.list == null && e.next == null
      modifies this, IfAny(tail)`next, e`next, e`prev, e`list
      ensures Valid() && elems == old(elems) + [e]
    {
      ghost var was := elems;
      assert was == [] || LinkedAt(|was| - 1);
      if tail != null {
        e.LinkAfter(tail);
      } else {
        head := e;
        e.prev := null;
      }
      e.list := this;
      tail := e;
      size := size + 1;
      elems := elems + [e];
      forall k | 0 <= k < |elems|
        ensures LinkedAt(k)
      {
        if k < |was| {
          assert old(LinkedAt(k));
        }
      }
    }

    method AddToEnd(ptr: object?, pool: ElementPool) returns (e: LinkedElement)
      requires Valid() && pool.Valid()
      modifies this, IfAny(tail)`next, pool, pool.Front()
      ensures Valid() && pool.Valid()
      ensures elems == old(elems) + [e] && e.ptr == ptr
      ensures if old(pool.free) == [] then fresh(e) else e == old(pool.free)[0]
      ensures pool.free == if old(pool.free) == [] then [] else old(pool.free)[1..]
    {
      e := pool.Allocate();
      e.ptr := ptr;
      Append(e);
    }

    /** Unhooks the element at position k; `DelElement` without the deallocation. */
    method Detach(e: LinkedElement, ghost k: nat)
      requires Valid() && k < |elems| && e == elems[k]
      modifies this, e`next, e`prev, e`list, IfAny(e.prev)`next, IfAny(e.next)`prev
      ensures Valid() && elems == Without(old(elems), k)
      ensures e.list == null
    {
      ghost var was := elems;
      assert LinkedAt(k) && LinkedAt(0) && LinkedAt(|was| - 1);
      assert k > 0 ==> LinkedAt(k - 1);
      assert k + 1 < |was| ==> LinkedAt(k + 1);
      if e == head {
        head := e.next;
      }
      if e == tail {
        tail := e.prev;
      }
      e.Unlink();
      size := size - 1;
      elems := Without(was, k);
      DistinctWithout(was, k);
      forall j | 0 <= j < |elems|
        ensures LinkedAt(j)
      {
        var i := if j < k then j else j + 1;
        assert old(LinkedAt(i)) && elems[j] == was[i];
        assert Nth(elems, j + 1) == Nth(was, if i + 1 == k then k + 1 else i + 1);
        assert Nth(elems, j - 1) == Nth(was, if i - 1 == k then k - 1 else i - 1);
      }
    }

    /** Deletes an element of this list and recycles it. */
    method DelElement(e: LinkedElement, pool: ElementPool)
      requires Valid() && pool.Valid() && e in elems
      modifies this, pool, e`next, e`prev, e`list, IfAny(e.prev)`next, IfAny(e.next)`prev
      ensures Valid() && pool.Valid() && elems == Minus(old(elems), {e})
      ensures e.list == null && pool.free == old(pool.free) + [e]
    {
      hide LinkedAt, Minus, Without;
      ghost var k :| 0 <= k < |elems| && elems[k] == e;
      WithoutIsMinus(elems, k);
      Detach(e, k);
      pool.Deallocate(e);
    }

    /** Finds the first element carrying `ptr`. */
    method ElementOf(ptr: object?) returns (e: LinkedElement?)
      requires Valid()
      ensures e == null ==> forall x :: x in elems ==> x.ptr != ptr
      ensures e != null ==>
                exists k: nat :: k < |elems| && elems[k] == e && e.ptr == ptr
                                 && forall j :: 0 <= j < k ==> elems[j].ptr != ptr
    {
      e := head;
      ghost var k := 0;
      while e != null && e.ptr != ptr
        invariant 0 <= k <= |elems| && e == Nth(elems, k)
        invariant forall j :: 0 <= j < k ==> elems[j].ptr != ptr
        decreases |elems| - k
      {
        assert LinkedAt(k);
        e := e.next;
        k := k + 1;
      }
    }

    /** Deletes the first element that carries `ptr`, if there is one. */
    method DelPtr(ptr: object?, pool: ElementPool) returns (ghost e: LinkedElement?)
      requires Valid() && pool.Valid()
      modifies this, pool, elems`next, elems`prev, elems`list
      ensures Valid() && pool.Valid() && (e == null <==> forall x :: x in old(elems) ==> x.ptr != ptr)
      ensures e == null ==> elems == old(elems) && pool.free == old(pool.free)
      ensures e != null ==> exists k: nat :: k < |old(elems)| && old(elems)[k] == e && e.ptr == ptr
                              && (forall j :: 0 <= j < k ==> old(elems)[j].ptr != ptr)
      ensures e != null ==> e.list == null && pool.free == old(pool.free) + [e]
      ensures forall x :: x in elems <==> x in old(elems) && x != e
    {
      hide Distinct, ElementPool.Valid;
      var element := ElementOf(ptr);
      if element != null {
        LinksStayInside(element);
        DelElement(element, pool);
      }
      e := element;
    }

    /** The position of `ptr`, or -1. */
    method IndexOf(ptr: object?) returns (r: int)
      requires Valid()
      ensures -1 <= r < |elems|
      ensures r == -1 ==> forall x :: x in elems ==> x.ptr != ptr
      ensures r >= 0 ==> elems[r].ptr == ptr && forall j :: 0 <= j < r ==> elems[j].ptr != ptr
    {
      var e, index := head, 0;
      while e != null && e.ptr != ptr
        invariant 0 <= index <= |elems| && e == Nth(elems, index)
        invariant forall j :: 0 <= j < index ==> elems[j].ptr != ptr
        decreases |elems| - index
      {
        assert LinkedAt(index);
        e := e.next;
        index := index + 1;
      }
      r := if e != null then index else -1;
    }

    method Contains(ptr: object?) returns (found: bool)
      requires Valid()
      ensures found <==> exists x :: x in elems && x.ptr == ptr
    {
      var r := IndexOf(ptr);
      found := r != -1;
      assert found ==> elems[r] in elems;
    }

    /** Empties the list from the back, recycling every element in that order. */
    method Release(pool: ElementPool)
      requires Valid() && pool.Valid()
      modifies this, elems, pool
      ensures Valid() && pool.Valid() && elems == []
      ensures multiset(pool.free) == multiset(old(pool.free)) + multiset(old(elems))
      ensures forall x :: x in old(elems) ==> x.list == null && x.ptr == old(x.ptr)
    {
      hide Distinct, ElementPool.Valid, Minus, LinkedAt;
      while tail != null
        invariant Valid() && pool.Valid()
        invariant elems <= old(elems)
        invariant multiset(pool.free) + multiset(elems) == multiset(old(pool.free)) + multiset(old(elems))
        invariant forall x :: x in old(elems) ==> x.ptr == old(x.ptr) && (x in elems || x.list == null)
        decreases |elems|
      {
        LastOut();
        var last: LinkedElement := tail;
        DelElement(last, pool);
      }
    }

    lemma LastOut()
      requires Valid() && elems != []
      ensures tail == elems[|elems| - 1] && Minus(elems, {elems[|elems| - 1]}) == elems[..|elems| - 1]
      ensures multiset(elems) == multiset(elems[..|elems| - 1]) + multiset{elems[|elems| - 1]}
      ensures tail.prev != null ==> tail.prev in elems
      ensures tail.next == null
    {
      var last := |elems| - 1;
      assert LinkedAt(last);
      WithoutIsMinus(elems, last);
      assert Without(elems, last) == elems[..last];
      assert elems == elems[..last] + [elems[last]];
    }

    /** The tail is not set when the list was empty: the result is a well-formed list
        exactly when there was an element already. */
    method AddToFront(ptr: object?, pool: ElementPool)
      requires Valid() && pool.Valid()
      modifies this, IfAny(head)`prev, pool, pool.Front()
      ensures pool.Valid()
      ensures head != null && elems == [head] + old(elems) && head.ptr == ptr
      ensures Valid() <==> old(elems) != []
    {
      var e := pool.Allocate();
      e.ptr := ptr;
      Prepend(e);
    }

    method Prepend(e: LinkedElement)
      requires Valid() && e.list == null && e.prev == null && e.next == null
      modifies this, IfAny(head)`prev, e`next, e`list
      ensures head == e && elems == [e] + old(elems)
      ensures Valid() <==> old(elems) != []
    {
      ghost var was := elems;
      assert was == [] || LinkedAt(0);
      if head != null {
        head.prev := e;
        e.next := head;
      }
      size := size + 1;
      head := e;
      e.list := this;
      elems := [e] + was;
      if was != [] {
        assert elems[|was|] == was[|was| - 1];
        forall k | 0 <= k < |elems|
          ensures LinkedAt(k)
        {
          assert k == 0 || old(LinkedAt(k - 1));
        }
      }
    }

    /** Hooks an element in after the one at place k. */
    method HookAfter(e: LinkedElement, left: LinkedElement, ghost k: nat)
      requires Valid() && k < |elems| && left == elems[k] && e.list == null && e.next == null && e.prev == null
      modifies this, e`next, e`prev, e`list, left`next, IfAny(left.next)`prev
      ensures Valid() && elems == With(old(elems), k + 1, e)
    {
      ghost var was := elems;
      assert LinkedAt(k) && (k + 1 < |was| ==> LinkedAt(k + 1));
      e.LinkAfter(left);
      if e.next == null {
        tail := e;
      }
      e.list := this;
      size := size + 1;
      elems := With(was, k + 1, e);
      DistinctWith(was, k + 1, e);
      forall j | 0 <= j < |elems|
        ensures LinkedAt(j)
      {
        assert j != k + 1 ==> old(LinkedAt(if j <= k then j else j - 1));
      }
    }

    /** Hooks an element in before the one at place k. */
    method HookBefore(e: LinkedElement, right: LinkedElement, ghost k: nat)
      requires Valid() && k < |elems| && right == elems[k] && e.list == null && e.next == null && e.prev == null
      modifies this, e`next, e`prev, e`list, right`prev, IfAny(right.prev)`next
      ensures Valid() && elems == With(old(elems), k, e)
    {
      ghost var was := elems;
      assert LinkedAt(k) && (k > 0 ==> LinkedAt(k - 1));
      e.LinkBefore(right);
      if e.prev == null {
        head := e;
      }
      e.list := this;
      size := size + 1;
      elems := With(was, k, e);
      DistinctWith(was, k, e);
      forall j | 0 <= j < |elems|
        ensures LinkedAt(j)
      {
        assert j != k ==> old(LinkedAt(if j < k then j else j - 1));
      }
    }

    method AddAfterElement(a: LinkedElement, ghost k: nat, ptr: object?, pool: ElementPool) returns (e: LinkedElement)
      requires Valid() && pool.Valid() && k < |elems| && a == elems[k]
      modifies this, a`next, IfAny(a.next)`prev, pool, pool.Front()
      ensures Valid() && pool.Valid() && elems == With(old(elems), k + 1, e) && e.ptr == ptr
      ensures if old(pool.free) == [] then fresh(e) else e == old(pool.free)[0]
    {
      e := pool.Allocate();
      e.ptr := ptr;
      HookAfter(e, a, k);
    }

    /** Adds a pointer after the first element that carries `ptrA`, if there is one. */
    method AddAfter(ptrA: object?, ptrB: object?, pool: ElementPool) returns (ghost k: nat, ghost e: LinkedElement?)
      requires Valid() && pool.Valid()
      modifies this, elems`next, elems`prev, pool, pool.Front()
      ensures Valid() && pool.Valid() && (e == null <==> forall x :: x in old(elems) ==> old(x.ptr) != ptrA)
      ensures e == null ==> elems == old(elems)
      ensures e != null ==>
              k < |old(elems)| && old(elems[k].ptr) == ptrA && forall j :: 0 <= j < k ==> old(elems[j].ptr) != ptrA
      ensures e != null ==> elems == With(old(elems), k + 1, e) && e.ptr == ptrB
    {
      hide Distinct, ElementPool.Valid;
      k, e := 0, null;
      var a := ElementOf(ptrA);
      if a != null {
        k :| k < |elems| && elems[k] == a && forall j :: 0 <= j < k ==> elems[j].ptr != ptrA;
        LinksStayInside(a);
        e := AddAfterElement(a, k, ptrB, pool);
      }
    }

    /** Adds a pointer before an element. The element that is made is not what is returned: that is null. */
    method AddBeforeElement(a: LinkedElement?, ghost k: nat, ptr: object?, pool: ElementPool)
      returns (r: LinkedElement?, ghost e: LinkedElement?)
      requires Valid() && pool.Valid() && (a != null ==> k < |elems| && a == elems[k])
      modifies this, IfAny(a)`prev, IfAny(if a == null then null else a.prev)`next, pool, pool.Front()
      ensures Valid() && pool.Valid() && r == null && (e == null <==> a == null)
      ensures a == null ==> elems == old(elems)
      ensures a != null ==> elems == With(old(elems), k, e) && e.ptr == ptr
    {
      r, e := null, null;
      if a != null {
        var b := pool.Allocate();
        b.ptr := ptr;
        HookBefore(b, a, k);
        e := b;
      }
    }
  }
}
