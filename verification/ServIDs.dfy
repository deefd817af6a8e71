/** The allocator of server ids (roommgr/main.cpp): a table of bits, searched in a circle. */
module ServIDs {

  const TABLE_SIZE := 65536
  const MAX := TABLE_SIZE * 32

  /** How far it is from `from` to `id`, going up and round. */
  function Distance(from: nat, id: nat): nat
    requires from < MAX && id < MAX
  {
    if id >= from then id - from else id + MAX - from
  }

  /** The bit that `1 << j` means to the processor, which looks at the low five bits of `j` alone. */
  function Shifted(j: int): (b: nat)
    ensures b < 32
  {
    j % 32
  }

  /** Division and remainder of C, which go towards zero. */
  function Quotient(a: int, b: int): int
    requires b > 0
  {
    if a >= 0 then a / b else -((-a) / b)
  }

  function Remainder(a: int, b: int): int
    requires b > 0
  {
    a - Quotient(a, b) * b
  }

  /** The word of an id, and the bit. */
  function WordOf(id: nat): nat {
    id / 32
  }

  function BitOf(id: nat): (b: nat)
    ensures b < 32
  {
    id % 32
  }

  lemma Placed(id: nat, k: nat)
    ensures WordOf(id) == WordOf(k) && BitOf(id) == BitOf(k) <==> id == k
    ensures id < MAX ==> WordOf(id) < TABLE_SIZE
  {
  }

  // ---- the search, turn by turn

  /** Where the search is: the cursor, and the word and the bit that go along with it. */
  datatype Place = Place(id: nat, i: nat, j: nat)

  function Start(cursor: nat): Place {
    Place(cursor, WordOf(cursor), BitOf(cursor))
  }

  function Clipped(p: Place): Place {
    if p.id >= MAX then Place(0, 0, 0) else p
  }

  function Stepped(p: Place): Place {
    if p.j + 1 == 32 then Place(p.id + 1, p.i + 1, 0) else Place(p.id + 1, p.i, p.j + 1)
  }

  /** Before turn `n`, and where it looks at the table. */
  function Reached(cursor: nat, n: nat): Place
    decreases n, 0
  {
    if n == 0 then Start(cursor) else Stepped(Tested(cursor, n - 1))
  }

  function Tested(cursor: nat, n: nat): Place
    decreases n, 1
  {
    Clipped(Reached(cursor, n))
  }

  lemma StartSteps(id: nat)
    ensures Stepped(Start(id)) == Start(id + 1) && Start(0) == Place(0, 0, 0)
  {
  }

  function Wrapped(a: nat): (r: nat)
    ensures r < MAX
  {
    a % MAX
  }

  lemma Around(a: nat)
    ensures Wrapped(a + 1) == if Wrapped(a) + 1 >= MAX then 0 else Wrapped(a) + 1
    ensures a <= MAX ==> Wrapped(a) == if a >= MAX then 0 else a
  {
  }

  /** Word and bit stay those of the cursor, which goes round the table. */
  lemma {:induction false} TestedIs(cursor: nat, n: nat)
    requires cursor <= MAX
    ensures Tested(cursor, n) == Start(Wrapped(cursor + n))
  {
    hide WordOf, BitOf, Wrapped;
    StartSteps(0);
    if n == 0 {
      Around(cursor);
    } else {
      TestedIs(cursor, n - 1);
      StartSteps(Wrapped(cursor + n - 1));
      Around(cursor + n - 1);
    }
  }

  /** The turn that looks at `id`. */
  function TurnOf(cursor: nat, id: nat): (n: nat)
    requires cursor <= MAX && id < MAX
    ensures n < MAX && Wrapped(cursor + n) == id
  {
    Distance(if cursor >= MAX then 0 else cursor, id)
  }

  class ServIDTable {
    /** Word by word, bit by bit. */
    const bits: array2<bool>
    var gCurServID: nat

    constructor ()
      ensures Valid() && fresh(bits) && forall id :: 0 <= id < MAX ==> !InUse(id)
    {
      bits := new bool[TABLE_SIZE, 32]((_, _) => false);
      gCurServID := 0;
    }

    predicate Valid()
      reads this
    {
      bits.Length0 == TABLE_SIZE && bits.Length1 == 32 && gCurServID <= MAX
    }

    predicate InUse(id: nat)
      requires bits.Length0 == TABLE_SIZE && bits.Length1 == 32 && id < MAX
      reads bits
    {
      Placed(id, id);
      bits[WordOf(id), BitOf(id)]
    }

    /** Where the search starts. */
    function Cursor(): nat
      reads this
    {
      if gCurServID >= MAX then 0 else gCurServID
    }

    /** `id` is free, and the first one that is, from the cursor on and round. */
    ghost predicate FirstFree(id: nat)
      requires Valid() && id < MAX
      reads this, bits
    {
      && Cursor() < MAX && !InUse(id)
      && forall k :: 0 <= k < MAX && Distance(Cursor(), k) < Distance(Cursor(), id) ==> InUse(k)
    }

    ghost predicate Free(id: nat)
      requires Valid()
      reads this, bits
    {
      id < MAX && !InUse(id)
    }

    /** The bit that turn `n` of the search looks at. */
    ghost predicate Set(n: nat)
      requires Valid()
      reads this, bits
    {
      var p := Tested(gCurServID, n);
      TestedIs(gCurServID, n);
      Placed(p.id, p.id);
      bits[p.i, p.j]
    }

    /** The search ends in turn `n`, and in no turn before it. */
    ghost predicate EndsIn(n: nat)
      requires Valid()
      reads this, bits
    {
      !Set(n) && forall m :: 0 <= m < n ==> Set(m)
    }

    lemma SetIs(n: nat)
      requires Valid()
      ensures Tested(gCurServID, n).id < MAX && Set(n) == InUse(Tested(gCurServID, n).id)
    {
      TestedIs(gCurServID, n);
    }

    lemma TurnTests(id: nat)
      requires Valid() && id < MAX
      ensures Tested(gCurServID, TurnOf(gCurServID, id)).id == id && Set(TurnOf(gCurServID, id)) == InUse(id)
    {
      SetIs(TurnOf(gCurServID, id));
      TestedIs(gCurServID, TurnOf(gCurServID, id));
    }

    /** Where the search ends is the first free id from the cursor on, and it ends within one round. */
    lemma EndsFirst(n: nat)
      requires Valid() && EndsIn(n)
      ensures n < MAX && FirstFree(Tested(gCurServID, n).id)
    {
      hide Tested, InUse, Set;
      var id := Tested(gCurServID, n).id;
      SetIs(n);
      TurnTests(id);
      TestedIs(gCurServID, n);
      forall k | 0 <= k < MAX && Distance(Cursor(), k) < Distance(Cursor(), id)
        ensures InUse(k)
      {
        TurnTests(k);
      }
    }

    /** The search ends if and only if some id is free, then within one round, and at the first free one. */
    lemma SearchEnds()
      requires Valid()
      ensures (exists n: nat :: EndsIn(n)) <==> exists id: nat :: Free(id)
      ensures forall n: nat :: EndsIn(n) ==> n < MAX && FirstFree(Tested(gCurServID, n).id)
    {
      forall n: nat | EndsIn(n)
        ensures n < MAX && FirstFree(Tested(gCurServID, n).id) && Free(Tested(gCurServID, n).id)
      {
        EndsFirst(n);
      }
      if id: nat :| Free(id) {
        TurnTests(id);
        var n := FirstClear(TurnOf(gCurServID, id));
      }
    }

    lemma {:induction false} FirstClear(bound: nat) returns (n: nat)
      requires Valid() && !Set(bound)
      ensures n <= bound && EndsIn(n)
    {
      n := 0;
      while Set(n)
        invariant n <= bound && forall m :: 0 <= m < n ==> Set(m)
        decreases bound - n
      {
        n := n + 1;
      }
    }

    /** Some id is free: without one the search would never end. */
    method AllocateServID() returns (id: nat)
      requires Valid() && exists free: nat :: Free(free)
      modifies this`gCurServID, bits
      ensures Valid() && id < MAX && old(FirstFree(id)) && gCurServID == id + 1
      ensures forall k :: 0 <= k < MAX ==> (InUse(k) <==> old(InUse(k)) || k == id)
    {
      hide WordOf, BitOf, Set, FirstFree;
      SearchEnds();
      ghost var last: nat :| EndsIn(last);
      ghost var cursor, n := gCurServID, 0;
      forall m | 0 <= m <= last
        ensures Tested(cursor, m).id < MAX && (InUse(Tested(cursor, m).id) <==> m < last)
      {
        SetIs(m);
      }
      var i: nat, j: nat := WordOf(gCurServID), BitOf(gCurServID);
      while true
        invariant Valid() && n <= last && Place(gCurServID, i, j) == Reached(cursor, n)
        invariant forall m :: 0 <= m <= last ==>
                Tested(cursor, m).id < MAX && (InUse(Tested(cursor, m).id) <==> m < last)
        modifies this`gCurServID
        decreases last - n
      {
        if gCurServID >= MAX {
          gCurServID := 0;
          i, j := 0, 0;
        }
        TestedIs(cursor, n);
        Placed(gCurServID, gCurServID);
        if !bits[i, j] {
          break;
        }
        j := j + 1;
        if j == 32 {
          i, j := i + 1, 0;
        }
        gCurServID := gCurServID + 1;
        n := n + 1;
      }
      bits[i, j] := true;
      gCurServID := gCurServID + 1;
      id := gCurServID - 1;
      forall k | 0 <= k < MAX && k != id ensures WordOf(k) != WordOf(id) || BitOf(k) != BitOf(id) {
        Placed(id, k);
      }
    }

    /** Gives an id back. The check lets -1 through: what is cleared then is bit 31 of word 0. */
    method FreeServID(servID: int)
      requires Valid()
      modifies bits
      ensures Valid() && gCurServID == old(gCurServID)
      ensures 0 <= servID < MAX ==> forall k :: 0 <= k < MAX ==> (InUse(k) <==> old(InUse(k)) && k != servID)
      ensures servID == -1 ==> forall k :: 0 <= k < MAX ==> (InUse(k) <==> old(InUse(k)) && k != 31)
      ensures servID < -1 || servID >= MAX ==> forall k :: 0 <= k < MAX ==> (InUse(k) <==> old(InUse(k)))
      ensures (forall k :: 0 <= k < MAX ==> (InUse(k) <==> old(InUse(k)) && k != servID)) <==>
              servID != -1 || !old(InUse(31))
    {
      if servID < -1 || servID >= MAX {
        return;
      }
      var i, j := Quotient(servID, 32), Remainder(servID, 32);
      bits[i, Shifted(j)] := false;
      assert servID == -1 ==> !InUse(31);
    }
  }

  /** Ids in the hands of a caller who gives back only what it holds. */
  class Holder {
    const table: ServIDTable
    ghost var held: set<nat>

    constructor (table: ServIDTable)
      requires table.Valid() && forall id :: 0 <= id < MAX ==> !table.InUse(id)
      ensures Valid() && held == {} && this.table == table
    {
      this.table, held := table, {};
    }

    /** In use is exactly what is held. */
    ghost predicate Valid()
      reads this, table, table.bits
    {
      table.Valid() && (forall k :: 0 <= k < MAX ==> (table.InUse(k) <==> k in held)) && forall k <- held :: k < MAX
    }

    method Take() returns (id: nat)
      requires Valid() && exists free: nat :: free < MAX && free !in held
      modifies this, table`gCurServID, table.bits
      ensures Valid() && id !in old(held) && held == old(held) + {id}
    {
      ghost var free: nat :| free < MAX && free !in held;
      assert table.Free(free);
      id := table.AllocateServID();
      held := held + {id};
    }

    method Return(id: nat)
      requires Valid() && id in held
      modifies this, table.bits
      ensures Valid() && held == old(held) - {id}
    {
      table.FreeServID(id);
      held := held - {id};
    }
  }
}
