/** The two-level array (global/sparse.cpp): chunks are there only while something is in them. */
module SparseArrays {

  /** What a slot points to. */
  class Thing {
    constructor () {}
  }

  function ChunkIndex(number: nat, chunkSize: nat): nat
    requires chunkSize > 0
  {
    number / chunkSize
  }

  /** The place of a number in its chunk. */
  function Offset(number: nat, chunkSize: nat): (r: nat)
    requires chunkSize > 0
    ensures r < chunkSize
  {
    number - ChunkIndex(number, chunkSize) * chunkSize
  }

  lemma {:induction false} SameSlot(k: nat, l: nat, chunkSize: nat)
    requires chunkSize > 0 && ChunkIndex(k, chunkSize) == ChunkIndex(l, chunkSize)
    requires Offset(k, chunkSize) == Offset(l, chunkSize)
    ensures k == l
  {
    var a, b := ChunkIndex(k, chunkSize) * chunkSize, ChunkIndex(l, chunkSize) * chunkSize;
    assert a == b;
  }

  /** The numbers whose chunk is one of the table's: more than the size asked for. */
  lemma {:induction false} RangeIs(number: nat, tableSize: nat, chunkSize: nat)
    requires chunkSize > 0
    ensures number < (tableSize + 1) * chunkSize <==> ChunkIndex(number, chunkSize) <= tableSize
  {
    var c := ChunkIndex(number, chunkSize);
    var p := Offset(number, chunkSize);
    assert number == c * chunkSize + p;
    if c <= tableSize {
      Times(c, tableSize, chunkSize);
    } else {
      Times(tableSize + 1, c, chunkSize);
    }
    assert (tableSize + 1) * chunkSize == tableSize * chunkSize + chunkSize;
  }

  lemma Times(a: nat, b: nat, c: nat)
    requires a <= b
    ensures a * c <= b * c
  {
  }

  class SparseArray {
    const tableSize: nat
    const chunkSize: nat
    const table: array<array?<Thing?>>
    /** The chunks there are. */
    ghost var chunks: set<array<Thing?>>

    constructor (theTblSize: nat, theChunkSize: nat)
      requires theChunkSize > 0
      ensures Valid() && fresh(table) && chunks == {}
      ensures tableSize == theTblSize / theChunkSize && chunkSize == theChunkSize
      ensures forall k: nat :: At(k) == null
    {
      tableSize := theTblSize / theChunkSize;
      chunkSize := theChunkSize;
      table := new array?<Thing?>[theTblSize / theChunkSize + 1](_ => null);
      chunks := {};
    }

    ghost predicate Valid()
      reads this, table, chunks
    {
      && chunkSize > 0 && table.Length == tableSize + 1
      && (forall c :: 0 <= c < table.Length && table[c] != null ==> table[c] in chunks && table[c].Length == chunkSize)
      && (forall c, d :: 0 <= c < d < table.Length && table[c] != null ==> table[c] != table[d])
    }

    ghost function Slot(c: nat, p: nat): Thing?
      requires Valid() && c <= tableSize && p < chunkSize
      reads this, table, chunks
    {
      var ptr := table[c];
      if ptr == null then null else ptr[p]
    }

    /** What the array holds at `number`. */
    ghost function At(number: nat): Thing?
      requires Valid()
      reads this, table, chunks
    {
      if ChunkIndex(number, chunkSize) > tableSize then null
      else Slot(ChunkIndex(number, chunkSize), Offset(number, chunkSize))
    }

    ghost predicate InUse(c: nat)
      requires Valid() && c <= tableSize
      reads this, table, chunks
    {
      exists p :: 0 <= p < chunkSize && Slot(c, p) != null
    }

    /** No chunk is there for nothing. */
    ghost predicate Tight()
      requires Valid()
      reads this, table, chunks
    {
      forall c :: 0 <= c <= tableSize && table[c] != null ==> InUse(c)
    }

    method Put(obj: Thing?, c: nat, p: nat)
      requires Valid() && c <= tableSize && p < chunkSize
      modifies this`chunks, table, chunks
      ensures Valid() && fresh(chunks - old(chunks)) && Slot(c, p) == obj
      ensures forall d, q :: 0 <= d <= tableSize && 0 <= q < chunkSize && (d != c || q != p) ==>
              Slot(d, q) == old(Slot(d, q))
      ensures forall d :: 0 <= d <= tableSize && d != c ==> table[d] == old(table[d])
      ensures table[c] != null
    {
      if table[c] == null {
        var chunk := new Thing?[chunkSize](_ => null);
        table[c] := chunk;
        chunks := chunks + {chunk};
      }
      var ptr := table[c];
      ptr[p] := obj;
    }

    /** Numbers there is no slot for are left alone. A chunk is empty only where a null pointer was added. */
    method Add(obj: Thing?, number: int)
      requires Valid()
      modifies this`chunks, table, chunks
      ensures Valid() && fresh(chunks - old(chunks)) && (obj != null && old(Tight()) ==> Tight())
      ensures forall k: nat :: At(k) == if k == number < (tableSize + 1) * chunkSize then obj else old(At(k))
    {
      hide ChunkIndex, Offset;
      if number < 0 {
        return;
      }
      RangeIs(number, tableSize, chunkSize);
      var chunkIndex := ChunkIndex(number, chunkSize);
      var place := Offset(number, chunkSize);
      if chunkIndex > tableSize {
        return;
      }
      Put(obj, chunkIndex, place);
      Elsewhere(number);
      if obj != null && old(Tight()) {
        forall c | 0 <= c <= tableSize && table[c] != null ensures InUse(c) {
          if c == chunkIndex {
            assert Slot(c, place) != null;
          } else {
            assert old(InUse(c));
          }
        }
      }
    }

    /** Any other number has another slot. */
    lemma Elsewhere(number: nat)
      requires chunkSize > 0
      ensures forall k: nat :: k != number ==>
        ChunkIndex(k, chunkSize) != ChunkIndex(number, chunkSize) || Offset(k, chunkSize) != Offset(number, chunkSize)
    {
      forall k: nat | k != number && ChunkIndex(k, chunkSize) == ChunkIndex(number, chunkSize)
        ensures Offset(k, chunkSize) != Offset(number, chunkSize)
      {
        if Offset(k, chunkSize) == Offset(number, chunkSize) {
          SameSlot(k, number, chunkSize);
        }
      }
    }

    method Lookup(number: int) returns (r: Thing?)
      requires Valid()
      ensures r == if number < 0 then null else At(number)
    {
      if number < 0 {
        return null;
      }
      var chunkIndex := ChunkIndex(number, chunkSize);
      var place := Offset(number, chunkSize);
      if chunkIndex > tableSize {
        return null;
      }
      if table[chunkIndex] == null {
        return null;
      }
      var ptr := table[chunkIndex];
      r := ptr[place];
    }

    method IsEmpty(ptr: array<Thing?>) returns (isEmpty: bool)
      ensures isEmpty <==> forall i :: 0 <= i < ptr.Length ==> ptr[i] == null
    {
      isEmpty := true;
      for i := 0 to ptr.Length
        invariant isEmpty && forall j :: 0 <= j < i ==> ptr[j] == null
      {
        if ptr[i] != null {
          isEmpty := false;
          break;
        }
      }
    }

    /** Clears a slot, and releases its chunk exactly when that leaves nothing in it. */
    method Clear(c: nat, p: nat)
      requires Valid() && c <= tableSize && p < chunkSize && table[c] != null
      modifies table, chunks
      ensures Valid() && Slot(c, p) == null
      ensures forall d, q :: 0 <= d <= tableSize && 0 <= q < chunkSize && (d != c || q != p) ==>
              Slot(d, q) == old(Slot(d, q))
      ensures forall d :: 0 <= d <= tableSize && d != c ==> table[d] == old(table[d])
      ensures table[c] == null || table[c] == old(table[c])
      ensures table[c] != null <==> InUse(c)
    {
      var ptr := table[c];
      ptr[p] := null;
      var isEmpty := IsEmpty(ptr);
      if isEmpty {
        forall q | 0 <= q < chunkSize && q != p ensures old(Slot(c, q)) == null {
          assert ptr[q] == null;
        }
        table[c] := null;
      } else {
        var q :| 0 <= q < ptr.Length && ptr[q] != null;
        assert Slot(c, q) != null;
      }
    }

    method Del(number: int)
      requires Valid()
      modifies table, chunks
      ensures Valid() && (old(Tight()) ==> Tight())
      ensures forall k: nat :: At(k) == if k == number then null else old(At(k))
      ensures number >= 0 && ChunkIndex(number, chunkSize) <= tableSize
              && old(table[ChunkIndex(number, chunkSize)]) != null ==>
        (table[ChunkIndex(number, chunkSize)] == null <==> !InUse(ChunkIndex(number, chunkSize)))
    {
      hide ChunkIndex, Offset;
      if number < 0 {
        return;
      }
      var chunkIndex := ChunkIndex(number, chunkSize);
      var place := Offset(number, chunkSize);
      if chunkIndex > tableSize {
        return;
      }
      if table[chunkIndex] == null {
        return;
      }
      Clear(chunkIndex, place);
      Elsewhere(number);
      if old(Tight()) {
        forall c | 0 <= c <= tableSize && table[c] != null ensures InUse(c) {
          assert c != chunkIndex ==> old(InUse(c));
        }
      }
    }

    /** What the destructor frees of one chunk. */
    method FreeChunk(ptr: array<Thing?>) returns (freed: seq<Thing>)
      modifies ptr
      ensures freed == Things(old(ptr[..])) && forall j :: 0 <= j < ptr.Length ==> ptr[j] == null
    {
      freed := [];
      for j := 0 to ptr.Length
        invariant freed == Things(old(ptr[..])[..j])
        invariant forall i :: 0 <= i < ptr.Length ==> ptr[i] == if i < j then null else old(ptr[i])
      {
        ghost var more := old(ptr[..])[..j + 1];
        assert more[..|more| - 1] == old(ptr[..])[..j];
        var thing := ptr[j];
        if thing != null {
          freed := freed + [thing];
          ptr[j] := null;
        }
      }
      assert old(ptr[..])[..ptr.Length] == old(ptr[..]);
    }

    /** The destructor stops one chunk short: what is in the last one is not freed, and neither is the chunk. */
    method Destroy() returns (freed: seq<Thing>)
      requires Valid()
      modifies table, chunks
      ensures Valid() && forall k: nat :: At(k) == if k < tableSize * chunkSize then null else old(At(k))
      ensures forall c :: 0 <= c <= tableSize ==> table[c] == if c < tableSize then null else old(table[c])
      ensures freed == old(Filled(tableSize))
    {
      freed := [];
      for i := 0 to tableSize
        invariant Valid() && freed == old(Filled(i))
        invariant forall c :: 0 <= c <= tableSize ==> table[c] == if c < i then null else old(table[c])
        invariant forall c :: i <= c <= tableSize && table[c] != null ==> table[c][..] == old(table[c][..])
      {
        if table[i] != null {
          var ptr := table[i];
          var more := FreeChunk(ptr);
          freed := freed + more;
          table[i] := null;
        }
      }
      forall k: nat ensures At(k) == if k < tableSize * chunkSize then null else old(At(k)) {
        var c := ChunkIndex(k, chunkSize);
        if tableSize > 0 {
          RangeIs(k, tableSize - 1, chunkSize);
        }
        if c == tableSize && table[c] != null {
          assert table[c][..][Offset(k, chunkSize)] == old(table[c][..])[Offset(k, chunkSize)];
        }
      }
    }

    /** All there is in the first `n` chunks. */
    ghost function Filled(n: nat): seq<Thing>
      requires Valid() && n <= tableSize + 1
      reads this, table, chunks
    {
      if n == 0 then [] else Filled(n - 1) + if table[n - 1] == null then [] else Things(table[n - 1][..])
    }
  }

  /** Those of the pointers that are not null. */
  function Things(s: seq<Thing?>): seq<Thing> {
    if s == [] then [] else
      var last := s[|s| - 1];
      Things(s[..|s| - 1]) + if last == null then [] else [last]
  }
}
