/** The string cache of global/stringcache.cpp: equal strings share one copy, and a copy stays where it is. */
module StringCache {
  import opened Common

  type Byte = x: int | 0 <= x < 256

  const BUFFER_SIZE := 262144
  const NUM_LISTS := 256

  /** A string of C: no byte of it is 0. */
  ghost predicate IsText(t: seq<Byte>) {
    forall i :: 0 <= i < |t| ==> t[i] != 0
  }

  /** The memory `b` spells `t` from `at` on. */
  predicate Spells(b: seq<Byte>, at: nat, t: seq<Byte>) {
    at + |t| < |b| && b[at..at + |t|] == t && b[at + |t|] == 0
  }

  /** No place spells two strings. */
  lemma SpellsOnce(b: seq<Byte>, at: nat, t: seq<Byte>, u: seq<Byte>)
    requires IsText(t) && IsText(u) && Spells(b, at, t) && Spells(b, at, u)
    ensures t == u
  {
    if |t| < |u| {
      SpellsAt(b, at, u, |t|);
      assert false;
    } else if |u| < |t| {
      SpellsAt(b, at, t, |u|);
      assert false;
    }
  }

  lemma SpellsAt(b: seq<Byte>, at: nat, t: seq<Byte>, i: nat)
    requires Spells(b, at, t) && i < |t|
    ensures b[at + i] == t[i]
  {
    assert b[at..at + |t|][i] == b[at + i];
  }

  lemma SpellsOn(b: seq<Byte>, c: seq<Byte>, at: nat, t: seq<Byte>, n: nat)
    requires Spells(b, at, t) && at + |t| < n <= |b| && n <= |c| && b[..n] == c[..n]
    ensures Spells(c, at, t)
  {
    assert c[at..at + |t|] == c[..n][at..at + |t|];
    assert c[at + |t|] == c[..n][at + |t|];
  }

  /** A char of C is signed. */
  function Signed(c: Byte): int {
    if c < 128 then c else c - 256
  }

  /** The hash of the string, in 32 bits. */
  function Hash(s: seq<Byte>): (h: nat)
    ensures h < 0x1_0000_0000
  {
    if s == [] then 5381 else (Hash(s[..|s| - 1]) * 33 + Signed(s[|s| - 1])) % 0x1_0000_0000
  }

  function Power33(n: nat): nat {
    if n == 0 then 1 else 33 * Power33(n - 1)
  }

  /** The characters as the digits of a number, before it is cut to 32 bits. */
  function Digits(s: seq<Byte>): int {
    if s == [] then 0 else Signed(s[0]) * Power33(|s| - 1) + Digits(s[1..])
  }

  lemma {:induction false} DigitsAppend(s: seq<Byte>, c: Byte)
    ensures Digits(s + [c]) == 33 * Digits(s) + Signed(c)
    decreases |s|
  {
    if s == [] {
      assert s + [c] == [c] && Power33(0) == 1 && Digits([c]) == Signed(c) * Power33(0) + Digits([]);
    } else {
      DigitsAppend(s[1..], c);
      assert (s + [c])[1..] == s[1..] + [c];
      TimesThirtyThree(Signed(s[0]), Power33(|s| - 1));
    }
  }

  lemma TimesThirtyThree(a: int, p: int)
    ensures a * (33 * p) == 33 * (a * p)
  {
  }

  /** Cutting the number at every character is the same as cutting it in the end. */
  lemma {:induction false} HashIsPolynomial(s: seq<Byte>)
    ensures Hash(s) == (5381 * Power33(|s|) + Digits(s)) % 0x1_0000_0000
  {
    if s != [] {
      var rest, c := s[..|s| - 1], s[|s| - 1];
      HashIsPolynomial(rest);
      assert s == rest + [c];
      DigitsAppend(rest, c);
      CutLater(5381 * Power33(|rest|) + Digits(rest), Signed(c));
    }
  }

  lemma CutLater(n: int, c: int)
    ensures (n % 0x1_0000_0000 * 33 + c) % 0x1_0000_0000 == (n * 33 + c) % 0x1_0000_0000
  {
    var q := n / 0x1_0000_0000;
    assert n * 33 + c == (n % 0x1_0000_0000 * 33 + c) + 0x1_0000_0000 * (33 * q);
  }

  method GenerateHash(str: seq<Byte>) returns (hash: nat)
    ensures hash == Hash(str)
  {
    hash := 5381;
    var i := 0;
    while i < |str|
      invariant 0 <= i <= |str| && hash == Hash(str[..i])
    {
      assert str[..i + 1][..i] == str[..i];
      hash := (hash * 33 + Signed(str[i])) % 0x1_0000_0000;
      i := i + 1;
    }
    assert str[..i] == str;
  }

  class Buffer {
    const buffer: array<Byte>
    var size: nat

    constructor ()
      ensures Valid() && size == 0 && fresh(buffer)
    {
      buffer, size := new Byte[BUFFER_SIZE], 0;
    }

    predicate Valid()
      reads this
    {
      buffer.Length == BUFFER_SIZE && size <= BUFFER_SIZE
    }

    function SizeFree(): nat
      reads this
    {
      if size < BUFFER_SIZE then BUFFER_SIZE - size else 0
    }

    /** Puts the string after what is there; none if there is no room for it. */
    method AllocateString(str: seq<Byte>) returns (ok: bool, at: nat)
      requires Valid() && IsText(str)
      modifies this`size, buffer
      ensures Valid() && (ok <==> old(size) + |str| + 1 <= 262144) && at == old(size)
      ensures size == old(size) + (if ok then |str| + 1 else 0) && buffer[..old(size)] == old(buffer[..size])
      ensures ok ==> Spells(buffer[..], at, str)
    {
      var strLength := |str| + 1;
      at := size;
      if strLength > BUFFER_SIZE || strLength > SizeFree() {
        return false, at;
      }
      forall i | 0 <= i < |str| {
        buffer[at + i] := str[i];
      }
      size := size + strLength;
      buffer[size - 1] := 0;
      assert buffer[..][at..at + |str|] == str;
      return true, at;
    }
  }

  datatype Ptr = Ptr(buffer: Buffer, at: nat)

  datatype StringEntry = StringEntry(hashValue: nat, ptr: Ptr)

  // ---- the lists

  /** The entry `e` of the list `h` is for `t`. */
  ghost predicate EntryFor(e: StringEntry, t: seq<Byte>, h: nat, interned: map<seq<Byte>, Ptr>) {
    t in interned && Hash(t) % NUM_LISTS == h && e == StringEntry(Hash(t), interned[t])
  }

  ghost predicate Listed(list: seq<StringEntry>, ts: seq<seq<Byte>>, h: nat, interned: map<seq<Byte>, Ptr>) {
    |ts| == |list| && forall k :: 0 <= k < |ts| ==> EntryFor(list[k], ts[k], h, interned)
  }

  ghost predicate Filed(lists: seq<seq<StringEntry>>, words: seq<seq<seq<Byte>>>, interned: map<seq<Byte>, Ptr>) {
    && |lists| == NUM_LISTS == |words|
    && (forall h :: 0 <= h < NUM_LISTS ==> Listed(lists[h], words[h], h, interned))
    && (forall t <- interned :: t in words[Hash(t) % NUM_LISTS])
  }

  lemma FiledMore(lists: seq<seq<StringEntry>>, words: seq<seq<seq<Byte>>>, interned: map<seq<Byte>, Ptr>, t: seq<Byte>,
      p: Ptr)
    requires Filed(lists, words, interned) && t !in interned
    ensures var h := Hash(t) % NUM_LISTS;
            Filed(lists[h := lists[h] + [StringEntry(Hash(t), p)]], words[h := words[h] + [t]], interned[t := p])
  {
    hide Hash;
    var h := Hash(t) % NUM_LISTS;
    assert Listed(lists[h], words[h], h, interned);
    var (l, w) := (lists[h := lists[h] + [StringEntry(Hash(t), p)]], words[h := words[h] + [t]]);
    forall g | 0 <= g < NUM_LISTS
      ensures Listed(l[g], w[g], g, interned[t := p])
    {
      assert Listed(lists[g], words[g], g, interned);
      forall k | 0 <= k < |w[g]|
        ensures EntryFor(l[g][k], w[g][k], g, interned[t := p])
      {
        assert k < |words[g]| ==> EntryFor(lists[g][k], words[g][k], g, interned);
      }
    }
    assert t in w[h];
  }

  class Manager {
    const listArray: array<seq<StringEntry>>
    var bufferTable: array<Buffer>
    /** Where each string is that was ever submitted, and the strings of each list. */
    ghost var interned: map<seq<Byte>, Ptr>
    ghost var words: seq<seq<seq<Byte>>>

    /** `t` is where the cache says, below what its buffer has in use, and on its list. */
    ghost predicate Stored(t: seq<Byte>)
      requires t in interned
      reads this, bufferTable, interned[t].buffer, interned[t].buffer.buffer
    {
      var p := interned[t];
      && IsText(t) && p.buffer in bufferTable[..] && p.buffer.size <= p.buffer.buffer.Length
      && Spells(p.buffer.buffer[..], p.at, t) && p.at + |t| < p.buffer.size
    }

    ghost function Memory(): set<object>
      reads this, bufferTable
    {
      (set b: Buffer | b in bufferTable[..] :: b as object)
          + (set b: Buffer | b in bufferTable[..] :: b.buffer as object)
    }

    ghost predicate Valid()
      reads this, listArray, bufferTable, Memory()
    {
      && Filed(listArray[..], words, interned)
      && (forall b <- bufferTable[..] :: b.Valid())
      && (forall i, j :: 0 <= i < j < bufferTable.Length ==>
         bufferTable[i] != bufferTable[j] && bufferTable[i].buffer != bufferTable[j].buffer)
      && (forall t <- interned :: interned[t].buffer in bufferTable[..] && Stored(t))
    }

    constructor ()
      ensures Valid() && interned == map[] && fresh(listArray) && fresh(bufferTable) && bufferTable.Length == 0
    {
      listArray := new seq<StringEntry>[NUM_LISTS](_ => []);
      bufferTable := new Buffer[0];
      interned := map[];
      words := seq(NUM_LISTS, _ => []);
    }

    /** The entry for the string, if there is one: its hash is the same, and so is what it points to. */
    method Find(str: seq<Byte>, hashValue: nat) returns (r: Maybe<Ptr>)
      requires Valid() && IsText(str) && hashValue == Hash(str)
      ensures r == if str in interned then Just(interned[str]) else Nothing
    {
      var hashIndex := hashValue % NUM_LISTS;
      var entryList := listArray[hashIndex];
      assert Listed(entryList, words[hashIndex], hashIndex, interned);
      var k := 0;
      while k < |entryList|
        invariant 0 <= k <= |entryList| && forall j :: 0 <= j < k ==> words[hashIndex][j] != str
      {
        var entry := entryList[k];
        EntryIs(hashIndex, k, str);
        if entry.hashValue == hashValue {
          if Spells(entry.ptr.buffer.buffer[..], entry.ptr.at, str) {
            return Just(entry.ptr);
          }
        }
        k := k + 1;
      }
      return Nothing;
    }

    /** An entry is for `str` exactly when its pointer spells it. */
    lemma EntryIs(h: nat, k: nat, str: seq<Byte>)
      requires Valid() && IsText(str) && h < NUM_LISTS && k < |listArray[h]|
      ensures k < |words[h]| && words[h][k] in interned
      ensures listArray[h][k].hashValue == Hash(words[h][k]) && listArray[h][k].ptr == interned[words[h][k]]
      ensures Spells(listArray[h][k].ptr.buffer.buffer[..], listArray[h][k].ptr.at, str) <==> words[h][k] == str
    {
      assert Listed(listArray[..][h], words[h], h, interned) && EntryFor(listArray[h][k], words[h][k], h, interned);
      var t := words[h][k];
      assert Stored(t);
      var p := interned[t];
      if Spells(p.buffer.buffer[..], p.at, str) {
        SpellsOnce(p.buffer.buffer[..], p.at, str, t);
      }
    }

    /** The string goes into a buffer of the table, and an entry for it to the end of its list. */
    method Store(buf: Buffer, str: seq<Byte>, hashValue: nat) returns (p: Ptr)
      requires Valid() && IsText(str) && str !in interned && hashValue == Hash(str)
      requires buf in bufferTable[..] && |str| + 1 <= buf.SizeFree()
      modifies this`interned, this`words, listArray, buf`size, buf.buffer
      ensures Valid() && interned == old(interned)[str := p] && bufferTable == old(bufferTable)
      ensures p == Ptr(buf, old(buf.size))
    {
      p := Put(buf, str);
      Enter(str, hashValue, p);
    }

    /** The memory part: every string of the cache stays where it is. */
    method Put(buf: Buffer, str: seq<Byte>) returns (p: Ptr)
      requires Valid() && IsText(str) && buf in bufferTable[..] && |str| + 1 <= buf.SizeFree()
      modifies buf`size, buf.buffer
      ensures Valid() && p == Ptr(buf, old(buf.size)) && buf.size <= buf.buffer.Length
      ensures Spells(buf.buffer[..], p.at, str) && p.at + |str| < buf.size
    {
      hide Filed, Spells;
      assert buf.Valid();
      ghost var was, size := buf.buffer[..], buf.size;
      var ok, at := buf.AllocateString(str);
      p := Ptr(buf, at);
      forall t <- interned
        ensures Stored(t)
      {
        assert old(Stored(t));
        if interned[t].buffer == buf {
          assert was[..size] == buf.buffer[..][..size];
          SpellsOn(was, buf.buffer[..], interned[t].at, t, size);
        }
      }
    }

    method Enter(str: seq<Byte>, hashValue: nat, p: Ptr)
      requires Valid() && IsText(str) && str !in interned && hashValue == Hash(str) && p.buffer in bufferTable[..]
      requires p.buffer.size <= p.buffer.buffer.Length
      requires Spells(p.buffer.buffer[..], p.at, str) && p.at + |str| < p.buffer.size
      modifies this`interned, this`words, listArray
      ensures Valid() && interned == old(interned)[str := p]
    {
      hide Filed, Spells, Hash;
      ghost var lists := listArray[..];
      FiledMore(lists, words, interned, str, p);
      FiledIs(lists, words, interned);
      var hashIndex := hashValue % NUM_LISTS;
      listArray[hashIndex] := listArray[hashIndex] + [StringEntry(hashValue, p)];
      assert listArray[..] == lists[hashIndex := lists[hashIndex] + [StringEntry(hashValue, p)]];
      words := words[hashIndex := words[hashIndex] + [str]];
      interned := interned[str := p];
      forall t <- interned
        ensures Stored(t)
      {
        assert t != str ==> old(Stored(t));
      }
    }

    /** A larger table, with a new buffer at its end. */
    method AllocateBuffer() returns (buf: Buffer)
      requires Valid()
      modifies this`bufferTable
      ensures Valid() && fresh(bufferTable) && bufferTable[..] == old(bufferTable[..]) + [buf]
      ensures fresh(buf) && fresh(buf.buffer) && buf.size == 0
    {
      hide Filed, Spells;
      buf := new Buffer();
      var numBuffers := bufferTable.Length;
      var newBufferTable := new Buffer[numBuffers + 1](_ => buf);
      var x := 0;
      while x < numBuffers
        invariant 0 <= x <= numBuffers && newBufferTable[..x] == bufferTable[..x] && newBufferTable[numBuffers] == buf
        modifies newBufferTable
      {
        newBufferTable[x] := bufferTable[x];
        x := x + 1;
      }
      ghost var was := bufferTable[..];
      bufferTable := newBufferTable;
      assert bufferTable[..] == was + [buf];
      forall t <- interned
        ensures Stored(t)
      {
        assert old(Stored(t));
      }
    }

    /** No buffer there is has room for it. */
    method StoreInNew(str: seq<Byte>, hashValue: nat) returns (r: Maybe<Ptr>)
      requires Valid() && IsText(str) && str !in interned && hashValue == Hash(str)
      modifies this`interned, this`words, this`bufferTable, listArray
      ensures Valid() && (r == Nothing <==> |str| + 1 > BUFFER_SIZE)
      ensures interned == if r == Nothing then old(interned) else old(interned)[str := r.value]
      ensures fresh(bufferTable) && bufferTable.Length == old(bufferTable.Length) + 1
      ensures bufferTable[..old(bufferTable.Length)] == old(bufferTable[..])
      ensures r == Nothing || r == Just(Ptr(bufferTable[old(bufferTable.Length)], 0))
      ensures forall o <- Memory() :: o in old(Memory()) || fresh(o)
    {
      hide Filed, Spells, Hash, Stored, Manager.Valid;
      r := Nothing;
      var newBuffer := AllocateBuffer();
      if |str| + 1 <= newBuffer.SizeFree() {
        var p := Store(newBuffer, str, hashValue);
        r := Just(p);
      }
    }

    /** The first of the buffers that has room for so many bytes, or the end of the table. */
    ghost predicate FirstWithRoom(i: nat, length: nat)
      reads this`bufferTable, bufferTable, bufferTable[..]
    {
      && i <= bufferTable.Length && (forall j :: 0 <= j < i ==> bufferTable[j].size + length > BUFFER_SIZE)
      && (i < bufferTable.Length ==> bufferTable[i].size + length <= BUFFER_SIZE)
    }

    /** The place where the string is, from now on: the one it has, or a new one in the first buffer with room for
        it, or in a new buffer. A string that fits into no buffer is fatal. */
    method SubmitString(str: seq<Byte>) returns (r: Maybe<Ptr>, ghost first: nat)
      requires Valid() && IsText(str) && bufferTable.Length < 65535
      modifies this`interned, this`words, this`bufferTable, listArray, Memory()
      ensures Valid() && (r == Nothing <==> |str| + 1 > BUFFER_SIZE)
      ensures r == Nothing ==> interned == old(interned)
      ensures r != Nothing ==> str in interned && r == Just(interned[str])
      ensures forall t <- old(interned) :: t in interned && interned[t] == old(interned)[t]
      ensures forall t <- interned :: t in old(interned) || t == str
      ensures bufferTable == old(bufferTable) || fresh(bufferTable)
      ensures forall o <- Memory() :: o in old(Memory()) || fresh(o)
      ensures str in old(interned) ==> bufferTable == old(bufferTable)
      ensures str !in old(interned) ==> old(FirstWithRoom(first, |str| + 1))
      ensures str !in old(interned) && first < old(bufferTable.Length) ==>
        bufferTable == old(bufferTable) && r == Just(Ptr(old(bufferTable[first]), old(bufferTable[first].size)))
      ensures str !in old(interned) && first == old(bufferTable.Length) ==>
        bufferTable.Length == first + 1 && bufferTable[..first] == old(bufferTable[..])
        && (r == Nothing || r == Just(Ptr(bufferTable[first], 0)))
    {
      hide Filed, Spells, Hash, Stored, Manager.Valid;
      var hashValue := GenerateHash(str);
      first := 0;
      r := Find(str, hashValue);
      if r != Nothing {
        Fits(str);
        return;
      }
      var buf := 0;
      while buf < bufferTable.Length && |str| + 1 > bufferTable[buf].SizeFree()
        invariant 0 <= buf <= bufferTable.Length
        invariant forall j :: 0 <= j < buf ==> |str| + 1 > bufferTable[j].SizeFree()
        modifies {}
      {
        buf := buf + 1;
      }
      first := buf;
      if buf < bufferTable.Length {
        var buffer := bufferTable[buf];
        assert buffer in bufferTable[..];
        var p := Store(buffer, str, hashValue);
        return Just(p), first;
      }
      r := StoreInNew(str, hashValue);
    }

    lemma Fits(t: seq<Byte>)
      requires Valid() && t in interned
      ensures |t| + 1 <= BUFFER_SIZE
    {
      assert Stored(t) && interned[t].buffer.Valid();
    }

    /** Two strings have the same place only if they are the same string, and each place spells its string. */
    lemma Canonical(t: seq<Byte>, u: seq<Byte>)
      requires Valid() && t in interned && u in interned
      ensures interned[t] == interned[u] <==> t == u
      ensures Spells(interned[t].buffer.buffer[..], interned[t].at, t)
    {
      assert Stored(t) && Stored(u);
      if interned[t] == interned[u] {
        SpellsOnce(interned[t].buffer.buffer[..], interned[t].at, t, u);
      }
    }
  }

  lemma FiledIs(lists: seq<seq<StringEntry>>, words: seq<seq<seq<Byte>>>, interned: map<seq<Byte>, Ptr>)
    requires Filed(lists, words, interned)
    ensures |lists| == NUM_LISTS == |words|
  {
  }
}
