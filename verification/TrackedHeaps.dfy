/** The tracked heap (global/malloc.cpp): a list of the live blocks, and a table of the places that allocate. */
module TrackedHeaps {
  import opened LinkedLists

  const MAX_SITES := 5000
  const HEADER_SIZE := 24
  const MEM_ARRAY := 1
  const MEM_FREE := 3
  const MEM_FORBIDDEN_FREE := 5

  /** A line of the program that allocates; files are told apart by the address of the name. `Elsewhere` stands for all
      the lines there was no room for in the table. */
  datatype Site = Nowhere | Elsewhere | Site(file: nat, line: int)

  datatype AllocStruct = AllocStruct(site: Site, nSize: int, nAlloc: int, nFree: int) {
    function Live(): int {
      nAlloc - nFree
    }
  }

  predicate SamePlace(a: AllocStruct, b: AllocStruct) {
    a.site == b.site && a.nSize == b.nSize
  }

  predicate Places(a: AllocStruct, site: Site, size: int) {
    a.site == site && a.nSize == size
  }

  /** The slot of the place; or, if there is none, the first with no live block, or the next one. */
  ghost predicate Chosen(table: seq<AllocStruct>, n: nat, site: Site, size: int, slot: nat)
    requires n < |table|
  {
    if exists s :: 0 <= s < n && Places(table[s], site, size) then slot < n && Places(table[slot], site, size)
    else slot <= n && (slot < n ==> table[slot].Live() == 0) && forall s :: 0 <= s < slot ==> table[s].Live() != 0
  }

  /** The length of a block with its header, up to the next multiple of 4. */
  function BlockSize(size: nat): (r: nat)
    ensures r % 4 == 0 && size + HEADER_SIZE < r <= size + HEADER_SIZE + 4
  {
    (size + HEADER_SIZE + 4) / 4 * 4
  }

  class Header {
    const size: nat
    /** The slot of the table it counts in. */
    const nAlloc: nat
    var memType: int
    var next: Header?
    var prev: Header?
    /** Where it was allocated. */
    ghost const site: Site

    constructor (size: nat, nAlloc: nat, ghost site: Site)
      ensures this.size == size && this.nAlloc == nAlloc && this.site == site
      ensures memType == MEM_ARRAY && next == null && prev == null
    {
      this.size, this.nAlloc, this.site := size, nAlloc, site;
      memType, next, prev := MEM_ARRAY, null, null;
    }
  }

  /** The k-th block of the list, or null on either side of it. */
  function HeaderAt(live: seq<Header>, k: int): Header? {
    if 0 <= k < |live| then live[k] else null
  }

  /** The list without a block. */
  function Taken(live: seq<Header>, h: Header): seq<Header> {
    Minus(live, {h})
  }

  lemma IsTaken(live: seq<Header>, h: Header)
    ensures h !in Taken(live, h)
  {
  }

  function Beside(h: Header?): set<Header> {
    if h == null then {} else {h}
  }

  function TotalSize(live: seq<Header>): nat {
    if live == [] then 0 else TotalSize(live[..|live| - 1]) + live[|live| - 1].size
  }

  /** How many blocks count in a slot. */
  function Naming(live: seq<Header>, slot: nat): nat {
    if live == [] then 0 else Naming(live[..|live| - 1], slot) + if live[|live| - 1].nAlloc == slot then 1 else 0
  }

  lemma {:induction false} TotalWithout(live: seq<Header>, k: nat)
    requires k < |live|
    ensures TotalSize(Without(live, k)) == TotalSize(live) - live[k].size
  {
    var last := |live| - 1;
    if k < last {
      TotalWithout(live[..last], k);
      assert Without(live, k)[..last - 1] == Without(live[..last], k);
    } else {
      assert Without(live, k) == live[..last];
    }
  }

  lemma {:induction false} NamingWithout(live: seq<Header>, k: nat, slot: nat)
    requires k < |live|
    ensures Naming(Without(live, k), slot) == Naming(live, slot) - if live[k].nAlloc == slot then 1 else 0
  {
    var last := |live| - 1;
    if k < last {
      NamingWithout(live[..last], k, slot);
      assert Without(live, k)[..last - 1] == Without(live[..last], k);
    } else {
      assert Without(live, k) == live[..last];
    }
  }

  lemma {:induction false} NamingNone(live: seq<Header>, slot: nat)
    ensures Naming(live, slot) == 0 <==> forall h :: h in live ==> h.nAlloc != slot
  {
    if live != [] {
      var last := |live| - 1;
      NamingNone(live[..last], slot);
      assert live == live[..last] + [live[last]];
    }
  }

  lemma TotalMore(live: seq<Header>, h: Header)
    ensures TotalSize(live + [h]) == TotalSize(live) + h.size
  {
    assert (live + [h])[..|live|] == live;
  }

  lemma NamingMore(live: seq<Header>, h: Header)
    ensures forall slot: nat :: Naming(live + [h], slot) == Naming(live, slot) + if h.nAlloc == slot then 1 else 0
  {
    assert (live + [h])[..|live|] == live;
  }

  /** Each slot counts the live blocks that name it, and the slot a block names tells where it came from, unless the
      table was full. */
  ghost predicate Agrees(table: seq<AllocStruct>, n: nat, live: seq<Header>) {
    && |table| == MAX_SITES && n < MAX_SITES
    && (forall s :: 0 <= s < MAX_SITES ==> table[s].Live() == Naming(live, s))
    && (forall h :: h in live ==> h.nAlloc < n || h.nAlloc == MAX_SITES - 1)
    && (forall h :: h in live && h.nAlloc < n ==> table[h.nAlloc].site == h.site && table[h.nAlloc].nSize == h.size)
    && (forall s, t :: 0 <= s < t < n ==> !SamePlace(table[s], table[t]))
  }

  /** A slot with no live block is given to another place. */
  lemma Assigned(table: seq<AllocStruct>, n: nat, live: seq<Header>, slot: nat, added: AllocStruct)
    requires Agrees(table, n, live) && added.Live() == 0
    requires slot <= n && slot < MAX_SITES - 1 && table[slot].Live() == 0
    requires forall s :: 0 <= s < n ==> !SamePlace(table[s], added)
    ensures Agrees(table[slot := added], if slot == n then n + 1 else n, live)
  {
    hide Naming;
    NamingNone(live, slot);
  }

  /** A new block is counted in the slot it names. */
  lemma Counted(table: seq<AllocStruct>, n: nat, live: seq<Header>, h: Header)
    requires Agrees(table, n, live) && (h.nAlloc < n || h.nAlloc == MAX_SITES - 1)
    requires h.nAlloc < n ==> table[h.nAlloc].site == h.site && table[h.nAlloc].nSize == h.size
    ensures var slot := table[h.nAlloc]; Agrees(table[h.nAlloc := slot.(nAlloc := slot.nAlloc + 1)], n, live + [h])
  {
    hide Naming;
    NamingMore(live, h);
  }

  /** A freed block is counted in its slot, which had a live block for sure. */
  lemma Uncounted(table: seq<AllocStruct>, n: nat, live: seq<Header>, k: nat)
    requires Agrees(table, n, live) && k < |live| && Distinct(live)
    ensures var slot := table[live[k].nAlloc];
            && slot.Live() > 0
            && Agrees(table[live[k].nAlloc := slot.(nFree := slot.nFree + 1)], n, Without(live, k))
    ensures TotalSize(Without(live, k)) == TotalSize(live) - live[k].size && |Without(live, k)| == |live| - 1
    ensures live[k].nAlloc < MAX_SITES
  {
    hide Naming, TotalSize;
    TotalWithout(live, k);
    NamingNone(live, live[k].nAlloc);
    DistinctWithout(live, k);
    forall s: nat ensures Naming(Without(live, k), s) == Naming(live, s) - if live[k].nAlloc == s then 1 else 0 {
      NamingWithout(live, k, s);
    }
  }

  /** How many live blocks of one length a line of the program allocated, of those the table had room for. */
  ghost function From(live: seq<Header>, a: AllocStruct): nat {
    if live == [] then 0 else
      var h := live[|live| - 1];
      From(live[..|live| - 1], a) + if h.site == a.site && h.size == a.nSize && h.nAlloc != MAX_SITES - 1 then 1 else 0
  }

  /** What a slot counts is that, through all the reuse of slots. */
  lemma {:induction false} SlotCounts(table: seq<AllocStruct>, n: nat, live: seq<Header>, s: nat)
    requires |table| == MAX_SITES && s < n < MAX_SITES
    requires forall h :: h in live ==> h.nAlloc < n || h.nAlloc == MAX_SITES - 1
    requires forall h :: h in live && h.nAlloc < n ==> table[h.nAlloc].site == h.site && table[h.nAlloc].nSize == h.size
    requires forall t, u :: 0 <= t < u < n ==> !SamePlace(table[t], table[u])
    ensures Naming(live, s) == From(live, table[s])
  {
    if live != [] {
      var last := |live| - 1;
      SlotCounts(table, n, live[..last], s);
      assert live[last] in live;
    }
  }

  datatype Freed = Freed | Crashed | Protected | Twice | OverFree

  class TrackedHeap {
    var gAllocCount: int
    var gAllocSize: int
    var gLargestAllocSize: int
    const gAllocations: array<AllocStruct>
    var nAllocations: nat
    var gAllocList: Header?
    var gAllocListTail: Header?
    /** The blocks that are live, oldest first. */
    ghost var live: seq<Header>

    constructor ()
      ensures Valid() && live == [] && fresh(gAllocations)
    {
      gAllocCount, gAllocSize, gLargestAllocSize := 0, 0, 0;
      gAllocations := new AllocStruct[MAX_SITES](_ => AllocStruct(Nowhere, 0, 0, 0));
      nAllocations, gAllocList, gAllocListTail, live := 0, null, null, [];
    }

    ghost predicate LinkedAt(k: nat)
      requires k < |live|
      reads this`live, live`next, live`prev
    {
      live[k].next == HeaderAt(live, k + 1) && live[k].prev == HeaderAt(live, k - 1)
    }

    ghost predicate Linked()
      reads this`live, this`gAllocList, this`gAllocListTail, live`next, live`prev
    {
      && Distinct(live)
      && (forall k :: 0 <= k < |live| ==> LinkedAt(k))
      && gAllocList == HeaderAt(live, 0) && gAllocListTail == HeaderAt(live, |live| - 1)
    }

    ghost predicate TableAgrees()
      reads this`nAllocations, this`live, gAllocations
    {
      gAllocations.Length == MAX_SITES && nAllocations < MAX_SITES && Agrees(gAllocations[..], nAllocations, live)
    }

    /** The counters are what the list of live blocks says. */
    ghost predicate Accounted()
      reads this`gAllocCount, this`gAllocSize, this`nAllocations, this`live, this`gAllocList, this`gAllocListTail
      reads live`next, live`prev, gAllocations
    {
      Linked() && TableAgrees() && gAllocCount == |live| && gAllocSize == TotalSize(live)
    }

    ghost predicate NoneFree()
      reads this`live, live`memType
    {
      forall h :: h in live ==> h.memType != MEM_FREE
    }

    ghost predicate Valid()
      reads this, live, gAllocations
    {
      Accounted() && NoneFree()
    }

    method Write(slot: nat, a: AllocStruct)
      requires slot < gAllocations.Length
      modifies gAllocations
      ensures gAllocations[..] == old(gAllocations[..])[slot := a]
    {
      gAllocations[slot] := a;
    }

    method Assign(slot: nat, added: AllocStruct)
      requires Valid() && added.Live() == 0
      requires slot <= nAllocations && slot < MAX_SITES - 1 && gAllocations[slot].Live() == 0
      requires forall s :: 0 <= s < nAllocations ==> !SamePlace(gAllocations[s], added)
      modifies this`nAllocations, gAllocations
      ensures Valid() && gAllocations[slot] == added
      ensures nAllocations == if slot == old(nAllocations) then slot + 1 else old(nAllocations)
    {
      hide Naming, TotalSize, Linked;
      Assigned(gAllocations[..], nAllocations, live, slot, added);
      gAllocations[slot] := added;
      if slot == nAllocations {
        nAllocations := nAllocations + 1;
      }
      assert gAllocations[..] == old(gAllocations[..])[slot := added];
    }

    /** The slot for a site and a block size: the one that has them already, else the first with no live block, else a
        new one, else the last of the table. */
    method FindSlot(site: Site, newSize: int) returns (nFound: nat)
      requires Valid() && site.Site?
      modifies this`nAllocations, gAllocations
      ensures Valid() && (nFound < nAllocations || nFound == MAX_SITES - 1)
      ensures nFound < nAllocations ==> gAllocations[nFound].site == site && gAllocations[nFound].nSize == newSize
      ensures nFound == MAX_SITES - 1 ==> old(nAllocations) == MAX_SITES - 1 && gAllocations[nFound].site == Elsewhere
      ensures Chosen(old(gAllocations[..]), old(nAllocations), site, newSize, nFound) && nFound < gAllocations.Length
      ensures (exists s :: 0 <= s < old(nAllocations) && Places(old(gAllocations[s]), site, newSize)) ==>
        gAllocations[..] == old(gAllocations[..])
      ensures old(nAllocations) <= nAllocations
    {
      var added := AllocStruct(site, newSize, 0, 0);
      hide Naming, TotalSize, Linked, LinkedAt;
      if nAllocations == 0 {
        NamingNone(live, 0);
        Assign(0, added);
        return 0;
      }
      var nLoc := -1;
      nFound := 0;
      while nFound < nAllocations && !SamePlace(gAllocations[nFound], added)
        invariant nFound <= nAllocations
        invariant forall s :: 0 <= s < nFound ==> !SamePlace(gAllocations[s], added)
        invariant nLoc == -1 ==> forall s :: 0 <= s < nFound ==> gAllocations[s].Live() != 0
        invariant nLoc != -1 ==> 0 <= nLoc < nFound && gAllocations[nLoc].Live() == 0
        invariant nLoc != -1 ==> forall s :: 0 <= s < nLoc ==> gAllocations[s].Live() != 0
        modifies {}
      {
        if nLoc == -1 && gAllocations[nFound].nAlloc - gAllocations[nFound].nFree == 0 {
          nLoc := nFound;
        }
        nFound := nFound + 1;
      }
      if nFound < nAllocations {
        return;
      }
      if nLoc != -1 {
        Assign(nLoc, added);
        nFound := nLoc;
      } else if nAllocations < MAX_SITES - 1 {
        NamingNone(live, nFound);
        Assign(nFound, added);
      } else {
        gAllocations[nFound] := gAllocations[nFound].(site := Elsewhere);
      }
    }

    /** The new block goes to the end of the list. */
    method Append(header: Header)
      requires Linked() && header !in live && header.next == null
      modifies this`live, this`gAllocList, this`gAllocListTail, live`next, header`prev
      ensures Linked() && live == old(live) + [header]
    {
      ghost var was := live;
      header.prev := gAllocListTail;
      if gAllocListTail != null {
        assert was[|was| - 1] == gAllocListTail;
        gAllocListTail.next := header;
      }
      gAllocListTail := header;
      if gAllocList == null {
        gAllocList := header;
      }
      live := live + [header];
      DistinctAppend(was, header);
      forall k | 0 <= k < |live| ensures LinkedAt(k) {
        if k < |was| {
          assert old(LinkedAt(k));
        }
      }
    }

    /** A new block joins the counters and the list. */
    method Register(header: Header)
      requires Accounted() && header !in live && header.next == null && header.nAlloc < gAllocations.Length
      requires header.nAlloc < nAllocations || header.nAlloc == MAX_SITES - 1
      requires header.nAlloc < nAllocations ==>
        gAllocations[header.nAlloc].site == header.site && gAllocations[header.nAlloc].nSize == header.size
      modifies this`gAllocCount, this`gAllocSize, this`gAllocList, this`gAllocListTail, this`live, gAllocations
      modifies live`next, header`prev
      ensures Accounted() && live == old(live) + [header]
      ensures gAllocSize == old(gAllocSize) + header.size && gAllocCount == old(gAllocCount) + 1
    {
      hide Naming, TotalSize, Linked, Distinct, Agrees;
      TotalMore(live, header);
      assert gAllocations[..][header.nAlloc] == gAllocations[header.nAlloc];
      Counted(gAllocations[..], nAllocations, live, header);
      Append(header);
      Write(header.nAlloc, gAllocations[header.nAlloc].(nAlloc := gAllocations[header.nAlloc].nAlloc + 1));
      gAllocSize := gAllocSize + header.size;
      gAllocCount := gAllocCount + 1;
    }

    method DbMalloc(size: nat, site: Site) returns (header: Header)
      requires Valid() && site.Site?
      modifies this`gAllocCount, this`gAllocSize, this`gLargestAllocSize, this`nAllocations
      modifies this`gAllocList, this`gAllocListTail, this`live, gAllocations, live`next
      ensures Valid() && fresh(header) && live == old(live) + [header]
      ensures header.size == BlockSize(size) && header.site == site && header.memType == MEM_ARRAY
      ensures gAllocSize == old(gAllocSize) + header.size && gAllocCount == old(gAllocCount) + 1
      ensures gLargestAllocSize == if size > old(gLargestAllocSize) then size else old(gLargestAllocSize)
      ensures Chosen(old(gAllocations[..]), old(nAllocations), site, BlockSize(size), header.nAlloc)
      ensures header.nAlloc == MAX_SITES - 1 ==> old(nAllocations) == MAX_SITES - 1
    {
      hide BlockSize, Chosen, Places, Linked, TableAgrees, TotalSize;
      var newSize := BlockSize(size);
      var nFound := FindSlot(site, newSize);
      header := new Header(newSize, nFound, site);
      Register(header);
      if size > gLargestAllocSize {
        gLargestAllocSize := size;
      }
    }

    /** A block out of the list. */
    method Unlink(header: Header, ghost k: nat)
      requires Linked() && k < |live| && header == live[k]
      modifies this`live, this`gAllocList, this`gAllocListTail, Beside(header.next)`prev, Beside(header.prev)`next
      ensures Linked() && live == Without(old(live), k)
    {
      ghost var was := live;
      assert LinkedAt(k) && LinkedAt(0) && LinkedAt(|was| - 1);
      assert k > 0 ==> LinkedAt(k - 1);
      assert k + 1 < |was| ==> LinkedAt(k + 1);
      if header.next != null {
        header.next.prev := header.prev;
      }
      if header.prev != null {
        header.prev.next := header.next;
      }
      if header == gAllocListTail {
        gAllocListTail := header.prev;
      }
      if header == gAllocList {
        gAllocList := header.next;
      }
      live := Without(was, k);
      DistinctWithout(was, k);
      forall j | 0 <= j < |live|
        ensures LinkedAt(j)
      {
        var i := if j < k then j else j + 1;
        assert old(LinkedAt(i)) && live[j] == was[i];
        assert HeaderAt(live, j + 1) == HeaderAt(was, if i + 1 == k then k + 1 else i + 1);
        assert HeaderAt(live, j - 1) == HeaderAt(was, if i - 1 == k then k - 1 else i - 1);
      }
    }

    lemma DistinctLive()
      requires Linked()
      ensures Distinct(live)
    {
    }

    lemma Neighbours(k: nat)
      requires Linked() && k < |live|
      ensures live[k].next != null ==> live[k].next in live
      ensures live[k].prev != null ==> live[k].prev in live
    {
      assert LinkedAt(k);
    }

    /** A live block leaves the counters and the list. */
    method Remove(header: Header, ghost k: nat)
      requires Accounted() && k < |live| && live[k] == header
      modifies this`gAllocCount, this`gAllocSize, this`gAllocList, this`gAllocListTail, this`live
      modifies gAllocations, live`next, live`prev
      ensures Accounted() && live == Without(old(live), k)
      ensures gAllocSize == old(gAllocSize) - header.size && gAllocCount == old(gAllocCount) - 1
    {
      hide TotalSize, Linked, Without, Distinct, Agrees, Naming;
      DistinctLive();
      Neighbours(k);
      Uncounted(gAllocations[..], nAllocations, live, k);
      var slot := header.nAlloc;
      Write(slot, gAllocations[slot].(nFree := gAllocations[slot].nFree + 1));
      Unlink(header, k);
      gAllocSize := gAllocSize - header.size;
      gAllocCount := gAllocCount - 1;
    }

    /** The slot of a live block has one. */
    lemma Guarded(k: nat)
      requires Accounted() && k < |live|
      ensures live[k].nAlloc < gAllocations.Length
      ensures gAllocations[live[k].nAlloc].nAlloc - gAllocations[live[k].nAlloc].nFree > 0
      ensures Without(live, k) == Taken(live, live[k])
      ensures forall h :: h in Without(live, k) <==> h in live && h != live[k]
    {
      Uncounted(gAllocations[..], nAllocations, live, k);
      WithoutIsMinus(live, k);
      DistinctWithout(live, k);
    }

    /** A block is freed. The guard against freeing more than was allocated never stops a live block. */
    method DbFree(ptr: Header?) returns (r: Freed)
      requires Valid() && (ptr != null && ptr.memType != MEM_FREE ==> ptr in live)
      modifies this`gAllocCount, this`gAllocSize, this`gAllocList, this`gAllocListTail, this`live
      modifies gAllocations, live`next, live`prev, live`memType
      ensures Valid()
      ensures r == if ptr == null then Crashed
                   else if old(ptr.memType) == MEM_FORBIDDEN_FREE then Protected
                   else if old(ptr.memType) == MEM_FREE then Twice else Freed.Freed
      ensures live == if r == Freed.Freed then Taken(old(live), ptr) else old(live)
      ensures r == Freed.Freed ==> ptr.memType == MEM_FREE && ptr !in live
      ensures gAllocSize == old(gAllocSize) - (if r == Freed.Freed then ptr.size else 0)
      ensures gAllocCount == old(gAllocCount) - if r == Freed.Freed then 1 else 0
      ensures forall h :: h in old(live) && (r != Freed.Freed || h != ptr) ==> h.memType == old(h.memType)
    {
      hide Accounted, Taken, Distinct;
      if ptr == null {
        return Crashed;
      }
      var header: Header := ptr;
      if header.memType == MEM_FORBIDDEN_FREE {
        return Protected;
      }
      if header.memType == MEM_FREE {
        return Twice;
      }
      ghost var k :| 0 <= k < |live| && live[k] == header;
      Guarded(k);
      if gAllocations[header.nAlloc].nAlloc - gAllocations[header.nAlloc].nFree == 0 {
        return OverFree;
      }
      header.memType := MEM_FREE;
      IsTaken(live, header);
      Remove(header, k);
      return Freed.Freed;
    }

    /** A live block is marked; not as a free one. */
    method SetMemType(ptr: Header, memType: int)
      requires Valid() && ptr in live && memType != MEM_FREE
      modifies ptr`memType
      ensures Valid() && ptr.memType == memType
    {
      hide TotalSize, Linked, Agrees;
      ptr.memType := memType;
    }

    /** In any state the heap gets into, what a slot counts is how many blocks of its line and length are live. */
    lemma SlotsCount(s: nat)
      requires Valid() && s < nAllocations
      ensures gAllocations[s].nAlloc - gAllocations[s].nFree == From(live, gAllocations[s])
    {
      hide Naming, From, TotalSize;
      SlotCounts(gAllocations[..], nAllocations, live, s);
    }
  }
}
