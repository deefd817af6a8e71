/** The pool allocator of global/memorypool.cpp: blocks of one size, in chunks of 1024, whose free ones form a queue
    linked by index. */
module MemoryPools {

  const CHUNK := 1024

  // ---- the queue as a value

  /** The free indices in the order in which they will be handed out, of all those there are. */
  datatype Pool = Pool(free: seq<int>, total: nat)

  ghost predicate Sound(p: Pool) {
    && (forall i :: 0 <= i < |p.free| ==> 0 <= p.free[i] < p.total)
    && (forall i, j :: 0 <= i < j < |p.free| ==> p.free[i] != p.free[j])
  }

  predicate Live(p: Pool, i: int) {
    0 <= i < p.total && i !in p.free
  }

  function Range(from: int, n: nat): (s: seq<int>)
    ensures |s| == n && forall i :: 0 <= i < n ==> s[i] == from + i
  {
    seq(n, i => from + i)
  }

  /** A new chunk is added only when nothing is free. */
  function Grown(p: Pool): Pool {
    if p.free == [] then Pool(Range(p.total, CHUNK), p.total + CHUNK) else p
  }

  function Allocated(p: Pool): (Pool, int) {
    var g := Grown(p);
    (g.(free := g.free[1..]), g.free[0])
  }

  function Freed(p: Pool, i: int): Pool {
    p.(free := p.free + [i])
  }

  lemma GrownKeeps(p: Pool)
    requires Sound(p)
    ensures Sound(Grown(p)) && forall i :: Live(Grown(p), i) <==> Live(p, i)
  {
    forall i
      ensures Live(Grown(p), i) <==> Live(p, i)
    {
      if p.free == [] && p.total <= i < p.total + CHUNK {
        assert Range(p.total, CHUNK)[i - p.total] == i;
      }
    }
  }

  /** What is handed out was not live; now it is, and nothing else has changed. */
  lemma AllocatedKeeps(p: Pool)
    requires Sound(p)
    ensures var (q, i) := Allocated(p);
            Sound(q) && !Live(p, i) && forall j :: Live(q, j) <==> Live(p, j) || j == i
  {
    GrownKeeps(p);
    var g := Grown(p);
    forall j
      ensures Live(Allocated(p).0, j) <==> Live(p, j) || j == g.free[0]
    {
      assert j in g.free <==> j == g.free[0] || j in g.free[1..];
    }
  }

  lemma FreedKeeps(p: Pool, i: int)
    requires Sound(p) && Live(p, i)
    ensures Sound(Freed(p, i)) && forall j :: Live(Freed(p, i), j) <==> Live(p, j) && j != i
  {
  }

  datatype Event = Allocate | Free(index: int)

  function Step(p: Pool, e: Event): Pool {
    match e
    case Allocate => Allocated(p).0
    case Free(i) => Freed(p, i)
  }

  function Run(p: Pool, es: seq<Event>): Pool {
    if es == [] then p else Step(Run(p, es[..|es| - 1]), es[|es| - 1])
  }

  /** Only live blocks are freed. */
  predicate Proper(p: Pool, es: seq<Event>) {
    es == [] || (Proper(p, es[..|es| - 1]) && (es[|es| - 1].Free? ==> Live(Run(p, es[..|es| - 1]), es[|es| - 1].index)))
  }

  /** What comes out over a run, and what goes in: the freed blocks, and the new ones when the pool grows. */
  function Out(p: Pool, es: seq<Event>): seq<int> {
    if es == [] then [] else
      var q := Run(p, es[..|es| - 1]);
      Out(p, es[..|es| - 1]) + if es[|es| - 1].Allocate? then [Allocated(q).1] else []
  }

  function In(p: Pool, es: seq<Event>): seq<int> {
    if es == [] then [] else
      var q := Run(p, es[..|es| - 1]);
      In(p, es[..|es| - 1])
      + if es[|es| - 1].Free? then [es[|es| - 1].index] else if q.free == [] then Grown(q).free else []
  }

  /** First in, first out: whatever the run, what came out and what is still free is what was free and what went
      in, in that order. */
  lemma {:induction false} FirstInFirstOut(p: Pool, es: seq<Event>)
    ensures Out(p, es) + Run(p, es).free == p.free + In(p, es)
  {
    if es != [] {
      var rest, e := es[..|es| - 1], es[|es| - 1];
      FirstInFirstOut(p, rest);
      var q := Run(p, rest);
      var (o, n) := (Out(p, rest), In(p, rest));
      match e
      case Free(i) =>
        Regroup(o, q.free, [i]);
        Regroup(p.free, n, [i]);
      case Allocate =>
        hide Range;
        var g := Grown(q).free;
        TakeFirst(o, g);
        Regroup(p.free, n, g);
        if q.free == [] {
          assert o + [] == o;
        } else {
          assert n + [] == n;
        }
    }
  }

  lemma Regroup(a: seq<int>, b: seq<int>, c: seq<int>)
    ensures a + (b + c) == (a + b) + c
  {
  }

  lemma TakeFirst(a: seq<int>, g: seq<int>)
    requires g != []
    ensures (a + [g[0]]) + g[1..] == a + g
  {
  }

  lemma {:induction false} RunKeeps(p: Pool, es: seq<Event>)
    requires Sound(p) && Proper(p, es)
    ensures Sound(Run(p, es))
  {
    if es != [] {
      var q := Run(p, es[..|es| - 1]);
      RunKeeps(p, es[..|es| - 1]);
      if es[|es| - 1].Free? {
        FreedKeeps(q, es[|es| - 1].index);
      } else {
        AllocatedKeeps(q);
      }
    }
  }

  // ---- what is live, told by what was handed out and given back

  /** The event at `k` hands out block `i`. */
  predicate HandedOut(p: Pool, es: seq<Event>, k: nat, i: int)
    requires k < |es|
  {
    es[k].Allocate? && Allocated(Run(p, es[..k])).1 == i
  }

  /** Handed out and not given back since. */
  ghost predicate Kept(p: Pool, es: seq<Event>, i: int) {
    exists k :: 0 <= k < |es| && HandedOut(p, es, k, i) && Free(i) !in es[k..]
  }

  lemma HandedBefore(p: Pool, es: seq<Event>, k: nat, i: int)
    requires k < |es| - 1
    ensures HandedOut(p, es, k, i) == HandedOut(p, es[..|es| - 1], k, i)
    ensures Free(i) in es[k..] <==> Free(i) in es[..|es| - 1][k..] || es[|es| - 1] == Free(i)
  {
    var rest := es[..|es| - 1];
    assert es[..k] == rest[..k];
    assert es[k..] == rest[k..] + [es[|es| - 1]];
  }

  lemma KeptStep(p: Pool, es: seq<Event>, i: int)
    requires es != []
    ensures var rest, e := es[..|es| - 1], es[|es| - 1];
            Kept(p, es, i) <==> HandedOut(p, es, |es| - 1, i) || (Kept(p, rest, i) && e != Free(i))
  {
    hide Run, Allocated;
    var n := |es| - 1;
    var rest := es[..n];
    assert es[n..] == [es[n]];
    if k :| 0 <= k < n && HandedOut(p, rest, k, i) && Free(i) !in rest[k..] {
      HandedBefore(p, es, k, i);
    }
    if k :| 0 <= k < |es| && HandedOut(p, es, k, i) && Free(i) !in es[k..] {
      if k < n {
        HandedBefore(p, es, k, i);
      }
    }
  }

  /** Over any run, live is exactly what was handed out and not given back since, or was live and not given back. */
  lemma {:induction false} LiveIff(p: Pool, es: seq<Event>, i: int)
    requires Sound(p) && Proper(p, es)
    ensures Live(Run(p, es), i) <==> Kept(p, es, i) || (Live(p, i) && Free(i) !in es)
  {
    if es == [] {
      assert Run(p, es) == p;
    } else {
      var rest, e := es[..|es| - 1], es[|es| - 1];
      assert es == rest + [e];
      LiveIff(p, rest, i);
      RunKeeps(p, rest);
      KeptStep(p, es, i);
      if e.Free? {
        FreedKeeps(Run(p, rest), e.index);
      } else {
        AllocatedKeeps(Run(p, rest));
      }
    }
  }

  lemma {:induction false} ProperBefore(p: Pool, es: seq<Event>, n: nat)
    requires Proper(p, es) && n <= |es|
    ensures Proper(p, es[..n])
  {
    if n < |es| {
      ProperBefore(p, es[..|es| - 1], n);
      assert es[..|es| - 1][..n] == es[..n];
    } else {
      assert es[..n] == es;
    }
  }

  /** No block is handed out twice without having been given back in between. */
  lemma NeverTwice(p: Pool, es: seq<Event>, k: nat, m: nat, i: int)
    requires Sound(p) && Proper(p, es) && k < m < |es| && HandedOut(p, es, k, i) && HandedOut(p, es, m, i)
    ensures Free(i) in es[k..m]
  {
    var before := es[..m];
    ProperBefore(p, es, m);
    RunKeeps(p, before);
    AllocatedKeeps(Run(p, before));
    LiveIff(p, before, i);
    assert before[..k] == es[..k] && before[k..] == es[k..m];
    assert HandedOut(p, before, k, i);
  }

  ghost function LiveOnes(p: Pool): set<int> {
    set i | 0 <= i < p.total && Live(p, i)
  }

  lemma {:induction false} AllLive(n: nat)
    ensures |LiveOnes(Pool([], n))| == n
  {
    if n == 0 {
      assert LiveOnes(Pool([], 0)) == {};
    } else {
      AllLive(n - 1);
      assert Live(Pool([], n), n - 1);
      assert LiveOnes(Pool([], n)) == LiveOnes(Pool([], n - 1)) + {n - 1};
    }
  }

  /** As many live blocks as there are in all, less the free ones. */
  lemma {:induction false} LiveCount(p: Pool)
    requires Sound(p)
    ensures |LiveOnes(p)| == p.total - |p.free|
    decreases |p.free|
  {
    if p.free == [] {
      AllLive(p.total);
    } else {
      var q := p.(free := p.free[1..]);
      LiveCount(q);
      var i := p.free[0];
      assert forall j :: Live(q, j) <==> Live(p, j) || j == i by {
        assert forall j :: j in p.free <==> j == i || j in q.free;
      }
      assert LiveOnes(q) == LiveOnes(p) + {i};
    }
  }

  // ---- the pool in memory

  class MemoryBlock {
    const index: int
    var nextFree: int

    constructor (index: int)
      ensures this.index == index && nextFree == index + 1
    {
      this.index, nextFree := index, index + 1;
    }
  }

  class MemoryPool {
    var firstFree: int
    var pLastFree: MemoryBlock?
    var nFree: int
    var nAlloc: int
    var data: seq<seq<MemoryBlock>>
    ghost var queue: seq<int>

    /** The blocks of a new chunk, linked in order. */
    static method NewChunk(start: int) returns (chunk: seq<MemoryBlock>)
      ensures |chunk| == CHUNK
      ensures forall i :: 0 <= i < CHUNK ==> fresh(chunk[i]) && chunk[i].index == start + i
      ensures forall i :: 0 <= i < CHUNK ==> chunk[i].nextFree == if i < CHUNK - 1 then start + i + 1 else -1
    {
      chunk := [];
      var i := start;
      while i < start + CHUNK
        invariant start <= i <= start + CHUNK && |chunk| == i - start
        invariant forall k :: 0 <= k < |chunk| ==>
                fresh(chunk[k]) && chunk[k].index == start + k && chunk[k].nextFree == start + k + 1
      {
        var block := new MemoryBlock(i);
        chunk := chunk + [block];
        i := i + 1;
      }
      chunk[CHUNK - 1].nextFree := -1;
    }

    function Block(i: int): MemoryBlock
      requires Chunked() && 0 <= i < CHUNK * |data|
      reads this`data
    {
      data[i / CHUNK][i % CHUNK]
    }

    predicate Chunked()
      reads this`data
    {
      forall k :: 0 <= k < |data| ==> |data[k]| == CHUNK
    }

    ghost function Value(): Pool
      reads this
    {
      Pool(queue, CHUNK * |data|)
    }

    ghost predicate Indexed(i: int)
      requires Chunked() && 0 <= i < CHUNK * |data|
      reads this`data
    {
      Block(i).index == i
    }

    /** Each free block names the next one. */
    ghost predicate Linked(k: nat)
      requires Chunked() && k < |queue| && 0 <= queue[k] < CHUNK * |data|
      reads this`data, this`queue, Block(queue[k])
    {
      Block(queue[k]).nextFree == if k + 1 < |queue| then queue[k + 1] else -1
    }

    ghost function Blocks(): set<MemoryBlock>
      reads this`data
    {
      set k, i | 0 <= k < |data| && 0 <= i < |data[k]| :: data[k][i]
    }

    ghost predicate Valid()
      reads this, Blocks()
    {
      && Chunked() && Sound(Value()) && |data| > 0
      && (forall i :: 0 <= i < CHUNK * |data| ==> Indexed(i))
      && (forall k :: 0 <= k < |queue| ==> Linked(k))
      && firstFree == (if queue == [] then -1 else queue[0])
      && pLastFree == (if queue == [] then null else Block(queue[|queue| - 1]))
      && nAlloc - nFree == CHUNK * |data| - |queue|
    }

    constructor ()
      ensures Valid() && fresh(Blocks()) && Value() == Pool(Range(0, CHUNK), CHUNK) && nAlloc == nFree == 0
    {
      nAlloc, nFree, firstFree := 0, 0, 0;
      new;
      var chunk := NewChunk(0);
      data := [chunk];
      pLastFree := chunk[CHUNK - 1];
      queue := Range(0, CHUNK);
      forall i | 0 <= i < CHUNK
        ensures Indexed(i) && Linked(i)
      {
        assert Block(i) == chunk[i];
      }
    }

    /** Nothing is free: a new chunk is, and the last block of the one before is linked to it. */
    method Grow()
      requires Valid() && queue == []
      modifies this`data, this`firstFree, this`pLastFree, this`queue, Blocks()
      ensures Chunked() && Value() == Grown(old(Value())) && |data| == |old(data)| + 1
      ensures forall i :: 0 <= i < CHUNK * |data| ==> Indexed(i)
      ensures forall k :: 0 <= k < |queue| ==> Linked(k)
      ensures firstFree == queue[0] && pLastFree == Block(queue[|queue| - 1])
      ensures fresh(Blocks() - old(Blocks())) && old(Blocks()) <= Blocks()
    {
      var start := CHUNK * |data|;
      var chunk := NewChunk(start);
      ghost var was := data;
      data := data + [chunk];
      pLastFree := chunk[CHUNK - 1];
      var block: MemoryBlock := data[|data| - 2][CHUNK - 1];
      block.nextFree := start;
      firstFree := start;
      queue := Range(start, CHUNK);
      forall i | 0 <= i < CHUNK * |data|
        ensures Indexed(i)
      {
        if i < start {
          assert old(Indexed(i)) && Block(i) == was[i / CHUNK][i % CHUNK];
        } else {
          assert Block(i) == chunk[i - start];
        }
      }
      forall k | 0 <= k < CHUNK
        ensures Linked(k)
      {
        assert Block(queue[k]) == chunk[k];
      }
      forall k, i | 0 <= k < |was| && 0 <= i < |was[k]|
        ensures was[k][i] in Blocks()
      {
        assert data[k] == was[k];
      }
    }

    method Allocate() returns (block: MemoryBlock)
      requires Valid()
      modifies this, Blocks()
      ensures fresh(Blocks() - old(Blocks())) && old(Blocks()) <= Blocks()
      ensures Valid() && (Value(), block.index) == Allocated(old(Value()))
      ensures block in Blocks() && nAlloc == old(nAlloc) + 1 && nFree == old(nFree)
    {
      AllocatedKeeps(Value());
      if firstFree == -1 {
        Grow();
      }
      nAlloc := nAlloc + 1;
      block := Pop();
    }

    /** The first free block leaves the queue. */
    method Pop() returns (block: MemoryBlock)
      requires Chunked() && Sound(Value()) && queue != []
      requires forall i :: 0 <= i < CHUNK * |data| ==> Indexed(i)
      requires forall k :: 0 <= k < |queue| ==> Linked(k)
      requires firstFree == queue[0] && pLastFree == Block(queue[|queue| - 1])
      modifies this`firstFree, this`pLastFree, this`queue
      ensures Chunked() && block == Block(old(queue[0])) && queue == old(queue[1..]) && block in Blocks()
      ensures forall i :: 0 <= i < CHUNK * |data| ==> Indexed(i)
      ensures forall k :: 0 <= k < |queue| ==> Linked(k)
      ensures firstFree == (if queue == [] then -1 else queue[0])
      ensures pLastFree == (if queue == [] then null else Block(queue[|queue| - 1]))
      ensures block.index == old(queue[0])
    {
      assert Linked(0) && Indexed(queue[0]);
      var coarseIndex := firstFree / CHUNK;
      var index := firstFree - coarseIndex * CHUNK;
      block := data[coarseIndex][index];
      firstFree := block.nextFree;
      if firstFree == -1 {
        pLastFree := null;
      }
      ghost var was := queue;
      forall k | 0 <= k < |was| - 1
        ensures was[k + 1] == queue[1..][k]
      {
      }
      queue := queue[1..];
      forall k | 0 <= k < |queue|
        ensures Linked(k)
      {
        assert old(Linked(k + 1));
      }
    }

    /** Goes to the end of the queue; the pool does not check that it is live. */
    method Deallocate(block: MemoryBlock)
      requires Valid() && block in Blocks() && Live(Value(), block.index)
      modifies this`firstFree, this`pLastFree, this`queue, this`nFree, Blocks()
      ensures Valid() && Value() == Freed(old(Value()), block.index) && nFree == old(nFree) + 1 && nAlloc == old(nAlloc)
      ensures data == old(data)
    {
      FreedKeeps(Value(), block.index);
      InPlace(block);
      ghost var was := queue;
      if firstFree == -1 {
        firstFree := block.index;
      }
      if pLastFree != null {
        pLastFree.nextFree := block.index;
      }
      block.nextFree := -1;
      pLastFree := block;
      nFree := nFree + 1;
      queue := queue + [block.index];
      forall k | 0 <= k < |queue|
        ensures Linked(k)
      {
        if k < |was| {
          assert old(Linked(k)) && Indexed(was[k]) && Indexed(was[|was| - 1]);
        }
      }
      forall i | 0 <= i < CHUNK * |data|
        ensures Indexed(i)
      {
        assert old(Indexed(i));
      }
    }

    lemma InPlace(block: MemoryBlock)
      requires Valid() && block in Blocks()
      ensures 0 <= block.index < CHUNK * |data| && Block(block.index) == block
    {
      var k, i :| 0 <= k < |data| && 0 <= i < |data[k]| && data[k][i] == block;
      assert Indexed(CHUNK * k + i);
    }

    /** The counters count the live blocks, and both ends of the queue say whether all are. */
    lemma Counts()
      requires Valid()
      ensures |set i | 0 <= i < Value().total && Live(Value(), i)| == nAlloc - nFree
      ensures firstFree == -1 <==> pLastFree == null
      ensures firstFree == -1 <==> nAlloc - nFree == Value().total
    {
      LiveCount(Value());
      assert LiveOnes(Value()) == set i | 0 <= i < Value().total && Live(Value(), i);
    }
  }

  // ---- addresses

  /** Where a block starts takes the room for its header and its data, and 1 to 4 bytes more. */
  const HEADER_SIZE := 12

  function SizeOf(blockSize: nat): (n: nat)
    ensures n % 4 == 0 && blockSize + 12 < n <= blockSize + 16
  {
    var size := blockSize + HEADER_SIZE;
    size + 4 - size % 4
  }

  ghost predicate StartsBlock(base: int, size: nat, at: int) {
    exists k :: 0 <= k < CHUNK && at == base + k * size
  }

  /** The chunks do not overlap. */
  ghost predicate Disjoint(data: seq<int>, size: nat) {
    forall i, j :: 0 <= i < |data| && 0 <= j < |data| && i != j ==>
        data[i] + CHUNK * size <= data[j] || data[j] + CHUNK * size <= data[i]
  }

  lemma StartIs(base: int, size: nat, at: int)
    requires size > 0
    ensures StartsBlock(base, size, at) <==> base <= at < base + CHUNK * size && (at - base) % size == 0
  {
    var d := at - base;
    if 0 <= d < CHUNK * size && d % size == 0 {
      var k := d / size;
      assert d == k * size + d % size;
      if k >= CHUNK {
        Scaled(k, CHUNK, size);
        assert false;
      }
      assert k >= 0;
      assert at == base + k * size;
    }
    if StartsBlock(base, size, at) {
      var k :| 0 <= k < CHUNK && at == base + k * size;
      Scaled(CHUNK - 1, k, size);
      Multiple(k, size);
    }
  }

  lemma Scaled(a: int, b: int, size: nat)
    requires a >= b
    ensures a * size >= b * size
  {
  }

  lemma Multiple(k: int, size: nat)
    requires size > 0 && k >= 0
    ensures k * size % size == 0 && k * size >= 0
  {
    var x := k * size;
    var q, r := x / size, x % size;
    Scaled(k, 0, size);
    assert x == q * size + r && 0 <= r < size;
    if k > q {
      Scaled(k, q + 1, size);
    } else if k < q {
      Scaled(q, k + 1, size);
    }
  }

  /** Whether `ptr` is the data of a block of this pool. */
  method IsValidPtr(data: seq<int>, blockSize: nat, ptr: int) returns (valid: bool)
    requires Disjoint(data, SizeOf(blockSize))
    ensures valid <==> exists i :: 0 <= i < |data| && StartsBlock(data[i], SizeOf(blockSize), ptr - HEADER_SIZE)
  {
    var size := SizeOf(blockSize);
    var at, i := ptr - HEADER_SIZE, 0;
    while i < |data|
      invariant 0 <= i <= |data| && forall j :: 0 <= j < i ==> !(data[j] <= at < data[j] + CHUNK * size)
    {
      var dataPtr := data[i];
      if dataPtr <= at && dataPtr + CHUNK * size > at {
        forall j | 0 <= j < |data|
          ensures StartsBlock(data[j], size, at) <==> j == i && (at - dataPtr) % size == 0
        {
          StartIs(data[j], size, at);
        }
        var offset := at - dataPtr;
        return offset % size == 0;
      }
      i := i + 1;
    }
    forall j | 0 <= j < |data|
      ensures !StartsBlock(data[j], size, at)
    {
      StartIs(data[j], size, at);
    }
    return false;
  }
}
