/** The seeded stream of global/ipcencryption.cpp: what the server's routines and the two machine-code routines that
    it hands to the client do to each other's messages.

    A message is its type and its data as 32-bit words. Outgoing messages have one word more than their payload. */
module Encryption {
  import opened Common

  /** 32 bits. */
  datatype Word = Word(bits: bv32)

  /** The generator of the stream. */
  function Next(seed: Word): Word {
    Word(seed.bits * 0x180EF + 1)
  }

  function Seed(seed: Word, k: nat): Word {
    if k == 0 then seed else Next(Seed(seed, k - 1))
  }

  /** The exclusive or of the words, and `mask`. */
  function Xor(mask: Word, s: seq<Word>): Word {
    if s == [] then mask else Mix(Xor(mask, s[..|s| - 1]), s[|s| - 1])
  }

  /** Masking, and unmasking. */
  function Mix(x: Word, y: Word): Word {
    Word(x.bits ^ y.bits)
  }

  /** Either bit, but not both. */
  lemma MixIs(x: Word, y: Word)
    ensures Mix(x, y).bits == (x.bits | y.bits) & !(x.bits & y.bits)
  {
  }

  /** The stream that starts at 0, and the word before it. */
  lemma NextSample()
    ensures Next(Word(0)) == Word(1) && Next(Word(1)) == Word(0x180f0) && Next(Word(0x180f0)) == Word(0x42cf6011)
    ensures Next(Word(0xffff_ffff)) == Word(0xfffe7f12)
  {
  }

  lemma Twice(x: Word, y: Word)
    ensures Mix(Mix(x, y), y) == x
  {
  }

  lemma FirstSeeds(seed: Word)
    ensures Seed(seed, 1) == Next(seed) && Seed(seed, 2) == Next(Next(seed)) && Seed(seed, 3) == Next(Next(Next(seed)))
    ensures Seed(seed, 4) == Next(Next(Next(Next(seed))))
  {
    hide Next;
    assert Seed(seed, 1) == Next(Seed(seed, 0));
    assert Seed(seed, 2) == Next(Seed(seed, 1));
    assert Seed(seed, 3) == Next(Seed(seed, 2));
    assert Seed(seed, 4) == Next(Seed(seed, 3));
  }

  lemma XorStep(mask: Word, s: seq<Word>, n: nat)
    requires n < |s|
    ensures Xor(mask, s[..n + 1]) == Mix(Xor(mask, s[..n]), s[n])
  {
    assert s[..n + 1][..n] == s[..n];
  }

  lemma XorThree(mask: Word, s: seq<Word>)
    requires |s| >= 3
    ensures Xor(mask, s[..3]) == Mix(Mix(Mix(mask, s[0]), s[1]), s[2])
  {
    hide Mix;
    XorStep(mask, s, 0);
    XorStep(mask, s, 1);
    XorStep(mask, s, 2);
  }

  lemma MixTurns(x: Word, y: Word)
    ensures Mix(x, y) == Mix(y, x)
  {
  }

  lemma MixGroups(x: Word, y: Word, z: Word)
    ensures Mix(Mix(x, y), z) == Mix(x, Mix(y, z))
  {
  }

  lemma MixSwaps(a: Word, b: Word, c: Word)
    ensures Mix(Mix(a, b), c) == Mix(Mix(a, c), b)
  {
    hide Mix;
    MixGroups(a, b, c);
    MixTurns(b, c);
    MixGroups(a, c, b);
  }

  lemma MixMoves(a: Word, b: Word, c: Word, d: Word)
    ensures Mix(Mix(Mix(a, b), c), d) == Mix(Mix(Mix(a, d), b), c)
  {
    hide Mix;
    MixSwaps(Mix(a, b), c, d);
    MixSwaps(a, b, d);
  }

  /** Masking tells words apart, and only masking twice with the same does nothing. */
  lemma MixTells(x: Word, a: Word, b: Word)
    ensures (Mix(Mix(x, a), b) == x <==> a == b) && (Mix(a, x) == Mix(b, x) <==> a == b)
  {
    hide Mix;
    Twice(a, x);
    Twice(b, x);
    Twice(x, a);
    Twice(x, b);
    Twice(Mix(x, a), b);
    MixTurns(x, a);
    MixTurns(x, b);
  }

  /** Another word in one place changes the exclusive or by both. */
  lemma {:induction false} XorChanged(mask: Word, s: seq<Word>, i: nat, w: Word)
    requires i < |s|
    ensures Xor(mask, s[i := w]) == Mix(Mix(Xor(mask, s), s[i]), w)
    decreases |s|
  {
    hide Mix;
    var rest, y := s[..|s| - 1], s[|s| - 1];
    if i == |s| - 1 {
      assert s[i := w][..i] == rest;
      Twice(Xor(mask, rest), y);
    } else {
      assert s[i := w][..|s| - 1] == rest[i := w];
      XorChanged(mask, rest, i, w);
      MixMoves(Xor(mask, rest), s[i], w, y);
    }
  }

  const ZERO := Word(0)

  lemma MixZero(x: Word)
    ensures Mix(ZERO, x) == x
  {
  }

  /** A word in front is as good as a mask. */
  lemma {:induction false} XorFront(x: Word, s: seq<Word>)
    ensures Xor(ZERO, [x] + s) == Xor(x, s)
    decreases |s|
  {
    hide Mix;
    if s == [] {
      MixZero(x);
      assert [x] + s == [x] && [x][..0] == [];
      assert Xor(ZERO, [x]) == Mix(Xor(ZERO, []), x);
    } else {
      var rest := s[..|s| - 1];
      assert ([x] + s)[..|s|] == [x] + rest;
      XorFront(x, rest);
    }
  }

  // ---- server to client

  datatype Packet = Packet(kind: Word, words: seq<Word>)

  /** How many of the words are masked with the stream; the type always is. */
  function Masked(n: nat): nat {
    Min(n, 3)
  }

  /** The checksum that the server writes: over the masked type and the plain words but the last. */
  function Checksum(seed: Word, p: Packet): Word
    requires |p.words| > 3
  {
    Xor(Mix(p.kind, Seed(seed, 1)), p.words[..|p.words| - 1])
  }

  function Encoded(seed: Word, p: Packet): Packet
    requires |p.words| >= 2
  {
    Packet(Mix(p.kind, Seed(seed, 1)),
           seq(|p.words|, i requires 0 <= i < |p.words| =>
             if i < 3 then Mix(p.words[i], Seed(seed, i + 2))
             else if i == |p.words| - 1 then Checksum(seed, p)
             else p.words[i]))
  }

  lemma EncodedIs(seed: Word, p: Packet, q: Packet)
    requires |p.words| == |q.words| >= 2 && q.kind == Mix(p.kind, Seed(seed, 1))
    requires q.words[0] == Mix(p.words[0], Seed(seed, 2)) && q.words[1] == Mix(p.words[1], Seed(seed, 3))
    requires |p.words| > 2 ==> q.words[2] == Mix(p.words[2], Seed(seed, 4))
    requires forall i :: 3 <= i < |p.words| - 1 ==> q.words[i] == p.words[i]
    requires |p.words| > 3 ==> q.words[|p.words| - 1] == Checksum(seed, p)
    ensures q == Encoded(seed, p)
  {
    hide Mix, Seed, Checksum;
  }

  lemma ChecksumIs(seed: Word, p: Packet)
    requires |p.words| > 3
    ensures Checksum(seed, p) == Xor(Mix(p.kind, Seed(seed, 1)), p.words[..|p.words| - 1])
  {
  }

  function SeedAfter(seed: Word, p: Packet): Word {
    Seed(seed, 1 + Masked(|p.words|))
  }

  /** A message as it lies in memory. */
  class Buffer {
    var kind: Word
    const words: array<Word>

    constructor (p: Packet)
      ensures Value() == p && fresh(words)
    {
      kind, words := p.kind, new Word[|p.words|](i requires 0 <= i < |p.words| => p.words[i]);
    }

    ghost function Value(): Packet
      reads this, words
    {
      Packet(kind, words[..])
    }
  }

  // what the client makes of it

  function Decoded(seed: Word, q: Packet): Packet {
    Packet(Mix(q.kind, Seed(seed, 1)),
           seq(|q.words|, i requires 0 <= i < |q.words| => if i < 3 then Mix(q.words[i], Seed(seed, i + 2))
               else q.words[i]))
  }

  /** Whether the client is content: it compares the last word if there are more than three. */
  predicate Accepted(seed: Word, q: Packet) {
    |q.words| > 3 ==>
      q.words[|q.words| - 1] == Xor(q.kind, Decoded(seed, q).words[..|q.words| - 1])
  }

  /** The client gets back what the server masked, but for the spare word, and is content. */
  lemma DecodedEncoded(seed: Word, p: Packet)
    requires |p.words| >= 2
    ensures var q := Encoded(seed, p);
            && Accepted(seed, q) && SeedAfter(seed, q) == SeedAfter(seed, p)
            && Decoded(seed, q) == if |p.words| > 3 then Packet(p.kind, p.words[|p.words| - 1 := Checksum(seed, p)])
               else p
  {
    hide Seed, Mix, Xor;
    var q := Encoded(seed, p);
    Twice(p.kind, Seed(seed, 1));
    forall i | 0 <= i < |p.words| && i < 3
      ensures Decoded(seed, q).words[i] == p.words[i]
    {
      Twice(p.words[i], Seed(seed, i + 2));
    }
    if |p.words| > 3 {
      assert Decoded(seed, q).words == p.words[|p.words| - 1 := Checksum(seed, p)];
      assert Decoded(seed, q).words[..|p.words| - 1] == p.words[..|p.words| - 1];
    } else {
      assert Decoded(seed, q).words == p.words;
    }
  }

  // ---- client to server

  /** What the client makes of its words, type first, as long as it goes on. */
  function Cipher(seed: Word, src: seq<Word>): (c: seq<Word>)
    ensures |c| == |src|
  {
    seq(|src|, i requires 0 <= i < |src| => Mix(src[i], Seed(seed, i + 1)))
  }

  /** The loop of the client ends with the words, or at the first one that became zero. */
  function Stop(c: seq<Word>): (n: nat)
    requires c != []
    ensures 1 <= n <= |c| && (forall i :: 0 <= i < n - 1 ==> c[i] != ZERO) && (n < |c| ==> c[n - 1] == ZERO)
  {
    if |c| == 1 || c[0] == ZERO then 1 else 1 + Stop(c[1..])
  }

  /** What it leaves in a buffer that held `stale`: as many words, the checksum, and what was there. */
  function Encrypted(seed: Word, src: seq<Word>, stale: seq<Word>): seq<Word>
    requires src != [] && |stale| == |src| + 1
  {
    var n := Stop(Cipher(seed, src));
    Cipher(seed, src)[..n] + [Xor(ZERO, src[..n])] + stale[n + 1..]
  }

  /** What the server makes of a message, whose last word is the checksum. */
  function Opened(seed: Word, q: Packet): Packet
    requires q.words != []
  {
    Packet(Mix(q.kind, Seed(seed, 1)),
           seq(|q.words| - 1, i requires 0 <= i < |q.words| - 1 => Mix(q.words[i], Seed(seed, i + 2))))
  }

  predicate Trusted(seed: Word, q: Packet)
    requires q.words != []
  {
    |q.words| - 1 > 4 ==> q.words[|q.words| - 1] == Xor(Opened(seed, q).kind, Opened(seed, q).words)
  }

  /** How the server gets what the client left in the buffer. */
  /** A checksum holds for one word at most in every place, if it says anything: of two messages that differ in one word
      the server does not trust both. */
  lemma ServerSees(seed: Word, q: Packet, i: nat, w: Word)
    requires i < |q.words| && |q.words| > 5 && w != q.words[i] && Trusted(seed, q)
    ensures !Trusted(seed, q.(words := q.words[i := w]))
  {
    hide Mix, Seed, Xor;
    var t, last := q.(words := q.words[i := w]), |q.words| - 1;
    var o := Opened(seed, q);
    if i == last {
      assert Opened(seed, t) == o;
    } else {
      assert Opened(seed, t).kind == o.kind;
      assert Opened(seed, t).words == o.words[i := Mix(w, Seed(seed, i + 2))];
      XorChanged(o.kind, o.words, i, Mix(w, Seed(seed, i + 2)));
      MixTells(Seed(seed, i + 2), w, q.words[i]);
      MixTells(Xor(o.kind, o.words), o.words[i], Mix(w, Seed(seed, i + 2)));
    }
  }

  /** Nor does the client. */
  lemma ClientSees(seed: Word, q: Packet, i: nat, w: Word)
    requires i < |q.words| && |q.words| > 3 && w != q.words[i] && Accepted(seed, q)
    ensures !Accepted(seed, q.(words := q.words[i := w]))
  {
    hide Mix, Seed, Xor;
    var t, last := q.(words := q.words[i := w]), |q.words| - 1;
    var d, e := Decoded(seed, q).words[..last], Decoded(seed, t).words[..last];
    if i == last {
      assert e == d;
    } else {
      var v := if i < 3 then Mix(w, Seed(seed, i + 2)) else w;
      assert e == d[i := v];
      XorChanged(q.kind, d, i, v);
      MixTells(Seed(seed, i + 2), w, q.words[i]);
      MixTells(Xor(q.kind, d), d[i], v);
    }
  }

  function AsPacket(dst: seq<Word>): Packet
    requires dst != []
  {
    Packet(dst[0], dst[1..])
  }

  /** The message arrives whole, and the next one will find both seeds alike. */
  predicate Arrives(seed: Word, src: seq<Word>, stale: seq<Word>)
    requires src != [] && |stale| == |src| + 1
  {
    var q := AsPacket(Encrypted(seed, src, stale));
    && Trusted(seed, q) && Opened(seed, q) == AsPacket(src)
    && Seed(seed, Stop(Cipher(seed, src))) == Seed(seed, |q.words|)
  }

  lemma OpenedWhole(seed: Word, src: seq<Word>, stale: seq<Word>)
    requires src != [] && |stale| == |src| + 1 && Stop(Cipher(seed, src)) == |src|
    ensures Arrives(seed, src, stale)
  {
    hide Seed, Mix, Xor, Stop;
    var c := Cipher(seed, src);
    var d := Encrypted(seed, src, stale);
    assert src[..|src|] == src && c[..|src|] == c && stale[|src| + 1..] == [];
    assert d == c + [Xor(ZERO, src)];
    var q := AsPacket(d);
    Twice(src[0], Seed(seed, 1));
    forall i | 0 <= i < |src| - 1
      ensures Opened(seed, q).words[i] == src[1..][i]
    {
      Twice(src[i + 1], Seed(seed, i + 2));
    }
    assert Opened(seed, q).words == src[1..];
    assert src == [src[0]] + src[1..];
    XorFront(src[0], src[1..]);
  }

  /** Past the checksum, the buffer is as it was. */
  lemma EncryptedAt(seed: Word, src: seq<Word>, stale: seq<Word>, n: nat)
    requires src != [] && |stale| == |src| + 1 && n == Stop(Cipher(seed, src))
    ensures var d := Encrypted(seed, src, stale);
            && |d| == |src| + 1 && d[..n + 1] == Cipher(seed, src)[..n] + [Xor(ZERO, src[..n])]
            && forall i :: n < i <= |src| ==> d[i] == stale[i]
  {
    hide Cipher, Xor, Stop;
  }

  lemma OpenedAt(seed: Word, q: Packet, i: nat)
    requires i + 1 < |q.words|
    ensures Opened(seed, q).words[i] == Mix(q.words[i], Seed(seed, i + 2))
  {
    hide Mix, Seed;
  }

  /** No two seeds in a row are alike: the generator turns the lowest bit around. */
  lemma SeedsDiffer(seed: Word, k: nat)
    ensures Seed(seed, k) != Seed(seed, k + 1)
  {
    var x := Seed(seed, k);
    OddStep(x.bits);
  }

  lemma OddStep(x: bv32)
    ensures x * 0x180EF + 1 != x
  {
    assert (x * 0x180EF + 1) & 1 != x & 1;
  }

  /** If the loop ends early, the next message finds seeds that are not alike, or what the server reads further on is
      whatever the buffer held. */
  lemma OpenedStale(seed: Word, src: seq<Word>) returns (stale: seq<Word>)
    requires src != [] && Stop(Cipher(seed, src)) < |src|
    ensures |stale| == |src| + 1 && !Arrives(seed, src, stale)
  {
    hide Xor, Mix, Seed, Stop, Cipher, Opened, Trusted, Encrypted;
    var n := Stop(Cipher(seed, src));
    var (a, b) := (seq(|src| + 1, _ => Word(0)), seq(|src| + 1, _ => Word(1)));
    EncryptedAt(seed, src, a, n);
    EncryptedAt(seed, src, b, n);
    stale := a;
    if n + 1 == |src| {
      SeedsDiffer(seed, n);
    } else if Arrives(seed, src, a) {
      var (p, q) := (AsPacket(Encrypted(seed, src, a)), AsPacket(Encrypted(seed, src, b)));
      OpenedAt(seed, p, n);
      OpenedAt(seed, q, n);
      Unmixed(a[n + 1], b[n + 1], Seed(seed, n + 2));
      stale := b;
    }
  }

  lemma Unmixed(x: Word, y: Word, s: Word)
    requires x != y
    ensures Mix(x, s) != Mix(y, s)
  {
    Twice(x, s);
    Twice(y, s);
  }

  /** No word but the last becomes zero on the way. */
  predicate Whole(seed: Word, src: seq<Word>) {
    forall i :: 0 <= i < |src| - 1 ==> Cipher(seed, src)[i] != ZERO
  }

  lemma WholeStops(seed: Word, src: seq<Word>)
    requires src != []
    ensures Whole(seed, src) <==> Stop(Cipher(seed, src)) == |src|
  {
    hide Cipher;
  }

  /** A message arrives whatever the buffer held before if and only if no word of it but the last becomes zero on the
      way. */
  lemma ArrivesIff(seed: Word, src: seq<Word>)
    requires src != []
    ensures (forall stale: seq<Word> :: |stale| == |src| + 1 ==> Arrives(seed, src, stale)) <==> Whole(seed, src)
  {
    hide Whole, Arrives;
    WholeStops(seed, src);
    if Stop(Cipher(seed, src)) == |src| {
      forall stale: seq<Word> | |stale| == |src| + 1
        ensures Arrives(seed, src, stale)
      {
        OpenedWhole(seed, src, stale);
      }
    } else {
      var stale := OpenedStale(seed, src);
    }
  }

  /** Messages one after the other, each with a buffer of its own: whether they all arrive. */
  predicate AllArrive(seed: Word, srcs: seq<seq<Word>>, stales: seq<seq<Word>>)
    requires Buffers(srcs, stales)
    decreases |srcs|
  {
    srcs == [] || (Arrives(seed, srcs[0], stales[0]) && AllArrive(Seed(seed, |srcs[0]|), srcs[1..], stales[1..]))
  }

  predicate Buffers(srcs: seq<seq<Word>>, stales: seq<seq<Word>>) {
    |stales| == |srcs| && forall i :: 0 <= i < |srcs| ==> srcs[i] != [] && |stales[i]| == |srcs[i]| + 1
  }

  predicate AllWhole(seed: Word, srcs: seq<seq<Word>>)
    decreases |srcs|
  {
    srcs == [] || (Whole(seed, srcs[0]) && AllWhole(Seed(seed, |srcs[0]|), srcs[1..]))
  }

  function Blank(srcs: seq<seq<Word>>): (stales: seq<seq<Word>>)
    ensures (forall i :: 0 <= i < |srcs| ==> srcs[i] != []) ==> Buffers(srcs, stales)
  {
    seq(|srcs|, i requires 0 <= i < |srcs| => seq(|srcs[i]| + 1, _ => ZERO))
  }

  lemma {:induction false} WholeArrive(seed: Word, srcs: seq<seq<Word>>, stales: seq<seq<Word>>)
    requires Buffers(srcs, stales) && AllWhole(seed, srcs)
    ensures AllArrive(seed, srcs, stales)
    decreases |srcs|
  {
    hide Whole, Arrives, Seed;
    if srcs != [] {
      WholeStops(seed, srcs[0]);
      OpenedWhole(seed, srcs[0], stales[0]);
      WholeArrive(Seed(seed, |srcs[0]|), srcs[1..], stales[1..]);
    }
  }

  lemma {:induction false} SomeFail(seed: Word, srcs: seq<seq<Word>>) returns (stales: seq<seq<Word>>)
    requires (forall i :: 0 <= i < |srcs| ==> srcs[i] != []) && !AllWhole(seed, srcs)
    ensures Buffers(srcs, stales) && !AllArrive(seed, srcs, stales)
    decreases |srcs|
  {
    hide Whole, Arrives, Seed;
    if Whole(seed, srcs[0]) {
      var rest := SomeFail(Seed(seed, |srcs[0]|), srcs[1..]);
      stales := [seq(|srcs[0]| + 1, _ => ZERO)] + rest;
      assert stales[1..] == rest;
    } else {
      WholeStops(seed, srcs[0]);
      var stale := OpenedStale(seed, srcs[0]);
      stales := [stale] + Blank(srcs[1..]);
    }
  }

  /** Any sequence of messages arrives, the seeds staying alike after each, whatever the buffers held, if and only if
      that is so of each of them. */
  lemma ClientStreamIff(seed: Word, srcs: seq<seq<Word>>)
    requires forall i :: 0 <= i < |srcs| ==> srcs[i] != []
    ensures (forall stales :: Buffers(srcs, stales) ==> AllArrive(seed, srcs, stales)) <==> AllWhole(seed, srcs)
  {
    hide AllWhole, AllArrive;
    if AllWhole(seed, srcs) {
      forall stales | Buffers(srcs, stales)
        ensures AllArrive(seed, srcs, stales)
      {
        WholeArrive(seed, srcs, stales);
      }
    } else {
      var stales := SomeFail(seed, srcs);
    }
  }

  class OldEncryption {
    var seed: Word

    constructor (seed: Word)
      ensures this.seed == seed
    {
      this.seed := seed;
    }

    method Draw() returns (s: Word)
      modifies this
      ensures s == seed == Next(old(seed))
    {
      seed := Next(seed);
      s := seed;
    }

    /** Unmasks an incoming message, whose size is reported without the checksum. False is a message that was
        tampered with. */
    method Decode(msg: Buffer) returns (ok: bool)
      requires msg.words.Length > 0
      modifies this, msg`kind, msg.words
      ensures var q := old(msg.Value());
              && Packet(msg.kind, msg.words[..msg.words.Length - 1]) == Opened(old(seed), q)
                 && (ok <==> Trusted(old(seed), q))
              && seed == Seed(old(seed), msg.words.Length)
    {
      hide Next, Xor, Mix, Seed, Opened;
      ghost var q, s, o := msg.Value(), seed, Opened(seed, msg.Value());
      SeedIs(s);
      SeedStep(s, 0);
      OpenedIs(s, q);
      var r := Draw();
      msg.kind := Mix(msg.kind, r);
      var nMask := msg.kind;
      var nSize, buf, nEncrypt := msg.words.Length - 1, msg.words, 0;
      XorNothing(nMask, o.words);
      while nEncrypt < nSize
        invariant 0 <= nEncrypt <= nSize && seed == Seed(s, nEncrypt + 1) && nMask == Xor(o.kind, o.words[..nEncrypt])
        invariant forall j :: 0 <= j < nEncrypt ==> buf[j] == o.words[j]
        invariant forall j :: nEncrypt <= j <= nSize ==> buf[j] == q.words[j]
        modifies this, buf
      {
        MaskWord(buf, nEncrypt);
        SeedStep(s, nEncrypt + 1);
        nMask := Mix(nMask, buf[nEncrypt]);
        XorStep(o.kind, o.words, nEncrypt);
        nEncrypt := nEncrypt + 1;
      }
      assert o.words[..nSize] == o.words;
      ok := !(nSize > 4 && nMask != buf[nEncrypt]);
    }

    lemma OpenedIs(seed: Word, q: Packet)
      requires q.words != []
      ensures Opened(seed, q).kind == Mix(q.kind, Seed(seed, 1)) && |Opened(seed, q).words| == |q.words| - 1
      ensures forall i :: 0 <= i < |q.words| - 1 ==> Opened(seed, q).words[i] == Mix(q.words[i], Seed(seed, i + 2))
    {
    }

    /** The checksum goes on over the words after the third, but the last. */
    method MaskRest(buf: array<Word>, mask: Word, ghost kind: Word, ghost plain: seq<Word>) returns (nMask: Word)
      requires buf.Length == |plain| > 3 && mask == Mix(Mix(Mix(kind, plain[0]), plain[1]), plain[2])
      requires forall i :: 3 <= i < |plain| ==> buf[i] == plain[i]
      ensures nMask == Xor(kind, plain[..|plain| - 1])
    {
      hide Xor, Mix;
      XorThree(kind, plain);
      nMask := mask;
      var nEncode, nSize := 3, buf.Length - 1;
      while nEncode < nSize
        invariant 3 <= nEncode <= nSize && nMask == Xor(kind, plain[..nEncode])
      {
        nMask := Mix(nMask, buf[nEncode]);
        XorStep(kind, plain, nEncode);
        nEncode := nEncode + 1;
      }
    }

    /** The type and up to three words are masked; what comes back is the checksum so far. */
    method EncodeHead(msg: Buffer) returns (nMask: Word)
      requires msg.words.Length >= 2
      modifies this, msg`kind, msg.words
      ensures seed == SeedAfter(old(seed), old(msg.Value())) && msg.kind == Mix(old(msg.kind), Seed(old(seed), 1))
      ensures forall i :: 0 <= i < msg.words.Length ==>
                msg.words[i] == if i < 3 then Mix(old(msg.words[i]), Seed(old(seed), i + 2)) else old(msg.words[i])
      ensures msg.words.Length > 2 ==>
              nMask == Mix(Mix(Mix(msg.kind, old(msg.words[0])), old(msg.words[1])), old(msg.words[2]))
    {
      hide Next, Seed, Mix;
      FirstSeeds(seed);
      var buf := msg.words;
      var r := Draw();
      msg.kind := Mix(msg.kind, r);
      nMask := Mix(msg.kind, buf[0]);
      MaskWord(buf, 0);
      nMask := Mix(nMask, buf[1]);
      MaskWord(buf, 1);
      if buf.Length > 2 {
        nMask := Mix(nMask, buf[2]);
        MaskWord(buf, 2);
      }
    }

    method MaskWord(buf: array<Word>, i: nat)
      requires i < buf.Length
      modifies this, buf
      ensures seed == Next(old(seed)) && buf[..] == old(buf[..])[i := Mix(old(buf[i]), seed)]
      ensures forall j :: 0 <= j < buf.Length && j != i ==> buf[j] == old(buf[j])
      ensures buf[i] == Mix(old(buf[i]), seed)
    {
      hide Next, Mix;
      var r := Draw();
      buf[i] := Mix(buf[i], r);
    }

    /** Masks an outgoing message, and writes its checksum over the spare word if there are more than three. */
    method Encode(msg: Buffer)
      requires msg.words.Length >= 2
      modifies this, msg`kind, msg.words
      ensures msg.Value() == Encoded(old(seed), old(msg.Value())) && seed == SeedAfter(old(seed), old(msg.Value()))
    {
      hide Next, Seed, Xor, Mix, Encoded, Checksum;
      ghost var p, s := msg.Value(), seed;
      var buf := msg.words;
      var nMask := EncodeHead(msg);
      if buf.Length > 3 {
        ChecksumIs(s, p);
        nMask := MaskRest(buf, nMask, msg.kind, p.words);
        buf[buf.Length - 1] := nMask;
      }
      EncodedIs(s, p, msg.Value());
    }
  }

  /** Messages, one after the other: both ends stay in step, and the client gets all of them. */
  function EncodedAll(seed: Word, ps: seq<Packet>): (seq<Packet>, Word)
    requires forall p <- ps :: |p.words| >= 2
  {
    if ps == [] then ([], seed) else
      var (qs, s) := EncodedAll(seed, ps[..|ps| - 1]);
      var p := ps[|ps| - 1];
      (qs + [Encoded(s, p)], SeedAfter(s, p))
  }

  function DecodedAll(seed: Word, qs: seq<Packet>): (seq<Packet>, bool, Word) {
    if qs == [] then ([], true, seed) else
      var (ps, ok, s) := DecodedAll(seed, qs[..|qs| - 1]);
      var q := qs[|qs| - 1];
      (ps + [Decoded(s, q)], ok && Accepted(s, q), SeedAfter(s, q))
  }

  /** What counts of a message: its type and all its words but the spare one. */
  predicate SameMessage(p: Packet, q: Packet) {
    p.kind == q.kind && |p.words| == |q.words|
        && if |p.words| > 3 then p.words[..|p.words| - 1] == q.words[..|q.words| - 1] else p == q
  }

  lemma {:induction false} StreamInStep(seed: Word, ps: seq<Packet>)
    requires forall p <- ps :: |p.words| >= 2
    ensures var (qs, s) := EncodedAll(seed, ps);
            var (ds, ok, t) := DecodedAll(seed, qs);
            ok && s == t && |ds| == |ps| && forall i :: 0 <= i < |ps| ==> SameMessage(ds[i], ps[i])
  {
    hide Encoded, Decoded, Accepted, SeedAfter;
    if ps != [] {
      var rest, p := ps[..|ps| - 1], ps[|ps| - 1];
      StreamInStep(seed, rest);
      var (qs, s) := EncodedAll(seed, rest);
      DecodedEncoded(s, p);
      var q := Encoded(s, p);
      assert (qs + [q])[..|qs|] == qs;
      assert SameMessage(Decoded(s, q), p);
    }
  }

  /** The two routines that the client runs, on its registers and its two seeds. */
  class Client {
    var g_nSendSeed: Word
    var g_nReceiveSeed: Word

    constructor (send: Word, receive: Word)
      ensures g_nSendSeed == send && g_nReceiveSeed == receive
    {
      g_nSendSeed, g_nReceiveSeed := send, receive;
    }

    /** `esi` is the message with its type in front; `ecx` starts as the number of its words. False is a call of
        CNetFastSend. */
    method Decrypt(esi: array<Word>) returns (ok: bool)
      requires esi.Length >= 3
      modifies this`g_nReceiveSeed, esi
      ensures var q := old(Packet(esi[0], esi[1..]));
              && Packet(esi[0], esi[1..]) == Decoded(old(g_nReceiveSeed), q)
                 && (ok <==> Accepted(old(g_nReceiveSeed), q))
              && g_nReceiveSeed == SeedAfter(old(g_nReceiveSeed), q)
    {
      hide Next, Seed, Xor, Mix;
      ghost var q, s := Packet(esi[0], esi[1..]), g_nReceiveSeed;
      FirstSeeds(s);
      var eax, ebx := Next(g_nReceiveSeed), esi[0];
      esi[0] := Mix(esi[0], eax);
      eax := Next(eax);
      esi[1] := Mix(esi[1], eax);
      ebx := Mix(ebx, esi[1]);
      eax := Next(eax);
      esi[2] := Mix(esi[2], eax);
      ebx := Mix(ebx, esi[2]);
      g_nReceiveSeed := eax;
      var ecx := esi.Length;
      if ecx < 4 {
        return true;
      }
      eax := Next(eax);
      esi[3] := Mix(esi[3], eax);
      ebx := Mix(ebx, esi[3]);
      g_nReceiveSeed := eax;
      if ecx < 5 {
        return true;
      }
      ecx := ecx - 5;
      var at := 4;
      XorThree(q.kind, Decoded(s, q).words);
      while ecx != 0
        invariant ecx == esi.Length - 1 - at && 4 <= at < esi.Length
        invariant ebx == Xor(q.kind, Decoded(s, q).words[..at - 1])
        modifies {}
      {
        ebx := Mix(ebx, esi[at]);
        XorStep(q.kind, Decoded(s, q).words, at - 1);
        at, ecx := at + 1, ecx - 1;
      }
      ok := ebx == esi[at];
    }

    /** `loopnz` goes on while there are words left and the last result, the masked word, is not zero. */
    method Encrypt(esi: array<Word>, edi: array<Word>)
      requires esi.Length > 0 && edi.Length == esi.Length + 1 && esi != edi
      modifies this`g_nSendSeed, edi
      ensures edi[..] == Encrypted(old(g_nSendSeed), esi[..], old(edi[..]))
      ensures g_nSendSeed == Seed(old(g_nSendSeed), Stop(Cipher(old(g_nSendSeed), esi[..])))
    {
      hide *;
      ghost var s, c, src, stale := g_nSendSeed, Cipher(g_nSendSeed, esi[..]), esi[..], edi[..];
      var eax, ebx, ecx, i := g_nSendSeed, ZERO, esi.Length, 0;
      SeedIs(s);
      XorNothing(ZERO, src);
      while true
        invariant 0 <= i < |src| && ecx == |src| - i && eax == Seed(s, i) && ebx == Xor(ZERO, src[..i])
        invariant forall j :: 0 <= j < i ==> edi[j] == c[j] && c[j] != ZERO
        invariant forall j :: i <= j <= |src| ==> edi[j] == stale[j]
        modifies edi
        decreases ecx
      {
        ebx := Mix(ebx, esi[i]);
        XorStep(ZERO, src, i);
        edi[i] := esi[i];
        eax := Next(eax);
        SeedStep(s, i);
        edi[i] := Mix(edi[i], eax);
        CipherIs(s, src, i);
        i, ecx := i + 1, ecx - 1;
        if ecx == 0 || edi[i - 1] == ZERO {
          break;
        }
      }
      g_nSendSeed := eax;
      edi[i] := ebx;
      StopIs(c, i);
      EncryptedIs(s, src, stale, i, edi[..]);
    }
  }

  lemma CipherIs(seed: Word, src: seq<Word>, i: nat)
    requires i < |src|
    ensures Cipher(seed, src)[i] == Mix(src[i], Seed(seed, i + 1))
  {
  }

  lemma SeedIs(seed: Word)
    ensures Seed(seed, 0) == seed
  {
  }

  lemma SeedStep(seed: Word, k: nat)
    ensures Next(Seed(seed, k)) == Seed(seed, k + 1)
  {
  }

  lemma XorNothing(mask: Word, s: seq<Word>)
    ensures Xor(mask, s[..0]) == mask
  {
  }

  lemma {:induction false} StopIs(c: seq<Word>, n: nat)
    requires 1 <= n <= |c| && (forall i :: 0 <= i < n - 1 ==> c[i] != ZERO) && (n < |c| ==> c[n - 1] == ZERO)
    ensures Stop(c) == n
  {
    if n > 1 {
      StopIs(c[1..], n - 1);
    }
  }

  lemma EncryptedIs(seed: Word, src: seq<Word>, stale: seq<Word>, n: nat, dst: seq<Word>)
    requires src != [] && |stale| == |src| + 1 == |dst| && n == Stop(Cipher(seed, src))
    requires (forall j :: 0 <= j < n ==> dst[j] == Cipher(seed, src)[j]) && dst[n] == Xor(ZERO, src[..n])
    requires forall j :: n < j < |dst| ==> dst[j] == stale[j]
    ensures dst == Encrypted(seed, src, stale)
  {
    hide Cipher, Xor;
  }
}
