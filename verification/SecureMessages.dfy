/** Encryption on top of the messages (global/ipcclient.cpp): what is given to send is encoded, put on the wire, read,
    and undone by the client. */
module SecureMessages {
  import opened Common
  import opened Encryption
  import opened Framing
  import opened Messaging

  // ---- memory as words

  function Nibble(n: int): bv4
    requires 0 <= n < 16
  {
    n as bv4
  }

  function Amount(x: bv4): (n: int)
    ensures 0 <= n < 16
  {
    x as int
  }

  lemma AmountNibble(n: int)
    requires 0 <= n < 16
    ensures Amount(Nibble(n)) == n
  {
  }

  lemma NibbleAmount(x: bv4)
    ensures Nibble(Amount(x)) == x
  {
  }

  function Both(high: bv4, low: bv4): bv8 {
    ((high as bv8) << 4) | (low as bv8)
  }

  function High(x: bv8): bv4 {
    (x >> 4) as bv4
  }

  function Low(x: bv8): bv4 {
    (x & 0xF) as bv4
  }

  lemma BothIs(high: bv4, low: bv4)
    ensures High(Both(high, low)) == high && Low(Both(high, low)) == low
  {
  }

  lemma HighLow(x: bv8)
    ensures Both(High(x), Low(x)) == x
  {
  }

  /** A byte as eight bits, and back. */
  function Octet(b: Byte): bv8 {
    Both(Nibble(b / 16), Nibble(b % 16))
  }

  function Number(x: bv8): Byte {
    16 * Amount(High(x)) + Amount(Low(x))
  }

  lemma NumberOctet(b: Byte)
    ensures Number(Octet(b)) == b
  {
    hide Nibble, Amount, Both, High, Low;
    BothIs(Nibble(b / 16), Nibble(b % 16));
    AmountNibble(b / 16);
    AmountNibble(b % 16);
  }

  lemma OctetNumber(x: bv8)
    ensures Octet(Number(x)) == x
  {
    hide Nibble, Amount, Both, High, Low;
    HighLow(x);
    NibbleAmount(High(x));
    NibbleAmount(Low(x));
  }

  /** Four octets as a word, low one first, and the octet of a word from some bit on. */
  function Put(a: bv8, b: bv8, c: bv8, d: bv8): bv32 {
    (a as bv32) | ((b as bv32) << 8) | ((c as bv32) << 16) | ((d as bv32) << 24)
  }

  function Part(w: bv32, k: nat): bv8
    requires k < 4
  {
    if k == 0 then (w & 0xFF) as bv8
    else if k == 1 then ((w >> 8) & 0xFF) as bv8
    else if k == 2 then ((w >> 16) & 0xFF) as bv8
    else ((w >> 24) & 0xFF) as bv8
  }

  lemma PutParts(w: bv32)
    ensures Put(Part(w, 0), Part(w, 1), Part(w, 2), Part(w, 3)) == w
  {
  }

  lemma PartsPut(a: bv8, b: bv8, c: bv8, d: bv8)
    ensures var w := Put(a, b, c, d); Part(w, 0) == a && Part(w, 1) == b && Part(w, 2) == c && Part(w, 3) == d
  {
  }

  function WordOf(b: seq<Byte>): Word
    requires |b| == 4
  {
    Word(Put(Octet(b[0]), Octet(b[1]), Octet(b[2]), Octet(b[3])))
  }

  function BytesOf(w: Word): (b: seq<Byte>)
    ensures |b| == 4
  {
    [Number(Part(w.bits, 0)), Number(Part(w.bits, 1)), Number(Part(w.bits, 2)), Number(Part(w.bits, 3))]
  }

  lemma WordBytes(w: Word)
    ensures WordOf(BytesOf(w)) == w
  {
    hide Octet, Number, Put, Part;
    OctetNumber(Part(w.bits, 0));
    OctetNumber(Part(w.bits, 1));
    OctetNumber(Part(w.bits, 2));
    OctetNumber(Part(w.bits, 3));
    PutParts(w.bits);
  }

  lemma BytesWord(b: seq<Byte>)
    requires |b| == 4
    ensures BytesOf(WordOf(b)) == b
  {
    hide Octet, Number, Put, Part;
    PartsPut(Octet(b[0]), Octet(b[1]), Octet(b[2]), Octet(b[3]));
    NumberOctet(b[0]);
    NumberOctet(b[1]);
    NumberOctet(b[2]);
    NumberOctet(b[3]);
  }

  lemma Divided(low: int, high: int)
    requires 0 <= low < 0x100
    ensures (low + 0x100 * high) % 0x100 == low && (low + 0x100 * high) / 0x100 == high
  {
  }

  lemma DividedTwice(u: int)
    ensures u / 0x1_0000 == u / 0x100 / 0x100 && u / 0x100_0000 == u / 0x1_0000 / 0x100
  {
  }

  lemma Bytes32Int32(b: seq<Byte>)
    requires |b| == 4
    ensures Bytes32(Int32(b)) == b
  {
    var d := b[2] as int + 0x100 * b[3] as int;
    var c := b[1] as int + 0x100 * d;
    var u := b[0] as int + 0x100 * c;
    Divided(b[0], c);
    Divided(b[1], d);
    Divided(b[2], b[3]);
    DividedTwice(u);
    assert u == b[0] as int + 0x100 * b[1] as int + 0x1_0000 * b[2] as int + 0x100_0000 * b[3] as int;
    assert Int32(b) == if u >= TWO31 then u - TWO32 else u;
  }

  // ---- a message as words, and back

  /** The lowest byte comes first. */
  lemma WordSample()
    ensures WordOf([0x78, 0x56, 0x34, 0x12]) == Word(0x12345678)
    ensures BytesOf(Word(0x12345678)) == [0x78, 0x56, 0x34, 0x12]
  {
  }

  function Words(b: seq<Byte>): (ws: seq<Word>)
    requires |b| % 4 == 0
    ensures |ws| == |b| / 4
  {
    seq(|b| / 4, i requires 0 <= i < |b| / 4 => WordOf(b[4 * i..4 * i + 4]))
  }

  function Memory(ws: seq<Word>): (b: seq<Byte>)
    ensures |b| == 4 * |ws|
  {
    if ws == [] then [] else Memory(ws[..|ws| - 1]) + BytesOf(ws[|ws| - 1])
  }

  lemma {:induction false} MemoryAt(ws: seq<Word>, i: nat)
    requires i < |ws|
    ensures Memory(ws)[4 * i..4 * i + 4] == BytesOf(ws[i])
  {
    hide BytesOf;
    if i < |ws| - 1 {
      MemoryAt(ws[..|ws| - 1], i);
    }
  }

  lemma WordsMemory(ws: seq<Word>)
    ensures Words(Memory(ws)) == ws
  {
    hide BytesOf, WordOf, Memory;
    forall i | 0 <= i < |ws|
      ensures Words(Memory(ws))[i] == ws[i]
    {
      MemoryAt(ws, i);
      WordBytes(ws[i]);
    }
  }

  lemma MemoryWords(b: seq<Byte>)
    requires |b| % 4 == 0
    ensures Memory(Words(b)) == b
  {
    hide BytesOf, WordOf, Memory;
    forall k | 0 <= k < |b|
      ensures Memory(Words(b))[k] == b[k]
    {
      var i := k / 4;
      MemoryAt(Words(b), i);
      BytesWord(b[4 * i..4 * i + 4]);
      assert Memory(Words(b))[4 * i..4 * i + 4][k - 4 * i] == b[4 * i..4 * i + 4][k - 4 * i];
    }
  }

  /** The same words in front are the same bytes in front. */
  lemma MemoryFront(vs: seq<Word>, ws: seq<Word>, n: nat)
    requires n <= |vs| == |ws| && vs[..n] == ws[..n]
    ensures Memory(vs)[..4 * n] == Memory(ws)[..4 * n]
  {
    hide BytesOf, Memory;
    forall k | 0 <= k < 4 * n
      ensures Memory(vs)[k] == Memory(ws)[k]
    {
      var i := k / 4;
      MemoryAt(vs, i);
      MemoryAt(ws, i);
      assert vs[i] == vs[..n][i] == ws[..n][i] == ws[i];
      assert Memory(vs)[4 * i..4 * i + 4][k - 4 * i] == Memory(ws)[4 * i..4 * i + 4][k - 4 * i];
    }
  }

  predicate Aligned(m: Message) {
    Sendable(m) && |m.data| % 4 == 0
  }

  function AsWords(m: Message): (q: Packet)
    requires Aligned(m)
    ensures |q.words| == |m.data| / 4
  {
    Packet(WordOf(Bytes32(m.kind)), Words(m.data))
  }

  function AsMessage(q: Packet): (m: Message)
    ensures IsInt32(m.kind) && |m.data| == 4 * |q.words|
  {
    Message(Int32(BytesOf(q.kind)), Memory(q.words))
  }

  lemma WordsMessage(q: Packet)
    requires 4 * |q.words| < TWO31
    ensures Aligned(AsMessage(q)) && AsWords(AsMessage(q)) == q
  {
    hide BytesOf, WordOf, Memory, Words, Bytes32, Int32;
    Bytes32Int32(BytesOf(q.kind));
    WordBytes(q.kind);
    WordsMemory(q.words);
  }

  lemma MessageWords(m: Message)
    requires Aligned(m)
    ensures AsMessage(AsWords(m)) == m
  {
    hide BytesOf, WordOf, Memory, Words, Bytes32, Int32;
    Int32Bytes32(m.kind);
    BytesWord(Bytes32(m.kind));
    MemoryWords(m.data);
  }

  // ---- what is undone

  /** What counts is in front of the spare word: so the payload comes out whole, under its type. */
  lemma SameArrives(m: Message, p: Payload, d: Packet)
    requires Aligned(m) && Carries(m, p) && |AsWords(m).words| >= 2 && SameMessage(d, AsWords(m))
    ensures Carries(AsMessage(d), p)
  {
    hide BytesOf, WordOf, Memory, Words, Bytes32, Int32;
    MessageWords(m);
    ReportedSize(|p.data|);
    var q := AsWords(m);
    var n := if |q.words| > 3 then |q.words| - 1 else |q.words|;
    MemoryFront(d.words, q.words, n);
    assert AsMessage(q) == m;
    assert AsMessage(d).data[..|p.data|] == AsMessage(d).data[..4 * n][..|p.data|];
    assert m.data[..|p.data|] == m.data[..4 * n][..|p.data|];
  }

  lemma CarriedAligned(m: Message, p: Payload)
    requires Carries(m, p) && IsInt32(p.kind) && PaddedSize(|p.data|) < TWO31
    ensures Aligned(m) && (p.data != [] ==> |AsWords(m).words| >= 2)
  {
    ReportedSize(|p.data|);
  }

  // ---- sending

  /** `Encode`, on the memory of a message of which nothing has been sent. */
  method EncodeMessage(encryption: OldEncryption, msg: IPCMessage)
    requires msg.Sending() && msg.state.RcvHeader? && Aligned(msg.Content()) && |msg.Content().data| >= 8
    modifies encryption, msg`kind, IPCMessage.IfAny(msg.data)
    ensures msg.Sending() && msg.state.RcvHeader?
    ensures msg.Content() == AsMessage(Encoded(old(encryption.seed), AsWords(old(msg.Content()))))
    ensures encryption.seed == SeedAfter(old(encryption.seed), AsWords(old(msg.Content())))
  {
    hide AsMessage, Encoded, SeedAfter, Words, WordOf, Bytes32;
    var data: array<Byte> := msg.data;
    var buffer := new Buffer(AsWords(Message(msg.kind, data[..])));
    encryption.Encode(buffer);
    EncodedLength(old(encryption.seed), AsWords(old(msg.Content())));
    var encoded := AsMessage(Packet(buffer.kind, buffer.words[..]));
    msg.kind := encoded.kind;
    forall i | 0 <= i < data.Length {
      data[i] := encoded.data[i];
    }
    assert data[..] == encoded.data;
  }

  lemma EncodedLength(seed: Word, p: Packet)
    requires |p.words| >= 2
    ensures |Encoded(seed, p).words| == |p.words|
  {
  }

  /** A message is made of the payload, and encoded. `m` is what it was before. */
  method MakeEncoded(p: Payload, encryption: OldEncryption) returns (msg: IPCMessage, ghost m: Message)
    requires IsInt32(p.kind) && PaddedSize(|p.data|) < TWO31 && p.data != []
    modifies encryption
    ensures fresh(msg) && fresh(msg.header) && fresh(IPCMessage.IfAny(msg.data))
    ensures msg.Sending() && msg.state.RcvHeader?
    ensures Aligned(m) && Carries(m, p) && |AsWords(m).words| >= 2 && Sendable(msg.Content())
    ensures msg.Content() == AsMessage(Encoded(old(encryption.seed), AsWords(m)))
    ensures encryption.seed == SeedAfter(old(encryption.seed), AsWords(m))
  {
    hide AsMessage, AsWords, Encoded, SeedAfter;
    msg := new IPCMessage.Send(p.kind, p.data);
    m := msg.Content();
    CarriedAligned(m, p);
    EncodeMessage(encryption, msg);
  }

  /** `IPCClient::send` of a secured client. */
  method SendEncoded(out: Outgoing, p: Payload, encryption: OldEncryption) returns (ghost m: Message)
    requires out.Valid() && IsInt32(p.kind) && PaddedSize(|p.data|) < TWO31 && p.data != []
    modifies out`msgQueue, out`all, encryption
    ensures out.Valid() && Aligned(m) && Carries(m, p) && |AsWords(m).words| >= 2
    ensures out.all == old(out.all) + [AsMessage(Encoded(old(encryption.seed), AsWords(m)))]
    ensures Sendable(out.all[|out.all| - 1])
    ensures encryption.seed == SeedAfter(old(encryption.seed), AsWords(m))
    ensures fresh(out.Footprint() - old(out.Footprint()))
  {
    hide IPCMessage.Sending, Image, Images, Written, Outgoing.Valid, Outgoing.Footprint, AsMessage, AsWords, Encoded,
        SeedAfter, Carries, Aligned, Sendable;
    out.AllHere();
    var msg: IPCMessage;
    msg, m := MakeEncoded(p, encryption);
    out.StaysValid();
    out.AddMsg(msg);
  }

  /** It is sent while others may be under way. */
  method AddEncoded(out: Outgoing, into: Incoming, p: Payload, encryption: OldEncryption) returns (ghost m: Message)
    requires Joined(out, into) && IsInt32(p.kind) && PaddedSize(|p.data|) < TWO31 && p.data != []
    modifies out`msgQueue, out`all, encryption
    ensures Joined(out, into) && fresh(out.Footprint() - old(out.Footprint()))
    ensures Aligned(m) && Carries(m, p) && |AsWords(m).words| >= 2
    ensures out.all == old(out.all) + [AsMessage(Encoded(old(encryption.seed), AsWords(m)))]
    ensures encryption.seed == SeedAfter(old(encryption.seed), AsWords(m))
  {
    hide Outgoing.Valid, Incoming.Valid, Outgoing.Footprint, Follows, Incoming.Got, Incoming.Waiting, AsMessage,
        AsWords, Encoded, SeedAfter;
    into.ValidIs(out.all);
    ghost var all := out.all;
    m := SendEncoded(out, p, encryption);
    assert out.all[|all|] == out.all[|out.all| - 1] && out.all == all + [out.all[|all|]];
    FollowsMore(all, out.all[|all|], |into.delivered|, into.Got(), into.handle.wire, into.handle.taken);
    into.StillWaiting(all, out.all);
    into.IsValid(out.all);
  }

  // ---- whole conversations

  function Packets(ms: seq<Message>): (ps: seq<Packet>)
    requires forall m <- ms :: Aligned(m)
    ensures |ps| == |ms|
  {
    seq(|ms|, i requires 0 <= i < |ms| => AsWords(ms[i]))
  }

  predicate Long(ms: seq<Message>) {
    forall m <- ms :: Aligned(m) && |AsWords(m).words| >= 2
  }

  /** What is in `all` from `n` on is `ms`, encoded one after the other, which moved the seed from `first` to `last`. */
  ghost predicate Masked(all: seq<Message>, n: nat, ms: seq<Message>, first: Word, last: Word) {
    && Long(ms) && |all| == n + |ms|
    && var (qs, s) := EncodedAll(first, Packets(ms));
       s == last && |qs| == |ms| && forall i :: 0 <= i < |ms| ==> all[n + i] == AsMessage(qs[i])
  }

  lemma MaskedNone(all: seq<Message>, seed: Word)
    ensures Masked(all, |all|, [], seed, seed)
  {
  }

  lemma MaskedMore(all: seq<Message>, n: nat, ms: seq<Message>, first: Word, last: Word, m: Message)
    requires Masked(all, n, ms, first, last) && Long([m])
    ensures Masked(all + [AsMessage(Encoded(last, AsWords(m)))], n, ms + [m], first, SeedAfter(last, AsWords(m)))
  {
    hide AsMessage, AsWords, Encoded, SeedAfter;
    assert m in [m];
    var ps := Packets(ms + [m]);
    assert ps[..|ms|] == Packets(ms) && ps[|ms|] == AsWords(m);
  }

  lemma {:induction false} EncodedPrefix(seed: Word, ps: seq<Packet>, k: nat)
    requires k <= |ps| && forall p <- ps :: |p.words| >= 2
    ensures |EncodedAll(seed, ps).0| == |ps| && EncodedAll(seed, ps[..k]).0 == EncodedAll(seed, ps).0[..k]
  {
    hide Encoded, SeedAfter;
    if k < |ps| {
      EncodedPrefix(seed, ps[..|ps| - 1], k);
      assert ps[..|ps| - 1][..k] == ps[..k];
    } else {
      assert ps[..k] == ps;
      if ps != [] {
        EncodedPrefix(seed, ps[..|ps| - 1], |ps| - 1);
      }
    }
  }

  predicate Plain(ms: seq<Message>, ps: seq<Payload>) {
    Long(ms) && |ms| == |ps| && forall i :: 0 <= i < |ms| ==> Carries(ms[i], ps[i])
  }

  predicate NotEmpty(act: Act, maxMsgSize: int) {
    act.Give? ==> Deliverable(act.payload, maxMsgSize) && act.payload.data != []
  }

  /** All of it happens, one after the other, on a secured connection. `ms` is what is sent, before it is encoded. */
  method PerformEncoded(out: Outgoing, into: Incoming, acts: seq<Act>, encryption: OldEncryption)
    returns (ghost ms: seq<Message>)
    requires Joined(out, into) && (forall m <- out.all :: |m.data| <= into.maxMsgSize)
    requires forall i :: 0 <= i < |acts| ==> NotEmpty(acts[i], into.maxMsgSize)
    modifies out`msgQueue, out`done, out`all, out.Footprint(), out.handle`wire, out.handle`answers, encryption
    modifies into`newMsg, into`delivered, into`sizes, into.Footprint(), into.handle`taken, into.handle`answers
    ensures Joined(out, into) && forall m <- out.all :: |m.data| <= into.maxMsgSize
    ensures forall o <- out.Footprint() :: o in old(out.Footprint()) || fresh(o)
    ensures forall o <- into.Footprint() :: o in old(into.Footprint()) || fresh(o)
    ensures Plain(ms, Given(acts)) && Masked(out.all, |old(out.all)|, ms, old(encryption.seed), encryption.seed)
    decreases |acts|
  {
    hide Outgoing.Valid, Incoming.Valid, Incoming.Footprint, Outgoing.Footprint, Deliverable, Joined, Masked, Plain;
    ms := [];
    MaskedNone(out.all, encryption.seed);
    PlainNone();
    if acts != [] {
      var last := |acts| - 1;
      ms := PerformEncoded(out, into, acts[..last], encryption);
      label midway:
      ghost var mine, theirs := out.Footprint(), into.Footprint();
      ghost var m := PerformOne(out, into, acts[last], encryption);
      forall o | o in out.Footprint()
        ensures o in old(out.Footprint()) || fresh(o)
      {
        assert o !in mine ==> o in out.Footprint() - mine && fresh@midway(o);
      }
      forall o | o in into.Footprint()
        ensures o in old(into.Footprint()) || fresh(o)
      {
        assert o !in theirs ==> o in into.Footprint() - theirs && fresh@midway(o);
      }
      if acts[last].Give? {
        PlainMore(ms, Given(acts[..last]), m, acts[last].payload);
        ghost var all := old@midway(out.all);
        MaskedMore(all, |old(out.all)|, ms, old(encryption.seed), old@midway(encryption.seed), m);
        ms := ms + [m];
      } else {
        assert Given(acts[..last]) + [] == Given(acts[..last]);
      }
    }
  }

  lemma PlainNone()
    ensures Plain([], [])
  {
  }

  lemma PlainMore(ms: seq<Message>, ps: seq<Payload>, m: Message, p: Payload)
    requires Plain(ms, ps) && Long([m]) && Carries(m, p)
    ensures Plain(ms + [m], ps + [p])
  {
    assert m in [m];
  }

  /** One thing happens. */
  method PerformOne(out: Outgoing, into: Incoming, act: Act, encryption: OldEncryption) returns (ghost m: Message)
    requires Joined(out, into) && (forall m <- out.all :: |m.data| <= into.maxMsgSize)
    requires NotEmpty(act, into.maxMsgSize)
    modifies out`msgQueue, out`done, out`all, out.Footprint(), out.handle`wire, out.handle`answers, encryption
    modifies into`newMsg, into`delivered, into`sizes, into.Footprint(), into.handle`taken, into.handle`answers
    ensures Joined(out, into) && forall m <- out.all :: |m.data| <= into.maxMsgSize
    ensures fresh(into.Footprint() - old(into.Footprint())) && fresh(out.Footprint() - old(out.Footprint()))
    ensures act.Turn? ==> out.all == old(out.all) && encryption.seed == old(encryption.seed)
    ensures act.Give? ==> Long([m]) && Carries(m, act.payload)
    ensures act.Give? ==> Aligned(m) && |AsWords(m).words| >= 2
    ensures act.Give? ==> out.all == old(out.all) + [AsMessage(Encoded(old(encryption.seed), AsWords(m)))]
    ensures act.Give? ==> encryption.seed == SeedAfter(old(encryption.seed), AsWords(m))
  {
    hide Outgoing.Valid, Incoming.Valid, Outgoing.Footprint, Carries, PaddedSize, AsWords, AsMessage, Encoded,
        SeedAfter;
    match act
    case Give(p) =>
      m := AddEncoded(out, into, p, encryption);
      CarriedFits(m, p, into.maxMsgSize);
      EncodedFits(old(encryption.seed), m);
    case Turn(send) =>
      m := Message(0, []);
      NotInvolved(out, into, encryption);
      TakeTurn(out, into, send);
  }

  lemma NotInvolved(out: Outgoing, into: Incoming, encryption: OldEncryption)
    ensures encryption as object !in out.Footprint() && encryption as object !in into.Footprint()
  {
  }

  lemma EncodedFits(seed: Word, m: Message)
    requires Aligned(m) && |AsWords(m).words| >= 2
    ensures |AsMessage(Encoded(seed, AsWords(m))).data| == |m.data|
  {
    EncodedLength(seed, AsWords(m));
  }

  // ---- the client undoes it

  /** The routine of the client, on a message that has come. */
  method DecryptMessage(client: Client, m: Message) returns (d: Message, ok: bool)
    requires Aligned(m) && |AsWords(m).words| >= 2
    modifies client
    ensures d == AsMessage(Decoded(old(client.g_nReceiveSeed), AsWords(m)))
    ensures ok == Accepted(old(client.g_nReceiveSeed), AsWords(m))
    ensures client.g_nReceiveSeed == SeedAfter(old(client.g_nReceiveSeed), AsWords(m))
  {
    hide AsMessage, AsWords, Decoded, Accepted, SeedAfter;
    var q := AsWords(m);
    var all := [q.kind] + q.words;
    var esi := new Word[|all|](i requires 0 <= i < |all| => all[i]);
    assert esi[..] == all && esi[1..] == q.words;
    ok := client.Decrypt(esi);
    d := AsMessage(Packet(esi[0], esi[1..]));
  }

  /** `ds` is what the client makes of `ms`, `last` the seed that it is left with. */
  ghost predicate Undone(ms: seq<Message>, ds: seq<Message>, ok: bool, first: Word, last: Word) {
    && Long(ms)
    && var (ps, good, s) := DecodedAll(first, Packets(ms));
       && |ds| == |ms| == |ps| && (forall i :: 0 <= i < |ds| ==> ds[i] == AsMessage(ps[i]))
       && ok == good && last == s
  }

  lemma UndoneNone(seed: Word)
    ensures Undone([], [], true, seed, seed)
  {
  }

  lemma UndoneMore(ms: seq<Message>, ds: seq<Message>, ok: bool, first: Word, last: Word, m: Message)
    requires Undone(ms, ds, ok, first, last) && Long([m])
    ensures assert m in [m];
            Undone(ms + [m], ds + [AsMessage(Decoded(last, AsWords(m)))], ok && Accepted(last, AsWords(m)), first,
              SeedAfter(last, AsWords(m)))
  {
    hide AsMessage, AsWords, Decoded, Accepted, SeedAfter;
    assert m in [m];
    var ps := Packets(ms + [m]);
    assert ps[..|ms|] == Packets(ms) && ps[|ms|] == AsWords(m);
  }

  /** All that has come, in its order. */
  method DecryptAll(client: Client, ms: seq<Message>) returns (ds: seq<Message>, ok: bool)
    requires Long(ms)
    modifies client
    ensures Undone(ms, ds, ok, old(client.g_nReceiveSeed), client.g_nReceiveSeed)
  {
    hide Undone, AsMessage, AsWords, Decoded, Accepted, SeedAfter;
    ds, ok := [], true;
    var k := 0;
    UndoneNone(client.g_nReceiveSeed);
    assert ms[..0] == [];
    while k < |ms|
      invariant 0 <= k <= |ms| && Undone(ms[..k], ds, ok, old(client.g_nReceiveSeed), client.g_nReceiveSeed)
    {
      assert ms[k] in ms && ms[..k + 1] == ms[..k] + [ms[k]];
      UndoneMore(ms[..k], ds, ok, old(client.g_nReceiveSeed), client.g_nReceiveSeed, ms[k]);
      var d, fine := DecryptMessage(client, ms[k]);
      ds, ok := ds + [d], ok && fine;
      k := k + 1;
    }
    assert ms[..k] == ms;
  }

  lemma SameLength(p: Packet, q: Packet)
    requires SameMessage(p, q)
    ensures |p.words| == |q.words|
  {
  }

  /** What was encoded on one end is undone on the other: the payloads come out. */
  lemma UndoneArrives(all: seq<Message>, k: nat, ms: seq<Message>, given: seq<Payload>, first: Word, last: Word,
      ds: seq<Message>, ok: bool, after: Word)
    requires Plain(ms, given) && Masked(all, 0, ms, first, last) && k <= |all|
    requires Undone(all[..k], ds, ok, first, after)
    ensures ok && |ds| == k <= |given| == |all|
    ensures forall i :: 0 <= i < k ==> Carries(ds[i], given[i]) && |ds[i].data| == |all[i].data|
  {
    hide AsMessage, AsWords, Encoded, Decoded, Accepted, SeedAfter, EncodedAll, DecodedAll, SameMessage, Carries;
    var ps, qs := Packets(ms), EncodedAll(first, Packets(ms)).0;
    EncodedPrefix(first, ps, k);
    StreamInStep(first, ps[..k]);
    forall i | 0 <= i < k
      ensures Packets(all[..k])[i] == qs[i]
    {
      EncodedLengths(first, ps, i);
      WordsMessage(qs[i]);
    }
    assert Packets(all[..k]) == qs[..k];
    forall i | 0 <= i < k
      ensures Carries(ds[i], given[i]) && |ds[i].data| == |all[i].data|
    {
      EncodedLengths(first, ps, i);
      SameLength(DecodedAll(first, qs[..k]).0[i], AsWords(ms[i]));
      assert ms[i] in ms && ps[..k][i] == AsWords(ms[i]);
      SameArrives(ms[i], given[i], DecodedAll(first, qs[..k]).0[i]);
    }
  }

  lemma {:induction false} EncodedLengths(seed: Word, ps: seq<Packet>, i: nat)
    requires i < |ps| && forall p <- ps :: |p.words| >= 2
    ensures |EncodedAll(seed, ps).0| == |ps| && |EncodedAll(seed, ps).0[i].words| == |ps[i].words|
  {
    EncodedPrefix(seed, ps, |ps| - 1);
    if i < |ps| - 1 {
      EncodedLengths(seed, ps[..|ps| - 1], i);
    } else {
      EncodedLength(EncodedAll(seed, ps[..i]).1, ps[i]);
    }
  }

  /** Once a connection is secured: of any messages that are not empty, given at any time, in any order of turns and
      whatever pieces the socket takes and gives, those that have come so far are trusted by the client, which makes of
      them the first ones that were given, each with its type and its bytes; and when nothing waits or is under way any
      more, they are all of them. */
  method ConverseSecurely(acts: seq<Act>, maxMsgSize: int, seed: Word)
    returns (out: Outgoing, into: Incoming, got: seq<Message>, ok: bool)
    requires forall i :: 0 <= i < |acts| ==> NotEmpty(acts[i], maxMsgSize)
    ensures ok && |got| == |into.delivered| == |into.sizes| <= |Given(acts)|
    ensures forall i :: 0 <= i < |got| ==> Arrived(got[i], into.sizes[i], Given(acts)[i])
    ensures out.msgQueue == [] && into.handle.taken == |into.handle.wire| ==> |got| == |Given(acts)|
  {
    hide Outgoing.Valid, Incoming.Valid, Incoming.Footprint, Outgoing.Footprint, Arrived, NotEmpty, Joined, Masked,
        Plain, Undone, Carries, Long;
    ghost var ms, last;
    out, into, ms, last := Start(acts, maxMsgSize, seed);
    MaskedLong(out.all, ms, seed, last, |into.delivered|);
    var client := new Client(seed, seed);
    got, ok := DecryptAll(client, into.delivered);
    UndoneArrives(out.all, |into.delivered|, ms, Given(acts), seed, last, got, ok, client.g_nReceiveSeed);
    forall i | 0 <= i < |got|
      ensures Arrived(got[i], into.sizes[i], Given(acts)[i])
    {
      CarriedArrives(got[i], Given(acts)[i]);
    }
  }

  /** The two ends of it, before the client undoes anything. */
  method Start(acts: seq<Act>, maxMsgSize: int, seed: Word)
    returns (out: Outgoing, into: Incoming, ghost ms: seq<Message>, ghost last: Word)
    requires forall i :: 0 <= i < |acts| ==> NotEmpty(acts[i], maxMsgSize)
    ensures Plain(ms, Given(acts)) && Masked(out.all, 0, ms, seed, last)
    ensures |into.delivered| <= |out.all| && into.delivered == out.all[..|into.delivered|] && into.Sized()
    ensures out.msgQueue == [] && into.handle.taken == |into.handle.wire| ==> into.delivered == out.all
  {
    hide Outgoing.Valid, Incoming.Valid, Incoming.Footprint, Outgoing.Footprint, NotEmpty, Joined, Masked, Plain;
    var encryption := new OldEncryption(seed);
    var handle := new Socket();
    out := new Outgoing(handle);
    into := new Incoming(handle, maxMsgSize);
    StartApart(out, into);
    ms := PerformEncoded(out, into, acts, encryption);
    last := encryption.seed;
    JoinedIs(out, into);
    into.ValidIs(out.all);
    out.AllOut();
    if out.msgQueue == [] && into.handle.taken == |into.handle.wire| {
      into.AllDelivered(out.all);
    }
  }

  /** What comes can be decrypted: it has as many words as what was sent. */
  lemma MaskedLong(all: seq<Message>, ms: seq<Message>, first: Word, last: Word, k: nat)
    requires Masked(all, 0, ms, first, last) && k <= |all|
    ensures |all| == |ms| && Long(all[..k])
  {
    hide AsMessage, AsWords, EncodedAll;
    forall m <- all[..k]
      ensures Aligned(m) && |AsWords(m).words| >= 2
    {
      var i :| 0 <= i < k && all[i] == m;
      EncodedLengths(first, Packets(ms), i);
      assert ms[i] in ms;
      WordsMessage(EncodedAll(first, Packets(ms)).0[i]);
    }
  }
}
