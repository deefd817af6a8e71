/** The life of the clients of a server (global/ipcserver.cpp): what is said about them, and in what order. */
module ClientLife {
  import opened LinkedLists

  datatype Kind = Connected | Data | Hacked | HungUp

  /** `announced` are the messages that the server makes itself, those with -1 for their `to`. The others were read from
      the client, which gave them their type. */
  datatype Message<C> = Message(kind: Kind, from: C, announced: bool)

  /** `fd` are the open clients with their handles, `connections` the counter, `deleted` the clients whose memory is
      freed; `done` are the messages that have been dispatched, `queue` those that wait, `listed` the client list. */
  datatype Book<!C> = Book(known: set<C>, fd: map<C, int>, connections: int, deleted: set<C>, done: seq<Message<C>>,
      queue: seq<Message<C>>, listed: seq<C>)

  ghost function Log<C>(b: Book<C>): seq<Message<C>> {
    b.done + b.queue
  }

  /** A client says what only the server may say of it: that it connects, or hangs up. */
  predicate Forged<C>(m: Message<C>) {
    !m.announced && !Plain(m.kind)
  }

  predicate Plain(kind: Kind) {
    kind.Data? || kind.Hacked?
  }

  ghost predicate Honest<C>(log: seq<Message<C>>) {
    forall m <- log :: !Forged(m)
  }

  /** After a client has hung up nothing is from it, and before it connects neither. */
  ghost predicate Lasting<C>(log: seq<Message<C>>) {
    && (forall i, j :: 0 <= i < j < |log| && log[i].kind.HungUp? ==> log[j].from != log[i].from)
    && (forall i, j :: 0 <= i < j < |log| && log[j].kind.Connected? ==> log[j].from != log[i].from)
  }

  /** All is dispatched, everybody's messages are in order, and the counter counts. */
  ghost predicate Sound<C>(b: Book<C>) {
    b.queue == [] && Lasting(b.done) && b.connections == |b.fd|
  }

  // ---- what holds whatever the clients send

  /** What the books have of a client: it was said to connect; it is deleted when a hanging up was dispatched; until
      then it is open, and listed or about to be, or about to be said to hang up. */
  ghost predicate Traced<C>(b: Book<C>, c: C) {
    && Message(Connected, c, true) in Log(b)
    && (c in b.deleted <==> Message(HungUp, c, true) in b.done || Message(HungUp, c, false) in b.done)
    && (c in b.fd ==> c !in b.deleted && (c in b.listed || Message(Connected, c, true) in b.queue))
    && (c !in b.fd && c !in b.deleted ==> Message(HungUp, c, true) in b.queue)
  }

  /** Whoever says something has been said to connect before. */
  ghost predicate Introduced<C>(log: seq<Message<C>>) {
    forall i :: 0 <= i < |log| && !log[i].announced ==> Message(Connected, log[i].from, true) in log[..i]
  }

  ghost predicate Handles<C>(fd: map<C, int>, max: int) {
    && (forall c <- fd :: 0 <= fd[c] < max)
    && (forall c, d :: c in fd && d in fd && fd[c] == fd[d] ==> c == d)
  }

  /** What a forged message that was dispatched has left behind. */
  ghost predicate Caught<C>(b: Book<C>) {
    Honest(b.done) || !Lasting(Log(b)) || b.connections > |b.fd|
  }

  ghost predicate Coherent<C>(b: Book<C>, max: int) {
    && Handles(b.fd, max) && b.fd.Keys <= b.known && b.deleted <= b.known && b.connections >= |b.fd|
    && (forall m <- Log(b) :: m.from in b.known) && (forall c <- b.listed :: c in b.known)
    && (forall c <- b.known :: Traced(b, c))
    && Introduced(Log(b)) && Caught(b)
  }

  // ---- what holds unless a client forges a message

  /** A client has hung up exactly when it is no longer open. */
  ghost predicate Ended<C>(b: Book<C>, c: C) {
    c in b.fd <==> Message(HungUp, c, true) !in Log(b)
  }

  /** An open client is on the list, or its connection has yet to be dispatched. */
  ghost predicate Placed<C>(b: Book<C>, c: C) {
    (c in b.listed || Message(Connected, c, true) in b.queue)
    && !(c in b.listed && Message(Connected, c, true) in b.queue)
  }

  ghost predicate Orderly<C>(b: Book<C>) {
    && Lasting(Log(b)) && b.connections == |b.fd|
    && (forall c <- b.known :: Ended(b, c))
    && (forall c <- b.fd :: Placed(b, c))
    && (forall m <- b.queue :: m.kind.Connected? ==> m.from in b.fd)
    && Distinct(b.listed) && (forall c <- b.listed :: Message(HungUp, c, true) !in b.done)
  }

  ghost predicate Inv<C>(b: Book<C>, max: int) {
    Coherent(b, max) && (Honest(Log(b)) ==> Orderly(b))
  }

  // ---- the steps

  function Accepted<C>(b: Book<C>, c: C, handle: int): Book<C> {
    b.(known := b.known + {c}, fd := b.fd[c := handle], connections := b.connections + 1,
       queue := b.queue + [Message(Connected, c, true)])
  }

  /** An open client says something, or something is said about it. */
  function Told<C>(b: Book<C>, kind: Kind, c: C, announced: bool): Book<C> {
    b.(queue := b.queue + [Message(kind, c, announced)])
  }

  /** Its connection is closed; that is counted, and said after what else there is to say. */
  function Dropped<C>(b: Book<C>, c: C, hacked: bool): Book<C> {
    var t := if hacked then Told(b, Hacked, c, true) else b;
    Told(t, HungUp, c, true).(fd := b.fd - {c}, connections := b.connections - 1)
  }

  /** The first message of the queue cannot be handled: it takes a closed client for the table of handles, or a deleted
      one to be deleted. */
  ghost predicate Faulty<C>(b: Book<C>) {
    b.queue != [] && var m := b.queue[0];
    (m.kind.Connected? && m.from !in b.fd) || (m.kind.HungUp? && m.from in b.deleted)
  }

  /** The first message of the queue is handled, whoever made it: one who connects is listed, one who hangs up is taken
      from the list and deleted, which closes it, though it is not counted. */
  ghost function Handled<C>(b: Book<C>): Book<C>
    requires b.queue != []
  {
    var m := b.queue[0];
    var n := b.(done := b.done + [m], queue := b.queue[1..]);
    if m.kind.Connected? then n.(listed := b.listed + [m.from])
    else if m.kind.HungUp? then
      n.(listed := Del(b.listed, m.from), fd := b.fd - {m.from}, deleted := b.deleted + {m.from})
    else n
  }

  // ---- each step keeps the books

  lemma LastingPrefix<C>(log: seq<Message<C>>, m: Message<C>)
    requires Lasting(log + [m])
    ensures Lasting(log)
  {
    assert forall i :: 0 <= i < |log| ==> (log + [m])[i] == log[i];
  }

  lemma IntroducedAppend<C>(log: seq<Message<C>>, m: Message<C>)
    requires Introduced(log) && (!m.announced ==> Message(Connected, m.from, true) in log)
    ensures Introduced(log + [m])
  {
    var n := log + [m];
    forall i | 0 <= i < |n| && !n[i].announced
      ensures Message(Connected, n[i].from, true) in n[..i]
    {
      assert n[..i] == log[..i];
      assert i == |log| ==> log[..i] == log;
    }
  }

  lemma LogAppend<C>(log: seq<Message<C>>, m: Message<C>)
    requires Lasting(log) && Honest(log) && Message(HungUp, m.from, true) !in log
    requires m.kind.Connected? ==> forall l <- log :: l.from != m.from
    ensures Lasting(log + [m])
  {
    forall i | 0 <= i < |log| && log[i].kind.HungUp?
      ensures log[i].from != m.from
    {
      assert log[i] in log;
      assert log[i] == Message(HungUp, log[i].from, true);
    }
  }

  lemma FewerHandles<C>(fd: map<C, int>, c: C)
    ensures |fd - {c}| == if c in fd then |fd| - 1 else |fd|
  {
    assert (fd - {c}).Keys == fd.Keys - {c};
  }

  lemma MoreHandles<C>(fd: map<C, int>, c: C, h: int)
    requires c !in fd
    ensures |fd[c := h]| == |fd| + 1
  {
    assert fd[c := h].Keys == fd.Keys + {c};
  }

  /** One message more, by which the counter and the open handles change alike. */
  lemma CaughtAppend<C>(b: Book<C>, n: Book<C>, m: Message<C>)
    requires Caught(b) && n.done == b.done && Log(n) == Log(b) + [m]
    requires n.connections - |n.fd| == b.connections - |b.fd|
    ensures Caught(n)
  {
    if Lasting(Log(n)) {
      LastingPrefix(Log(b), m);
    }
  }

  lemma AcceptedCoherent<C>(b: Book<C>, c: C, handle: int, max: int)
    requires Coherent(b, max) && c !in b.known && 0 <= handle < max && handle !in b.fd.Values
    ensures Coherent(Accepted(b, c, handle), max)
  {
    hide Lasting, Honest, Introduced;
    var n, m := Accepted(b, c, handle), Message(Connected, c, true);
    assert Log(n) == Log(b) + [m];
    MoreHandles(b.fd, c, handle);
    IntroducedAppend(Log(b), m);
    CaughtAppend(b, n, m);
    forall d <- n.known
      ensures Traced(n, d)
    {
      assert d in b.known ==> Traced(b, d);
      assert forall l <- b.done :: l in Log(b);
    }
    forall x, y | x in n.fd && y in n.fd && n.fd[x] == n.fd[y]
      ensures x == y
    {
      assert x in b.fd ==> b.fd[x] in b.fd.Values;
      assert y in b.fd ==> b.fd[y] in b.fd.Values;
    }
  }

  lemma AcceptedOrderly<C>(b: Book<C>, c: C, handle: int, max: int)
    requires Coherent(b, max) && Orderly(b) && Honest(Log(b)) && c !in b.known
    ensures Orderly(Accepted(b, c, handle))
  {
    hide Distinct, Introduced, Caught, Traced, Handles;
    var n, m := Accepted(b, c, handle), Message(Connected, c, true);
    assert Log(n) == Log(b) + [m];
    MoreHandles(b.fd, c, handle);
    LogAppend(Log(b), m);
    forall d <- n.known
      ensures Ended(n, d)
    {
      assert d in b.known ==> Ended(b, d);
    }
    forall d <- n.fd
      ensures Placed(n, d)
    {
      assert d in b.fd ==> Placed(b, d);
    }
  }

  /** If there is no forged message with one more, there was none before. */
  lemma HonestPrefix<C>(log: seq<Message<C>>, more: seq<Message<C>>)
    ensures Honest(log + more) <==> Honest(log) && Honest(more)
  {
    assert forall m <- log :: m in log + more;
    assert forall m <- more :: m in log + more;
  }

  lemma OneHonest<C>(m: Message<C>)
    ensures Honest([m]) <==> !Forged(m)
  {
    assert m in [m];
  }

  lemma AcceptedKeeps<C>(b: Book<C>, c: C, handle: int, max: int)
    requires Inv(b, max) && c !in b.known && 0 <= handle < max && handle !in b.fd.Values
    ensures Inv(Accepted(b, c, handle), max)
  {
    hide Coherent, Orderly, Honest;
    AcceptedCoherent(b, c, handle, max);
    var n, m := Accepted(b, c, handle), Message(Connected, c, true);
    assert Log(n) == Log(b) + [m];
    HonestPrefix(Log(b), [m]);
    if Honest(Log(n)) {
      AcceptedOrderly(b, c, handle, max);
    }
  }

  lemma ToldCoherent<C>(b: Book<C>, kind: Kind, c: C, announced: bool, max: int)
    requires Coherent(b, max) && c in b.known
    ensures Coherent(Told(b, kind, c, announced), max)
  {
    hide Lasting, Honest, Introduced, Handles;
    var n, m := Told(b, kind, c, announced), Message(kind, c, announced);
    assert Log(n) == Log(b) + [m];
    assert Traced(b, c);
    IntroducedAppend(Log(b), m);
    CaughtAppend(b, n, m);
    forall d <- n.known
      ensures Traced(n, d)
    {
      assert Traced(b, d);
    }
  }

  lemma ToldOrderly<C>(b: Book<C>, kind: Kind, c: C, announced: bool, max: int)
    requires Coherent(b, max) && Orderly(b) && Honest(Log(b)) && c in b.fd && Plain(kind)
    ensures Orderly(Told(b, kind, c, announced))
  {
    hide Distinct, Introduced, Caught, Traced, Handles;
    var n, m := Told(b, kind, c, announced), Message(kind, c, announced);
    assert Log(n) == Log(b) + [m];
    assert Ended(b, c);
    LogAppend(Log(b), m);
    hide Lasting;
    forall d <- n.known
      ensures Ended(n, d)
    {
      assert Ended(b, d);
    }
    forall d <- n.fd
      ensures Placed(n, d)
    {
      assert Placed(b, d);
    }
  }

  /** Whatever an open client says. */
  lemma ToldKeeps<C>(b: Book<C>, kind: Kind, c: C, announced: bool, max: int)
    requires Inv(b, max) && c in b.fd && (announced ==> Plain(kind))
    ensures Inv(Told(b, kind, c, announced), max)
  {
    hide Orderly, Lasting, Introduced, Caught, Traced, Handles;
    ToldCoherent(b, kind, c, announced, max);
    var n, m := Told(b, kind, c, announced), Message(kind, c, announced);
    assert Log(n) == Log(b) + [m];
    HonestPrefix(Log(b), [m]);
    if Honest(Log(n)) {
      assert !Forged([m][0]);
      ToldOrderly(b, kind, c, announced, max);
    }
  }

  lemma ClosedCoherent<C>(b: Book<C>, c: C, max: int)
    requires Coherent(b, max) && c in b.fd
    ensures Coherent(Dropped(b, c, false), max)
  {
    hide Lasting, Honest, Introduced;
    var n, m := Dropped(b, c, false), Message(HungUp, c, true);
    assert Log(n) == Log(b) + [m];
    FewerHandles(b.fd, c);
    IntroducedAppend(Log(b), m);
    CaughtAppend(b, n, m);
    forall d <- n.known
      ensures Traced(n, d)
    {
      assert Traced(b, d);
    }
  }

  lemma ClosedOrderly<C>(b: Book<C>, c: C, max: int)
    requires Coherent(b, max) && Orderly(b) && Honest(Log(b)) && c in b.fd && Message(Connected, c, true) !in b.queue
    ensures Orderly(Dropped(b, c, false))
  {
    hide Distinct, Introduced, Caught, Traced, Handles;
    var n, m := Dropped(b, c, false), Message(HungUp, c, true);
    assert Log(n) == Log(b) + [m];
    assert Ended(b, c);
    FewerHandles(b.fd, c);
    LogAppend(Log(b), m);
    hide Lasting;
    forall d <- n.known
      ensures Ended(n, d)
    {
      assert Ended(b, d);
    }
    forall d <- n.fd
      ensures Placed(n, d)
    {
      assert Placed(b, d);
    }
    forall l <- n.queue | l.kind.Connected?
      ensures l.from in n.fd
    {
      assert l in b.queue;
      assert l in Log(b) && !Forged(l);
      assert l == Message(Connected, l.from, true);
    }
  }

  lemma ClosedKeeps<C>(b: Book<C>, c: C, max: int)
    requires Inv(b, max) && c in b.fd && c in b.listed
    ensures Inv(Dropped(b, c, false), max)
  {
    hide Lasting, Introduced, Caught, Traced, Handles, Honest, Distinct, Coherent;
    ClosedCoherent(b, c, max);
    var n, m := Dropped(b, c, false), Message(HungUp, c, true);
    assert Log(n) == Log(b) + [m];
    HonestPrefix(Log(b), [m]);
    if Honest(Log(n)) {
      assert Placed(b, c);
      ClosedOrderly(b, c, max);
    }
  }

  lemma DroppedKeeps<C>(b: Book<C>, c: C, hacked: bool, max: int)
    requires Inv(b, max) && c in b.fd && c in b.listed
    ensures Inv(Dropped(b, c, hacked), max)
  {
    hide Inv;
    if hacked {
      ToldKeeps(b, Hacked, c, true, max);
      ClosedKeeps(Told(b, Hacked, c, true), c, max);
    } else {
      ClosedKeeps(b, c, max);
    }
  }

  // ---- handling

  lemma {:induction false} DelKeeps<C>(s: seq<C>, x: C, y: C)
    ensures y in Del(s, x) ==> y in s
    ensures y in s && y != x ==> y in Del(s, x)
  {
    if s != [] && s[0] != x {
      DelKeeps(s[1..], x, y);
    }
  }

  /** The client of a forged message was introduced before, so one that connects does so again. */
  lemma ForgedConnected<C>(b: Book<C>, max: int)
    requires Coherent(b, max) && b.queue != [] && Forged(b.queue[0]) && b.queue[0].kind.Connected?
    ensures !Lasting(Log(b))
  {
    var log, i := Log(b), |b.done|;
    assert log[i] == b.queue[0];
    var j :| 0 <= j < i && log[..i][j] == Message(Connected, log[i].from, true);
    assert log[j].from == log[i].from;
  }

  /** One that hangs up was closed without being counted, or is said to hang up once more. */
  lemma ForgedHungUp<C>(b: Book<C>, max: int)
    requires Coherent(b, max) && b.queue != [] && Forged(b.queue[0]) && b.queue[0].kind.HungUp? && !Faulty(b)
    ensures Handled(b).connections > |Handled(b).fd| || !Lasting(Log(b))
  {
    var log, i, c := Log(b), |b.done|, b.queue[0].from;
    assert log[i] == b.queue[0];
    FewerHandles(b.fd, c);
    assert b.queue[0] in log;
    assert Traced(b, c);
    if c !in b.fd {
      var j :| 0 <= j < |b.queue| && b.queue[j] == Message(HungUp, c, true);
      assert log[i + j] == b.queue[j];
    }
  }

  lemma HandledCaught<C>(b: Book<C>, max: int)
    requires Coherent(b, max) && b.queue != [] && !Faulty(b)
    ensures Caught(Handled(b)) && Handled(b).connections >= |Handled(b).fd|
  {
    hide Lasting, Introduced, Traced, Handles;
    var n, m := Handled(b), b.queue[0];
    assert Log(n) == Log(b);
    FewerHandles(b.fd, m.from);
    if Honest(b.done) && Forged(m) {
      if m.kind.Connected? {
        ForgedConnected(b, max);
      } else {
        ForgedHungUp(b, max);
      }
    }
  }

  lemma HandledTraced<C>(b: Book<C>, d: C)
    requires b.queue != [] && !Faulty(b) && Traced(b, d)
    ensures Traced(Handled(b), d)
  {
    var n, m := Handled(b), b.queue[0];
    assert Log(n) == Log(b);
    hide Log;
    DelKeeps(b.listed, m.from, d);
    forall announced: bool
      ensures Message(HungUp, d, announced) in n.done
         <==> Message(HungUp, d, announced) in b.done || m == Message(HungUp, d, announced)
    {
    }
    assert forall l <- b.queue :: l == m || l in n.queue;
  }

  lemma HandledKnown<C>(b: Book<C>)
    requires b.queue != [] && b.queue[0].from in b.known && forall d <- b.listed :: d in b.known
    ensures forall d <- Handled(b).listed :: d in b.known
  {
    forall d <- Handled(b).listed
      ensures d in b.known
    {
      DelKeeps(b.listed, b.queue[0].from, d);
    }
  }

  lemma HandledHandles<C>(b: Book<C>, max: int)
    requires b.queue != [] && Handles(b.fd, max)
    ensures Handles(Handled(b).fd, max) && Handled(b).fd.Keys <= b.fd.Keys && Handled(b).known == b.known
  {
  }

  lemma HandledCoherent<C>(b: Book<C>, max: int)
    requires Coherent(b, max) && b.queue != [] && !Faulty(b)
    ensures Coherent(Handled(b), max)
  {
    hide Lasting, Honest, Introduced, Caught, Traced, Handles;
    var n, m := Handled(b), b.queue[0];
    assert Log(n) == Log(b) && m in Log(b);
    HandledCaught(b, max);
    HandledHandles(b, max);
    forall d <- n.known
      ensures Traced(n, d)
    {
      HandledTraced(b, d);
    }
    HandledKnown(b);
  }

  // ---- without forged messages

  /** Nobody is deleted before the server says that it hung up, and who connects is open. */
  lemma NotFaulty<C>(b: Book<C>, max: int)
    requires Inv(b, max) && Honest(Log(b))
    ensures !Faulty(b)
  {
    hide Introduced, Caught, Handles, Distinct;
    if b.queue != [] {
      var m, log := b.queue[0], Log(b);
      assert log[|b.done|] == m;
      assert m in log;
      if m.kind.HungUp? {
        forall j | 0 <= j < |b.done|
          ensures b.done[j].kind.HungUp? ==> b.done[j].from != m.from
        {
          assert log[j] == b.done[j];
        }
        assert Traced(b, m.from);
      }
    }
  }

  /** A client that connects is open, and was not listed yet. */
  lemma ConnectedIsNew<C>(b: Book<C>, max: int)
    requires Inv(b, max) && Honest(Log(b)) && b.queue != [] && b.queue[0].kind.Connected?
    ensures b.queue[0] == Message(Connected, b.queue[0].from, true) && b.queue[0] !in b.queue[1..]
    ensures b.queue[0].from in b.fd && b.queue[0].from !in b.listed
  {
    hide Introduced, Caught, Handles, Distinct;
    var log, i := Log(b), |b.done|;
    assert log[i] == b.queue[0];
    assert b.queue[0] in log && !Forged(b.queue[0]);
    forall j | 0 <= j < |b.queue| - 1
      ensures b.queue[1..][j] != b.queue[0]
    {
      assert log[i + 1 + j] == b.queue[1..][j];
    }
    assert b.queue[0] in b.queue;
    assert Placed(b, b.queue[0].from);
  }

  lemma HungUpIsClosed<C>(b: Book<C>, max: int)
    requires Inv(b, max) && Honest(Log(b)) && b.queue != [] && b.queue[0].kind.HungUp?
    ensures b.queue[0] == Message(HungUp, b.queue[0].from, true) && b.queue[0].from !in b.fd
  {
    hide Lasting, Introduced, Caught, Handles, Distinct;
    assert b.queue[0] in Log(b) && !Forged(b.queue[0]);
    assert Ended(b, b.queue[0].from);
  }

  lemma HandledPlaced<C>(b: Book<C>, max: int)
    requires Inv(b, max) && Honest(Log(b)) && b.queue != []
    ensures forall d <- Handled(b).fd :: Placed(Handled(b), d)
  {
    var n, m := Handled(b), b.queue[0];
    assert b.queue == [m] + n.queue;
    if m.kind.Connected? {
      ConnectedIsNew(b, max);
    } else if m.kind.HungUp? {
      HungUpIsClosed(b, max);
    }
    hide Lasting, Distinct, Introduced, Caught, Handles, Traced, Honest;
    forall d <- n.fd
      ensures Placed(n, d)
    {
      assert Placed(b, d);
      DelKeeps(b.listed, m.from, d);
    }
  }

  lemma HandledListed<C>(b: Book<C>, max: int)
    requires Inv(b, max) && Honest(Log(b)) && b.queue != []
    ensures Distinct(Handled(b).listed)
    ensures forall c <- Handled(b).listed :: Message(HungUp, c, true) !in Handled(b).done
  {
    var n, m := Handled(b), b.queue[0];
    if m.kind.Connected? {
      ConnectedIsNew(b, max);
      DistinctAppend(b.listed, m.from);
      assert Ended(b, m.from);
    }
    hide Lasting, Distinct, Introduced, Caught, Handles, Traced, Honest;
    DelIsMinus(b.listed, m.from);
    MinusDistinct(b.listed, {m.from});
    forall c <- n.listed
      ensures Message(HungUp, c, true) !in n.done
    {
      assert c in b.listed || c == m.from;
    }
  }

  lemma HandledOpen<C>(b: Book<C>, max: int)
    requires Inv(b, max) && Honest(Log(b)) && b.queue != []
    ensures Handled(b).fd == b.fd
  {
    hide Inv;
    if b.queue[0].kind.HungUp? {
      HungUpIsClosed(b, max);
      assert b.fd - {b.queue[0].from} == b.fd;
    }
  }

  lemma HandledEnded<C>(b: Book<C>)
    requires b.queue != [] && Handled(b).fd == b.fd && forall d <- b.known :: Ended(b, d)
    ensures forall d <- b.known :: Ended(Handled(b), d)
  {
    assert Log(Handled(b)) == Log(b);
    hide Log;
    forall d <- b.known
      ensures Ended(Handled(b), d)
    {
      assert Ended(b, d);
    }
  }

  lemma HandledOrderly<C>(b: Book<C>, max: int)
    requires Inv(b, max) && Honest(Log(b)) && b.queue != []
    ensures Orderly(Handled(b))
  {
    hide Coherent, Ended, Placed, Lasting, Distinct;
    HandledOpen(b, max);
    HandledPlaced(b, max);
    HandledListed(b, max);
    HandledEnded(b);
    assert Log(Handled(b)) == Log(b);
  }

  /** Handling the first message keeps the books, whoever made it. */
  lemma HandledKeeps<C>(b: Book<C>, max: int)
    requires Inv(b, max) && b.queue != [] && !Faulty(b)
    ensures Inv(Handled(b), max)
  {
    hide Coherent, Orderly, Honest, Faulty;
    assert Log(Handled(b)) == Log(b);
    HandledCoherent(b, max);
    if Honest(Log(b)) {
      HandledOrderly(b, max);
    }
  }

  /** The books are sound at the end of a turn exactly if no client has forged a message. Otherwise somebody's messages
      are out of order, or the counter is too high, or the queue has got stuck. */
  lemma SoundIff<C>(b: Book<C>, max: int)
    requires Inv(b, max) && (b.queue == [] || Faulty(b))
    ensures Sound(b) <==> Honest(Log(b))
  {
    if b.queue == [] {
      assert Log(b) == b.done;
    } else if Honest(Log(b)) {
      NotFaulty(b, max);
    }
  }

  /** Nobody who is deleted is on the list, so that it can be walked. */
  ghost predicate Walkable<C>(b: Book<C>) {
    forall c <- b.listed :: c !in b.deleted
  }

  lemma HonestWalkable<C>(b: Book<C>, max: int)
    requires Inv(b, max) && Honest(Log(b))
    ensures Walkable(b)
  {
    hide Introduced, Caught, Handles, Lasting, Distinct;
    assert forall m <- b.done :: m in Log(b);
    forall c <- b.listed
      ensures c !in b.deleted
    {
      assert Traced(b, c);
      assert Forged(Message(HungUp, c, false));
    }
  }

  /** Whatever is still to be dispatched: no message is from a client whose hanging up has been. */
  lemma NothingAfter<C>(b: Book<C>, max: int, c: C)
    requires Inv(b, max) && Honest(Log(b)) && Message(HungUp, c, true) in b.done
    ensures c !in b.fd && c !in b.listed && forall m <- b.queue :: m.from != c
  {
    hide Introduced, Caught, Handles, Distinct;
    var i :| 0 <= i < |b.done| && b.done[i] == Message(HungUp, c, true);
    assert Log(b)[i] == Message(HungUp, c, true);
    assert Message(HungUp, c, true) in Log(b);
    assert c in b.known ==> Ended(b, c);
    forall j | 0 <= j < |b.queue|
      ensures b.queue[j].from != c
    {
      assert Log(b)[|b.done| + j] == b.queue[j];
    }
  }

  lemma InvIs<C>(b: Book<C>, max: int)
    requires Inv(b, max)
    ensures b.fd.Keys <= b.known && b.deleted <= b.known && (forall c <- b.fd :: 0 <= b.fd[c] < max && c !in b.deleted)
    ensures (forall m <- b.queue :: m.from in b.known) && (forall c <- b.listed :: c in b.known)
    ensures forall c, d :: c in b.fd && d in b.fd && b.fd[c] == b.fd[d] ==> c == d
  {
    hide Introduced, Caught, Lasting, Distinct, Orderly, Honest;
    assert forall m <- b.queue :: m in Log(b);
    forall c <- b.fd
      ensures c !in b.deleted
    {
      assert Traced(b, c);
    }
  }

  /** Between two turns every open client is listed. */
  lemma OpenListed<C>(b: Book<C>, max: int, c: C)
    requires Inv(b, max) && b.queue == [] && c in b.fd
    ensures c in b.listed
  {
    hide Introduced, Caught, Lasting, Distinct, Orderly, Honest;
    assert Traced(b, c);
  }

  // ---- what the log says of who is there

  function Count<C>(log: seq<Message<C>>, kind: Kind): nat {
    if log == [] then 0 else Count(log[..|log| - 1], kind) + if log[|log| - 1].kind == kind then 1 else 0
  }

  lemma LastIsNew<C>(rest: seq<Message<C>>, m: Message<C>)
    requires Lasting(rest + [m]) && (m.kind.Connected? || m.kind.HungUp?)
    ensures m !in rest
  {
    forall j | 0 <= j < |rest|
      ensures rest[j] != m
    {
      assert (rest + [m])[j] == rest[j] && (rest + [m])[|rest|] == m;
    }
  }

  /** Every client connects once and hangs up at most once, so those who did can be counted. */
  lemma {:induction false} CountIs<C>(log: seq<Message<C>>, kind: Kind, cs: set<C>)
    requires Lasting(log) && Honest(log) && (kind.Connected? || kind.HungUp?)
    requires forall c :: c in cs <==> Message(kind, c, true) in log
    ensures Count(log, kind) == |cs|
    decreases |log|
  {
    hide Lasting, Honest;
    if log == [] {
      assert cs == {};
    } else {
      var rest, m := log[..|log| - 1], log[|log| - 1];
      assert log == rest + [m];
      HonestPrefix(rest, [m]);
      LastingPrefix(rest, m);
      if m.kind == kind {
        OneHonest(m);
        LastIsNew(rest, m);
        assert m == Message(kind, m.from, true);
        CountIs(rest, kind, cs - {m.from});
      } else {
        CountIs(rest, kind, cs);
      }
    }
  }

  /** When all has been dispatched: open are exactly those who were said to connect and not to hang up, and there are as
      many as connections less hangings up. */
  lemma OpenIs<C>(b: Book<C>, max: int)
    requires Inv(b, max) && b.queue == [] && Honest(b.done)
    ensures forall c :: c in b.fd <==> Message(Connected, c, true) in b.done && Message(HungUp, c, true) !in b.done
    ensures b.connections == |b.fd| == Count(b.done, Connected) - Count(b.done, HungUp)
  {
    hide Introduced, Caught, Handles, Distinct, Lasting, Honest, Count;
    assert Log(b) == b.done;
    forall c
      ensures c in b.known <==> Message(Connected, c, true) in b.done
      ensures c in b.known - b.fd.Keys <==> Message(HungUp, c, true) in b.done
      ensures c in b.fd ==> Message(Connected, c, true) in b.done && Message(HungUp, c, true) !in b.done
    {
      assert c in b.known ==> Ended(b, c) && Traced(b, c);
    }
    CountIs(b.done, Connected, b.known);
    CountIs(b.done, HungUp, b.known - b.fd.Keys);
    assert |b.known - b.fd.Keys| == |b.known| - |b.fd.Keys|;
  }

  // ---- a whole turn, as a function of what the sockets say

  /** The clients of new connections. */
  function AllAccepted<C>(b: Book<C>, cs: seq<C>, handles: seq<int>): Book<C>
    requires |cs| == |handles|
  {
    if cs == [] then b else
      var last := |cs| - 1;
      Accepted(AllAccepted(b, cs[..last], handles[..last]), cs[last], handles[last])
  }

  /** The queue is handled up to its end, or to a message that cannot be. */
  ghost function AllHandled<C>(b: Book<C>): (n: Book<C>)
    ensures n.queue == [] || Faulty(n)
    decreases |b.queue|
  {
    if b.queue == [] || Faulty(b) then b else AllHandled(Handled(b))
  }

  /** Of the clients in `s`, in that order, those that are open and whose handle is broken; nothing is done from the
      first one on that is deleted. */
  function AllSent<C(==)>(b: Book<C>, s: seq<C>, broken: set<int>): Book<C>
    decreases |s|
  {
    if s == [] || s[0] in b.deleted then b else
      AllSent(if s[0] in b.fd && b.fd[s[0]] in broken then Dropped(b, s[0], false) else b, s[1..], broken)
  }

  /** Of the clients in `s`, in that order, those that are open. */
  function AllDropped<C(==)>(b: Book<C>, s: seq<C>): Book<C>
    decreases |s|
  {
    if s == [] then b else AllDropped(if s[0] in b.fd then Dropped(b, s[0], false) else b, s[1..])
  }

  /** What comes of reading: messages of the types that the client gave them, and then none, the end, or one that is
      illegal. */
  datatype Ending = NoMore | Over | Illegal
  datatype Reading = Reading(kinds: seq<Kind>, ending: Ending)

  predicate PlainReading(r: Reading) {
    forall kind <- r.kinds :: Plain(kind)
  }

  function Says<C>(b: Book<C>, c: C, kinds: seq<Kind>): Book<C>
    decreases |kinds|
  {
    if kinds == [] then b else Says(Told(b, kinds[0], c, false), c, kinds[1..])
  }

  function Read<C>(b: Book<C>, c: C, r: Reading): Book<C> {
    var t := Says(b, c, r.kinds);
    if r.ending.NoMore? then t else Dropped(t, c, r.ending.Illegal?)
  }

  predicate ToRead<C(==)>(b: Book<C>, c: C, readings: seq<Reading>) {
    c in b.fd && 0 <= b.fd[c] < |readings|
  }

  /** Nobody in `s` who is open forges a message. */
  predicate PlainIn<C(==)>(b: Book<C>, s: seq<C>, readings: seq<Reading>) {
    forall c <- s :: ToRead(b, c, readings) ==> PlainReading(readings[b.fd[c]])
  }

  /** Of the clients in `s`, in that order, those that are open. */
  function AllRead<C(==)>(b: Book<C>, s: seq<C>, readings: seq<Reading>): Book<C>
    decreases |s|
  {
    if s == [] then b else
      AllRead(if ToRead(b, s[0], readings) then Read(b, s[0], readings[b.fd[s[0]]]) else b, s[1..], readings)
  }

  /** Sending, and the dead. */
  function Cleared<C(==)>(b: Book<C>, broken: set<int>, dead: seq<C>): Book<C> {
    AllDropped(AllSent(b, b.listed, broken), dead)
  }

  /** Sending, the dead, reading, and the queue, if the list can be walked. */
  ghost function Attended<C>(b: Book<C>, broken: set<int>, dead: seq<C>, incoming: seq<C>,
                             readings: seq<Reading>): Book<C>
  {
    if Walkable(b) then AllHandled(AllRead(Cleared(b, broken, dead), incoming, readings))
    else AllSent(b, b.listed, broken)
  }

  /** New connections, and the queue. */
  ghost function Welcomed<C>(b: Book<C>, cs: seq<C>, handles: seq<int>): Book<C>
    requires |cs| == |handles|
  {
    AllHandled(AllAccepted(b, cs, handles))
  }

  /** The books when reading begins. */
  ghost function BeforeReading<C>(b: Book<C>, cs: seq<C>, handles: seq<int>, broken: set<int>, dead: seq<C>): Book<C>
    requires |cs| == |handles|
  {
    Cleared(Welcomed(b, cs, handles), broken, dead)
  }

  /** One turn of the server: new connections, the queue, sending, the dead, reading, and the queue again; it may get
      stuck in between. */
  ghost function Turn<C>(b: Book<C>, cs: seq<C>, handles: seq<int>, broken: set<int>, dead: seq<C>,
                         incoming: seq<C>, readings: seq<Reading>): Book<C>
    requires |cs| == |handles|
  {
    var w := Welcomed(b, cs, handles);
    if w.queue == [] then Attended(w, broken, dead, incoming, readings) else w
  }

  /** Clients that are closed may as well not be in the list. */
  lemma {:induction false} ClosedNotDropped<C>(b: Book<C>, s: seq<C>, gone: set<C>)
    requires forall c <- gone :: c !in b.fd
    ensures AllDropped(b, Minus(s, gone)) == AllDropped(b, s)
    decreases |s|
  {
    if s != [] {
      var t := if s[0] in b.fd then Dropped(b, s[0], false) else b;
      ClosedNotDropped(t, s[1..], gone);
      if s[0] !in gone {
        assert Minus(s, gone) == [s[0]] + Minus(s[1..], gone);
        assert Minus(s, gone)[1..] == Minus(s[1..], gone);
      } else {
        assert t == b && Minus(s, gone) == Minus(s[1..], gone);
      }
    }
  }

  lemma {:induction false} SaysIs<C>(b: Book<C>, c: C, kinds: seq<Kind>)
    ensures var n := Says(b, c, kinds); n.fd == b.fd && n.deleted == b.deleted && n.done == b.done
    ensures Honest(Log(Says(b, c, kinds))) <==> Honest(Log(b)) && forall kind <- kinds :: Plain(kind)
    decreases |kinds|
  {
    if kinds != [] {
      hide Honest;
      var t, m := Told(b, kinds[0], c, false), Message(kinds[0], c, false);
      SaysIs(t, c, kinds[1..]);
      assert Log(t) == Log(b) + [m];
      HonestPrefix(Log(b), [m]);
      OneHonest(m);
      assert kinds == [kinds[0]] + kinds[1..];
    }
  }

  lemma {:induction false} ClosedNotRead<C>(b: Book<C>, s: seq<C>, gone: set<C>, readings: seq<Reading>)
    requires forall c <- gone :: c !in b.fd
    ensures AllRead(b, Minus(s, gone), readings) == AllRead(b, s, readings)
    decreases |s|
  {
    if s != [] {
      var t := if ToRead(b, s[0], readings) then Read(b, s[0], readings[b.fd[s[0]]]) else b;
      if ToRead(b, s[0], readings) {
        SaysIs(b, s[0], readings[b.fd[s[0]]].kinds);
      }
      ClosedNotRead(t, s[1..], gone, readings);
      if s[0] !in gone {
        assert Minus(s, gone) == [s[0]] + Minus(s[1..], gone);
        assert Minus(s, gone)[1..] == Minus(s[1..], gone);
      } else {
        assert t == b && Minus(s, gone) == Minus(s[1..], gone);
      }
    }
  }

  // ---- who forges a message in a turn

  lemma DroppedHonest<C>(b: Book<C>, c: C, hacked: bool)
    ensures Honest(Log(Dropped(b, c, hacked))) <==> Honest(Log(b))
  {
    var more := (if hacked then [Message(Hacked, c, true)] else []) + [Message(HungUp, c, true)];
    assert Log(Dropped(b, c, hacked)) == Log(b) + more;
    HonestPrefix(Log(b), more);
  }

  lemma ReadHonest<C>(b: Book<C>, c: C, r: Reading)
    ensures Honest(Log(Read(b, c, r))) <==> Honest(Log(b)) && PlainReading(r)
    ensures forall d :: d != c ==> (d in b.fd <==> d in Read(b, c, r).fd)
    ensures forall d <- Read(b, c, r).fd :: d in b.fd && Read(b, c, r).fd[d] == b.fd[d]
  {
    hide Honest;
    SaysIs(b, c, r.kinds);
    DroppedHonest(Says(b, c, r.kinds), c, r.ending.Illegal?);
  }

  /** Every one of the open clients in `s` is read just as he is at first: that others are dropped does not matter. */
  lemma {:induction false} AllReadHonest<C>(b: Book<C>, s: seq<C>, readings: seq<Reading>)
    ensures Honest(Log(AllRead(b, s, readings))) <==> Honest(Log(b)) && PlainIn(b, s, readings)
    decreases |s|
  {
    hide Honest, Read, PlainReading;
    if s != [] {
      var c := s[0];
      var t := if ToRead(b, c, readings) then Read(b, c, readings[b.fd[c]]) else b;
      if ToRead(b, c, readings) {
        ReadHonest(b, c, readings[b.fd[c]]);
      }
      AllReadHonest(t, s[1..], readings);
      assert s == [c] + s[1..];
    }
  }

  lemma {:induction false} AllDroppedHonest<C>(b: Book<C>, s: seq<C>)
    ensures Honest(Log(AllDropped(b, s))) <==> Honest(Log(b))
    decreases |s|
  {
    hide Honest, Dropped;
    if s != [] {
      DroppedHonest(b, s[0], false);
      AllDroppedHonest(if s[0] in b.fd then Dropped(b, s[0], false) else b, s[1..]);
    }
  }

  lemma {:induction false} AllSentHonest<C>(b: Book<C>, s: seq<C>, broken: set<int>)
    ensures Honest(Log(AllSent(b, s, broken))) <==> Honest(Log(b))
    decreases |s|
  {
    hide Honest, Dropped;
    if s != [] && s[0] !in b.deleted {
      DroppedHonest(b, s[0], false);
      AllSentHonest(if s[0] in b.fd && b.fd[s[0]] in broken then Dropped(b, s[0], false) else b, s[1..], broken);
    }
  }

  lemma {:induction false} AllHandledLog<C>(b: Book<C>)
    ensures Log(AllHandled(b)) == Log(b)
    decreases |b.queue|
  {
    if b.queue != [] && !Faulty(b) {
      assert Log(Handled(b)) == Log(b);
      AllHandledLog(Handled(b));
    }
  }

  lemma {:induction false} AllAcceptedHonest<C>(b: Book<C>, cs: seq<C>, handles: seq<int>)
    requires |cs| == |handles|
    ensures Honest(Log(AllAccepted(b, cs, handles))) <==> Honest(Log(b))
    decreases |cs|
  {
    hide Honest;
    if cs != [] {
      var last := |cs| - 1;
      var t, m := AllAccepted(b, cs[..last], handles[..last]), Message(Connected, cs[last], true);
      AllAcceptedHonest(b, cs[..last], handles[..last]);
      assert Log(Accepted(t, cs[last], handles[last])) == Log(t) + [m];
      HonestPrefix(Log(t), [m]);
      OneHonest(m);
    }
  }

  lemma AttendedHonest<C>(b: Book<C>, broken: set<int>, dead: seq<C>, incoming: seq<C>, readings: seq<Reading>)
    requires Walkable(b)
    ensures Honest(Log(Attended(b, broken, dead, incoming, readings)))
         <==> Honest(Log(b)) && PlainIn(Cleared(b, broken, dead), incoming, readings)
  {
    hide Honest, PlainIn, Walkable, AllSent, AllDropped, AllRead, AllHandled;
    AllSentHonest(b, b.listed, broken);
    AllDroppedHonest(AllSent(b, b.listed, broken), dead);
    AllReadHonest(Cleared(b, broken, dead), incoming, readings);
    AllHandledLog(AllRead(Cleared(b, broken, dead), incoming, readings));
  }

  /** After a turn nobody has forged a message exactly if nobody had before, and nobody who was read in it did: those
      who had something to read and were still open then. */
  lemma TurnHonest<C>(b: Book<C>, cs: seq<C>, handles: seq<int>, broken: set<int>, dead: seq<C>, incoming: seq<C>,
                      readings: seq<Reading>, max: int)
    requires |cs| == |handles| && Inv(Welcomed(b, cs, handles), max)
    ensures Honest(Log(Turn(b, cs, handles, broken, dead, incoming, readings)))
         <==> Honest(Log(b)) && PlainIn(BeforeReading(b, cs, handles, broken, dead), incoming, readings)
    ensures var w := Welcomed(b, cs, handles); Honest(Log(b)) ==> w.queue == [] && Walkable(w)
  {
    hide Inv, Honest, PlainIn, Walkable, Faulty, AllAccepted, AllSent, Cleared;
    AllAcceptedHonest(b, cs, handles);
    AllHandledLog(AllAccepted(b, cs, handles));
    var w := Welcomed(b, cs, handles);
    if w.queue == [] && Walkable(w) {
      AttendedHonest(w, broken, dead, incoming, readings);
    } else {
      AllSentHonest(w, w.listed, broken);
      if Honest(Log(w)) {
        NotFaulty(w, max);
        HonestWalkable(w, max);
        assert false;
      }
    }
  }

  /** A turn comes to its end, with sound books, exactly if nobody has forged a message by then. */
  lemma TurnSound<C>(b: Book<C>, cs: seq<C>, handles: seq<int>, broken: set<int>, dead: seq<C>, incoming: seq<C>,
                     readings: seq<Reading>, max: int)
    requires |cs| == |handles| && Inv(Welcomed(b, cs, handles), max)
    requires Inv(Turn(b, cs, handles, broken, dead, incoming, readings), max)
    ensures var w, t := Welcomed(b, cs, handles), Turn(b, cs, handles, broken, dead, incoming, readings);
            w.queue == [] && Walkable(w) && Sound(t) <==> Honest(Log(t))
  {
    hide Inv, Honest, PlainIn, Walkable, Faulty, Sound, AllSent, AllRead, Cleared, BeforeReading;
    TurnHonest(b, cs, handles, broken, dead, incoming, readings, max);
    var w := Welcomed(b, cs, handles);
    if w.queue == [] && Walkable(w) {
      SoundIff(Turn(b, cs, handles, broken, dead, incoming, readings), max);
    }
  }

  // ---- each stage of a turn keeps the books

  ghost predicate Acceptable<C>(b: Book<C>, cs: seq<C>, handles: seq<int>, max: int) {
    && |cs| == |handles| && Distinct(cs) && Distinct(handles)
    && forall i :: 0 <= i < |cs| ==> cs[i] !in b.known && 0 <= handles[i] < max && handles[i] !in b.fd.Values
  }

  /** The messages of one client. */
  ghost function Of<C>(log: seq<Message<C>>, c: C): seq<Message<C>> {
    if log == [] then [] else Of(log[..|log| - 1], c) + if log[|log| - 1].from == c then [log[|log| - 1]] else []
  }

  lemma OfOne<C>(log: seq<Message<C>>, m: Message<C>, c: C)
    ensures Of(log + [m], c) == Of(log, c) + if m.from == c then [m] else []
  {
    assert (log + [m])[..|log|] == log;
  }

  lemma {:induction false} OfAppend<C>(log: seq<Message<C>>, more: seq<Message<C>>, c: C)
    ensures Of(log + more, c) == Of(log, c) + Of(more, c)
    decreases |more|
  {
    if more == [] {
      assert log + more == log;
    } else {
      var last := |more| - 1;
      OfAppend(log, more[..last], c);
      assert log + more == log + more[..last] + [more[last]];
      OfOne(log + more[..last], more[last], c);
    }
  }

  lemma {:induction false} HandlesUsed<C>(b: Book<C>, cs: seq<C>, handles: seq<int>)
    requires |cs| == |handles|
    ensures var n := AllAccepted(b, cs, handles);
            forall d <- n.fd :: (d in b.fd && n.fd[d] == b.fd[d]) || n.fd[d] in handles
    decreases |cs|
  {
    if cs != [] {
      var last := |cs| - 1;
      HandlesUsed(b, cs[..last], handles[..last]);
      assert forall h <- handles[..last] :: h in handles;
    }
  }

  lemma AcceptableBut<C>(b: Book<C>, cs: seq<C>, handles: seq<int>, max: int)
    requires Acceptable(b, cs, handles, max) && cs != []
    ensures var last := |cs| - 1;
            && Acceptable(b, cs[..last], handles[..last], max) && cs[last] !in cs[..last]
            && handles[last] !in handles[..last]
  {
  }

  lemma AcceptedOf<C>(t: Book<C>, d: C, handle: int, c: C)
    ensures var n := Accepted(t, d, handle);
            && n.listed == t.listed && n.done == t.done && n.known == t.known + {d} && n.fd == t.fd[d := handle]
            && Of(n.queue, c) == Of(t.queue, c) + if c == d then [Message(Connected, c, true)] else []
  {
    OfOne(t.queue, Message(Connected, d, true), c);
  }

  /** New connections: each new client is open on its handle and is said to connect, once. Nobody else is touched. */
  lemma {:induction false} AllAcceptedIs<C>(b: Book<C>, cs: seq<C>, handles: seq<int>, max: int, c: C)
    requires Inv(b, max) && Acceptable(b, cs, handles, max)
    ensures var n := AllAccepted(b, cs, handles);
            && Inv(n, max) && n.listed == b.listed && n.done == b.done
            && (c in n.known <==> c in b.known || c in cs) && (c in n.fd <==> c in b.fd || c in cs)
            && (c in b.fd ==> n.fd[c] == b.fd[c])
            && (forall i :: 0 <= i < |cs| && cs[i] == c ==> n.fd[c] == handles[i])
            && Of(n.queue, c) == Of(b.queue, c) + if c in cs then [Message(Connected, c, true)] else []
    decreases |cs|
  {
    hide Inv, Of, Accepted;
    if cs != [] {
      var last := |cs| - 1;
      AcceptableBut(b, cs, handles, max);
      AllAcceptedIs(b, cs[..last], handles[..last], max, c);
      var t := AllAccepted(b, cs[..last], handles[..last]);
      NewIsFree(b, cs, handles, max);
      AcceptedKeeps(t, cs[last], handles[last], max);
      AcceptedOf(t, cs[last], handles[last], c);
      assert c in cs <==> c in cs[..last] || c == cs[last];
      InvIs(b, max);
    }
  }

  /** The last of the new clients is not known to the rest, nor is its handle. */
  lemma NewIsFree<C>(b: Book<C>, cs: seq<C>, handles: seq<int>, max: int)
    requires Inv(b, max) && Acceptable(b, cs, handles, max) && cs != []
    ensures var last := |cs| - 1;
            var t := AllAccepted(b, cs[..last], handles[..last]);
            cs[last] !in t.known && handles[last] !in t.fd.Values && 0 <= handles[last] < max
  {
    hide Inv;
    var last := |cs| - 1;
    var t := AllAccepted(b, cs[..last], handles[..last]);
    AcceptableBut(b, cs, handles, max);
    HandlesUsed(b, cs[..last], handles[..last]);
    KnownThen(b, cs[..last], handles[..last]);
    forall d <- t.fd
      ensures t.fd[d] != handles[last]
    {
      assert d in b.fd && t.fd[d] == b.fd[d] ==> t.fd[d] in b.fd.Values;
    }
  }

  lemma {:induction false} KnownThen<C>(b: Book<C>, cs: seq<C>, handles: seq<int>)
    requires |cs| == |handles|
    ensures forall c :: c in AllAccepted(b, cs, handles).known <==> c in b.known || c in cs
    decreases |cs|
  {
    if cs != [] {
      var last := |cs| - 1;
      KnownThen(b, cs[..last], handles[..last]);
      assert forall c :: c in cs <==> c in cs[..last] || c == cs[last];
    }
  }

  lemma DroppedOf<C>(b: Book<C>, d: C, hacked: bool, c: C)
    ensures Of(Dropped(b, d, hacked).queue, c) == Of(b.queue, c) + if c == d then Ends(c, hacked) else []
    ensures var n := Dropped(b, d, hacked);
            n.done == b.done && n.known == b.known && n.deleted == b.deleted && n.listed == b.listed
    ensures Dropped(b, d, hacked).fd == b.fd - {d}
  {
    hide Of;
    if hacked {
      OfOne(b.queue, Message(Hacked, d, true), c);
      OfOne(b.queue + [Message(Hacked, d, true)], Message(HungUp, d, true), c);
    } else {
      OfOne(b.queue, Message(HungUp, d, true), c);
    }
  }

  /** What the server says when it drops a client. */
  function Ends<C>(c: C, hacked: bool): seq<Message<C>> {
    if hacked then [Message(Hacked, c, true), Message(HungUp, c, true)] else [Message(HungUp, c, true)]
  }

  /** Sending: dropped are those of the list who are open and whose handle is broken, and each is said to hang up, once.
      Nobody else is touched. */
  lemma {:induction false} AllSentIs<C>(b: Book<C>, s: seq<C>, broken: set<int>, max: int, c: C)
    requires Inv(b, max) && forall d <- s :: d in b.listed && d !in b.deleted
    ensures var n, hit := AllSent(b, s, broken), c in s && c in b.fd && b.fd[c] in broken;
            && Inv(n, max) && n.listed == b.listed && n.done == b.done && n.known == b.known && n.deleted == b.deleted
            && (c in n.fd <==> c in b.fd && !hit) && (c in n.fd ==> n.fd[c] == b.fd[c])
            && Of(n.queue, c) == Of(b.queue, c) + if hit then [Message(HungUp, c, true)] else []
    decreases |s|
  {
    hide Inv, Of, Dropped;
    if s != [] {
      var t := if s[0] in b.fd && b.fd[s[0]] in broken then Dropped(b, s[0], false) else b;
      DroppedOf(b, s[0], false, c);
      if s[0] in b.fd {
        DroppedKeeps(b, s[0], false, max);
      }
      AllSentIs(t, s[1..], broken, max, c);
      assert c in s <==> c == s[0] || c in s[1..];
    }
  }

  lemma {:induction false} AllDroppedIs<C>(b: Book<C>, s: seq<C>, max: int, c: C)
    requires Inv(b, max) && forall d <- s :: d in b.listed
    ensures var n, hit := AllDropped(b, s), c in s && c in b.fd;
            && Inv(n, max) && n.listed == b.listed && n.done == b.done && n.known == b.known && n.deleted == b.deleted
            && (c in n.fd <==> c in b.fd && !hit) && (c in n.fd ==> n.fd[c] == b.fd[c])
            && Of(n.queue, c) == Of(b.queue, c) + if hit then [Message(HungUp, c, true)] else []
    decreases |s|
  {
    hide Inv, Of, Dropped;
    if s != [] {
      var t := if s[0] in b.fd then Dropped(b, s[0], false) else b;
      DroppedOf(b, s[0], false, c);
      if s[0] in b.fd {
        DroppedKeeps(b, s[0], false, max);
      }
      AllDroppedIs(t, s[1..], max, c);
      assert c in s <==> c == s[0] || c in s[1..];
    }
  }

  /** What one reading makes of it: every message, in order, with the type that it had, and how it ends. */
  function ReadOf<C>(c: C, r: Reading): seq<Message<C>> {
    seq(|r.kinds|, i requires 0 <= i < |r.kinds| => Message(r.kinds[i], c, false))
    + if r.ending.NoMore? then [] else Ends(c, r.ending.Illegal?)
  }

  lemma {:induction false} SaysOf<C>(b: Book<C>, d: C, kinds: seq<Kind>, max: int, c: C)
    requires Inv(b, max) && d in b.fd
    ensures var n := Says(b, d, kinds);
            && Inv(n, max) && n.listed == b.listed && n.known == b.known && n.fd == b.fd
            && n.done == b.done && n.deleted == b.deleted
            && Of(n.queue, c) == Of(b.queue, c)
                 + if c == d then seq(|kinds|, i requires 0 <= i < |kinds| => Message(kinds[i], c, false)) else []
    decreases |kinds|
  {
    hide Inv, Of;
    if kinds != [] {
      var t := Told(b, kinds[0], d, false);
      ToldKeeps(b, kinds[0], d, false, max);
      OfOne(b.queue, Message(kinds[0], d, false), c);
      SaysOf(t, d, kinds[1..], max, c);
      assert seq(|kinds|, i requires 0 <= i < |kinds| => Message(kinds[i], c, false)) == [Message(kinds[0], c, false)]
          + seq(|kinds| - 1, i requires 0 <= i < |kinds| - 1 => Message(kinds[1..][i], c, false));
    }
  }

  lemma ReadIs<C>(b: Book<C>, d: C, r: Reading, max: int, c: C)
    requires Inv(b, max) && d in b.fd && d in b.listed
    ensures var n := Read(b, d, r);
            && Inv(n, max) && n.listed == b.listed && n.done == b.done && n.known == b.known && n.deleted == b.deleted
            && n.fd == (if r.ending.NoMore? then b.fd else b.fd - {d})
            && Of(n.queue, c) == Of(b.queue, c) + if c == d then ReadOf(c, r) else []
  {
    hide Inv, Of, Says, Dropped;
    SaysOf(b, d, r.kinds, max, c);
    var t := Says(b, d, r.kinds);
    if !r.ending.NoMore? {
      DroppedOf(t, d, r.ending.Illegal?, c);
      DroppedKeeps(t, d, r.ending.Illegal?, max);
    }
  }

  /** Reading: of every client of the list who is open all that there is comes to the queue, and those who are over, or
      sent something illegal, are dropped. */
  lemma {:induction false} AllReadIs<C>(b: Book<C>, s: seq<C>, readings: seq<Reading>, max: int, c: C)
    requires Inv(b, max) && Distinct(s) && forall d <- s :: d in b.listed
    ensures var n, hit := AllRead(b, s, readings), c in s && ToRead(b, c, readings);
            && Inv(n, max) && n.listed == b.listed && n.done == b.done && n.known == b.known && n.deleted == b.deleted
            && (c in n.fd <==> c in b.fd && (hit ==> readings[b.fd[c]].ending.NoMore?))
            && (c in n.fd ==> n.fd[c] == b.fd[c])
            && Of(n.queue, c) == Of(b.queue, c) + if hit then ReadOf(c, readings[b.fd[c]]) else []
    decreases |s|
  {
    hide Inv, Of, Read, ReadOf;
    if s != [] {
      var t := if ToRead(b, s[0], readings) then Read(b, s[0], readings[b.fd[s[0]]]) else b;
      if ToRead(b, s[0], readings) {
        ReadIs(b, s[0], readings[b.fd[s[0]]], max, c);
      }
      AllReadIs(t, s[1..], readings, max, c);
      assert c in s <==> c == s[0] || c in s[1..];
      assert s[0] !in s[1..];
    }
  }

  lemma HandledStep<C>(b: Book<C>, max: int)
    requires Inv(b, max) && Honest(Log(b)) && b.queue != []
    ensures var n := Handled(b);
            && !Faulty(b) && Inv(n, max) && Log(n) == Log(b) && n.fd == b.fd && n.known == b.known
            && |n.queue| == |b.queue| - 1
  {
    hide Inv, Honest, Faulty;
    assert Log(Handled(b)) == Log(b);
    NotFaulty(b, max);
    HandledKeeps(b, max);
    HandledOpen(b, max);
  }

  /** The queue, if nothing is forged: all of it is dispatched, and nobody is closed by that. */
  lemma {:induction false} AllHandledIs<C>(b: Book<C>, max: int)
    requires Inv(b, max) && Honest(Log(b))
    ensures var n := AllHandled(b);
            && Inv(n, max) && n.queue == [] && n.done == Log(b) && n.fd == b.fd && n.known == b.known
    decreases |b.queue|
  {
    hide Inv, Honest, Faulty, Handled;
    if b.queue == [] {
      assert Log(b) == b.done;
    } else {
      HandledStep(b, max);
      AllHandledIs(Handled(b), max);
    }
  }

  // ---- what becomes of a client in a turn

  /** An open client on handle `h` is said to hang up if it cannot be sent to, or is dead. Otherwise, if it has
      something to read, all of that is read, and it is closed if that is over, or illegal. Nothing else is said. */
  ghost predicate Fared<C>(b: Book<C>, h: int, said: seq<Message<C>>, broken: set<int>, dead: seq<C>, incoming: seq<C>,
                           readings: seq<Reading>, n: Book<C>, c: C)
  {
    var cut := h in broken || c in dead;
    var read := !cut && c in incoming && 0 <= h < |readings|;
    && (c in n.fd <==> !cut && (read ==> readings[h].ending.NoMore?)) && (c in n.fd ==> n.fd[c] == h)
    && Of(n.done, c) == Of(b.done, c) + said
         + if cut then [Message(HungUp, c, true)] else if read then ReadOf(c, readings[h]) else []
  }

  /** A client that is closed stays so, and nothing is said of it. */
  ghost predicate Rests<C>(b: Book<C>, n: Book<C>, c: C) {
    c !in n.fd && Of(n.done, c) == Of(b.done, c)
  }

  lemma ClearedIs<C>(w: Book<C>, broken: set<int>, dead: seq<C>, max: int, c: C)
    requires Inv(w, max) && Walkable(w) && forall d <- dead :: d in w.listed
    ensures var n := Cleared(w, broken, dead);
            var hit := c in w.fd && ((c in w.listed && w.fd[c] in broken) || c in dead);
            && Inv(n, max) && n.listed == w.listed && n.done == w.done
            && (c in n.fd <==> c in w.fd && !hit) && (c in n.fd ==> n.fd[c] == w.fd[c])
            && Of(n.queue, c) == Of(w.queue, c) + if hit then [Message(HungUp, c, true)] else []
  {
    hide Inv, Of, AllSent, AllDropped;
    AllSentIs(w, w.listed, broken, max, c);
    AllDroppedIs(AllSent(w, w.listed, broken), dead, max, c);
  }

  /** The books before the queue is dispatched for the second time. */
  ghost function Gathered<C>(w: Book<C>, broken: set<int>, dead: seq<C>, incoming: seq<C>,
                             readings: seq<Reading>): Book<C>
  {
    AllRead(Cleared(w, broken, dead), incoming, readings)
  }

  lemma GatheredIs<C>(w: Book<C>, broken: set<int>, dead: seq<C>, incoming: seq<C>, readings: seq<Reading>, max: int,
                      c: C)
    requires Inv(w, max) && Walkable(w) && w.queue == [] && Distinct(incoming)
    requires (forall d <- dead :: d in w.listed) && (forall d <- incoming :: d in w.listed)
    requires c in w.fd ==> c in w.listed
    ensures var n := Gathered(w, broken, dead, incoming, readings);
            && Inv(n, max) && n.done == w.done
            && (c in w.fd ==> Fared(w, w.fd[c], [], broken, dead, incoming, readings, n.(done := Log(n)), c))
            && (c !in w.fd ==> Rests(w, n.(done := Log(n)), c))
  {
    hide Inv, Cleared, AllRead, ReadOf, Distinct;
    ClearedIs(w, broken, dead, max, c);
    var r := Cleared(w, broken, dead);
    AllReadIs(r, incoming, readings, max, c);
    var n := AllRead(r, incoming, readings);
    OfAppend(n.done, n.queue, c);
  }

  lemma GatheredHonest<C>(w: Book<C>, broken: set<int>, dead: seq<C>, incoming: seq<C>, readings: seq<Reading>)
    ensures Honest(Log(Gathered(w, broken, dead, incoming, readings)))
         <==> Honest(Log(w)) && PlainIn(Cleared(w, broken, dead), incoming, readings)
  {
    hide Honest, PlainIn, AllSent, AllDropped, AllRead;
    AllSentHonest(w, w.listed, broken);
    AllDroppedHonest(AllSent(w, w.listed, broken), dead);
    AllReadHonest(Cleared(w, broken, dead), incoming, readings);
  }

  lemma AttendedIs<C>(w: Book<C>, broken: set<int>, dead: seq<C>, incoming: seq<C>, readings: seq<Reading>, max: int,
                      c: C)
    requires Inv(w, max) && Honest(Log(w)) && w.queue == [] && Distinct(incoming)
    requires (forall d <- dead :: d in w.listed) && (forall d <- incoming :: d in w.listed)
    requires PlainIn(Cleared(w, broken, dead), incoming, readings)
    ensures var t := Attended(w, broken, dead, incoming, readings);
            && Inv(t, max) && t.queue == []
            && (c in w.fd ==> Fared(w, w.fd[c], [], broken, dead, incoming, readings, t, c))
            && (c !in w.fd ==> Rests(w, t, c))
  {
    hide Inv, Honest, PlainIn, Cleared, AllRead, AllSent, AllHandled, Distinct, Walkable, ReadOf, Of;
    HonestWalkable(w, max);
    if c in w.fd {
      OpenListed(w, max, c);
    }
    GatheredIs(w, broken, dead, incoming, readings, max, c);
    GatheredHonest(w, broken, dead, incoming, readings);
    AllHandledIs(Gathered(w, broken, dead, incoming, readings), max);
  }

  lemma ListedOpen<C>(b: Book<C>, max: int, c: C)
    requires Inv(b, max) && Honest(b.done) && b.queue == [] && c in b.listed
    ensures c in b.fd
  {
    hide Introduced, Caught, Handles, Distinct, Lasting, Honest;
    assert Log(b) == b.done;
    assert c in b.known && Ended(b, c);
  }

  lemma {:induction false} OfUnknown<C>(log: seq<Message<C>>, c: C)
    requires forall m <- log :: m.from != c
    ensures Of(log, c) == []
  {
    if log != [] {
      OfUnknown(log[..|log| - 1], c);
    }
  }

  /** After new connections and the queue: who is new is open on its handle. */
  lemma WelcomedIs<C>(b: Book<C>, cs: seq<C>, handles: seq<int>, max: int, c: C)
    requires Inv(b, max) && b.queue == [] && Honest(b.done) && Acceptable(b, cs, handles, max)
    ensures var w := Welcomed(b, cs, handles);
            && Inv(w, max) && w.queue == [] && Honest(w.done)
            && (c in w.fd <==> c in b.fd || c in cs) && (c in b.fd ==> w.fd[c] == b.fd[c])
            && (forall i :: 0 <= i < |cs| && cs[i] == c ==> w.fd[c] == handles[i])
            && Of(w.done, c) == Of(b.done, c) + if c in cs then [Message(Connected, c, true)] else []
  {
    hide Inv, Honest, Of, AllAccepted, AllHandled;
    assert Log(b) == b.done;
    AllAcceptedIs(b, cs, handles, max, c);
    AllAcceptedHonest(b, cs, handles);
    var a := AllAccepted(b, cs, handles);
    AllHandledIs(a, max);
    OfAppend(a.done, a.queue, c);
    OfNone(c);
  }

  lemma OfNone<C>(c: C)
    ensures Of([], c) == []
  {
  }

  lemma StillListed<C>(b: Book<C>, cs: seq<C>, handles: seq<int>, max: int, c: C)
    requires Inv(b, max) && b.queue == [] && Honest(b.done) && Acceptable(b, cs, handles, max) && c in b.listed
    ensures c in Welcomed(b, cs, handles).listed
  {
    hide Inv, Honest, Welcomed;
    ListedOpen(b, max, c);
    WelcomedIs(b, cs, handles, max, c);
    OpenListed(Welcomed(b, cs, handles), max, c);
  }

  /** A whole turn in which nobody forges a message, from when the queue is empty: what becomes of each client who was
      open, of each who connects, and of each who was closed. */
  lemma TurnIs<C>(b: Book<C>, cs: seq<C>, handles: seq<int>, broken: set<int>, dead: seq<C>, incoming: seq<C>,
                  readings: seq<Reading>, max: int, c: C)
    requires Inv(b, max) && b.queue == [] && Honest(b.done) && Acceptable(b, cs, handles, max)
    requires Distinct(incoming) && (forall d <- dead :: d in b.listed) && (forall d <- incoming :: d in b.listed)
    requires PlainIn(BeforeReading(b, cs, handles, broken, dead), incoming, readings)
    ensures var t := Turn(b, cs, handles, broken, dead, incoming, readings);
            && Inv(t, max) && t.queue == []
            && (c in b.fd ==> Fared(b, b.fd[c], [], broken, dead, incoming, readings, t, c))
            && (forall i :: 0 <= i < |cs| && cs[i] == c ==>
                  Fared(b, handles[i], [Message(Connected, c, true)], broken, [], [], readings, t, c))
            && (c !in b.fd && c !in cs ==> Rests(b, t, c))
  {
    hide Inv, Honest, PlainIn, Of, Welcomed, Attended, Distinct, ReadOf;
    var w := Welcomed(b, cs, handles);
    WelcomedIs(b, cs, handles, max, c);
    forall d | d in dead || d in incoming
      ensures d in w.listed
    {
      StillListed(b, cs, handles, max, d);
    }
    assert Log(w) == w.done;
    AttendedIs(w, broken, dead, incoming, readings, max, c);
    if c in cs {
      NewNotListed(b, cs, handles, max, c);
    }
  }

  /** Of those who have something to read, none forges a message who is open, can be sent to, and is not dead. */
  ghost predicate NobodyForges<C>(b: Book<C>, broken: set<int>, dead: seq<C>, incoming: seq<C>,
                                  readings: seq<Reading>)
  {
    forall c <- incoming :: c in b.fd && 0 <= b.fd[c] < |readings| && b.fd[c] !in broken && c !in dead ==>
      forall kind <- readings[b.fd[c]].kinds :: kind.Data? || kind.Hacked?
  }

  /** Those are the ones who are read. */
  lemma WhoIsRead<C>(b: Book<C>, cs: seq<C>, handles: seq<int>, broken: set<int>, dead: seq<C>, incoming: seq<C>,
                     readings: seq<Reading>, max: int)
    requires Inv(b, max) && b.queue == [] && Honest(b.done) && Acceptable(b, cs, handles, max)
    requires (forall d <- dead :: d in b.listed) && (forall d <- incoming :: d in b.listed)
    ensures PlainIn(BeforeReading(b, cs, handles, broken, dead), incoming, readings)
       <==> NobodyForges(b, broken, dead, incoming, readings)
  {
    hide Inv, Honest, Welcomed, Cleared, Distinct;
    var w := Welcomed(b, cs, handles);
    forall c <- incoming
      ensures var r := BeforeReading(b, cs, handles, broken, dead);
              && (c in r.fd <==> c in b.fd && b.fd[c] !in broken && c !in dead) && (c in r.fd ==> r.fd[c] == b.fd[c])
    {
      NewNotKnown(b, cs, handles, max, c);
      WelcomedIs(b, cs, handles, max, c);
      StillListed(b, cs, handles, max, c);
      forall d <- dead
        ensures d in w.listed
      {
        StillListed(b, cs, handles, max, d);
      }
      assert Log(w) == w.done;
      HonestWalkable(w, max);
      ClearedIs(w, broken, dead, max, c);
    }
  }

  lemma NewNotKnown<C>(b: Book<C>, cs: seq<C>, handles: seq<int>, max: int, c: C)
    requires Inv(b, max) && Acceptable(b, cs, handles, max) && c in b.listed
    ensures c !in cs
  {
    InvIs(b, max);
  }

  lemma NewNotListed<C>(b: Book<C>, cs: seq<C>, handles: seq<int>, max: int, c: C)
    requires Inv(b, max) && Acceptable(b, cs, handles, max) && c in cs
    ensures c !in b.listed && c !in b.fd
  {
    InvIs(b, max);
  }

  // ---- what forged messages do

  lemma SaysOne<C>(b: Book<C>, c: C, kind: Kind)
    ensures Says(b, c, [kind]) == Told(b, kind, c, false)
  {
    assert Says(Told(b, kind, c, false), c, [kind][1..]) == Told(b, kind, c, false);
  }

  lemma HandledAll<C>(b: Book<C>)
    requires b.queue != [] && !Faulty(b)
    ensures AllHandled(b) == AllHandled(Handled(b))
  {
  }

  lemma ListedOnce<C>(b: Book<C>, max: int, c: C)
    requires Inv(b, max) && Honest(Log(b)) && b.queue == [] && c in b.fd
    ensures c in b.listed && c !in b.deleted && c !in Del(b.listed, c) && b.connections == |b.fd|
  {
    OpenListed(b, max, c);
    InvIs(b, max);
    DelIsMinus(b.listed, c);
  }

  /** A client says that it hung up: it is gone, and the counter is too high by one. */
  lemma ForgedOnce<C>(b: Book<C>, max: int, c: C)
    requires Inv(b, max) && Honest(Log(b)) && b.queue == [] && c in b.fd
    ensures var n := AllHandled(Read(b, c, Reading([HungUp], NoMore)));
            n.queue == [] && c !in n.fd && c !in n.listed && c in n.deleted && n.connections == |n.fd| + 1 && !Sound(n)
  {
    hide Inv, Honest, Lasting, Del;
    SaysOne(b, c, HungUp);
    ListedOnce(b, max, c);
    var t := Told(b, HungUp, c, false);
    HandledAll(t);
    FewerHandles(b.fd, c);
    assert Handled(t).queue == [];
  }

  /** It says so twice, or closes its connection after: a deleted client is to be deleted. */
  lemma ForgedTwice<C>(b: Book<C>, max: int, c: C, r: Reading)
    requires Inv(b, max) && Honest(Log(b)) && b.queue == [] && c in b.fd
    requires r == Reading([HungUp, HungUp], NoMore) || r == Reading([HungUp], Over)
    ensures Faulty(AllHandled(Read(b, c, r)))
  {
    hide Inv, Honest, Lasting, Del;
    ListedOnce(b, max, c);
    SaysOne(b, c, HungUp);
    SaysOne(Told(b, HungUp, c, false), c, HungUp);
    assert [HungUp, HungUp][1..] == [HungUp];
    var t := Read(b, c, r);
    assert t.queue == [Message(HungUp, c, false), Message(HungUp, c, r.ending.Over?)];
    HandledAll(t);
    assert Handled(t).queue == [Message(HungUp, c, r.ending.Over?)];
  }

  /** It says that it connects: it is listed twice, and when it does hang up a deleted client stays on the list, over
      which the next turn would walk. */
  lemma ForgedConnecting<C>(b: Book<C>, max: int, c: C)
    requires Inv(b, max) && Honest(Log(b)) && b.queue == [] && c in b.fd
    ensures var n := AllHandled(Read(b, c, Reading([Connected], NoMore)));
            && n.queue == [] && c in b.listed && n.listed == b.listed + [c]
            && var e := AllHandled(Read(n, c, Reading([], Over)));
               e.queue == [] && c in e.deleted && c in e.listed && !Walkable(e)
  {
    hide Inv, Honest, Lasting, Del;
    ListedOnce(b, max, c);
    SaysOne(b, c, Connected);
    var t := Told(b, Connected, c, false);
    HandledAll(t);
    var n := Handled(t);
    assert n.queue == [];
    var d := Read(n, c, Reading([], Over));
    assert d == Dropped(n, c, false);
    HandledAll(d);
    assert Handled(d).queue == [];
    DelTwice(b.listed, c);
  }

  lemma {:induction false} DelTwice<C>(s: seq<C>, c: C)
    requires c in s
    ensures c in Del(s + [c], c)
  {
    if s[0] == c {
      assert (s + [c])[1..][|s| - 1] == c;
    } else {
      DelTwice(s[1..], c);
      assert (s + [c])[1..] == s[1..] + [c];
    }
  }

  /** It says that it connects and closes its connection: a closed client is taken for the table. */
  lemma ForgedAndClosed<C>(b: Book<C>, max: int, c: C)
    requires Inv(b, max) && Honest(Log(b)) && b.queue == [] && c in b.fd
    ensures Faulty(AllHandled(Read(b, c, Reading([Connected], Over))))
  {
    hide Inv, Honest, Lasting, Del;
    SaysOne(b, c, Connected);
  }
}
