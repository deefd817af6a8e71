/** A queue of messages going out and messages coming in (global/ipcclient.cpp) over one connection: they arrive
    in order and unchanged, whatever pieces they are cut into. */
module Messaging {
  import opened Common
  import opened Framing

  ghost predicate AllSendable(ms: seq<Message>) {
    forall m <- ms :: Sendable(m)
  }

  lemma {:induction false} ImagesPrefix(ms: seq<Message>, n: nat)
    requires AllSendable(ms) && n <= |ms|
    ensures AllSendable(ms[..n]) && Images(ms[..n]) <= Images(ms)
    decreases |ms|
  {
    if n < |ms| {
      var rest := ms[..|ms| - 1];
      ImagesPrefix(rest, n);
      assert ms[..n] == rest[..n];
    } else {
      assert ms[..n] == ms;
    }
  }

  lemma ImagesStep(ms: seq<Message>, n: nat)
    requires AllSendable(ms) && n < |ms|
    ensures AllSendable(ms[..n]) && AllSendable(ms[..n + 1]) && Sendable(ms[n])
    ensures Images(ms[..n + 1]) == Images(ms[..n]) + Image(ms[n])
  {
    assert ms[..n + 1][..n] == ms[..n];
  }

  /** What is on the wire when `done` messages are out and `p` bytes of the next one. */
  ghost function Written(all: seq<Message>, done: nat, p: nat): seq<Byte>
    requires AllSendable(all) && done <= |all| && (done < |all| ==> p <= |Image(all[done])|)
  {
    Images(all[..done]) + if done < |all| then Image(all[done])[..p] else []
  }

  lemma WrittenIsPrefix(all: seq<Message>, done: nat, p: nat)
    requires AllSendable(all) && done <= |all| && (done < |all| ==> p <= |Image(all[done])|)
    ensures Written(all, done, p) <= Images(all)
  {
    ImagesPrefix(all, done);
    if done < |all| {
      ImagesStep(all, done);
      ImagesPrefix(all, done + 1);
    }
  }

  lemma WrittenAll(all: seq<Message>, done: nat)
    requires AllSendable(all) && done < |all|
    ensures Written(all, done, |Image(all[done])|) == Written(all, done + 1, 0)
  {
    ImagesStep(all, done);
  }

  lemma AllWritten(all: seq<Message>, done: nat)
    requires AllSendable(all) && done <= |all|
    ensures done == |all| ==> Written(all, done, 0) == Images(all)
  {
    assert all[..|all|] == all;
  }

  lemma WrittenMore(all: seq<Message>, m: Message, done: nat, p: nat)
    requires AllSendable(all) && Sendable(m) && done <= |all|
    requires if done < |all| then p <= |Image(all[done])| else p == 0
    ensures AllSendable(all + [m]) && Written(all + [m], done, p) == Written(all, done, p)
    ensures done == |all| ==> Written(all, done, p) == Images(all)
  {
    assert (all + [m])[..done] == all[..done];
    if done == |all| {
      assert all[..done] == all;
    }
  }

  lemma WrittenOn(all: seq<Message>, done: nat, p: nat, q: nat)
    requires AllSendable(all) && done < |all| && p <= q <= |Image(all[done])|
    ensures Written(all, done, q) == Written(all, done, p) + Image(all[done])[p..q]
  {
  }

  // ---- the reader's side of the stream

  /** After `n` messages, `got` of the next one. */
  ghost predicate Follows(all: seq<Message>, n: nat, got: seq<Byte>, wire: seq<Byte>, taken: nat) {
    && AllSendable(all) && n <= |all| && taken <= |wire| && wire <= Images(all)
    && |Images(all[..n])| <= taken && got == wire[|Images(all[..n])|..taken]
  }

  lemma FollowsOn(all: seq<Message>, n: nat, got: seq<Byte>, wire: seq<Byte>, taken: nat, taken': nat)
    requires Follows(all, n, got, wire, taken) && taken <= taken' <= |wire|
    ensures Follows(all, n, got + wire[taken..taken'], wire, taken')
  {
  }

  lemma WholeMessage(all: seq<Message>, n: nat, got: seq<Byte>)
    requires AllSendable(all) && Follows(all, n, got, Images(all), |Images(all)|) && n < |all|
    ensures |got| >= HEADER + |all[n].data|
  {
    ImagesStep(all, n);
    ImagesPrefix(all, n + 1);
  }

  lemma AtTheEnd(all: seq<Message>, got: seq<Byte>, wire: seq<Byte>, taken: nat)
    requires Follows(all, |all|, got, wire, taken)
    ensures got == [] && wire == Images(all) && taken == |wire|
  {
    assert all[..|all|] == all;
  }

  /** A reader that has some of the next message has it whole exactly when it has its image; then it goes on
      with the one after. */
  lemma NextMessage(all: seq<Message>, n: nat, got: seq<Byte>, wire: seq<Byte>, taken: nat, maxMsgSize: int)
    requires Follows(all, n, got, wire, taken) && |got| >= HEADER
    requires forall m <- all :: |m.data| <= maxMsgSize
    ensures n < |all| && BodySize(Int32(got[..4]), maxMsgSize) == |all[n].data|
    ensures Complete(got, maxMsgSize) ==> Parsed(got) == all[n] && Follows(all, n + 1, [], wire, taken)
  {
    var start := |Images(all[..n])|;
    ImagesPrefix(all, n);
    if n == |all| {
      AtTheEnd(all, got, wire, taken);
      assert false;
    }
    ImagesStep(all, n);
    ImagesPrefix(all, n + 1);
    var stream := Images(all)[start..];
    assert Image(all[n]) == Images(all[..n + 1])[start..];
    assert Image(all[n]) <= stream;
    assert got <= stream;
    ImageIsTaken(all[n], stream, got, maxMsgSize);
  }

  lemma FollowsMore(all: seq<Message>, m: Message, n: nat, got: seq<Byte>, wire: seq<Byte>, taken: nat)
    requires Follows(all, n, got, wire, taken) && Sendable(m)
    ensures Follows(all + [m], n, got, wire, taken)
  {
    assert (all + [m])[..n] == all[..n];
    assert (all + [m])[..|all|] == all;
  }

  /** What is given to send. */
  datatype Payload = Payload(kind: int, data: seq<Byte>)

  /** The same type, and the payload with as many bytes after it as padding takes. */
  predicate Carries(m: Message, p: Payload) {
    m.kind == p.kind && |m.data| == PaddedSize(|p.data|) && m.data[..|p.data|] == p.data
  }

  // ---- the two ends

  /** What a client keeps to send. */
  class Outgoing {
    const handle: Socket
    var msgQueue: seq<IPCMessage>
    /** Everything that was ever added, and how much of it is out. */
    ghost var all: seq<Message>
    ghost var done: nat

    constructor (handle: Socket)
      requires handle.wire == []
      ensures Valid() && all == [] && msgQueue == [] && this.handle == handle
    {
      this.handle, msgQueue, all, done := handle, [], [], 0;
    }

    ghost function Footprint(): set<object>
      reads this`msgQueue, msgQueue`data
    {
      (set m | m in msgQueue :: m as object) + Headers() + Datas()
    }

    ghost function Headers(): set<array<Byte>>
      reads this`msgQueue
    {
      set m | m in msgQueue :: m.header
    }

    ghost function Datas(): set<array<Byte>>
      reads this`msgQueue, msgQueue`data
    {
      set m | m in msgQueue && m.data != null :: m.data
    }

    /** The `i`-th message waits with its header and data to itself; only the first has been begun. */
    ghost predicate Waits(i: nat)
      requires i < |msgQueue|
      reads this, msgQueue, Headers(), Datas()
    {
      && msgQueue[i].Sending() && done + i < |all| && msgQueue[i].Content() == all[done + i]
      && msgQueue[i].Progress() <= |Image(msgQueue[i].Content())|
      && (i > 0 ==> msgQueue[i].Progress() == 0 && !msgQueue[i].state.SndData? && msgQueue[i].bufferSize == 0)
    }

    /** Writing `m` leaves `n` alone. */
    ghost predicate Different(m: IPCMessage, n: IPCMessage)
      reads m, n
    {
      m != n && m.header != n.header && m.header != n.data
    }

    ghost predicate Apart(i: nat)
      requires i < |msgQueue|
      reads this, msgQueue
    {
      forall j :: 0 <= j < i ==> Different(msgQueue[j], msgQueue[i])
    }

    ghost predicate Valid()
      reads this, handle`wire, msgQueue, Headers(), Datas()
    {
      && AllSendable(all) && done + |msgQueue| == |all|
      && (forall i :: 0 <= i < |msgQueue| ==> Waits(i))
      && (forall i :: 0 <= i < |msgQueue| ==> Apart(i))
      && handle.wire == if msgQueue == [] then Images(all)
         else (assert Waits(0); Written(all, done, msgQueue[0].Progress()))
    }

    lemma WireIsPrefix()
      requires Valid()
      ensures handle.wire <= Images(all)
    {
      if msgQueue != [] {
        assert Waits(0);
        WrittenIsPrefix(all, done, msgQueue[0].Progress());
      }
    }

    lemma AllOut()
      requires Valid()
      ensures msgQueue == [] ==> handle.wire == Images(all)
    {
    }

    lemma AllHere()
      ensures forall m <- msgQueue :: m in Footprint() && m.header in Footprint()
      ensures (forall h <- Headers() :: h in Footprint()) && (forall d <- Datas() :: d in Footprint())
    {
    }

    method SendOn() returns (r: int)
      requires Valid() && msgQueue != []
      modifies msgQueue[0], msgQueue[0].header, handle`wire, handle`answers
      ensures Valid() && old(handle.wire) <= handle.wire && Footprint() == old(Footprint())
      ensures r == 0 ==> handle.wire == Written(all, done, |Image(all[done])|)
      ensures (r == 0 || r == -1 || r == -2) && old(handle.answers) < handle.answers
      ensures r == -2 <==> handle.Last().Failed?
    {
      hide Image, Images, Written, IPCMessage.Sending, IPCMessage.Content, IPCMessage.Progress;
      assert Waits(0);
      var msg := msgQueue[0];
      ghost var p := msg.Progress();
      r := msg.Write(handle);
      WrittenOn(all, done, p, msg.Progress());
      forall i | 0 <= i < |msgQueue|
        ensures Waits(i) && Apart(i)
      {
        assert old(Waits(i)) && old(Apart(i));
        if i > 0 {
          assert old(Different(msgQueue[0], msgQueue[i]));
          assert msgQueue[0].header !in IPCMessage.IfAny(msgQueue[i].data);
        }
      }
    }

    method DelFirst()
      requires Valid() && msgQueue != [] && handle.wire == Written(all, done, |Image(all[done])|)
      modifies this`msgQueue, this`done
      ensures Valid() && done == old(done) + 1 && Footprint() <= old(Footprint())
    {
      hide Image, Images, Written, IPCMessage.Sending, IPCMessage.Content, AllSendable;
      ghost var was := msgQueue;
      WrittenAll(all, done);
      msgQueue := msgQueue[1..];
      done := done + 1;
      assert forall m <- msgQueue :: m in was;
      forall i | 0 <= i < |msgQueue|
        ensures Waits(i) && Apart(i) && msgQueue[i].Progress() == 0
      {
        assert msgQueue[i] == was[i + 1];
        assert old(Waits(i + 1)) && old(Apart(i + 1));
        assert this !in IPCMessage.IfAny(msgQueue[i].data);
        forall j | 0 <= j < i
          ensures Different(msgQueue[j], msgQueue[i])
        {
          assert msgQueue[j] == was[j + 1];
          assert old(Different(was[j + 1], was[i + 1]));
        }
      }
      AllWritten(all, done);
    }

    /** Writes on at the first message, and forgets it when it is all out. */
    method SendNextMsg() returns (r: int)
      requires Valid()
      modifies this`msgQueue, this`done, Footprint(), handle`wire, handle`answers
      ensures Valid() && all == old(all) && old(done) <= done && old(handle.wire) <= handle.wire
      ensures r == 0 ==> done == old(done) + 1
      ensures r != 0 ==> done == old(done) && msgQueue == old(msgQueue)
      ensures old(msgQueue) == [] ==> r == -1
      ensures old(msgQueue) != [] ==>
              (r == 0 || r == -1 || r == -2) && old(handle.answers) < handle.answers
              && (r == -2 <==> handle.Last().Failed?)
      ensures Footprint() <= old(Footprint())
    {
      r := -1;
      if msgQueue != [] {
        AllHere();
        assert msgQueue[0] in msgQueue;
        r := SendOn();
        if r == 0 {
          DelFirst();
        }
      }
    }

    /** One more message at the end of the queue. */
    method AddMsg(msg: IPCMessage)
      requires Valid() && msg.Sending() && msg.state.RcvHeader?
      requires forall m <- msgQueue :: Different(m, msg)
      modifies this`msgQueue, this`all
      ensures Valid() && all == old(all) + [msg.Content()] && done == old(done) && msgQueue == old(msgQueue) + [msg]
      ensures Footprint() <= old(Footprint()) + {msg, msg.header} + IPCMessage.IfAny(msg.data)
    {
      hide Image, Images, Written, IPCMessage.Content;
      ghost var was, content := msgQueue, msg.Content();
      ghost var p := if msgQueue == [] then 0 else (assert Waits(0); msgQueue[0].Progress());
      WrittenMore(all, content, done, p);
      msgQueue := msgQueue + [msg];
      all := all + [content];
      assert this !in IPCMessage.IfAny(msg.data);
      assert msgQueue[0].Progress() == p;
      forall i | 0 <= i < |msgQueue|
        ensures Waits(i) && Apart(i)
      {
        assert this !in IPCMessage.IfAny(msgQueue[i].data);
        if i < |was| {
          assert old(Waits(i)) && old(Apart(i));
        }
        forall j | 0 <= j < i
          ensures Different(msgQueue[j], msgQueue[i])
        {
          assert i < |was| ==> old(Different(was[j], was[i]));
        }
      }
      assert Waits(0);
      MorePrints(msg);
    }

    twostate lemma MorePrints(new msg: IPCMessage)
      requires msgQueue == old(msgQueue) + [msg] && forall m <- old(msgQueue) :: m.data == old(m.data)
      ensures Footprint() <= old(Footprint()) + {msg, msg.header} + IPCMessage.IfAny(msg.data)
    {
      assert forall m <- msgQueue :: m in old(msgQueue) || m == msg;
      assert Headers() <= old(Headers()) + {msg.header};
      assert forall d <- Datas() :: d in old(Datas()) || d == msg.data;
    }

    /** A message is made of the payload and added. */
    method Send(p: Payload)
      requires Valid() && IsInt32(p.kind) && PaddedSize(|p.data|) < TWO31
      modifies this`msgQueue, this`all
      ensures Valid() && |all| == |old(all)| + 1 && all == old(all) + [all[|all| - 1]] && Carries(all[|all| - 1], p)
      ensures Sendable(all[|all| - 1]) && |msgQueue| == |old(msgQueue)| + 1
      ensures fresh(Footprint() - old(Footprint()))
    {
      hide IPCMessage.Sending, Image, Images, Written, Outgoing.Valid, Outgoing.Footprint;
      AllHere();
      var msg := new IPCMessage.Send(p.kind, p.data);
      StaysValid();
      AddMsg(msg);
    }

    /** Making another message leaves those in the queue as they are. */
    twostate lemma StaysValid()
      requires old(Valid()) && unchanged(this) && unchanged(handle)
      requires forall m <- msgQueue :: unchanged(m) && unchanged(m.header) && (m.data != null ==> unchanged(m.data))
      ensures Valid() && Footprint() == old(Footprint())
    {
      hide Image, Images, Written;
      forall i | 0 <= i < |msgQueue|
        ensures Waits(i) && Apart(i)
      {
        assert old(Waits(i)) && old(Apart(i));
      }
    }
  }

  /** The reading end of a client; what `getNextMsg` completes is taken from it at once. */
  class Incoming {
    const handle: Socket
    const maxMsgSize: int
    var newMsg: IPCMessage?
    var delivered: seq<Message>
    /** The size that each of them was reported with. */
    var sizes: seq<int>

    constructor (handle: Socket, maxMsgSize: int)
      requires handle.taken == 0 && handle.wire == []
      ensures Valid([]) && delivered == [] && sizes == [] && newMsg == null
      ensures this.handle == handle && this.maxMsgSize == maxMsgSize
    {
      this.handle, this.maxMsgSize, newMsg, delivered, sizes := handle, maxMsgSize, null, [], [];
    }

    ghost predicate Sized()
      reads this`delivered, this`sizes
    {
      |sizes| == |delivered| && forall i :: 0 <= i < |sizes| ==> sizes[i] == |delivered[i].data| - 4
    }

    ghost function Got(): seq<Byte>
      reads this`newMsg, if newMsg == null then {} else {newMsg}
    {
      if newMsg == null then [] else newMsg.got
    }

    ghost function Footprint(): set<object>
      reads this`newMsg, if newMsg == null then {} else {newMsg}
    {
      if newMsg == null then {} else {newMsg, newMsg.header} + IPCMessage.IfAny(newMsg.data)
    }

    /** Of `all` that is sent, the first messages have been delivered, and a part of the next one is here. */
    ghost predicate Valid(all: seq<Message>)
      reads this, Footprint(), handle
    {
      && Follows(all, |delivered|, Got(), handle.wire, handle.taken) && handle.taken <= |handle.wire|
      && |delivered| <= |all| && delivered == all[..|delivered|] && Sized()
      && (newMsg != null ==> newMsg.Ready(maxMsgSize) && (newMsg.bufferSize > 0 || newMsg.got == []))
    }

    /** The rest of `Valid` is about what only this end changes. */
    ghost predicate Waiting(all: seq<Message>)
      reads this, Footprint()
    {
      && |delivered| <= |all| && delivered == all[..|delivered|] && Sized()
      && (newMsg != null ==> newMsg.Ready(maxMsgSize) && (newMsg.bufferSize > 0 || newMsg.got == []))
    }

    lemma SizedIs()
      ensures Sized() <==>
              |sizes| == |delivered| && forall i :: 0 <= i < |sizes| ==> sizes[i] == |delivered[i].data| - 4
    {
    }

    lemma ValidIs(all: seq<Message>)
      requires Valid(all)
      ensures Follows(all, |delivered|, Got(), handle.wire, handle.taken) && handle.taken <= |handle.wire|
      ensures Waiting(all)
      ensures delivered <= all && AllSendable(all) && Sized()
      ensures newMsg != null ==>
              newMsg in Footprint() && newMsg.header in Footprint() && IPCMessage.IfAny(newMsg.data) <= Footprint()
    {
    }

    lemma StillWaiting(all: seq<Message>, more: seq<Message>)
      requires Waiting(all) && all <= more
      ensures Waiting(more)
    {
    }

    lemma IsValid(all: seq<Message>)
      requires Follows(all, |delivered|, Got(), handle.wire, handle.taken) && handle.taken <= |handle.wire|
      requires Waiting(all)
      ensures Valid(all)
    {
    }

    method GetNextMsg(ghost all: seq<Message>) returns (r: int)
      requires Valid(all) && forall m <- all :: |m.data| <= maxMsgSize
      modifies this`newMsg, this`delivered, this`sizes, Footprint(), handle`taken, handle`answers
      ensures Valid(all) && old(delivered) <= delivered && old(handle.taken) <= handle.taken
      ensures r == 0 || r == -1 || r == -2
      ensures r == 0 ==> |delivered| == |old(delivered)| + 1
      ensures r != 0 ==> old(handle.answers) < handle.answers && (r == -2 <==> handle.Last().Failed?)
      ensures fresh(Footprint() - old(Footprint()))
    {
      hide Parsed, BodySize, Int32, Follows;
      if newMsg == null {
        newMsg := new IPCMessage();
      }
      ghost var got, taken := newMsg.got, handle.taken;
      r := newMsg.Read(handle, maxMsgSize);
      FollowsOn(all, |delivered|, got, handle.wire, taken, handle.taken);
      if |newMsg.got| >= HEADER {
        NextMessage(all, |delivered|, newMsg.got, handle.wire, handle.taken, maxMsgSize);
      }
      if r == 0 {
        Deliver(all);
      }
    }

    /** The message is whole: it is handed on. */
    method Deliver(ghost all: seq<Message>)
      requires newMsg != null && newMsg.data != null && Sized() && handle.taken <= |handle.wire|
      requires |delivered| < |all| && delivered == all[..|delivered|]
      requires all[|delivered|] == Message(newMsg.kind, newMsg.data[..]) && newMsg.size == newMsg.data.Length - 4
      requires Follows(all, |delivered| + 1, [], handle.wire, handle.taken)
      modifies this`newMsg, this`delivered, this`sizes
      ensures Valid(all) && newMsg == null && old(delivered) <= delivered && |delivered| == |old(delivered)| + 1
    {
      hide Follows;
      delivered := delivered + [Message(newMsg.kind, newMsg.data[..])];
      sizes := sizes + [newMsg.size];
      newMsg := null;
    }

    /** When all that was sent has been read, all of it has been delivered. */
    lemma AllDelivered(all: seq<Message>)
      requires Valid(all) && handle.wire == Images(all) && handle.taken == |handle.wire|
      requires forall m <- all :: |m.data| <= maxMsgSize
      ensures delivered == all
    {
      if |delivered| < |all| {
        WholeMessage(all, |delivered|, Got());
        if newMsg != null && newMsg.bufferSize > 0 {
          newMsg.Unfinished(maxMsgSize);
          NextMessage(all, |delivered|, Got(), handle.wire, handle.taken, maxMsgSize);
        }
        assert false;
      }
    }
  }

  // ---- both ends together

  lemma FollowsWire(all: seq<Message>, n: nat, got: seq<Byte>, wire: seq<Byte>, taken: nat, wire': seq<Byte>)
    requires Follows(all, n, got, wire, taken) && wire <= wire' && wire' <= Images(all)
    ensures Follows(all, n, got, wire', taken)
  {
  }

  /** The ends share a connection and nothing else, and the reading end follows the sending one. */
  ghost predicate Joined(out: Outgoing, into: Incoming)
    reads out, out.handle`wire, out.msgQueue, out.Headers(), out.Datas(), into, into.Footprint(), into.handle
  {
    && out.handle == into.handle && out.Valid() && into.Valid(out.all)
    && into.Footprint() + {into} !! out.Footprint() + {out} && out.handle !in into.Footprint() + out.Footprint()
  }

  /** One end takes its turn: what has been delivered stays the beginning of what was sent, and in the end is all of
      it. */
  method TakeTurn(out: Outgoing, into: Incoming, send: bool)
    requires Joined(out, into) && forall m <- out.all :: |m.data| <= into.maxMsgSize
    modifies out`msgQueue, out`done, out.Footprint(), out.handle`wire, out.handle`answers
    modifies into`newMsg, into`delivered, into`sizes, into.Footprint(), into.handle`taken, into.handle`answers
    ensures Joined(out, into) && out.all == old(out.all)
    ensures fresh(into.Footprint() - old(into.Footprint())) && out.Footprint() <= old(out.Footprint())
    ensures old(into.delivered) <= into.delivered <= out.all
    ensures send && old(out.msgQueue) != [] ==> old(out.handle.answers) < out.handle.answers
    ensures !send ==> old(into.handle.answers) < into.handle.answers || |old(into.delivered)| < |into.delivered|
    ensures out.msgQueue == [] && into.handle.taken == |into.handle.wire| ==> into.delivered == out.all
  {
    hide Outgoing.Valid, Incoming.Valid, Outgoing.Footprint;
    if send {
      SendBeside(out, into);
    } else {
      ReceiveBeside(out, into);
    }
    into.ValidIs(out.all);
    out.AllOut();
    if out.msgQueue == [] && into.handle.taken == |into.handle.wire| {
      into.AllDelivered(out.all);
    }
  }

  /** A message is sent while others may be under way. */
  method AddBeside(out: Outgoing, into: Incoming, p: Payload)
    requires Joined(out, into) && IsInt32(p.kind) && PaddedSize(|p.data|) < TWO31
    modifies out`msgQueue, out`all
    ensures Joined(out, into) && fresh(out.Footprint() - old(out.Footprint())) && into.delivered == old(into.delivered)
    ensures |out.all| == |old(out.all)| + 1 && old(out.all) < out.all && Carries(out.all[|out.all| - 1], p)
  {
    hide Outgoing.Valid, Incoming.Valid, Outgoing.Footprint, Follows, Incoming.Got, Incoming.Waiting;
    into.ValidIs(out.all);
    ghost var all := out.all;
    out.Send(p);
    FollowsMore(all, out.all[|all|], |into.delivered|, into.Got(), into.handle.wire, into.handle.taken);
    into.StillWaiting(all, out.all);
    into.IsValid(out.all);
  }

  method SendBeside(out: Outgoing, into: Incoming)
    requires Joined(out, into)
    modifies out`msgQueue, out`done, out.Footprint(), out.handle`wire, out.handle`answers
    ensures Joined(out, into) && out.all == old(out.all) && into.delivered == old(into.delivered)
    ensures out.Footprint() <= old(out.Footprint()) && into.newMsg == old(into.newMsg)
    ensures old(out.msgQueue) != [] ==> old(out.handle.answers) < out.handle.answers
  {
    hide Outgoing.Valid, Incoming.Valid, Incoming.Footprint, Outgoing.Footprint, Follows, Incoming.Got,
        Incoming.Waiting;
    into.ValidIs(out.all);
    ghost var wire, got, room := out.handle.wire, into.Got(), into.Footprint();
    var r := out.SendNextMsg();
    assert into.Got() == got && into.Footprint() == room;
    out.WireIsPrefix();
    FollowsWire(out.all, |into.delivered|, into.Got(), wire, into.handle.taken, out.handle.wire);
    into.IsValid(out.all);
  }

  method ReceiveBeside(out: Outgoing, into: Incoming)
    requires Joined(out, into)
    requires forall m <- out.all :: |m.data| <= into.maxMsgSize
    modifies into`newMsg, into`delivered, into`sizes, into.Footprint(), into.handle`taken, into.handle`answers
    ensures Joined(out, into) && out.all == old(out.all) && old(into.delivered) <= into.delivered
    ensures fresh(into.Footprint() - old(into.Footprint())) && out.Footprint() == old(out.Footprint())
    ensures old(into.handle.answers) < into.handle.answers || |old(into.delivered)| < |into.delivered|
  {
    hide Outgoing.Valid, Incoming.Valid, Incoming.Footprint, Follows, Incoming.Got, Incoming.Waiting;
    out.AllHere();
    var r := into.GetNextMsg(out.all);
  }

  // ---- whole conversations

  /** What happens: a message is given to send, or one of the ends takes its turn. */
  datatype Act = Give(payload: Payload) | Turn(send: bool)

  function Given(acts: seq<Act>): seq<Payload> {
    if acts == [] then [] else
      var last := acts[|acts| - 1];
      Given(acts[..|acts| - 1]) + if last.Give? then [last.payload] else []
  }

  predicate Deliverable(p: Payload, maxMsgSize: int) {
    IsInt32(p.kind) && PaddedSize(|p.data|) < TWO31 && PaddedSize(|p.data|) <= maxMsgSize
  }

  /** What was given is what came: the same type, the same bytes in front, and as the size that of the payload rounded
      up to a multiple of 4, or -4 for an empty one. */
  predicate Arrived(m: Message, size: int, p: Payload) {
    && m.kind == p.kind && |p.data| <= |m.data| && m.data[..|p.data|] == p.data
    && size == if p.data == [] then -4 else (|p.data| + 3) / 4 * 4
  }

  lemma CarriedArrives(m: Message, p: Payload)
    requires Carries(m, p)
    ensures Arrived(m, |m.data| - 4, p)
  {
    ReportedSize(|p.data|);
  }

  lemma CarriedFits(m: Message, p: Payload, maxMsgSize: int)
    requires Carries(m, p) && Deliverable(p, maxMsgSize)
    ensures |m.data| <= maxMsgSize
  {
  }

  /** One thing happens. */
  method Perform(out: Outgoing, into: Incoming, act: Act)
    requires Joined(out, into) && (forall m <- out.all :: |m.data| <= into.maxMsgSize)
    requires act.Give? ==> Deliverable(act.payload, into.maxMsgSize)
    modifies out`msgQueue, out`done, out`all, out.Footprint(), out.handle`wire, out.handle`answers
    modifies into`newMsg, into`delivered, into`sizes, into.Footprint(), into.handle`taken, into.handle`answers
    ensures Joined(out, into) && forall m <- out.all :: |m.data| <= into.maxMsgSize
    ensures fresh(into.Footprint() - old(into.Footprint())) && fresh(out.Footprint() - old(out.Footprint()))
    ensures if act.Give? then |out.all| == |old(out.all)| + 1 && old(out.all) < out.all
            && Carries(out.all[|out.all| - 1], act.payload)
            else out.all == old(out.all)
  {
    hide Outgoing.Valid, Incoming.Valid, Outgoing.Footprint, Carries, PaddedSize;
    match act
    case Give(p) =>
      AddBeside(out, into, p);
      CarriedFits(out.all[|out.all| - 1], p, into.maxMsgSize);
    case Turn(send) =>
      TakeTurn(out, into, send);
  }

  /** What was sent, from the `n`-th message on, is what was given. */
  ghost predicate AllCarry(all: seq<Message>, n: nat, given: seq<Payload>) {
    |all| == n + |given| && forall i :: 0 <= i < |given| ==> Carries(all[n + i], given[i])
  }

  /** All of it happens, one after the other. */
  method PerformAll(out: Outgoing, into: Incoming, acts: seq<Act>)
    requires Joined(out, into) && (forall m <- out.all :: |m.data| <= into.maxMsgSize)
    requires forall i :: 0 <= i < |acts| && acts[i].Give? ==> Deliverable(acts[i].payload, into.maxMsgSize)
    modifies out`msgQueue, out`done, out`all, out.Footprint(), out.handle`wire, out.handle`answers
    modifies into`newMsg, into`delivered, into`sizes, into.Footprint(), into.handle`taken, into.handle`answers
    ensures Joined(out, into) && forall m <- out.all :: |m.data| <= into.maxMsgSize
    ensures forall o <- out.Footprint() :: o in old(out.Footprint()) || fresh(o)
    ensures forall o <- into.Footprint() :: o in old(into.Footprint()) || fresh(o)
    ensures old(out.all) <= out.all && AllCarry(out.all, |old(out.all)|, Given(acts))
    decreases |acts|
  {
    hide Outgoing.Valid, Incoming.Valid, Incoming.Footprint, Outgoing.Footprint, Carries, Deliverable, Joined;
    if acts != [] {
      var last := |acts| - 1;
      PerformAll(out, into, acts[..last]);
      label midway:
      ghost var mine, theirs := out.Footprint(), into.Footprint();
      Perform(out, into, acts[last]);
      forall o | o in out.Footprint()
        ensures o in old(out.Footprint()) || fresh(o)
      {
        assert o !in mine ==> o in out.Footprint() - mine && fresh@midway(o);
      }
      forall o | o in into.Footprint()
        ensures o in old(into.Footprint()) || fresh(o)
      {
        assert o !in theirs ==> o in into.Footprint() - theirs && fresh@midway(o);
      }
    }
  }

  lemma JoinedIs(out: Outgoing, into: Incoming)
    requires Joined(out, into)
    ensures out.handle == into.handle && out.Valid() && into.Valid(out.all)
  {
  }

  lemma StartApart(out: Outgoing, into: Incoming)
    requires out.handle == into.handle && out.Valid() && into.Valid(out.all) && out.msgQueue == []
    requires into.newMsg == null
    ensures Joined(out, into) && out.Footprint() == {} && into.Footprint() == {}
  {
  }

  /** Of any messages, given at any time, in any order of turns and whatever pieces the socket takes and gives: those
      that have come so far are the first ones that were given, each as it was given; and when nothing waits or is under
      way any more, they are all of them. */
  method Converse(acts: seq<Act>, maxMsgSize: int) returns (out: Outgoing, into: Incoming)
    requires forall i :: 0 <= i < |acts| && acts[i].Give? ==> Deliverable(acts[i].payload, maxMsgSize)
    ensures |into.delivered| == |into.sizes| <= |Given(acts)|
    ensures forall i :: 0 <= i < |into.delivered| ==> Arrived(into.delivered[i], into.sizes[i], Given(acts)[i])
    ensures out.msgQueue == [] && into.handle.taken == |into.handle.wire| ==> |into.delivered| == |Given(acts)|
  {
    hide Outgoing.Valid, Incoming.Valid, Incoming.Footprint, Outgoing.Footprint, Carries, Arrived, Deliverable, Joined,
        Given, AllCarry, Incoming.Sized, Follows;
    var handle := new Socket();
    out := new Outgoing(handle);
    into := new Incoming(handle, maxMsgSize);
    StartApart(out, into);
    PerformAll(out, into, acts);
    JoinedIs(out, into);
    into.ValidIs(out.all);
    out.AllOut();
    if out.msgQueue == [] && into.handle.taken == |into.handle.wire| {
      into.AllDelivered(out.all);
    }
    into.SizedIs();
    AllArrive(out.all, Given(acts), into.delivered, into.sizes);
  }

  lemma AllArrive(all: seq<Message>, given: seq<Payload>, delivered: seq<Message>, sizes: seq<int>)
    requires AllCarry(all, 0, given) && delivered <= all && |sizes| == |delivered|
    requires forall i :: 0 <= i < |sizes| ==> sizes[i] == |delivered[i].data| - 4
    ensures |delivered| <= |given| && (delivered == all ==> |delivered| == |given|)
    ensures forall i :: 0 <= i < |delivered| ==> Arrived(delivered[i], sizes[i], given[i])
  {
    hide Carries, Arrived;
    forall i | 0 <= i < |delivered|
      ensures Arrived(delivered[i], sizes[i], given[i])
    {
      CarriedArrives(all[0 + i], given[i]);
    }
  }
}
