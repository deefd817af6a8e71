/** The server loop (global/ipcserver.cpp) and the table of polled handles (global/ipcpollmgr.cpp). What the sockets
    and poll() answer are parameters. */
module Servers {
  import opened LinkedLists
  import opened ClientLife

  const MAX_HANDLE := 5000

  class IPCClient {
    var handle: int
    var isDead: bool
    /** Its memory is freed; that is for the pool to know, the code does not ask. */
    var isDeleted: bool

    constructor (handle: int)
      ensures this.handle == handle && !isDead && !isDeleted
    {
      this.handle, isDead, isDeleted := handle, false, false;
    }
  }

  class IPCPollMgr {
    const clients: array<IPCClient?>
    var maxHandle: int

    constructor ()
      ensures Valid() && fresh(clients) && forall h :: 0 <= h < MAX_HANDLE ==> clients[h] == null
    {
      clients := new IPCClient?[MAX_HANDLE](_ => null);
      maxHandle := 0;
    }

    /** No registered handle is above `maxHandle`. */
    ghost predicate Valid()
      reads this, clients
    {
      && clients.Length == MAX_HANDLE && 0 <= maxHandle < MAX_HANDLE
      && forall h :: 0 <= h < MAX_HANDLE && clients[h] != null ==> h <= maxHandle
    }

    method AddClient(client: IPCClient)
      requires Valid() && 0 <= client.handle < MAX_HANDLE
      modifies this`maxHandle, clients
      ensures Valid() && clients[..] == old(clients[..])[client.handle := client]
    {
      var handle := client.handle;
      clients[handle] := client;
      if handle > maxHandle {
        maxHandle := handle;
      }
    }

    method DelClient(client: IPCClient)
      requires Valid() && 0 <= client.handle < MAX_HANDLE
      modifies this`maxHandle, clients
      ensures Valid() && clients[..] == old(clients[..])[client.handle := null]
    {
      var handle := client.handle;
      clients[handle] := null;
      if handle == maxHandle {
        maxHandle := maxHandle - 1;
        if maxHandle < 0 {
          maxHandle := 0;
        }
      }
    }
  }

  /** What poll() says of a handle. */
  datatype Events = Quiet | Incoming | Invalid

  class IPCServer {
    const pollMgr: IPCPollMgr
    var connections: int
    var clientList: seq<IPCClient>
    var incomingClientList: seq<IPCClient>
    var deadClientList: seq<IPCClient>
    var msgQueue: seq<Message<IPCClient>>
    ghost var known: set<IPCClient>
    ghost var fd: map<IPCClient, int>
    ghost var deleted: set<IPCClient>
    ghost var done: seq<Message<IPCClient>>

    ghost function Log(): Book<IPCClient>
      reads this
    {
      Book(known, fd, connections, deleted, done, msgQueue, clientList)
    }

    /** The handle of a client is what the book says, -1 once it is closed, and so is whether it is deleted. */
    ghost predicate Handled(c: IPCClient)
      reads this`fd, this`deleted, c`handle, c`isDeleted
    {
      c.handle == (if c in fd then fd[c] else -1) && (c.isDeleted <==> c in deleted)
    }

    /** The table has open clients at their handles, and all those whose connection has been dispatched. */
    ghost predicate Registered(h: int)
      requires 0 <= h < pollMgr.clients.Length
      reads this`fd, this`clientList, pollMgr.clients
    {
      pollMgr.clients[h] != null ==>
        pollMgr.clients[h] in fd && fd[pollMgr.clients[h]] == h && pollMgr.clients[h] in clientList
    }

    ghost predicate Polled(c: IPCClient)
      reads this`fd, this`clientList, pollMgr.clients
    {
      c in clientList && c in fd && 0 <= fd[c] < pollMgr.clients.Length ==> pollMgr.clients[fd[c]] == c
    }

    ghost predicate Valid()
      reads this, pollMgr, pollMgr.clients, known`handle, known`isDeleted
    {
      Inv(Log(), MAX_HANDLE) && Wired() && Lists()
    }

    constructor (pollMgr: IPCPollMgr)
      requires pollMgr.Valid() && forall h :: 0 <= h < MAX_HANDLE ==> pollMgr.clients[h] == null
      ensures Valid() && this.pollMgr == pollMgr && connections == 0 == |fd| && done == [] && known == {}
      ensures clientList == [] && incomingClientList == [] && deadClientList == [] && msgQueue == []
    {
      this.pollMgr := pollMgr;
      connections, clientList, incomingClientList, deadClientList, msgQueue := 0, [], [], [], [];
      known, fd, deleted, done := {}, map[], {}, [];
    }

    /** A new connection: the system gives it a handle that no open client has. */
    method WaitForConnection(handle: int) returns (client: IPCClient)
      requires Valid() && 0 <= handle < MAX_HANDLE && handle !in fd.Values
      modifies this`connections, this`msgQueue, this`known, this`fd
      ensures Valid() && fresh(client) && Log() == Accepted(old(Log()), client, handle) && done == old(done)
      ensures connections == old(connections) + 1 && fd == old(fd)[client := handle] && client.handle == handle
      ensures msgQueue == old(msgQueue) + [Message(Connected, client, true)]
    {
      hide Inv, ClientLife.Log;
      client := new IPCClient(handle);
      InvIs(Log(), MAX_HANDLE);
      AcceptedKeeps(Log(), client, handle, MAX_HANDLE);
      connections := connections + 1;
      msgQueue := msgQueue + [Message(Connected, client, true)];
      known := known + {client};
      fd := fd[client := handle];
      assert Inv(Log(), MAX_HANDLE);
      assert pollMgr.Valid();
      forall c <- known
        ensures Handled(c) && Polled(c)
      {
        assert c != client ==> old(Handled(c)) && old(Polled(c));
      }
      forall h | 0 <= h < MAX_HANDLE
        ensures Registered(h)
      {
        assert old(Registered(h));
      }
    }

    /** The connection is over: counted down, said, and closed. */
    method Drop(client: IPCClient, hacked: bool)
      requires Valid() && client in fd && client in clientList
      modifies this`connections, this`msgQueue, this`fd, pollMgr`maxHandle, pollMgr.clients, client`handle
      ensures Valid() && Log() == Dropped(old(Log()), client, hacked)
      ensures connections == old(connections) - 1 && fd == old(fd) - {client} && client.handle == -1
      ensures msgQueue == old(msgQueue) + (if hacked then [Message(Hacked, client, true)] else [])
                          + [Message(HungUp, client, true)]
    {
      hide Inv, IPCPollMgr.Valid, ClientLife.Log, Wired, Lists;
      ghost var b := Log();
      InvIs(b, MAX_HANDLE);
      DroppedKeeps(b, client, hacked, MAX_HANDLE);
      connections := connections - 1;
      if hacked {
        msgQueue := msgQueue + [Message(Hacked, client, true)];
      }
      msgQueue := msgQueue + [Message(HungUp, client, true)];
      Disconnect(client);
    }

    /** The table and the handles agree about who is open. */
    ghost predicate Wired()
      reads this`known, this`fd, this`deleted, this`clientList, pollMgr, pollMgr.clients, known`handle, known`isDeleted
    {
      && pollMgr.Valid()
      && (forall c <- known :: Handled(c))
      && (forall h :: 0 <= h < MAX_HANDLE ==> Registered(h))
      && (forall c <- known :: Polled(c))
    }

    /** Only listed clients are on the lists of poll(), and none that is deleted. */
    ghost predicate Lists()
      reads this`clientList, this`incomingClientList, this`deadClientList, this`deleted
    {
      && Distinct(incomingClientList) && (forall c <- incomingClientList :: c in clientList && c !in deleted)
      && Distinct(deadClientList) && (forall c <- deadClientList :: c in clientList && c !in deleted)
    }

    method Disconnect(client: IPCClient)
      requires Wired() && client in fd && fd.Keys <= known && 0 <= fd[client] < MAX_HANDLE
      requires forall c, d :: c in fd && d in fd && fd[c] == fd[d] ==> c == d
      modifies this`fd, pollMgr`maxHandle, pollMgr.clients, client`handle
      ensures Wired() && fd == old(fd) - {client} && client.handle == -1
    {
      assert Handled(client);
      Close(client);
      fd := fd - {client};
      forall c <- known
        ensures Handled(c) && Polled(c)
      {
        assert old(Handled(c)) && old(Polled(c));
      }
      forall h | 0 <= h < MAX_HANDLE
        ensures Registered(h)
      {
        assert old(Registered(h)) && pollMgr.clients[h] == pollMgr.clients[..][h];
      }
    }

    method Close(client: IPCClient)
      requires pollMgr.Valid() && client.handle < MAX_HANDLE && client.handle >= -1
      modifies pollMgr`maxHandle, pollMgr.clients, client`handle
      ensures pollMgr.Valid() && client.handle == -1
      ensures pollMgr.clients[..] == if old(client.handle) == -1 then old(pollMgr.clients[..])
                                     else old(pollMgr.clients[..])[old(client.handle) := null]
    {
      if client.handle != -1 {
        pollMgr.DelClient(client);
        client.handle := -1;
      }
    }

    /** The first message of the queue is handled and deleted, whoever made it. A client that connects is listed and
        polled; one that hangs up is taken from all lists and deleted. The first fails for a client that is not open any
        more, the second for one that is deleted already. */
    method HandleMessage() returns (ok: bool)
      requires Valid() && msgQueue != []
      modifies this`clientList, this`incomingClientList, this`deadClientList, this`msgQueue, this`done
      modifies this`fd, this`deleted, pollMgr`maxHandle, pollMgr.clients, known`handle, known`isDeleted
      ensures Valid() && (ok <==> !Faulty(old(Log())))
      ensures Log() == if ok then ClientLife.Handled(old(Log())) else old(Log())
      ensures ok ==>
              && done == old(done) + [old(msgQueue)[0]] && msgQueue == old(msgQueue)[1..]
              && connections == old(connections)
              && match old(msgQueue)[0].kind
                 case Connected => fd == old(fd) && clientList == old(clientList) + [old(msgQueue)[0].from]
                 case HungUp =>
                   fd == old(fd) - {old(msgQueue)[0].from} && clientList == Del(old(clientList), old(msgQueue)[0].from)
                 case _ => fd == old(fd) && clientList == old(clientList)
      ensures var gone := if ok && old(msgQueue[0]).kind.HungUp? then {old(msgQueue[0]).from} else {};
              && (forall c <- gone :: c !in fd)
              && incomingClientList == Minus(old(incomingClientList), gone)
                 && deadClientList == Minus(old(deadClientList), gone)
    {
      hide Inv, Distinct, Minus, Wired, Lists;
      ghost var b := Log();
      InvIs(b, MAX_HANDLE);
      var message := msgQueue[0];
      assert message in msgQueue;
      var client := message.from;
      MinusNone(incomingClientList, {});
      MinusNone(deadClientList, {});
      KnownIs(client);
      if message.kind.Connected? {
        if client.isDeleted || client.handle == -1 {
          return false;
        }
        ListNew(client);
      } else if message.kind.HungUp? {
        if client.isDeleted {
          return false;
        }
        Unlist(client);
      }
      HandledKeeps(b, MAX_HANDLE);
      done := done + [message];
      msgQueue := msgQueue[1..];
      ok := true;
    }

    /** What a client's own fields say of it. */
    lemma KnownIs(c: IPCClient)
      requires Valid() && c in known
      ensures (c in fd <==> c.handle != -1) && (c in fd ==> c.handle == fd[c] && 0 <= fd[c] < MAX_HANDLE)
      ensures c.isDeleted <==> c in deleted
      ensures c in fd ==> c !in deleted
    {
      InvIs(Log(), MAX_HANDLE);
      assert Handled(c);
    }

    method ListNew(client: IPCClient)
      requires Wired() && Lists() && client in known && client in fd && 0 <= fd[client] < MAX_HANDLE
      requires forall c, d :: c in fd && d in fd && fd[c] == fd[d] ==> c == d
      modifies this`clientList, pollMgr`maxHandle, pollMgr.clients
      ensures Wired() && Lists() && clientList == old(clientList) + [client]
    {
      assert Handled(client);
      clientList := clientList + [client];
      pollMgr.AddClient(client);
      forall c <- known
        ensures Polled(c)
      {
        assert old(Polled(c));
      }
      forall h | 0 <= h < MAX_HANDLE
        ensures Registered(h)
      {
        assert old(Registered(h)) && pollMgr.clients[h] == pollMgr.clients[..][h];
      }
    }

    /** Off the lists, and deleted, which closes it if it is open. */
    method Unlist(client: IPCClient)
      requires Wired() && Lists() && client in known && client !in deleted && fd.Keys <= known
      requires client in fd ==> 0 <= fd[client] < MAX_HANDLE
      requires forall c, d :: c in fd && d in fd && fd[c] == fd[d] ==> c == d
      modifies this`clientList, this`incomingClientList, this`deadClientList
      modifies this`fd, this`deleted, pollMgr`maxHandle, pollMgr.clients, client`handle, client`isDeleted
      ensures Wired() && Lists() && clientList == Del(old(clientList), client)
      ensures incomingClientList == Minus(old(incomingClientList), {client})
      ensures deadClientList == Minus(old(deadClientList), {client})
      ensures fd == old(fd) - {client} && deleted == old(deleted) + {client}
    {
      hide Minus, Distinct, Del;
      assert Handled(client);
      TakeOff(client);
      Close(client);
      client.isDeleted := true;
      fd, deleted := fd - {client}, deleted + {client};
      forall c <- known
        ensures Handled(c) && Polled(c)
      {
        assert old(Handled(c)) && old(Polled(c));
      }
      forall h | 0 <= h < MAX_HANDLE
        ensures Registered(h)
      {
        assert old(Registered(h)) && pollMgr.clients[h] == pollMgr.clients[..][h];
      }
    }

    method TakeOff(client: IPCClient)
      requires Lists()
      modifies this`clientList, this`incomingClientList, this`deadClientList
      ensures Lists() && clientList == Del(old(clientList), client)
      ensures forall c <- old(clientList) :: c != client ==> c in clientList
      ensures forall c <- clientList :: c in old(clientList)
      ensures incomingClientList == Minus(old(incomingClientList), {client}) && client !in incomingClientList
      ensures deadClientList == Minus(old(deadClientList), {client}) && client !in deadClientList
    {
      hide Minus, Distinct;
      DelIsMinus(incomingClientList, client);
      DelIsMinus(deadClientList, client);
      MinusDistinct(incomingClientList, {client});
      MinusDistinct(deadClientList, {client});
      forall c
        ensures c in Del(clientList, client) ==> c in clientList
        ensures c in clientList && c != client ==> c in Del(clientList, client)
      {
        DelKeeps(clientList, client, c);
      }
      clientList := Del(clientList, client);
      incomingClientList := Del(incomingClientList, client);
      deadClientList := Del(deadClientList, client);
    }

    /** Every message of the queue is handled, in order, unless one cannot be. Whoever it takes off the lists is
        closed. */
    method DispatchMessages() returns (ok: bool, ghost gone: set<IPCClient>)
      requires Valid()
      modifies this`clientList, this`incomingClientList, this`deadClientList, this`msgQueue, this`done
      modifies this`fd, this`deleted, pollMgr`maxHandle, pollMgr.clients, known`handle, known`isDeleted
      ensures Valid() && Log() == AllHandled(old(Log())) && (ok <==> msgQueue == [])
      ensures old(done) <= done && known == old(known)
      ensures forall c <- gone :: c !in fd
      ensures incomingClientList == Minus(old(incomingClientList), gone)
      ensures deadClientList == Minus(old(deadClientList), gone)
    {
      hide Inv, Wired, Lists, Minus, ClientLife.Handled, Faulty;
      ok, gone := true, {};
      MinusNone(incomingClientList, {});
      MinusNone(deadClientList, {});
      while msgQueue != []
        invariant Valid() && AllHandled(Log()) == AllHandled(old(Log()))
        invariant old(done) <= done && known == old(known)
        invariant forall c <- gone :: c !in fd
        invariant incomingClientList == Minus(old(incomingClientList), gone)
        invariant deadClientList == Minus(old(deadClientList), gone)
        decreases |msgQueue|
      {
        ghost var more := if msgQueue[0].kind.HungUp? then {msgQueue[0].from} else {};
        MinusTwice(old(incomingClientList), gone, more);
        MinusTwice(old(deadClientList), gone, more);
        HandledIs(Log());
        MinusNone(incomingClientList, {});
        MinusNone(deadClientList, {});
        ok := HandleMessage();
        if !ok {
          return;
        }
        gone := gone + more;
      }
    }

    lemma HandledIs(b: Book<IPCClient>)
      requires b.queue != []
      ensures var n := ClientLife.Handled(b);
              n.done == b.done + [b.queue[0]] && n.queue == b.queue[1..] && n.fd.Keys <= b.fd.Keys && n.known == b.known
    {
    }

    /** Which clients have something to read or are over, by handle. If poll() has nothing to say, or fails, nobody is
        looked at, even those who are marked dead. */
    method Poll(count: int, revents: seq<Events>)
      requires Valid() && incomingClientList == [] == deadClientList && |revents| == MAX_HANDLE
      modifies this`incomingClientList, this`deadClientList
      ensures Valid()
      ensures count < 1 ==> incomingClientList == [] == deadClientList
      ensures count >= 1 ==> forall c <- clientList :: c in fd && 0 <= fd[c] < MAX_HANDLE ==>
                (c in deadClientList <==> revents[fd[c]].Invalid? || c.isDead)
                && (c in incomingClientList <==> revents[fd[c]].Incoming? && !c.isDead)
    {
      hide Inv;
      if count < 1 {
        return;
      }
      InvIs(Log(), MAX_HANDLE);
      var i := 0;
      while i <= pollMgr.maxHandle
        invariant 0 <= i <= pollMgr.maxHandle + 1 && Lists()
        invariant forall c <- incomingClientList + deadClientList :: c in fd && fd[c] < i
        invariant forall h :: 0 <= h < i && pollMgr.clients[h] != null ==> Sorted(pollMgr.clients[h], revents[h])
      {
        var client := pollMgr.clients[i];
        assert Registered(i);
        if client != null {
          if revents[i].Invalid? || client.isDead {
            DistinctAppend(deadClientList, client);
            deadClientList := deadClientList + [client];
          } else if revents[i].Incoming? {
            DistinctAppend(incomingClientList, client);
            incomingClientList := incomingClientList + [client];
          }
        }
        forall h | 0 <= h <= i && pollMgr.clients[h] != null
          ensures Sorted(pollMgr.clients[h], revents[h])
        {
          assert Registered(h);
        }
        i := i + 1;
      }
      forall c <- clientList | c in fd && 0 <= fd[c] < MAX_HANDLE
        ensures Sorted(c, revents[fd[c]])
      {
        InvIs(Log(), MAX_HANDLE);
        assert Polled(c);
      }
    }

    ghost predicate Sorted(c: IPCClient, e: Events)
      reads this`incomingClientList, this`deadClientList, c`isDead
    {
      && (c in deadClientList <==> e.Invalid? || c.isDead)
      && (c in incomingClientList <==> e.Incoming? && !c.isDead)
    }

    /** New connections, each on a handle that was free. */
    method AcceptAll(handles: seq<int>) returns (ghost clients: seq<IPCClient>)
      requires Valid() && Distinct(handles)
      requires forall j :: 0 <= j < |handles| ==> 0 <= handles[j] < MAX_HANDLE && handles[j] !in fd.Values
      modifies this`connections, this`msgQueue, this`known, this`fd
      ensures Valid() && |clients| == |handles| && Log() == AllAccepted(old(Log()), clients, handles)
      ensures done == old(done) && old(known) <= known && fresh(known - old(known))
      ensures Distinct(clients) && forall i :: 0 <= i < |clients| ==> clients[i] !in old(known)
    {
      hide Inv, Wired, Lists, Accepted;
      clients := [];
      var k := 0;
      while k < |handles|
        invariant 0 <= k <= |handles| && Valid() && done == old(done) && old(known) <= known
        invariant fresh(known - old(known))
        invariant Distinct(clients)
        invariant forall i :: 0 <= i < |clients| ==> clients[i] in known && clients[i] !in old(known)
        invariant |clients| == k && Log() == AllAccepted(old(Log()), clients, handles[..k])
        invariant forall j :: k <= j < |handles| ==> handles[j] !in fd.Values
      {
        ghost var b := Log();
        var client := WaitForConnection(handles[k]);
        AcceptedIs(b, client, handles[k]);
        assert handles[..k + 1][..k] == handles[..k];
        assert (clients + [client])[..k] == clients;
        clients := clients + [client];
        assert forall j :: k < j < |handles| ==> handles[j] != handles[k];
        k := k + 1;
      }
      assert handles[..k] == handles;
    }

    lemma AcceptedIs(b: Book<IPCClient>, c: IPCClient, handle: int)
      ensures var n := Accepted(b, c, handle); n.known == b.known + {c} && n.fd == b.fd[c := handle] && n.done == b.done
    {
    }

    /** Everything is sent that the sockets take; where that fails the client is dropped. `broken` are the handles
        where it does. A client of the list that is deleted cannot be looked at. */
    method SendAll(broken: set<int>) returns (ok: bool)
      requires Valid()
      modifies this`connections, this`msgQueue, this`fd, pollMgr`maxHandle, pollMgr.clients, clientList`handle
      ensures Valid() && Log() == AllSent(old(Log()), clientList, broken) && (ok <==> Walkable(old(Log())))
      ensures done == old(done) && known == old(known) && fd.Keys <= old(fd.Keys)
      ensures ok ==> forall c <- old(fd) ::
                if c in clientList && old(fd)[c] in broken
                then c !in fd && Of(msgQueue, c) == Of(old(msgQueue), c) + [Message(HungUp, c, true)]
                else c in fd && fd[c] == old(fd)[c] && Of(msgQueue, c) == Of(old(msgQueue), c)
    {
      hide Inv, Wired, Lists, Dropped, Of;
      ghost var b := Log();
      ValidInv();
      var k := 0;
      while k < |clientList|
        invariant 0 <= k <= |clientList| && Valid() && done == old(done) && known == old(known)
        invariant fd.Keys <= old(fd.Keys) && forall j :: 0 <= j < k ==> clientList[j] !in deleted
        invariant AllSent(Log(), clientList[k..], broken) == AllSent(old(Log()), clientList, broken)
      {
        var client := clientList[k];
        RestIs(clientList, k);
        OpenIs(client);
        if client.isDeleted {
          return false;
        }
        if client.handle != -1 {
          if client.handle in broken {
            DroppedIs(Log(), client, false);
            Drop(client, false);
          }
        }
        k := k + 1;
      }
      ok := true;
      forall c <- b.fd
        ensures if c in clientList && b.fd[c] in broken
                then c !in fd && Of(msgQueue, c) == Of(b.queue, c) + [Message(HungUp, c, true)]
                else c in fd && fd[c] == b.fd[c] && Of(msgQueue, c) == Of(b.queue, c)
      {
        AllSentIs(b, clientList, broken, MAX_HANDLE, c);
      }
    }

    lemma RestIs(s: seq<IPCClient>, k: nat)
      requires k < |s|
      ensures s[k..] != [] && s[k..][0] == s[k] && s[k..][1..] == s[k + 1..]
    {
    }

    lemma DroppedIs(b: Book<IPCClient>, c: IPCClient, hacked: bool)
      ensures var n := Dropped(b, c, hacked);
              && n.done == b.done && n.known == b.known && n.deleted == b.deleted && n.listed == b.listed
              && n.fd == b.fd - {c}
    {
    }

    /** A listed client is open when its handle says so. */
    lemma OpenIs(c: IPCClient)
      requires Valid() && c in clientList
      ensures c in known && (c in fd <==> c.handle != -1) && (c in fd ==> c.handle == fd[c] && 0 <= fd[c] < MAX_HANDLE)
      ensures c.isDeleted <==> c in deleted
    {
      InvIs(Log(), MAX_HANDLE);
      assert Handled(c);
    }

    /** The clients that poll() gave up are dropped, unless they have been already. */
    method DropDead()
      requires Valid()
      modifies this`connections, this`msgQueue, this`fd, this`deadClientList, pollMgr`maxHandle, pollMgr.clients
      modifies deadClientList`handle
      ensures Valid() && Log() == AllDropped(old(Log()), old(deadClientList))
      ensures done == old(done) && known == old(known) && deadClientList == [] && fd.Keys <= old(fd.Keys)
      ensures forall c <- old(deadClientList) :: c !in fd
    {
      hide Inv, Wired, Lists, Dropped;
      var k := 0;
      while k < |deadClientList|
        invariant 0 <= k <= |deadClientList| && Valid() && done == old(done) && known == old(known)
        invariant deadClientList == old(deadClientList) && fd.Keys <= old(fd.Keys)
        invariant AllDropped(Log(), deadClientList[k..]) == AllDropped(old(Log()), deadClientList)
        invariant forall j :: 0 <= j < k ==> deadClientList[j] !in fd
      {
        var client := deadClientList[k];
        assert deadClientList[k..][0] == client && deadClientList[k..][1..] == deadClientList[k + 1..];
        ListsAre(client);
        OpenIs(client);
        if client.handle != -1 {
          DroppedIs(Log(), client, false);
          Drop(client, false);
        }
        k := k + 1;
      }
      ReleaseDead();
    }

    method ReleaseDead()
      requires Valid()
      modifies this`deadClientList
      ensures Valid() && deadClientList == []
    {
      deadClientList := [];
    }

    lemma ListsAre(c: IPCClient)
      requires Valid() && (c in deadClientList || c in incomingClientList)
      ensures c in clientList && c !in deleted
    {
    }

    /** Everything is read that has come; a client with an illegal message, or none to come any more, is dropped.
        `readings` is what comes of reading, by handle. */
    method ReadAll(readings: seq<Reading>)
      requires Valid() && |readings| == MAX_HANDLE
      modifies this`connections, this`msgQueue, this`fd, this`incomingClientList
      modifies pollMgr`maxHandle, pollMgr.clients, incomingClientList`handle
      ensures Valid() && Log() == AllRead(old(Log()), old(incomingClientList), readings)
      ensures done == old(done) && known == old(known) && incomingClientList == []
      ensures deadClientList == old(deadClientList)
    {
      hide Inv, Wired, Lists, Read;
      var k := 0;
      while k < |incomingClientList|
        invariant 0 <= k <= |incomingClientList| && Valid() && done == old(done) && known == old(known)
        invariant incomingClientList == old(incomingClientList)
        invariant AllRead(Log(), incomingClientList[k..], readings) == AllRead(old(Log()), incomingClientList, readings)
      {
        var client := incomingClientList[k];
        assert incomingClientList[k..][0] == client && incomingClientList[k..][1..] == incomingClientList[k + 1..];
        ListsAre(client);
        OpenIs(client);
        if client.handle != -1 {
          ReadFrom(client, readings[client.handle]);
        }
        k := k + 1;
      }
      ReleaseIncoming();
    }

    method ReleaseIncoming()
      requires Valid()
      modifies this`incomingClientList
      ensures Valid() && incomingClientList == []
    {
      incomingClientList := [];
    }

    /** As many messages as there are, of whatever types, then nothing more, an error, or an illegal message. */
    method ReadFrom(client: IPCClient, r: Reading)
      requires Valid() && client in clientList && client in fd
      modifies this`connections, this`msgQueue, this`fd, pollMgr`maxHandle, pollMgr.clients, client`handle
      ensures Valid() && Log() == Read(old(Log()), client, r) && done == old(done) && known == old(known)
    {
      hide Inv, Wired, Lists, Dropped;
      var kinds := r.kinds;
      while true
        invariant Valid() && client in clientList && client in fd && done == old(done) && known == old(known)
        invariant Says(Log(), client, kinds) == Says(old(Log()), client, r.kinds)
        decreases |kinds|
      {
        var nextMsg := if kinds != [] then 0 else if r.ending.NoMore? then -1 else if r.ending.Illegal? then -3
            else -2;
        if nextMsg == -1 {
          return;
        }
        if nextMsg == -3 {
          DroppedIs(Log(), client, true);
          Drop(client, true);
          return;
        } else if nextMsg == -2 {
          DroppedIs(Log(), client, false);
          Drop(client, false);
          return;
        } else if nextMsg == 0 {
          Receive(client, kinds[0]);
          kinds := kinds[1..];
        }
      }
    }

    /** The new message goes on the queue; nobody looks at its type. */
    method Receive(client: IPCClient, kind: Kind)
      requires Valid() && client in fd
      modifies this`msgQueue
      ensures Valid() && Log() == Told(old(Log()), kind, client, false)
      ensures msgQueue == old(msgQueue) + [Message(kind, client, false)]
    {
      hide Inv, Wired, Lists;
      ToldKeeps(Log(), kind, client, false, MAX_HANDLE);
      msgQueue := msgQueue + [Message(kind, client, false)];
    }

    /** One turn of the server, whatever the sockets say. It comes to its end (`ok`), everybody's messages were
        dispatched in order, the last being its hanging up, and the counter counts, exactly if nobody has forged a
        message: nobody had before, and in this turn nobody did who had something to read and was open then. */
    method Doit(handles: seq<int>, broken: set<int>, readings: seq<Reading>)
      returns (ok: bool, ghost clients: seq<IPCClient>)
      requires Valid() && Distinct(handles) && |readings| == MAX_HANDLE
      requires forall j :: 0 <= j < |handles| ==> 0 <= handles[j] < MAX_HANDLE && handles[j] !in fd.Values
      modifies this, pollMgr`maxHandle, pollMgr.clients, known`handle, known`isDeleted
      ensures Valid() && |clients| == |handles|
      ensures Log() == Turn(old(Log()), clients, handles, broken, old(deadClientList), old(incomingClientList),
              readings)
      ensures ok ==> msgQueue == [] && incomingClientList == [] == deadClientList
      ensures old(done) <= done && old(known) <= known && fresh(known - old(known))
      ensures forall i :: 0 <= i < |clients| ==> clients[i] !in old(known)
      ensures ok && Lasting(done) && connections == |fd| <==> Honest(done + msgQueue)
      ensures Honest(done + msgQueue) <==>
              Honest(old(done + msgQueue))
              && PlainIn(BeforeReading(old(Log()), clients, handles, broken, old(deadClientList)),
                         old(incomingClientList), readings)
      ensures old(msgQueue) == [] ==>
              (Honest(done + msgQueue) <==>
                Honest(old(done))
                && NobodyForges(old(Log()), broken, old(deadClientList), old(incomingClientList), readings))
      ensures old(msgQueue) == [] && Honest(done + msgQueue) ==>
              && msgQueue == []
              && (forall c <- old(fd) :: Fared(old(Log()), old(fd)[c], [], broken, old(deadClientList),
                      old(incomingClientList), readings, Log(), c))
              && (forall i :: 0 <= i < |clients| ==> Fared(old(Log()), handles[i],
                      [Message(Connected, clients[i], true)], broken, [], [], readings, Log(), clients[i]))
              && (forall c <- old(known) :: c !in old(fd) ==> Rests(old(Log()), Log(), c))
    {
      hide Inv, Wired, Lists, Lasting, Honest, PlainIn, AllAccepted, AllHandled, Attended, BeforeReading, Minus;
      hide Walkable;
      ghost var b, dead, incoming := Log(), deadClientList, incomingClientList;
      ValidInv();
      ListsIs();
      clients := AcceptAll(handles);
      ghost var gone;
      ok, gone := DispatchMessages();
      ValidInv();
      if ok {
        AllKnown();
        ok := Attend(broken, readings, gone, old(deadClientList), old(incomingClientList));
      }
      ValidInv();
      TurnHonest(b, clients, handles, broken, dead, incoming, readings, MAX_HANDLE);
      TurnSound(b, clients, handles, broken, dead, incoming, readings, MAX_HANDLE);
      if b.queue == [] {
        HowTheyFared(b, clients, handles, broken, dead, incoming, readings, Log());
      }
    }

    lemma ListsIs()
      requires Valid()
      ensures Distinct(incomingClientList) && (forall c <- incomingClientList :: c in clientList)
      ensures forall c <- deadClientList :: c in clientList
    {
    }

    /** Sending, the dead, reading, and the queue again. The clients in `gone` are off both lists of poll(). */
    method Attend(broken: set<int>, readings: seq<Reading>, ghost gone: set<IPCClient>, ghost dead: seq<IPCClient>,
        ghost incoming: seq<IPCClient>) returns (ok: bool)
      requires Valid() && |readings| == MAX_HANDLE && forall c <- gone :: c !in fd
      requires deadClientList == Minus(dead, gone) && incomingClientList == Minus(incoming, gone)
      modifies this, pollMgr`maxHandle, pollMgr.clients, known`handle, known`isDeleted
      ensures Valid() && (ok ==> msgQueue == [] && incomingClientList == [] == deadClientList)
      ensures Log() == Attended(old(Log()), broken, dead, incoming, readings)
      ensures ok <==> Walkable(old(Log())) && msgQueue == []
      ensures old(done) <= done && old(known) == known
    {
      hide Inv, Wired, Lists, Lasting, AllAccepted, AllHandled, AllDropped, AllSent, AllRead, Minus, Walkable;
      AllKnown();
      ok := SendAll(broken);
      if !ok {
        return;
      }
      ClosedNotDropped(Log(), dead, gone);
      AllKnown();
      DropDead();
      ClosedNotRead(Log(), incoming, gone, readings);
      AllKnown();
      ReadAll(readings);
      ghost var empty;
      ok, empty := DispatchMessages();
      MinusEmpty(empty);
    }

    lemma MinusEmpty(xs: set<IPCClient>)
      ensures Minus([], xs) == []
    {
    }

    lemma AllKnown()
      requires Valid()
      ensures forall c <- clientList + incomingClientList + deadClientList :: c in known
    {
      InvIs(Log(), MAX_HANDLE);
    }

    lemma ValidInv()
      requires Valid()
      ensures Inv(Log(), MAX_HANDLE)
    {
    }

    // ---- one turn after the other

    /** Clients are to be thrown out, as `forceLogout` does. */
    method Toss(tossed: set<int>)
      requires Valid()
      modifies clientList`isDead
      ensures Valid() && forall c <- clientList :: c.isDead <==> old(c.isDead) || (!c.isDeleted && c.handle in tossed)
    {
      forall c | c in clientList && !c.isDeleted && c.handle in tossed {
        c.isDead := true;
      }
    }

    /** Between two turns every open client is in the table. */
    lemma InTable(c: IPCClient)
      requires Valid() && msgQueue == [] && c in fd
      ensures pollMgr.clients.Length == MAX_HANDLE
      ensures c in known && 0 <= fd[c] < MAX_HANDLE && pollMgr.clients[fd[c]] == c
    {
      InvIs(Log(), MAX_HANDLE);
      OpenListed(Log(), MAX_HANDLE, c);
      assert Polled(c);
    }

    /** Between two turns: who is open, and where. */
    lemma Standing()
      requires Valid() && msgQueue == []
      ensures pollMgr.Valid() && pollMgr.clients.Length == MAX_HANDLE
      ensures forall c <- fd :: 0 <= fd[c] < MAX_HANDLE && pollMgr.clients[fd[c]] == c && c.handle == fd[c]
      ensures Honest(done + msgQueue) ==>
              && connections == Count(done, Connected) - Count(done, HungUp)
              && forall c :: c in fd <==> Message(Connected, c, true) in done && Message(HungUp, c, true) !in done
    {
      hide Inv, Count, Honest, Lists;
      assert done + msgQueue == done;
      if Honest(done) {
        ClientLife.OpenIs(Log(), MAX_HANDLE);
      }
      forall c <- fd
        ensures 0 <= fd[c] < MAX_HANDLE && pollMgr.clients[fd[c]] == c && c.handle == fd[c]
      {
        InTable(c);
        assert Handled(c);
      }
    }

    lemma ListedKnown()
      requires Valid()
      ensures forall k :: 0 <= k < |clientList| ==> clientList[k] in known
    {
      InvIs(Log(), MAX_HANDLE);
    }

    lemma TableIs()
      requires Valid()
      ensures pollMgr.Valid() && pollMgr.clients.Length == MAX_HANDLE
    {
    }

    /** Who is to be thrown out, and what poll() says of the handles. */
    method Look(round: Round)
      requires Valid() && msgQueue == [] && incomingClientList == [] == deadClientList && round.Whole()
      modifies this`incomingClientList, this`deadClientList, clientList`isDead
      ensures Valid()
      ensures forall c <- fd ::
              && 0 <= fd[c] < MAX_HANDLE
              && (c in deadClientList <==> round.count >= 1 && round.Gives(fd[c], old(c.isDead)))
              && (c in incomingClientList <==>
                    round.count >= 1 && round.revents[fd[c]].Incoming? && !round.Gives(fd[c], old(c.isDead)))
    {
      hide Inv, Wired, Lists, Distinct;
      Standing();
      Toss(round.tossed);
      Poll(round.count, round.revents);
      forall c <- fd
        ensures c in clientList && !c.isDeleted
      {
        ValidInv();
        OpenListed(Log(), MAX_HANDLE, c);
        OpenIs(c);
        InvIs(Log(), MAX_HANDLE);
      }
    }

    /** The handles that are taken are those of the open clients. */
    lemma TakenIs(taken: set<int>)
      requires Valid() && msgQueue == [] && pollMgr.clients.Length == MAX_HANDLE
      requires taken == set h | 0 <= h < MAX_HANDLE && pollMgr.clients[h] != null
      ensures taken == fd.Values
    {
      hide Inv;
      forall c <- fd
        ensures fd[c] in taken
      {
        InTable(c);
      }
      forall h <- taken
        ensures h in fd.Values
      {
        assert Registered(h);
      }
    }

    /** One turn of the loop: what becomes of each client who was open, and of the new ones. Nobody has forged a message
        after it exactly if nobody had before, and nobody did who was looked at, had something to read and was not
        dropped. */
    method TakeTurn(round: Round) returns (ok: bool, ghost clients: seq<IPCClient>)
      requires Valid() && msgQueue == [] && incomingClientList == [] == deadClientList && round.Whole()
      modifies this, pollMgr`maxHandle, pollMgr.clients, known`handle, known`isDeleted, clientList`isDead
      ensures Valid() && (ok ==> msgQueue == [] && incomingClientList == [] == deadClientList)
      ensures old(done) <= done && old(known) <= known && fresh(known - old(known))
      ensures ok && Lasting(done) && connections == |fd| <==> Honest(done + msgQueue)
      ensures Honest(done + msgQueue) <==>
              Honest(old(done)) && forall c <- old(fd) :: round.Reads(old(fd)[c], old(c.isDead)) ==>
                PlainReading(round.readings[old(fd)[c]])
      ensures Honest(old(done)) && PlainRound(round) ==> Honest(done + msgQueue)
      ensures Honest(done + msgQueue) ==>
              && (forall c <- old(fd) :: Treated(round, old(fd)[c], old(c.isDead), old(Log()), Log(), c))
              && |clients| == |Possible(round.handles, old(fd.Values))|
              && (forall i :: 0 <= i < |clients| ==>
                    Arrived(round, Possible(round.handles, old(fd.Values))[i], Log(), clients[i]))
    {
      hide Inv, Wired, Lists, Turn, Lasting, Honest, BeforeReading, Of, PlainIn, NobodyForges, Fared, Rests, Treated;
      hide Arrived, Distinct, Possible, PlainRound, PlainReading, Round.Gives, Round.Cuts, Round.Reads;
      Look(round);
      TableIs();
      var taken := set h | 0 <= h < MAX_HANDLE && pollMgr.clients[h] != null;
      TakenIs(taken);
      var handles := Possible(round.handles, taken);
      forall j | 0 <= j < |handles|
        ensures 0 <= handles[j] < MAX_HANDLE && handles[j] !in fd.Values
      {
        assert handles[j] in handles;
      }
      assert done + msgQueue == old(done);
      ghost var b, dead, incoming := Log(), deadClientList, incomingClientList;
      ListsIs();
      ValidInv();
      ghost var died := set c | c in fd && old(c.isDead);
      ok, clients := Doit(handles, round.broken, round.readings);
      WhoForges(round, b, dead, incoming, died);
      if Honest(done + msgQueue) {
        AllTreated(round, b, dead, incoming, died, Log(), clients, handles);
      }
      PlainReads(round);
    }
  }

  /** What becomes of an open client on handle `h` in a turn: whether it is dropped, and what is said. */
  ghost predicate Treated(round: Round, h: int, wasDead: bool, b: Book<IPCClient>, n: Book<IPCClient>, c: IPCClient)
    requires round.Whole() && 0 <= h < MAX_HANDLE
  {
    var read := round.Reads(h, wasDead);
    && (c in n.fd <==> !round.Cuts(h, wasDead) && (read ==> round.readings[h].ending.NoMore?))
    && (c in n.fd ==> n.fd[c] == h)
    && Of(n.done, c) == Of(b.done, c)
         + if round.Cuts(h, wasDead) then [Message(HungUp, c, true)]
           else if read then ReadOf(c, round.readings[h]) else []
  }

  /** A new client: it connects, and is dropped if it cannot be sent to. */
  ghost predicate Arrived(round: Round, h: int, n: Book<IPCClient>, c: IPCClient) {
    && (c in n.fd <==> h !in round.broken) && (c in n.fd ==> n.fd[c] == h)
    && Of(n.done, c) == [Message(Connected, c, true)]
         + if h in round.broken then [Message(HungUp, c, true)] else []
  }

  lemma TreatedIs(round: Round, h: int, wasDead: bool, b: Book<IPCClient>, dead: seq<IPCClient>,
                  incoming: seq<IPCClient>, n: Book<IPCClient>, c: IPCClient)
    requires round.Whole() && 0 <= h < MAX_HANDLE
    requires c in dead <==> round.count >= 1 && round.Gives(h, wasDead)
    requires c in incoming <==> round.count >= 1 && round.revents[h].Incoming? && !round.Gives(h, wasDead)
    requires Fared(b, h, [], round.broken, dead, incoming, round.readings, n, c)
    ensures Treated(round, h, wasDead, b, n, c)
  {
    hide Of, ReadOf;
  }

  lemma ArrivedIs(round: Round, h: int, b: Book<IPCClient>, n: Book<IPCClient>, c: IPCClient)
    requires Inv(b, MAX_HANDLE) && c !in b.known
    requires Fared(b, h, [Message(Connected, c, true)], round.broken, [], [], round.readings, n, c)
    ensures Arrived(round, h, n, c)
  {
    InvIs(b, MAX_HANDLE);
    NothingYetOf(b, c);
  }

  lemma NothingYetOf(b: Book<IPCClient>, c: IPCClient)
    requires Inv(b, MAX_HANDLE) && c !in b.known
    ensures Of(b.done, c) == []
  {
    forall m <- b.done
      ensures m.from != c
    {
      assert m in ClientLife.Log(b);
    }
    OfUnknown(b.done, c);
  }

  lemma AllTreated(round: Round, b: Book<IPCClient>, dead: seq<IPCClient>, incoming: seq<IPCClient>,
                   died: set<IPCClient>, n: Book<IPCClient>, clients: seq<IPCClient>, handles: seq<int>)
    requires round.Whole() && Inv(b, MAX_HANDLE) && |clients| == |handles|
    requires forall c <- b.fd ::
             && 0 <= b.fd[c] < MAX_HANDLE
             && (c in dead <==> round.count >= 1 && round.Gives(b.fd[c], c in died))
             && (c in incoming <==>
                   round.count >= 1 && round.revents[b.fd[c]].Incoming? && !round.Gives(b.fd[c], c in died))
    requires forall c <- b.fd :: Fared(b, b.fd[c], [], round.broken, dead, incoming, round.readings, n, c)
    requires forall i :: 0 <= i < |clients| ==>
               clients[i] !in b.known
               && Fared(b, handles[i], [Message(Connected, clients[i], true)], round.broken, [], [], round.readings, n,
                        clients[i])
    ensures forall c <- b.fd :: Treated(round, b.fd[c], c in died, b, n, c)
    ensures forall i :: 0 <= i < |clients| ==> Arrived(round, handles[i], n, clients[i])
  {
    hide Inv, Fared, Treated, Arrived, Round.Gives;
    forall c <- b.fd
      ensures Treated(round, b.fd[c], c in died, b, n, c)
    {
      TreatedIs(round, b.fd[c], c in died, b, dead, incoming, n, c);
    }
    forall i | 0 <= i < |clients|
      ensures Arrived(round, handles[i], n, clients[i])
    {
      ArrivedIs(round, handles[i], b, n, clients[i]);
    }
  }

  lemma PlainReads(round: Round)
    requires round.Whole()
    ensures PlainRound(round) ==> forall h :: 0 <= h < MAX_HANDLE ==> PlainReading(round.readings[h])
  {
    assert forall h :: 0 <= h < MAX_HANDLE ==> round.readings[h] in round.readings;
  }

  lemma WhoForges(round: Round, b: Book<IPCClient>, dead: seq<IPCClient>, incoming: seq<IPCClient>,
                  died: set<IPCClient>)
    requires round.Whole() && Inv(b, MAX_HANDLE) && b.queue == []
    requires forall c <- incoming :: c in b.listed
    requires forall c <- b.fd ::
             && 0 <= b.fd[c] < MAX_HANDLE
             && (c in dead <==> round.count >= 1 && round.Gives(b.fd[c], c in died))
             && (c in incoming <==>
                   round.count >= 1 && round.revents[b.fd[c]].Incoming? && !round.Gives(b.fd[c], c in died))
    ensures NobodyForges(b, round.broken, dead, incoming, round.readings) <==>
            forall c <- b.fd :: round.Reads(b.fd[c], c in died) ==> PlainReading(round.readings[b.fd[c]])
  {
    hide Inv;
  }

  /** What a turn makes of everybody, from when the queue is empty. */
  lemma HowTheyFared(b: Book<IPCClient>, clients: seq<IPCClient>, handles: seq<int>, broken: set<int>,
                     dead: seq<IPCClient>, incoming: seq<IPCClient>, readings: seq<Reading>, n: Book<IPCClient>)
    requires Inv(b, MAX_HANDLE) && b.queue == [] && |clients| == |handles| && Distinct(clients) && Distinct(handles)
    requires forall i :: 0 <= i < |clients| ==> clients[i] !in b.known
    requires forall i :: 0 <= i < |handles| ==> 0 <= handles[i] < MAX_HANDLE && handles[i] !in b.fd.Values
    requires Distinct(incoming) && (forall d <- dead :: d in b.listed) && (forall d <- incoming :: d in b.listed)
    requires n == Turn(b, clients, handles, broken, dead, incoming, readings)
    requires Honest(ClientLife.Log(n)) <==>
             Honest(ClientLife.Log(b)) && PlainIn(BeforeReading(b, clients, handles, broken, dead), incoming, readings)
    ensures Honest(n.done + n.queue) <==> Honest(b.done) && NobodyForges(b, broken, dead, incoming, readings)
    ensures Honest(n.done + n.queue) ==>
            && (forall c <- b.fd :: Fared(b, b.fd[c], [], broken, dead, incoming, readings, n, c))
            && (forall i :: 0 <= i < |clients| ==> Fared(b, handles[i], [Message(Connected, clients[i], true)], broken,
                      [], [], readings, n, clients[i]))
            && (forall c <- b.known :: c !in b.fd ==> Rests(b, n, c))
  {
    hide Inv, Honest, PlainIn, BeforeReading, Turn, Fared, Rests, NobodyForges, Distinct;
    assert ClientLife.Log(b) == b.done;
    if Honest(b.done) {
      WhoIsRead(b, clients, handles, broken, dead, incoming, readings, MAX_HANDLE);
      if PlainIn(BeforeReading(b, clients, handles, broken, dead), incoming, readings) {
        forall c
          ensures c in b.fd ==> Fared(b, b.fd[c], [], broken, dead, incoming, readings, n, c)
          ensures forall i :: 0 <= i < |clients| && clients[i] == c ==>
                    Fared(b, handles[i], [Message(Connected, c, true)], broken, [], [], readings, n, c)
          ensures c in b.known && c !in b.fd ==> Rests(b, n, c)
        {
          TurnIs(b, clients, handles, broken, dead, incoming, readings, MAX_HANDLE, c);
        }
      }
    }
  }

  /** What comes from outside in a turn: who is thrown out, what poll() and accept() answer, where sending fails, and
      what there is to read. */
  datatype Round = Round(tossed: set<int>, count: int, revents: seq<Events>, handles: seq<int>, broken: set<int>,
      readings: seq<Reading>)
  {
    predicate Whole() {
      |revents| == MAX_HANDLE == |readings|
    }

    /** The client on handle `h` is given up when it is looked at. */
    predicate Gives(h: int, wasDead: bool)
      requires Whole() && 0 <= h < MAX_HANDLE
    {
      revents[h].Invalid? || wasDead || h in tossed
    }

    /** It is dropped without being read. */
    predicate Cuts(h: int, wasDead: bool)
      requires Whole() && 0 <= h < MAX_HANDLE
    {
      h in broken || (count >= 1 && Gives(h, wasDead))
    }

    predicate Reads(h: int, wasDead: bool)
      requires Whole() && 0 <= h < MAX_HANDLE
    {
      !Cuts(h, wasDead) && count >= 1 && revents[h].Incoming?
    }
  }

  /** The handles of new connections are different ones that are not taken: others the system does not give. */
  function Possible(handles: seq<int>, taken: set<int>): (r: seq<int>)
    ensures Distinct(r) && forall h <- r :: 0 <= h < MAX_HANDLE && h !in taken
    decreases |handles|
  {
    if handles == [] then []
    else if 0 <= handles[0] < MAX_HANDLE && handles[0] !in taken then
      [handles[0]] + Possible(handles[1..], taken + {handles[0]})
    else Possible(handles[1..], taken)
  }

  /** If they are all like that, all of them are taken. */
  lemma {:induction false} AllPossible(handles: seq<int>, taken: set<int>)
    requires Distinct(handles) && forall h <- handles :: 0 <= h < MAX_HANDLE && h !in taken
    ensures Possible(handles, taken) == handles
    decreases |handles|
  {
    if handles != [] {
      forall h <- handles[1..]
        ensures h in handles && h != handles[0]
      {
        var k :| 0 <= k < |handles| - 1 && handles[1..][k] == h;
        assert handles[k + 1] == h;
      }
      AllPossible(handles[1..], taken + {handles[0]});
    }
  }

  predicate PlainRound(round: Round) {
    forall r <- round.readings :: PlainReading(r)
  }

  lemma NothingYet(log: seq<Message<IPCClient>>)
    ensures log == [] ==> Honest(log) && Lasting(log)
  {
  }

  /** The server from its start, over any number of turns, whatever comes from outside. No turn gets stuck, everybody's
      messages are in order, with one connecting first and at most one hanging up last, and the counter counts, exactly
      if no client has forged a message, which is so if nothing that there was to read was forged. Then open are exactly
      the clients who were said to connect and not to hang up. As long as no turn gets stuck, each that is open is in
      the table at its handle. */
  method Serve(rounds: seq<Round>) returns (server: IPCServer, ok: bool)
    requires forall r <- rounds :: r.Whole()
    ensures server.Valid() && server.pollMgr.Valid()
    ensures ok && Lasting(server.done) && server.connections == |server.fd| <==> Honest(server.done + server.msgQueue)
    ensures (forall r <- rounds :: PlainRound(r)) ==> Honest(server.done + server.msgQueue)
    ensures Honest(server.done + server.msgQueue) ==>
            && server.connections == Count(server.done, Connected) - Count(server.done, HungUp)
            && forall c :: c in server.fd
                      <==> Message(Connected, c, true) in server.done && Message(HungUp, c, true) !in server.done
    ensures ok ==> forall c <- server.fd ::
            0 <= server.fd[c] < MAX_HANDLE && server.pollMgr.clients[server.fd[c]] == c && c.handle == server.fd[c]
  {
    hide Inv, Lasting, Honest, Count, IPCServer.Lists, PlainRound;
    var pollMgr := new IPCPollMgr();
    server := new IPCServer(pollMgr);
    ok := true;
    NothingYet(server.done + server.msgQueue);
    var k := 0;
    while k < |rounds| && ok
      invariant 0 <= k <= |rounds| && fresh(server) && fresh(server.pollMgr) && fresh(server.pollMgr.clients)
      invariant forall c <- server.known :: fresh(c)
      invariant server.Valid()
      invariant ok ==> server.msgQueue == [] && server.incomingClientList == [] == server.deadClientList
      invariant ok && Lasting(server.done) && server.connections == |server.fd|
           <==> Honest(server.done + server.msgQueue)
      invariant (forall r <- rounds :: PlainRound(r)) ==> Honest(server.done + server.msgQueue)
    {
      server.ListedKnown();
      assert server.done + server.msgQueue == server.done;
      ghost var clients;
      ok, clients := server.TakeTurn(rounds[k]);
      k := k + 1;
    }
    if ok {
      server.Standing();
    }
  }
}
