/** The two ends of the login protocol as they run: the queue of login contexts and the message handler of the
    room manager, and the lock table of the data manager. Each does a step of `LoginProtocol`. */
module Logins {
  import opened Common
  import opened LinkedLists
  import opened LoginProtocol

  /** One direction of the connection between the two servers. */
  class Channel<M> {
    var queue: seq<M>

    constructor ()
      ensures queue == []
    {
      queue := [];
    }

    method Send(m: M)
      modifies this
      ensures queue == old(queue) + [m]
    {
      queue := queue + [m];
    }

    method Receive() returns (m: M)
      requires queue != []
      modifies this
      ensures old(queue) == [m] + queue
    {
      m, queue := queue[0], queue[1..];
    }
  }

  class RoomManager {
    const toData: Channel<Request>
    const toRoom: Channel<Reply>
    // gPendingLogins, gActiveLoginContext, gLoginCounter
    var pending: seq<Context>
    var active: Maybe<Context>
    var counter: int
    // what each connected player points to: its login context, and its account once there is a player object
    var context: map<Player, Context>
    var account: map<Player, Account>
    // which players have been deleted: what is written to them is lost
    var gone: set<Player>

    constructor (toData: Channel<Request>, toRoom: Channel<Reply>)
      requires toData.queue == [] && toRoom.queue == []
      ensures this.toData == toData && this.toRoom == toRoom && View({}, 0) == IDLE
    {
      this.toData, this.toRoom := toData, toRoom;
      pending, active, counter, context, account, gone := [], Nothing, 0, map[], map[], {};
    }

    /** The whole system, when the data manager has these locks and users. */
    ghost function View(locks: set<Account>, users: int): System
      reads this, toData, toRoom
    {
      System(pending, active, counter, context, account, gone, toData.queue, toRoom.queue, locks, users)
    }

    /** `LoginContext::start` */
    method Start(c: Context)
      modifies toData, this`active
      ensures forall l, u :: View(l, u) == Started(old(View(l, u)), c)
    {
      toData.Send(Login(c.id, c.credentials));
      active := Just(c);
    }

    /** The constructor of `LoginContext`. */
    method NewContext(p: Player, credentials: Credentials)
      modifies this, toData
      ensures forall l, u :: View(l, u) == Asked(old(View(l, u)), p, credentials)
    {
      var c := Context(counter, credentials, p);
      counter := counter + 1;
      context := context[p := c];
      pending := pending + [c];
      if |pending| == 1 {
        Start(c);
      }
    }

    /** The destructor of `LoginContext`. */
    method DeleteContext(c: Context)
      modifies this, toData
      ensures forall l, u :: View(l, u) == Discarded(old(View(l, u)), c)
    {
      context := context - {c.player};
      pending := Del(pending, c);
      if active == Just(c) {
        active := Nothing;
        if pending != [] {
          Start(pending[0]);
        }
      }
    }

    /** A login reply is handled. */
    method HandleMessage()
      requires toRoom.queue != [] && toData as object != toRoom
      modifies this, toData, toRoom
      ensures forall l, u :: View(l, u) == Delivered(old(View(l, u)))
    {
      var m := toRoom.Receive();
      if active.Nothing? || active.value.id != m.id {
        if m.Okay? {
          toData.Send(Logout(m.account));
        }
        return;
      }
      if m.Okay? && active.value.player !in gone {
        account := account[active.value.player := m.account];
      }
      DeleteContext(active.value);
    }

    /** The client hangs up: the account is given back, unless the handler of the message does not get that far, and
        with the player goes its login context. */
    method HandleHungUp(p: Player, told: bool)
      modifies this, toData
      ensures forall l, u :: View(l, u) == HungUp(old(View(l, u)), p, told)
    {
      if told && p in account {
        toData.Send(Logout(account[p]));
      }
      account := account - {p};
      gone := gone + {p};
      if p in context {
        DeleteContext(context[p]);
      }
    }
  }

  class DataManager {
    const toData: Channel<Request>
    const toRoom: Channel<Reply>
    // the accountLocks table and the user count of the server
    var locks: set<Account>
    var users: int

    constructor (toData: Channel<Request>, toRoom: Channel<Reply>)
      ensures this.toData == toData && this.toRoom == toRoom && locks == {} && users == 0
    {
      this.toData, this.toRoom, locks, users := toData, toRoom, {}, 0;
    }

    /** `s` with this end's part of it as it is now. */
    ghost function View(s: System): System
      reads this, toData, toRoom
    {
      s.(toData := toData.queue, toRoom := toRoom.queue, locks := locks, users := users)
    }

    /** A request is handled; inserting a lock that is there already is an error. */
    method HandleMessage(accounts: Accounts, refuse: bool)
      requires toData.queue != [] && toData as object != toRoom
      modifies this, toData, toRoom
      ensures forall s :: View(s) == Served(old(View(s)), accounts, refuse)
    {
      var m := toData.Receive();
      match m
      case Login(id, credentials) =>
        if credentials in accounts && !refuse {
          var accountID := accounts[credentials];
          if accountID in locks {
            toRoom.Send(Error(id));
          } else {
            locks, users := locks + {accountID}, users + 1;
            toRoom.Send(Okay(id, accountID));
          }
        } else {
          toRoom.Send(Error(id));
        }
      case Logout(a) =>
        locks, users := locks - {a}, users - 1;
    }
  }

  /** Both ends over the same channels: one step of the whole system, whichever event comes. `leaked` are the accounts
      that were forgotten before. */
  method Take(room: RoomManager, data: DataManager, accounts: Accounts, e: Event, ghost leaked: set<Account>)
    requires room.toData == data.toData && room.toRoom == data.toRoom && room.toData as object != room.toRoom
    requires Inv(room.View(data.locks, data.users), accounts, leaked)
    modifies room, data, room.toData, room.toRoom
    ensures var was := old(room.View(data.locks, data.users));
            && room.View(data.locks, data.users) == Step(was, accounts, e)
            && Inv(room.View(data.locks, data.users), accounts, leaked + ForgottenAt(was, e))
  {
    StepKeeps(room.View(data.locks, data.users), accounts, leaked, e);
    hide Inv;
    ghost var s := room.View(data.locks, data.users);
    match e
    case Ask(p, credentials) =>
      if p !in room.gone {
        room.NewContext(p, credentials);
      }
    case HangUp(p, told) => room.HandleHungUp(p, told);
    case Deliver =>
      if room.toRoom.queue != [] {
        room.HandleMessage();
      }
    case Serve(refuse) =>
      if room.toData.queue != [] {
        data.HandleMessage(accounts, refuse);
        assert data.View(s) == Served(s, accounts, refuse);
      }
  }
}
