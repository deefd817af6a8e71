/** The login protocol between the room manager (roommgr/login.cpp, roommgr/datamgrclient.cpp) and the data
    manager (datamgr/datamgr.cpp), as a state machine over two first-in first-out channels.

    One login is asked for at a time. Its owner may be gone by the time the answer arrives, so an answer that
    nobody waits for any more has to be undone. */
module LoginProtocol {
  import opened Common
  import opened LinkedLists

  type Account = int
  type Player = int

  /** What the player typed; which of these are good is the data manager's business. */
  datatype Credentials = Credentials(login: string, password: string)

  datatype Context = Context(id: int, credentials: Credentials, player: Player)

  datatype Request = Login(id: int, credentials: Credentials) | Logout(account: Account)

  datatype Reply = Okay(id: int, account: Account) | Error(id: int)

  datatype System = System(
    // the room manager
    pending: seq<Context>, active: Maybe<Context>, counter: int,
    context: map<Player, Context>, account: map<Player, Account>,
    /** Whose connection has ended: these players have been deleted. */
    gone: set<Player>,
    // the channels
    toData: seq<Request>, toRoom: seq<Reply>,
    // the data manager
    locks: set<Account>, users: int)

  type Accounts = map<Credentials, Account>

  const IDLE := System([], Nothing, 0, map[], map[], {}, [], [], {}, 0)

  // ---- the steps

  function Started(s: System, c: Context): System {
    s.(active := Just(c), toData := s.toData + [Login(c.id, c.credentials)])
  }

  /** A new context joins the queue, and is started if it is alone there. */
  function Asked(s: System, p: Player, credentials: Credentials): System {
    var c := Context(s.counter, credentials, p);
    var t := s.(counter := s.counter + 1, context := s.context[p := c], pending := s.pending + [c]);
    if |t.pending| == 1 then Started(t, c) else t
  }

  /** A context goes; if it was the active one, the next in the queue is started. */
  function Discarded(s: System, c: Context): System {
    var t := s.(context := s.context - {c.player}, pending := Del(s.pending, c));
    if s.active != Just(c) then t
    else if t.pending == [] then t.(active := Nothing)
    else Started(t, t.pending[0])
  }

  /** The player gets the account; what is written to one who has been deleted is lost. */
  function Entered(s: System, p: Player, a: Account): System {
    if p in s.gone then s else s.(account := s.account[p := a])
  }

  /** The room manager takes the next reply. */
  function Delivered(s: System): System
    requires s.toRoom != []
  {
    var m, t := s.toRoom[0], s.(toRoom := s.toRoom[1..]);
    if s.active.Nothing? || s.active.value.id != m.id then
      if m.Okay? then t.(toData := t.toData + [Logout(m.account)]) else t
    else if m.Okay? then
      Discarded(Entered(t, s.active.value.player, m.account), s.active.value)
    else
      Discarded(t, s.active.value)
  }

  /** The account of a player who leaves is given back. */
  function LoggedOut(s: System, p: Player): System {
    if p in s.account then s.(toData := s.toData + [Logout(s.account[p])], account := s.account - {p}) else s
  }

  /** Or it is not, and goes with the player. */
  function Vanished(s: System, p: Player): System {
    s.(account := s.account - {p})
  }

  /** The player's connection ends. `told` is whether the code comes to the logout: it does not when it was the client
      that said it had hung up. With the player goes the context that it names, if it names one. */
  function HungUp(s: System, p: Player, told: bool): System {
    var t := (if told then LoggedOut(s, p) else Vanished(s, p)).(gone := s.gone + {p});
    if p in t.context then Discarded(t, t.context[p]) else t
  }

  /** The data manager takes the next request; `refuse` is any of its reasons other than the lock. */
  function Served(s: System, accounts: Accounts, refuse: bool): System
    requires s.toData != []
  {
    var m, t := s.toData[0], s.(toData := s.toData[1..]);
    match m
    case Logout(a) => t.(locks := t.locks - {a}, users := t.users - 1)
    case Login(id, credentials) =>
      if credentials in accounts && !refuse && accounts[credentials] !in t.locks then
        t.(locks := t.locks + {accounts[credentials]}, users := t.users + 1,
           toRoom := t.toRoom + [Okay(id, accounts[credentials])])
      else
        t.(toRoom := t.toRoom + [Error(id)])
  }

  // ---- what is on its way

  function One(b: bool): nat {
    if b then 1 else 0
  }

  function LoginsOf(q: seq<Request>, id: int): nat {
    if q == [] then 0 else One(q[0].Login? && q[0].id == id) + LoginsOf(q[1..], id)
  }

  function RepliesTo(q: seq<Reply>, id: int): nat {
    if q == [] then 0 else One(q[0].id == id) + RepliesTo(q[1..], id)
  }

  function OkaysFor(q: seq<Reply>, a: Account): nat {
    if q == [] then 0 else One(q[0].Okay? && q[0].account == a) + OkaysFor(q[1..], a)
  }

  function LogoutsOf(q: seq<Request>, a: Account): nat {
    if q == [] then 0 else One(q[0].Logout? && q[0].account == a) + LogoutsOf(q[1..], a)
  }

  /** How often the login `id` is asked for and not yet answered. */
  function Unanswered(s: System, id: int): nat {
    LoginsOf(s.toData, id) + RepliesTo(s.toRoom, id)
  }

  /** How often `a` is on its way to be played, or to be unlocked. */
  function Travelling(s: System, a: Account): nat {
    OkaysFor(s.toRoom, a) + LogoutsOf(s.toData, a)
  }

  lemma {:induction false} RequestAppended(q: seq<Request>, m: Request, k: int)
    ensures LoginsOf(q + [m], k) == LoginsOf(q, k) + One(m.Login? && m.id == k)
    ensures LogoutsOf(q + [m], k) == LogoutsOf(q, k) + One(m.Logout? && m.account == k)
  {
    if q == [] {
      assert q + [m] == [m];
    } else {
      assert (q + [m])[1..] == q[1..] + [m];
      RequestAppended(q[1..], m, k);
    }
  }

  lemma {:induction false} ReplyAppended(q: seq<Reply>, m: Reply, k: int)
    ensures RepliesTo(q + [m], k) == RepliesTo(q, k) + One(m.id == k)
    ensures OkaysFor(q + [m], k) == OkaysFor(q, k) + One(m.Okay? && m.account == k)
  {
    if q == [] {
      assert q + [m] == [m];
    } else {
      assert (q + [m])[1..] == q[1..] + [m];
      ReplyAppended(q[1..], m, k);
    }
  }

  lemma {:induction false} ReplyCounts(q: seq<Reply>, m: Reply)
    requires m in q
    ensures RepliesTo(q, m.id) > 0
  {
    if q[0] != m {
      ReplyCounts(q[1..], m);
    }
  }

  lemma {:induction false} LoginCounts(q: seq<Request>, m: Request)
    requires m in q && m.Login?
    ensures LoginsOf(q, m.id) > 0
  {
    if q[0] != m {
      LoginCounts(q[1..], m);
    }
  }

  /** What one more request changes. */
  lemma Sent(s: System, m: Request)
    ensures var t := s.(toData := s.toData + [m]);
            && (forall id :: Unanswered(t, id) == Unanswered(s, id) + One(m.Login? && m.id == id))
            && (forall a :: Travelling(t, a) == Travelling(s, a) + One(m.Logout? && m.account == a))
  {
    forall k
      ensures LoginsOf(s.toData + [m], k) == LoginsOf(s.toData, k) + One(m.Login? && m.id == k)
      ensures LogoutsOf(s.toData + [m], k) == LogoutsOf(s.toData, k) + One(m.Logout? && m.account == k)
    {
      RequestAppended(s.toData, m, k);
    }
  }

  /** What is on its way is a matter of the channels alone. */
  lemma OnlySends(s: System, t: System)
    requires s.toData == t.toData && s.toRoom == t.toRoom
    ensures forall id :: Unanswered(t, id) == Unanswered(s, id)
    ensures forall a :: Travelling(t, a) == Travelling(s, a)
  {
  }

  // ---- the invariant

  /** The queue: the active context is its head, the ids count up, and what a player waits for is in it. */
  ghost predicate Queued(s: System) {
    && (if s.pending == [] then s.active == Nothing else s.active == Just(s.pending[0]))
    && (forall i, j :: 0 <= i < j < |s.pending| ==> s.pending[i].id < s.pending[j].id)
    && (forall c <- s.pending :: c.id < s.counter)
    && (forall p <- s.context :: s.context[p] in s.pending && s.context[p].player == p)
  }

  /** Just the active context has a login on its way, once; if `but` is active, it may have been answered. */
  ghost predicate AskingBut(s: System, but: Maybe<Context>) {
    && (forall id :: Unanswered(s, id) > 0 ==> Unanswered(s, id) == 1 && id < s.counter)
    && (forall i :: 0 < i < |s.pending| ==> Unanswered(s, s.pending[i].id) == 0)
    && (s.pending != [] && but != Just(s.pending[0]) ==> Unanswered(s, s.pending[0].id) == 1)
  }

  ghost predicate Asking(s: System) {
    AskingBut(s, Nothing)
  }

  /** What is on its way for a waiting context is what it asked for. */
  ghost predicate Genuine(s: System, accounts: Accounts) {
    && (forall m <- s.toData, c <- s.pending :: m.Login? && m.id == c.id ==> m.credentials == c.credentials)
    && (forall m <- s.toRoom, c <- s.pending ::
          m.Okay? && m.id == c.id ==> c.credentials in accounts && accounts[c.credentials] == m.account)
  }

  ghost predicate Plays(account: map<Player, Account>, a: Account) {
    exists p :: p in account && account[p] == a
  }

  /** Every lock has exactly one reason: a player who is online, an okay on its way, a logout on its way, or that it was
      leaked. */
  ghost predicate LockedBut(s: System, leaked: set<Account>) {
    && (forall p, q :: p in s.account && q in s.account && s.account[p] == s.account[q] ==> p == q)
    && (forall a :: Travelling(s, a) > 0 ==> Travelling(s, a) == 1 && a in s.locks && a !in leaked)
    && (forall p <- s.account :: Travelling(s, s.account[p]) == 0 && s.account[p] in s.locks && s.account[p] !in leaked)
    && (forall a <- s.locks :: Travelling(s, a) == 1 || Plays(s.account, a) || a in leaked)
    && leaked <= s.locks && s.users == |s.locks|
  }

  ghost predicate Locked(s: System) {
    LockedBut(s, {})
  }

  /** Nobody who is gone plays, or is known to wait. */
  ghost predicate Present(s: System) {
    s.account.Keys !! s.gone && s.context.Keys !! s.gone
  }

  ghost predicate Inv(s: System, accounts: Accounts, leaked: set<Account>) {
    Queued(s) && Asking(s) && Genuine(s, accounts) && LockedBut(s, leaked) && Present(s)
  }

  // ---- the ways a lock's reason changes

  lemma ComesOnline(s: System, t: System, leaked: set<Account>, p: Player, a: Account)
    requires LockedBut(s, leaked) && p !in s.account && t.account == s.account[p := a]
    requires t.locks == s.locks && t.users == s.users
    requires forall b :: Travelling(s, b) == Travelling(t, b) + One(b == a)
    ensures LockedBut(t, leaked)
  {
    hide Travelling;
    forall b <- t.locks
      ensures Travelling(t, b) == 1 || Plays(t.account, b) || b in leaked
    {
      if Plays(s.account, b) {
        var q :| q in s.account && s.account[q] == b;
        assert t.account[q] == b;
      } else if b == a {
        assert t.account[p] == b;
      }
    }
  }

  /** An account that is played is forgotten for another one: nothing is left that would unlock it. */
  lemma IsOverwritten(s: System, t: System, leaked: set<Account>, p: Player, a: Account)
    requires LockedBut(s, leaked) && p in s.account && t.account == s.account[p := a]
    requires t.locks == s.locks && t.users == s.users
    requires forall b :: Travelling(s, b) == Travelling(t, b) + One(b == a)
    ensures LockedBut(t, leaked + {s.account[p]}) && s.account[p] !in leaked
  {
    hide Travelling;
    forall b <- t.locks
      ensures Travelling(t, b) == 1 || Plays(t.account, b) || b in leaked + {s.account[p]}
    {
      if Plays(s.account, b) && b != s.account[p] {
        var q :| q in s.account && s.account[q] == b;
        assert t.account[q] == b;
      } else if b == a {
        assert t.account[p] == b;
      }
    }
  }

  /** Nobody gets an account that was on its way: nothing is left that would unlock it. */
  lemma IsLost(s: System, t: System, leaked: set<Account>, a: Account)
    requires LockedBut(s, leaked) && t.account == s.account && t.locks == s.locks && t.users == s.users
    requires forall b :: Travelling(s, b) == Travelling(t, b) + One(b == a)
    ensures LockedBut(t, leaked + {a}) && a in t.locks && a !in leaked && !Plays(t.account, a)
  {
    hide Travelling;
    assert Travelling(s, a) > 0;
  }

  lemma GoesOffline(s: System, t: System, leaked: set<Account>, p: Player)
    requires LockedBut(s, leaked) && p in s.account && t.account == s.account - {p}
    requires t.locks == s.locks && t.users == s.users
    requires forall b :: Travelling(t, b) == Travelling(s, b) + One(b == s.account[p])
    ensures LockedBut(t, leaked)
  {
    hide Travelling;
    forall b <- t.locks
      ensures Travelling(t, b) == 1 || Plays(t.account, b) || b in leaked
    {
      if Plays(s.account, b) && b != s.account[p] {
        var q :| q in s.account && s.account[q] == b;
        assert t.account[q] == b;
      }
    }
  }

  /** Whoever played an account has vanished: nothing is left that would unlock it. */
  lemma IsAbandoned(s: System, t: System, leaked: set<Account>, p: Player)
    requires LockedBut(s, leaked) && p in s.account && t.account == s.account - {p}
    requires t.locks == s.locks && t.users == s.users
    requires forall b :: Travelling(t, b) == Travelling(s, b)
    ensures LockedBut(t, leaked + {s.account[p]}) && s.account[p] in t.locks && s.account[p] !in leaked
  {
    hide Travelling;
    forall b <- t.locks
      ensures Travelling(t, b) == 1 || Plays(t.account, b) || b in leaked + {s.account[p]}
    {
      if Plays(s.account, b) && b != s.account[p] {
        var q :| q in s.account && s.account[q] == b;
        assert t.account[q] == b;
      }
    }
  }

  lemma IsLocked(s: System, t: System, leaked: set<Account>, a: Account)
    requires LockedBut(s, leaked) && a !in s.locks && t.account == s.account
    requires t.locks == s.locks + {a} && t.users == s.users + 1
    requires forall b :: Travelling(t, b) == Travelling(s, b) + One(b == a)
    ensures LockedBut(t, leaked)
  {
    hide Travelling;
  }

  lemma IsUnlocked(s: System, t: System, leaked: set<Account>, a: Account)
    requires LockedBut(s, leaked) && t.account == s.account && t.locks == s.locks - {a} && t.users == s.users - 1
    requires forall b :: Travelling(s, b) == Travelling(t, b) + One(b == a)
    ensures LockedBut(t, leaked)
  {
    hide Travelling;
    assert Travelling(s, a) > 0;
  }

  lemma StillLocked(s: System, t: System, leaked: set<Account>)
    requires LockedBut(s, leaked) && t.account == s.account && t.locks == s.locks && t.users == s.users
    requires forall b :: Travelling(t, b) == Travelling(s, b)
    ensures LockedBut(t, leaked)
  {
    hide Travelling;
  }

  // ---- a context joins

  /** No message knows the next id. */
  lemma NewIsUnknown(s: System)
    requires Asking(s)
    ensures forall m <- s.toData :: m.Login? ==> m.id != s.counter
    ensures forall m <- s.toRoom :: m.id != s.counter
  {
    forall m <- s.toData | m.Login?
      ensures m.id != s.counter
    {
      LoginCounts(s.toData, m);
      assert Unanswered(s, m.id) > 0;
    }
    forall m <- s.toRoom
      ensures m.id != s.counter
    {
      ReplyCounts(s.toRoom, m);
      assert Unanswered(s, m.id) > 0;
    }
  }

  /** The queue with the new context, before any of it is started. */
  function Joined(s: System, p: Player, credentials: Credentials): System {
    var c := Context(s.counter, credentials, p);
    s.(counter := s.counter + 1, context := s.context[p := c], pending := s.pending + [c])
  }

  lemma JoinedSends(s: System, p: Player, credentials: Credentials)
    ensures forall id :: Unanswered(Joined(s, p, credentials), id) == Unanswered(s, id)
    ensures forall a :: Travelling(Joined(s, p, credentials), a) == Travelling(s, a)
  {
  }

  lemma AskedSends(s: System, p: Player, credentials: Credentials)
    ensures forall id ::
            Unanswered(Asked(s, p, credentials), id) == Unanswered(s, id) + One(s.pending == [] && id == s.counter)
    ensures forall a :: Travelling(Asked(s, p, credentials), a) == Travelling(s, a)
  {
    JoinedSends(s, p, credentials);
    hide Unanswered, Travelling;
    if s.pending == [] {
      var t := Joined(s, p, credentials);
      Sent(t, Login(s.counter, credentials));
      OnlySends(t.(toData := t.toData + [Login(s.counter, credentials)]), Asked(s, p, credentials));
    }
  }

  lemma AskedQueued(s: System, p: Player, credentials: Credentials)
    requires Queued(s)
    ensures Queued(Asked(s, p, credentials))
  {
    var t, c := Asked(s, p, credentials), Context(s.counter, credentials, p);
    assert t.pending == s.pending + [c] && t.context == s.context[p := c];
    forall q <- t.context
      ensures t.context[q] in t.pending && t.context[q].player == q
    {
      assert q != p ==> s.context[q] in s.pending;
    }
  }

  lemma AskedAsking(s: System, p: Player, credentials: Credentials)
    requires Queued(s) && Asking(s)
    ensures Asking(Asked(s, p, credentials))
  {
    AskedSends(s, p, credentials);
    hide Unanswered;
    assert Unanswered(s, s.counter) == 0;
  }

  lemma AskedGenuine(s: System, accounts: Accounts, p: Player, credentials: Credentials)
    requires Queued(s) && Asking(s) && Genuine(s, accounts)
    ensures Genuine(Asked(s, p, credentials), accounts)
  {
    NewIsUnknown(s);
    hide Asking;
    var t, c := Asked(s, p, credentials), Context(s.counter, credentials, p);
    assert forall d <- t.pending :: d in s.pending || d == c;
    assert forall m <- t.toData :: m in s.toData || m == Login(c.id, c.credentials);
    assert forall d <- s.pending :: d.id != s.counter;
    hide Queued;
  }

  lemma AskedParts(s: System, p: Player, credentials: Credentials)
    ensures var t := Asked(s, p, credentials);
            && t.account == s.account && t.gone == s.gone && t.locks == s.locks && t.users == s.users
            && t.context.Keys == s.context.Keys + {p}
  {
  }

  /** Whoever is there to ask, and whether or not it waits or plays already. */
  lemma AskedKeeps(s: System, accounts: Accounts, leaked: set<Account>, p: Player, credentials: Credentials)
    requires Inv(s, accounts, leaked) && p !in s.gone
    ensures Inv(Asked(s, p, credentials), accounts, leaked)
  {
    AskedQueued(s, p, credentials);
    AskedAsking(s, p, credentials);
    AskedGenuine(s, accounts, p, credentials);
    AskedSends(s, p, credentials);
    AskedParts(s, p, credentials);
    StillLocked(s, Asked(s, p, credentials), leaked);
    hide Queued, Asking, Genuine, LockedBut, Travelling, Unanswered;
  }

  // ---- a context goes

  predicate Ascending(s: seq<Context>) {
    forall i, j :: 0 <= i < j < |s| ==> s[i].id < s[j].id
  }

  lemma {:induction false} DelIn(s: seq<Context>, c: Context)
    requires c in s && Ascending(s)
    ensures forall d :: d in Del(s, c) <==> d in s && d != c
  {
    assert forall d :: d in s <==> d == s[0] || d in s[1..];
    if s[0] != c {
      DelIn(s[1..], c);
    }
  }

  lemma {:induction false} DelAscends(s: seq<Context>, c: Context)
    requires c in s && Ascending(s)
    ensures Ascending(Del(s, c))
  {
    if s[0] != c {
      DelIn(s[1..], c);
      DelAscends(s[1..], c);
      forall d <- Del(s[1..], c)
        ensures s[0].id < d.id
      {
        assert d in s[1..];
      }
    }
  }

  lemma DelIs(s: seq<Context>, c: Context)
    requires c in s && Ascending(s)
    ensures Ascending(Del(s, c)) && forall d :: d in Del(s, c) <==> d in s && d != c
    ensures if s[0] == c then Del(s, c) == s[1..] else Del(s, c) != [] && Del(s, c)[0] == s[0]
    ensures forall i :: 0 <= i < |Del(s, c)| && (i > 0 || s[0] == c) ==> Del(s, c)[i] in s[1..]
  {
    DelIn(s, c);
    DelAscends(s, c);
    if s[0] != c {
      DelIn(s[1..], c);
    }
  }

  /** The queue without the context, before the next is started. */
  function Left(s: System, c: Context): System {
    s.(context := s.context - {c.player}, pending := Del(s.pending, c))
  }

  lemma DiscardedSends(s: System, c: Context)
    ensures forall id :: Unanswered(Discarded(s, c), id) ==
              Unanswered(s, id) + One(s.active == Just(c) && Del(s.pending, c) != [] && id == Del(s.pending, c)[0].id)
    ensures forall a :: Travelling(Discarded(s, c), a) == Travelling(s, a)
  {
    var t := Left(s, c);
    assert forall id :: Unanswered(t, id) == Unanswered(s, id);
    assert forall a :: Travelling(t, a) == Travelling(s, a);
    if s.active == Just(c) && t.pending != [] {
      Sent(t, Login(t.pending[0].id, t.pending[0].credentials));
      hide Unanswered, Travelling;
    }
  }

  lemma DiscardedQueued(s: System, c: Context)
    requires Queued(s) && c in s.pending
    ensures Queued(Discarded(s, c))
  {
    hide Del, Discarded;
    QueueWithout(s, c);
    DiscardedParts(s, c);
  }

  /** The queue without `c`, as far as its order goes. */
  lemma QueueWithout(s: System, c: Context)
    requires Queued(s) && c in s.pending
    ensures var rest := Del(s.pending, c);
            && (forall i, j :: 0 <= i < j < |rest| ==> rest[i].id < rest[j].id)
            && (forall d :: d in rest <==> d in s.pending && d != c)
            && (s.active != Just(c) ==> rest != [] && s.active == Just(rest[0]))
  {
    hide Del;
    DelIs(s.pending, c);
  }

  lemma DiscardedParts(s: System, c: Context)
    ensures var t := Discarded(s, c);
            && t.context == s.context - {c.player} && t.pending == Del(s.pending, c)
            && t.counter == s.counter && t.account == s.account && t.gone == s.gone
            && t.active == if s.active != Just(c) then s.active
                           else if t.pending == [] then Nothing else Just(t.pending[0])
  {
  }

  lemma DiscardedAsking(s: System, c: Context)
    requires Queued(s) && c in s.pending && AskingBut(s, Just(c))
    ensures Asking(Discarded(s, c))
  {
    DelIs(s.pending, c);
    DiscardedSends(s, c);
    hide Del, Unanswered;
    var t := Discarded(s, c);
    assert t.pending == Del(s.pending, c);
    forall d <- s.pending[1..]
      ensures Unanswered(s, d.id) == 0 && d.id < s.counter && d.id != s.pending[0].id
    {
      assert d in s.pending;
    }
  }

  lemma DiscardedGenuine(s: System, accounts: Accounts, c: Context)
    requires Queued(s) && c in s.pending && Genuine(s, accounts)
    ensures Genuine(Discarded(s, c), accounts)
  {
    DelIs(s.pending, c);
    var t := Discarded(s, c);
    assert forall d <- t.pending :: d in s.pending;
    if s.active == Just(c) && t.pending != [] {
      var n := t.pending[0];
      assert forall m <- t.toData :: m in s.toData || m == Login(n.id, n.credentials);
      assert forall d <- t.pending :: d.id == n.id ==> d == n;
    }
  }

  lemma DiscardedKeeps(s: System, accounts: Accounts, leaked: set<Account>, c: Context)
    requires Queued(s) && c in s.pending && AskingBut(s, Just(c)) && Genuine(s, accounts) && LockedBut(s, leaked)
    requires s.account.Keys !! s.gone && (s.context - {c.player}).Keys !! s.gone
    ensures Inv(Discarded(s, c), accounts, leaked)
  {
    DiscardedParts(s, c);
    DiscardedQueued(s, c);
    DiscardedAsking(s, c);
    DiscardedGenuine(s, accounts, c);
    DiscardedSends(s, c);
    StillLocked(s, Discarded(s, c), leaked);
    hide Queued, AskingBut, Asking, Genuine, LockedBut, Travelling, Unanswered, Del;
  }

  // ---- a reply arrives

  function Popped(s: System): System
    requires s.toRoom != []
  {
    s.(toRoom := s.toRoom[1..])
  }

  lemma PoppedSends(s: System)
    requires s.toRoom != []
    ensures forall id :: Unanswered(s, id) == Unanswered(Popped(s), id) + One(id == s.toRoom[0].id)
    ensures forall a ::
            Travelling(s, a) == Travelling(Popped(s), a) + One(s.toRoom[0].Okay? && a == s.toRoom[0].account)
  {
  }

  lemma PoppedGenuine(s: System, accounts: Accounts)
    requires s.toRoom != [] && Genuine(s, accounts)
    ensures Genuine(Popped(s), accounts)
  {
    assert forall m <- s.toRoom[1..] :: m in s.toRoom;
  }

  /** Nobody waits for it: what is asked stays asked. */
  lemma StaleAsking(s: System)
    requires s.toRoom != [] && Queued(s) && Asking(s) && (s.active.Nothing? || s.active.value.id != s.toRoom[0].id)
    ensures Asking(Popped(s))
  {
    PoppedSends(s);
    hide Unanswered;
  }

  lemma AnsweredAsking(s: System)
    requires s.toRoom != [] && Queued(s) && Asking(s) && s.active.Just? && s.active.value.id == s.toRoom[0].id
    ensures s.active.value in s.pending && AskingBut(Popped(s), s.active)
  {
    PoppedSends(s);
    hide Unanswered;
  }

  /** Sending a logout disturbs neither the queue nor what is asked. */
  lemma LogoutSent(s: System, accounts: Accounts, a: Account)
    requires Queued(s) && Asking(s) && Genuine(s, accounts)
    ensures var t := s.(toData := s.toData + [Logout(a)]);
            && Queued(t) && Asking(t) && Genuine(t, accounts)
            && forall b :: Travelling(t, b) == Travelling(s, b) + One(b == a)
  {
    Sent(s, Logout(a));
    hide Unanswered, Travelling;
    var t := s.(toData := s.toData + [Logout(a)]);
    assert forall m <- t.toData :: m in s.toData || m == Logout(a);
  }

  lemma StaleKeeps(s: System, accounts: Accounts, leaked: set<Account>)
    requires s.toRoom != [] && Inv(s, accounts, leaked) && (s.active.Nothing? || s.active.value.id != s.toRoom[0].id)
    ensures Inv(Delivered(s), accounts, leaked)
  {
    PoppedSends(s);
    StaleAsking(s);
    PoppedGenuine(s, accounts);
    hide Asking, Genuine, Travelling, Unanswered, LockedBut;
    if s.toRoom[0].Okay? {
      LogoutSent(Popped(s), accounts, s.toRoom[0].account);
    }
    StillLocked(s, Delivered(s), leaked);
  }

  lemma ErrorKeeps(s: System, accounts: Accounts, leaked: set<Account>)
    requires s.toRoom != [] && Inv(s, accounts, leaked) && s.active.Just? && s.toRoom[0] == Error(s.active.value.id)
    ensures Inv(Delivered(s), accounts, leaked)
  {
    PoppedSends(s);
    AnsweredAsking(s);
    PoppedGenuine(s, accounts);
    StillLocked(s, Popped(s), leaked);
    hide Travelling, Unanswered, Asking, Genuine, AskingBut, LockedBut;
    DiscardedKeeps(Popped(s), accounts, leaked, s.active.value);
  }

  /** The reply is for the active context, and good. */
  predicate IsOurs(s: System) {
    s.toRoom != [] && s.active.Just? && s.toRoom[0].id == s.active.value.id && s.toRoom[0].Okay?
  }

  /** The handler is about to give an account to a player who has one, or to one who is gone. It does not look. */
  predicate Forgets(s: System) {
    IsOurs(s) && (s.active.value.player in s.account || s.active.value.player in s.gone)
  }

  /** The account that is forgotten by that: the one that the player had, or the one that nobody gets. */
  function Forgotten(s: System): set<Account> {
    if !Forgets(s) then {}
    else if s.active.value.player in s.gone then {s.toRoom[0].account}
    else {s.account[s.active.value.player]}
  }

  lemma SomeForgotten(s: System) returns (a: Account)
    requires Forgets(s)
    ensures a in Forgotten(s)
  {
    a := if s.active.value.player in s.gone then s.toRoom[0].account else s.account[s.active.value.player];
  }

  lemma OkayIsOurs(s: System, accounts: Accounts, leaked: set<Account>)
    requires Inv(s, accounts, leaked) && IsOurs(s)
    ensures s.active.value.credentials in accounts && accounts[s.active.value.credentials] == s.toRoom[0].account
  {
    hide Asking, LockedBut;
    assert s.active.value in s.pending && s.toRoom[0] in s.toRoom;
  }

  /** What becomes of the locks when the active context's player gets the account, before the context goes. */
  lemma EnteredLocks(s: System, leaked: set<Account>)
    requires LockedBut(s, leaked) && IsOurs(s)
    ensures LockedBut(Entered(Popped(s), s.active.value.player, s.toRoom[0].account), leaked + Forgotten(s))
    ensures leaked !! Forgotten(s)
  {
    PoppedSends(s);
    var c, m := s.active.value, s.toRoom[0];
    var t := Entered(Popped(s), c.player, m.account);
    OnlySends(Popped(s), t);
    hide Travelling, Unanswered, LockedBut;
    assert leaked + {} == leaked;
    if c.player in s.gone {
      IsLost(s, t, leaked, m.account);
    } else if c.player in s.account {
      IsOverwritten(s, t, leaked, c.player, m.account);
    } else {
      ComesOnline(s, t, leaked, c.player, m.account);
    }
  }

  /** What is left of the invariant meanwhile. */
  lemma EnteredQueue(s: System, accounts: Accounts)
    requires IsOurs(s) && Queued(s) && Asking(s) && Genuine(s, accounts) && Present(s)
    ensures var c, t := s.active.value, Entered(Popped(s), s.active.value.player, s.toRoom[0].account);
            && Queued(t) && c in t.pending && AskingBut(t, Just(c)) && Genuine(t, accounts)
            && t.account.Keys !! t.gone && (t.context - {c.player}).Keys !! t.gone
  {
    AnsweredAsking(s);
    PoppedGenuine(s, accounts);
    OnlySends(Popped(s), Entered(Popped(s), s.active.value.player, s.toRoom[0].account));
    hide Unanswered, Travelling;
  }

  /** The active context's player, if it is there, gets the account that the context asked for. */
  lemma OkayKeeps(s: System, accounts: Accounts, leaked: set<Account>)
    requires Inv(s, accounts, leaked) && IsOurs(s)
    ensures Inv(Delivered(s), accounts, leaked + Forgotten(s)) && leaked !! Forgotten(s)
    ensures Delivered(s).account ==
              if s.active.value.player in s.gone then s.account
              else s.account[s.active.value.player := s.toRoom[0].account]
    ensures s.active.value.credentials in accounts && accounts[s.active.value.credentials] == s.toRoom[0].account
  {
    hide Travelling, Unanswered, Queued, Genuine, LockedBut, Asking, AskingBut, Present, Discarded, Forgotten;
    OkayIsOurs(s, accounts, leaked);
    EnteredQueue(s, accounts);
    EnteredLocks(s, leaked);
    var t := Entered(Popped(s), s.active.value.player, s.toRoom[0].account);
    DiscardedParts(t, s.active.value);
    DiscardedKeeps(t, accounts, leaked + Forgotten(s), s.active.value);
  }

  lemma DeliveredKeeps(s: System, accounts: Accounts, leaked: set<Account>)
    requires s.toRoom != [] && Inv(s, accounts, leaked)
    ensures Inv(Delivered(s), accounts, leaked + Forgotten(s))
  {
    hide Inv, Delivered;
    if IsOurs(s) {
      OkayKeeps(s, accounts, leaked);
    } else {
      assert leaked + Forgotten(s) == leaked;
      if s.active.Nothing? || s.active.value.id != s.toRoom[0].id {
        StaleKeeps(s, accounts, leaked);
      } else {
        ErrorKeeps(s, accounts, leaked);
      }
    }
  }

  /** Delivering a reply leaves a reason for every lock if and only if it does not give an account to a player who has
      one already, or who is gone; whatever else is true of the state. */
  lemma DeliveredIff(s: System)
    requires s.toRoom != [] && Locked(s)
    ensures Locked(Delivered(s)) <==> !Forgets(s)
  {
    if !IsOurs(s) {
      DeliveredOther(s);
    } else {
      EnteredLocks(s, {});
      var c := s.active.value;
      var u, t := Entered(Popped(s), c.player, s.toRoom[0].account), Delivered(s);
      DiscardedSends(u, c);
      hide Travelling, Unanswered;
      StillLocked(u, t, {} + Forgotten(s));
      if Forgets(s) {
        var a := SomeForgotten(s);
        assert a in t.locks && a in {} + Forgotten(s);
        NoReason(t, {} + Forgotten(s), a);
      } else {
        assert {} + Forgotten(s) == {};
      }
    }
  }

  lemma NoReason(s: System, leaked: set<Account>, a: Account)
    requires LockedBut(s, leaked) && a in leaked
    ensures !Locked(s)
  {
    hide Travelling;
    assert Travelling(s, a) != 1 && !Plays(s.account, a);
  }

  lemma DeliveredOther(s: System)
    requires s.toRoom != [] && Locked(s) && !IsOurs(s)
    ensures Locked(Delivered(s))
  {
    PoppedSends(s);
    var m, u := s.toRoom[0], Popped(s);
    if s.active.Nothing? || s.active.value.id != m.id {
      if m.Okay? {
        Sent(u, Logout(m.account));
      }
    } else {
      DiscardedSends(u, s.active.value);
    }
    hide Travelling, Unanswered;
    StillLocked(s, Delivered(s), {});
  }

  // ---- a player leaves

  lemma LoggedOutKeeps(s: System, accounts: Accounts, leaked: set<Account>, p: Player)
    requires Inv(s, accounts, leaked) && p in s.account
    ensures Inv(LoggedOut(s, p), accounts, leaked)
  {
    var a := s.account[p];
    var t := s.(account := s.account - {p});
    OnlySends(s, t);
    hide Travelling, Unanswered, LockedBut;
    LogoutSent(t, accounts, a);
    GoesOffline(s, t.(toData := t.toData + [Logout(a)]), leaked, p);
  }

  /** All but the context of the player is as it should be, once it is deleted. */
  lemma GoneKeeps(s: System, accounts: Accounts, leaked: set<Account>, p: Player)
    requires Inv(s, accounts, leaked) && p !in s.account
    ensures var t := s.(gone := s.gone + {p});
            && Queued(t) && Asking(t) && Genuine(t, accounts) && LockedBut(t, leaked)
            && t.account.Keys !! t.gone && (t.context - {p}).Keys !! t.gone
  {
    var t := s.(gone := s.gone + {p});
    OnlySends(s, t);
    hide Unanswered, Travelling;
    StillLocked(s, t, leaked);
  }

  /** The account that is forgotten when the player leaves. */
  function Abandoned(s: System, p: Player, told: bool): set<Account> {
    if !told && p in s.account then {s.account[p]} else {}
  }

  lemma VanishedKeeps(s: System, accounts: Accounts, leaked: set<Account>, p: Player)
    requires Inv(s, accounts, leaked) && p in s.account
    ensures Inv(Vanished(s, p), accounts, leaked + {s.account[p]})
  {
    OnlySends(s, Vanished(s, p));
    hide Travelling, Unanswered, LockedBut;
    IsAbandoned(s, Vanished(s, p), leaked, p);
  }

  lemma AccountGoes(s: System, accounts: Accounts, leaked: set<Account>, p: Player, told: bool)
    requires Inv(s, accounts, leaked)
    ensures var t := if told then LoggedOut(s, p) else Vanished(s, p);
            Inv(t, accounts, leaked + Abandoned(s, p, told)) && p !in t.account
  {
    hide Inv;
    assert leaked + {} == leaked;
    if p !in s.account {
      assert s.account - {p} == s.account;
    } else if told {
      LoggedOutKeeps(s, accounts, leaked, p);
    } else {
      VanishedKeeps(s, accounts, leaked, p);
    }
  }

  /** One who plays no account any more goes, and the context that it names with it. */
  lemma GoesWithContext(r: System, accounts: Accounts, leaked: set<Account>, p: Player)
    requires Inv(r, accounts, leaked) && p !in r.account
    ensures var t := r.(gone := r.gone + {p});
            var n := if p in t.context then Discarded(t, t.context[p]) else t;
            Inv(n, accounts, leaked) && p !in n.account && p !in n.context
  {
    GoneKeeps(r, accounts, leaked, p);
    hide Asking, AskingBut, Genuine, LockedBut, Discarded;
    var t := r.(gone := r.gone + {p});
    if p in t.context {
      var c := t.context[p];
      assert c in t.pending && c.player == p;
      AskingIs(t, c);
      DiscardedParts(t, c);
      DiscardedKeeps(t, accounts, leaked, c);
    }
  }

  lemma HungUpKeeps(s: System, accounts: Accounts, leaked: set<Account>, p: Player, told: bool)
    requires Inv(s, accounts, leaked)
    ensures Inv(HungUp(s, p, told), accounts, leaked + Abandoned(s, p, told))
    ensures p !in HungUp(s, p, told).account && p !in HungUp(s, p, told).context
  {
    hide Inv, Discarded, Abandoned;
    AccountGoes(s, accounts, leaked, p, told);
    GoesWithContext(if told then LoggedOut(s, p) else Vanished(s, p), accounts, leaked + Abandoned(s, p, told), p);
  }

  /** A player's leaving leaves a reason for every lock if and only if the player did not play, or is logged out. */
  lemma HungUpIff(s: System, accounts: Accounts, p: Player, told: bool)
    requires Inv(s, accounts, {})
    ensures Locked(HungUp(s, p, told)) <==> told || p !in s.account
  {
    HungUpKeeps(s, accounts, {}, p, told);
    hide Queued, Asking, Genuine, LockedBut, HungUp;
    if !told && p in s.account {
      NoReason(HungUp(s, p, told), {} + Abandoned(s, p, told), s.account[p]);
    } else {
      assert {} + Abandoned(s, p, told) == {};
    }
  }

  lemma AskingIs(s: System, c: Context)
    requires Asking(s)
    ensures AskingBut(s, Just(c))
  {
    hide Unanswered;
  }

  // ---- the data manager answers

  predicate Grants(s: System, accounts: Accounts, refuse: bool)
    requires s.toData != [] && s.toData[0].Login?
  {
    var m := s.toData[0];
    m.credentials in accounts && !refuse && accounts[m.credentials] !in s.locks
  }

  lemma ServedSends(s: System, accounts: Accounts, refuse: bool)
    requires s.toData != []
    ensures forall id :: Unanswered(Served(s, accounts, refuse), id) == Unanswered(s, id)
    ensures var n := Served(s, accounts, refuse);
            match s.toData[0]
            case Logout(a) => forall b :: Travelling(s, b) == Travelling(n, b) + One(b == a)
            case Login(_, credentials) => forall b ::
              Travelling(n, b) == Travelling(s, b) + One(Grants(s, accounts, refuse) && b == accounts[credentials])
  {
    if s.toData[0].Login? {
      var m := s.toData[0];
      var r := if Grants(s, accounts, refuse) then Okay(m.id, accounts[m.credentials]) else Error(m.id);
      forall k
        ensures RepliesTo(s.toRoom + [r], k) == RepliesTo(s.toRoom, k) + One(r.id == k)
        ensures OkaysFor(s.toRoom + [r], k) == OkaysFor(s.toRoom, k) + One(r.Okay? && r.account == k)
      {
        ReplyAppended(s.toRoom, r, k);
      }
    }
  }

  lemma ServedGenuine(s: System, accounts: Accounts, refuse: bool)
    requires s.toData != [] && Genuine(s, accounts)
    ensures Genuine(Served(s, accounts, refuse), accounts)
  {
    var m, n := s.toData[0], Served(s, accounts, refuse);
    assert m in s.toData;
    assert forall r <- n.toData :: r in s.toData;
    assert forall r <- n.toRoom :: r in s.toRoom || (m.Login? && r == n.toRoom[|n.toRoom| - 1]);
  }

  lemma ServedKeeps(s: System, accounts: Accounts, leaked: set<Account>, refuse: bool)
    requires s.toData != [] && Inv(s, accounts, leaked)
    ensures Inv(Served(s, accounts, refuse), accounts, leaked)
  {
    ServedGenuine(s, accounts, refuse);
    ServedSends(s, accounts, refuse);
    hide Travelling, Unanswered, Genuine, LockedBut;
    var n := Served(s, accounts, refuse);
    if s.toData[0].Logout? {
      IsUnlocked(s, n, leaked, s.toData[0].account);
    } else if Grants(s, accounts, refuse) {
      IsLocked(s, n, leaked, accounts[s.toData[0].credentials]);
    } else {
      StillLocked(s, n, leaked);
    }
  }

  /** Each login is answered, and granted if and only if the credentials are some account's, which is not locked, and
      there is no other reason against it. */
  lemma GrantedIff(s: System, accounts: Accounts, refuse: bool)
    requires s.toData != [] && s.toData[0].Login?
    ensures var (m, n) := (s.toData[0], Served(s, accounts, refuse));
            && |n.toRoom| == |s.toRoom| + 1 && s.toRoom <= n.toRoom && n.toRoom[|s.toRoom|].id == m.id
            && (n.toRoom[|s.toRoom|].Okay?
               <==> !refuse && m.credentials in accounts && accounts[m.credentials] !in s.locks)
            && if n.toRoom[|s.toRoom|].Okay? then
                 n.toRoom[|s.toRoom|].account == accounts[m.credentials]
                 && n.locks == s.locks + {accounts[m.credentials]} && n.users == s.users + 1
               else n.locks == s.locks && n.users == s.users
  {
  }

  /** With nothing else under way, one who asks plays the account in the end if and only if it is granted. */
  lemma LoginSucceeds(s: System, accounts: Accounts, leaked: set<Account>, p: Player, credentials: Credentials,
                      refuse: bool)
    requires Inv(s, accounts, leaked) && s.pending == [] && s.toData == [] && s.toRoom == [] && p !in s.gone
    ensures var n := Step(Step(Step(s, accounts, Ask(p, credentials)), accounts, Serve(refuse)), accounts, Deliver);
            && n.pending == [] && n.toData == [] && n.toRoom == []
            && if !refuse && credentials in accounts && accounts[credentials] !in s.locks then
                 n.account == s.account[p := accounts[credentials]] && n.locks == s.locks + {accounts[credentials]}
               else n.account == s.account && n.locks == s.locks
  {
    hide AskingBut, Genuine, LockedBut;
    var c := Context(s.counter, credentials, p);
    var t := Step(s, accounts, Ask(p, credentials));
    assert t.toData == [Login(c.id, credentials)] && t.pending == [c] && t.active == Just(c) && t.toRoom == [];
    var u := Step(t, accounts, Serve(refuse));
    assert u.toData == [] && |u.toRoom| == 1 && u.pending == [c] && u.active == Just(c);
    assert Del([c], c) == [];
  }

  // ---- whole runs

  datatype Event =
    | Ask(player: Player, credentials: Credentials)
    | HangUp(leaver: Player, told: bool)
    | Deliver
    | Serve(refuse: bool)

  function Step(s: System, accounts: Accounts, e: Event): System {
    match e
    case Ask(p, credentials) => if p in s.gone then s else Asked(s, p, credentials)
    case HangUp(p, told) => HungUp(s, p, told)
    case Deliver => if s.toRoom == [] then s else Delivered(s)
    case Serve(refuse) => if s.toData == [] then s else Served(s, accounts, refuse)
  }

  function Run(s: System, accounts: Accounts, es: seq<Event>): System
    decreases |es|
  {
    if es == [] then s else Run(Step(s, accounts, es[0]), accounts, es[1..])
  }

  /** Which accounts an event forgets, and whether it does. */
  function ForgottenAt(s: System, e: Event): set<Account> {
    match e
    case Deliver => Forgotten(s)
    case HangUp(p, told) => Abandoned(s, p, told)
    case _ => {}
  }

  predicate ForgetsAt(s: System, e: Event) {
    match e
    case Deliver => Forgets(s)
    case HangUp(p, told) => !told && p in s.account
    case _ => false
  }

  lemma ForgetsIs(s: System, e: Event)
    ensures ForgottenAt(s, e) == {} <==> !ForgetsAt(s, e)
  {
    if e.Deliver? && Forgets(s) {
      var a := SomeForgotten(s);
    } else if e.HangUp? && ForgetsAt(s, e) {
      assert s.account[e.leaver] in ForgottenAt(s, e);
    }
  }

  /** Which accounts are forgotten in a run, and whether any is. */
  function Leaks(s: System, accounts: Accounts, es: seq<Event>): set<Account>
    decreases |es|
  {
    if es == [] then {} else ForgottenAt(s, es[0]) + Leaks(Step(s, accounts, es[0]), accounts, es[1..])
  }

  predicate EverForgets(s: System, accounts: Accounts, es: seq<Event>)
    decreases |es|
  {
    es != [] && (ForgetsAt(s, es[0]) || EverForgets(Step(s, accounts, es[0]), accounts, es[1..]))
  }

  lemma {:induction false} LeaksIff(s: System, accounts: Accounts, es: seq<Event>)
    ensures Leaks(s, accounts, es) != {} <==> EverForgets(s, accounts, es)
    decreases |es|
  {
    hide Step, ForgottenAt, ForgetsAt;
    if es != [] {
      LeaksIff(Step(s, accounts, es[0]), accounts, es[1..]);
      ForgetsIs(s, es[0]);
      EitherEmpty(ForgottenAt(s, es[0]), Leaks(Step(s, accounts, es[0]), accounts, es[1..]));
    }
  }

  lemma EitherEmpty(a: set<Account>, b: set<Account>)
    ensures a + b == {} <==> a == {} && b == {}
  {
    if a + b == {} {
      assert forall x :: x !in a + b;
    }
  }

  lemma StepKeeps(s: System, accounts: Accounts, leaked: set<Account>, e: Event)
    requires Inv(s, accounts, leaked)
    ensures Inv(Step(s, accounts, e), accounts, leaked + ForgottenAt(s, e))
  {
    hide Inv;
    assert leaked + {} == leaked;
    match e
    case Ask(p, credentials) =>
      if p !in s.gone {
        AskedKeeps(s, accounts, leaked, p, credentials);
      }
    case HangUp(p, told) => HungUpKeeps(s, accounts, leaked, p, told);
    case Deliver =>
      if s.toRoom != [] {
        DeliveredKeeps(s, accounts, leaked);
      }
    case Serve(refuse) =>
      if s.toData != [] {
        ServedKeeps(s, accounts, leaked, refuse);
      }
  }

  lemma {:induction false} RunKeeps(s: System, accounts: Accounts, leaked: set<Account>, es: seq<Event>)
    requires Inv(s, accounts, leaked)
    ensures Inv(Run(s, accounts, es), accounts, leaked + Leaks(s, accounts, es))
    decreases |es|
  {
    hide Inv, Step, ForgottenAt;
    if es != [] {
      var more := ForgottenAt(s, es[0]);
      StepKeeps(s, accounts, leaked, es[0]);
      RunKeeps(Step(s, accounts, es[0]), accounts, leaked + more, es[1..]);
      assert leaked + Leaks(s, accounts, es) == leaked + more + Leaks(Step(s, accounts, es[0]), accounts, es[1..]);
    } else {
      assert leaked + {} == leaked;
    }
  }

  lemma IdleKeeps(accounts: Accounts)
    ensures Inv(IDLE, accounts, {})
  {
  }

  lemma QuietState(s: System, accounts: Accounts, leaks: set<Account>)
    requires Inv(s, accounts, leaks) && s.toData == [] && s.toRoom == []
    ensures s.pending == [] && s.active == Nothing
    ensures forall a :: a in s.locks <==> Plays(s.account, a) || a in leaks
    ensures (forall a <- leaks :: !Plays(s.account, a)) && s.users == |s.account| + |leaks|
    ensures forall p, q :: p in s.account && q in s.account && s.account[p] == s.account[q] ==> p == q
    ensures s.account.Keys !! s.gone
  {
    QuietQueue(s);
    PlayersCount(s.account, s.locks - leaks);
    assert |s.locks| == |s.locks - leaks| + |leaks|;
  }

  /** What is true of every run, whatever the clients do, once both channels are empty: nobody waits; the locked
      accounts are those being played, each by one player who is there, and those that were forgotten; and there are as
      many users.
      So the locks are right if and only if no account was ever given to a player who had one, or who was gone, and no
      player who played left without being logged out. */
  lemma QuietIff(accounts: Accounts, es: seq<Event>)
    ensures var s, leaks := Run(IDLE, accounts, es), Leaks(IDLE, accounts, es);
            s.toData == [] && s.toRoom == [] ==>
              && s.pending == [] && s.active == Nothing
              && (forall a :: a in s.locks <==> Plays(s.account, a) || a in leaks)
              && (forall a <- leaks :: !Plays(s.account, a)) && s.users == |s.account| + |leaks|
              && (forall p, q :: p in s.account && q in s.account && s.account[p] == s.account[q] ==> p == q)
              && s.account.Keys !! s.gone
              && ((forall a :: a in s.locks <==> Plays(s.account, a)) <==> !EverForgets(IDLE, accounts, es))
  {
    hide Inv, Run, Leaks, EverForgets;
    IdleKeeps(accounts);
    RunKeeps(IDLE, accounts, {}, es);
    LeaksIff(IDLE, accounts, es);
    var s, leaks := Run(IDLE, accounts, es), Leaks(IDLE, accounts, es);
    assert {} + leaks == leaks;
    if s.toData == [] && s.toRoom == [] {
      QuietState(s, accounts, leaks);
      if leaks != {} {
        NonEmpty(leaks);
      }
    }
  }

  // ---- clients who do not ask again

  /** A client does not ask again while it waits or plays, and is logged out if it leaves while it plays. The room
      manager does not check this. */
  predicate Polite(s: System, e: Event) {
    && (e.Ask? ==> e.player !in s.context && e.player !in s.account)
    && (e.HangUp? && e.leaver in s.account ==> e.told)
  }

  predicate PoliteRun(s: System, accounts: Accounts, es: seq<Event>)
    decreases |es|
  {
    es == [] || (Polite(s, es[0]) && PoliteRun(Step(s, accounts, es[0]), accounts, es[1..]))
  }

  /** Each player has one context at most, and none while it plays. */
  ghost predicate Single(s: System) {
    && (forall c <- s.pending :: c.player in s.context && s.context[c.player] == c)
    && (forall p <- s.context :: p !in s.account && p !in s.gone)
  }

  lemma SingleAsked(s: System, p: Player, credentials: Credentials)
    requires Queued(s) && Single(s) && p !in s.context && p !in s.account && p !in s.gone
    ensures Single(Asked(s, p, credentials))
  {
    var t, c := Asked(s, p, credentials), Context(s.counter, credentials, p);
    assert t.pending == s.pending + [c] && t.context == s.context[p := c] && t.account == s.account && t.gone == s.gone;
  }

  /** `but` is the one player with both an account and a context, which goes. */
  lemma SingleDiscarded(s: System, c: Context)
    requires Queued(s) && c in s.pending
    requires forall d <- s.pending :: d.player in s.context && s.context[d.player] == d
    requires forall p <- s.context :: p != c.player ==> p !in s.account && p !in s.gone
    ensures Single(Discarded(s, c))
  {
    hide Del, Discarded;
    QueueWithout(s, c);
    DiscardedParts(s, c);
    forall d <- Del(s.pending, c)
      ensures d.player != c.player && d.player in s.context && s.context[d.player] == d
    {
      assert s.context[c.player] == c;
    }
  }

  lemma SingleDelivered(s: System)
    requires s.toRoom != [] && Queued(s) && Single(s)
    ensures Single(Delivered(s)) && !Forgets(s)
  {
    hide Discarded;
    if s.active.Just? && s.active.value.id == s.toRoom[0].id {
      var c, m, t := s.active.value, s.toRoom[0], Popped(s);
      var u := if m.Okay? then Entered(t, c.player, m.account) else t;
      assert c in s.pending;
      SingleDiscarded(u, c);
    }
  }

  lemma SingleHungUp(s: System, p: Player, told: bool)
    requires Queued(s) && Single(s)
    ensures Single(HungUp(s, p, told))
  {
    hide Discarded;
    var t := (if told then LoggedOut(s, p) else Vanished(s, p)).(gone := s.gone + {p});
    if p in t.context {
      SingleDiscarded(t, t.context[p]);
    }
  }

  lemma SingleStep(s: System, accounts: Accounts, e: Event)
    requires Queued(s) && Single(s) && Polite(s, e)
    ensures Single(Step(s, accounts, e)) && !ForgetsAt(s, e)
  {
    hide Queued, Asked, HungUp, Delivered;
    match e
    case Ask(p, credentials) =>
      if p !in s.gone {
        SingleAsked(s, p, credentials);
      }
    case HangUp(p, told) => SingleHungUp(s, p, told);
    case Deliver =>
      if s.toRoom != [] {
        SingleDelivered(s);
      }
    case Serve(refuse) =>
  }

  lemma {:induction false} PoliteNeverForgets(s: System, accounts: Accounts, leaked: set<Account>, es: seq<Event>)
    requires Inv(s, accounts, leaked) && Single(s) && PoliteRun(s, accounts, es)
    ensures !EverForgets(s, accounts, es)
    decreases |es|
  {
    hide Step, Single, ForgetsAt, Asking, Genuine, LockedBut;
    if es != [] {
      SingleStep(s, accounts, es[0]);
      StepKeeps(s, accounts, leaked, es[0]);
      var more := ForgottenAt(s, es[0]);
      PoliteNeverForgets(Step(s, accounts, es[0]), accounts, leaked + more, es[1..]);
    }
  }

  /** For clients who behave: once both channels are empty, nobody waits, the locked accounts are exactly those being
      played, no two players play one account, and the number of users is the number of players. */
  lemma Quiescence(accounts: Accounts, es: seq<Event>)
    requires PoliteRun(IDLE, accounts, es)
    ensures var s := Run(IDLE, accounts, es);
            s.toData == [] && s.toRoom == [] ==>
              && s.pending == [] && s.active == Nothing
              && (forall a :: a in s.locks <==> Plays(s.account, a)) && s.users == |s.account|
              && forall p, q :: p in s.account && q in s.account && s.account[p] == s.account[q] ==> p == q
  {
    PoliteNeverForgets(IDLE, accounts, {}, es);
    LeaksIff(IDLE, accounts, es);
    QuietIff(accounts, es);
    hide Run, PoliteRun, EverForgets, Leaks;
  }

  lemma QuietQueue(s: System)
    requires Queued(s) && Asking(s) && s.toData == [] && s.toRoom == []
    ensures s.pending == [] && s.active == Nothing && forall a :: Travelling(s, a) == 0
  {
    assert forall id :: Unanswered(s, id) == 0;
    hide Unanswered;
  }

  lemma {:induction false} PlayersCount(m: map<Player, Account>, locks: set<Account>)
    requires forall p, q :: p in m && q in m && m[p] == m[q] ==> p == q
    requires forall a :: a in locks <==> Plays(m, a)
    ensures |locks| == |m|
    decreases m.Keys
  {
    if m.Keys != {} {
      NonEmpty(m.Keys);
      var p :| p in m.Keys;
      var r := m - {p};
      assert m.Keys == r.Keys + {p};
      OneFewer(m, locks, p);
      PlayersCount(r, locks - {m[p]});
      assert Plays(m, m[p]);
    } else {
      if locks != {} {
        NonEmpty(locks);
        assert false;
      }
    }
  }

  lemma NonEmpty(s: set<int>)
    requires s != {}
    ensures exists k :: k in s
  {
    if forall k :: k !in s {
      assert false;
    }
  }

  lemma OneFewer(m: map<Player, Account>, locks: set<Account>, p: Player)
    requires p in m && forall q, r :: q in m && r in m && m[q] == m[r] ==> q == r
    requires forall a :: a in locks <==> Plays(m, a)
    ensures forall a :: a in locks - {m[p]} <==> Plays(m - {p}, a)
  {
    forall a
      ensures a in locks - {m[p]} <==> Plays(m - {p}, a)
    {
      if Plays(m, a) && a != m[p] {
        var q :| q in m && m[q] == a;
        assert (m - {p})[q] == a;
      }
      if Plays(m - {p}, a) {
        var q :| q in m - {p} && (m - {p})[q] == a;
        assert m[q] == a;
      }
    }
  }

  const ANNE := Credentials("anne", "a")
  const BERT := Credentials("bert", "b")

  /** One client, two accounts: everything has gone quiet, nobody plays, and the first account stays locked. */
  lemma LeakedLock()
    ensures var accounts := map[ANNE := 1, BERT := 2];
            var es := [Ask(7, ANNE), Serve(false), Deliver, Ask(7, BERT), Serve(false), Deliver, HangUp(7, true),
                Serve(false)];
            var s := Run(IDLE, accounts, es);
            s.toData == [] && s.toRoom == [] && s.account == map[] && s.locks == {1} && s.users == 1
  {
    var accounts := map[ANNE := 1, BERT := 2];
    var c, d := Context(0, ANNE, 7), Context(1, BERT, 7);
    var s1 := Step(IDLE, accounts, Ask(7, ANNE));
    assert s1 == System([c], Just(c), 1, map[7 := c], map[], {}, [Login(0, ANNE)], [], {}, 0);
    var s2 := Step(s1, accounts, Serve(false));
    assert s2 == System([c], Just(c), 1, map[7 := c], map[], {}, [], [Okay(0, 1)], {1}, 1);
    var s3 := Step(s2, accounts, Deliver);
    assert s3 == System([], Nothing, 1, map[], map[7 := 1], {}, [], [], {1}, 1);
    var s4 := Step(s3, accounts, Ask(7, BERT));
    assert s4 == System([d], Just(d), 2, map[7 := d], map[7 := 1], {}, [Login(1, BERT)], [], {1}, 1);
    var s5 := Step(s4, accounts, Serve(false));
    assert s5 == System([d], Just(d), 2, map[7 := d], map[7 := 1], {}, [], [Okay(1, 2)], {1, 2}, 2);
    var s6 := Step(s5, accounts, Deliver);
    assert s6 == System([], Nothing, 2, map[], map[7 := 2], {}, [], [], {1, 2}, 2);
    var s7 := Step(s6, accounts, HangUp(7, true));
    assert s7 == System([], Nothing, 2, map[], map[], {7}, [Logout(2)], [], {1, 2}, 2);
    var s8 := Step(s7, accounts, Serve(false));
    assert s8 == System([], Nothing, 2, map[], map[], {7}, [], [], {1}, 1);
    hide Step;
    RunOne(s7, accounts, Serve(false), []);
    RunOne(s6, accounts, HangUp(7, true), [Serve(false)]);
    RunOne(s5, accounts, Deliver, [HangUp(7, true), Serve(false)]);
    RunOne(s4, accounts, Serve(false), [Deliver, HangUp(7, true), Serve(false)]);
    RunOne(s3, accounts, Ask(7, BERT), [Serve(false), Deliver, HangUp(7, true), Serve(false)]);
    RunOne(s2, accounts, Deliver, [Ask(7, BERT), Serve(false), Deliver, HangUp(7, true), Serve(false)]);
    RunOne(s1, accounts, Serve(false), [Deliver, Ask(7, BERT), Serve(false), Deliver, HangUp(7, true), Serve(false)]);
    RunOne(IDLE, accounts, Ask(7, ANNE),
        [Serve(false), Deliver, Ask(7, BERT), Serve(false), Deliver, HangUp(7, true), Serve(false)]);
  }

  /** One client asks twice and leaves before it is answered: only its last context goes with it, and the answer to the
      other one is for a player who is gone. Nothing is overwritten, and the account stays locked. */
  lemma OrphanedLock()
    ensures var accounts := map[ANNE := 1, BERT := 2];
            var es := [Ask(7, ANNE), Ask(7, BERT), HangUp(7, true), Serve(false), Deliver];
            var s := Run(IDLE, accounts, es);
            s.toData == [] && s.toRoom == [] && s.account == map[] && s.locks == {1} && s.users == 1
  {
    var accounts := map[ANNE := 1, BERT := 2];
    var c, d := Context(0, ANNE, 7), Context(1, BERT, 7);
    var s1 := Step(IDLE, accounts, Ask(7, ANNE));
    assert s1 == System([c], Just(c), 1, map[7 := c], map[], {}, [Login(0, ANNE)], [], {}, 0);
    var s2 := Step(s1, accounts, Ask(7, BERT));
    assert s2 == System([c, d], Just(c), 2, map[7 := d], map[], {}, [Login(0, ANNE)], [], {}, 0);
    assert [c, d][1..] == [d] && Del([d], d) == [];
    var s3 := Step(s2, accounts, HangUp(7, true));
    assert s3 == System([c], Just(c), 2, map[], map[], {7}, [Login(0, ANNE)], [], {}, 0);
    var s4 := Step(s3, accounts, Serve(false));
    assert s4 == System([c], Just(c), 2, map[], map[], {7}, [], [Okay(0, 1)], {1}, 1);
    var s5 := Step(s4, accounts, Deliver);
    assert s5 == System([], Nothing, 2, map[], map[], {7}, [], [], {1}, 1);
    hide Step;
    RunOne(s4, accounts, Deliver, []);
    RunOne(s3, accounts, Serve(false), [Deliver]);
    RunOne(s2, accounts, HangUp(7, true), [Serve(false), Deliver]);
    RunOne(s1, accounts, Ask(7, BERT), [HangUp(7, true), Serve(false), Deliver]);
    RunOne(IDLE, accounts, Ask(7, ANNE), [Ask(7, BERT), HangUp(7, true), Serve(false), Deliver]);
  }

  /** One client logs in and says that it hung up: it is deleted without being logged out, and its account stays
      locked. */
  lemma VanishedLock()
    ensures var accounts := map[ANNE := 1];
            var es := [Ask(7, ANNE), Serve(false), Deliver, HangUp(7, false)];
            var s := Run(IDLE, accounts, es);
            s.toData == [] && s.toRoom == [] && s.account == map[] && s.locks == {1} && s.users == 1
  {
    var accounts := map[ANNE := 1];
    var c := Context(0, ANNE, 7);
    var s1 := Step(IDLE, accounts, Ask(7, ANNE));
    assert s1 == System([c], Just(c), 1, map[7 := c], map[], {}, [Login(0, ANNE)], [], {}, 0);
    var s2 := Step(s1, accounts, Serve(false));
    assert s2 == System([c], Just(c), 1, map[7 := c], map[], {}, [], [Okay(0, 1)], {1}, 1);
    var s3 := Step(s2, accounts, Deliver);
    assert s3 == System([], Nothing, 1, map[], map[7 := 1], {}, [], [], {1}, 1);
    var s4 := Step(s3, accounts, HangUp(7, false));
    assert s4 == System([], Nothing, 1, map[], map[], {7}, [], [], {1}, 1);
    hide Step;
    RunOne(s3, accounts, HangUp(7, false), []);
    RunOne(s2, accounts, Deliver, [HangUp(7, false)]);
    RunOne(s1, accounts, Serve(false), [Deliver, HangUp(7, false)]);
    RunOne(IDLE, accounts, Ask(7, ANNE), [Serve(false), Deliver, HangUp(7, false)]);
  }

  lemma RunOne(s: System, accounts: Accounts, e: Event, es: seq<Event>)
    ensures Run(s, accounts, [e] + es) == Run(Step(s, accounts, e), accounts, es)
  {
    assert ([e] + es)[1..] == es;
  }
}
