/** The friend registry's pointer code (roommgr/friendmgr.cpp) against its laws (FriendRegistry).

    Everyone who wants to hear about a character sits in that character's watcher list. So that a
    player leaving can be taken out of all of those lists at once, the player's own entry keeps an
    element list: raw pointers to the very list elements that carry the player elsewhere. */
module Friends {
  import BinaryTrees
  import opened Common
  import opened LinkedLists
  import opened ListHeaps
  import opened FriendRegistry

  /** A player. Its entry pointer is set once, when its character logs in, so it is a constant here. */
  class RMPlayer {
    const name: string
    const friend: CFriend?

    constructor (name: string, friend: CFriend?)
      ensures this.name == name && this.friend == friend
    {
      this.name, this.friend := name, friend;
    }
  }

  class CFriend {
    var player: RMPlayer?
    var watcherList: LinkedList?
    var elementList: LinkedList?

    constructor ()
      ensures player == null && watcherList == null && elementList == null
    {
      player, watcherList, elementList := null, null, null;
    }

    function IsAtCapacity(): bool
      reads this`elementList, Given(elementList)`size
    {
      elementList != null && elementList.size >= MAX_CAPACITY
    }

    /** Whether the player is on this entry's watcher list. */
    method BeingWatchedBy(player: RMPlayer, mgr: CFriendMgr) returns (found: bool)
      requires mgr.Valid() && this in mgr.friends
      ensures found <==> Watching(mgr.reg, this, player)
    {
      hide ListHeap.Valid, LinkedList.Valid, Inv, Watching;
      found := false;
      if watcherList != null {
        mgr.WatcherFacts(this, player);
        found := watcherList.Contains(player);
      } else {
        mgr.NoWatchers(this, player);
      }
    }

    method NeedElementList(mgr: CFriendMgr)
      requires mgr.Sound() && this in mgr.friends
      modifies this`elementList, mgr.heap
      ensures mgr.Sound() && mgr.heap.Grown() && elementList != null
    {
      hide ListHeap.Valid, Inv, Matches, Entries, CFriendMgr.Named;
      if elementList == null {
        var l := mgr.heap.NewList(this, 1);
        MatchesNewList(mgr.Fields(), old(mgr.heap.chains), mgr.heap.carries, mgr.reg, this,
            Node(player, watcherList, l), l);
        elementList := l;
        assert mgr.Fields() == old(mgr.Fields())[this := Node(player, watcherList, l)];
      }
    }

    method NeedWatcherList(mgr: CFriendMgr)
      requires mgr.Sound() && this in mgr.friends
      modifies this`watcherList, mgr.heap
      ensures mgr.Sound() && mgr.heap.Grown() && watcherList != null
    {
      hide ListHeap.Valid, Inv, Matches, Entries, CFriendMgr.Named;
      if watcherList == null {
        var l := mgr.heap.NewList(this, 0);
        MatchesNewList(mgr.Fields(), old(mgr.heap.chains), mgr.heap.carries, mgr.reg, this,
            Node(player, l, elementList), l);
        watcherList := l;
        assert mgr.Fields() == old(mgr.Fields())[this := Node(player, l, elementList)];
      }
    }

    method PushElement(e: LinkedElement, mgr: CFriendMgr)
      requires mgr.Sound() && this in mgr.friends && elementList != null
      modifies mgr`reg, mgr.heap, mgr.heap.pool, mgr.heap.lists, mgr.heap.cells
      ensures mgr.Sound() && mgr.heap.Grown()
      ensures this in old(mgr.reg.marks) && mgr.reg == MarkedBy(old(mgr.reg), this, e)
    {
      hide ListHeap.Valid, Inv, Matches, Entries, CFriendMgr.Named;
      assert elementList in mgr.heap.chains && this in mgr.reg.marks by {
        NodeFacts(mgr.Fields(), mgr.heap.chains, mgr.heap.carries, mgr.reg, this);
      }
      var b := mgr.heap.Add(elementList, e);
      MatchesAddMark(mgr.Fields(), old(mgr.heap.chains), old(mgr.heap.carries), mgr.reg, this, b, e);
      mgr.reg := MarkedBy(mgr.reg, this, e);
    }

    /** Appends a pointer to a list element to the element list. */
    method AddElement(e: LinkedElement?, mgr: CFriendMgr) returns (ok: bool)
      requires mgr.Sound() && this in mgr.friends
      modifies this`elementList, mgr`reg, mgr.heap, mgr.heap.pool, mgr.heap.lists, mgr.heap.cells
      ensures mgr.Sound() && mgr.heap.Grown()
      ensures ok <==> e != null
      ensures !ok ==> mgr.reg == old(mgr.reg)
      ensures ok ==> this in old(mgr.reg.marks) && mgr.reg == MarkedBy(old(mgr.reg), this, e)
    {
      hide ListHeap.Valid, Inv, Matches, Entries, CFriendMgr.Named;
      if e == null {
        return false;
      }
      NeedElementList(mgr);
      PushElement(e, mgr);
      ok := true;
    }

    /** The first half of a new watch: the player joins the watcher list. */
    method PushWatcher(player: RMPlayer, mgr: CFriendMgr) returns (e: LinkedElement)
      requires mgr.Sound() && Inv(mgr.reg) && this in mgr.friends && watcherList != null
      modifies mgr`reg, mgr.heap, mgr.heap.pool, mgr.heap.lists, mgr.heap.cells
      ensures mgr.Sound() && mgr.heap.Grown()
      ensures e !in old(mgr.reg.home) && this in old(mgr.reg.watchers)
      ensures mgr.reg == Hung(old(mgr.reg), this, player, e)
    {
      hide ListHeap.Valid, Inv, Matches, Entries, CFriendMgr.Named;
      assert watcherList in mgr.heap.chains && this in mgr.reg.watchers
          && mgr.reg.home.Keys <= mgr.heap.carries.Keys by {
        NodeFacts(mgr.Fields(), mgr.heap.chains, mgr.heap.carries, mgr.reg, this);
        HomesCarried(mgr.Fields(), mgr.heap.chains, mgr.heap.carries, mgr.reg);
      }
      e := mgr.heap.Add(watcherList, player);
      MatchesAddWatcher(mgr.Fields(), old(mgr.heap.chains), old(mgr.heap.carries), mgr.reg, this, e, player);
      mgr.reg := Hung(mgr.reg, this, player, e);
    }

    /** Both halves. */
    method Watch(player: RMPlayer, friend: CFriend, mgr: CFriendMgr) returns (ghost e: LinkedElement)
      requires mgr.Sound() && Inv(mgr.reg) && this in mgr.friends && friend in mgr.friends && watcherList != null
      modifies friend`elementList, mgr`reg, mgr.heap, mgr.heap.pool, mgr.heap.lists, mgr.heap.cells
      ensures mgr.Sound() && mgr.heap.Grown()
      ensures e !in old(mgr.reg.home) && this in old(mgr.reg.watchers)
      ensures friend in Hung(old(mgr.reg), this, player, e).marks
      ensures mgr.reg == MarkedBy(Hung(old(mgr.reg), this, player, e), friend, e)
    {
      hide ListHeap.Valid, Matches, Inv, CFriendMgr.Sound, Hung, MarkedBy;
      var element := PushWatcher(player, mgr);
      e := element;
      var _ := friend.AddElement(element, mgr);
    }

    /** The checks in front of a new watch, and the list that the duplicate check needs. */
    method MayWatch(player: RMPlayer, mgr: CFriendMgr) returns (ok: bool)
      requires mgr.Valid() && this in mgr.friends
      requires player.friend != null ==> player in mgr.reg.entry
      modifies this`watcherList, mgr.heap
      ensures mgr.Valid() && mgr.heap.Grown()
      ensures ok <==> Admits(mgr.reg, this, player)
      ensures ok ==> watcherList != null && player.friend in mgr.friends && player.friend in mgr.reg.marks
      ensures ok ==> mgr.reg.entry[player] == player.friend
    {
      hide ListHeap.Valid, Inv, Matches, Watching;
      mgr.GuardFacts(this, player);
      if this.player == player {
        return false;
      }
      var friend := player.friend;
      if friend == null || friend.IsAtCapacity() {
        return false;
      }
      NeedWatcherList(mgr);
      var dup := BeingWatchedBy(player, mgr);
      ok := !dup;
    }

    /** Lets a player watch this entry. The player is turned away when it is the one online here, has no entry of
        its own, watches its limit already, or watches this entry already. */
    method AddWatcher(player: RMPlayer?, mgr: CFriendMgr) returns (ok: bool)
      requires mgr.Valid() && this in mgr.friends
      requires player != null && player.friend != null ==> player in mgr.reg.entry
      modifies this`watcherList, if player == null then {} else if player.friend == null then {} else {player.friend}
      modifies mgr`reg, mgr.heap, mgr.heap.pool, mgr.heap.lists, mgr.heap.cells
      ensures mgr.Valid() && mgr.heap.Grown()
      ensures ok <==>
              && player != null && player.friend != null && player != old(this.player)
              && player.friend in old(mgr.reg.marks) && |old(mgr.reg.marks)[player.friend]| < MAX_CAPACITY
              && !Watching(old(mgr.reg), this, player)
      ensures !ok ==> mgr.reg == old(mgr.reg)
      ensures ok ==> exists e :: e !in old(mgr.reg.home) && mgr.reg == Enlist(old(mgr.reg), this, player, e)
    {
      hide ListHeap.Valid, Inv, Matches, CFriendMgr.Sound, CFriendMgr.Named, Watching, Hung, MarkedBy, Enlist, Entries;
      if player == null {
        return false;
      }
      mgr.GuardFacts(this, player);
      ok := MayWatch(player, mgr);
      if ok {
        ghost var e := Watch(player, player.friend, mgr);
        HungMarked(old(mgr.reg), this, player, e);
        EnlistKeeps(old(mgr.reg), this, player, e);
      }
    }

    /** The element list's first element that points at `e`, if any. */
    method BackOf(e: LinkedElement, mgr: CFriendMgr) returns (b: LinkedElement?)
      requires mgr.Sound() && Inv(mgr.reg) && this in mgr.friends && elementList != null
      ensures this in mgr.reg.marks && elementList in mgr.heap.chains
      ensures b == null ==> e !in mgr.reg.marks[this]
      ensures b != null ==>
              exists k: nat :: k < |mgr.reg.marks[this]| && mgr.reg.marks[this][k] == e
                               && k < |mgr.heap.chains[elementList]| && mgr.heap.chains[elementList][k] == b
    {
      hide ListHeap.Valid, Inv, LinkedList.Valid;
      NodeFacts(mgr.Fields(), mgr.heap.chains, mgr.heap.carries, mgr.reg, this);
      mgr.heap.Reading(elementList);
      hide Matches;
      b := elementList.ElementOf(e);
    }

    /** Takes the pointer to a list element out of the element list. */
    method DelElement(e: LinkedElement, mgr: CFriendMgr) returns (ok: bool)
      requires mgr.Sound() && Inv(mgr.reg) && this in mgr.friends
      modifies mgr`reg, mgr.heap, mgr.heap.pool, mgr.heap.lists, mgr.heap.cells
      ensures mgr.Sound() && mgr.heap.Grown()
      ensures this in old(mgr.reg.marks) && (ok <==> e in old(mgr.reg.marks)[this])
      ensures mgr.reg == if ok then UnmarkedBy(old(mgr.reg), this, e) else old(mgr.reg)
    {
      hide ListHeap.Valid, Inv, Matches, UnmarkedBy;
      if elementList == null {
        mgr.NoMarks(this);
        return false;
      }
      var b := BackOf(e, mgr);
      if b == null {
        return false;
      }
      DropBack(b, e, mgr);
      ok := true;
    }

    method DropBack(b: LinkedElement, ghost e: LinkedElement, mgr: CFriendMgr)
      requires mgr.Sound() && Inv(mgr.reg) && this in mgr.friends && elementList in mgr.heap.chains
      requires this in mgr.reg.marks
      requires exists k: nat :: k < |mgr.reg.marks[this]| && mgr.reg.marks[this][k] == e
                                && k < |mgr.heap.chains[elementList]| && mgr.heap.chains[elementList][k] == b
      modifies mgr`reg, mgr.heap, mgr.heap.pool, mgr.heap.lists, mgr.heap.cells
      ensures mgr.Sound() && mgr.heap.Grown()
      ensures mgr.reg == UnmarkedBy(old(mgr.reg), this, e)
    {
      hide ListHeap.Valid, Inv, Matches, Minus;
      mgr.heap.OnlyHere(b, elementList);
      MatchesDropMark(mgr.Fields(), mgr.heap.chains, mgr.heap.carries, mgr.reg, this, b, e);
      mgr.heap.Del(elementList, b);
      mgr.reg := UnmarkedBy(mgr.reg, this, e);
    }

    /** Takes an element out of the watcher list. */
    method DropWatcher(e: LinkedElement, mgr: CFriendMgr)
      requires mgr.Sound() && this in mgr.friends && this in mgr.reg.watchers && e in mgr.reg.watchers[this]
      modifies mgr`reg, mgr.heap, mgr.heap.pool, mgr.heap.lists, mgr.heap.cells
      ensures mgr.Sound() && mgr.heap.Grown()
      ensures mgr.reg == Unhung(old(mgr.reg), this, e)
    {
      hide ListHeap.Valid, Matches, Minus;
      assert watcherList in mgr.heap.chains && e in mgr.heap.chains[watcherList] by {
        NodeFacts(mgr.Fields(), mgr.heap.chains, mgr.heap.carries, mgr.reg, this);
      }
      mgr.heap.OnlyHere(e, watcherList);
      MatchesDropWatcher(mgr.Fields(), mgr.heap.chains, mgr.heap.carries, mgr.reg, this, e);
      mgr.heap.Del(watcherList, e);
      mgr.reg := Unhung(mgr.reg, this, e);
    }

    /** The watcher list's element for a player, if it has one. */
    method WatcherOf(player: RMPlayer, mgr: CFriendMgr) returns (e: LinkedElement?)
      requires mgr.Valid() && this in mgr.friends && watcherList != null
      ensures e == null <==> !Watching(mgr.reg, this, player)
      ensures e != null ==> Watching(mgr.reg, this, player) && e == WatcherElement(mgr.reg, this, player)
    {
      hide ListHeap.Valid, LinkedList.Valid, Inv;
      mgr.WatcherFacts(this, player);
      e := watcherList.ElementOf(player);
      if e != null {
        mgr.FoundWatcher(this, player, e);
      }
    }

    /** First the pointer in the player's element list goes, then the element itself. */
    method Unwatch(e: LinkedElement, friend: CFriend, mgr: CFriendMgr)
      requires mgr.Valid() && this in mgr.friends && friend in mgr.friends
      requires e in mgr.reg.home && mgr.reg.home[e] == this
      requires e in mgr.reg.carried && mgr.reg.carried[e] in mgr.reg.entry
      requires mgr.reg.entry[mgr.reg.carried[e]] == friend
      modifies mgr`reg, mgr.heap, mgr.heap.pool, mgr.heap.lists, mgr.heap.cells
      ensures mgr.Sound() && mgr.heap.Grown()
      ensures mgr.reg == Delist(old(mgr.reg), e)
    {
      hide ListHeap.Valid, Inv, Matches, CFriendMgr.Sound, CFriendMgr.Named, Entries, Delist, UnmarkedBy, Unhung;
      DelistSplit(mgr.reg, e);
      var _ := friend.DelElement(e, mgr);
      DropWatcher(e, mgr);
    }

    method UnwatchKeeping(e: LinkedElement, player: RMPlayer, friend: CFriend, mgr: CFriendMgr)
      requires mgr.Valid() && this in mgr.friends && player in mgr.reg.entry && player.friend == friend
      requires Watching(mgr.reg, this, player) && e == WatcherElement(mgr.reg, this, player)
      modifies mgr`reg, mgr.heap, mgr.heap.pool, mgr.heap.lists, mgr.heap.cells
      ensures mgr.Valid() && mgr.heap.Grown()
      ensures mgr.reg == Delist(old(mgr.reg), e)
    {
      hide ListHeap.Valid, Inv, Matches, CFriendMgr.Sound, CFriendMgr.Named, Delist, Watching;
      mgr.GuardFacts(this, player);
      DelistKeeps(mgr.reg, e);
      DelistEntry(mgr.reg, e);
      Unwatch(e, friend, mgr);
    }

    /** Stops a player watching this entry. */
    method DelWatcher(player: RMPlayer?, mgr: CFriendMgr) returns (ok: bool)
      requires mgr.Valid() && this in mgr.friends
      requires player != null && player.friend != null ==> player in mgr.reg.entry
      modifies mgr`reg, mgr.heap, mgr.heap.pool, mgr.heap.lists, mgr.heap.cells
      ensures mgr.Valid() && mgr.heap.Grown()
      ensures ok <==> player != null && player.friend != null && Watching(old(mgr.reg), this, player)
      ensures mgr.reg == if ok then Delist(old(mgr.reg), WatcherElement(old(mgr.reg), this, player)) else old(mgr.reg)
    {
      hide ListHeap.Valid, Inv, Matches, CFriendMgr.Sound, CFriendMgr.Named, Watching, Delist;
      if player == null {
        return false;
      }
      if watcherList == null {
        mgr.NoWatchers(this, player);
        return false;
      }
      var friend := player.friend;
      if friend == null {
        return false;
      }
      var e := WatcherOf(player, mgr);
      if e == null {
        return false;
      }
      UnwatchKeeping(e, player, friend, mgr);
      ok := true;
    }

    /** Hooks a player to its entry when it logs in. A second player of the same name gets the entry, but is not
        the one online under it. */
    method HandleLogin(player: RMPlayer, mgr: CFriendMgr) returns (ok: bool)
      requires mgr.Valid() && this in mgr.friends
      requires player.friend == this && player !in mgr.reg.entry
      modifies this`player, mgr`reg
      ensures mgr.Valid() && mgr.reg == LoggedIn(old(mgr.reg), this, player)
      ensures ok <==> this !in old(mgr.reg.online)
    {
      hide ListHeap.Valid, Inv, Matches, CFriendMgr.Named, LoggedIn, EntryMatches;
      assert this in mgr.reg.watchers by {
        NodeFacts(mgr.Fields(), mgr.heap.chains, mgr.heap.carries, mgr.reg, this);
      }
      LoggedInEntry(mgr.reg, this, player);
      LoginKeeps(mgr.reg, this, player);
      MatchesLogin(mgr.Fields(), mgr.heap.chains, mgr.heap.carries, mgr.reg, this, player);
      mgr.reg := LoggedIn(mgr.reg, this, player);
      if this.player != null {
        assert mgr.Fields() == old(mgr.Fields());
        return false;
      }
      this.player := player;
      assert mgr.Fields() == old(mgr.Fields())[this := Node(player, watcherList, elementList)];
      ok := true;
    }

    /** Walks the element list and has every element it points at delete itself from whichever watcher list it
        is in. */
    method UnhookAll(mgr: CFriendMgr)
      requires mgr.Sound() && Inv(mgr.reg) && this in mgr.friends && elementList != null && this in mgr.reg.marks
      modifies mgr`reg, mgr.heap, mgr.heap.pool, mgr.heap.lists, mgr.heap.cells
      ensures mgr.Sound() && mgr.heap.lists == old(mgr.heap.lists) && mgr.heap.cells == old(mgr.heap.cells)
      ensures mgr.reg == Purge(old(mgr.reg), Elements(old(mgr.reg.marks)[this]))
    {
      hide ListHeap.Valid, Matches, Inv, Purge, CFriendMgr.Sound, CFriendMgr.Walking;
      ghost var r := mgr.reg;
      ghost var k := 0;
      mgr.WalkStart(this);
      var element := elementList.head;
      while element != null
        invariant 0 <= k <= |r.marks[this]|
        invariant mgr.Sound() && mgr.heap.lists == old(mgr.heap.lists) && mgr.heap.cells == old(mgr.heap.cells)
        invariant mgr.reg == Purge(r, Elements(r.marks[this][..k])) && mgr.Walking(this, r.marks[this], element, k)
        decreases |r.marks[this]| - k
      {
        mgr.WalkStep(this, r, element, k);
        var target := element.ptr as LinkedElement;
        element := element.next;
        mgr.PurgeOne(target, r, Elements(r.marks[this][..k]), this, element, k + 1);
        k := k + 1;
      }
      mgr.WalkEnd(this, r.marks[this], k);
    }

    method GoOffline(mgr: CFriendMgr)
      requires mgr.Sound() && this in mgr.friends
      modifies this`player, mgr`reg
      ensures mgr.Sound() && mgr.reg == Offline(old(mgr.reg), this)
    {
      hide ListHeap.Valid, Matches;
      MatchesOffline(mgr.Fields(), mgr.heap.chains, mgr.heap.carries, mgr.reg, this);
      player := null;
      mgr.reg := Offline(mgr.reg, this);
      assert mgr.Fields() == old(mgr.Fields())[this := Node(null, watcherList, elementList)];
    }

    /** Empties the element list. */
    method ReleaseElements(mgr: CFriendMgr)
      requires mgr.Sound() && HomesListed(mgr.reg) && this in mgr.friends && elementList != null
      modifies mgr`reg, mgr.heap, mgr.heap.pool, mgr.heap.lists, mgr.heap.cells
      ensures mgr.Sound() && mgr.heap.lists == old(mgr.heap.lists) && mgr.heap.cells == old(mgr.heap.cells)
      ensures this in old(mgr.reg.marks) && mgr.reg == Unmarked(old(mgr.reg), this)
      ensures elementList in mgr.heap.chains && mgr.heap.chains[elementList] == []
    {
      hide ListHeap.Valid, Matches;
      mgr.Releasable(this);
      mgr.heap.Release(elementList);
      mgr.reg := Unmarked(mgr.reg, this);
    }

    /** Deletes the empty element list. */
    method DeleteElementList(mgr: CFriendMgr)
      requires mgr.Sound() && this in mgr.friends && elementList in mgr.heap.chains
      requires mgr.heap.chains[elementList] == []
      modifies this`elementList, mgr.heap
      ensures mgr.Sound() && mgr.heap.Grown()
    {
      hide ListHeap.Valid, Matches;
      MatchesDelete(mgr.Fields(), mgr.heap.chains, mgr.heap.carries, mgr.reg, this);
      mgr.heap.Drop(elementList);
      elementList := null;
      assert mgr.Fields() == old(mgr.Fields())[this := Node(player, watcherList, null)];
    }

    /** Takes the player out of every watcher list, and forgets the element list. */
    method UnhookAndForget(mgr: CFriendMgr)
      requires mgr.Sound() && Inv(mgr.reg) && this in mgr.friends && elementList != null && this in mgr.reg.marks
      requires HomesListed(Purge(mgr.reg, Elements(mgr.reg.marks[this])))
      modifies this`elementList, mgr`reg, mgr.heap, mgr.heap.pool, mgr.heap.lists, mgr.heap.cells
      ensures mgr.Sound() && mgr.heap.Grown()
      ensures this in Purge(old(mgr.reg), Elements(old(mgr.reg.marks)[this])).marks
      ensures mgr.reg == Unmarked(Purge(old(mgr.reg), Elements(old(mgr.reg.marks)[this])), this)
    {
      hide ListHeap.Valid, Matches, Inv, CFriendMgr.Sound, CFriendMgr.Named, Purge, Unmarked, Entries, HomesListed;
      UnhookAll(mgr);
      ReleaseElements(mgr);
      DeleteElementList(mgr);
    }

    /** Unhooks the player, takes it out of every watcher list, and forgets its element list. */
    method HandleLogout(player: RMPlayer, mgr: CFriendMgr) returns (ok: bool)
      requires mgr.Valid() && this in mgr.friends
      modifies this, mgr`reg, mgr.heap, mgr.heap.pool, mgr.heap.lists, mgr.heap.cells
      ensures mgr.Valid() && mgr.heap.Grown()
      ensures ok <==> this in old(mgr.reg.online) && old(mgr.reg.online)[this] == player
      ensures this in old(mgr.reg.marks) && mgr.reg == if ok then LoggedOff(old(mgr.reg), this) else old(mgr.reg)
    {
      hide ListHeap.Valid, Matches, Inv, CFriendMgr.Sound, CFriendMgr.Named, LoggedOff, Offline, Purge, Unmarked,
          Entries, HomesListed;
      mgr.GuardFacts(this, player);
      LogoutSplit(mgr.reg, this);
      if this.player != player {
        return false;
      }
      GoOffline(mgr);
      if elementList != null {
        UnhookAndForget(mgr);
      } else {
        mgr.NoMarks(this);
      }
      ok := true;
    }
  }

  lemma ElementsStep<T>(s: seq<T>, k: nat)
    requires k < |s| && Distinct(s)
    ensures s[k] !in Elements(s[..k]) && Elements(s[..k + 1]) == Elements(s[..k]) + {s[k]}
  {
    assert s[..k + 1] == s[..k] + [s[k]];
  }

  function Given(l: LinkedList?): set<LinkedList> {
    if l == null then {} else {l}
  }

  type Reg = Registry<CFriend, RMPlayer, LinkedElement>
  type Chains = map<LinkedList, seq<LinkedElement>>
  type Carries = map<LinkedElement, object?>

  /** The fields of an entry. */
  datatype Node = Node(player: RMPlayer?, watcherList: LinkedList?, elementList: LinkedList?)
  type Nodes = map<CFriend, Node>

  /** The elements of a list, a list not created yet being an empty one. */
  ghost function Chain(chains: Chains, l: LinkedList?): seq<LinkedElement> {
    if l in chains then chains[l] else []
  }

  /** A list belongs to entry `f`, in the given role. */
  ghost predicate Owns(chains: Chains, f: CFriend, l: LinkedList?, slot: nat) {
    l != null ==> l in chains && l.owner == f && l.slot == slot
  }

  /** The chain `s` of an element list holds pointers to the registry's marks, in order. */
  ghost predicate Points(s: seq<LinkedElement>, carries: Carries, marks: seq<LinkedElement>) {
    |s| == |marks| && forall j :: 0 <= j < |marks| ==> s[j] in carries && carries[s[j]] == marks[j]
  }

  /** One entry's fields and lists are what the registry says. */
  ghost predicate EntryMatches(n: Node, chains: Chains, carries: Carries, r: Reg, f: CFriend)
    requires f in r.watchers && f in r.marks
  {
    && Owns(chains, f, n.watcherList, 0)
    && Owns(chains, f, n.elementList, 1)
    && Chain(chains, n.watcherList) == r.watchers[f]
    && Points(Chain(chains, n.elementList), carries, r.marks[f])
    && n.player == if f in r.online then r.online[f] else null
  }

  ghost predicate Matches(nodes: Nodes, chains: Chains, carries: Carries, r: Reg) {
    && r.watchers.Keys == nodes.Keys && r.marks.Keys == nodes.Keys && r.online.Keys <= nodes.Keys
    && (forall f <- nodes :: EntryMatches(nodes[f], chains, carries, r, f))
    && (forall e <- r.carried :: e in carries && carries[e] == r.carried[e])
  }

  /** What the elements of `f`'s element list carry is unchanged. */
  ghost predicate BacksKept(chains: Chains, carries: Carries, carries': Carries, f: CFriend) {
    forall l <- chains :: l.owner == f && l.slot == 1 ==>
      forall e <- chains[l] :: e in carries ==> e in carries' && carries'[e] == carries[e]
  }

  /** An entry still matches when nothing it depends on changed. */
  lemma EntryKept(n: Node, chains: Chains, carries: Carries, r: Reg, f: CFriend, chains': Chains, carries': Carries,
      r': Reg)
    requires f in r.watchers && f in r.marks && EntryMatches(n, chains, carries, r, f)
    requires f in r'.watchers && r'.watchers[f] == r.watchers[f] && f in r'.marks && r'.marks[f] == r.marks[f]
    requires f in r.online <==> f in r'.online
    requires f in r.online ==> r.online[f] == r'.online[f]
    requires forall l :: l in chains && l.owner == f ==> l in chains' && chains'[l] == chains[l]
    requires BacksKept(chains, carries, carries', f)
    ensures EntryMatches(n, chains', carries', r', f)
  {
  }

  lemma BlankMatches(chains: Chains, carries: Carries, r: Reg, f: CFriend)
    requires f in r.watchers && f in r.marks && f !in r.online && r.watchers[f] == r.marks[f] == []
    ensures EntryMatches(Node(null, null, null), chains, carries, r, f)
  {
  }

  lemma MatchesCreate(nodes: Nodes, chains: Chains, carries: Carries, r: Reg, f: CFriend)
    requires Matches(nodes, chains, carries, r) && f !in nodes
    ensures Matches(nodes[f := Node(null, null, null)], chains, carries, Created(r, f))
  {
    hide EntryMatches, Owns, Points, Chain;
    forall h <- nodes
      ensures EntryMatches(nodes[h], chains, carries, Created(r, f), h)
    {
      EntryKept(nodes[h], chains, carries, r, h, chains, carries, Created(r, f));
    }
    BlankMatches(chains, carries, Created(r, f), f);
  }

  /** A list created for an entry that had none in that role changes nothing. */
  lemma MatchesNewList(nodes: Nodes, chains: Chains, carries: Carries, r: Reg, f: CFriend, n: Node, l: LinkedList)
    requires Matches(nodes, chains, carries, r) && f in nodes && l !in chains && l.owner == f
    requires if l.slot == 0 then nodes[f].watcherList == null && n == nodes[f].(watcherList := l)
             else l.slot == 1 && nodes[f].elementList == null && n == nodes[f].(elementList := l)
    ensures Matches(nodes[f := n], chains[l := []], carries, r)
  {
    forall h <- nodes
      ensures EntryMatches(nodes[h], chains[l := []], carries, r, h)
    {
      EntryKept(nodes[h], chains, carries, r, h, chains[l := []], carries, r);
    }
    assert EntryMatches(n, chains[l := []], carries, r, f);
    hide EntryMatches;
  }

  /** An entry's own watcher list is replaced. */
  lemma EntryRelisted(n: Node, chains: Chains, carries: Carries, r: Reg, f: CFriend,
                      s: seq<LinkedElement>, carries': Carries, r': Reg)
    requires f in r.watchers && f in r.marks && EntryMatches(n, chains, carries, r, f) && n.watcherList != null
    requires r' == r.(watchers := r.watchers[f := s], home := r'.home, carried := r'.carried)
    requires BacksKept(chains, carries, carries', f)
    ensures EntryMatches(n, chains[n.watcherList := s], carries', r', f)
  {
  }

  /** The watcher list of an entry is no list of another one's. */
  lemma ListsKept(nodes: Nodes, chains: Chains, carries: Carries, r: Reg, f: CFriend, h: CFriend)
    requires Matches(nodes, chains, carries, r) && f in nodes && nodes[f].watcherList != null && h != f
    ensures nodes[f].watcherList in chains && nodes[f].watcherList.owner != h
  {
    assert EntryMatches(nodes[f], chains, carries, r, f);
  }

  /** A change to one watcher list. */
  lemma MatchesWatchers(nodes: Nodes, chains: Chains, carries: Carries, r: Reg, f: CFriend,
                        s: seq<LinkedElement>, carries': Carries, r': Reg)
    requires Matches(nodes, chains, carries, r) && f in nodes && nodes[f].watcherList != null
    requires r' == r.(watchers := r.watchers[f := s], home := r'.home, carried := r'.carried)
    requires forall h <- nodes :: BacksKept(chains, carries, carries', h)
    requires forall e <- r'.carried :: e in carries' && carries'[e] == r'.carried[e]
    ensures Matches(nodes, chains[nodes[f].watcherList := s], carries', r')
  {
    hide EntryMatches;
    var chains' := chains[nodes[f].watcherList := s];
    forall h <- nodes
      ensures EntryMatches(nodes[h], chains', carries', r', h)
    {
      if h != f {
        ListsKept(nodes, chains, carries, r, f, h);
        EntryKept(nodes[h], chains, carries, r, h, chains', carries', r');
      } else {
        EntryRelisted(nodes[f], chains, carries, r, f, s, carries', r');
      }
    }
  }

  /** A change to one element list. */
  lemma MatchesMarks(nodes: Nodes, chains: Chains, carries: Carries, r: Reg, g: CFriend,
                     s: seq<LinkedElement>, carries': Carries, marks: seq<LinkedElement>)
    requires Matches(nodes, chains, carries, r) && g in nodes && nodes[g].elementList != null
    requires Points(s, carries', marks)
    requires forall h <- nodes :: h != g ==> BacksKept(chains, carries, carries', h)
    requires forall e <- r.carried :: e in carries' && carries'[e] == r.carried[e]
    ensures Matches(nodes, chains[nodes[g].elementList := s], carries', r.(marks := r.marks[g := marks]))
  {
    var chains', r' := chains[nodes[g].elementList := s], r.(marks := r.marks[g := marks]);
    assert EntryMatches(nodes[g], chains, carries, r, g);
    forall h <- nodes
      ensures EntryMatches(nodes[h], chains', carries', r', h)
    {
      if h != g {
        EntryKept(nodes[h], chains, carries, r, h, chains', carries', r');
      }
    }
    hide EntryMatches;
  }

  /** Half of `Enlist`: the watcher list has the new element, the player's entry does not mark it yet. */
  ghost function Hung(r: Reg, f: CFriend, p: RMPlayer, e: LinkedElement): Reg
    requires f in r.watchers
  {
    r.(watchers := r.watchers[f := r.watchers[f] + [e]], home := r.home[e := f], carried := r.carried[e := p])
  }

  ghost function MarkedBy(r: Reg, g: CFriend, e: LinkedElement): Reg
    requires g in r.marks
  {
    r.(marks := r.marks[g := r.marks[g] + [e]])
  }

  lemma HungMarked(r: Reg, f: CFriend, p: RMPlayer, e: LinkedElement)
    requires f in r.watchers && p in r.entry && r.entry[p] in r.marks
    ensures MarkedBy(Hung(r, f, p, e), r.entry[p], e) == Enlist(r, f, p, e)
    ensures Enlist(r, f, p, e).entry == r.entry
  {
  }

  ghost function UnmarkedBy(r: Reg, g: CFriend, e: LinkedElement): Reg
    requires g in r.marks
  {
    r.(marks := r.marks[g := Minus(r.marks[g], {e})])
  }

  lemma PointsDrop(s: seq<LinkedElement>, carries: Carries, marks: seq<LinkedElement>, k: nat)
    requires Points(s, carries, marks) && Distinct(s) && k < |s|
    ensures Points(Without(s, k), carries - {s[k]}, Without(marks, k))
  {
  }

  /** `b` sits in one chain only. */
  ghost predicate Alone(chains: Chains, b: LinkedElement, l: LinkedList) {
    && l in chains && Distinct(chains[l]) && b in chains[l]
    && forall m <- chains :: m != l ==> b !in chains[m]
  }

  ghost function Unhung(r: Reg, f: CFriend, e: LinkedElement): Reg
    requires f in r.watchers
  {
    r.(watchers := r.watchers[f := Minus(r.watchers[f], {e})], home := r.home - {e}, carried := r.carried - {e})
  }

  lemma LoginEntry(n: Node, chains: Chains, carries: Carries, r: Reg, f: CFriend, p: RMPlayer)
    requires f in r.watchers && f in r.marks && EntryMatches(n, chains, carries, r, f)
    ensures n.player == null <==> f !in r.online
    ensures EntryMatches(if n.player == null then n.(player := p) else n, chains, carries, LoggedIn(r, f, p), f)
  {
  }

  lemma MatchesLogin(nodes: Nodes, chains: Chains, carries: Carries, r: Reg, f: CFriend, p: RMPlayer)
    requires Matches(nodes, chains, carries, r) && f in nodes
    ensures nodes[f].player == null <==> f !in r.online
    ensures var nodes' := if nodes[f].player == null then nodes[f := nodes[f].(player := p)] else nodes;
            Matches(nodes', chains, carries, LoggedIn(r, f, p))
  {
    hide EntryMatches;
    LoginEntry(nodes[f], chains, carries, r, f, p);
    forall h <- nodes
      ensures h != f ==> EntryMatches(nodes[h], chains, carries, LoggedIn(r, f, p), h)
    {
      if h != f {
        EntryKept(nodes[h], chains, carries, r, h, chains, carries, LoggedIn(r, f, p));
      }
    }
  }

  ghost function Offline(r: Reg, f: CFriend): Reg {
    r.(online := r.online - {f})
  }

  ghost function Unmarked(r: Reg, g: CFriend): Reg
    requires g in r.marks
  {
    r.(marks := r.marks[g := []])
  }

  /** Every element in use is still on the list of its home. */
  ghost predicate HomesListed(r: Reg) {
    r.home.Keys == r.carried.Keys && forall e <- r.home :: r.home[e] in r.watchers && e in r.watchers[r.home[e]]
  }

  lemma PurgedHomesListed(r: Reg, xs: set<LinkedElement>)
    requires Inv(r)
    ensures HomesListed(Purge(r, xs))
  {
    forall e <- Purge(r, xs).home
      ensures r.home[e] in r.watchers && e in Purge(r, xs).watchers[r.home[e]]
    {
      PurgeLists(r, xs, r.home[e]);
    }
  }

  lemma LogoutNothing(r: Reg, g: CFriend)
    requires g in r.marks && r.marks[g] == []
    ensures Logout(r, g) == r
  {
    assert Elements(r.marks[g]) == {};
    PurgeNone(r);
  }

  /** Logging off, one step at a time. */
  lemma LogoutSplit(r: Reg, g: CFriend)
    requires Inv(r) && g in r.marks
    ensures var off := Offline(r, g);
            var purged := Purge(off, Elements(off.marks[g]));
            && Inv(off) && off.marks == r.marks && HomesListed(purged) && g in purged.marks
            && LoggedOff(r, g) == Unmarked(purged, g) && Inv(LoggedOff(r, g))
            && (r.marks[g] == [] ==> LoggedOff(r, g) == off)
            && LoggedOff(r, g).entry == r.entry
  {
    hide Inv, HomesListed, Elements, Thinned;
    var off := Offline(r, g);
    OnlineFree(r, r.online - {g});
    LogoutKeeps(r, g);
    OnlineFree(Logout(r, g), r.online - {g});
    PurgedHomesListed(off, Elements(off.marks[g]));
    if r.marks[g] == [] {
      LogoutNothing(r, g);
    }
  }

  lemma MatchesOffline(nodes: Nodes, chains: Chains, carries: Carries, r: Reg, f: CFriend)
    requires Matches(nodes, chains, carries, r) && f in nodes
    ensures Matches(nodes[f := nodes[f].(player := null)], chains, carries, Offline(r, f))
  {
    hide EntryMatches;
    forall h <- nodes
      ensures h != f ==> EntryMatches(nodes[h], chains, carries, Offline(r, f), h)
    {
      if h != f {
        EntryKept(nodes[h], chains, carries, r, h, chains, carries, Offline(r, f));
      }
    }
    EntryOffline(nodes[f], chains, carries, r, f);
  }

  lemma EntryOffline(n: Node, chains: Chains, carries: Carries, r: Reg, f: CFriend)
    requires f in r.watchers && f in r.marks && EntryMatches(n, chains, carries, r, f)
    ensures EntryMatches(n.(player := null), chains, carries, Offline(r, f), f)
  {
  }

  lemma MatchesDelete(nodes: Nodes, chains: Chains, carries: Carries, r: Reg, f: CFriend)
    requires Matches(nodes, chains, carries, r) && f in nodes
    requires nodes[f].elementList in chains && chains[nodes[f].elementList] == []
    ensures Matches(nodes[f := nodes[f].(elementList := null)], chains - {nodes[f].elementList}, carries, r)
  {
    var l: LinkedList := nodes[f].elementList;
    assert EntryMatches(nodes[f], chains, carries, r, f);
    assert EntryMatches(nodes[f].(elementList := null), chains - {l}, carries, r, f);
    forall h <- nodes
      ensures h != f ==> EntryMatches(nodes[h], chains - {l}, carries, r, h)
    {
      if h != f {
        EntryKept(nodes[h], chains, carries, r, h, chains - {l}, carries, r);
      }
    }
    hide EntryMatches;
  }

  /** Removing a watcher, one list at a time. */
  lemma DelistSplit(r: Reg, e: LinkedElement)
    requires Inv(r) && e in r.home
    ensures var f, g := r.home[e], r.entry[r.carried[e]];
            && f in r.watchers && g in r.marks && e in r.marks[g] && e in r.watchers[f]
            && UnmarkedBy(r, g, e).watchers == r.watchers
            && Delist(r, e) == Unhung(UnmarkedBy(r, g, e), f, e)
  {
    var f := r.home[e];
    forall h <- r.watchers
      ensures h != f ==> e !in r.watchers[h]
    {
      assert Listed(r, h);
    }
    assert e in r.watchers[f] && e in r.marks[r.entry[r.carried[e]]];
    hide Inv, Shaped, Known, Once, Listed, Marked, Minus;
    ThinnedOne(r.watchers, f, e);
  }

  lemma LoggedInEntry(r: Reg, f: CFriend, p: RMPlayer)
    ensures LoggedIn(r, f, p).entry == r.entry[p := f]
  {
  }

  lemma DelistEntry(r: Reg, e: LinkedElement)
    requires Inv(r) && e in r.home
    ensures Delist(r, e).entry == r.entry && e in r.carried && r.carried[e] in r.entry
  {
  }

  lemma MatchesDropWatcher(nodes: Nodes, chains: Chains, carries: Carries, r: Reg, f: CFriend, e: LinkedElement)
    requires Matches(nodes, chains, carries, r) && f in nodes
    requires nodes[f].watcherList in chains && Alone(chains, e, nodes[f].watcherList)
    ensures f in r.watchers
    ensures var w := nodes[f].watcherList;
            Matches(nodes, chains[w := Minus(chains[w], {e})], carries - {e}, Unhung(r, f, e))
  {
    NodeFacts(nodes, chains, carries, r, f);
    hide EntryMatches, Minus, Distinct;
    MatchesWatchers(nodes, chains, carries, r, f, Minus(chains[nodes[f].watcherList], {e}), carries - {e},
        Unhung(r, f, e));
  }

  lemma MatchesDropMark(nodes: Nodes, chains: Chains, carries: Carries, r: Reg, g: CFriend, b: LinkedElement,
      e: LinkedElement)
    requires Matches(nodes, chains, carries, r) && Inv(r) && g in nodes && g in r.marks
    requires nodes[g].elementList in chains && Alone(chains, b, nodes[g].elementList)
    requires exists k: nat :: k < |r.marks[g]| && r.marks[g][k] == e
                              && k < |chains[nodes[g].elementList]| && chains[nodes[g].elementList][k] == b
    ensures var l := nodes[g].elementList;
            Matches(nodes, chains[l := Minus(chains[l], {b})], carries - {b}, UnmarkedBy(r, g, e))
  {
    var l := nodes[g].elementList;
    NodeFacts(nodes, chains, carries, r, g);
    BackNotCarried(nodes, chains, carries, r, g, b);
    var k: nat :| k < |r.marks[g]| && r.marks[g][k] == e && chains[l][k] == b;
    assert Marked(r, g);
    WithoutIsMinus(chains[l], k);
    WithoutIsMinus(r.marks[g], k);
    hide EntryMatches, Inv, Minus, Known, Once, Marked, Listed;
    PointsDrop(chains[l], carries, r.marks[g], k);
    hide Without, Points, Distinct;
    MatchesMarks(nodes, chains, carries, r, g, Minus(chains[l], {b}), carries - {b}, Minus(r.marks[g], {e}));
  }

  /** An element of an element list is not a watcher element. */
  lemma BackNotCarried(nodes: Nodes, chains: Chains, carries: Carries, r: Reg, g: CFriend, b: LinkedElement)
    requires Matches(nodes, chains, carries, r) && Inv(r) && g in nodes
    requires nodes[g].elementList in chains && Alone(chains, b, nodes[g].elementList)
    ensures b !in r.carried
  {
    NodeFacts(nodes, chains, carries, r, g);
  }

  lemma NodeFacts(nodes: Nodes, chains: Chains, carries: Carries, r: Reg, f: CFriend)
    requires Matches(nodes, chains, carries, r) && f in nodes
    ensures f in r.watchers && f in r.marks
    ensures Owns(chains, f, nodes[f].watcherList, 0) && Chain(chains, nodes[f].watcherList) == r.watchers[f]
    ensures Owns(chains, f, nodes[f].elementList, 1) && Points(Chain(chains, nodes[f].elementList), carries, r.marks[f])
  {
    assert EntryMatches(nodes[f], chains, carries, r, f);
  }

  lemma HomesCarried(nodes: Nodes, chains: Chains, carries: Carries, r: Reg)
    requires Matches(nodes, chains, carries, r) && Inv(r)
    ensures r.home.Keys == r.carried.Keys && r.home.Keys <= carries.Keys
  {
  }

  lemma MatchesAddMark(nodes: Nodes, chains: Chains, carries: Carries, r: Reg, g: CFriend, b: LinkedElement,
      e: LinkedElement)
    requires Matches(nodes, chains, carries, r) && g in nodes && b !in carries
    requires nodes[g].elementList in chains && g in r.marks
    ensures var l := nodes[g].elementList;
            Matches(nodes, chains[l := chains[l] + [b]], carries[b := e], MarkedBy(r, g, e))
  {
    NodeFacts(nodes, chains, carries, r, g);
    hide EntryMatches;
    MatchesMarks(nodes, chains, carries, r, g, chains[nodes[g].elementList] + [b], carries[b := e], r.marks[g] + [e]);
  }

  lemma MatchesAddWatcher(nodes: Nodes, chains: Chains, carries: Carries, r: Reg, f: CFriend, e: LinkedElement,
      p: RMPlayer)
    requires Matches(nodes, chains, carries, r) && f in nodes && e !in carries
    requires nodes[f].watcherList in chains && f in r.watchers
    ensures var w := nodes[f].watcherList;
            Matches(nodes, chains[w := chains[w] + [e]], carries[e := p], Hung(r, f, p, e))
  {
    NodeFacts(nodes, chains, carries, r, f);
    hide EntryMatches;
    MatchesWatchers(nodes, chains, carries, r, f, chains[nodes[f].watcherList] + [e], carries[e := p],
        Hung(r, f, p, e));
  }

  /** Each player's entry pointer is the registry's. */
  ghost predicate Entries(entry: map<RMPlayer, CFriend>) {
    forall p <- entry :: p.friend == entry[p]
  }

  ghost predicate Walks(chains: Chains, carries: Carries, l: LinkedList?, marks: seq<LinkedElement>,
      element: LinkedElement?, k: int) {
    && l in chains && l.slot == 1
    && Points(chains[l], carries, marks)
    && element == Nth(chains[l], k)
  }

  /** Deleting an element of a watcher list does not disturb a walk over an element list. */
  lemma WalksKept(chains: Chains, carries: Carries, l: LinkedList, marks: seq<LinkedElement>, element: LinkedElement?,
      k: int, w: LinkedList, e: LinkedElement)
    requires Walks(chains, carries, l, marks, element, k) && w.slot == 0 && Alone(chains, e, w)
    ensures Walks(chains[w := Minus(chains[w], {e})], carries - {e}, l, marks, element, k)
  {
    hide Minus, Distinct;
  }

  class CFriendMgr {
    const heap: ListHeap
    /** What the tree holds, as a map (`BinaryTrees`). */
    var tree: map<string, CFriend>
    ghost var friends: set<CFriend>
    ghost var reg: Reg

    ghost function Fields(): Nodes
      reads this`friends, friends`player, friends`watcherList, friends`elementList
    {
      map f | f in friends :: Node(f.player, f.watcherList, f.elementList)
    }

    /** The pointers say what the registry says. */
    ghost predicate Sound()
      reads this`friends, this`reg, friends`player, friends`watcherList, friends`elementList
      reads heap, heap.pool, heap.lists, heap.cells
    {
      heap.Valid() && Matches(Fields(), heap.chains, heap.carries, reg)
    }

    ghost predicate Named()
      reads this`tree, this`friends
    {
      forall n <- tree :: tree[n] in friends
    }

    ghost predicate Valid()
      reads this, heap, heap.pool, heap.lists, heap.cells, friends
    {
      && Sound()
      && Inv(reg)
      && Entries(reg.entry)
      && Named()
    }

    /** The list search finds a player exactly when the registry says it watches. */
    lemma WatcherFacts(f: CFriend, p: RMPlayer)
      requires Valid() && f in friends && f.watcherList != null
      ensures f.watcherList.Valid()
      ensures (exists x :: x in f.watcherList.elems && x.ptr == p) <==> Watching(reg, f, p)
    {
      NodeFacts(Fields(), heap.chains, heap.carries, reg, f);
      heap.Reading(f.watcherList);
      hide LinkedList.Valid;
      assert Listed(reg, f);
    }

    /** A marked element not purged yet is in the watcher list of its home, and its back pointer says so. */
    lemma Located(e: LinkedElement, r: Reg, xs: set<LinkedElement>)
      requires Sound() && reg == Purge(r, xs) && Inv(r) && e in r.home && e !in xs
      ensures var f := r.home[e];
              && f in friends && f.watcherList in heap.chains && Alone(heap.chains, e, f.watcherList)
              && e in heap.carries && e.list == f.watcherList && f.watcherList.slot == 0
    {
      hide ListHeap.Valid, Minus;
      var f := r.home[e];
      NodeFacts(Fields(), heap.chains, heap.carries, reg, f);
      assert e in r.watchers[f];
      heap.OnlyHere(e, f.watcherList);
      heap.OnePlace(e, f.watcherList);
    }

    /** The walk over `g`'s element list, which still points at `marks`, is about to visit position k. */
    ghost predicate Walking(g: CFriend, marks: seq<LinkedElement>, element: LinkedElement?, k: int)
      reads g`elementList, heap`chains, heap`carries
    {
      Walks(heap.chains, heap.carries, g.elementList, marks, element, k)
    }

    lemma WalkStart(g: CFriend)
      requires Sound() && g in friends && g.elementList != null
      ensures g in reg.marks && Walking(g, reg.marks[g], g.elementList.head, 0)
      ensures reg == Purge(reg, Elements(reg.marks[g][..0]))
    {
      NodeFacts(Fields(), heap.chains, heap.carries, reg, g);
      heap.Reading(g.elementList);
      assert Elements(reg.marks[g][..0]) == {};
      PurgeNone(reg);
    }

    lemma WalkStep(g: CFriend, r: Reg, element: LinkedElement, k: nat)
      requires Sound() && Inv(r) && g in r.marks && Walking(g, r.marks[g], element, k)
      ensures k < |r.marks[g]| && element.ptr == r.marks[g][k] && Walking(g, r.marks[g], element.next, k + 1)
      ensures r.marks[g][k] in r.home && r.marks[g][k] !in Elements(r.marks[g][..k])
      ensures Elements(r.marks[g][..k + 1]) == Elements(r.marks[g][..k]) + {r.marks[g][k]}
    {
      hide Elements, Known, Once;
      heap.Reading(g.elementList);
      assert g.elementList.LinkedAt(k);
      assert Marked(r, g);
      ElementsStep(r.marks[g], k);
    }

    lemma WalkEnd(g: CFriend, marks: seq<LinkedElement>, k: nat)
      requires Walking(g, marks, null, k) && k <= |marks|
      ensures marks[..k] == marks
    {
    }

    /** An element deletes itself from the watcher list its back pointer names. */
    method Detach(e: LinkedElement, ghost f: CFriend)
      requires Sound() && f in friends && f.watcherList in heap.chains && Alone(heap.chains, e, f.watcherList)
      requires e in heap.carries && e.list == f.watcherList
      modifies this`reg, heap, heap.pool, heap.lists, heap.cells
      ensures Sound() && heap.lists == old(heap.lists) && heap.cells == old(heap.cells)
      ensures f in old(reg.watchers) && reg == Unhung(old(reg), f, e)
      ensures heap.chains == old(heap.chains)[f.watcherList := Minus(old(heap.chains)[f.watcherList], {e})]
      ensures heap.carries == old(heap.carries) - {e}
    {
      hide ListHeap.Valid, Matches, Minus;
      MatchesDropWatcher(Fields(), heap.chains, heap.carries, reg, f, e);
      hide Alone;
      heap.DeleteFromList(e);
      reg := Unhung(reg, f, e);
    }

    /** One step of the walk. */
    method PurgeOne(target: LinkedElement, ghost r: Reg, ghost xs: set<LinkedElement>, ghost g: CFriend,
        ghost next: LinkedElement?, ghost k: int)
      requires Sound() && reg == Purge(r, xs) && Inv(r) && target in r.home && target !in xs
      requires g in r.marks && Walking(g, r.marks[g], next, k)
      modifies this`reg, heap, heap.pool, heap.lists, heap.cells
      ensures Sound() && heap.lists == old(heap.lists) && heap.cells == old(heap.cells)
      ensures reg == Purge(r, xs + {target}) && Walking(g, r.marks[g], next, k)
    {
      hide Sound, Minus, Thinned, Inv, Alone, Distinct, Points;
      PurgeStep(r, xs, target);
      Located(target, r, xs);
      ghost var f := r.home[target];
      WalksKept(heap.chains, heap.carries, g.elementList, r.marks[g], next, k, f.watcherList, target);
      Detach(target, f);
    }

    /** What emptying the element list of `g` does to the invariant. */
    lemma Releasable(g: CFriend)
      requires Sound() && HomesListed(reg) && g in friends && g.elementList != null
      ensures g in reg.marks && g.elementList in heap.chains
      ensures Matches(Fields(), heap.chains[g.elementList := []], heap.carries - Elements(heap.chains[g.elementList]),
              Unmarked(reg, g))
    {
      hide ListHeap.Valid;
      var nodes, chains, carries := Fields(), heap.chains, heap.carries;
      NodeFacts(nodes, chains, carries, reg, g);
      var l: LinkedList := g.elementList;
      forall e <- chains[l]
        ensures forall m <- chains :: m != l ==> e !in chains[m]
      {
        heap.OnlyHere(e, l);
      }
      forall e <- reg.carried
        ensures e !in chains[l]
      {
        NodeFacts(nodes, chains, carries, reg, reg.home[e]);
      }
      hide EntryMatches, HomesListed;
      MatchesMarks(nodes, chains, carries, reg, g, [], carries - Elements(chains[l]), []);
    }

    lemma NoMarks(g: CFriend)
      requires Sound() && g in friends && g.elementList == null
      ensures g in reg.marks && reg.marks[g] == []
    {
      NodeFacts(Fields(), heap.chains, heap.carries, reg, g);
    }

    lemma FoundWatcher(f: CFriend, p: RMPlayer, e: LinkedElement)
      requires Valid() && f in friends && f.watcherList != null && e in f.watcherList.elems && e.ptr == p
      ensures Watching(reg, f, p) && e == WatcherElement(reg, f, p)
      ensures f.watcherList in heap.chains && e in heap.chains[f.watcherList]
    {
      NodeFacts(Fields(), heap.chains, heap.carries, reg, f);
      heap.Reading(f.watcherList);
      hide LinkedList.Valid;
      assert Listed(reg, f);
    }

    lemma NoWatchers(f: CFriend, p: RMPlayer)
      requires Valid() && f in friends && f.watcherList == null
      ensures !Watching(reg, f, p)
    {
      NodeFacts(Fields(), heap.chains, heap.carries, reg, f);
    }

    /** The fields the guards look at mean what the registry's guards mean. */
    lemma GuardFacts(f: CFriend, p: RMPlayer)
      requires Valid() && f in friends
      ensures f in reg.watchers && f in reg.marks && (f.player == p <==> f in reg.online && reg.online[f] == p)
      ensures p in reg.entry ==>
                var g := reg.entry[p];
                g in friends && g in reg.marks && p.friend == g
                    && (g.IsAtCapacity() <==> |reg.marks[g]| >= MAX_CAPACITY)
    {
      hide ListHeap.Valid;
      assert EntryMatches(Fields()[f], heap.chains, heap.carries, reg, f);
      if p in reg.entry {
        var g := reg.entry[p];
        NodeFacts(Fields(), heap.chains, heap.carries, reg, g);
        if g.elementList != null {
          heap.Reading(g.elementList);
        }
      }
    }

    constructor ()
      ensures Valid() && reg == Registry(map[], map[], map[], map[], map[], map[]) && tree == map[] && friends == {}
      ensures fresh(heap) && fresh(heap.pool) && heap.lists == {} && heap.cells == {}
    {
      heap := new ListHeap();
      tree, friends := map[], {};
      reg := Registry(map[], map[], map[], map[], map[], map[]);
    }

    /** Finds the entry of a name, however its letters are written, and makes it the first time. */
    method FindFriend(name: Maybe<string>) returns (f: CFriend?)
      requires Valid()
      modifies this`tree, this`friends, this`reg
      ensures Valid() && (f == null <==> name.Nothing?)
      ensures f == null ==> reg == old(reg) && tree == old(tree) && friends == old(friends)
      ensures f != null ==> f in friends && Entry(name.value) in tree && tree[Entry(name.value)] == f
      ensures f != null && Entry(name.value) in old(tree) ==>
              reg == old(reg) && tree == old(tree) && friends == old(friends)
      ensures f != null && Entry(name.value) !in old(tree) ==>
              fresh(f) && reg == Created(old(reg), f) && friends == old(friends) + {f}
              && tree == old(tree)[Entry(name.value) := f]
      ensures forall n <- old(tree) :: n in tree && tree[n] == old(tree[n])
    {
      hide ListHeap.Valid, Inv, Matches, Entries, BinaryTrees.Fold;
      if name.Nothing? {
        return null;
      }
      var key := Entry(name.value);
      if key in tree {
        f := tree[key];
      } else {
        var made := new CFriend();
        MatchesCreate(Fields(), heap.chains, heap.carries, reg, made);
        CreateKeeps(reg, made);
        tree, friends, reg := tree[key := made], friends + {made}, Created(reg, made);
        assert Fields() == old(Fields())[made := Node(null, null, null)];
        f := made;
      }
    }
  }

  /** The tree of friends does not tell capital letters from small ones. */
  function Entry(name: string): string {
    BinaryTrees.Fold(false, name)
  }
}
