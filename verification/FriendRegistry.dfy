/** What the friend registry's pointers amount to, as a value, and the laws its operations keep.

    F are registry entries (one per character name), P players, E list elements. Friends.dfy proves
    that the pointer code computes these operations. */
module FriendRegistry {
  import opened LinkedLists

  const MAX_CAPACITY := 200

  datatype Registry<!F, !P, !E> = Registry(
    watchers: map<F, seq<E>>,   // each entry's watcher list
    marks: map<F, seq<E>>,      // each entry's element list: where its own players are listed
    home: map<E, F>,            // whose watcher list an element is in
    carried: map<E, P>,         // which player an element carries
    entry: map<P, F>,           // each player's own entry
    online: map<F, P>)          // the player logged in under an entry

  ghost predicate Shaped<F, P, E>(r: Registry<F, P, E>) {
    && r.watchers.Keys == r.marks.Keys
    && r.home.Keys == r.carried.Keys
    && (forall p <- r.entry :: r.entry[p] in r.watchers)
    && (forall e <- r.home :: r.home[e] in r.watchers && r.carried[e] in r.entry)
  }

  /** An element in use is on the list of its home and is marked by the entry of its player. */
  ghost predicate Known<F, P, E>(r: Registry<F, P, E>)
    requires Shaped(r)
  {
    forall e <- r.home :: e in r.watchers[r.home[e]] && e in r.marks[r.entry[r.carried[e]]]
  }

  /** A watcher list holds, once each, only elements in use whose home it is. */
  ghost predicate Listed<F, P, E>(r: Registry<F, P, E>, f: F)
    requires Shaped(r) && f in r.watchers
  {
    Distinct(r.watchers[f]) && forall e <- r.watchers[f] :: e in r.home && r.home[e] == f
  }

  /** An element list holds, once each, only elements in use that carry the entry's own players, and it
      stays within capacity. */
  ghost predicate Marked<F, P, E>(r: Registry<F, P, E>, g: F)
    requires Shaped(r) && g in r.marks
  {
    && Distinct(r.marks[g]) && |r.marks[g]| <= MAX_CAPACITY
    && forall e <- r.marks[g] :: e in r.home && r.entry[r.carried[e]] == g
  }

  /** No player is twice on one watcher list. */
  ghost predicate Once<F, P, E>(r: Registry<F, P, E>)
    requires Shaped(r)
  {
    forall d <- r.home, e <- r.home :: r.home[d] == r.home[e] && r.carried[d] == r.carried[e] ==> d == e
  }

  ghost predicate Inv<F, P, E>(r: Registry<F, P, E>) {
    && Shaped(r) && Known(r) && Once(r)
    && (forall f <- r.watchers :: Listed(r, f))
    && (forall g <- r.marks :: Marked(r, g))
  }

  /** Player `p` is on the watcher list of `f`. */
  ghost predicate Watching<F, P, E>(r: Registry<F, P, E>, f: F, p: P)
    requires Inv(r)
  {
    f in r.watchers && exists e :: e in r.watchers[f] && r.carried[e] == p
  }

  ghost function Enlist<F, P, E>(r: Registry<F, P, E>, f: F, p: P, e: E): Registry<F, P, E>
    requires f in r.watchers && p in r.entry && r.entry[p] in r.marks
  {
    r.(watchers := r.watchers[f := r.watchers[f] + [e]],
       marks := r.marks[r.entry[p] := r.marks[r.entry[p]] + [e]],
       home := r.home[e := f],
       carried := r.carried[e := p])
  }

  ghost function Thinned<F, E>(m: map<F, seq<E>>, xs: set<E>): map<F, seq<E>> {
    map h | h in m :: Minus(m[h], xs)
  }

  /** Takes elements out of every watcher list, the way deleting them through their back pointers does. */
  ghost function Purge<F, P, E>(r: Registry<F, P, E>, xs: set<E>): Registry<F, P, E> {
    r.(watchers := Thinned(r.watchers, xs),
       home := r.home - xs,
       carried := r.carried - xs)
  }

  ghost function Delist<F, P, E>(r: Registry<F, P, E>, e: E): Registry<F, P, E>
    requires Shaped(r) && e in r.home
  {
    var g := r.entry[r.carried[e]];
    Purge(r, {e}).(marks := r.marks[g := Minus(r.marks[g], {e})])
  }

  ghost function Logout<F, P, E>(r: Registry<F, P, E>, g: F): Registry<F, P, E>
    requires g in r.marks
  {
    Purge(r, Elements(r.marks[g])).(marks := r.marks[g := []])
  }

  lemma EnlistKnown<F, P, E>(r: Registry<F, P, E>, f: F, p: P, e: E)
    requires Inv(r) && f in r.watchers && p in r.entry && e !in r.home
    ensures Shaped(Enlist(r, f, p, e)) && Known(Enlist(r, f, p, e))
  {
    hide Listed, Marked, Once;
    var n := Enlist(r, f, p, e);
    forall x <- n.home
      ensures x in n.watchers[n.home[x]] && x in n.marks[n.entry[n.carried[x]]]
    {
      assert x == e || x in r.home;
    }
  }

  lemma EnlistOnce<F, P, E>(r: Registry<F, P, E>, f: F, p: P, e: E)
    requires Inv(r) && f in r.watchers && p in r.entry && e !in r.home
    requires !Watching(r, f, p)
    ensures Shaped(Enlist(r, f, p, e)) && Once(Enlist(r, f, p, e))
  {
    forall x <- r.home
      ensures !(r.home[x] == f && r.carried[x] == p)
    {
      assert x in r.watchers[r.home[x]];
    }
  }

  lemma EnlistShapes<F, P, E>(r: Registry<F, P, E>, f: F, p: P, e: E)
    requires Inv(r) && f in r.watchers && p in r.entry && e !in r.home
    ensures Shaped(Enlist(r, f, p, e))
  {
    hide Known, Once, Listed, Marked;
  }

  lemma EnlistLists<F, P, E>(r: Registry<F, P, E>, f: F, p: P, e: E, g: F)
    requires Inv(r) && f in r.watchers && p in r.entry && e !in r.home && g in r.watchers
    ensures Shaped(Enlist(r, f, p, e)) && Listed(Enlist(r, f, p, e), g)
  {
    hide Known, Once, Distinct, Marked;
    assert Listed(r, g);
    EnlistShapes(r, f, p, e);
    DistinctAppend(r.watchers[g], e);
  }

  lemma EnlistMarks<F, P, E>(r: Registry<F, P, E>, f: F, p: P, e: E, g: F)
    requires Inv(r) && f in r.watchers && p in r.entry && e !in r.home && g in r.marks
    requires |r.marks[r.entry[p]]| < MAX_CAPACITY
    ensures Shaped(Enlist(r, f, p, e)) && Marked(Enlist(r, f, p, e), g)
  {
    hide Known, Once, Distinct, Listed;
    assert Marked(r, g);
    EnlistShapes(r, f, p, e);
    DistinctAppend(r.marks[g], e);
  }

  /** A free capacity slot and no earlier entry for the same player: adding a watcher keeps the registry. */
  lemma EnlistKeeps<F, P, E>(r: Registry<F, P, E>, f: F, p: P, e: E)
    requires Inv(r) && f in r.watchers && p in r.entry && e !in r.home
    requires !Watching(r, f, p) && |r.marks[r.entry[p]]| < MAX_CAPACITY
    ensures Inv(Enlist(r, f, p, e)) && Watching(Enlist(r, f, p, e), f, p)
  {
    EnlistKnown(r, f, p, e);
    EnlistOnce(r, f, p, e);
    forall g <- r.watchers
      ensures Listed(Enlist(r, f, p, e), g) && Marked(Enlist(r, f, p, e), g)
    {
      EnlistLists(r, f, p, e, g);
      EnlistMarks(r, f, p, e, g);
    }
    hide Known, Listed, Marked, Once;
    assert e in Enlist(r, f, p, e).watchers[f];
  }

  /** Purging leaves each watcher list what it was, less the purged elements. */
  lemma PurgeLists<F, P, E>(r: Registry<F, P, E>, xs: set<E>, f: F)
    requires Inv(r) && f in r.watchers
    ensures Shaped(Purge(r, xs)) && Listed(Purge(r, xs), f)
    ensures forall e <- r.watchers[f] :: e !in xs ==> e in Purge(r, xs).watchers[f]
  {
    hide Known, Once, Minus;
    assert Listed(r, f);
    MinusDistinct(r.watchers[f], xs);
  }

  lemma DelistMarks<F, P, E>(r: Registry<F, P, E>, e: E, h: F)
    requires Inv(r) && e in r.home && h in r.marks
    ensures Shaped(Delist(r, e)) && Marked(Delist(r, e), h)
  {
    hide Known, Once, Listed, Minus;
    assert Marked(r, h);
    MinusDistinct(r.marks[h], {e});
  }

  lemma DelistShapes<F, P, E>(r: Registry<F, P, E>, e: E)
    requires Inv(r) && e in r.home
    ensures Shaped(Delist(r, e)) && Once(Delist(r, e))
  {
    hide Known, Listed, Marked, Minus;
  }

  lemma DelistKnown<F, P, E>(r: Registry<F, P, E>, e: E)
    requires Inv(r) && e in r.home
    ensures Shaped(Delist(r, e)) && Known(Delist(r, e)) && Once(Delist(r, e))
  {
    hide Listed, Marked, Minus, Once;
    DelistShapes(r, e);
  }

  /** Removing a watcher keeps the registry, and undoes exactly that watcher. */
  lemma DelistKeeps<F, P, E>(r: Registry<F, P, E>, e: E)
    requires Inv(r) && e in r.home
    ensures Inv(Delist(r, e))
  {
    var n := Delist(r, e);
    DelistKnown(r, e);
    hide Known, Once, Marked, Minus;
    forall f <- n.watchers
      ensures Listed(n, f) && Marked(n, f)
    {
      PurgeLists(r, {e}, f);
      DelistMarks(r, e, f);
    }
  }

  lemma DelistRemoves<F, P, E>(r: Registry<F, P, E>, e: E, f: F, p: P)
    requires Inv(r) && e in r.home
    ensures Inv(Delist(r, e))
    ensures Watching(Delist(r, e), f, p) <==> Watching(r, f, p) && !(f == r.home[e] && p == r.carried[e])
  {
    hide Known, Marked, Minus;
    DelistKeeps(r, e);
    if Watching(r, f, p) {
      var x :| x in r.watchers[f] && r.carried[x] == p;
      assert Listed(r, f) && Listed(Delist(r, e), f);
    }
  }

  lemma LogoutKnown<F, P, E>(r: Registry<F, P, E>, g: F, x: E)
    requires Inv(r) && g in r.marks && Shaped(Logout(r, g)) && x in Logout(r, g).home
    ensures var n := Logout(r, g); x in n.watchers[n.home[x]] && x in n.marks[n.entry[n.carried[x]]]
  {
    PurgeLists(r, Elements(r.marks[g]), r.home[x]);
  }

  lemma LogoutMarks<F, P, E>(r: Registry<F, P, E>, g: F, h: F)
    requires Inv(r) && g in r.marks && h in r.marks && Shaped(Logout(r, g))
    ensures Marked(Logout(r, g), h)
    ensures Listed(Purge(r, Elements(r.marks[g])), h) ==> Listed(Logout(r, g), h)
  {
    hide Known, Once, Minus;
    assert Marked(r, h) && Marked(r, g);
  }

  lemma LogoutKeeps<F, P, E>(r: Registry<F, P, E>, g: F)
    requires Inv(r) && g in r.marks
    ensures Inv(Logout(r, g))
  {
    hide Minus, Listed;
    var n := Logout(r, g);
    forall x <- n.home
      ensures x in n.watchers[n.home[x]] && x in n.marks[n.entry[n.carried[x]]]
    {
      LogoutKnown(r, g, x);
    }
    forall f <- n.watchers
      ensures Listed(n, f) && Marked(n, f)
    {
      PurgeLists(r, Elements(r.marks[g]), f);
      LogoutMarks(r, g, f);
    }
  }

  /** A player leaving is gone from every watcher list, and nobody else is. */
  lemma LogoutRemoves<F, P, E>(r: Registry<F, P, E>, g: F, f: F, p: P)
    requires Inv(r) && g in r.marks && p in r.entry
    ensures Inv(Logout(r, g))
    ensures Watching(Logout(r, g), f, p) <==> Watching(r, f, p) && r.entry[p] != g
  {
    LogoutKeeps(r, g);
    if Watching(r, f, p) {
      var x :| x in r.watchers[f] && r.carried[x] == p;
      assert Listed(r, f) && Marked(r, g);
    }
  }

  lemma MapMinusTwice<K, V>(m: map<K, V>, xs: set<K>, e: K)
    ensures m - (xs + {e}) == m - xs - {e}
  {
  }

  lemma MapPutBack<K, V>(m: map<K, V>, k: K, v: V)
    requires k !in m
    ensures m[k := v] - {k} == m
  {
  }

  lemma MapPutTwice<K, V>(m: map<K, V>, k: K, v: V)
    requires k in m
    ensures m[k := v][k := m[k]] == m
  {
  }

  lemma ChainsPutBack<F, E>(m: map<F, seq<E>>, f: F, e: E)
    requires f in m && forall h <- m :: e !in m[h]
    ensures Thinned(m[f := m[f] + [e]], {e}) == m
  {
    hide Minus;
    forall h <- m
      ensures Minus(m[h], {e}) == m[h] && Minus(m[h] + [e], {e}) == m[h]
    {
      MinusNew(m[h], e);
    }
  }

  lemma ElementIsNew<F, P, E>(r: Registry<F, P, E>, e: E, h: F)
    requires Inv(r) && h in r.watchers && e !in r.home
    ensures e !in r.watchers[h] && e !in r.marks[h]
  {
    assert Listed(r, h) && Marked(r, h);
  }

  /** Taking the new watcher out again gives back the registry there was. */
  lemma EnlistDelist<F, P, E>(r: Registry<F, P, E>, f: F, p: P, e: E)
    requires Inv(r) && f in r.watchers && p in r.entry && e !in r.home
    ensures Shaped(Enlist(r, f, p, e)) && Delist(Enlist(r, f, p, e), e) == r
  {
    EnlistShapes(r, f, p, e);
    var g := r.entry[p];
    forall h <- r.watchers
      ensures e !in r.watchers[h]
    {
      ElementIsNew(r, e, h);
    }
    ElementIsNew(r, e, g);
    assert e !in r.carried;
    hide Inv, Shaped, Known, Once, Listed, Marked, Minus, Thinned;
    ChainsPutBack(r.watchers, f, e);
    MinusNew(r.marks[g], e);
    MapPutTwice(r.marks, g, r.marks[g] + [e]);
    MapPutBack(r.home, e, f);
    MapPutBack(r.carried, e, p);
  }

  /** The two views agree: an element carrying `p` is in some watcher list exactly when `p`'s own entry
      marks it. */
  lemma ViewsAgree<F, P, E>(r: Registry<F, P, E>, p: P, e: E)
    requires Inv(r) && p in r.entry
    ensures (exists f <- r.watchers :: e in r.watchers[f] && r.carried[e] == p)
       <==> (e in r.marks[r.entry[p]] && r.carried[e] == p)
  {
    if f :| f in r.watchers && e in r.watchers[f] && r.carried[e] == p {
      assert Listed(r, f);
    }
    if e in r.marks[r.entry[p]] && r.carried[e] == p {
      assert Marked(r, r.entry[p]);
      assert e in r.watchers[r.home[e]];
    }
  }

  lemma ChainsPurgeStep<F, E>(m: map<F, seq<E>>, xs: set<E>, f: F, e: E)
    requires f in m && forall h <- m :: h != f ==> e !in m[h]
    ensures var q := Thinned(m, xs); Thinned(m, xs + {e}) == q[f := Minus(q[f], {e})]
  {
    hide Minus;
    forall h <- m
      ensures Minus(m[h], xs + {e}) == if h == f then Minus(Minus(m[h], xs), {e}) else Minus(m[h], xs)
    {
      MinusTwice(m[h], xs, {e});
      if h != f {
        MinusNone(Minus(m[h], xs), {e});
      }
    }
  }

  lemma PurgeNone<F, P, E>(r: Registry<F, P, E>)
    ensures Purge(r, {}) == r
  {
    forall f <- r.watchers
      ensures Minus(r.watchers[f], {}) == r.watchers[f]
    {
      MinusNone(r.watchers[f], {});
    }
    assert Thinned(r.watchers, {}) == r.watchers;
  }

  /** Only one chain changes when the element is on no other. */
  lemma ThinnedOne<F, E>(m: map<F, seq<E>>, f: F, e: E)
    requires f in m && forall h <- m :: h != f ==> e !in m[h]
    ensures Thinned(m, {e}) == m[f := Minus(m[f], {e})]
  {
    hide Minus;
    forall h <- m
      ensures h != f ==> Minus(m[h], {e}) == m[h]
    {
      if h != f {
        MinusNone(m[h], {e});
      }
    }
  }

  /** Deleting one more element through its back pointer touches one chain, yet purges it everywhere. */
  lemma PurgeStep<F, P, E>(r: Registry<F, P, E>, xs: set<E>, e: E)
    requires Inv(r) && e in r.home && e !in xs
    ensures var q := Purge(r, xs); var f := r.home[e];
            Purge(r, xs + {e}) == q.(watchers := q.watchers[f := Minus(q.watchers[f], {e})],
                                     home := q.home - {e}, carried := q.carried - {e})
  {
    forall h <- r.watchers
      ensures h != r.home[e] ==> e !in r.watchers[h]
    {
      assert Listed(r, h);
    }
    assert r.home[e] in r.watchers;
    hide Inv, Shaped, Known, Once, Listed, Marked, Minus, Thinned;
    ChainsPurgeStep(r.watchers, xs, r.home[e], e);
    MapMinusTwice(r.home, xs, e);
    MapMinusTwice(r.carried, xs, e);
  }

  // ---- the operations, with their guards

  datatype Op<F, P, E> =
    | Create(f: F)                    // FindFriend on a new name
    | AddWatcher(f: F, p: P, e: E)    // e: the element the allocator would hand out
    | DelWatcher(f: F, p: P)
    | Login(f: F, p: P)
    | Logoff(f: F, p: P)

  /** The conditions for letting `p` watch `f`. */
  ghost predicate Admits<F, P, E>(r: Registry<F, P, E>, f: F, p: P)
    requires Inv(r)
  {
    && f in r.watchers
    && !(f in r.online && r.online[f] == p)
    && p in r.entry && |r.marks[r.entry[p]]| < MAX_CAPACITY
    && !Watching(r, f, p)
  }

  /** Whether the call reports success, i.e. changes anything. */
  ghost predicate Accepts<F, P, E>(r: Registry<F, P, E>, op: Op<F, P, E>)
    requires Inv(r)
  {
    match op
    case Create(f) => f !in r.watchers
    case AddWatcher(f, p, e) =>
      Admits(r, f, p) && e !in r.home
    case DelWatcher(f, p) => p in r.entry && Watching(r, f, p)
    case Login(f, p) => f in r.watchers && p !in r.entry
    case Logoff(f, p) => f in r.marks && f in r.online && r.online[f] == p
  }

  ghost function Step<F, P, E>(r: Registry<F, P, E>, op: Op<F, P, E>): Registry<F, P, E>
    requires Inv(r)
  {
    if !Accepts(r, op) then r
    else match op
    case Create(f) => Created(r, f)
    case AddWatcher(f, p, e) => Enlist(r, f, p, e)
    case DelWatcher(f, p) => Delist(r, WatcherElement(r, f, p))
    case Login(f, p) => LoggedIn(r, f, p)
    case Logoff(f, p) => LoggedOff(r, f)
  }

  /** A new entry: nobody watches it, and it has no player of its own. */
  ghost function Created<F, P, E>(r: Registry<F, P, E>, f: F): Registry<F, P, E> {
    r.(watchers := r.watchers[f := []], marks := r.marks[f := []])
  }

  /** A player gets the entry of its name for good, but is the player online under it only if no one else is. */
  ghost function LoggedIn<F, P, E>(r: Registry<F, P, E>, f: F, p: P): Registry<F, P, E> {
    r.(entry := r.entry[p := f], online := if f in r.online then r.online else r.online[f := p])
  }

  ghost function LoggedOff<F, P, E>(r: Registry<F, P, E>, f: F): Registry<F, P, E>
    requires f in r.marks
  {
    Logout(r, f).(online := r.online - {f})
  }

  ghost function WatcherElement<F, P, E>(r: Registry<F, P, E>, f: F, p: P): (e: E)
    requires Inv(r) && Watching(r, f, p)
    ensures e in r.home && r.home[e] == f && r.carried[e] == p
  {
    var e :| e in r.watchers[f] && r.carried[e] == p;
    assert Listed(r, f);
    e
  }

  lemma StepKeeps<F, P, E>(r: Registry<F, P, E>, op: Op<F, P, E>)
    requires Inv(r)
    ensures Inv(Step(r, op))
  {
    if Accepts(r, op) {
      match op
      case Create(f) => CreateKeeps(r, f);
      case AddWatcher(f, p, e) => EnlistKeeps(r, f, p, e);
      case DelWatcher(f, p) => DelistKeeps(r, WatcherElement(r, f, p));
      case Login(f, p) => LoginKeeps(r, f, p);
      case Logoff(f, p) =>
        LogoutKeeps(r, f);
        OnlineFree(Logout(r, f), r.online - {f});
    }
  }

  lemma OnlineFree<F, P, E>(r: Registry<F, P, E>, online: map<F, P>)
    requires Inv(r)
    ensures Inv(r.(online := online))
  {
    hide Distinct;
    assert forall f <- r.watchers :: Listed(r, f) && Marked(r, f);
  }

  lemma CreateKeeps<F, P, E>(r: Registry<F, P, E>, f: F)
    requires Inv(r) && f !in r.watchers
    ensures Inv(Created(r, f))
  {
    assert forall f <- r.watchers :: Listed(r, f) && Marked(r, f);
  }

  lemma LoginKeeps<F, P, E>(r: Registry<F, P, E>, f: F, p: P)
    requires Inv(r) && f in r.watchers && p !in r.entry
    ensures Inv(LoggedIn(r, f, p))
  {
    hide Distinct;
    assert forall f <- r.watchers :: Listed(r, f) && Marked(r, f);
  }

  ghost function Run<F, P, E>(r: Registry<F, P, E>, ops: seq<Op<F, P, E>>): (n: Registry<F, P, E>)
    requires Inv(r)
    ensures Inv(n)
    decreases |ops|
  {
    if ops == [] then r else
      StepKeeps(r, ops[0]);
      Run(Step(r, ops[0]), ops[1..])
  }

  // ---- what each operation does

  /** Who watches whom after an operation, whatever its arguments. */
  ghost predicate WatchesAfter<F, P, E>(r: Registry<F, P, E>, op: Op<F, P, E>, h: F, q: P)
    requires Inv(r)
  {
    match op
    case AddWatcher(f, p, e) =>
      Watching(r, h, q) || (h == f && q == p && f in r.watchers && e !in r.home && p in r.entry
        && |r.marks[r.entry[p]]| < MAX_CAPACITY && (f !in r.online || r.online[f] != p))
    case DelWatcher(f, p) => Watching(r, h, q) && (h != f || q != p)
    case Logoff(f, p) => Watching(r, h, q) && !(f in r.online && r.online[f] == p && f in r.marks && r.entry[q] == f)
    case _ => Watching(r, h, q)
  }

  lemma WhoWatches<F, P, E>(r: Registry<F, P, E>, op: Op<F, P, E>, h: F, q: P)
    requires Inv(r)
    ensures Watching(r, h, q) ==> q in r.entry
    ensures Inv(Step(r, op)) && (Watching(Step(r, op), h, q) <==> WatchesAfter(r, op, h, q))
  {
    hide Inv, Watching, Enlist, Delist, LoggedOff, LoggedIn, Created;
    StepKeeps(r, op);
    WatcherEnters(r, h, q);
    match op
    case Create(f) => SameWatches(r, Step(r, op), h, q);
    case AddWatcher(f, p, e) =>
      if Accepts(r, op) {
        EnlistWatches(r, f, p, e, h, q);
      }
    case DelWatcher(f, p) =>
      if Accepts(r, op) {
        DelistRemoves(r, WatcherElement(r, f, p), h, q);
      } else {
        WatcherEnters(r, f, p);
      }
    case Login(f, p) => SameWatches(r, Step(r, op), h, q);
    case Logoff(f, p) =>
      if Accepts(r, op) {
        OffWatches(r, f, h, q);
      }
  }

  lemma SameWatches<F, P, E>(r: Registry<F, P, E>, n: Registry<F, P, E>, h: F, q: P)
    requires Inv(r) && Inv(n)
    requires (exists f :: f !in r.watchers && n == Created(r, f)) || (exists f, p :: n == LoggedIn(r, f, p)) || n == r
    ensures Watching(n, h, q) <==> Watching(r, h, q)
  {
    hide Inv;
  }

  lemma WatcherEnters<F, P, E>(r: Registry<F, P, E>, f: F, p: P)
    requires Inv(r)
    ensures Watching(r, f, p) ==> p in r.entry
  {
    if Watching(r, f, p) {
      var e :| e in r.watchers[f] && r.carried[e] == p;
      assert Listed(r, f);
    }
  }

  lemma EnlistWatches<F, P, E>(r: Registry<F, P, E>, f: F, p: P, e: E, h: F, q: P)
    requires Inv(r) && f in r.watchers && p in r.entry && e !in r.home
    requires !Watching(r, f, p) && |r.marks[r.entry[p]]| < MAX_CAPACITY
    ensures Inv(Enlist(r, f, p, e))
    ensures Watching(Enlist(r, f, p, e), h, q) <==> Watching(r, h, q) || (h == f && q == p)
  {
    EnlistKeeps(r, f, p, e);
    if h in r.watchers {
      assert Listed(r, h);
    }
    hide Shaped, Known, Once, Listed, Marked;
    var n := Enlist(r, f, p, e);
    if Watching(n, h, q) {
      var x :| x in n.watchers[h] && n.carried[x] == q;
      assert x == e || x in r.watchers[h];
    }
    if Watching(r, h, q) {
      var x :| x in r.watchers[h] && r.carried[x] == q;
      assert x in n.watchers[h] && n.carried[x] == q;
    }
  }

  lemma OffWatches<F, P, E>(r: Registry<F, P, E>, g: F, h: F, q: P)
    requires Inv(r) && g in r.marks
    ensures Inv(LoggedOff(r, g)) && (Watching(r, h, q) ==> q in r.entry)
    ensures Watching(LoggedOff(r, g), h, q) <==> Watching(r, h, q) && r.entry[q] != g
  {
    LogoutKeeps(r, g);
    OnlineFree(Logout(r, g), r.online - {g});
    WatcherEnters(r, h, q);
    WatcherEnters(Logout(r, g), h, q);
    if q in r.entry {
      LogoutRemoves(r, g, h, q);
    }
  }

  /** Who is known, online and under which entry after an operation. Nobody else's entry changes. */
  lemma WhoIsWho<F, P, E>(r: Registry<F, P, E>, op: Op<F, P, E>)
    requires Inv(r)
    ensures var n := Step(r, op);
            match op
            case Create(f) =>
              && n.watchers.Keys == r.watchers.Keys + {f} && n.entry == r.entry && n.online == r.online
              && (f !in r.watchers ==> n.watchers[f] == n.marks[f] == [])
            case Login(f, p) =>
              n.watchers == r.watchers
              && if f in r.watchers && p !in r.entry
                 then n.entry == r.entry[p := f] && n.online == (if f in r.online then r.online else r.online[f := p])
                 else n.entry == r.entry && n.online == r.online
            case Logoff(f, p) =>
              n.watchers.Keys == r.watchers.Keys && n.entry == r.entry
              && n.online == if f in r.watchers && f in r.online && r.online[f] == p then r.online - {f} else r.online
            case _ => n.watchers.Keys == r.watchers.Keys && n.entry == r.entry && n.online == r.online
  {
    hide Inv, Minus, Watching, Distinct;
    SameKeys(r);
  }

  lemma SameKeys<F, P, E>(r: Registry<F, P, E>)
    requires Inv(r)
    ensures r.watchers.Keys == r.marks.Keys
  {
  }

  /** A logout clears a player out of every watcher list exactly when the player is the one online under its
      entry, or watched nobody. The second of two players of one name is turned away by its own logout. */
  lemma LogoutClears<F, P, E>(r: Registry<F, P, E>, f: F, p: P)
    requires Inv(r) && p in r.entry && r.entry[p] == f
    ensures Inv(Step(r, Logoff(f, p)))
    ensures (forall h <- r.watchers :: !Watching(Step(r, Logoff(f, p)), h, p))
       <==> (f in r.online && r.online[f] == p) || (forall h <- r.watchers :: !Watching(r, h, p))
  {
    StepKeeps(r, Logoff(f, p));
    if f in r.online && r.online[f] == p {
      LogoutKeeps(r, f);
      forall h <- r.watchers
        ensures !Watching(LoggedOff(r, f), h, p)
      {
        LogoutRemoves(r, f, h, p);
      }
    }
  }
}
