/** Nested containers as a graph of values: what "weight" means, and which caches a move makes stale.

    The graph is given by contents lists. In the middle of a move the object is in two lists at once,
    so the laws are about any acyclic graph; the owner map, under which it is a forest, comes on top. */
module Containment {
  import opened LinkedLists

  /** `rank` witnesses that there is no cycle: contents rank below their container. */
  datatype Graph<!O> = Graph(contents: map<O, seq<O>>, boxes: set<O>, rank: map<O, nat>)

  ghost predicate Ranked<O>(g: Graph<O>) {
    && g.rank.Keys == g.contents.Keys
    && (forall o, c {:trigger c in g.contents[o]} ::
          o in g.contents && c in g.contents[o] ==> c in g.contents && g.rank[c] < g.rank[o])
  }

  /** What an object weighs with all it holds; `own` is what each weighs by itself. */
  ghost function Total<O>(g: Graph<O>, own: map<O, int>, o: O): int
    requires Ranked(g) && own.Keys == g.contents.Keys && o in g.contents
    decreases g.rank[o], 1, 0
  {
    own[o] + Loads(g, own, g.contents[o], g.rank[o])
  }

  ghost function Loads<O>(g: Graph<O>, own: map<O, int>, s: seq<O>, r: nat): int
    requires Ranked(g) && own.Keys == g.contents.Keys
    requires forall c <- s :: c in g.contents && g.rank[c] < r
    decreases r, 0, |s|
  {
    if s == [] then 0 else
      var c := s[|s| - 1];
      Loads(g, own, s[..|s| - 1], r) + if c in g.boxes then Total(g, own, c) else own[c]
  }

  /** `y` is `x` or somewhere inside it. */
  ghost predicate Inside<O>(g: Graph<O>, x: O, y: O)
    requires Ranked(g) && x in g.contents
    decreases g.rank[x]
  {
    x == y || exists c <- g.contents[x] :: Inside(g, c, y)
  }

  ghost function WithContents<O>(g: Graph<O>, y: O, s: seq<O>): Graph<O> {
    g.(contents := g.contents[y := s])
  }

  /** Changing what `y` holds changes only the totals of containers that `y` is inside of. */
  lemma {:induction false} TotalElsewhere<O>(g: Graph<O>, own: map<O, int>, y: O, s: seq<O>, o: O)
    requires Ranked(g) && Ranked(WithContents(g, y, s)) && own.Keys == g.contents.Keys
    requires y in g.contents && o in g.contents && !Inside(g, o, y)
    ensures Total(WithContents(g, y, s), own, o) == Total(g, own, o)
    decreases g.rank[o], 1, 0
  {
    LoadsElsewhere(g, own, y, s, g.contents[o], g.rank[o]);
  }

  lemma {:induction false} LoadsElsewhere<O>(g: Graph<O>, own: map<O, int>, y: O, s: seq<O>, t: seq<O>, r: nat)
    requires Ranked(g) && Ranked(WithContents(g, y, s)) && own.Keys == g.contents.Keys && y in g.contents
    requires forall c <- t :: c in g.contents && g.rank[c] < r && !Inside(g, c, y)
    ensures Loads(WithContents(g, y, s), own, t, r) == Loads(g, own, t, r)
    decreases r, 0, |t|
  {
    if t != [] {
      LoadsElsewhere(g, own, y, s, t[..|t| - 1], r);
      TotalElsewhere(g, own, y, s, t[|t| - 1]);
    }
  }

  /** The rank is only a witness: any other one gives the same totals and the same insides. */
  lemma {:induction false} TotalRerank<O>(g: Graph<O>, rank: map<O, nat>, own: map<O, int>, o: O)
    requires Ranked(g) && Ranked(g.(rank := rank)) && own.Keys == g.contents.Keys && o in g.contents
    ensures Total(g.(rank := rank), own, o) == Total(g, own, o)
    decreases g.rank[o], 1, 0
  {
    LoadsRerank(g, rank, own, g.contents[o], g.rank[o], rank[o]);
  }

  lemma {:induction false} LoadsRerank<O>(g: Graph<O>, rank: map<O, nat>, own: map<O, int>, t: seq<O>, r: nat, r': nat)
    requires Ranked(g) && Ranked(g.(rank := rank)) && own.Keys == g.contents.Keys
    requires forall c <- t :: c in g.contents && g.rank[c] < r && rank[c] < r'
    ensures Loads(g.(rank := rank), own, t, r') == Loads(g, own, t, r)
    decreases r, 0, |t|
  {
    if t != [] {
      LoadsRerank(g, rank, own, t[..|t| - 1], r, r');
      TotalRerank(g, rank, own, t[|t| - 1]);
    }
  }

  /** More contents put nothing outside. */
  lemma {:induction false} InsideGrows<O>(g: Graph<O>, h: Graph<O>, x: O, y: O)
    requires Ranked(g) && Ranked(h) && x in g.contents && Inside(g, x, y)
    requires g.contents.Keys <= h.contents.Keys && forall o <- g.contents, c <- g.contents[o] :: c in h.contents[o]
    ensures Inside(h, x, y)
    decreases g.rank[x]
  {
    if x != y {
      var c :| c in g.contents[x] && Inside(g, c, y);
      InsideGrows(g, h, c, y);
    }
  }

  // ---- the owner map

  datatype Forest<!O> = Forest(g: Graph<O>, owner: map<O, O>, bound: nat)

  /** Following owners leads upwards, and ends. */
  ghost predicate Chained<O>(f: Forest<O>) {
    && Ranked(f.g)
    && (forall o <- f.g.rank :: f.g.rank[o] < f.bound)
    && (forall c <- f.owner :: c in f.g.contents && f.owner[c] in f.g.contents && f.g.rank[c] < f.g.rank[f.owner[c]])
  }

  /** `o` holds, once each, exactly what names it as owner. */
  ghost predicate Holds<O>(f: Forest<O>, o: O)
    requires o in f.g.contents
  {
    Distinct(f.g.contents[o]) && forall c <- f.g.contents[o] :: c in f.owner && f.owner[c] == o
  }

  /** `c` is in the contents of its owner, which is a container. */
  ghost predicate Held<O>(f: Forest<O>, c: O)
    requires c in f.owner && f.owner[c] in f.g.contents
  {
    f.owner[c] in f.g.boxes && c in f.g.contents[f.owner[c]]
  }

  /** Every object is once in the contents of its owner and nowhere else; only containers own. */
  ghost predicate WellOwned<O>(f: Forest<O>) {
    && Chained(f)
    && (forall c <- f.owner :: Held(f, c))
    && (forall o <- f.g.contents :: Holds(f, o))
  }

  /** `x` owns `o`, at most `levels` steps up. */
  ghost predicate OwnsWithin<O>(f: Forest<O>, x: O, o: O, levels: nat) {
    levels > 0 && o in f.owner && (f.owner[o] == x || OwnsWithin(f, x, f.owner[o], levels - 1))
  }

  /** `x` owns `o`, any number of steps up. */
  ghost predicate Owns<O>(f: Forest<O>, x: O, o: O)
    requires Chained(f) && o in f.g.contents
    decreases f.bound - f.g.rank[o]
  {
    o in f.owner && (f.owner[o] == x || Owns(f, x, f.owner[o]))
  }

  /** How many owners there are above `o`. */
  ghost function Depth<O>(f: Forest<O>, o: O): nat
    requires Chained(f) && o in f.g.contents
    decreases f.bound - f.g.rank[o]
  {
    if o in f.owner then 1 + Depth(f, f.owner[o]) else 0
  }

  /** The owner of all the owners. */
  ghost function Root<O>(f: Forest<O>, o: O): (r: O)
    requires Chained(f) && o in f.g.contents
    ensures r in f.g.contents && r !in f.owner
    decreases f.bound - f.g.rank[o]
  {
    if o in f.owner then Root(f, f.owner[o]) else o
  }

  lemma RootStep<O>(f: Forest<O>, o: O)
    requires Chained(f) && o in f.g.contents
    ensures o in f.owner ==> f.owner[o] in f.g.contents && Root(f, o) == Root(f, f.owner[o])
    ensures o !in f.owner ==> Root(f, o) == o
  {
  }

  /** The base owner is the thing itself if nothing owns it, and else it owns it. */
  lemma {:induction false} RootOwns<O>(f: Forest<O>, o: O)
    requires Chained(f) && o in f.g.contents
    ensures Root(f, o) !in f.owner && if o in f.owner then Owns(f, Root(f, o), o) else Root(f, o) == o
    decreases f.bound - f.g.rank[o]
  {
    if o in f.owner {
      RootOwns(f, f.owner[o]);
    }
  }

  lemma OwnsWithinStep<O>(f: Forest<O>, x: O, o: O, levels: nat)
    ensures OwnsWithin(f, x, o, levels) <==>
            levels > 0 && o in f.owner && (f.owner[o] == x || OwnsWithin(f, x, f.owner[o], levels - 1))
  {
  }

  lemma OwnsWithinOne<O>(f: Forest<O>, x: O, o: O)
    ensures OwnsWithin(f, x, o, 1) <==> o in f.owner && f.owner[o] == x
  {
  }

  /** A bounded search for an owner is a full one when the chain is no longer than the bound. */
  lemma {:induction false} OwnsWithinIsOwns<O>(f: Forest<O>, x: O, o: O, levels: nat)
    requires Chained(f) && o in f.g.contents && Depth(f, o) <= levels
    ensures OwnsWithin(f, x, o, levels) <==> Owns(f, x, o)
    decreases levels
  {
    if o in f.owner && levels > 0 {
      OwnsWithinIsOwns(f, x, f.owner[o], levels - 1);
    }
  }

  /** What is inside by contents is what is owned by owners. */
  lemma {:induction false} InsideIsOwns<O>(f: Forest<O>, x: O, y: O)
    requires WellOwned(f) && x in f.g.contents && y in f.g.contents
    ensures Inside(f.g, x, y) <==> x == y || Owns(f, x, y)
  {
    if Inside(f.g, x, y) {
      InsideOwned(f, x, y);
    }
    if Owns(f, x, y) {
      OwnedInside(f, x, y);
    }
  }

  lemma {:induction false} InsideOwned<O>(f: Forest<O>, x: O, y: O)
    requires WellOwned(f) && x in f.g.contents && y in f.g.contents && Inside(f.g, x, y)
    ensures x == y || Owns(f, x, y)
    decreases f.g.rank[x]
  {
    if x != y {
      assert Holds(f, x);
      var c :| c in f.g.contents[x] && Inside(f.g, c, y);
      InsideOwned(f, c, y);
      if c != y {
        OwnsUp(f, c, y);
      }
    }
  }

  /** The owner of an owner is an owner. */
  lemma {:induction false} OwnsUp<O>(f: Forest<O>, c: O, y: O)
    requires WellOwned(f) && c in f.owner && y in f.g.contents && Owns(f, c, y)
    ensures Owns(f, f.owner[c], y)
    decreases f.bound - f.g.rank[y]
  {
    if f.owner[y] != c {
      OwnsUp(f, c, f.owner[y]);
    }
  }

  lemma {:induction false} OwnedInside<O>(f: Forest<O>, x: O, y: O)
    requires WellOwned(f) && x in f.g.contents && y in f.g.contents && Owns(f, x, y)
    ensures Inside(f.g, x, y)
    decreases f.bound - f.g.rank[y]
  {
    var o := f.owner[y];
    assert Held(f, y);
    if o != x {
      OwnedInside(f, x, o);
    }
    InsideStep(f.g, x, o, y);
  }

  lemma {:induction false} InsideStep<O>(g: Graph<O>, x: O, o: O, y: O)
    requires Ranked(g) && x in g.contents && o in g.contents && Inside(g, x, o) && y in g.contents[o]
    ensures Inside(g, x, y)
    decreases g.rank[x]
  {
    if x == o {
      assert Inside(g, y, y);
    } else {
      var c :| c in g.contents[x] && Inside(g, c, o);
      InsideStep(g, c, o, y);
    }
  }

  /** Whoever owns `y` is inside the base owner of `y`. */
  lemma {:induction false} RootHolds<O>(f: Forest<O>, x: O, y: O)
    requires WellOwned(f) && x in f.g.contents && y in f.g.contents && (x == y || Owns(f, x, y))
    ensures Root(f, y) in f.g.contents && Root(f, y) !in f.owner && Inside(f.g, Root(f, y), x)
    decreases f.bound - f.g.rank[y]
  {
    if y in f.owner {
      RootHolds(f, if x == y then f.owner[y] else x, f.owner[y]);
      if x == y {
        assert Held(f, y);
        InsideStep(f.g, Root(f, y), f.owner[y], y);
      }
    }
  }

  // ---- moves

  /** Room for `s` under `y`: the rank of `y` and of all above it rises past that of `s`. */
  ghost function Lifted<O>(f: Forest<O>, s: O, y: O): map<O, nat>
    requires Chained(f) && s in f.g.contents && y in f.g.contents
  {
    map o | o in f.g.rank :: if o == y || Owns(f, o, y) then f.g.rank[o] + f.g.rank[s] + 1 else f.g.rank[o]
  }

  /** Half of a move: `s` names its new owner and is in its contents, but still in the old one's, too. */
  ghost function Given<O>(f: Forest<O>, s: O, y: O): Forest<O>
    requires Chained(f) && s in f.g.contents && y in f.g.contents
  {
    var g := f.g.(rank := Lifted(f, s, y));
    Forest(WithContents(g, y, f.g.contents[y] + [s]), f.owner[s := y], f.bound + f.g.rank[s] + 1)
  }

  /** The other half. */
  ghost function LeftBehind<O>(f: Forest<O>, s: O, p: O): Forest<O>
    requires p in f.g.contents
  {
    f.(g := WithContents(f.g, p, Minus(f.g.contents[p], {s})))
  }

  /** `s` goes from wherever it is to `y`. */
  ghost function Moved<O>(f: Forest<O>, s: O, y: O): Forest<O>
    requires Chained(f) && s in f.g.contents && y in f.g.contents
  {
    if s in f.owner && f.owner[s] in f.g.contents then LeftBehind(Given(f, s, y), s, f.owner[s]) else Given(f, s, y)
  }

  /** `s` goes from its owner to nobody. */
  ghost function Dropped<O>(f: Forest<O>, s: O): Forest<O> {
    if s in f.owner && f.owner[s] in f.g.contents then LeftBehind(f, s, f.owner[s]).(owner := f.owner - {s}) else f
  }

  lemma LiftedRanked<O>(f: Forest<O>, s: O, y: O)
    requires WellOwned(f) && s in f.g.contents && y in f.g.contents
    ensures Ranked(f.g.(rank := Lifted(f, s, y)))
  {
    hide Distinct;
    forall o <- f.g.contents, c <- f.g.contents[o]
      ensures c in f.g.contents && Lifted(f, s, y)[c] < Lifted(f, s, y)[o]
    {
      assert Holds(f, o);
      LiftedBelow(f, s, y, c);
    }
  }

  lemma LiftedBelow<O>(f: Forest<O>, s: O, y: O, c: O)
    requires WellOwned(f) && s in f.g.contents && y in f.g.contents && c in f.owner
    ensures Lifted(f, s, y)[c] < Lifted(f, s, y)[f.owner[c]]
  {
    hide Distinct;
    if Owns(f, c, y) {
      OwnsUp(f, c, y);
    }
  }

  lemma GivenChained<O>(f: Forest<O>, s: O, y: O)
    requires WellOwned(f) && s in f.g.contents && y in f.g.contents && s != y && !Owns(f, s, y)
    ensures Chained(Given(f, s, y)) && Ranked(f.g.(rank := Lifted(f, s, y)))
  {
    LiftedRanked(f, s, y);
    var n := Given(f, s, y);
    forall c <- n.owner
      ensures n.g.rank[c] < n.g.rank[n.owner[c]]
    {
      if c != s {
        LiftedBelow(f, s, y, c);
      }
    }
  }

  lemma GivenIs<O>(f: Forest<O>, s: O, y: O)
    requires WellOwned(f) && s in f.g.contents && y in f.g.contents && s != y && !Owns(f, s, y)
    ensures Chained(Given(f, s, y))
    ensures Given(f, s, y).g.rank == Lifted(f, s, y) && Given(f, s, y).bound == f.bound + f.g.rank[s] + 1
  {
    GivenChained(f, s, y);
  }

  lemma LeftBehindIs<O>(f: Forest<O>, s: O, p: O)
    requires Chained(f) && p in f.g.contents
    ensures Chained(LeftBehind(f, s, p))
  {
    LeftBehindChained(f, s, p);
  }

  lemma LeftBehindGraph<O>(h: Forest<O>, n: Forest<O>, s: O, p: O)
    requires Chained(h) && p in h.g.contents && n.g == LeftBehind(h, s, p).g
    ensures h.g == WithContents(n.g, p, h.g.contents[p]) && p in n.g.contents && n.g.contents.Keys == h.g.contents.Keys
    ensures n.g.boxes == h.g.boxes
  {
    assert h.g.contents == n.g.contents[p := h.g.contents[p]];
  }

  /** Only containers own, so the base owner of a container is one. */
  lemma {:induction false} RootIsBox<O>(f: Forest<O>, o: O)
    requires WellOwned(f) && o in f.g.contents && o in f.g.boxes
    ensures Root(f, o) in f.g.contents && Root(f, o) in f.g.boxes
    decreases f.bound - f.g.rank[o]
  {
    if o in f.owner {
      assert Held(f, o);
      RootIsBox(f, f.owner[o]);
    }
  }

  lemma GivenRoot<O>(f: Forest<O>, s: O, y: O)
    requires WellOwned(f) && s in f.g.contents && y in f.g.contents && y in f.g.boxes && s != y && !Owns(f, s, y)
    ensures Chained(Given(f, s, y)) && Root(Given(f, s, y), y) == Root(f, y) && Root(f, y) in f.g.boxes
  {
    hide Lifted;
    GivenChained(f, s, y);
    RootUnmoved(f, Given(f, s, y), s, y);
    RootIsBox(f, y);
  }

  lemma LeftBehindChained<O>(f: Forest<O>, s: O, p: O)
    requires Chained(f) && p in f.g.contents
    ensures Chained(LeftBehind(f, s, p))
  {
    hide Minus;
  }

  lemma MovedHolds<O>(f: Forest<O>, s: O, y: O, o: O)
    requires WellOwned(f) && s in f.g.contents && y in f.g.contents && o in f.g.contents
    requires !(s in f.owner && f.owner[s] == y)
    ensures Holds(Moved(f, s, y), o)
  {
    hide Distinct, Minus, Lifted, Chained;
    assert Holds(f, o) && Holds(f, y);
    MinusDistinct(f.g.contents[o], {s});
    if o == y {
      DistinctAppend(f.g.contents[y], s);
    }
  }

  lemma MovedHeld<O>(f: Forest<O>, s: O, y: O, c: O)
    requires WellOwned(f) && s in f.g.contents && y in f.g.contents && y in f.g.boxes && s != y
    requires !(s in f.owner && f.owner[s] == y) && (c == s || c in f.owner)
    ensures Held(Moved(f, s, y), c)
  {
    hide Minus, Lifted, Holds;
    assert c in f.owner ==> Held(f, c);
  }

  lemma MovedChained<O>(f: Forest<O>, s: O, y: O)
    requires WellOwned(f) && s in f.g.contents && y in f.g.contents && s != y && !Owns(f, s, y)
    ensures Chained(Moved(f, s, y))
    ensures Moved(f, s, y).g.contents.Keys == f.g.contents.Keys && Moved(f, s, y).g.boxes == f.g.boxes
    ensures Moved(f, s, y).owner == f.owner[s := y]
  {
    GivenChained(f, s, y);
    if s in f.owner {
      LeftBehindChained(Given(f, s, y), s, f.owner[s]);
    }
  }

  lemma MovedOwners<O>(f: Forest<O>, s: O, y: O)
    requires Chained(f) && s in f.g.contents && y in f.g.contents
    ensures Moved(f, s, y).owner == f.owner[s := y] && Moved(f, s, y).owner.Keys == f.owner.Keys + {s}
  {
  }

  lemma MovedIs<O>(f: Forest<O>, s: O, y: O)
    requires Chained(f) && s in f.g.contents && y in f.g.contents
    ensures s !in f.owner ==> Moved(f, s, y) == Given(f, s, y)
  {
  }

  /** What the second half of a move to `y` finds. */
  lemma MovedReady<O>(f: Forest<O>, s: O, y: O)
    requires WellOwned(f) && s in f.owner && y in f.g.contents && y in f.g.boxes
    requires s != y && !Owns(f, s, y) && f.owner[s] != y
    ensures Chained(Given(f, s, y)) && Moved(f, s, y) == LeftBehind(Given(f, s, y), s, f.owner[s])
    ensures WellOwned(Moved(f, s, y)) && f.owner[s] in f.g.boxes
    ensures f.owner[s] in Given(f, s, y).g.contents && Distinct(Given(f, s, y).g.contents[f.owner[s]])
  {
    GivenChained(f, s, y);
    MovedKeeps(f, s, y);
    assert Holds(f, f.owner[s]) && Held(f, s);
  }

  /** Where `s` owns `o`, it still ranks above it once `s` itself has gone elsewhere. */
  lemma {:induction false} StillAbove<O>(f: Forest<O>, n: Forest<O>, s: O, y: O, o: O)
    requires Chained(f) && Chained(n) && s in f.g.contents && y in f.g.contents && o in f.g.contents
    requires n.owner == f.owner[s := y] && n.g.contents.Keys == f.g.contents.Keys && Owns(f, s, o)
    ensures n.g.rank[o] < n.g.rank[s]
    decreases f.bound - f.g.rank[o]
  {
    NotBelow(f, s, s);
    assert o in n.owner && n.owner[o] == f.owner[o];
    if f.owner[o] != s {
      StillAbove(f, n, s, y, f.owner[o]);
    }
  }

  /** Naming `y` as the owner of `s` leaves owners that end, whatever else becomes of the forest, exactly when
      `s` is not `y` and does not own it: the two checks that `beGivenTo` makes, one of which `beTakenBy` lacks. */
  lemma MoveEnds<O>(f: Forest<O>, s: O, y: O)
    requires WellOwned(f) && s in f.g.contents && y in f.g.contents
    ensures s != y && !Owns(f, s, y) <==>
            exists n: Forest<O> :: Chained(n) && n.owner == f.owner[s := y] && n.g.contents.Keys == f.g.contents.Keys
  {
    if s != y && !Owns(f, s, y) {
      GivenChained(f, s, y);
      assert Given(f, s, y).owner == f.owner[s := y];
    }
    forall n: Forest<O> | Chained(n) && n.owner == f.owner[s := y] && n.g.contents.Keys == f.g.contents.Keys
      ensures s != y && !Owns(f, s, y)
    {
      assert s in n.owner;
      if Owns(f, s, y) {
        StillAbove(f, n, s, y, y);
      }
    }
  }

  /** A move to a container that `s` does not own keeps the forest. */
  lemma MovedKeeps<O>(f: Forest<O>, s: O, y: O)
    requires WellOwned(f) && s in f.g.contents && y in f.g.contents && y in f.g.boxes
    requires s != y && !Owns(f, s, y) && !(s in f.owner && f.owner[s] == y)
    ensures WellOwned(Moved(f, s, y))
  {
    MovedChained(f, s, y);
    hide Holds, Held, Minus, Lifted, Chained, Owns;
    forall o <- f.g.contents
      ensures Holds(Moved(f, s, y), o)
    {
      MovedHolds(f, s, y, o);
    }
    forall c <- f.owner[s := y]
      ensures Held(Moved(f, s, y), c)
    {
      MovedHeld(f, s, y, c);
    }
  }

  lemma DroppedIs<O>(f: Forest<O>, s: O)
    requires WellOwned(f) && s in f.owner
    ensures f.owner[s] in f.g.contents && WellOwned(Dropped(f, s)) && Dropped(f, s).g == LeftBehind(f, s, f.owner[s]).g
    ensures Dropped(f, s) == LeftBehind(f, s, f.owner[s]).(owner := f.owner - {s})
    ensures LeftBehind(f, s, f.owner[s]).owner == f.owner
  {
    DroppedKeeps(f, s);
  }

  lemma DroppedOwners<O>(f: Forest<O>, s: O)
    requires s in f.owner && f.owner[s] in f.g.contents
    ensures Dropped(f, s).owner == f.owner - {s}
  {
  }

  /** When only an owner map was narrowed at `s`, the base owner of what `s` does not own stays. */
  lemma DroppedRoot<O>(f: Forest<O>, s: O)
    requires WellOwned(f) && s in f.owner
    ensures Chained(LeftBehind(f, s, f.owner[s])) && WellOwned(Dropped(f, s)) && f.owner[s] in Dropped(f, s).g.contents
    ensures Root(LeftBehind(f, s, f.owner[s]), f.owner[s]) == Root(Dropped(f, s), f.owner[s])
    ensures Distinct(f.g.contents[f.owner[s]]) && f.owner[s] in f.g.boxes
  {
    var p := f.owner[s];
    LeftBehindChained(f, s, p);
    DroppedKeeps(f, s);
    assert Holds(f, p) && Held(f, s);
    NotBelow(f, s, p);
    OwnsLeftBehind(f, s, p, p);
    RootUnmoved(LeftBehind(f, s, p), Dropped(f, s), s, p);
  }

  lemma {:induction false} OwnsLeftBehind<O>(f: Forest<O>, s: O, p: O, o: O)
    requires Chained(f) && p in f.g.contents && Chained(LeftBehind(f, s, p)) && o in f.g.contents
    ensures Owns(LeftBehind(f, s, p), s, o) <==> Owns(f, s, o)
    decreases f.bound - f.g.rank[o]
  {
    if o in f.owner {
      OwnsLeftBehind(f, s, p, f.owner[o]);
    }
  }

  /** Who owns `o` ranks above it, so nothing owns what owns it. */
  lemma {:induction false} NotBelow<O>(f: Forest<O>, s: O, o: O)
    requires Chained(f) && s in f.g.contents && o in f.g.contents && f.g.rank[o] >= f.g.rank[s]
    ensures !Owns(f, s, o)
    decreases f.bound - f.g.rank[o]
  {
    if o in f.owner {
      NotBelow(f, s, f.owner[o]);
    }
  }

  lemma DroppedHeld<O>(f: Forest<O>, s: O, c: O)
    requires WellOwned(f) && s in f.owner && c in f.owner && c != s
    ensures Held(Dropped(f, s), c)
  {
    hide Minus, Holds;
    assert Held(f, c);
  }

  lemma DroppedHolds<O>(f: Forest<O>, s: O, o: O)
    requires WellOwned(f) && s in f.owner && o in f.g.contents
    ensures Holds(Dropped(f, s), o)
  {
    hide Distinct, Minus;
    assert Holds(f, o);
    MinusDistinct(f.g.contents[o], {s});
  }

  lemma DroppedKeeps<O>(f: Forest<O>, s: O)
    requires WellOwned(f) && s in f.owner
    ensures WellOwned(Dropped(f, s))
  {
    LeftBehindChained(f, s, f.owner[s]);
    hide Holds, Minus, Held;
    forall o <- f.g.contents
      ensures Holds(Dropped(f, s), o)
    {
      DroppedHolds(f, s, o);
    }
    forall c <- f.owner
      ensures c != s ==> Held(Dropped(f, s), c)
    {
      if c != s {
        DroppedHeld(f, s, c);
      }
    }
  }

  // ---- cached totals

  /** Every container's cache is its total. */
  ghost predicate Exact<O>(g: Graph<O>, own: map<O, int>, w: map<O, int>) {
    && Ranked(g) && own.Keys == w.Keys == g.contents.Keys
    && forall o <- g.contents :: o in g.boxes ==> w[o] == Total(g, own, o)
  }

  /** `w'` is `w` with everything inside `r` worked out again. */
  ghost predicate Recalculated<O>(g: Graph<O>, own: map<O, int>, w: map<O, int>, w': map<O, int>, r: O) {
    && Ranked(g) && own.Keys == w.Keys == w'.Keys == g.contents.Keys && r in g.contents
    && forall o <- g.contents :: w'[o] == if o in g.boxes && Inside(g, r, o) then Total(g, own, o) else w[o]
  }

  // ---- a new object

  /** The graph with `n` as one more object, which holds nothing. */
  ghost function WithNew<O>(g: Graph<O>, n: O, box: bool): Graph<O> {
    Graph(g.contents[n := []], if box then g.boxes + {n} else g.boxes, g.rank[n := 0])
  }

  lemma {:induction false} TotalWithNew<O>(g: Graph<O>, own: map<O, int>, n: O, box: bool, v: int, o: O)
    requires Ranked(g) && own.Keys == g.contents.Keys && n !in g.contents && o in g.contents
    ensures Ranked(WithNew(g, n, box)) && own[n := v].Keys == WithNew(g, n, box).contents.Keys
    ensures Total(WithNew(g, n, box), own[n := v], o) == Total(g, own, o)
    decreases g.rank[o], 1, 0
  {
    LoadsWithNew(g, own, n, box, v, g.contents[o], g.rank[o]);
  }

  lemma {:induction false} LoadsWithNew<O>(g: Graph<O>, own: map<O, int>, n: O, box: bool, v: int, t: seq<O>, r: nat)
    requires Ranked(g) && own.Keys == g.contents.Keys && n !in g.contents
    requires forall c <- t :: c in g.contents && g.rank[c] < r
    ensures Ranked(WithNew(g, n, box)) && own[n := v].Keys == WithNew(g, n, box).contents.Keys
    ensures Loads(WithNew(g, n, box), own[n := v], t, r) == Loads(g, own, t, r)
    decreases r, 0, |t|
  {
    if t != [] {
      LoadsWithNew(g, own, n, box, v, t[..|t| - 1], r);
      TotalWithNew(g, own, n, box, v, t[|t| - 1]);
    }
  }

  lemma NewWellOwned<O>(f: Forest<O>, n: O, box: bool)
    requires WellOwned(f) && n !in f.g.contents
    ensures Ranked(WithNew(f.g, n, box)) && Chained(f.(g := WithNew(f.g, n, box), bound := f.bound + 1))
    ensures WellOwned(f.(g := WithNew(f.g, n, box), bound := f.bound + 1))
  {
    var h := f.(g := WithNew(f.g, n, box), bound := f.bound + 1);
    forall c <- f.owner
      ensures Held(h, c)
    {
      assert Held(f, c);
    }
    forall o <- h.g.contents
      ensures Holds(h, o)
    {
      assert o != n ==> Holds(f, o);
    }
  }

  /** Working out what holds nothing changes its own cache alone. */
  lemma EmptyRecalculated<O>(g: Graph<O>, own: map<O, int>, w: map<O, int>, w': map<O, int>, n: O)
    requires Recalculated(g, own, w, w', n) && n in g.boxes && g.contents[n] == []
    ensures own.Keys == w.Keys && n in own && w' == w[n := own[n]]
  {
    assert Total(g, own, n) == own[n];
  }

  /** Once the caches of the new object are worked out, all are exact. */
  lemma NewExact<O>(g: Graph<O>, own: map<O, int>, w: map<O, int>, n: O, box: bool, v: int, x: int)
    requires Exact(g, own, w) && n !in g.contents && n !in g.boxes && (box ==> x == v)
    ensures Exact(WithNew(g, n, box), own[n := v], w[n := x])
  {
    var h, own', w' := WithNew(g, n, box), own[n := v], w[n := x];
    assert w'.Keys == h.contents.Keys;
    forall o <- h.contents
      ensures o in h.boxes ==> w'[o] == Total(h, own', o)
    {
      if o == n {
        assert h.contents[n] == [];
      } else {
        TotalWithNew(g, own, n, box, v, o);
      }
    }
  }

  lemma NewRecalculated<O>(g: Graph<O>, own: map<O, int>, w: map<O, int>, n: O, v: int, x: int, w': map<O, int>)
    requires Exact(g, own, w) && n !in g.contents && n !in g.boxes
    requires Recalculated(WithNew(g, n, true), own[n := v], w[n := x], w', n)
    ensures Exact(WithNew(g, n, true), own[n := v], w')
  {
    hide Exact, Recalculated;
    EmptyRecalculated(WithNew(g, n, true), own[n := v], w[n := x], w', n);
    NewExact(g, own, w, n, true, v, v);
    assert w[n := x][n := v] == w[n := v];
  }

  /** Changing the owner of `s` moves no base owner but those of `s` and what it owns. */
  lemma {:induction false} RootUnmoved<O>(f: Forest<O>, n: Forest<O>, s: O, o: O)
    requires Chained(f) && Chained(n) && f.g.contents.Keys == n.g.contents.Keys
    requires forall c <- f.g.contents :: c != s ==> (c in f.owner <==> c in n.owner)
    requires forall c <- f.owner :: c != s ==> n.owner[c] == f.owner[c]
    requires o in f.g.contents && o != s && !Owns(f, s, o)
    ensures Root(n, o) == Root(f, o)
    decreases f.bound - f.g.rank[o]
  {
    if o in f.owner {
      RootUnmoved(f, n, s, f.owner[o]);
    }
  }

  /** Adding `s` to `y` and working out the base owner of `y` leaves every cache exact, for the graph in which
      `s` is in two places. */
  lemma GivenExact<O>(f: Forest<O>, own: map<O, int>, s: O, y: O, w: map<O, int>, w': map<O, int>)
    requires WellOwned(f) && s in f.g.contents && y in f.g.contents && s != y && !Owns(f, s, y)
    requires Exact(f.g, own, w)
    requires Chained(Given(f, s, y)) && Recalculated(Given(f, s, y).g, own, w, w', Root(Given(f, s, y), y))
    ensures Exact(Given(f, s, y).g, own, w')
  {
    var n := Given(f, s, y);
    var g := f.g.(rank := n.g.rank);
    GivenChained(f, s, y);
    RootUnmoved(f, n, s, y);
    forall o <- n.g.contents
      ensures o in n.g.boxes ==> w'[o] == Total(n.g, own, o)
    {
      if o in n.g.boxes && !Inside(n.g, Root(f, y), o) {
        GivenElsewhere(f, own, s, y, o);
      }
    }
  }

  /** A container not inside the base owner of `y` does not hold `y`. */
  lemma NotAbove<O>(f: Forest<O>, s: O, y: O, o: O)
    requires WellOwned(f) && s in f.g.contents && y in f.g.contents && s != y && !Owns(f, s, y) && o in f.g.contents
    requires Chained(Given(f, s, y)) && Root(f, y) in f.g.contents && !Inside(Given(f, s, y).g, Root(f, y), o)
    ensures Ranked(f.g.(rank := Lifted(f, s, y))) && !Inside(f.g.(rank := Lifted(f, s, y)), o, y)
  {
    hide Lifted;
    GivenChained(f, s, y);
    var g := f.g.(rank := Lifted(f, s, y));
    if Inside(g, o, y) {
      InsideGrows(g, f.g, o, y);
      InsideIsOwns(f, o, y);
      RootHolds(f, o, y);
      InsideGrows(f.g, Given(f, s, y).g, Root(f, y), o);
      assert false;
    }
  }

  lemma GivenElsewhere<O>(f: Forest<O>, own: map<O, int>, s: O, y: O, o: O)
    requires WellOwned(f) && s in f.g.contents && y in f.g.contents && s != y && !Owns(f, s, y)
    requires own.Keys == f.g.contents.Keys && o in f.g.contents
    requires Chained(Given(f, s, y)) && Root(f, y) in f.g.contents && !Inside(Given(f, s, y).g, Root(f, y), o)
    ensures Total(Given(f, s, y).g, own, o) == Total(f.g, own, o)
  {
    hide Lifted, Holds, Held;
    NotAbove(f, s, y, o);
    TotalElsewhere(f.g.(rank := Lifted(f, s, y)), own, y, f.g.contents[y] + [s], o);
    TotalRerank(f.g, Lifted(f, s, y), own, o);
  }

  /** Taking `s` out of `p` and working out the base owner of `p` leaves every cache exact again. */
  lemma LeftExact<O>(h: Forest<O>, n: Forest<O>, own: map<O, int>, p: O, t: seq<O>, w: map<O, int>, w': map<O, int>)
    requires WellOwned(n) && p in n.g.contents && h.g == WithContents(n.g, p, t)
    requires Exact(h.g, own, w) && Recalculated(n.g, own, w, w', Root(n, p))
    ensures Exact(n.g, own, w')
  {
    forall o <- n.g.contents
      ensures o in n.g.boxes ==> w'[o] == Total(n.g, own, o)
    {
      if o in n.g.boxes && !Inside(n.g, Root(n, p), o) {
        InsideIsOwns(n, o, p);
        if Inside(n.g, o, p) {
          RootHolds(n, o, p);
          assert false;
        }
        TotalElsewhere(n.g, own, p, t, o);
      }
    }
  }

  // ---- working out a container, child by child

  lemma LoadsNone<O>(g: Graph<O>, own: map<O, int>, r: nat)
    requires Ranked(g) && own.Keys == g.contents.Keys
    ensures Loads(g, own, [], r) == 0
  {
  }

  lemma LoadsStep<O>(g: Graph<O>, own: map<O, int>, s: seq<O>, c: O, r: nat)
    requires Ranked(g) && own.Keys == g.contents.Keys && forall d <- s + [c] :: d in g.contents && g.rank[d] < r
    ensures (forall d <- s :: d in g.contents && g.rank[d] < r) && c in g.contents
    ensures Loads(g, own, s + [c], r) == Loads(g, own, s, r) + if c in g.boxes then Total(g, own, c) else own[c]
  {
    forall d <- s
      ensures d in g.contents && g.rank[d] < r
    {
      assert d in s + [c];
    }
    assert (s + [c])[..|s|] == s && c in s + [c];
  }

  ghost predicate InsideAny<O>(g: Graph<O>, s: seq<O>, o: O)
    requires Ranked(g) && forall c <- s :: c in g.contents
  {
    exists c <- s :: Inside(g, c, o)
  }

  /** The caches once the children in `s` have been worked out, `x` itself not yet. */
  ghost predicate PartlyDone<O>(g: Graph<O>, own: map<O, int>, w: map<O, int>, w': map<O, int>, s: seq<O>, x: O) {
    && Ranked(g) && own.Keys == w.Keys == w'.Keys == g.contents.Keys && (forall c <- s :: c in g.contents)
    && forall o <- g.contents :: o != x ==>
       w'[o] == if o in g.boxes && InsideAny(g, s, o) then Total(g, own, o) else w[o]
  }

  lemma {:induction false} InsideRanks<O>(g: Graph<O>, x: O, y: O)
    requires Ranked(g) && x in g.contents && Inside(g, x, y)
    ensures y in g.contents && g.rank[y] <= g.rank[x]
    decreases g.rank[x]
  {
    if x != y {
      var c :| c in g.contents[x] && Inside(g, c, y);
      InsideRanks(g, c, y);
    }
  }

  /** A child that is a container has been worked out. */
  lemma ChildDone<O>(g: Graph<O>, own: map<O, int>, w: map<O, int>, mid: map<O, int>, w': map<O, int>, s: seq<O>, c: O,
      x: O)
    requires PartlyDone(g, own, w, mid, s, x) && Recalculated(g, own, mid, w', c)
    requires x in g.contents && g.rank[c] < g.rank[x]
    ensures PartlyDone(g, own, w, w', s + [c], x) && w'[x] == mid[x]
  {
    if Inside(g, c, x) {
      InsideRanks(g, c, x);
    }
    forall o <- g.contents
      ensures o != x ==> w'[o] == if o in g.boxes && InsideAny(g, s + [c], o) then Total(g, own, o) else w[o]
    {
      InsideOneMore(g, s, c, o);
    }
  }

  lemma InsideOneMore<O>(g: Graph<O>, s: seq<O>, c: O, o: O)
    requires Ranked(g) && (forall d <- s :: d in g.contents) && c in g.contents
    ensures InsideAny(g, s + [c], o) <==> InsideAny(g, s, o) || Inside(g, c, o)
  {
    if InsideAny(g, s, o) {
      var d :| d in s && Inside(g, d, o);
      assert d in s + [c];
    }
    assert c in s + [c];
  }

  /** A child that is no container needs nothing. */
  lemma ChildPlain<O>(g: Graph<O>, own: map<O, int>, w: map<O, int>, w': map<O, int>, s: seq<O>, c: O, x: O)
    requires PartlyDone(g, own, w, w', s, x) && c in g.contents && c !in g.boxes && g.contents[c] == []
    ensures PartlyDone(g, own, w, w', s + [c], x)
  {
    forall o <- g.contents
      ensures InsideAny(g, s + [c], o) <==> InsideAny(g, s, o) || o == c
    {
      InsideOneMore(g, s, c, o);
    }
  }

  lemma AllDone<O>(g: Graph<O>, own: map<O, int>, w: map<O, int>, w': map<O, int>, x: O)
    requires x in g.contents && x in g.boxes && PartlyDone(g, own, w, w', g.contents[x], x) && w'[x] == Total(g, own, x)
    ensures Recalculated(g, own, w, w', x)
  {
    forall o <- g.contents
      ensures Inside(g, x, o) <==> x == o || InsideAny(g, g.contents[x], o)
    {
    }
  }

  /** `x` while its first `n` contents have been worked out and added to its own load. */
  ghost predicate Working<O>(g: Graph<O>, own: map<O, int>, w: map<O, int>, w': map<O, int>, x: O, n: nat) {
    && Ranked(g) && x in g.contents && n <= |g.contents[x]|
    && (forall c <- g.contents[x][..n] :: c in g.contents[x])
    && PartlyDone(g, own, w, w', g.contents[x][..n], x)
    && w'[x] == own[x] + Loads(g, own, g.contents[x][..n], g.rank[x])
  }

  /** What happens to a child: a container is worked out, anything else just read. */
  ghost predicate ChildRead<O>(g: Graph<O>, own: map<O, int>, mid: map<O, int>, now: map<O, int>, c: O, load: int) {
    && Ranked(g) && own.Keys == g.contents.Keys && c in g.contents
    && if c in g.boxes then Recalculated(g, own, mid, now, c) && load == Total(g, own, c)
       else now == mid && load == own[c] && g.contents[c] == []
  }

  lemma ReadIs<O>(g: Graph<O>, own: map<O, int>, mid: map<O, int>, now: map<O, int>, c: O, load: int)
    requires Ranked(g) && own.Keys == g.contents.Keys && c in g.contents
    requires c in g.boxes ==> Recalculated(g, own, mid, now, c) && load == Total(g, own, c)
    requires c !in g.boxes ==> now == mid && load == own[c] && g.contents[c] == []
    ensures ChildRead(g, own, mid, now, c, load)
  {
  }

  lemma WorkingStarts<O>(g: Graph<O>, own: map<O, int>, w: map<O, int>, w': map<O, int>, x: O)
    requires Ranked(g) && own.Keys == w.Keys == w'.Keys == g.contents.Keys && x in g.contents
    requires w' == w[x := own[x]]
    ensures Working(g, own, w, w', x, 0)
  {
  }

  lemma PartlyStill<O>(g: Graph<O>, own: map<O, int>, w: map<O, int>, mid: map<O, int>, w': map<O, int>, s: seq<O>,
      x: O)
    requires PartlyDone(g, own, w, mid, s, x) && x in mid && x in w' && w' == mid[x := w'[x]]
    ensures PartlyDone(g, own, w, w', s, x)
  {
    hide Total, InsideAny;
  }

  lemma ChildWorked<O>(g: Graph<O>, own: map<O, int>, w: map<O, int>, mid: map<O, int>, now: map<O, int>, s: seq<O>,
      c: O, x: O)
    requires PartlyDone(g, own, w, mid, s, x) && x in g.contents && c in g.contents[x]
    requires c in g.boxes ==> Recalculated(g, own, mid, now, c)
    requires c !in g.boxes ==> now == mid && g.contents[c] == []
    ensures PartlyDone(g, own, w, now, s + [c], x) && now[x] == mid[x]
  {
    hide Total, InsideAny;
    if c in g.boxes {
      ChildDone(g, own, w, mid, now, s, c, x);
    } else {
      ChildPlain(g, own, w, mid, s, c, x);
    }
  }

  lemma WorkingStep<O>(g: Graph<O>, own: map<O, int>, w: map<O, int>, mid: map<O, int>, now: map<O, int>,
                       w': map<O, int>, x: O, n: nat, load: int)
    requires Working(g, own, w, mid, x, n) && n < |g.contents[x]|
    requires ChildRead(g, own, mid, now, g.contents[x][n], load)
    requires x in now && w' == now[x := now[x] + load]
    ensures Working(g, own, w, w', x, n + 1)
  {
    hide Total, Loads, InsideAny, Recalculated, Inside;
    var c, s := g.contents[x][n], g.contents[x][..n];
    assert g.contents[x][..n + 1] == s + [c] && c in g.contents[x];
    LoadsStep(g, own, s, c, g.rank[x]);
    ChildWorked(g, own, w, mid, now, s, c, x);
    PartlyStill(g, own, w, now, w', s + [c], x);
  }

  lemma WorkingEnds<O>(g: Graph<O>, own: map<O, int>, w: map<O, int>, w': map<O, int>, x: O)
    requires x in g.contents && x in g.boxes && Working(g, own, w, w', x, |g.contents[x]|)
    ensures Recalculated(g, own, w, w', x) && w'[x] == Total(g, own, x)
  {
    assert g.contents[x][..|g.contents[x]|] == g.contents[x];
    AllDone(g, own, w, w', x);
  }
}
