/** Weight goes with the object: what a move adds to the containers above its goal it takes from those above
    its origin, and nothing else changes. */
module Weighing {
  import opened LinkedLists
  import opened Containment

  ghost function Load<O>(g: Graph<O>, own: map<O, int>, c: O): int
    requires Ranked(g) && own.Keys == g.contents.Keys && c in g.contents
  {
    if c in g.boxes then Total(g, own, c) else own[c]
  }

  ghost predicate Above<O>(f: Forest<O>, x: O, y: O)
    requires Chained(f) && y in f.g.contents
  {
    x == y || Owns(f, x, y)
  }

  /** `h` is `f.g` with `s` put among the contents of `y`, which it does not own. */
  ghost predicate Added<O>(f: Forest<O>, h: Graph<O>, own: map<O, int>, s: O, y: O) {
    && WellOwned(f) && Ranked(h) && own.Keys == f.g.contents.Keys == h.contents.Keys && h.boxes == f.g.boxes
    && s in f.g.contents && y in f.g.contents && y in f.g.boxes && s != y && !Owns(f, s, y)
    && h == WithContents(f.g.(rank := h.rank), y, h.contents[y])
    && Distinct(h.contents[y]) && s in h.contents[y] && Minus(h.contents[y], {s}) == f.g.contents[y]
  }

  /** One entry's share of a load. */
  lemma {:induction false} LoadsSplit<O>(g: Graph<O>, own: map<O, int>, t: seq<O>, c: O, r: nat)
    requires Ranked(g) && own.Keys == g.contents.Keys && Distinct(t) && c in t
    requires forall d <- t :: d in g.contents && g.rank[d] < r
    ensures forall d <- Minus(t, {c}) :: d in g.contents && g.rank[d] < r
    ensures Loads(g, own, t, r) == Loads(g, own, Minus(t, {c}), r) + Load(g, own, c)
    decreases |t|
  {
    hide Total;
    var rest, last := t[..|t| - 1], t[|t| - 1];
    assert t == rest + [last];
    MinusAppend(rest, [last], {c});
    if last == c {
      MinusNone(rest, {c});
      assert Minus(t, {c}) == rest;
    } else {
      assert c in rest;
      LoadsSplit(g, own, rest, c, r);
      assert Minus(t, {c}) == Minus(rest, {c}) + [last];
      LoadsStep(g, own, Minus(rest, {c}), last, r);
    }
  }

  /** Below and beside `y` nothing changes. */
  lemma Elsewhere<O>(f: Forest<O>, h: Graph<O>, own: map<O, int>, s: O, y: O, o: O)
    requires Added(f, h, own, s, y) && o in f.g.contents && !Above(f, o, y)
    ensures Total(h, own, o) == Total(f.g, own, o) && Load(h, own, o) == Load(f.g, own, o)
  {
    var g := f.g.(rank := h.rank);
    assert Ranked(g) by {
      forall x, c | x in g.contents && c in g.contents[x]
        ensures c in h.contents[x]
      {
      }
    }
    InsideIsOwns(f, o, y);
    if Inside(g, o, y) {
      InsideGrows(g, f.g, o, y);
    }
    TotalElsewhere(g, own, y, h.contents[y], o);
    TotalRerank(f.g, h.rank, own, o);
  }

  lemma {:induction false} LoadsBeside<O>(f: Forest<O>, h: Graph<O>, own: map<O, int>, s: O, y: O, t: seq<O>, r: nat,
      r': nat)
    requires Added(f, h, own, s, y)
    requires forall c <- t :: c in f.g.contents && f.g.rank[c] < r && h.rank[c] < r' && !Above(f, c, y)
    ensures Loads(h, own, t, r') == Loads(f.g, own, t, r)
    decreases |t|
  {
    hide Total, Added;
    if t != [] {
      LoadsBeside(f, h, own, s, y, t[..|t| - 1], r, r');
      Elsewhere(f, h, own, s, y, t[|t| - 1]);
      AddedIs(f, h, own, s, y);
    }
  }

  lemma AddedIs<O>(f: Forest<O>, h: Graph<O>, own: map<O, int>, s: O, y: O)
    requires Added(f, h, own, s, y)
    ensures WellOwned(f) && Ranked(h) && own.Keys == f.g.contents.Keys == h.contents.Keys && h.boxes == f.g.boxes
    ensures Ranked(f.g) && f.g.rank.Keys == f.g.contents.Keys == h.rank.Keys
    ensures s in f.g.contents && y in f.g.contents && y in f.g.boxes && !Above(f, s, y)
    ensures forall o <- f.g.contents :: o != y ==> h.contents[o] == f.g.contents[o]
    ensures Distinct(h.contents[y]) && s in h.contents[y] && Minus(h.contents[y], {s}) == f.g.contents[y]
    ensures forall o <- h.contents, c <- h.contents[o] :: c in h.contents && h.rank[c] < h.rank[o]
  {
  }

  /** `y` itself gains the load of `s`. */
  lemma AddedHere<O>(f: Forest<O>, h: Graph<O>, own: map<O, int>, s: O, y: O)
    requires Added(f, h, own, s, y)
    ensures Total(h, own, y) == Total(f.g, own, y) + Load(f.g, own, s)
  {
    hide Loads, Total, Owns, Minus, Added, Holds, Held;
    AddedIs(f, h, own, s, y);
    LoadsSplit(h, own, h.contents[y], s, h.rank[y]);
    Elsewhere(f, h, own, s, y, s);
    forall c <- f.g.contents[y]
      ensures !Above(f, c, y) && h.rank[c] < h.rank[y]
    {
      NotBelow(f, c, y);
      assert c in h.contents[y];
    }
    LoadsBeside(f, h, own, s, y, f.g.contents[y], f.g.rank[y], h.rank[y]);
    TotalIs(h, own, y);
    TotalIs(f.g, own, y);
  }

  lemma TotalIs<O>(g: Graph<O>, own: map<O, int>, o: O)
    requires Ranked(g) && own.Keys == g.contents.Keys && o in g.contents
    ensures Total(g, own, o) == own[o] + Loads(g, own, g.contents[o], g.rank[o])
  {
  }

  /** Of the contents of one owner, only one can be above `y`. */
  lemma {:induction false} OneAbove<O>(f: Forest<O>, c: O, x: O, y: O)
    requires WellOwned(f) && y in f.g.contents && c in f.owner && x in f.owner && f.owner[c] == f.owner[x]
    requires Above(f, c, y) && Above(f, x, y)
    ensures c == x
    decreases f.bound - f.g.rank[y]
  {
    hide Held, Holds;
    if c == y && x != y {
      OwnerAbove(f, x, c);
    } else if x == y && c != y {
      OwnerAbove(f, c, x);
    } else if c != y {
      OneAbove(f, c, x, f.owner[y]);
    }
  }

  /** Who owns `y` is at least as high as the owner of `y`. */
  lemma {:induction false} OwnerAbove<O>(f: Forest<O>, x: O, y: O)
    requires Chained(f) && x in f.g.contents && y in f.g.contents && Owns(f, x, y)
    ensures f.g.rank[x] >= f.g.rank[f.owner[y]]
  {
    if f.owner[y] != x {
      OwnsRanks(f, x, f.owner[y]);
    }
  }

  lemma {:induction false} OwnsRanks<O>(f: Forest<O>, x: O, y: O)
    requires Chained(f) && x in f.g.contents && y in f.g.contents && Owns(f, x, y)
    ensures f.g.rank[x] > f.g.rank[y]
    decreases f.bound - f.g.rank[y]
  {
    if f.owner[y] != x {
      OwnsRanks(f, x, f.owner[y]);
    }
  }

  /** What one container gains, the container around it gains. */
  lemma AddedAround<O>(f: Forest<O>, h: Graph<O>, own: map<O, int>, s: O, y: O, x: O)
    requires Added(f, h, own, s, y) && x in f.owner && Above(f, x, y)
    requires Total(h, own, x) == Total(f.g, own, x) + Load(f.g, own, s)
    ensures Total(h, own, f.owner[x]) == Total(f.g, own, f.owner[x]) + Load(f.g, own, s)
  {
    hide Loads, Total, Owns, Minus, Added, Chained, Ranked;
    AddedIs(f, h, own, s, y);
    var o := f.owner[x];
    AroundIs(f, x, y);
    LoadsSplit(h, own, h.contents[o], x, h.rank[o]);
    LoadsSplit(f.g, own, f.g.contents[o], x, f.g.rank[o]);
    forall c <- Minus(f.g.contents[o], {x})
      ensures !Above(f, c, y)
    {
      if Above(f, c, y) {
        OneAbove(f, c, x, y);
      }
    }
    LoadsBeside(f, h, own, s, y, Minus(f.g.contents[o], {x}), f.g.rank[o], h.rank[o]);
    TotalIs(h, own, o);
    TotalIs(f.g, own, o);
  }

  lemma AroundIs<O>(f: Forest<O>, x: O, y: O)
    requires WellOwned(f) && y in f.g.contents && y in f.g.boxes && x in f.owner && Above(f, x, y)
    ensures f.owner[x] in f.g.contents && f.owner[x] != y && x in f.g.contents[f.owner[x]] && x in f.g.boxes
    ensures Distinct(f.g.contents[f.owner[x]])
    ensures forall c <- f.g.contents[f.owner[x]] :: c in f.owner && f.owner[c] == f.owner[x]
    ensures forall c <- f.g.contents[f.owner[x]] :: c in f.g.contents && f.g.rank[c] < f.g.rank[f.owner[x]]
  {
    assert Held(f, x) && Holds(f, f.owner[x]);
    if x != y {
      OwnsRanks(f, x, y);
      OwnerIsBox(f, x, y);
    }
  }

  lemma {:induction false} OwnerIsBox<O>(f: Forest<O>, x: O, y: O)
    requires WellOwned(f) && y in f.g.contents && Owns(f, x, y)
    ensures x in f.g.boxes
    decreases f.bound - f.g.rank[y]
  {
    assert Held(f, y);
    if f.owner[y] != x {
      OwnerIsBox(f, x, f.owner[y]);
    }
  }

  lemma {:induction false} AddedUp<O>(f: Forest<O>, h: Graph<O>, own: map<O, int>, s: O, y: O, x: O, o: O)
    requires Added(f, h, own, s, y) && x in f.g.contents && Above(f, x, y) && o in f.g.contents && Above(f, o, x)
    requires Total(h, own, x) == Total(f.g, own, x) + Load(f.g, own, s)
    ensures Total(h, own, o) == Total(f.g, own, o) + Load(f.g, own, s)
    decreases f.bound - f.g.rank[x]
  {
    hide Loads, Total, Minus, Holds, Held;
    if o != x {
      AddedAround(f, h, own, s, y, x);
      if x == y {
        OwnsAbove(f, y, y);
      } else {
        OwnsAbove(f, x, y);
      }
      AddedUp(f, h, own, s, y, f.owner[x], o);
    }
  }

  lemma {:induction false} OwnsAbove<O>(f: Forest<O>, x: O, y: O)
    requires WellOwned(f) && y in f.g.contents && x in f.owner && Above(f, x, y)
    ensures Owns(f, f.owner[x], y)
  {
    if x != y {
      OwnsUp(f, x, y);
    }
  }

  /** Adding `s` to `y` adds the load of `s` to `y` and to every container above it, and to no other. */
  lemma AddedTotal<O>(f: Forest<O>, h: Graph<O>, own: map<O, int>, s: O, y: O, o: O)
    requires Added(f, h, own, s, y) && o in f.g.contents
    ensures Total(h, own, o) == Total(f.g, own, o) + if Above(f, o, y) then Load(f.g, own, s) else 0
  {
    hide Loads, Total, Owns, Minus, Added, Chained, Ranked, Holds, Held;
    AddedIs(f, h, own, s, y);
    if Above(f, o, y) {
      AddedHere(f, h, own, s, y);
      AddedUp(f, h, own, s, y, y, o);
    } else {
      Elsewhere(f, h, own, s, y, o);
    }
  }

  // ---- whole moves

  /** A move that may be made: to a container that `s` is not in already, is not, and does not own. */
  ghost predicate Movable<O>(f: Forest<O>, s: O, y: O) {
    && WellOwned(f) && s in f.g.contents && y in f.g.contents && y in f.g.boxes
    && s != y && !Owns(f, s, y) && !(s in f.owner && f.owner[s] == y)
  }

  lemma GivenAdded<O>(f: Forest<O>, own: map<O, int>, s: O, y: O)
    requires Movable(f, s, y) && own.Keys == f.g.contents.Keys
    ensures Added(f, Given(f, s, y).g, own, s, y)
  {
    GivenChained(f, s, y);
    assert Holds(f, y);
    assert s !in f.g.contents[y];
    MinusNew(f.g.contents[y], s);
    DistinctAppend(f.g.contents[y], s);
    assert Given(f, s, y).g.contents == f.g.contents[y := f.g.contents[y] + [s]];
  }

  lemma OriginFree<O>(f: Forest<O>, s: O)
    requires WellOwned(f) && s in f.owner
    ensures s in f.g.contents && f.owner[s] in f.g.contents && f.owner[s] in f.g.boxes && s in f.g.contents[f.owner[s]]
    ensures f.owner[s] != s && !Owns(f, s, f.owner[s])
  {
    assert Held(f, s);
    NotBelow(f, s, f.owner[s]);
  }

  /** Seen backwards, leaving the old owner is being added to it. */
  lemma LeftAdded<O>(f: Forest<O>, own: map<O, int>, s: O, y: O)
    requires Movable(f, s, y) && own.Keys == f.g.contents.Keys && s in f.owner
    ensures f.owner[s] in f.g.contents && Added(Moved(f, s, y), Given(f, s, y).g, own, s, f.owner[s])
  {
    hide Lifted, Chained, Owns, Minus, Holds, Held;
    var p, n, h := f.owner[s], Moved(f, s, y), Given(f, s, y);
    OriginFree(f, s);
    MovedKeeps(f, s, y);
    MovedReady(f, s, y);
    OriginKept(f, s, y, p, p);
    assert h.g.contents == n.g.contents[p := h.g.contents[p]];
    assert h.g.contents[p] == f.g.contents[p];
  }

  /** Above what `s` does not own, a move of `s` changes nothing. */
  lemma {:induction false} OriginKept<O>(f: Forest<O>, s: O, y: O, x: O, o: O)
    requires Movable(f, s, y) && x in f.g.contents && o in f.g.contents && o != s && !Owns(f, s, o)
    ensures WellOwned(Moved(f, s, y)) && Moved(f, s, y).g.contents.Keys == f.g.contents.Keys
    ensures Moved(f, s, y).owner == f.owner[s := y]
    ensures (Owns(Moved(f, s, y), x, o) <==> Owns(f, x, o)) && !Owns(Moved(f, s, y), s, o)
    decreases f.bound - f.g.rank[o]
  {
    hide Lifted, Holds, Held, Minus;
    MovedKeeps(f, s, y);
    MovedChained(f, s, y);
    if o in f.owner {
      OriginKept(f, s, y, x, f.owner[o]);
    }
  }

  /** The law of a move: what is above the goal gains the load, what is above the origin loses it, and where the
      two ways up have met both happen. */
  lemma MovedTotal<O>(f: Forest<O>, own: map<O, int>, s: O, y: O, o: O)
    requires Movable(f, s, y) && own.Keys == f.g.contents.Keys && o in f.g.contents
    ensures WellOwned(Moved(f, s, y)) && o in Moved(f, s, y).g.contents
    ensures Total(Moved(f, s, y).g, own, o) == Total(f.g, own, o)
              + (if Above(f, o, y) then Load(f.g, own, s) else 0)
              - (if s in f.owner && Above(f, o, f.owner[s]) then Load(f.g, own, s) else 0)
  {
    hide Loads, Total, Owns, Minus, Added, Chained, Holds, Held, Lifted, Ranked;
    var n, h := Moved(f, s, y), Given(f, s, y);
    MovedKeeps(f, s, y);
    MovedChained(f, s, y);
    GivenAdded(f, own, s, y);
    AddedTotal(f, h.g, own, s, y, o);
    if s in f.owner {
      LeftAdded(f, own, s, y);
      OriginFree(f, s);
      OriginKept(f, s, y, o, f.owner[s]);
      AddedTotal(n, h.g, own, s, f.owner[s], o);
      LoadKept(f, own, s, y);
    } else {
      MovedIs(f, s, y);
    }
  }

  /** Moving a thing does not change its own load. */
  lemma LoadKept<O>(f: Forest<O>, own: map<O, int>, s: O, y: O)
    requires Movable(f, s, y) && own.Keys == f.g.contents.Keys
    ensures WellOwned(Moved(f, s, y)) && s in Moved(f, s, y).g.contents && own.Keys == Moved(f, s, y).g.contents.Keys
    ensures Load(Moved(f, s, y).g, own, s) == Load(f.g, own, s)
  {
    hide Loads, Total, Minus, Owns, Added, Chained, Holds, Held, Lifted, Ranked;
    MovedKeeps(f, s, y);
    MovedChained(f, s, y);
    GivenAdded(f, own, s, y);
    AddedIs(f, Given(f, s, y).g, own, s, y);
    Elsewhere(f, Given(f, s, y).g, own, s, y, s);
    if s in f.owner {
      LeftAdded(f, own, s, y);
      AddedIs(Moved(f, s, y), Given(f, s, y).g, own, s, f.owner[s]);
      Elsewhere(Moved(f, s, y), Given(f, s, y).g, own, s, f.owner[s], s);
    } else {
      MovedIs(f, s, y);
    }
  }

  /** The same law for the caches. */
  lemma CachesFollow<O>(f: Forest<O>, own: map<O, int>, w: map<O, int>, w': map<O, int>, s: O, y: O, o: O)
    requires Movable(f, s, y) && o in f.g.contents && o in f.g.boxes
    requires Exact(f.g, own, w) && Exact(Moved(f, s, y).g, own, w')
    ensures w'[o] == w[o] + (if Above(f, o, y) then Load(f.g, own, s) else 0)
                          - (if s in f.owner && Above(f, o, f.owner[s]) then Load(f.g, own, s) else 0)
  {
    hide Loads, Total, Owns, Minus, Holds, Held, Lifted;
    MovedChained(f, s, y);
    MovedTotal(f, own, s, y, o);
  }

  // ---- capacities

  /** `v` more fits into `o` and everything above it, up to the first container that is in `stop`. */
  ghost predicate Fits<O>(f: Forest<O>, w: map<O, int>, cap: map<O, int>, stop: set<O>, o: O, v: int)
    requires Chained(f) && w.Keys == cap.Keys == f.g.contents.Keys && o in f.g.contents
    decreases f.bound - f.g.rank[o]
  {
    o in stop || (w[o] + v <= cap[o] && (o in f.owner ==> Fits(f, w, cap, stop, f.owner[o], v)))
  }

  /** On the way up from `o`, which ends at the first that is in `stop`. */
  ghost predicate OnTheWay<O>(f: Forest<O>, stop: set<O>, x: O, o: O)
    requires Chained(f) && o in f.g.contents
  {
    Above(f, x, o) && forall y <- stop :: y in f.g.contents && Above(f, y, o) ==> !Owns(f, x, y)
  }

  /** One step of the way. */
  lemma WayUp<O>(f: Forest<O>, stop: set<O>, x: O, o: O)
    requires Chained(f) && o in f.g.contents
    ensures o in f.owner ==> f.owner[o] in f.g.contents
    ensures OnTheWay(f, stop, x, o)
       <==> x == o || (o !in stop && o in f.owner && OnTheWay(f, stop, x, f.owner[o]))
  {
    if x == o {
      forall y <- stop | y in f.g.contents && Above(f, y, o)
        ensures !Owns(f, x, y)
      {
        if Owns(f, x, y) {
          OwnsRanks(f, x, y);
          if y != o {
            OwnsRanks(f, y, o);
          }
          assert false;
        }
      }
    }
  }

  /** After a move whose load did fit, everything up to there is within its capacity. */
  lemma {:induction false} StillFits<O>(f: Forest<O>, own: map<O, int>, w: map<O, int>, w': map<O, int>,
                                        cap: map<O, int>, stop: set<O>, s: O, y: O, o: O)
    requires Movable(f, s, y) && o in f.g.contents && Above(f, o, y) && cap.Keys == f.g.contents.Keys
    requires WellOwned(Moved(f, s, y)) && Exact(f.g, own, w) && Exact(Moved(f, s, y).g, own, w')
    requires Load(f.g, own, s) >= 0 && Fits(f, w, cap, stop, o, Load(f.g, own, s))
    ensures Fits(Moved(f, s, y), w', cap, stop, o, 0)
    decreases f.bound - f.g.rank[o]
  {
    hide Loads, Total, Minus, Lifted, Holds, Held;
    var n := Moved(f, s, y);
    MovedChained(f, s, y);
    AboveIs(f, s, y, o);
    if o !in stop {
      MovedTotal(f, own, s, y, o);
      if o in f.owner {
        OwnsAbove(f, o, y);
        StillFits(f, own, w, w', cap, stop, s, y, f.owner[o]);
      }
    }
  }

  lemma AboveIs<O>(f: Forest<O>, s: O, y: O, o: O)
    requires Movable(f, s, y) && o in f.g.contents && Above(f, o, y)
    ensures o in f.g.boxes && o != s
  {
    if o != y {
      OwnerIsBox(f, o, y);
    }
  }

  lemma ItStillFits<O>(f: Forest<O>, own: map<O, int>, w: map<O, int>, w': map<O, int>,
                       cap: map<O, int>, stop: set<O>, s: O, y: O)
    requires Movable(f, s, y) && cap.Keys == f.g.contents.Keys
    requires WellOwned(Moved(f, s, y)) && Exact(f.g, own, w) && Exact(Moved(f, s, y).g, own, w')
    ensures Chained(Moved(f, s, y)) && w'.Keys == Moved(f, s, y).g.contents.Keys == cap.Keys
    ensures Load(f.g, own, s) >= 0 && Fits(f, w, cap, stop, y, Load(f.g, own, s)) ==>
            Fits(Moved(f, s, y), w', cap, stop, y, 0)
  {
    hide Loads, Total, Minus, Lifted, Holds, Held, Owns;
    MovedChained(f, s, y);
    if Load(f.g, own, s) >= 0 && Fits(f, w, cap, stop, y, Load(f.g, own, s)) {
      StillFits(f, own, w, w', cap, stop, s, y, y);
    }
  }
}
