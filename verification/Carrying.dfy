/** Taking, dropping and giving (roommgr/bcarry.cpp), the caches that must follow
    (roommgr/bcontain.cpp) and the walks up the owners (roommgr/wobject.cpp), on the objects themselves. */
module Carrying {
  import opened LinkedLists
  import opened Containment
  import opened Floors
  import opened Weighing

  /** How far `isOwnedBy` looks when it is not told. */
  const MAX_LEVELS: nat := 100000

  datatype Outcome = Handled | Prohibited | Refused | Crashed | MustOpen | MustRemove | TooHeavy | TooBulky

  class Room {
    var objects: seq<WorldObject>

    constructor ()
      ensures objects == []
    {
      objects := [];
    }

    method AddObject(thing: WorldObject)
      modifies this`objects, thing`room
      ensures if thing in old(objects) then objects == old(objects) && thing.room == old(thing.room)
              else objects == old(objects) + [thing] && thing.room == this
    {
      if thing !in objects {
        thing.room := this;
        objects := objects + [thing];
      }
    }

    method DelObject(thing: WorldObject)
      modifies this`objects, thing`room
      ensures if thing in old(objects) then objects == Del(old(objects), thing) && thing.room == null
              else objects == old(objects) && thing.room == old(thing.room)
    {
      if thing in objects {
        thing.room := null;
        objects := Del(objects, thing);
      }
    }
  }

  class WorldObject {
    // which bases the object has: BCarryable, BContainer, a closed BOpenable
    const carry: bool
    const container: bool
    var closed: bool
    // BCarryable
    const ownWeight: int
    const ownBulk: int
    var owner: WorldObject?
    // BContainer
    const weightCapacity: int
    const bulkCapacity: int
    var contents: seq<WorldObject>
    var weight: int
    var bulk: int
    // the object itself
    const played: bool // it has a `player`
    var room: Room?
    var worn: bool
    var wielded: bool

    constructor (carry: bool, container: bool, played: bool, ownWeight: int, ownBulk: int, weightCapacity: int,
        bulkCapacity: int)
      ensures this.carry == carry && this.container == container && this.played == played
      ensures this.ownWeight == ownWeight && this.ownBulk == ownBulk
      ensures this.weightCapacity == weightCapacity && this.bulkCapacity == bulkCapacity
      ensures owner == null && contents == [] && room == null && weight == bulk == 0
    {
      this.carry, this.container, this.played := carry, container, played;
      this.ownWeight, this.ownBulk := ownWeight, ownBulk;
      this.weightCapacity, this.bulkCapacity := weightCapacity, bulkCapacity;
      owner, contents, weight, bulk, room := null, [], 0, 0, null;
      worn, wielded, closed := false, false, false;
    }

    // ---- working out weight and bulk

    /** Works the weight out anew, all the way down. */
    method CalculateWeight(ghost w: World) returns (total: int)
      requires w.Ranked() && this in w.objs && container
      modifies w.objs`weight
      ensures Recalculated(w.Graph(), w.OwnWeights(), old(w.Weights()), w.Weights(), this)
      ensures total == weight == Total(w.Graph(), w.OwnWeights(), this)
      decreases w.rank[this], 1
    {
      hide *;
      ghost var g, own, was := w.Graph(), w.OwnWeights(), w.Weights();
      w.Reads(this);
      w.ReadsWeight(this);
      label Before:
      weight := if carry then ownWeight else 0;
      w.WeightWritten@Before(this);
      WorkingStarts(g, own, was, w.Weights(), this);
      var i := 0;
      while i < |contents|
        invariant 0 <= i <= |contents| && Working(g, own, was, w.Weights(), this, i)
      {
        AddWeightOf(i, was, w);
        i := i + 1;
      }
      w.Reads(this);
      w.ReadsWeight(this);
      WorkingEnds(g, own, was, w.Weights(), this);
      total := weight;
    }

    /** One more of the contents is worked out, and added. */
    method AddWeightOf(i: nat, ghost was: map<WorldObject, int>, ghost w: World)
      requires w.Ranked() && this in w.objs && i < |contents|
      requires Working(w.Graph(), w.OwnWeights(), was, w.Weights(), this, i)
      modifies w.objs`weight
      ensures Working(w.Graph(), w.OwnWeights(), was, w.Weights(), this, i + 1)
      decreases w.rank[this], 0
    {
      hide *;
      w.Reads(this);
      ghost var g, own, mid := w.Graph(), w.OwnWeights(), w.Weights();
      var load := contents[i].LoadWeight(w);
      ghost var now := w.Weights();
      w.ReadsWeight(this);
      label Adding:
      weight := weight + load;
      w.WeightWritten@Adding(this);
      WorkingStep(g, own, was, mid, now, w.Weights(), this, i, load);
    }

    /** What this object adds to the weight of its container. */
    method LoadWeight(ghost w: World) returns (load: int)
      requires w.Ranked() && this in w.objs
      modifies w.objs`weight
      ensures ChildRead(w.Graph(), w.OwnWeights(), old(w.Weights()), w.Weights(), this, load)
      decreases w.rank[this], 2
    {
      hide *;
      w.Reads(this);
      w.ReadsWeight(this);
      load := 0;
      if container {
        load := CalculateWeight(w);
      } else {
        w.Plain(this);
        if carry {
          load := ownWeight;
        }
      }
      ReadIs(w.Graph(), w.OwnWeights(), old(w.Weights()), w.Weights(), this, load);
    }

    method CalculateBulk(ghost w: World) returns (total: int)
      requires w.Ranked() && this in w.objs && container
      modifies w.objs`bulk
      ensures Recalculated(w.Graph(), w.OwnBulks(), old(w.Bulks()), w.Bulks(), this)
      ensures total == bulk == Total(w.Graph(), w.OwnBulks(), this)
      decreases w.rank[this], 1
    {
      hide *;
      ghost var g, own, was := w.Graph(), w.OwnBulks(), w.Bulks();
      w.Reads(this);
      w.ReadsBulk(this);
      label Before:
      bulk := if carry then ownBulk else 0;
      w.BulkWritten@Before(this);
      WorkingStarts(g, own, was, w.Bulks(), this);
      var i := 0;
      while i < |contents|
        invariant 0 <= i <= |contents| && Working(g, own, was, w.Bulks(), this, i)
      {
        AddBulkOf(i, was, w);
        i := i + 1;
      }
      w.Reads(this);
      w.ReadsBulk(this);
      WorkingEnds(g, own, was, w.Bulks(), this);
      total := bulk;
    }

    /** One more of the contents is worked out, and added. */
    method AddBulkOf(i: nat, ghost was: map<WorldObject, int>, ghost w: World)
      requires w.Ranked() && this in w.objs && i < |contents|
      requires Working(w.Graph(), w.OwnBulks(), was, w.Bulks(), this, i)
      modifies w.objs`bulk
      ensures Working(w.Graph(), w.OwnBulks(), was, w.Bulks(), this, i + 1)
      decreases w.rank[this], 0
    {
      hide *;
      w.Reads(this);
      ghost var g, own, mid := w.Graph(), w.OwnBulks(), w.Bulks();
      var load := contents[i].LoadBulk(w);
      ghost var now := w.Bulks();
      w.ReadsBulk(this);
      label Adding:
      bulk := bulk + load;
      w.BulkWritten@Adding(this);
      WorkingStep(g, own, was, mid, now, w.Bulks(), this, i, load);
    }

    method LoadBulk(ghost w: World) returns (load: int)
      requires w.Ranked() && this in w.objs
      modifies w.objs`bulk
      ensures ChildRead(w.Graph(), w.OwnBulks(), old(w.Bulks()), w.Bulks(), this, load)
      decreases w.rank[this], 2
    {
      hide *;
      w.Reads(this);
      w.ReadsBulk(this);
      load := 0;
      if container {
        load := CalculateBulk(w);
      } else {
        w.Plain(this);
        if carry {
          load := ownBulk;
        }
      }
      ReadIs(w.Graph(), w.OwnBulks(), old(w.Bulks()), w.Bulks(), this, load);
    }

    // ---- walking up the owners

    /** The owner, or the object itself when it has none. */
    function GetOwner(): WorldObject
      reads this`owner
    {
      if carry && owner != null then owner else this
    }

    method GetBaseOwner(ghost w: World) returns (base: WorldObject)
      requires w.Standing() && this in w.objs
      ensures base == Root(w.Forest(), this) && base in w.objs
    {
      hide *;
      w.ReadsOwner(this);
      base := this;
      var temp := GetOwner();
      while base != temp
        invariant base in w.objs && Root(w.Forest(), base) == Root(w.Forest(), this) && temp == base.GetOwner()
        decreases w.Forest().bound - w.Forest().g.rank[base]
      {
        w.ReadsOwner(base);
        RootStep(w.Forest(), base);
        base := temp;
        temp := temp.GetOwner();
        w.ReadsOwner(base);
      }
      w.ReadsOwner(base);
      RootStep(w.Forest(), base);
    }

    /** Whether `other` is among the first `levels` owners of this object. */
    method IsOwnedBy(other: WorldObject, levels: nat, ghost w: World) returns (found: bool)
      requires w.Standing() && this in w.objs
      ensures found <==> OwnsWithin(w.Forest(), other, this, levels)
    {
      hide *;
      var owner, lastOwner, left := GetOwner(), this, levels;
      found := false;
      w.ReadsOwner(this);
      while lastOwner != owner && left > 0
        invariant !found && lastOwner in w.objs && owner == lastOwner.GetOwner()
        invariant OwnsWithin(w.Forest(), other, lastOwner, left) <==> OwnsWithin(w.Forest(), other, this, levels)
        decreases left
      {
        w.ReadsOwner(lastOwner);
        OwnsWithinStep(w.Forest(), other, lastOwner, left);
        if other == owner {
          return true;
        }
        lastOwner, left := owner, left - 1;
        owner := owner.GetOwner();
      }
      w.ReadsOwner(lastOwner);
      OwnsWithinStep(w.Forest(), other, lastOwner, left);
    }

    // ---- keeping the caches

    method ChangeWeight(ghost w: World)
      requires w.Standing() && w.Ranked() && this in w.objs && container
      modifies w.objs`weight
      ensures Recalculated(w.Graph(), w.OwnWeights(), old(w.Weights()), w.Weights(), w.Worked(this))
    {
      hide *;
      var owner := GetBaseOwner(w);
      w.WorkedIs(this);
      if owner.container {
        var total := owner.CalculateWeight(w);
      } else {
        var total := CalculateWeight(w);
      }
    }

    method ChangeBulk(value: int, ghost w: World)
      requires w.Standing() && w.Ranked() && this in w.objs && container
      modifies w.objs`bulk
      ensures Root(w.Forest(), this).container ==>
                Recalculated(w.Graph(), w.OwnBulks(), old(w.Bulks()), w.Bulks(), w.Worked(this))
      ensures !Root(w.Forest(), this).container ==> w.Bulks() == old(w.Bulks())[this := old(bulk) + value]
    {
      hide *;
      var owner := GetBaseOwner(w);
      w.WorkedIs(this);
      if owner.container {
        var total := owner.CalculateBulk(w);
      } else {
        bulk := bulk + value;
        w.BulkWritten(this);
      }
    }

    /** Both caches are worked out from the base owner down. */
    method ChangeLoads(load: int, ghost w: World)
      requires w.Standing() && w.Ranked() && this in w.objs && container && Root(w.Forest(), this) in w.Boxes()
      modifies w.objs`weight, w.objs`bulk
      ensures Recalculated(w.Graph(), w.OwnWeights(), old(w.Weights()), w.Weights(), Root(w.Forest(), this))
      ensures Recalculated(w.Graph(), w.OwnBulks(), old(w.Bulks()), w.Bulks(), Root(w.Forest(), this))
    {
      hide *;
      w.WorkedRoot(this);
      ChangeWeight(w);
      ChangeBulk(load, w);
    }

    // ---- the two halves of a move

    /** The owner is set and the new owner's list has this at its end. */
    method Enter(taker: WorldObject, ghost w: World)
      requires w.Standing() && w.Ranked() && WellOwned(w.Forest()) && this in w.objs && taker in w.objs && carry
      requires taker.container
      requires this != taker && !Owns(w.Forest(), this, taker)
      modifies this`owner, taker`contents, w`rank, w`bound
      ensures w.Forest() == Given(old(w.Forest()), this, taker) && w.Standing() && w.Ranked()
    {
      hide *;
      ghost var f := w.Forest();
      w.ReadsForest();
      GivenIs(f, this, taker);
      owner := taker;
      taker.contents := taker.contents + [this];
      w.rank := Given(f, this, taker).g.rank;
      w.bound := Given(f, this, taker).bound;
      w.Entered(this, taker);
    }

    /** Enters, and the caches follow. */
    method PutInto(taker: WorldObject, load: int, ghost w: World)
      requires w.Standing() && w.Ranked() && WellOwned(w.Forest()) && w.Cached()
      requires this in w.objs && taker in w.objs && carry && taker.container
      requires this != taker && !Owns(w.Forest(), this, taker)
      modifies this`owner, taker`contents, w`rank, w`bound, w.objs`weight, w.objs`bulk
      ensures w.Forest() == Given(old(w.Forest()), this, taker) && w.Standing() && w.Ranked() && w.Cached()
    {
      hide *;
      w.ReadsForest();
      w.Reads(taker);
      ghost var f := w.Forest();
      w.CachedIs();
      ghost var weights, bulks := w.Weights(), w.Bulks();
      Enter(taker, w);
      GivenRoot(f, this, taker);
      taker.ChangeLoads(load, w);
      w.ReadsForest();
      GivenExact(f, w.OwnWeights(), this, taker, weights, w.Weights());
      GivenExact(f, w.OwnBulks(), this, taker, bulks, w.Bulks());
      w.CachedIs();
    }

    method Leave(p: WorldObject, ghost w: World)
      requires w.Standing() && w.Ranked() && p in w.objs && Distinct(p.contents)
      modifies p`contents
      ensures w.Forest() == LeftBehind(old(w.Forest()), this, p) && w.Standing() && w.Ranked()
    {
      hide *;
      ghost var f := w.Forest();
      w.ReadsForest();
      LeftBehindIs(f, this, p);
      DelIsMinus(p.contents, this);
      p.contents := Del(p.contents, this);
      w.LeftIt(this, p);
    }

    /** Leaves the list of `p`, and the caches follow; `n` is the forest that this makes, or will. */
    method TakeFrom(p: WorldObject, load: int, ghost n: Forest<WorldObject>, ghost w: World)
      requires w.Standing() && w.Ranked() && w.Cached() && this in w.objs && p in w.objs && p.container
      requires Distinct(p.contents) && WellOwned(n) && n.g == LeftBehind(w.Forest(), this, p).g
      requires Chained(LeftBehind(w.Forest(), this, p)) && Root(LeftBehind(w.Forest(), this, p), p) == Root(n, p)
      modifies p`contents, w.objs`weight, w.objs`bulk
      ensures w.Forest() == LeftBehind(old(w.Forest()), this, p) && w.Standing() && w.Ranked() && w.Cached()
    {
      hide *;
      ghost var h, weights, bulks := w.Forest(), w.Weights(), w.Bulks();
      w.ReadsForest();
      w.Reads(p);
      w.CachedIs();
      LeftBehindGraph(h, n, this, p);
      RootIsBox(n, p);
      Leave(p, w);
      w.ReadsForest();
      p.ChangeLoads(load, w);
      w.ReadsForest();
      LeftExact(h, n, w.OwnWeights(), p, h.g.contents[p], weights, w.Weights());
      LeftExact(h, n, w.OwnBulks(), p, h.g.contents[p], bulks, w.Bulks());
      w.CachedIs();
    }

    /** The whole move: into the new owner first, then out of the old one. */
    method MoveTo(taker: WorldObject, load: int, bulkLoad: int, ghost w: World)
      requires w.Standing() && w.Ranked() && WellOwned(w.Forest()) && w.Cached()
      requires this in w.objs && taker in w.objs && carry && taker.container
      requires this != taker && !Owns(w.Forest(), this, taker) && owner != taker
      modifies this`owner, w.objs`contents, w`rank, w`bound, w.objs`weight, w.objs`bulk
      ensures w.Forest() == Moved(old(w.Forest()), this, taker)
      ensures w.Standing() && w.Ranked() && WellOwned(w.Forest()) && w.Cached()
    {
      hide *;
      ghost var f := w.Forest();
      w.ReadsForest();
      w.Reads(taker);
      w.ReadsOwner(this);
      w.OwnerIs(this);
      MovedIs(f, this, taker);
      MovedKeeps(f, this, taker);
      var oldOwner := owner;
      PutInto(taker, bulkLoad, w);
      if oldOwner != null {
        MovedReady(f, this, taker);
        w.ReadsForest();
        w.Reads(oldOwner);
        TakeFrom(oldOwner, -bulkLoad, Moved(f, this, taker), w);
      }
    }

    // ---- may it be moved?

    function Heaviness(): int
      reads this`weight
    {
      if container then weight else ownWeight
    }

    function Bulkiness(): int
      reads this`bulk
    {
      if container then bulk else ownBulk
    }

    /** Whether `value` more is too much for this container or one that it is in. */
    function TooHeavy(value: int, ghost w: World): bool
      requires w.Standing() && WellOwned(w.Forest()) && this in w.objs
      reads w`objs, w`rank, w`bound, w.objs`contents, w.objs`owner, w.objs`weight
      decreases w.bound - w.Rank(this)
    {
      w.OwnerIn(this);
      if bulkCapacity == 0 && |contents| > 0 then true
      else if bulkCapacity == 0 then false
      else if weight + value > weightCapacity then true
      else if GetOwner() != this then GetOwner().TooHeavy(value, w)
      else false
    }

    function TooBulky(value: int, ghost w: World): bool
      requires w.Standing() && WellOwned(w.Forest()) && this in w.objs
      reads w`objs, w`rank, w`bound, w.objs`contents, w.objs`owner, w.objs`bulk
      decreases w.bound - w.Rank(this)
    {
      w.OwnerIn(this);
      if weightCapacity == 0 && |contents| > 0 then true
      else if bulkCapacity == 0 then false
      else if bulk + value > bulkCapacity then true
      else if GetOwner() != this then GetOwner().TooBulky(value, w)
      else false
    }

    // ---- the moves

    /** Everything that must hold for this to go to `taker`. */
    ghost predicate MayGive(taker: WorldObject, override: int, w: World)
      requires w.Standing() && WellOwned(w.Forest()) && this in w.objs && taker in w.objs
      reads w, w.objs
    {
      && taker != this
      && (override == 0 ==> owner != null && !taker.closed)
      && owner != taker && !OwnsWithin(w.Forest(), this, taker, MAX_LEVELS)
      && taker.container
      && (override < 1 ==> w.TakesWeight(taker, Heaviness()) && w.TakesBulk(taker, Bulkiness()))
      && !worn
    }

    /** The checks of `beGivenTo`, in its order. */
    method GiveChecks(taker: WorldObject, override: int, ghost w: World) returns (r: Outcome)
      requires w.Standing() && WellOwned(w.Forest()) && this in w.objs && taker in w.objs
      ensures (r == Handled <==> MayGive(taker, override, w)) && r != Crashed
      ensures r == MustOpen ==> override == 0 && taker.closed
      ensures r == Outcome.TooHeavy ==> override < 1 && !w.TakesWeight(taker, Heaviness())
      ensures r == Outcome.TooBulky ==>
              override < 1 && !w.TakesBulk(taker, Bulkiness()) && w.TakesWeight(taker, Heaviness())
      ensures r == MustRemove ==> worn
    {
      hide *;
      GivenIf(taker, override, w);
      if taker == this || (override == 0 && owner == null) {
        return Prohibited;
      }
      var direct := IsOwnedBy(taker, 1, w);
      if direct {
        return Prohibited;
      }
      var owning := taker.IsOwnedBy(this, MAX_LEVELS, w);
      if owning {
        return Prohibited;
      }
      if override == 0 && taker.closed {
        return MustOpen;
      }
      if !taker.container {
        return Prohibited;
      }
      if override < 1 && taker.TooHeavy(Heaviness(), w) {
        return Outcome.TooHeavy;
      }
      if override < 1 && taker.TooBulky(Bulkiness(), w) {
        return Outcome.TooBulky;
      }
      if worn {
        return MustRemove;
      }
      return Handled;
    }

    /** What the checks find out. */
    lemma GivenIf(taker: WorldObject, override: int, w: World)
      requires w.Standing() && WellOwned(w.Forest()) && this in w.objs && taker in w.objs
      ensures MayGive(taker, override, w) <==>
              && taker != this
              && (override == 0 ==> owner != null && !taker.closed)
              && !OwnsWithin(w.Forest(), taker, this, 1) && !OwnsWithin(w.Forest(), this, taker, MAX_LEVELS)
              && taker.container
              && (override < 1 ==> !taker.TooHeavy(Heaviness(), w) && !taker.TooBulky(Bulkiness(), w))
              && !worn
      ensures taker.TooHeavy(Heaviness(), w) <==> !w.TakesWeight(taker, Heaviness())
      ensures taker.TooBulky(Bulkiness(), w) <==> !w.TakesBulk(taker, Bulkiness())
    {
      hide World.Standing, WellOwned, World.Forest, OwnsWithin, WorldObject.TooHeavy, WorldObject.TooBulky,
          World.TakesWeight, World.TakesBulk;
      w.TooHeavyIff(taker, Heaviness());
      w.TooBulkyIff(taker, Bulkiness());
      OwnsWithinOne(w.Forest(), taker, this);
      w.ReadsForest();
      w.OwnerIs(this);
    }

    /** Picked up off the floor, if it lies there. */
    method PickUp(ghost w: World)
      requires Agrees(w.Floor()) && this in w.objs
      modifies w.objs`room, w.rooms`objects
      ensures w.Floor() == Gone(old(w.Floor()), this) && Agrees(w.Floor())
      ensures w.Floor().room == old(w.Floor()).room - {this}
    {
      hide *;
      w.ReadsFloor(this);
      GoneAgrees(w.Floor(), this);
      if room != null {
        w.Lists(this);
        DelIsMinus(room.objects, this);
        room.DelObject(this);
        w.PickedUp(this);
      }
    }

    /** From wherever it is, floor or owner, to `taker`. */
    method Pass(taker: WorldObject, ghost w: World)
      requires w.Valid() && this in w.objs && taker in w.objs && carry && taker.container
      requires this != taker && !Owns(w.Forest(), this, taker) && owner != taker
      modifies this`owner, w.objs`contents, w.objs`room, w.rooms`objects, w.objs`weight, w.objs`bulk, w`rank, w`bound
      ensures w.Valid() && w.Forest() == Moved(old(w.Forest()), this, taker) && w.Floor() == Gone(old(w.Floor()), this)
    {
      hide *;
      w.ValidIs();
      w.ReadsForest();
      ghost var f := w.Forest();
      var theWeight, theBulk := Heaviness(), Bulkiness();
      PickUp(w);
      MoveTo(taker, theWeight, theBulk, w);
      MovedOwners(f, this, taker);
      w.ReadsForest();
      w.IsValid();
    }

    /** The same, with what it means for the capacities: what did fit has fitted. */
    method PassWithin(taker: WorldObject, ghost w: World)
      requires w.Valid() && this in w.objs && taker in w.objs && carry && taker.container
      requires this != taker && !Owns(w.Forest(), this, taker) && owner != taker
      modifies this`owner, w.objs`contents, w.objs`room, w.rooms`objects, w.objs`weight, w.objs`bulk, w`rank, w`bound
      ensures w.Valid() && w.Forest() == Moved(old(w.Forest()), this, taker) && w.Floor() == Gone(old(w.Floor()), this)
      ensures owner == taker && taker.contents == old(taker.contents) + [this] && room == null
      ensures old(owner) != null ==> old(owner).contents == Minus(old(owner.contents), {this})
      ensures 0 <= old(Heaviness()) && old(w.WeightFits(taker, Heaviness())) ==> w.WeightFits(taker, 0)
      ensures 0 <= old(Bulkiness()) && old(w.BulkFits(taker, Bulkiness())) ==> w.BulkFits(taker, 0)
    {
      hide *;
      w.ValidIs();
      w.CanMove(this, taker);
      w.LoadIs(this);
      w.FitsIs(taker, Heaviness(), Bulkiness());
      ghost var f, fl, weights, bulks := w.Forest(), w.Floor(), w.Weights(), w.Bulks();
      w.BeforeMove(this, taker);
      Pass(taker, w);
      w.ValidIs();
      w.ReadsForest();
      w.ShowsMoved(f, this, taker);
      w.ShowsGone(fl, this);
      w.FitsIs(taker, 0, 0);
      w.CachedIs();
      ItStillFits(f, w.OwnWeights(), weights, w.Weights(), w.WeightLimits(), w.Boundless(), this, taker);
      ItStillFits(f, w.OwnBulks(), bulks, w.Bulks(), w.BulkLimits(), w.Boundless(), this, taker);
    }

    method BeGivenTo(taker: WorldObject?, override: int, ghost w: World) returns (r: Outcome)
      requires w.Valid() && this in w.objs && carry
      requires taker != null ==> taker in w.objs && Depth(w.Forest(), taker) <= MAX_LEVELS
      modifies this`owner, w.objs`contents, w.objs`room, w.rooms`objects, w.objs`weight, w.objs`bulk, w`rank, w`bound
      ensures w.Valid()
      ensures r == Handled <==>
              && taker != null && taker != this && taker.container && !worn
              && old(owner) != taker && !old(Owns(w.Forest(), this, taker))
              && (override == 0 ==> old(owner) != null && !taker.closed)
              && (override < 1 ==> old(w.TakesWeight(taker, Heaviness()) && w.TakesBulk(taker, Bulkiness())))
      ensures r != Crashed
      ensures r == Handled ==>
              w.Forest() == Moved(old(w.Forest()), this, taker) && w.Floor() == Gone(old(w.Floor()), this)
      ensures r == Handled ==> owner == taker && taker.contents == old(taker.contents) + [this] && room == null
      ensures r == Handled && old(owner) != null ==> old(owner).contents == Minus(old(owner.contents), {this})
      ensures r == Handled && override < 1 && 0 <= old(Heaviness()) ==> w.WeightFits(taker, 0)
      ensures r == Handled && override < 1 && 0 <= old(Bulkiness()) ==> w.BulkFits(taker, 0)
      ensures r != Handled ==> w.Forest() == old(w.Forest()) && w.Floor() == old(w.Floor())
      ensures r != Handled ==> w.Weights() == old(w.Weights()) && w.Bulks() == old(w.Bulks())
    {
      hide *;
      if taker == null {
        return Prohibited;
      }
      w.ValidIs();
      r := GiveChecks(taker, override, w);
      MayGiveIs(taker, override, w);
      if r == Handled {
        w.ReadsForest();
        if override < 1 {
          w.TooHeavyIff(taker, Heaviness());
          w.TooBulkyIff(taker, Bulkiness());
          w.NotTooHeavy(taker, Heaviness());
          w.NotTooBulky(taker, Bulkiness());
        }
        PassWithin(taker, w);
      }
    }

    lemma MayGiveIs(taker: WorldObject, override: int, w: World)
      requires w.Standing() && WellOwned(w.Forest()) && this in w.objs && taker in w.objs
      requires Depth(w.Forest(), taker) <= MAX_LEVELS
      ensures Chained(w.Forest()) && this in w.Forest().g.contents && taker in w.Forest().g.contents
      ensures MayGive(taker, override, w) <==>
              && taker != this && taker.container && !worn && owner != taker && !Owns(w.Forest(), this, taker)
              && (override == 0 ==> owner != null && !taker.closed)
              && (override < 1 ==> w.TakesWeight(taker, Heaviness()) && w.TakesBulk(taker, Bulkiness()))
    {
      hide World.Forest, World.Standing, WellOwned, Owns, OwnsWithin, World.TakesWeight, World.TakesBulk;
      w.ReadsForest();
      OwnsWithinIsOwns(w.Forest(), this, taker, MAX_LEVELS);
    }

    /** Everything that must hold for this to be taken by `taker`: its owner would give it, or it lies in a room. */
    ghost predicate MayTake(taker: WorldObject, consent: bool, w: World)
      requires w.Standing() && WellOwned(w.Forest()) && this in w.objs && taker in w.objs
      reads w, w.objs
    {
      if owner != null then consent && MayGive(taker, 0, w)
      else Takable(taker, w) && taker.container && taker != this
           && w.TakesWeight(taker, Heaviness()) && w.TakesBulk(taker, Bulkiness())
    }

    /** It lies in a room, and `taker` is not inside it. */
    ghost predicate Takable(taker: WorldObject, w: World)
      requires w.Standing() && WellOwned(w.Forest()) && this in w.objs && taker in w.objs
      reads w, w.objs
    {
      owner == null && room != null && !OwnsWithin(w.Forest(), this, taker, MAX_LEVELS)
    }

    /** What is not checked: the code follows a null pointer if `taker` is no container; it does not come back from
        working out the weight of what is inside itself; and once all is done it follows one if nobody plays `taker`. */
    ghost predicate Crashes(taker: WorldObject, w: World)
      requires w.Standing() && WellOwned(w.Forest()) && this in w.objs && taker in w.objs
      reads w, w.objs
    {
      Takable(taker, w) && (!taker.container
        || ((taker == this || !taker.played)
           && w.TakesWeight(taker, Heaviness()) && w.TakesBulk(taker, Bulkiness())))
    }

    /** An owner is asked to give it, and consents or not; from the floor, `taker` takes it itself. If all checks hold
        it is taken, even if the server crashes after. */
    method BeTakenBy(taker: WorldObject?, consent: bool, ghost w: World) returns (r: Outcome)
      requires w.Valid() && this in w.objs && carry
      requires taker != null ==> taker in w.objs && Depth(w.Forest(), taker) <= MAX_LEVELS
      modifies this`owner, w.objs`contents, w.objs`room, w.rooms`objects, w.objs`weight, w.objs`bulk, w`rank, w`bound
      ensures w.Valid()
      ensures r == Handled <==>
              && taker != null && taker != this && taker.container && !old(Owns(w.Forest(), this, taker))
              && old(w.TakesWeight(taker, Heaviness()) && w.TakesBulk(taker, Bulkiness()))
              && if old(owner) == null then old(room) != null && taker.played
                 else consent && old(owner) != taker && !taker.closed && !worn
      ensures r == Crashed <==>
              && taker != null && old(owner == null && room != null) && !old(Owns(w.Forest(), this, taker))
              && (!taker.container
                 || ((taker == this || !taker.played)
                    && old(w.TakesWeight(taker, Heaviness()) && w.TakesBulk(taker, Bulkiness()))))
      ensures taker != null && old(MayTake(taker, consent, w)) ==>
              w.Forest() == Moved(old(w.Forest()), this, taker) && w.Floor() == Gone(old(w.Floor()), this)
      ensures taker != null && old(MayTake(taker, consent, w)) ==>
              && owner == taker && taker.contents == old(taker.contents) + [this] && room == null
              && (old(owner) != null ==> old(owner).contents == Minus(old(owner.contents), {this}))
      ensures taker != null && old(MayTake(taker, consent, w)) && 0 <= old(Heaviness()) ==> w.WeightFits(taker, 0)
      ensures taker != null && old(MayTake(taker, consent, w)) && 0 <= old(Bulkiness()) ==> w.BulkFits(taker, 0)
      ensures taker == null || !old(MayTake(taker, consent, w)) ==>
              && w.Forest() == old(w.Forest()) && w.Floor() == old(w.Floor())
              && w.Weights() == old(w.Weights()) && w.Bulks() == old(w.Bulks())
    {
      hide *;
      if taker == null {
        return Prohibited;
      }
      w.ValidIs();
      MayTakeIs(taker, consent, w);
      var owned := IsOwnedBy(taker, 1, w);
      var owning := taker.IsOwnedBy(this, MAX_LEVELS, w);
      if owned || owning {
        return Prohibited;
      }
      if owner != null {
        if !consent {
          return Refused;
        }
        r := BeGivenTo(taker, 0, w);
        return;
      }
      if room == null {
        return Prohibited;
      }
      if !taker.container {
        return Crashed;
      }
      var theWeight, theBulk := Heaviness(), Bulkiness();
      w.TooHeavyIff(taker, theWeight);
      w.TooBulkyIff(taker, theBulk);
      if taker.TooHeavy(theWeight, w) {
        return Outcome.TooHeavy;
      }
      if taker.TooBulky(theBulk, w) {
        return Outcome.TooBulky;
      }
      if taker == this {
        return Crashed;
      }
      w.NotTooHeavy(taker, theWeight);
      w.NotTooBulky(taker, theBulk);
      PassWithin(taker, w);
      r := if taker.played then Handled else Crashed;
    }

    lemma MayTakeIs(taker: WorldObject, consent: bool, w: World)
      requires w.Standing() && WellOwned(w.Forest()) && this in w.objs && taker in w.objs
      requires Depth(w.Forest(), taker) <= MAX_LEVELS
      ensures this in w.Forest().g.contents && taker in w.Forest().g.contents && w.Forest().owner == w.Owners()
      ensures OwnsWithin(w.Forest(), this, taker, MAX_LEVELS) <==> Owns(w.Forest(), this, taker)
      ensures OwnsWithin(w.Forest(), taker, this, 1) <==> owner == taker
      ensures owner != null ==>
                (MayTake(taker, consent, w) <==>
                  && consent && taker != this && taker.container && !worn && owner != taker && !taker.closed
                  && !Owns(w.Forest(), this, taker)
                  && w.TakesWeight(taker, Heaviness()) && w.TakesBulk(taker, Bulkiness()))
      ensures MayTake(taker, consent, w) ==> !OwnsWithin(w.Forest(), this, taker, MAX_LEVELS) && owner != taker
      ensures Takable(taker, w) <==> owner == null && room != null && !OwnsWithin(w.Forest(), this, taker, MAX_LEVELS)
      ensures owner == null ==>
                (MayTake(taker, consent, w) <==>
                  Takable(taker, w) && taker.container && taker != this
                  && w.TakesWeight(taker, Heaviness()) && w.TakesBulk(taker, Bulkiness()))
      ensures Crashes(taker, w) <==>
                Takable(taker, w) && (!taker.container
                  || ((taker == this || !taker.played)
                     && w.TakesWeight(taker, Heaviness()) && w.TakesBulk(taker, Bulkiness())))
    {
      hide World.Forest, World.Standing, WellOwned, Owns, OwnsWithin, World.TakesWeight, World.TakesBulk;
      w.ReadsForest();
      w.OwnerIs(this);
      OwnsWithinIsOwns(w.Forest(), this, taker, MAX_LEVELS);
      OwnsWithinOne(w.Forest(), taker, this);
      MayGiveIs(taker, 0, w);
    }

    method GetRoom(ghost w: World) returns (r: Room?)
      requires w.Standing() && Agrees(w.Floor()) && this in w.objs
      ensures r == w.RoomAbove(this) == Root(w.Forest(), this).room && (r != null ==> r in w.rooms)
    {
      hide *;
      var base := GetBaseOwner(w);
      w.RoomAboveIs(this);
      r := base.room;
      if r != null {
        w.RoomOf(base);
      }
    }

    /** Out of the owner's contents; the caches follow, and then the owner is forgotten. */
    method Let(load: int, ghost w: World)
      requires w.Standing() && w.Ranked() && WellOwned(w.Forest()) && w.Cached() && this in w.objs && owner != null
      modifies this`owner, owner`contents, w.objs`weight, w.objs`bulk
      ensures w.Forest() == Dropped(old(w.Forest()), this) && owner == null
      ensures w.Standing() && w.Ranked() && WellOwned(w.Forest()) && w.Cached()
    {
      hide *;
      ghost var f := w.Forest();
      w.ReadsForest();
      w.OwnerIs(this);
      w.Reads(owner);
      DroppedRoot(f, this);
      DroppedIs(f, this);
      TakeFrom(owner, load, Dropped(f, this), w);
      label Letting:
      owner := null;
      w.Forgotten@Letting(this);
    }

    /** Lets go of it here: in `where`, or nowhere. */
    method DropAt(where: Room?, ghost w: World)
      requires w.Valid() && this in w.objs && owner != null && (where != null ==> where in w.rooms)
      modifies this`owner, w.objs`contents, w.objs`room, w.rooms`objects, w.objs`weight, w.objs`bulk
      ensures w.Valid() && w.Forest() == Dropped(old(w.Forest()), this) && owner == null && room == where
      ensures w.Floor() == w.WithLaid(old(w.Floor()), this, where)
      ensures old(owner).contents == Minus(old(owner.contents), {this})
      ensures where != null ==> where in old(w.Objects()) && where.objects == old(w.Objects())[where] + [this]
    {
      hide *;
      w.ValidIs();
      w.ReadsForest();
      w.OwnerIs(this);
      w.BeforeDrop(this);
      w.ReadsFloor(this);
      ghost var f, fl := w.Forest(), w.Floor();
      Let(-Bulkiness(), w);
      DroppedOwners(f, this);
      w.ReadsForest();
      w.WithLaidIs(fl, this, where);
      if where != null {
        LayDown(where, w);
        w.ShowsLaid(fl, this, where);
      }
      w.IsValid();
      w.ShowsDropped(f, this);
    }

    /** The object is lost exactly when whoever drops it stands in no room: it then has neither owner nor room. */
    method BeDroppedBy(dropper: WorldObject?, override: bool, ghost w: World) returns (r: Outcome)
      requires w.Valid() && this in w.objs && (dropper != null ==> dropper in w.objs) && (override ==> owner != null)
      modifies this`owner, w.objs`contents, w.objs`room, w.rooms`objects, w.objs`weight, w.objs`bulk
      ensures w.Valid()
      ensures r == Handled <==> dropper != null && (override || (old(owner) == dropper && !worn && !wielded))
      ensures r == MustRemove <==> dropper != null && !override && old(owner) == dropper && (worn || wielded)
      ensures r == Handled ==> w.Forest() == Dropped(old(w.Forest()), this) && owner == null
      ensures r == Handled ==> room == old(Root(w.Forest(), dropper).room)
      ensures r == Handled ==> w.Floor() == w.WithLaid(old(w.Floor()), this, room)
      ensures r == Handled ==> old(owner) != null && old(owner).contents == Minus(old(owner.contents), {this})
      ensures r == Handled && room != null ==>
              room in old(w.Objects()) && room.objects == old(w.Objects())[room] + [this]
      ensures r != Handled ==> w.Forest() == old(w.Forest()) && w.Floor() == old(w.Floor())
      ensures r != Handled ==> w.Weights() == old(w.Weights()) && w.Bulks() == old(w.Bulks())
    {
      hide *;
      if dropper == null {
        return Prohibited;
      }
      w.ValidIs();
      w.RoomAboveIs(dropper);
      var where := dropper.GetRoom(w);
      if !override {
        w.ReadsForest();
        w.OwnerIs(this);
        var owned := IsOwnedBy(dropper, 1, w);
        OwnsWithinOne(w.Forest(), dropper, this);
        if !owned {
          return Prohibited;
        }
        if worn || wielded {
          return MustRemove;
        }
      }
      DropAt(where, w);
      r := Handled;
    }

    method LayDown(where: Room, ghost w: World)
      requires Agrees(w.Floor()) && this in w.objs && where in w.rooms && room == null
      modifies this`room, where`objects
      ensures w.Floor() == Laid(old(w.Floor()), this, where) && Agrees(w.Floor()) && room == where
      ensures w.Floor().room.Keys == old(w.Floor()).room.Keys + {this}
    {
      hide *;
      w.ReadsFloor(this);
      w.NotListed(this, where);
      LaidAgrees(w.Floor(), this, where);
      where.AddObject(this);
      w.LaidDown(this, where);
    }
  }

  /** What things weigh together. */
  ghost function Weighed(things: seq<WorldObject>): int
    reads things
  {
    if things == [] then 0 else
      var last := things[|things| - 1];
      Weighed(things[..|things| - 1]) + if last.container then last.weight else last.ownWeight
  }

  ghost function Bulked(things: seq<WorldObject>): int
    reads things
  {
    if things == [] then 0 else
      var last := things[|things| - 1];
      Bulked(things[..|things| - 1]) + if last.container then last.bulk else last.ownBulk
  }

  class World {
    ghost var objs: set<WorldObject>
    ghost var rooms: set<Room>
    ghost var rank: map<WorldObject, nat>
    ghost var bound: nat

    constructor ()
      ensures Valid() && objs == {} && rooms == {}
    {
      objs, rooms, rank, bound := {}, {}, map[], 0;
    }

    /** Another room, with nothing in it. */
    method AddRoom(r: Room)
      requires Valid() && r !in rooms && r.objects == []
      modifies this`rooms
      ensures Valid() && rooms == old(rooms) + {r} && objs == old(objs) && Forest() == old(Forest())
      ensures Floor() == Floors.Floor(old(Floor()).objects[r := []], old(Floor()).room)
    {
      hide Standing, Ranked, WellOwned, Cached, Agrees;
      assert r !in Floor().objects;
      OpenedAgrees(Floor(), r);
      rooms := rooms + {r};
      assert Objects() == old(Objects())[r := []] && Lying() == old(Lying());
    }

    /** Another object, which is nowhere; its caches are worked out, as `calcWeight` does. */
    method Admit(o: WorldObject)
      requires Valid() && o !in objs && o.owner == null && o.contents == [] && o.room == null
      modifies this`objs, this`rank, this`bound, objs`weight, objs`bulk, o`weight, o`bulk
      ensures Valid() && objs == old(objs) + {o} && rooms == old(rooms) && Floor() == old(Floor())
      ensures Forest() == old(Forest()).(g := WithNew(old(Graph()), o, o.container), bound := old(bound) + 1)
    {
      hide *;
      ValidIs();
      ReadsForest();
      CachedIs();
      ghost var g, own, bulks, w, b := Graph(), OwnWeights(), OwnBulks(), Weights(), Bulks();
      Include(o);
      ghost var own', bulks' := OwnWeights(), OwnBulks();
      IncludedIn(o);
      if o.container {
        var weight := o.CalculateWeight(this);
        var bulk := o.CalculateBulk(this);
        NewRecalculated(g, own, w, o, own'[o], old(o.weight), Weights());
        NewRecalculated(g, bulks, b, o, bulks'[o], old(o.bulk), Bulks());
      } else {
        NewExact(g, own, w, o, false, own'[o], o.weight);
        NewExact(g, bulks, b, o, false, bulks'[o], o.bulk);
      }
      CachedIs();
      IsValid();
    }

    ghost method Include(o: WorldObject)
      requires Valid() && o !in objs && o.owner == null && o.contents == [] && o.room == null
      modifies this`objs, this`rank, this`bound
      ensures objs == old(objs) + {o} && rooms == old(rooms) && Floor() == old(Floor()) && Owners() == old(Owners())
      ensures Standing() && Ranked() && WellOwned(Forest())
      ensures o !in old(Graph()).contents && o !in old(Graph()).boxes
      ensures Graph() == WithNew(old(Graph()), o, o.container)
      ensures Forest() == old(Forest()).(g := Graph(), bound := old(bound) + 1)
      ensures OwnWeights() == old(OwnWeights())[o := OwnWeights()[o]]
      ensures OwnBulks() == old(OwnBulks())[o := OwnBulks()[o]]
      ensures Weights() == old(Weights())[o := o.weight] && Bulks() == old(Bulks())[o := o.bulk]
    {
      hide *;
      ValidIs();
      ReadsForest();
      ghost var f := Forest();
      objs, rank, bound := objs + {o}, rank[o := 0], bound + 1;
      IncludedOwners(o);
      IncludedLoads(o);
      IncludedKinds(o);
      IncludedForest(f, o);
    }

    lemma IncludedIn(o: WorldObject)
      requires o in objs
      ensures o in OwnWeights() && o in OwnBulks()
    {
    }

    lemma IncludedForest(f: Forest<WorldObject>, o: WorldObject)
      requires WellOwned(f) && o !in f.g.contents && o in objs
      requires Contents() == f.g.contents[o := []] && Boxes() == (if o.container then f.g.boxes + {o} else f.g.boxes)
      requires rank == f.g.rank[o := 0] && bound == f.bound + 1 && Owners() == f.owner
      requires forall p <- objs :: (p.owner != null ==> p.carry) && (!p.container ==> p.contents == [])
      ensures Graph() == WithNew(f.g, o, o.container) && Forest() == f.(g := Graph(), bound := bound)
      ensures Standing() && Ranked() && WellOwned(Forest())
    {
      hide WellOwned, Chained, Containment.Ranked, World.Contents, World.Owners, World.Boxes;
      NewWellOwned(f, o, o.container);
      var h := f.(g := WithNew(f.g, o, o.container), bound := f.bound + 1);
      assert Forest() == h;
    }

    twostate lemma IncludedOwners(new o: WorldObject)
      requires o !in old(objs) && o.owner == null && o.contents == [] && o.room == null
      requires objs == old(objs) + {o} && rooms == old(rooms)
      requires forall p <- old(objs) ::
              p.owner == old(p.owner) && p.contents == old(p.contents) && p.room == old(p.room)
      requires forall r <- rooms :: r.objects == old(r.objects)
      ensures Contents() == old(Contents())[o := []] && Owners() == old(Owners()) && Floor() == old(Floor())
      ensures Boxes() == (if o.container then old(Boxes()) + {o} else old(Boxes())) && o !in old(Boxes())
    {
      assert Lying() == old(Lying()) && Objects() == old(Objects());
    }

    twostate lemma IncludedLoads(new o: WorldObject)
      requires o !in old(objs) && objs == old(objs) + {o}
      requires forall p <- old(objs) :: p.weight == old(p.weight) && p.bulk == old(p.bulk)
      ensures o in OwnWeights() && OwnWeights() == old(OwnWeights())[o := OwnWeights()[o]]
      ensures o in OwnBulks() && OwnBulks() == old(OwnBulks())[o := OwnBulks()[o]]
      ensures Weights() == old(Weights())[o := o.weight] && Bulks() == old(Bulks())[o := o.bulk]
    {
    }

    twostate lemma IncludedKinds(new o: WorldObject)
      requires old(Standing()) && old(Ranked()) && o.owner == null && o.contents == [] && objs == old(objs) + {o}
      requires forall p <- old(objs) :: p.owner == old(p.owner) && p.contents == old(p.contents)
      ensures forall p <- objs :: (p.owner != null ==> p.carry) && (!p.container ==> p.contents == [])
    {
      hide Chained, Containment.Ranked, World.Forest, World.Graph;
    }

    ghost function Graph(): Graph<WorldObject>
      reads this`objs, this`rank, objs`contents
    {
      Containment.Graph(Contents(), Boxes(), rank)
    }

    ghost function Contents(): map<WorldObject, seq<WorldObject>>
      reads this`objs, objs`contents
    {
      map o | o in objs :: o.contents
    }

    ghost function Boxes(): set<WorldObject>
      reads this`objs
    {
      set o | o in objs && o.container
    }

    ghost function OwnWeights(): map<WorldObject, int>
      reads this`objs
    {
      map o | o in objs :: if o.carry then o.ownWeight else 0
    }

    ghost function OwnBulks(): map<WorldObject, int>
      reads this`objs
    {
      map o | o in objs :: if o.carry then o.ownBulk else 0
    }

    ghost function Weights(): map<WorldObject, int>
      reads this`objs, objs`weight
    {
      map o | o in objs :: o.weight
    }

    ghost function Bulks(): map<WorldObject, int>
      reads this`objs, objs`bulk
    {
      map o | o in objs :: o.bulk
    }

    ghost function Owners(): map<WorldObject, WorldObject>
      reads this`objs, objs`owner
    {
      map o | o in objs && o.owner != null :: o.owner
    }

    ghost function Forest(): Forest<WorldObject>
      reads this`objs, this`rank, this`bound, objs`contents, objs`owner
    {
      Containment.Forest(Graph(), Owners(), bound)
    }

    /** What the snapshots say of one object. */
    lemma Reads(o: WorldObject)
      requires Ranked() && o in objs
      ensures Containment.Ranked(Graph()) && Graph().rank == rank && o in rank && Graph().contents.Keys == objs
      ensures Graph().contents[o] == o.contents && (o in Graph().boxes <==> o.container)
      ensures forall c <- o.contents :: c in objs && rank[c] < rank[o]
    {
    }

    lemma ReadsWeight(o: WorldObject)
      requires o in objs
      ensures OwnWeights().Keys == Weights().Keys == objs
      ensures OwnWeights()[o] == (if o.carry then o.ownWeight else 0) && Weights()[o] == o.weight
    {
    }

    lemma ReadsBulk(o: WorldObject)
      requires o in objs
      ensures OwnBulks().Keys == Bulks().Keys == objs
      ensures OwnBulks()[o] == (if o.carry then o.ownBulk else 0) && Bulks()[o] == o.bulk
    {
    }

    lemma Plain(o: WorldObject)
      requires Ranked() && o in objs && !o.container
      ensures o.contents == []
    {
    }

    twostate lemma WeightWritten(o: WorldObject)
      requires objs == old(objs) && o in objs && forall p <- objs :: p != o ==> p.weight == old(p.weight)
      ensures Weights() == old(Weights())[o := o.weight]
    {
    }

    twostate lemma BulkWritten(o: WorldObject)
      requires objs == old(objs) && o in objs && forall p <- objs :: p != o ==> p.bulk == old(p.bulk)
      ensures Bulks() == old(Bulks())[o := o.bulk]
    {
    }

    lemma ReadsOwner(o: WorldObject)
      requires Standing() && o in objs
      ensures Chained(Forest()) && Forest().g.contents.Keys == Forest().g.rank.Keys == objs
      ensures Forest().owner == Owners()
      ensures o in Owners() <==> o.GetOwner() != o
      ensures o in Owners() ==> Owners()[o] == o.GetOwner()
      ensures o.GetOwner() in objs
      ensures o in Owners() ==> rank[o] < rank[Owners()[o]] < bound
      ensures Forest().g.rank == rank && Forest().bound == bound
    {
    }

    ghost function Rank(o: WorldObject): (r: nat)
      requires Standing() && o in objs
      reads this`objs, this`rank, this`bound, objs`contents, objs`owner
      ensures r < bound
    {
      rank[o]
    }

    lemma OwnerIn(o: WorldObject)
      requires Standing() && o in objs
      ensures o.GetOwner() in objs && (o.GetOwner() != o ==> Rank(o) < Rank(o.GetOwner()))
    {
      assert o in Forest().g.contents;
      if o.owner != null {
        assert o in Forest().owner;
      }
    }

    lemma OwnerIs(o: WorldObject)
      requires Standing() && o in objs
      ensures if o.owner == null then o !in Owners() else o in Owners() && Owners()[o] == o.owner && o.owner in objs
    {
      assert o.owner != null ==> o in Forest().owner;
    }

    lemma ReadsForest()
      requires Standing()
      ensures Chained(Forest()) && Forest().g == Graph() && Forest().owner == Owners() && Forest().bound == bound
      ensures Graph().contents == Contents() && Graph().boxes == Boxes() && Graph().rank == rank
      ensures Contents().Keys == objs
    {
    }

    twostate lemma Entered(new s: WorldObject, y: WorldObject)
      requires objs == old(objs) && s in objs && y in objs && s.carry && y.container
      requires old(Standing()) && old(Ranked()) && Chained(Given(old(Forest()), s, y))
      requires s.owner == y && y.contents == old(y.contents) + [s]
      requires forall o <- objs :: (o != s ==> o.owner == old(o.owner)) && (o != y ==> o.contents == old(o.contents))
      requires rank == Given(old(Forest()), s, y).g.rank && bound == Given(old(Forest()), s, y).bound
      ensures Forest() == Given(old(Forest()), s, y) && Standing() && Ranked()
    {
      hide Lifted;
      assert Contents() == old(Contents())[y := old(y.contents) + [s]];
      assert Owners() == old(Owners())[s := y];
    }

    twostate lemma LeftIt(new s: WorldObject, p: WorldObject)
      requires objs == old(objs) && rank == old(rank) && bound == old(bound) && p in objs
      requires old(Standing()) && old(Ranked()) && Chained(LeftBehind(old(Forest()), s, p))
      requires p.contents == Minus(old(p.contents), {s})
      requires forall o <- objs :: o.owner == old(o.owner) && (o != p ==> o.contents == old(o.contents))
      ensures Forest() == LeftBehind(old(Forest()), s, p) && Standing() && Ranked()
    {
      hide Chained;
      assert Contents() == old(Contents())[p := Minus(old(p.contents), {s})];
      assert Owners() == old(Owners());
    }

    /** Both caches are what they should be. */
    ghost predicate Cached()
      reads this`objs, this`rank, objs`contents, objs`weight, objs`bulk
    {
      Exact(Graph(), OwnWeights(), Weights()) && Exact(Graph(), OwnBulks(), Bulks())
    }

    lemma CachedIs()
      ensures Cached() <==> Exact(Graph(), OwnWeights(), Weights()) && Exact(Graph(), OwnBulks(), Bulks())
    {
    }

    /** When the base owner is a container, its cache is the one worked out. */
    lemma WorkedRoot(o: WorldObject)
      requires Standing() && o in objs && Root(Forest(), o) in Boxes()
      ensures Worked(o) == Root(Forest(), o) && Root(Forest(), o).container
    {
    }

    /** What every move keeps: a forest, each object once in its owner's contents or in its room's list
        and not in both, and exact caches. */
    ghost predicate Valid()
      reads this, objs`contents, objs`owner, objs`weight, objs`bulk, objs`room, rooms`objects
    {
      && Standing() && Ranked() && WellOwned(Forest()) && Cached()
      && Agrees(Floor()) && Owners().Keys !! Floor().room.Keys
    }

    lemma ValidIs()
      requires Valid()
      ensures Standing() && Ranked() && WellOwned(Forest()) && Cached()
      ensures Agrees(Floor()) && Owners().Keys !! Floor().room.Keys
    {
    }

    ghost function Floor(): Floor<Room, WorldObject>
      reads this`objs, this`rooms, objs`room, rooms`objects
    {
      Floors.Floor(Objects(), Lying())
    }

    lemma IsValid()
      requires Standing() && Ranked() && WellOwned(Forest()) && Cached()
      requires Agrees(Floor()) && Owners().Keys !! Floor().room.Keys
      ensures Valid()
    {
    }

    lemma RoomOf(o: WorldObject)
      requires Agrees(Floor()) && o in objs && o.room != null
      ensures o.room in rooms
    {
      assert Lies(Floor(), o);
    }

    lemma NotListed(o: WorldObject, r: Room)
      requires Agrees(Floor()) && o in objs && r in rooms && o.room == null
      ensures o !in r.objects && r in Floor().objects && o !in Floor().room
    {
      assert Listed(Floor(), r);
    }

    twostate lemma Forgotten(o: WorldObject)
      requires objs == old(objs) && rank == old(rank) && bound == old(bound) && o in objs && old(o.owner) != null
      requires old(Standing()) && o.owner == null && Graph() == old(Graph())
      requires forall p <- objs :: p != o ==> p.owner == old(p.owner)
      ensures Forest() == old(Forest()).(owner := old(Forest()).owner - {o}) && Standing()
    {
      assert Owners() == old(Owners()) - {o};
    }

    twostate lemma LaidDown(new o: WorldObject, r: Room)
      requires objs == old(objs) && rooms == old(rooms) && o in objs && r in rooms && o !in old(Floor()).room
      requires o.room == r
      requires r.objects == old(r.objects) + [o]
      requires forall q <- rooms :: q != r ==> q.objects == old(q.objects)
      requires forall p <- objs :: p != o ==> p.room == old(p.room)
      ensures r in old(Floor()).objects
      ensures Floor() == Laid(old(Floor()), o, r) && Floor().room.Keys == old(Floor()).room.Keys + {o}
    {
      assert Lying() == old(Lying())[o := r];
      assert Objects() == old(Objects())[r := old(r.objects) + [o]];
    }

    /** Where the base owner of `o` lies. */
    ghost function RoomAbove(o: WorldObject): Room?
      requires Standing() && o in objs
      reads this`objs, this`rank, this`bound, objs`contents, objs`owner, objs`room
    {
      Root(Forest(), o).room
    }

    lemma RoomAboveIs(o: WorldObject)
      requires Standing() && o in objs
      ensures Chained(Forest()) && o in Forest().g.contents && RoomAbove(o) == Root(Forest(), o).room
    {
    }

    ghost function WithLaid(fl: Floor<Room, WorldObject>, o: WorldObject, r: Room?): Floor<Room, WorldObject> {
      if r != null && r in fl.objects then Laid(fl, o, r) else fl
    }

    lemma WithLaidIs(fl: Floor<Room, WorldObject>, o: WorldObject, r: Room?)
      requires fl == Floor() && (r != null ==> r in rooms)
      ensures WithLaid(fl, o, r) == (if r == null then fl else Laid(fl, o, r)) && (r != null ==> r in fl.objects)
    {
    }

    // ---- capacities

    ghost function WeightLimits(): map<WorldObject, int>
      reads this`objs
    {
      map o | o in objs :: o.weightCapacity
    }

    ghost function BulkLimits(): map<WorldObject, int>
      reads this`objs
    {
      map o | o in objs :: o.bulkCapacity
    }

    /** Where both checks stop. */
    ghost function Boundless(): set<WorldObject>
      reads this`objs
    {
      set o | o in objs && o.bulkCapacity == 0
    }

    /** `v` more weight would be within the capacity of `o` and of all above it, up to the first that is boundless. */
    ghost predicate WeightFits(o: WorldObject, v: int)
      requires Standing() && o in objs
      reads this`objs, this`rank, this`bound, objs`contents, objs`owner, objs`weight
    {
      Fits(Forest(), Weights(), WeightLimits(), Boundless(), o, v)
    }

    ghost predicate BulkFits(o: WorldObject, v: int)
      requires Standing() && o in objs
      reads this`objs, this`rank, this`bound, objs`contents, objs`owner, objs`bulk
    {
      Fits(Forest(), Bulks(), BulkLimits(), Boundless(), o, v)
    }

    lemma FitsIs(o: WorldObject, v: int, b: int)
      requires Standing() && o in objs
      ensures Chained(Forest()) && Weights().Keys == WeightLimits().Keys == Bulks().Keys == BulkLimits().Keys == objs
      ensures Forest().g.contents.Keys == objs
      ensures WeightFits(o, v) == Fits(Forest(), Weights(), WeightLimits(), Boundless(), o, v)
      ensures BulkFits(o, b) == Fits(Forest(), Bulks(), BulkLimits(), Boundless(), o, b)
    {
    }

    lemma CanMove(s: WorldObject, y: WorldObject)
      requires Valid() && s in objs && y in objs && y.container
      requires s != y && !Owns(Forest(), s, y) && s.owner != y
      ensures Movable(Forest(), s, y)
      ensures Exact(Forest().g, OwnWeights(), Weights()) && Exact(Forest().g, OwnBulks(), Bulks())
    {
      hide Chained, Containment.Ranked, Exact, Holds, Held, Owns, World.Contents, World.OwnWeights, World.Weights,
          World.OwnBulks, World.Bulks;
      OwnerIs(s);
      ReadsForest();
    }

    /** With exact caches, what the checks ask about is the load. */
    lemma LoadIs(o: WorldObject)
      requires Standing() && Cached() && o in objs && o.carry
      ensures Containment.Ranked(Forest().g) && OwnWeights().Keys == OwnBulks().Keys == Forest().g.contents.Keys == objs
      ensures o.Heaviness() == Load(Forest().g, OwnWeights(), o) && o.Bulkiness() == Load(Forest().g, OwnBulks(), o)
    {
    }

    /** What is not too heavy is within the capacities. */
    lemma {:induction false} NotTooHeavy(o: WorldObject, v: int)
      requires Standing() && WellOwned(Forest()) && o in objs
      requires !o.TooHeavy(v, this)
      ensures WeightFits(o, v)
      decreases bound - Rank(o)
    {
      hide WellOwned, Chained;
      ReadsForest();
      OwnerIn(o);
      OwnerIs(o);
      ReadsOwner(o);
      if o !in Boundless() && o.owner != null {
        NotTooHeavy(o.owner, v);
      }
    }

    lemma {:induction false} NotTooBulky(o: WorldObject, v: int)
      requires Standing() && WellOwned(Forest()) && o in objs
      requires !o.TooBulky(v, this)
      ensures BulkFits(o, v)
      decreases bound - Rank(o)
    {
      hide WellOwned, Chained;
      ReadsForest();
      OwnerIn(o);
      OwnerIs(o);
      ReadsOwner(o);
      if o !in Boundless() && o.owner != null {
        NotTooBulky(o.owner, v);
      }
    }

    /** With exact caches: a container weighs what it weighs itself and what is in it, and so on down. */
    lemma WeightIs(o: WorldObject)
      requires Valid() && o in objs && o.container
      ensures o.weight == (if o.carry then o.ownWeight else 0) + Weighed(o.contents)
    {
      hide Chained, WellOwned, Agrees;
      Reads(o);
      ReadsWeight(o);
      assert o.contents[..|o.contents|] == o.contents;
      LoadsWeighed(o, |o.contents|);
    }

    lemma BulkIs(o: WorldObject)
      requires Valid() && o in objs && o.container
      ensures o.bulk == (if o.carry then o.ownBulk else 0) + Bulked(o.contents)
    {
      hide Chained, WellOwned, Agrees;
      Reads(o);
      ReadsBulk(o);
      assert o.contents[..|o.contents|] == o.contents;
      LoadsBulked(o, |o.contents|);
    }

    lemma IsCarried(o: WorldObject, c: WorldObject)
      requires Standing() && WellOwned(Forest()) && o in objs && c in o.contents
      ensures c in objs && c.owner == o && c.carry
    {
      assert Forest().g.contents[o] == o.contents;
      assert Holds(Forest(), o);
    }

    lemma {:induction false} LoadsWeighed(o: WorldObject, n: nat)
      requires Standing() && Ranked() && WellOwned(Forest()) && Cached() && o in objs && n <= |o.contents|
      ensures Containment.Ranked(Graph()) && OwnWeights().Keys == Graph().contents.Keys
      ensures forall c <- o.contents[..n] :: c in Graph().contents && Graph().rank[c] < Graph().rank[o]
      ensures Loads(Graph(), OwnWeights(), o.contents[..n], Graph().rank[o]) == Weighed(o.contents[..n])
    {
      hide Chained, Total, Loads, WellOwned;
      Reads(o);
      ReadsWeight(o);
      if n == 0 {
        LoadsNone(Graph(), OwnWeights(), Graph().rank[o]);
      } else {
        var c := o.contents[n - 1];
        LoadsWeighed(o, n - 1);
        assert o.contents[..n] == o.contents[..n - 1] + [c];
        LoadsStep(Graph(), OwnWeights(), o.contents[..n - 1], c, Graph().rank[o]);
        ReadsWeight(c);
        IsCarried(o, c);
      }
    }

    lemma {:induction false} LoadsBulked(o: WorldObject, n: nat)
      requires Standing() && Ranked() && WellOwned(Forest()) && Cached() && o in objs && n <= |o.contents|
      ensures Containment.Ranked(Graph()) && OwnBulks().Keys == Graph().contents.Keys
      ensures forall c <- o.contents[..n] :: c in Graph().contents && Graph().rank[c] < Graph().rank[o]
      ensures Loads(Graph(), OwnBulks(), o.contents[..n], Graph().rank[o]) == Bulked(o.contents[..n])
    {
      hide Chained, Total, Loads, WellOwned;
      Reads(o);
      ReadsBulk(o);
      if n == 0 {
        LoadsNone(Graph(), OwnBulks(), Graph().rank[o]);
      } else {
        var c := o.contents[n - 1];
        LoadsBulked(o, n - 1);
        assert o.contents[..n] == o.contents[..n - 1] + [c];
        LoadsStep(Graph(), OwnBulks(), o.contents[..n - 1], c, Graph().rank[o]);
        ReadsBulk(c);
        IsCarried(o, c);
      }
    }

    /** What a move makes of the fields: the thing is the last in the contents of its new owner and gone from those of
        the old one, and nothing else has another owner or other contents. */
    lemma ShowsMoved(f: Forest<WorldObject>, s: WorldObject, y: WorldObject)
      requires Standing() && s in objs && y in objs && Chained(f) && s in f.g.contents && y in f.g.contents
      requires Forest() == Moved(f, s, y) && f.owner.Keys <= objs
      requires s in f.owner ==> f.owner[s] in f.g.contents && f.owner[s] in objs && f.owner[s] != y
      ensures s.owner == y && y.contents == f.g.contents[y] + [s]
      ensures s in f.owner ==> f.owner[s].contents == Minus(f.g.contents[f.owner[s]], {s})
    {
      hide Chained, Minus;
      OwnerIs(s);
      assert Forest().g.contents[y] == y.contents;
      if s in f.owner {
        assert Forest().g.contents[f.owner[s]] == f.owner[s].contents;
      }
    }

    lemma BeforeMove(s: WorldObject, y: WorldObject)
      requires Standing() && s in objs && y in objs && s.owner != y
      ensures Chained(Forest()) && s in Forest().g.contents && y in Forest().g.contents && Forest().owner.Keys <= objs
      ensures Forest().g.contents[y] == y.contents && (s in Forest().owner <==> s.owner != null)
      ensures s.owner != null ==>
              s.owner in objs && Forest().owner[s] == s.owner && Forest().g.contents[s.owner] == s.owner.contents
    {
      OwnerIs(s);
    }

    lemma BeforeDrop(s: WorldObject)
      requires Standing() && s in objs && s.owner != null
      ensures s in Forest().owner && Forest().owner[s] == s.owner && s.owner in objs
      ensures s.owner in Forest().g.contents && Forest().g.contents[s.owner] == s.owner.contents
      ensures Floor().objects == Objects()
    {
      OwnerIs(s);
    }

    lemma ShowsDropped(f: Forest<WorldObject>, s: WorldObject)
      requires s in f.owner && f.owner[s] in f.g.contents && f.owner[s] in objs && Forest() == Dropped(f, s)
      ensures f.owner[s].contents == Minus(f.g.contents[f.owner[s]], {s})
    {
      hide Minus;
      assert Forest().g.contents[f.owner[s]] == f.owner[s].contents;
    }

    lemma ShowsLaid(fl: Floor<Room, WorldObject>, s: WorldObject, r: Room)
      requires r in rooms && r in fl.objects && Floor() == Laid(fl, s, r)
      ensures r.objects == fl.objects[r] + [s]
    {
      assert Floor().objects[r] == r.objects;
    }

    lemma ShowsGone(fl: Floor<Room, WorldObject>, s: WorldObject)
      requires Agrees(fl) && s in objs && Floor() == Gone(fl, s)
      ensures s.room == null
    {
      assert s !in Floor().room by {
        assert s in fl.room ==> Lies(fl, s);
      }
      ReadsFloor(s);
    }

    /** The containers that the checks look at: from `o` on up, to the first without a bulk capacity. */
    ghost predicate Asked(x: WorldObject, o: WorldObject)
      requires Standing() && o in objs
      reads this`objs, this`rank, this`bound, objs`contents, objs`owner
    {
      OnTheWay(Forest(), Boundless(), x, o)
    }

    /** There is room for `v` more weight: nothing on the way would be above its capacity, and if that has no bulk
        capacity it is empty. */
    ghost predicate TakesWeight(o: WorldObject, v: int)
      requires Standing() && o in objs
      reads this`objs, this`rank, this`bound, objs`contents, objs`owner, objs`weight
    {
      forall x <- objs :: Asked(x, o) ==>
        if x.bulkCapacity == 0 then x.contents == [] else x.weight + v <= x.weightCapacity
    }

    /** Likewise for bulk; what has no weight capacity must be empty. */
    ghost predicate TakesBulk(o: WorldObject, v: int)
      requires Standing() && o in objs
      reads this`objs, this`rank, this`bound, objs`contents, objs`owner, objs`bulk
    {
      forall x <- objs :: Asked(x, o) ==>
        && (x.weightCapacity == 0 ==> x.contents == [])
        && (x.bulkCapacity == 0 || x.bulk + v <= x.bulkCapacity)
    }

    lemma AskedUp(o: WorldObject, x: WorldObject)
      requires Standing() && o in objs
      ensures o.owner != null ==> o.owner in objs
      ensures Asked(x, o) <==> x == o || (o.bulkCapacity != 0 && o.owner != null && Asked(x, o.owner))
    {
      hide OnTheWay, Chained;
      ReadsForest();
      OwnerIs(o);
      WayUp(Forest(), Boundless(), x, o);
    }

    lemma AskedAll(o: WorldObject)
      requires Standing() && o in objs
      ensures o.owner != null ==> o.owner in objs
      ensures forall x <- objs ::
              Asked(x, o) <==> x == o || (o.bulkCapacity != 0 && o.owner != null && Asked(x, o.owner))
    {
      hide Asked, Standing;
      forall x <- objs
        ensures o.owner != null ==> o.owner in objs
        ensures Asked(x, o) <==> x == o || (o.bulkCapacity != 0 && o.owner != null && Asked(x, o.owner))
      {
        AskedUp(o, x);
      }
    }

    /** The code's check refuses exactly what there is no room for. */
    lemma {:induction false} TooHeavyIff(o: WorldObject, v: int)
      requires Standing() && WellOwned(Forest()) && o in objs
      ensures o.TooHeavy(v, this) <==> !TakesWeight(o, v)
      decreases bound - Rank(o)
    {
      hide WellOwned, Standing, Asked, World.Forest;
      OwnerIn(o);
      AskedAll(o);
      OwnerShown(o);
      if o.bulkCapacity != 0 && o.owner != null {
        TooHeavyIff(o.owner, v);
      }
    }

    lemma {:induction false} TooBulkyIff(o: WorldObject, v: int)
      requires Standing() && WellOwned(Forest()) && o in objs
      ensures o.TooBulky(v, this) <==> !TakesBulk(o, v)
      decreases bound - Rank(o)
    {
      hide WellOwned, Standing, Asked, World.Forest;
      OwnerIn(o);
      AskedAll(o);
      OwnerShown(o);
      if o.bulkCapacity != 0 && o.owner != null {
        TooBulkyIff(o.owner, v);
      }
    }

    lemma OwnerShown(o: WorldObject)
      requires Standing() && o in objs
      ensures o.owner == null <==> o.GetOwner() == o
      ensures o.owner != null ==> o.GetOwner() == o.owner
    {
      ReadsOwner(o);
      OwnerIs(o);
    }

    lemma ReadsFloor(o: WorldObject)
      requires o in objs
      ensures o.room == null ==> o !in Floor().room && Gone(Floor(), o) == Floor()
      ensures o.room != null ==> o in Floor().room && Floor().room[o] == o.room
      ensures o.room == null ==> Floor().room - {o} == Floor().room
    {
    }

    /** The room that an object lies in has it on its list, once. */
    lemma Lists(o: WorldObject)
      requires Agrees(Floor()) && o in objs && o.room != null
      ensures o.room in rooms && o in o.room.objects && Distinct(o.room.objects)
    {
      assert Lies(Floor(), o) && Listed(Floor(), o.room);
    }

    twostate lemma PickedUp(o: WorldObject)
      requires objs == old(objs) && rooms == old(rooms) && o in objs && old(o.room) in rooms && o.room == null
      requires old(o.room).objects == Minus(old(o.room.objects), {o})
      requires forall r <- rooms :: r != old(o.room) ==> r.objects == old(r.objects)
      requires forall p <- objs :: p != o ==> p.room == old(p.room)
      ensures Floor() == Gone(old(Floor()), o)
    {
      var r := old(o.room);
      assert Lying() == old(Lying()) - {o};
      assert Objects() == old(Objects())[r := Minus(old(r.objects), {o})];
    }

    ghost function Objects(): map<Room, seq<WorldObject>>
      reads this`rooms, rooms`objects
    {
      map r | r in rooms :: r.objects
    }

    ghost function Lying(): map<WorldObject, Room>
      reads this`objs, objs`room
    {
      map o | o in objs && o.room != null :: o.room
    }

    /** Whose cache a change at `o` works out: that of the base owner, if it is a container. */
    ghost function Worked(o: WorldObject): WorldObject
      requires Standing() && o in objs
      reads this`objs, this`rank, this`bound, objs`contents, objs`owner
    {
      if Root(Forest(), o).container then Root(Forest(), o) else o
    }

    lemma WorkedIs(o: WorldObject)
      requires Standing() && o in objs
      ensures Chained(Forest()) && o in Forest().g.contents
      ensures Worked(o) == if Root(Forest(), o).container then Root(Forest(), o) else o
    {
    }

    /** Owners lead up and end, and only what can be carried is owned. */
    ghost predicate Standing()
      reads this`objs, this`rank, this`bound, objs`contents, objs`owner
    {
      Chained(Forest()) && forall o <- objs :: o.owner != null ==> o.carry
    }

    /** There is no cycle, and only containers hold anything. */
    ghost predicate Ranked()
      reads this`objs, this`rank, objs`contents
    {
      Containment.Ranked(Graph()) && forall o <- objs :: !o.container ==> o.contents == []
    }
  }
}
