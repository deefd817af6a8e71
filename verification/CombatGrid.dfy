/** Moving on the combat grid (roommgr/combat.cpp). */
module CombatGrid {
  import opened Common
  import opened LinkedLists

  const WIDTH := 24
  const HEIGHT := 18
  const FAR := 100000

  predicate Inside(x: int, y: int) {
    0 <= x < WIDTH && 0 <= y < HEIGHT
  }

  /** The whole part of the square root of `n`. */
  function Root(n: nat): (r: nat)
    ensures r * r <= n < (r + 1) * (r + 1)
  {
    if n == 0 then 0 else
      var r := Root(n - 1);
      if (r + 1) * (r + 1) <= n then r + 1 else r
  }

  function Abs(a: int): nat {
    if a < 0 then -a else a
  }

  function GetDistance(x1: int, y1: int, x2: int, y2: int): nat {
    Root(Abs(x2 - x1) * Abs(x2 - x1) + Abs(y2 - y1) * Abs(y2 - y1))
  }

  /** The distance as it is compared: one less on the goal's row or column. */
  function Adjusted(x: int, y: int, x2: int, y2: int): int {
    GetDistance(x, y, x2, y2) - if y == y2 || x == x2 then 1 else 0
  }

  /** The square of the distance. */
  function Squared(x1: int, y1: int, x2: int, y2: int): int {
    (x2 - x1) * (x2 - x1) + (y2 - y1) * (y2 - y1)
  }

  lemma AbsSquare(a: int)
    ensures Abs(a) * Abs(a) == a * a
  {
  }

  lemma SquareGrows(a: nat, b: nat)
    requires a <= b
    ensures a * a <= b * b
  {
  }

  /** What the distance says of the coordinates. */
  lemma DistanceIff(x1: int, y1: int, x2: int, y2: int, d: int)
    ensures GetDistance(x1, y1, x2, y2) <= d <==> d >= 0 && Squared(x1, y1, x2, y2) < (d + 1) * (d + 1)
  {
    AbsSquare(x2 - x1);
    AbsSquare(y2 - y1);
    var r := GetDistance(x1, y1, x2, y2);
    if r <= d {
      SquareGrows(r + 1, d + 1);
    } else if d >= 0 {
      SquareGrows(d + 1, r);
    }
  }

  /** Not farther than `m`, as it is compared. */
  predicate Reaches(x: int, y: int, x2: int, y2: int, m: int) {
    var n := m + if y == y2 || x == x2 then 1 else 0;
    n >= 0 && Squared(x, y, x2, y2) < (n + 1) * (n + 1)
  }

  lemma ReachesIff(x: int, y: int, x2: int, y2: int, m: int)
    ensures Reaches(x, y, x2, y2, m) <==> Adjusted(x, y, x2, y2) <= m
  {
    DistanceIff(x, y, x2, y2, m + if y == y2 || x == x2 then 1 else 0);
  }

  /** A king's step, or none. */
  predicate Near(x: int, y: int, x1: int, y1: int) {
    x1 - 1 <= x <= x1 + 1 && y1 - 1 <= y <= y1 + 1
  }

  /** The order in which the cells are looked at. */
  predicate Before(x: int, y: int, u: int, v: int) {
    y < v || (y == v && x < u)
  }

  class WorldObject {
    const servID: int
    var combatX: int
    var combatY: int
    var numMoves: int

    constructor (servID: int, x: int, y: int)
      ensures this.servID == servID && combatX == x && combatY == y && numMoves == 0
    {
      this.servID, combatX, combatY, numMoves := servID, x, y, 0;
    }
  }

  // ---- obstacles

  const TWO32 := 0x1_0000_0000

  /** The generator, which the client runs too; the seed is seen without a sign. */
  function NextSeed(seed: nat): (r: nat)
    ensures r < TWO32
  {
    (seed * 0x0019660d + 0x3c6ef35f) % TWO32
  }

  /** A number from `start` to `end` out of the middle 16 bits of the seed. */
  function Drawn(seed: nat, start: nat, end: nat): (r: nat)
    requires start <= end < start + 0x1_0000
    ensures start <= r <= end
  {
    var (range, tmp) := (end - start + 1, seed / 0x100 % 0x1_0000);
    assert tmp * range < 0x1_0000 * range;
    tmp * range / 0x1_0000 + start
  }

  /** The seed after `n` numbers. */
  function SeedAfter(seed: nat, n: nat): nat {
    if n == 0 then seed else NextSeed(SeedAfter(seed, n - 1))
  }

  /** Where the k-th obstacle is. Each takes four numbers, two of which nobody looks at. */
  function ObstacleAt(seed: nat, k: nat): (p: (int, int))
    ensures Inside(p.0, p.1)
  {
    (Drawn(SeedAfter(seed, 4 * k + 2), 0, 23), Drawn(SeedAfter(seed, 4 * k + 3), 0, 17))
  }

  function ObstacleCount(seed: nat): (n: nat)
    ensures 5 <= n <= 15
  {
    Drawn(SeedAfter(seed, 1), 5, 15)
  }

  ghost predicate IsObstacle(seed: nat, n: nat, x: int, y: int) {
    exists k :: 0 <= k < n && ObstacleAt(seed, k) == (x, y)
  }

  /** The seeds that follow 0, and what comes of them: nine obstacles, the first at (7, 14), the next at (4, 17). */
  lemma SeedsOfZero()
    ensures SeedAfter(0, 1) == 0x3c6ef35f && SeedAfter(0, 2) == 0x47502932 && SeedAfter(0, 3) == 0xd1ccf6e9
    ensures ObstacleCount(0) == 9 && ObstacleAt(0, 0) == (7, 14) && ObstacleAt(0, 1) == (4, 17)
  {
    assert SeedAfter(0, 1) == 0x3c6ef35f;
    assert SeedAfter(0, 2) == 0x47502932;
    assert SeedAfter(0, 3) == 0xd1ccf6e9;
    assert SeedAfter(0, 4) == 0xaaf95334;
    assert SeedAfter(0, 5) == 0x6252e503;
    assert SeedAfter(0, 6) == 0x9f2ec686;
    assert SeedAfter(0, 7) == 0x57fe6c2d;
  }

  lemma OneMore(seed: nat, n: nat, x: int, y: int)
    ensures IsObstacle(seed, n + 1, x, y) <==> IsObstacle(seed, n, x, y) || ObstacleAt(seed, n) == (x, y)
  {
    hide ObstacleAt;
    if IsObstacle(seed, n + 1, x, y) {
      var k :| 0 <= k < n + 1 && ObstacleAt(seed, k) == (x, y);
      assert k < n ==> IsObstacle(seed, n, x, y);
    }
    if IsObstacle(seed, n, x, y) {
      var k :| 0 <= k < n && ObstacleAt(seed, k) == (x, y);
      assert k < n + 1;
    }
  }

  lemma NoneYet(seed: nat)
    ensures SeedAfter(seed, 1) == NextSeed(seed) && forall x, y :: !IsObstacle(seed, 0, x, y)
  {
    assert SeedAfter(seed, 0) == seed;
  }

  lemma FourMore(seed: nat, n: nat)
    ensures SeedAfter(seed, n + 1) == NextSeed(SeedAfter(seed, n))
    ensures SeedAfter(seed, n + 2) == NextSeed(SeedAfter(seed, n + 1))
    ensures SeedAfter(seed, n + 4) == NextSeed(NextSeed(SeedAfter(seed, n + 2)))
  {
    hide NextSeed;
    assert SeedAfter(seed, n + 3) == NextSeed(SeedAfter(seed, n + 2));
  }

  // ---- combat

  datatype Side = Attacker | Defender

  const POSITIONS := 12

  function AttackerPosn(index: nat): (int, int)
    requires index < POSITIONS
  {
    [(1, 6), (0, 5), (0, 7), (0, 6), (0, 4), (0, 8), (0, 3), (0, 9), (0, 2), (0, 10), (0, 1), (0, 11)][index]
  }

  function DefenderPosn(index: nat): (int, int)
    requires index < POSITIONS
  {
    [(23, 6), (22, 5), (22, 7), (22, 6), (22, 4), (22, 8), (22, 3), (22, 9), (22, 2), (22, 10), (22, 1),
        (22, 11)][index]
  }

  function Posn(side: Side, index: nat): (p: (int, int))
    requires index < POSITIONS
    ensures Inside(p.0, p.1)
  {
    if side.Attacker? then AttackerPosn(index) else DefenderPosn(index)
  }

  /** Everybody starts somewhere else, the attackers on the left, the defenders on the right. */
  lemma PlacesDiffer(s: Side, i: nat, t: Side, j: nat)
    requires i < POSITIONS && j < POSITIONS && (s != t || i != j)
    ensures Posn(s, i) != Posn(t, j)
    ensures Posn(Attacker, i).0 <= 1 && Posn(Defender, i).0 >= 22
  {
  }

  class CombatGroup {
    const grid: array2<int>
    ghost var combatants: set<WorldObject>
    var attackers: seq<WorldObject>
    var defenders: seq<WorldObject>

    /** The obstacles are the ones that the client works out for the seed. */
    constructor (obstacleSeed: nat)
      ensures Valid() && combatants == {} && fresh(grid) && attackers == defenders == []
      ensures forall x, y :: Inside(x, y) ==>
        grid[x, y] == if IsObstacle(obstacleSeed, ObstacleCount(obstacleSeed), x, y) then 1 else 0
    {
      grid := new int[WIDTH, HEIGHT]((_, _) => 0);
      combatants, attackers, defenders := {}, [], [];
      new;
      PlaceObstacles(obstacleSeed);
    }

    method PlaceObstacles(obstacleSeed: nat)
      requires Sized() && forall x, y :: Inside(x, y) ==> grid[x, y] == 0
      modifies grid
      ensures forall x, y :: Inside(x, y) ==>
        grid[x, y] == if IsObstacle(obstacleSeed, ObstacleCount(obstacleSeed), x, y) then 1 else 0
    {
      hide NextSeed, IsObstacle, SeedAfter;
      NoneYet(obstacleSeed);
      var tSeed := NextSeed(obstacleSeed);
      var obstacleCount := Drawn(tSeed, 5, 15);
      var i := 0;
      while i < obstacleCount
        invariant i <= obstacleCount && tSeed == SeedAfter(obstacleSeed, 4 * i + 1)
        invariant forall x, y :: Inside(x, y) ==> grid[x, y] == if IsObstacle(obstacleSeed, i, x, y) then 1 else 0
      {
        FourMore(obstacleSeed, 4 * i + 1);
        tSeed := NextSeed(tSeed);
        var theX := Drawn(tSeed, 0, 23);
        tSeed := NextSeed(tSeed);
        var theY := Drawn(tSeed, 0, 17);
        tSeed := NextSeed(tSeed);
        tSeed := NextSeed(tSeed);
        grid[theX, theY] := 1;
        forall x, y | Inside(x, y)
          ensures IsObstacle(obstacleSeed, i + 1, x, y) <==>
                  IsObstacle(obstacleSeed, i, x, y) || (x == theX && y == theY)
        {
          OneMore(obstacleSeed, i, x, y);
        }
        i := i + 1;
      }
    }

    predicate Sized() {
      grid.Length0 == WIDTH && grid.Length1 == HEIGHT
    }

    /** Each combatant is on the grid, where its id is written; an id of 0 would look like an empty cell. */
    ghost predicate Valid()
      reads this, grid, combatants
    {
      && Sized()
      && (forall c <- combatants :: Placed(c))
      && (forall c, d :: c in combatants && d in combatants && c.servID == d.servID ==> c == d)
    }

    ghost predicate Placed(c: WorldObject)
      reads grid, c
    {
      Sized() && c.servID != 0 && Inside(c.combatX, c.combatY) && grid[c.combatX, c.combatY] == c.servID
    }

    predicate Free(x: int, y: int)
      requires Sized() && Inside(x, y)
      reads grid
    {
      grid[x, y] == 0
    }

    /** Where a newcomer is put: where it says, or else at the place of its side's last one. */
    function Place(obj: WorldObject, side: Side): (int, int)
      requires |if side.Attacker? then attackers else defenders| < POSITIONS
      reads this, obj
    {
      if obj.combatX == -1 then Posn(side, |if side.Attacker? then attackers else defenders|)
          else (obj.combatX, obj.combatY)
    }

    /** Somebody stands there. */
    ghost predicate Taken(p: (int, int))
      reads this, combatants
    {
      exists c :: c in combatants && (c.combatX, c.combatY) == p
    }

    /** A newcomer takes its place even if somebody stands there: everybody has a cell afterwards if and only if nobody
        did. An obstacle there is gone. */
    method AddCharacter(obj: WorldObject, side: Side)
      requires Valid() && obj !in combatants && obj.servID != 0 && forall c <- combatants :: c.servID != obj.servID
      requires |if side.Attacker? then attackers else defenders| < POSITIONS
      requires obj.combatX != -1 ==> Inside(obj.combatX, obj.combatY)
      modifies this, obj`combatX, obj`combatY, grid
      ensures combatants == old(combatants) + {obj} && (obj.combatX, obj.combatY) == old(Place(obj, side))
      ensures Placed(obj)
      ensures attackers == old(attackers) + if side.Attacker? then [obj] else []
      ensures defenders == old(defenders) + if side.Defender? then [obj] else []
      ensures forall x, y :: Inside(x, y) ==>
              grid[x, y] == if (x, y) == old(Place(obj, side)) then obj.servID else old(grid[x, y])
      ensures Valid() <==> !old(Taken(Place(obj, side)))
    {
      var index := if side.Attacker? then |attackers| else |defenders|;
      if side.Attacker? {
        attackers := attackers + [obj];
      } else {
        defenders := defenders + [obj];
      }
      if obj.combatX == -1 {
        var posn := Posn(side, index);
        obj.combatX := posn.0;
        obj.combatY := posn.1;
      }
      grid[obj.combatX, obj.combatY] := obj.servID;
      combatants := combatants + {obj};
      forall c <- old(combatants)
        ensures Placed(c) <==> (c.combatX, c.combatY) != (obj.combatX, obj.combatY)
      {
        assert old(Placed(c));
      }
    }

    /** One who leaves leaves an empty cell. */
    method DeleteCharacter(obj: WorldObject)
      requires Valid() && obj in combatants
      modifies this, grid
      ensures Valid() && combatants == old(combatants) - {obj}
      ensures attackers == Del(old(attackers), obj) && defenders == Del(old(defenders), obj)
      ensures forall x, y :: Inside(x, y) ==>
              grid[x, y] == if (x, y) == (obj.combatX, obj.combatY) then 0 else old(grid[x, y])
    {
      assert Placed(obj);
      if grid[obj.combatX, obj.combatY] == obj.servID {
        grid[obj.combatX, obj.combatY] := 0;
      }
      attackers, defenders := Del(attackers, obj), Del(defenders, obj);
      combatants := combatants - {obj};
      forall c <- combatants
        ensures Placed(c)
      {
        assert old(Placed(c));
      }
    }

    /** A free cell near (x1, y1), close enough to count. */
    ghost predicate Candidate(x: int, y: int, x1: int, y1: int, x2: int, y2: int)
      reads grid
    {
      Sized() && Inside(x, y) && Near(x, y, x1, y1) && Free(x, y) && Adjusted(x, y, x2, y2) < FAR
    }

    /** A free cell of the grid, at (x1, y1) or beside it. */
    predicate Open(x: int, y: int, x1: int, y1: int)
      requires Sized()
      reads grid
    {
      Inside(x, y) && Near(x, y, x1, y1) && Free(x, y)
    }

    /** (x, y) is the first in order of the open cells that are nearest to (x2, y2), whole distances being compared;
        without any that is less than FAR it is where it was. */
    ghost predicate Closest(x: int, y: int, x1: int, y1: int, x2: int, y2: int)
      requires Sized()
      reads grid
    {
      if forall u, v :: Open(u, v, x1, y1) ==> !Reaches(u, v, x2, y2, FAR - 1) then x == x1 && y == y1
      else
        && Open(x, y, x1, y1) && Reaches(x, y, x2, y2, FAR - 1)
        && forall u, v, m :: Open(u, v, x1, y1) && m < FAR && Reaches(u, v, x2, y2, m) ==>
             Reaches(x, y, x2, y2, m) && (Before(u, v, x, y) ==> Reaches(x, y, x2, y2, m - 1))
    }

    lemma ChosenIsClosest(x: int, y: int, x1: int, y1: int, x2: int, y2: int)
      requires Sized()
      ensures Chosen(x, y, x1, y1, x2, y2) <==> Closest(x, y, x1, y1, x2, y2)
    {
      hide Adjusted, Reaches, Near;
      forall u, v, m
        ensures Reaches(u, v, x2, y2, m) <==> Adjusted(u, v, x2, y2) <= m
      {
        ReachesIff(u, v, x2, y2, m);
      }
      forall u, v
        ensures Candidate(u, v, x1, y1, x2, y2) <==> Open(u, v, x1, y1) && Reaches(u, v, x2, y2, FAR - 1)
      {
      }
      if Closest(x, y, x1, y1, x2, y2) {
        forall u, v | Candidate(u, v, x1, y1, x2, y2)
          ensures Candidate(x, y, x1, y1, x2, y2) && Adjusted(x, y, x2, y2) <= Adjusted(u, v, x2, y2)
          ensures Before(u, v, x, y) ==> Adjusted(x, y, x2, y2) < Adjusted(u, v, x2, y2)
        {
          var m := Adjusted(u, v, x2, y2);
          assert Reaches(u, v, x2, y2, m);
          ReachesIff(x, y, x2, y2, m - 1);
        }
      }
    }

    /** The same in terms of the distance. */
    ghost predicate Chosen(x: int, y: int, x1: int, y1: int, x2: int, y2: int)
      reads grid
    {
      if forall u, v :: !Candidate(u, v, x1, y1, x2, y2) then x == x1 && y == y1
      else
        && Candidate(x, y, x1, y1, x2, y2)
        && forall u, v :: Candidate(u, v, x1, y1, x2, y2) ==>
             Adjusted(x, y, x2, y2) <= Adjusted(u, v, x2, y2)
                 && (Before(u, v, x, y) ==> Adjusted(x, y, x2, y2) < Adjusted(u, v, x2, y2))
    }

    /** There is one such cell. */
    lemma ClosestIsOne(x: int, y: int, u: int, v: int, x1: int, y1: int, x2: int, y2: int)
      requires Sized() && Closest(x, y, x1, y1, x2, y2) && Closest(u, v, x1, y1, x2, y2)
      ensures x == u && y == v
    {
      hide Adjusted, Closest;
      ChosenIsClosest(x, y, x1, y1, x2, y2);
      ChosenIsClosest(u, v, x1, y1, x2, y2);
      assert Before(x, y, u, v) || Before(u, v, x, y) || (x == u && y == v);
    }

    method FindClosestPoint(x1: int, y1: int, x2: int, y2: int) returns (pointX: int, pointY: int)
      requires Sized() && Inside(x1, y1)
      ensures Closest(pointX, pointY, x1, y1, x2, y2)
    {
      hide Adjusted, GetDistance, Best, Closest, Chosen, Candidate, Near;
      pointX, pointY := x1, y1;
      var startingX, startingY, endingX, endingY := x1 - 1, y1 - 1, x1 + 2, y1 + 2;
      if startingX < 0 {
        startingX := 0;
      } else if endingX > WIDTH {
        endingX := WIDTH;
      }
      if startingY < 0 {
        startingY := 0;
      } else if endingY > HEIGHT {
        endingY := HEIGHT;
      }
      Around(x1, y1, startingX, startingY, endingX, endingY);
      BestStarts(x1, y1, x2, y2, startingX, startingY);
      var closestDist, theY := FAR, startingY;
      while theY < endingY
        invariant startingY <= theY <= endingY && Best(closestDist, pointX, pointY, x1, y1, x2, y2, startingX, theY)
      {
        var theX := startingX;
        while theX < endingX
          invariant startingX <= theX <= endingX && Best(closestDist, pointX, pointY, x1, y1, x2, y2, theX, theY)
        {
          BestStep(closestDist, pointX, pointY, x1, y1, x2, y2, theX, theY);
          if Free(theX, theY) {
            var distance := GetDistance(theX, theY, x2, y2);
            if theY == y2 || theX == x2 {
              distance := distance - 1;
            }
            AdjustedIs(theX, theY, x2, y2);
            if distance < closestDist {
              closestDist, pointX, pointY := distance, theX, theY;
            }
          }
          theX := theX + 1;
        }
        BestRow(closestDist, pointX, pointY, x1, y1, x2, y2, startingX, endingX, theY);
        theY := theY + 1;
      }
      BestEnds(closestDist, pointX, pointY, x1, y1, x2, y2, startingX, endingY);
      ChosenIsClosest(pointX, pointY, x1, y1, x2, y2);
    }

    /** What is looked at is on the grid, and no candidate is outside of it. */
    lemma Around(x1: int, y1: int, startingX: int, startingY: int, endingX: int, endingY: int)
      requires Sized() && Inside(x1, y1)
      requires startingX == (if x1 == 0 then 0 else x1 - 1) && startingY == (if y1 == 0 then 0 else y1 - 1)
      requires endingX == (if x1 + 2 > WIDTH then WIDTH else x1 + 2)
      requires endingY == (if y1 + 2 > HEIGHT then HEIGHT else y1 + 2)
      ensures startingX < endingX && startingY < endingY
      ensures forall x, y :: startingX <= x < endingX && startingY <= y < endingY ==> Inside(x, y) && Near(x, y, x1, y1)
      ensures forall x, y, x2, y2 :: Candidate(x, y, x1, y1, x2, y2) ==>
                startingX <= x < endingX && startingY <= y < endingY && Adjusted(x, y, x2, y2) < FAR
    {
      hide Adjusted;
    }

    lemma BestStarts(x1: int, y1: int, x2: int, y2: int, startingX: int, startingY: int)
      requires Sized() && forall x, y :: Candidate(x, y, x1, y1, x2, y2) ==> startingX <= x && startingY <= y
      ensures Best(FAR, x1, y1, x1, y1, x2, y2, startingX, startingY)
    {
      hide Candidate, Adjusted;
    }

    lemma BestStep(d: int, x: int, y: int, x1: int, y1: int, x2: int, y2: int, theX: int, theY: int)
      requires Best(d, x, y, x1, y1, x2, y2, theX, theY) && Sized() && Inside(theX, theY) && Near(theX, theY, x1, y1)
      ensures if Free(theX, theY) && Adjusted(theX, theY, x2, y2) < d
              then Best(Adjusted(theX, theY, x2, y2), theX, theY, x1, y1, x2, y2, theX + 1, theY)
              else Best(d, x, y, x1, y1, x2, y2, theX + 1, theY)
    {
      hide Adjusted;
      forall u, v
        ensures Before(u, v, theX + 1, theY) <==> Before(u, v, theX, theY) || (u == theX && v == theY)
      {
      }
    }

    lemma BestRow(d: int, x: int, y: int, x1: int, y1: int, x2: int, y2: int, startingX: int, endingX: int, theY: int)
      requires Best(d, x, y, x1, y1, x2, y2, endingX, theY)
      requires forall u, v :: Candidate(u, v, x1, y1, x2, y2) ==> startingX <= u < endingX
      ensures Best(d, x, y, x1, y1, x2, y2, startingX, theY + 1)
    {
      hide Adjusted, Candidate;
    }

    lemma BestEnds(d: int, x: int, y: int, x1: int, y1: int, x2: int, y2: int, startingX: int, endingY: int)
      requires Best(d, x, y, x1, y1, x2, y2, startingX, endingY)
      requires forall u, v :: Candidate(u, v, x1, y1, x2, y2) ==> v < endingY && Adjusted(u, v, x2, y2) < FAR
      ensures Chosen(x, y, x1, y1, x2, y2)
    {
      hide Adjusted, Candidate;
      if d == FAR {
        forall u, v
          ensures !Candidate(u, v, x1, y1, x2, y2)
        {
          assert v < endingY ==> Before(u, v, startingX, endingY);
        }
      }
    }

    lemma AdjustedIs(x: int, y: int, x2: int, y2: int)
      ensures Adjusted(x, y, x2, y2) == GetDistance(x, y, x2, y2) - if y == y2 || x == x2 then 1 else 0
    {
    }

    /** The best of the candidates before (theX, theY). */
    ghost predicate Best(closestDist: int, x: int, y: int, x1: int, y1: int, x2: int, y2: int, theX: int, theY: int)
      reads grid
    {
      && closestDist <= FAR
      && (closestDist == FAR ==> x == x1 && y == y1)
      && (closestDist < FAR ==>
         Candidate(x, y, x1, y1, x2, y2) && Adjusted(x, y, x2, y2) == closestDist && Before(x, y, theX, theY))
      && (forall u, v :: Candidate(u, v, x1, y1, x2, y2) && Before(u, v, theX, theY) ==>
            closestDist <= Adjusted(u, v, x2, y2)
                && (Before(u, v, x, y) && closestDist < FAR ==> closestDist < Adjusted(u, v, x2, y2)))
    }

    /** Moves `obj` from its cell to (x, y), if it is on its cell and the other one is free. */
    method PositionCharacter(obj: WorldObject, x: int, y: int) returns (retVal: int)
      requires Sized()
      modifies obj`combatX, obj`combatY, grid
      ensures retVal == 0 || retVal == -1
      ensures retVal == 0 <==>
              && Inside(x, y) && old(Free(x, y))
              && old(Inside(obj.combatX, obj.combatY) && grid[obj.combatX, obj.combatY] == obj.servID)
      ensures retVal == 0 ==> obj.combatX == x && obj.combatY == y
      ensures retVal == 0 ==> forall u, v :: Inside(u, v) ==>
                grid[u, v] == if u == x && v == y then obj.servID
                              else if u == old(obj.combatX) && v == old(obj.combatY) then 0 else old(grid[u, v])
      ensures retVal == -1 ==> obj.combatX == old(obj.combatX) && obj.combatY == old(obj.combatY)
      ensures retVal == -1 ==> forall u, v :: Inside(u, v) ==> grid[u, v] == old(grid[u, v])
    {
      retVal := -1;
      if x >= WIDTH || x < 0 || y >= HEIGHT || y < 0 {
        return;
      }
      if obj.combatX >= WIDTH || obj.combatX < 0 || obj.combatY >= HEIGHT || obj.combatY < 0 {
        return;
      }
      if grid[obj.combatX, obj.combatY] != obj.servID {
        return;
      }
      if grid[x, y] == 0 {
        grid[obj.combatX, obj.combatY] := 0;
        obj.combatX := x;
        obj.combatY := y;
        grid[obj.combatX, obj.combatY] := obj.servID;
        retVal := 0;
      }
    }

    /** A move to a free cell keeps everybody in place, and every cell but two. */
    method MoveOnGrid(obj: WorldObject, x: int, y: int) returns (retVal: int)
      requires Valid() && obj in combatants && Inside(x, y) && Free(x, y)
      modifies obj`combatX, obj`combatY, grid
      ensures Valid() && retVal == 0 && obj.combatX == x && obj.combatY == y
      ensures forall u, v :: Inside(u, v) ==>
                grid[u, v] == if u == x && v == y then obj.servID
                              else if u == old(obj.combatX) && v == old(obj.combatY) then 0 else old(grid[u, v])
    {
      assert Placed(obj);
      retVal := PositionCharacter(obj, x, y);
      forall c <- combatants
        ensures Placed(c)
      {
        assert old(Placed(c));
      }
    }
  }

  /** What goes wrong: of two attackers the first one leaves, and the next one to come is put on the other
      one's cell. */
  method LeaveAndJoin(obstacleSeed: nat, a: WorldObject, b: WorldObject, c: WorldObject) returns (group: CombatGroup)
    requires a.servID != 0 && b.servID != 0 && c.servID != 0
    requires a.servID != b.servID && b.servID != c.servID && a.servID != c.servID
    requires a.combatX == b.combatX == c.combatX == -1
    modifies a, b, c
    ensures group.attackers == [b, c] && (b.combatX, b.combatY) == (c.combatX, c.combatY) && !group.Valid()
  {
    group := new CombatGroup(obstacleSeed);
    group.AddCharacter(a, Attacker);
    group.AddCharacter(b, Attacker);
    group.DeleteCharacter(a);
    assert group.attackers == [b];
    assert group.Taken((0, 5));
    group.AddCharacter(c, Attacker);
  }

  /** A move towards (x, y), until it is no farther than `distance`. */
  class CombatMove {
    const client: WorldObject
    const x: int
    const y: int
    const distance: int
    var movePerRound: int

    constructor (obj: WorldObject, destX: int, destY: int, dist: int)
      ensures client == obj && x == destX && y == destY && distance == dist && movePerRound == 3
    {
      client, x, y, distance, movePerRound := obj, destX, destY, dist, 3;
    }

    /** The whole part of the distance to the goal is no more than `distance`. */
    predicate NearEnough(px: int, py: int) {
      distance >= 0 && (x - px) * (x - px) + (y - py) * (y - py) < (distance + 1) * (distance + 1)
    }

    /** One step of the way: the closest cell, while the goal is not near enough. */
    ghost predicate Steps(group: CombatGroup, x1: int, y1: int, x2: int, y2: int)
      requires group.Sized()
      reads group.grid
    {
      !NearEnough(x1, y1) && (x1 != x || y1 != y) && group.Closest(x2, y2, x1, y1, x, y)
    }

    /** The way that is gone on the grid as it is. */
    ghost predicate Way(group: CombatGroup, path: seq<(int, int)>)
      requires group.Sized()
      reads group.grid
    {
      path != [] && forall i, j :: 0 <= i < j < |path| && j == i + 1 ==>
          Steps(group, path[i].0, path[i].1, path[j].0, path[j].1)
    }

    /** Where the way ends: after `rate` steps, at the goal, or near enough to it. */
    method FindWay(group: CombatGroup, rate: int)
      returns (curX: int, curY: int, near: bool, ghost path: seq<(int, int)>)
      requires group.Sized() && Inside(client.combatX, client.combatY) && rate >= 0
      ensures Way(group, path) && path[0] == (client.combatX, client.combatY) && path[|path| - 1] == (curX, curY)
      ensures |path| <= rate + 1
      ensures |path| == rate + 1 || (curX, curY) == (x, y) || NearEnough(curX, curY)
      ensures near <==> |path| <= rate && (curX, curY) != (x, y)
      ensures Inside(curX, curY) && (path[|path| - 1] == path[0] || group.Free(curX, curY))
    {
      hide CombatGroup.Closest, GetDistance, NearEnough;
      curX, curY := client.combatX, client.combatY;
      path, near := [(curX, curY)], false;
      var left := rate;
      while left != 0 && (curX != x || curY != y)
        invariant 0 <= left <= rate && |path| == rate - left + 1
        invariant Way(group, path) && path[0] == (client.combatX, client.combatY) && path[|path| - 1] == (curX, curY)
        invariant Inside(curX, curY) && (path[|path| - 1] == path[0] || group.Free(curX, curY)) && !near
        decreases left
      {
        var dist := GetDistance(curX, curY, x, y);
        NearIff(curX, curY);
        if dist <= distance {
          near := true;
          break;
        }
        ghost var a := (curX, curY);
        curX, curY := group.FindClosestPoint(curX, curY, x, y);
        ClosestIsFree(group, curX, curY, a.0, a.1);
        path := path + [(curX, curY)];
        left := left - 1;
      }
    }

    lemma NearIff(px: int, py: int)
      ensures NearEnough(px, py) <==> GetDistance(px, py, x, y) <= distance
    {
      DistanceIff(px, py, x, y, distance);
    }

    lemma ClosestIsFree(group: CombatGroup, px: int, py: int, x1: int, y1: int)
      requires group.Sized() && Inside(x1, y1) && group.Closest(px, py, x1, y1, x, y)
      ensures Inside(px, py) && Near(px, py, x1, y1) && ((px, py) == (x1, y1) || group.Free(px, py))
    {
      hide Reaches;
    }

    /** The client goes its way, as far as its moves allow, and the end of it is a free cell: the first attempt to
        go there never fails. */
    method Doit(group: CombatGroup, calcNumMoves: int) returns (retVal: bool, ghost path: seq<(int, int)>)
      requires group.Valid() && client in group.combatants && movePerRound >= 0 && client.numMoves <= calcNumMoves
      modifies client, group.grid
      ensures group.Valid() && path != [] && path[0] == old((client.combatX, client.combatY))
      ensures forall i, j :: 0 <= i < j < |path| && j == i + 1 ==>
              old(Steps(group, path[i].0, path[i].1, path[j].0, path[j].1))
      ensures (client.combatX, client.combatY) == path[|path| - 1]
      ensures var rate := Min(movePerRound, calcNumMoves - old(client.numMoves));
              client.numMoves == old(client.numMoves) + rate && |path| <= rate + 1
              && (|path| == rate + 1 || (client.combatX, client.combatY) == (x, y)
                 || NearEnough(client.combatX, client.combatY))
      ensures forall u, v :: Inside(u, v) && (u, v) != path[0] && (u, v) != path[|path| - 1] ==>
              group.grid[u, v] == old(group.grid[u, v])
      ensures path[0] != path[|path| - 1] ==> group.grid[path[0].0, path[0].1] == 0
      ensures retVal <==> client.numMoves >= calcNumMoves
                          || (|path| <= client.numMoves - old(client.numMoves)
                             && (client.combatX, client.combatY) != (x, y))
    {
      hide CombatGroup.Closest, NearEnough, Steps;
      assert group.Placed(client);
      var clientX, clientY := client.combatX, client.combatY;
      var movementLeft := calcNumMoves - client.numMoves;
      var rate := if movePerRound < movementLeft then movePerRound else movementLeft;
      client.numMoves := client.numMoves + rate;
      KeptInPlace(group);
      var curX, curY;
      curX, curY, retVal, path := FindWay(group, rate);
      if client.numMoves >= calcNumMoves {
        retVal := true;
      }
      if curX != clientX || curY != clientY {
        var moved := group.MoveOnGrid(client, curX, curY);
        assert moved == 0;
      }
    }

    twostate lemma KeptInPlace(group: CombatGroup)
      requires old(group.Valid()) && group.combatants == old(group.combatants) && unchanged(group.grid)
      requires forall c <- group.combatants :: c.combatX == old(c.combatX) && c.combatY == old(c.combatY)
      ensures group.Valid()
    {
      forall c <- group.combatants
        ensures group.Placed(c)
      {
        assert old(group.Placed(c));
      }
    }
  }
}
