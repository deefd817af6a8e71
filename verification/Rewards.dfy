/** What a won combat pays (roommgr/combat.cpp, CombatGroup::nextRound). */
module Rewards {
  import opened Common
  import opened Experience
  import opened LinkedLists

  /** Truncation towards zero. */
  function Truncated(x: real): int {
    if x >= 0.0 then x.Floor else -((-x).Floor)
  }

  /** The fraction goes, whichever side of zero it is on. */
  lemma TruncatedIs(x: real)
    ensures x >= 0.0 ==> Truncated(x) as real <= x < (Truncated(x) + 1) as real
    ensures x <= 0.0 ==> (Truncated(x) - 1) as real < x <= Truncated(x) as real
  {
  }

  /** A number from `start` to `end`, made of what rand() gave. */
  function Random(rand: nat, start: int, end: int): (r: int)
    requires start <= end
    ensures start <= r <= end
  {
    rand % (end - start + 1) + start
  }

  class Combatant {
    const character: BCharacter?
    const summoned: bool
    const playerControlled: bool
    /** The level of one without a character, a creature's from its data. */
    const nativeLevel: nat
    var health: int
    var combatReady: bool

    constructor (character: BCharacter?, summoned: bool, playerControlled: bool, nativeLevel: nat, health: int)
      requires playerControlled ==> character != null
      ensures this.character == character && this.summoned == summoned && this.playerControlled == playerControlled
      ensures this.nativeLevel == nativeLevel && this.health == health
    {
      this.character, this.summoned, this.playerControlled := character, summoned, playerControlled;
      this.nativeLevel, this.health, combatReady := nativeLevel, health, false;
    }

    function Level(): int
      reads this, character
    {
      if character == null then nativeLevel else character.level
    }
  }

  /** What a survivor of level `level` is paid when the combat is worth `ep`. */
  function Payment(ep: int, level: int, boost: real): (r: int)
    ensures r <= MAX_EXP_GAIN
    ensures boost >= 0.0 && ep > 0 ==> r >= 0
  {
    Min(MAX_EXP_GAIN, if level <= 10000 || boost < 1.0 then Truncated(ep as real * boost) else ep)
  }

  /** A thousand times what the losers' levels are of the winners'. */
  function Ratio(winnersLevel: nat, losersLevel: nat): nat {
    (1000.0 * (losersLevel as real / (if winnersLevel == 0 then 1 else winnersLevel) as real)).Floor
  }

  /** What a combat is worth before the dice: more than half as much again for a second winner, and 30 percent for every
      further one. */
  function Base(winnersLevel: nat, losersLevel: nat, count: nat): (r: nat)
    ensures r >= Ratio(winnersLevel, losersLevel)
  {
    var ep := Ratio(winnersLevel, losersLevel);
    if count <= 1 then ep else
      assert ep * (60 + 30 * (count - 2)) >= 0;
      ep + ep * (60 + 30 * (count - 2)) / 100
  }

  /** What the dice may make of it; nothing against players, or against those without a level. */
  predicate Priced(ep: int, winnersLevel: nat, losersLevel: nat, count: nat, pvp: bool) {
    if losersLevel == 0 || pvp then ep == 0
    else Base(winnersLevel, losersLevel, count) * 3 / 4 <= ep <= Base(winnersLevel, losersLevel, count) * 5 / 4
  }

  lemma RatioIs(winnersLevel: nat, losersLevel: nat)
    ensures var (r, w) := (Ratio(winnersLevel, losersLevel), if winnersLevel == 0 then 1 else winnersLevel);
            r * w <= 1000 * losersLevel < (r + 1) * w
  {
    var (r, w) := (Ratio(winnersLevel, losersLevel), if winnersLevel == 0 then 1 else winnersLevel);
    var q := 1000.0 * (losersLevel as real / w as real);
    TimesBack(losersLevel as real, w as real);
    Floored(q, r, w, 1000 * losersLevel);
  }

  lemma TimesBack(l: real, w: real)
    requires w > 0.0
    ensures 1000.0 * (l / w) * w == 1000.0 * l
  {
    assert l / w * w == l;
  }

  lemma Floored(q: real, r: nat, w: nat, l: nat)
    requires r == q.Floor && w > 0 && q * w as real == l as real
    ensures r * w <= l < (r + 1) * w
  {
    Scaled(r as real, q, w as real);
    Whole(r, w);
    InOrder(r * w, l);
    Below(q, r + 1, w, l);
  }

  lemma Below(q: real, n: nat, w: nat, l: nat)
    requires q < n as real && w > 0 && q * w as real == l as real
    ensures l < n * w
  {
    Grown(q, n as real, w as real);
    Whole(n, w);
    InOrder(l, n * w);
  }

  lemma InOrder(a: int, b: int)
    ensures (a as real <= b as real <==> a <= b) && (a as real < b as real <==> a < b)
  {
  }

  lemma Whole(a: nat, b: nat)
    ensures a as real * b as real == (a * b) as real
  {
  }

  lemma Scaled(a: real, b: real, c: real)
    requires a <= b && c > 0.0
    ensures a * c <= b * c
  {
  }

  lemma Grown(a: real, b: real, c: real)
    requires a < b && c > 0.0
    ensures a * c < b * c
  {
  }

  /** Whole points of a percentage of the ratio: 160 for two, and 30 more for each further one. */
  lemma BaseIs(winnersLevel: nat, losersLevel: nat, count: nat)
    ensures var (b, r) := (Base(winnersLevel, losersLevel, count), Ratio(winnersLevel, losersLevel));
            && (count <= 1 ==> b == r)
            && (count >= 2 ==> 100 * b <= r * (100 + 30 * count) < 100 * (b + 1))
  {
    hide Ratio;
    var r := Ratio(winnersLevel, losersLevel);
    if count >= 2 {
      var more := r * (60 + 30 * (count - 2));
      assert more >= 0;
      assert r * (100 + 30 * count) == 100 * r + more;
      assert 100 * (more / 100) <= more < 100 * (more / 100 + 1);
    }
  }

  /** What is paid is worth times boost, without its fraction, and never more than 30000. */
  lemma PaymentIs(ep: int, level: int, boost: real)
    requires level <= 10000 && ep > 0
    ensures var (p, x) := (Payment(ep, level, boost), ep as real * boost);
            && (x >= 30000.0 ==> p == 30000)
            && (0.0 <= x < 30000.0 ==> p as real <= x < (p + 1) as real)
            && (x < 0.0 ==> (p - 1) as real < x <= p as real)
  {
    TruncatedIs(ep as real * boost);
  }

  ghost predicate Separate(side: seq<Combatant>) {
    forall i, j :: 0 <= i < j < |side| ==> side[i].character != null ==> side[i].character != side[j].character
  }

  ghost function Characters(side: seq<Combatant>): set<BCharacter> {
    set i {:trigger side[i]} | 0 <= i < |side| && side[i].character != null :: side[i].character
  }

  ghost predicate Consistent(side: seq<Combatant>)
    reads side, Characters(side)
  {
    forall i :: 0 <= i < |side| && side[i].character != null ==> side[i].character.Consistent()
  }

  ghost predicate Dead(side: seq<Combatant>)
    reads side
  {
    forall i :: 0 <= i < |side| ==> side[i].health <= 0
  }

  /** Those alive who were not summoned count. */
  predicate Counts(obj: Combatant)
    reads obj
  {
    obj.health > 0 && !obj.summoned
  }

  /** A player counts with the level of its experience. */
  function Worth(obj: Combatant): nat
    requires obj.character != null ==> obj.character.Consistent()
    reads obj, obj.character
  {
    if obj.playerControlled && obj.character != null then LevelOf(obj.character.experience) else obj.Level()
  }

  /** The levels of those among the first `n` who count. */
  ghost function Levels(side: seq<Combatant>, n: nat): nat
    requires n <= |side| && Consistent(side)
    reads side, Characters(side)
  {
    if n == 0 then 0 else Levels(side, n - 1) + if Counts(side[n - 1]) then Worth(side[n - 1]) else 0
  }

  ghost function Count(side: seq<Combatant>, n: nat): nat
    requires n <= |side|
    reads side
  {
    if n == 0 then 0 else Count(side, n - 1) + if Counts(side[n - 1]) then 1 else 0
  }

  /** One more of a side: those alive who were not summoned count, a player with the level of its experience. */
  lemma OneCounts(side: seq<Combatant>, n: nat)
    requires n < |side| && Consistent(side)
    ensures Levels(side, 0) == Count(side, 0) == 0
    ensures var obj := side[n];
            if obj.health > 0 && !obj.summoned then
              && Count(side, n + 1) == Count(side, n) + 1
              && Levels(side, n + 1) == Levels(side, n)
                   + if obj.character == null then obj.nativeLevel
                     else if obj.playerControlled then obj.character.experience / 10000 + 1
                     else obj.character.level
            else Count(side, n + 1) == Count(side, n) && Levels(side, n + 1) == Levels(side, n)
  {
  }

  /** The characters of the survivors among the first `n`. */
  ghost function Survivors(side: seq<Combatant>, n: nat): seq<BCharacter>
    requires n <= |side|
    reads side
  {
    if n == 0 then [] else
      var last := side[n - 1];
      Survivors(side, n - 1) + if last.health > 0 && last.character != null then [last.character] else []
  }

  lemma SurvivorsStep(side: seq<Combatant>)
    ensures Survivors(side, 0) == []
    ensures forall n: nat :: n < |side| ==>
      Survivors(side, n + 1)
      == Survivors(side, n) + if side[n].health > 0 && side[n].character != null then [side[n].character] else []
  {
  }

  lemma {:induction false} SurvivorIsThere(side: seq<Combatant>, n: nat, c: BCharacter)
    requires n <= |side| && c in Survivors(side, n)
    ensures exists i :: 0 <= i < n && side[i].character == c
  {
    if c in Survivors(side, n - 1) {
      SurvivorIsThere(side, n - 1, c);
    } else {
      assert side[n - 1].character == c;
    }
  }

  /** Those who stand in a combat once are paid once. */
  lemma {:induction false} SurvivorsDistinct(side: seq<Combatant>, n: nat)
    requires n <= |side| && Separate(side)
    ensures Distinct(Survivors(side, n))
  {
    if n > 0 {
      SurvivorsDistinct(side, n - 1);
      var c := side[n - 1].character;
      if c != null {
        if c in Survivors(side, n - 1) {
          SurvivorIsThere(side, n - 1, c);
        }
        DistinctAppend(Survivors(side, n - 1), c);
      }
    }
  }

  /** How one stands after a combat worth `ep` was paid, to those it `pays`. */
  function Rewarded(s: Standing, pays: bool, ep: int, boost: real): (t: Standing)
    ensures (s.Consistent() ==> t.Consistent()) && t.level <= s.level + 3 && (!pays || ep <= 0 ==> t == s)
  {
    if pays && ep > 0 && s.Consistent() then
      ThreeLevels(s, Payment(ep, s.level, boost));
      Gained(s, Payment(ep, s.level, boost))
    else s
  }

  /** Who is paid has that much more experience, unless past the last level; who is not, nothing. */
  lemma RewardedIs(s: Standing, pays: bool, ep: int, boost: real)
    requires s.Consistent()
    ensures !pays || ep <= 0 ==> Rewarded(s, pays, ep, boost) == s
    ensures pays && ep > 0 && boost >= 0.0 && s.experience < 1000000 ==>
              Rewarded(s, pays, ep, boost).experience == s.experience + Payment(ep, s.level, boost)
  {
    hide Payment, Gained;
    if pays && ep > 0 {
      GainedIs(s, Payment(ep, s.level, boost));
    }
  }

  /** Where those of a side stand. */
  ghost function Standings(side: seq<Combatant>): (s: seq<Standing>)
    reads side, Characters(side)
    ensures |s| == |side|
  {
    seq(|side|, i requires 0 <= i < |side| reads side, Characters(side) =>
      if side[i].character == null then Standing(0, 0, 0, 0) else side[i].character.Now())
  }

  /** Where they stand after a combat worth `ep` was paid to the players among the survivors. */
  ghost function AllRewarded(was: seq<Standing>, side: seq<Combatant>, ep: int, boost: real): seq<Standing>
    requires |was| == |side|
    reads side
  {
    seq(|side|, i requires 0 <= i < |side| reads side =>
      Rewarded(was[i], side[i].health > 0 && side[i].character != null && side[i].character.isPlayer, ep, boost))
  }

  lemma NothingPaid(was: seq<Standing>, side: seq<Combatant>, ep: int, boost: real)
    requires |was| == |side| && ep <= 0
    ensures AllRewarded(was, side, ep, boost) == was
  {
  }

  /** A combat in which nobody stands twice has nobody on both sides. */
  lemma SidesApart(a: seq<Combatant>, b: seq<Combatant>)
    requires Separate(a + b)
    ensures Separate(a) && Separate(b)
    ensures forall i, j :: 0 <= i < |a| && 0 <= j < |b| && a[i].character != null ==> a[i].character != b[j].character
  {
    forall i, j | 0 <= i < |a| && 0 <= j < |b| && a[i].character != null ensures a[i].character != b[j].character {
      assert (a + b)[i] == a[i] && (a + b)[|a| + j] == b[j];
    }
    forall i, j | 0 <= i < j < |a| ensures a[i].character != null ==> a[i].character != a[j].character {
      assert (a + b)[i] == a[i] && (a + b)[j] == a[j];
    }
    forall i, j | 0 <= i < j < |b| ensures b[i].character != null ==> b[i].character != b[j].character {
      assert (a + b)[|a| + i] == b[i] && (a + b)[|a| + j] == b[j];
    }
  }

  lemma Swapped(a: seq<Combatant>, b: seq<Combatant>)
    requires Separate(a + b)
    ensures Separate(b + a)
  {
    SidesApart(a, b);
  }

  lemma DeadIs(side: seq<Combatant>, n: nat)
    requires n <= |side| && (forall j :: 0 <= j < n ==> side[j].health <= 0) && (n < |side| ==> side[n].health > 0)
    ensures Dead(side) <==> n == |side|
  {
  }

  class CombatGroup {
    var attackers: seq<Combatant>
    var defenders: seq<Combatant>
    var pvp: bool
    var attackerLevel: nat
    var defenderLevel: nat
    var gainedEP: bool
    /** Those paid here, once for each time. */
    ghost var paid: seq<BCharacter>

    constructor ()
      ensures Valid() && !gainedEP && attackers == defenders == []
    {
      attackers, defenders, pvp, attackerLevel, defenderLevel, gainedEP, paid := [], [], false, 0, 0, false, [];
    }

    /** Nobody stands twice in the combat, and nobody is paid before it is won, or more than once. */
    ghost predicate Valid()
      reads this, attackers, defenders, Players()
    {
      && Separate(attackers + defenders)
      && Consistent(attackers) && Consistent(defenders)
      && (!gainedEP ==> paid == [])
      && Distinct(paid)
    }

    ghost function Players(): set<BCharacter>
      reads this
    {
      Characters(attackers) + Characters(defenders)
    }

    method AddUp(side: seq<Combatant>) returns (levels: nat, count: nat)
      requires Consistent(side)
      ensures levels == Levels(side, |side|) && count == Count(side, |side|)
    {
      levels, count := 0, 0;
      var i := 0;
      while i < |side|
        invariant i <= |side| && levels == Levels(side, i) && count == Count(side, i)
      {
        var obj := side[i];
        if obj.health > 0 && !obj.summoned {
          if obj.playerControlled && obj.character != null {
            var level := obj.character.GetLevel();
            levels := levels + level;
          } else {
            levels := levels + obj.Level();
          }
          count := count + 1;
        }
        i := i + 1;
      }
    }

    /** One of a side is paid, if it survived. */
    method PayOne(obj: Combatant, c: BCharacter, ep: int, boost: real)
      requires obj.character == c && c.Consistent()
      modifies this`paid, c`experience, c`level, c`topLevel, c`buildPoints, c`granted
      ensures c.Consistent() && c.Now() == Rewarded(old(c.Now()), obj.health > 0 && c.isPlayer, ep, boost)
      ensures paid == old(paid) + if obj.health > 0 && ep > 0 then [c] else []
    {
      if obj.health > 0 && ep > 0 {
        var tempExp := ep;
        if (obj.Level() <= 10000 || boost < 1.0) && ep > 0 {
          tempExp := Truncated(ep as real * boost);
        }
        if tempExp > MAX_EXP_GAIN {
          tempExp := MAX_EXP_GAIN;
        }
        c.GainExperience(tempExp);
        paid := paid + [c];
      }
    }

    lemma OnlyOne(side: seq<Combatant>, i: nat)
      requires Separate(side) && i < |side| && side[i].character != null
      ensures forall j :: 0 <= j < |side| && j != i ==> side[j].character != side[i].character
    {
    }

    /** Every survivor of `side` is paid for a combat that is worth `ep`, and nobody else is. */
    method PayOut(side: seq<Combatant>, ep: int, boost: real)
      requires Consistent(side) && Separate(side)
      modifies this`paid
      modifies Characters(side)`experience, Characters(side)`level, Characters(side)`topLevel
      modifies Characters(side)`buildPoints, Characters(side)`granted
      ensures Consistent(side) && paid == old(paid) + if ep > 0 then Survivors(side, |side|) else []
      ensures forall i :: 0 <= i < |side| && side[i].character != null ==>
        side[i].character.Now()
            == Rewarded(old(side[i].character.Now()), side[i].health > 0 && side[i].character.isPlayer, ep, boost)
    {
      hide Gained, Rewarded, Payment, BCharacter.Consistent, BCharacter.Now, Survivors, Separate;
      var i := 0;
      SurvivorsStep(side);
      while i < |side|
        invariant i <= |side| && Consistent(side)
        invariant paid == old(paid) + if ep > 0 then Survivors(side, i) else []
        invariant forall j :: i <= j < |side| && side[j].character != null ==>
          side[j].character.Now() == old(side[j].character.Now())
        invariant forall j :: 0 <= j < i && side[j].character != null ==>
          side[j].character.Now()
              == Rewarded(old(side[j].character.Now()), side[j].health > 0 && side[j].character.isPlayer, ep, boost)
      {
        var obj := side[i];
        if obj.character != null {
          OnlyOne(side, i);
          PayOne(obj, obj.character, ep, boost);
        }
        i := i + 1;
      }
    }

    /** What the combat is worth to the winners, the dice thrown. */
    method Value(winnersLevel: nat, losersLevel: nat, count: nat, rand: nat) returns (ep: int)
      ensures Priced(ep, winnersLevel, losersLevel, count, pvp)
    {
      hide Ratio;
      ep := Ratio(winnersLevel, losersLevel);
      var others := count - 1;
      if others != 0 {
        var bonus := 60 + 30 * (others - 1);
        ep := ep + ep * bonus / 100;
      }
      ep := Random(rand, ep * 3 / 4, ep * 5 / 4);
      if losersLevel == 0 || pvp {
        ep := 0;
      }
    }

    /** The survivors of `winners` share the reward for `losersLevel`; the losers get nothing. */
    method Win(winners: seq<Combatant>, losers: seq<Combatant>, losersLevel: nat, rand: nat, boost: real)
      returns (ep: int, levels: nat)
      requires Consistent(winners) && Consistent(losers) && Separate(winners + losers) && paid == []
      modifies this`paid, this`gainedEP
      modifies Characters(winners)`experience, Characters(winners)`level, Characters(winners)`topLevel
      modifies Characters(winners)`buildPoints, Characters(winners)`granted
      ensures Consistent(winners) && Consistent(losers) && Distinct(paid)
      ensures gainedEP && levels == old(Levels(winners, |winners|))
      ensures Priced(ep, levels, losersLevel, Count(winners, |winners|), pvp)
      ensures paid == if ep > 0 then Survivors(winners, |winners|) else []
      ensures Standings(winners) == AllRewarded(old(Standings(winners)), winners, ep, boost)
      ensures Standings(losers) == old(Standings(losers))
    {
      hide Gained, Rewarded, Payment, Survivors, BCharacter.Consistent, BCharacter.Now, Base, Levels, Count, Separate,
          Priced;
      SidesApart(winners, losers);
      SurvivorsDistinct(winners, |winners|);
      gainedEP := true;
      var count;
      levels, count := AddUp(winners);
      ep := Value(levels, losersLevel, count, rand);
      PayOut(winners, ep, boost);
    }

    /** The end of a round: once one side is dead, the other one is paid, and never again. */
    method NextRound(rand: nat, boost: real) returns (ep: int)
      requires Valid()
      modifies this`gainedEP, this`attackerLevel, this`defenderLevel, this`paid
      modifies Players()`experience, Players()`level, Players()`topLevel, Players()`buildPoints, Players()`granted
      ensures Valid() && gainedEP == (old(gainedEP) || Dead(attackers) || Dead(defenders))
      ensures old(gainedEP) || (!Dead(attackers) && !Dead(defenders)) ==> ep == 0
      ensures !old(gainedEP) && Dead(attackers) ==>
        defenderLevel == old(Levels(defenders, |defenders|)) && attackerLevel == old(attackerLevel)
        && Priced(ep, defenderLevel, attackerLevel, Count(defenders, |defenders|), pvp)
      ensures !old(gainedEP) && !Dead(attackers) && Dead(defenders) ==>
        attackerLevel == old(Levels(attackers, |attackers|)) && defenderLevel == old(defenderLevel)
        && Priced(ep, attackerLevel, defenderLevel, Count(attackers, |attackers|), pvp)
      ensures paid == old(paid) + (if ep <= 0 then [] else if Dead(attackers) then Survivors(defenders, |defenders|)
                                   else Survivors(attackers, |attackers|))
      ensures Standings(attackers) == if Dead(attackers) then old(Standings(attackers))
                                      else AllRewarded(old(Standings(attackers)), attackers, ep, boost)
      ensures Standings(defenders) ==
                if Dead(attackers) then AllRewarded(old(Standings(defenders)), defenders, ep, boost)
                else old(Standings(defenders))
    {
      hide Gained, Rewarded, Payment, Survivors, BCharacter.Consistent, BCharacter.Now, Levels, Separate,
        Characters, Dead, Distinct, Count, Priced, Standings, AllRewarded;
      NothingPaid(Standings(attackers), attackers, 0, boost);
      NothingPaid(Standings(defenders), defenders, 0, boost);
      Swapped(attackers, defenders);
      ep := 0;
      if gainedEP {
        return;
      }
      var element := 0;
      while element < |attackers| && attackers[element].health <= 0
        invariant element <= |attackers| && forall j :: 0 <= j < element ==> attackers[j].health <= 0
        modifies {}
      {
        element := element + 1;
      }
      DeadIs(attackers, element);
      if element == |attackers| {
        ep, defenderLevel := Win(defenders, attackers, attackerLevel, rand, boost);
        return;
      }
      element := 0;
      while element < |defenders| && defenders[element].health <= 0
        invariant element <= |defenders| && forall j :: 0 <= j < element ==> defenders[j].health <= 0
        modifies {}
      {
        element := element + 1;
      }
      DeadIs(defenders, element);
      if element == |defenders| {
        ep, attackerLevel := Win(attackers, defenders, defenderLevel, rand, boost);
      }
    }
  }
}
