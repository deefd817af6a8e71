/** Experience, levels and build points (roommgr/bcharacter.cpp), and what scrolls cost of them
    (roommgr/bscroll.cpp). */
module Experience {
  import opened Common
  import opened LinkedLists

  const EP_PER_LEVEL := 10000
  const MAX_LEVEL := 100
  const MAX_EXP_GAIN := 30000

  /** The level that belongs to an experience, without the limit. */
  function LevelOf(experience: int): int
    requires experience >= 0
  {
    experience / EP_PER_LEVEL + 1
  }

  predicate Milestone(level: int) {
    level in {3, 7, 15, 25, 50, 100, 150, 200, 300, 500, 750, 1000, 1500, 2000, 3000, 4000, 5000, 7500}
  }

  /** Where a character stands. */
  datatype Standing = Standing(experience: int, level: int, topLevel: int, buildPoints: int) {
    /** The level is the one of the experience, up to the limit, and was never higher than the highest. */
    predicate Consistent() {
      && experience >= 0 && level == Min(MAX_LEVEL, LevelOf(experience)) && level <= topLevel <= MAX_LEVEL
      && buildPoints >= 0
    }
  }

  /** What gaining, or losing, `exp` comes to, whatever the number of levels it goes up or down: the experience of one
      who is past the last level grows no more, and every level higher than the highest brings a build point. */
  function Gained(s: Standing, exp: int): (t: Standing)
    requires s.Consistent()
    ensures t.Consistent() && t.buildPoints - t.topLevel == s.buildPoints - s.topLevel
  {
    var experience := if exp < 0 then Max(0, s.experience + exp)
                      else if LevelOf(s.experience) > MAX_LEVEL then s.experience else s.experience + exp;
    var level := Min(MAX_LEVEL, LevelOf(experience));
    var topLevel := Max(s.topLevel, level);
    Standing(experience, level, topLevel, s.buildPoints + topLevel - s.topLevel)
  }

  /** All of a gain counts for one who is below the last level's end, and all of a loss down to 0. */
  lemma GainedIs(s: Standing, exp: int)
    requires s.Consistent()
    ensures exp >= 0 && s.experience < EP_PER_LEVEL * MAX_LEVEL ==> Gained(s, exp).experience == s.experience + exp
    ensures exp >= 0 && s.experience >= EP_PER_LEVEL * MAX_LEVEL ==> Gained(s, exp).experience == s.experience
    ensures exp < 0 ==> Gained(s, exp).experience == if s.experience + exp < 0 then 0 else s.experience + exp
  {
  }

  /** A level is 10000 of experience, the last one all that comes after. */
  lemma LevelIs(s: Standing)
    requires s.Consistent()
    ensures 1 <= s.level <= 100 && 10000 * (s.level - 1) <= s.experience
    ensures s.level < 100 ==> s.experience < 10000 * s.level
  {
  }

  /** What happens to a character: it gains or loses, or a scroll that costs some build points is tried. */
  datatype Event = Gain(exp: int) | Buy(cost: int)

  /** A standing, and the build points spent on the way to it. */
  datatype Ledger = Ledger(standing: Standing, spent: int)

  function Step(l: Ledger, e: Event): (m: Ledger)
    requires l.standing.Consistent() && (e.Buy? ==> e.cost >= 1)
    ensures m.standing.Consistent()
  {
    match e
    case Gain(exp) => Ledger(Gained(l.standing, exp), l.spent)
    case Buy(cost) =>
      if l.standing.buildPoints < cost then l
      else Ledger(l.standing.(buildPoints := l.standing.buildPoints - cost), l.spent + cost)
  }

  function Run(l: Ledger, events: seq<Event>): (m: Ledger)
    requires l.standing.Consistent() && forall i :: 0 <= i < |events| ==> events[i].Buy? ==> events[i].cost >= 1
    ensures m.standing.Consistent()
    decreases |events|
  {
    if events == [] then l else Run(Step(l, events[0]), events[1..])
  }

  /** Losing experience and winning it back brings nothing: over any run the build points held and spent grow by as
      much as the highest level does, and that goes no higher than the levels that were had. */
  lemma {:induction false} RunBalance(l: Ledger, events: seq<Event>, most: int)
    requires l.standing.Consistent() && forall i :: 0 <= i < |events| ==> events[i].Buy? ==> events[i].cost >= 1
    requires l.standing.topLevel <= most
    requires forall k :: 0 <= k <= |events| ==> Run(l, events[..k]).standing.level <= most
    ensures var m := Run(l, events);
            && m.standing.buildPoints + m.spent - (l.standing.buildPoints + l.spent)
               == m.standing.topLevel - l.standing.topLevel
            && 0 <= m.standing.buildPoints && l.spent <= m.spent && l.standing.topLevel <= m.standing.topLevel <= most
    decreases |events|
  {
    if events != [] {
      var next := Step(l, events[0]);
      RunOne(l, events);
      assert Run(l, events[..1]) == next;
      forall k | 0 <= k <= |events| - 1 ensures Run(next, events[1..][..k]).standing.level <= most {
        assert events[..k + 1][1..] == events[1..][..k] && events[..k + 1][0] == events[0];
        assert Run(l, events[..k + 1]).standing.level <= most;
      }
      RunBalance(next, events[1..], most);
    }
  }

  function Sum(events: seq<Event>): int {
    if events == [] then 0 else (if events[0].Gain? then events[0].exp else 0) + Sum(events[1..])
  }

  /** No gain is for one who is past the last level, and no loss is more than there is. */
  predicate Unclipped(l: Ledger, events: seq<Event>)
    requires l.standing.Consistent() && forall i :: 0 <= i < |events| ==> events[i].Buy? ==> events[i].cost >= 1
    decreases |events|
  {
    events == []
    || ((events[0].Gain? ==>
          if events[0].exp >= 0 then l.standing.experience < EP_PER_LEVEL * MAX_LEVEL
          else l.standing.experience + events[0].exp >= 0)
       && Unclipped(Step(l, events[0]), events[1..]))
  }

  /** Experience is the sum of what was gained and lost. */
  lemma {:induction false} RunSum(l: Ledger, events: seq<Event>)
    requires l.standing.Consistent() && forall i :: 0 <= i < |events| ==> events[i].Buy? ==> events[i].cost >= 1
    requires Unclipped(l, events)
    ensures Run(l, events).standing.experience == l.standing.experience + Sum(events)
    decreases |events|
  {
    if events != [] {
      if events[0].Gain? {
        GainedIs(l.standing, events[0].exp);
      }
      RunSum(Step(l, events[0]), events[1..]);
    }
  }

  lemma RunOne(l: Ledger, events: seq<Event>)
    requires l.standing.Consistent() && forall i :: 0 <= i < |events| ==> events[i].Buy? ==> events[i].cost >= 1
    requires events != []
    ensures Run(l, events[..1]) == Step(l, events[0])
  {
    assert events[..1] == [events[0]];
    assert [events[0]][1..] == [];
    assert Run(Step(l, events[0]), []) == Step(l, events[0]);
  }

  /** A gain of no more than the most one combat pays is worth three levels at most. */
  lemma ThreeLevels(s: Standing, exp: int)
    requires s.Consistent() && exp <= MAX_EXP_GAIN
    ensures Gained(s, exp).level <= s.level + 3
  {
    if exp >= 0 {
      assert (s.experience + exp) / EP_PER_LEVEL <= (s.experience + 3 * EP_PER_LEVEL) / EP_PER_LEVEL;
      assert (s.experience + 3 * EP_PER_LEVEL) / EP_PER_LEVEL == s.experience / EP_PER_LEVEL + 3;
    } else {
      assert Max(0, s.experience + exp) / EP_PER_LEVEL <= s.experience / EP_PER_LEVEL;
    }
  }

  datatype Outcome = Handled | Redundant | SkillFailure | TooExpensive

  class BCharacter {
    /** Whether a player is behind it, and not a creature. */
    const isPlayer: bool
    var experience: int
    var level: int
    var topLevel: int
    var buildPoints: int
    var skills: map<int, int>
    var spells: set<int>
    /** Build points spent so far, and the levels at which something was granted. */
    ghost var spent: int
    ghost var granted: seq<int>

    constructor (isPlayer: bool)
      ensures Consistent() && this.isPlayer == isPlayer && Now() == Standing(0, 1, 1, 0) && granted == [] && spent == 0
    {
      this.isPlayer := isPlayer;
      experience, level, topLevel, buildPoints, skills, spells := 0, 1, 1, 0, map[], {};
      spent, granted := 0, [];
    }

    function GetSkill(skill: int): int
      reads this
    {
      if skill in skills then skills[skill] else 0
    }

    function Now(): Standing
      reads this
    {
      Standing(experience, level, topLevel, buildPoints)
    }

    ghost predicate Consistent()
      reads this
    {
      Now().Consistent() && Granted()
    }

    /** Each milestone at most once, and none above the highest level there was. */
    ghost predicate Granted()
      reads this`granted, this`topLevel
    {
      Distinct(granted) && forall i :: 0 <= i < |granted| ==> Milestone(granted[i]) && granted[i] <= topLevel
    }

    function GetLevel(): (r: int)
      reads this
      ensures r >= 1 && (experience >= 0 ==> r == LevelOf(experience))
    {
      // the division of C, which goes towards zero
      var level := (if experience >= 0 then experience / EP_PER_LEVEL else -(-experience / EP_PER_LEVEL)) + 1;
      if level <= 0 then 1 else level
    }

    /** One level up. Only a level higher than the highest one so far brings a build point, and rewards. */
    method AdvanceLevel()
      requires isPlayer
      modifies this`experience, this`level, this`buildPoints, this`granted
      ensures level == old(level) + 1 && experience == Max(old(experience), EP_PER_LEVEL * old(level))
      ensures buildPoints == old(buildPoints) + (if level > topLevel then 1 else 0)
      ensures granted == old(granted) + (if level > topLevel && Milestone(level) then [level] else [])
    {
      var neededExp := EP_PER_LEVEL * level;
      level := level + 1;
      if experience < neededExp {
        experience := neededExp;
      }
      if level <= topLevel {
        return;
      }
      buildPoints := buildPoints + 1;
      if Milestone(level) {
        granted := granted + [level];
      }
    }

    method GainExperience(exp: int)
      requires Consistent()
      modifies this`experience, this`level, this`topLevel, this`buildPoints, this`granted
      ensures Consistent() && old(granted) <= granted
      ensures Now() == if isPlayer then Gained(old(Now()), exp) else old(Now())
      ensures isPlayer && exp >= 0 ==>
                experience == old(experience) + if old(experience) < EP_PER_LEVEL * MAX_LEVEL then exp else 0
      ensures isPlayer && exp < 0 ==> experience == if old(experience) + exp < 0 then 0 else old(experience) + exp
      ensures isPlayer ==>
              && 10000 * (level - 1) <= experience && (level < 100 ==> experience < 10000 * level) && 1 <= level <= 100
              && topLevel == (if level > old(topLevel) then level else old(topLevel))
              && buildPoints - topLevel == old(buildPoints - topLevel)
      ensures forall l :: l in granted <==> l in old(granted) || (Milestone(l) && old(topLevel) < l <= topLevel)
    {
      if !isPlayer {
        return;
      }
      GainedIs(Now(), exp);
      LevelIs(Gained(Now(), exp));
      if exp >= 0 {
        Gain(exp);
      } else {
        experience := experience + exp;
        if experience < 0 {
          experience := 0;
        }
        var tLevel := GetLevel();
        if tLevel >= 1 && tLevel < level {
          level := tLevel;
        }
      }
    }

    method Gain(exp: int)
      requires Consistent() && isPlayer && exp >= 0
      modifies this`experience, this`level, this`topLevel, this`buildPoints, this`granted
      ensures Consistent() && old(granted) <= granted
      ensures Now() == Gained(old(Now()), exp)
      ensures forall l :: l in granted <==> l in old(granted) || (Milestone(l) && old(topLevel) < l <= topLevel)
    {
      level := GetLevel();
      if level > MAX_LEVEL {
        level := MAX_LEVEL;
      } else {
        experience := experience + exp;
      }
      ghost var goal := experience;
      var neededExp := EP_PER_LEVEL * level;
      while experience >= neededExp && level < MAX_LEVEL
        invariant neededExp == EP_PER_LEVEL * level && experience == goal && old(level) <= level <= MAX_LEVEL
        invariant level <= Max(old(level), LevelOf(goal))
        invariant buildPoints == old(buildPoints) + Max(0, level - topLevel)
        invariant topLevel == old(topLevel) && old(granted) <= granted
        invariant Distinct(granted)
        invariant forall l :: l in granted <==> l in old(granted) || (Milestone(l) && topLevel < l <= level)
        invariant forall i :: 0 <= i < |granted| ==> Milestone(granted[i]) && granted[i] <= Max(level, topLevel)
        decreases MAX_LEVEL - level
      {
        AdvanceLevel();
        neededExp := EP_PER_LEVEL * level;
      }
      if level > topLevel {
        topLevel := level;
      }
    }
  }

  /** A spell as the table of spells has it: the skill it takes, and how much of it. */
  datatype SpellInfo = SpellInfo(skillType: int, skillLevel: int)

  class BScroll {
    const level: int
    const spell: int
    const skill: int

    constructor (level: int, spell: int, skill: int)
      ensures this.level == level && this.spell == spell && this.skill == skill
    {
      this.level, this.spell, this.skill := level, spell, skill;
    }

    /** A scroll is memorized by `bchar`. A spell costs nothing; a skill is learned one level at a time, for `bpCost`,
        which is at least 1. */
    method BeMemorized(bchar: BCharacter, theSpell: SpellInfo, bpCost: int) returns (r: Outcome)
      requires bchar.Consistent() && bpCost >= 1
      modifies bchar`skills, bchar`spells, bchar`buildPoints, bchar`spent
      ensures bchar.Consistent() && bchar.buildPoints + bchar.spent == old(bchar.buildPoints + bchar.spent)
      ensures r == Handled <==>
                && (bchar.isPlayer ==> bchar.level >= level)
                && (if spell > -1 then spell !in old(bchar.spells)
                   && (if theSpell.skillType in old(bchar.skills) then old(bchar.skills)[theSpell.skillType] else 0)
                      >= theSpell.skillLevel
                    else skill > -1 ==>
                      && (if skill in old(bchar.skills) then old(bchar.skills)[skill] else 0) == level - 1
                      && old(bchar.buildPoints) >= bpCost)
      ensures bchar.spells == old(bchar.spells) + if r == Handled && spell > -1 then {spell} else {}
      ensures bchar.skills == if r == Handled && spell <= -1 < skill then old(bchar.skills)[skill := level]
              else old(bchar.skills)
      ensures bchar.spent == old(bchar.spent) + if r == Handled && spell <= -1 < skill then bpCost else 0
    {
      if bchar.isPlayer && bchar.level < level {
        return TooExpensive;
      }
      if spell > -1 {
        if spell in bchar.spells {
          return Redundant;
        }
        if bchar.GetSkill(theSpell.skillType) < theSpell.skillLevel {
          return SkillFailure;
        }
        bchar.spells := bchar.spells + {spell};
      } else if skill > -1 {
        if bchar.GetSkill(skill) >= level {
          return Redundant;
        }
        if bchar.GetSkill(skill) < level - 1 {
          return SkillFailure;
        }
        if bchar.buildPoints < bpCost {
          return TooExpensive;
        }
        bchar.skills := bchar.skills[skill := level];
        bchar.buildPoints := bchar.buildPoints - bpCost;
        bchar.spent := bchar.spent + bpCost;
      }
      return Handled;
    }
  }
}
