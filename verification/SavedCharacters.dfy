/** A saved character (global/cscharacter.cpp): printed, and read back from what was printed. */
module SavedCharacters {
  import opened Common
  import opened SaveText
  import opened SaveItems

  datatype Stats = Stats(
    experiencePoints: int, buildPoints: int, hometown: int, strength: int, dexterity: int, intelligence: int,
    quickness: int, endurance: int, health: int, maxHealth: int, hunger: int, thirst: int, alignment: int, value: int,
    mana: int, physicalState: int)

  datatype Record = Record(
    stealCount: int, stealUnserved: int, killCount: int, killUnserved: int, peaceful: int, warnCount: int,
    race: int, sex: int, skinColor: int, headNumber: int)

  datatype Face = Face(
    hairNumber: int, hairColor: int, browNumber: int, faceHairNumber: int, eyeNumber: int, eyeColor: int,
    noseNumber: int, mouthNumber: int, earNumber: int)

  datatype Character = Character(
    loginName: string, creationTime: string, classID: string, characterName: string, title: string,
    level: int, maxLevel: int, stats: Stats, skills: string, spells: string, record: Record, face: Face,
    lastRoom: int, lastDungeon: int, x: int, y: int, loop: int, bio: string, girth: int, height: int, one: int,
    lastCrimeTime: string, affects: seq<Affect>, items: seq<Item>,
    playerKills: int, NPCKills: int, oldLevel: int, stamina: int, writeTime: string)

  function StatsOf(s: Stats): seq<int> {
    [s.experiencePoints, s.buildPoints, s.hometown, s.strength, s.dexterity, s.intelligence, s.quickness, s.endurance,
     s.health, s.maxHealth, s.hunger, s.thirst, s.alignment, s.value, s.mana, s.physicalState]
  }

  function RecordOf(r: Record): seq<int> {
    [r.stealCount, r.stealUnserved, r.killCount, r.killUnserved, r.peaceful, r.warnCount, r.race, r.sex, r.skinColor,
        r.headNumber]
  }

  function FaceOf(f: Face): seq<int> {
    [f.hairNumber, f.hairColor, f.browNumber, f.faceHairNumber, f.eyeNumber, f.eyeColor, f.noseNumber, f.mouthNumber,
        f.earNumber]
  }

  const NO_FACE := Face(-1, -1, -1, -1, -1, -1, -1, -1, -1)

  // ---- two numbers on a line

  function Pair(a: int, b: int): string {
    Decimal(a) + (":" + Decimal(b))
  }

  /** The numbers on both sides of a colon; without one, the number and `missing`. */
  function PairOf(line: string, missing: int): (int, int) {
    if ':' in line then (Atoi(line), Atoi(AfterChar(':', line))) else (Atoi(line), missing)
  }

  lemma PairIsRead(a: int, b: int, missing: int)
    ensures PairOf(Pair(a, b), missing) == (a, b)
  {
    hide Decimal, Atoi, AfterChar;
    NumberThen(a, ':', Decimal(b));
    AtoiDecimal(b, "");
    assert Decimal(b) + "" == Decimal(b);
    assert Pair(a, b)[|Decimal(a)|] == ':';
  }

  lemma PairClean(a: int, b: int)
    requires IsInt32(a) && IsInt32(b)
    ensures Clean(Pair(a, b))
  {
    hide Decimal;
    DecimalShort(a);
    DecimalShort(b);
  }

  // ---- the text

  function Names(ch: Character): seq<string> {
    [ch.loginName, ch.creationTime, ch.classID, ch.characterName, ch.title]
  }

  function Kills(ch: Character): seq<int> {
    [ch.playerKills, ch.NPCKills, ch.oldLevel, ch.stamina]
  }

  function CharacterText(ch: Character): string {
    Strings(Names(ch),
        Ln(Pair(ch.level, ch.maxLevel), Numbers(StatsOf(ch.stats), Strings([ch.skills, ch.spells], Middle(ch)))))
  }

  function Middle(ch: Character): string {
    Numbers(RecordOf(ch.record),
        Numbers(FaceOf(ch.face),
          Ln(Pair(ch.lastRoom, ch.lastDungeon), Numbers([ch.x, ch.y, ch.loop], Strings([ch.bio], Last(ch))))))
  }

  function Last(ch: Character): string {
    Numbers([ch.girth, ch.height, ch.one], Strings([ch.lastCrimeTime], AffectsText(ch.affects, Inventory(ch))))
  }

  function Inventory(ch: Character): string {
    Numbers([|ch.items|], Items(ch.items, Numbers(Kills(ch), Strings([ch.writeTime], ""))))
  }

  /** What comes first, in order. */
  function TopLines(ch: Character): seq<string> {
    [ch.loginName, ch.creationTime, ch.classID, ch.characterName, ch.title, Pair(ch.level, ch.maxLevel),
     Decimal(ch.stats.experiencePoints), Decimal(ch.stats.buildPoints), Decimal(ch.stats.hometown),
     Decimal(ch.stats.strength), Decimal(ch.stats.dexterity), Decimal(ch.stats.intelligence),
     Decimal(ch.stats.quickness), Decimal(ch.stats.endurance), Decimal(ch.stats.health), Decimal(ch.stats.maxHealth),
     Decimal(ch.stats.hunger), Decimal(ch.stats.thirst), Decimal(ch.stats.alignment), Decimal(ch.stats.value),
     Decimal(ch.stats.mana), Decimal(ch.stats.physicalState), ch.skills, ch.spells]
  }

  function MiddleLines(ch: Character): seq<string> {
    [Decimal(ch.record.stealCount), Decimal(ch.record.stealUnserved), Decimal(ch.record.killCount),
     Decimal(ch.record.killUnserved), Decimal(ch.record.peaceful), Decimal(ch.record.warnCount),
     Decimal(ch.record.race), Decimal(ch.record.sex), Decimal(ch.record.skinColor), Decimal(ch.record.headNumber),
     Decimal(ch.face.hairNumber), Decimal(ch.face.hairColor), Decimal(ch.face.browNumber),
     Decimal(ch.face.faceHairNumber), Decimal(ch.face.eyeNumber), Decimal(ch.face.eyeColor),
     Decimal(ch.face.noseNumber), Decimal(ch.face.mouthNumber), Decimal(ch.face.earNumber),
     Pair(ch.lastRoom, ch.lastDungeon), Decimal(ch.x), Decimal(ch.y), Decimal(ch.loop), ch.bio,
     Decimal(ch.girth), Decimal(ch.height), Decimal(ch.one), ch.lastCrimeTime, Decimal(|ch.affects|)]
  }

  /** The lines of a character, in order, around its affects and its items. */
  lemma CharacterLines(ch: Character)
    ensures CharacterText(ch) ==
            Strings(TopLines(ch), Strings(MiddleLines(ch), Affects(ch.affects, Strings([Decimal(|ch.items|)],
              Items(ch.items, Strings(
                [Decimal(ch.playerKills), Decimal(ch.NPCKills), Decimal(ch.oldLevel), Decimal(ch.stamina),
                 ch.writeTime],
                ""))))))
  {
    hide Ln, Decimal, Items, Affects, Numbers, Strings, Middle;
    InventoryLines(ch);
    MiddleIs(ch);
    TopIs(ch);
  }

  lemma InventoryLines(ch: Character)
    ensures Inventory(ch) == Strings([Decimal(|ch.items|)], Items(ch.items, Strings(
              [Decimal(ch.playerKills), Decimal(ch.NPCKills), Decimal(ch.oldLevel), Decimal(ch.stamina), ch.writeTime],
              "")))
  {
    hide Ln, Decimal, Items, Numbers, Strings;
    NumbersAre(Kills(ch), Strings([ch.writeTime], ""));
    StringsAppend(Decimals(Kills(ch)), [ch.writeTime], "");
    assert Decimals(Kills(ch)) + [ch.writeTime] ==
        [Decimal(ch.playerKills), Decimal(ch.NPCKills), Decimal(ch.oldLevel), Decimal(ch.stamina), ch.writeTime];
    NumbersAre([|ch.items|], Items(ch.items, Numbers(Kills(ch), Strings([ch.writeTime], ""))));
    assert Decimals([|ch.items|]) == [Decimal(|ch.items|)];
  }

  lemma MiddleIs(ch: Character)
    ensures Middle(ch) == Strings(MiddleLines(ch), Affects(ch.affects, Inventory(ch)))
  {
    hide Ln, Decimal, Affects, Numbers, Strings, Pair, Inventory;
    var end := Affects(ch.affects, Inventory(ch));
    NumbersAre([|ch.affects|], end);
    assert Decimals([|ch.affects|]) == [Decimal(|ch.affects|)];
    var a := [ch.lastCrimeTime] + [Decimal(|ch.affects|)];
    StringsAppend([ch.lastCrimeTime], [Decimal(|ch.affects|)], end);
    NumbersAre([ch.girth, ch.height, ch.one], Strings(a, end));
    var b := Decimals([ch.girth, ch.height, ch.one]) + a;
    StringsAppend(Decimals([ch.girth, ch.height, ch.one]), a, end);
    var c := [ch.bio] + b;
    StringsAppend([ch.bio], b, end);
    NumbersAre([ch.x, ch.y, ch.loop], Strings(c, end));
    var d := Decimals([ch.x, ch.y, ch.loop]) + c;
    StringsAppend(Decimals([ch.x, ch.y, ch.loop]), c, end);
    var e := [Pair(ch.lastRoom, ch.lastDungeon)] + d;
    LineBefore(Pair(ch.lastRoom, ch.lastDungeon), d, end);
    NumbersAre(FaceOf(ch.face), Strings(e, end));
    var f := Decimals(FaceOf(ch.face)) + e;
    StringsAppend(Decimals(FaceOf(ch.face)), e, end);
    NumbersAre(RecordOf(ch.record), Strings(f, end));
    StringsAppend(Decimals(RecordOf(ch.record)), f, end);
    assert Decimals(RecordOf(ch.record)) + f == MiddleLines(ch);
  }

  lemma TopIs(ch: Character)
    ensures CharacterText(ch) == Strings(TopLines(ch), Middle(ch))
  {
    hide Ln, Decimal, Numbers, Strings, Pair, Middle;
    var end := Middle(ch);
    var a := [ch.skills, ch.spells];
    NumbersAre(StatsOf(ch.stats), Strings(a, end));
    var b := Decimals(StatsOf(ch.stats)) + a;
    StringsAppend(Decimals(StatsOf(ch.stats)), a, end);
    var c := [Pair(ch.level, ch.maxLevel)] + b;
    LineBefore(Pair(ch.level, ch.maxLevel), b, end);
    StringsAppend(Names(ch), c, end);
    assert Names(ch) + c == TopLines(ch);
  }

  predicate AllInt32(ns: seq<int>) {
    forall n <- ns :: IsInt32(n)
  }

  predicate AllClean(ss: seq<string>) {
    forall i :: 0 <= i < |ss| ==> Clean(ss[i])
  }

  predicate Savable(ch: Character) {
    && AllClean(Names(ch)) && AllClean([ch.skills, ch.spells]) && AllClean([ch.bio]) && AllClean([ch.lastCrimeTime])
       && AllClean([ch.writeTime])
    && IsInt32(ch.level) && IsInt32(ch.maxLevel) && IsInt32(ch.lastRoom) && IsInt32(ch.lastDungeon)
    && AllInt32(StatsOf(ch.stats)) && AllInt32(RecordOf(ch.record)) && AllInt32(FaceOf(ch.face))
    && AllInt32([ch.x, ch.y, ch.loop]) && AllInt32([ch.girth, ch.height, ch.one]) && AllInt32(Kills(ch))
    && |ch.affects| < 0x8000_0000 && (forall a <- ch.affects :: AffectFits(a))
    && |ch.items| < 0x8000_0000 && (forall i :: 0 <= i < |ch.items| ==> Printable(ch.items[i]))
  }

  // ---- printing

  method PackStrings(p: PackedData, s: seq<string>, ghost rest: string)
    modifies p
    ensures p.text + rest == old(p.text) + Strings(s, rest)
  {
    hide Ln;
    var i := 0;
    while i < |s|
      invariant 0 <= i <= |s| && p.text + Strings(s[i..], rest) == old(p.text) + Strings(s, rest)
    {
      assert s[i..][1..] == s[i + 1..];
      p.Print(s[i], Strings(s[i + 1..], rest));
      i := i + 1;
    }
    assert s[i..] == [];
  }

  method PackData(ch: Character) returns (p: PackedData)
    ensures fresh(p) && p.text == CharacterText(ch)
  {
    hide Ln, Numbers, Strings, Items, AffectsText;
    p := new PackedData();
    PackStrings(p, Names(ch),
        Ln(Pair(ch.level, ch.maxLevel), Numbers(StatsOf(ch.stats), Strings([ch.skills, ch.spells], Middle(ch)))));
    p.Print(Pair(ch.level, ch.maxLevel), Numbers(StatsOf(ch.stats), Strings([ch.skills, ch.spells], Middle(ch))));
    p.PrintNumbers(StatsOf(ch.stats), Strings([ch.skills, ch.spells], Middle(ch)));
    PackStrings(p, [ch.skills, ch.spells], Middle(ch));
    PackMiddle(p, ch);
    PackLast(p, ch);
    assert p.text + "" == p.text && "" + CharacterText(ch) == CharacterText(ch);
  }

  method PackMiddle(p: PackedData, ch: Character)
    modifies p
    ensures p.text + Last(ch) == old(p.text) + Middle(ch)
  {
    hide Ln, Numbers, Strings, Last;
    ghost var room :=
        Ln(Pair(ch.lastRoom, ch.lastDungeon), Numbers([ch.x, ch.y, ch.loop], Strings([ch.bio], Last(ch))));
    p.PrintNumbers(RecordOf(ch.record), Numbers(FaceOf(ch.face), room));
    p.PrintNumbers(FaceOf(ch.face), room);
    p.Print(Pair(ch.lastRoom, ch.lastDungeon), Numbers([ch.x, ch.y, ch.loop], Strings([ch.bio], Last(ch))));
    p.PrintNumbers([ch.x, ch.y, ch.loop], Strings([ch.bio], Last(ch)));
    PackStrings(p, [ch.bio], Last(ch));
  }

  method PackLast(p: PackedData, ch: Character)
    modifies p
    ensures p.text + "" == old(p.text) + Last(ch)
  {
    hide Ln, Numbers, Strings, Items, AffectsText;
    ghost var end := Numbers(Kills(ch), Strings([ch.writeTime], ""));
    p.PrintNumbers([ch.girth, ch.height, ch.one], Strings([ch.lastCrimeTime], AffectsText(ch.affects, Inventory(ch))));
    PackStrings(p, [ch.lastCrimeTime], AffectsText(ch.affects, Inventory(ch)));
    p.PrintAffects(ch.affects, Inventory(ch));
    p.PrintNumbers([|ch.items|], Items(ch.items, end));
    p.PackItems(ch.items, end);
    p.PrintNumbers(Kills(ch), Strings([ch.writeTime], ""));
    PackStrings(p, [ch.writeTime], "");
  }

  // ---- reading

  method ReadStrings(c: Cursor, buffer: string, count: nat, ghost good: bool, ghost s: seq<string>, ghost rest: string)
    returns (line: string, rs: seq<string>)
    requires c.Valid() && (good ==> |s| == count && AllClean(s) && c.Rest() == Strings(s, rest))
    modifies c
    ensures c.Valid() && |rs| == count && (good ==> rs == s && c.Rest() == rest)
  {
    hide Ln;
    line, rs := buffer, [];
    while |rs| < count
      invariant c.Valid() && |rs| <= count
      invariant good ==> rs == s[..|rs|] && c.Rest() == Strings(s[|rs|..], rest)
      decreases count - |rs|
    {
      ghost var i := |rs|;
      assert good ==> s[i..][1..] == s[i + 1..];
      line := c.Line(line, good, if good then s[i] else "", if good then Strings(s[i + 1..], rest) else "");
      rs := rs + [line];
    }
    assert good ==> s[..count] == s && s[count..] == [];
  }

  method ReadPair(c: Cursor, buffer: string, ghost good: bool, ghost a: int, ghost b: int, ghost rest: string)
    returns (line: string)
    requires c.Valid() && (good ==> IsInt32(a) && IsInt32(b) && c.Rest() == Ln(Pair(a, b), rest))
    modifies c
    ensures c.Valid() && (good ==> line == Pair(a, b) && c.Rest() == rest)
  {
    hide Ln, Pair;
    if good {
      PairClean(a, b);
    }
    line := c.Line(buffer, good, Pair(a, b), rest);
  }

  const NEW := Character("", "", "", "", "", -1, -1,
      Stats(-1, -1, -1, -1, -1, -1, -1, -1, -1, -1, -1, -1, -1, -1, -1, -1), "", "",
                         Record(-1, -1, -1, -1, -1, -1, -1, -1, -1, -1), NO_FACE, -1, -1, -1, -1, -1, "", -1, -1, -1,
                             "",
                         [], [], -1, -1, -1, -1, "")

  /** What is read first: names, levels, stats, skills and spells. */
  ghost predicate SameTop(r: Character, ch: Character) {
    && Names(r) == Names(ch) && r.level == ch.level && r.maxLevel == ch.maxLevel && r.stats == ch.stats
    && r.skills == ch.skills && r.spells == ch.spells
  }

  ghost predicate SameMiddle(r: Character, ch: Character) {
    && r.record == ch.record && r.face == ch.face && r.lastRoom == ch.lastRoom && r.lastDungeon == ch.lastDungeon
    && r.x == ch.x && r.y == ch.y && r.loop == ch.loop && r.bio == ch.bio
  }

  method ReadTop(c: Cursor, ghost good: bool, ghost ch: Character) returns (line: string, r: Character)
    requires c.Valid() && (good ==> Savable(ch) && c.Rest() == CharacterText(ch))
    modifies c
    ensures c.Valid() && (good ==> SameTop(r, ch) && c.Rest() == Middle(ch))
  {
    hide Ln, Numbers, Strings, Middle, Pair;
    ghost var skills := Strings([ch.skills, ch.spells], Middle(ch));
    ghost var stats := Numbers(StatsOf(ch.stats), skills);
    var names, n, s;
    line, names := ReadStrings(c, "", 5, good, Names(ch), Ln(Pair(ch.level, ch.maxLevel), stats));
    line := ReadPair(c, line, good, ch.level, ch.maxLevel, stats);
    var levels := PairOf(line, Atoi(line));
    PairIsRead(ch.level, ch.maxLevel, Atoi(line));
    line, n := ReadNumbers(c, line, 16, good, StatsOf(ch.stats), skills);
    line, s := ReadStrings(c, line, 2, good, [ch.skills, ch.spells], Middle(ch));
    r := NEW.(loginName := names[0], creationTime := names[1], classID := names[2], characterName := names[3], title :=
        names[4],
              level := levels.0, maxLevel := levels.1, stats := StatsFrom(n), skills := s[0], spells := s[1]);
  }

  function StatsFrom(n: seq<int>): Stats
    requires |n| == 16
  {
    Stats(n[0], n[1], n[2], n[3], n[4], n[5], n[6], n[7], n[8], n[9], n[10], n[11], n[12], n[13], n[14], n[15])
  }

  /** Without a head there is no face to read. */
  method ReadFace(c: Cursor, buffer: string, headNumber: int, ghost good: bool, ghost face: Face, ghost rest: string)
    returns (line: string, r: Face)
    requires c.Valid()
    requires good ==> headNumber != -1 && AllInt32(FaceOf(face)) && c.Rest() == Numbers(FaceOf(face), rest)
    modifies c
    ensures c.Valid() && (good ==> r == face && c.Rest() == rest)
    ensures headNumber == -1 ==> r == NO_FACE && c.at == old(c.at) && c.size == old(c.size)
  {
    if headNumber == -1 {
      return buffer, NO_FACE;
    }
    hide Numbers;
    var n;
    line, n := ReadNumbers(c, buffer, 9, good, FaceOf(face), rest);
    r := Face(n[0], n[1], n[2], n[3], n[4], n[5], n[6], n[7], n[8]);
  }

  /** What a character without a head is read as: the lines of its face are taken for what comes after them. */
  ghost predicate Shifted(r: Character, ch: Character) {
    && r.record == ch.record && r.face == NO_FACE && r.lastRoom == ch.face.hairNumber && r.lastDungeon == 0
    && r.x == ch.face.hairColor && r.y == ch.face.browNumber && r.loop == ch.face.faceHairNumber
    && r.bio == Decimal(ch.face.eyeNumber)
  }

  /** The one thing to which that does no harm: a character of which nothing is set from its face on. */
  predicate Unset(ch: Character) {
    UnsetPlace(ch) && UnsetRest(ch)
  }

  predicate UnsetPlace(ch: Character) {
    ch.face == NO_FACE && ch.lastRoom == ch.x == ch.y == ch.loop == -1 && ch.lastDungeon == 0 && ch.bio == Decimal(-1)
  }

  predicate UnsetRest(ch: Character) {
    && ch.girth == ch.height == ch.one == -1 && ch.lastCrimeTime == Decimal(-1) && ch.affects == [] && ch.items == []
    && ch.playerKills == ch.NPCKills == ch.oldLevel == ch.stamina == -1 && ch.writeTime == Decimal(-1)
  }

  lemma OneString(l: string, rest: string)
    ensures Strings([l], rest) == Ln(l, rest)
  {
    assert [l][1..] == [];
  }

  /** The face as the lines that follow see it. */
  lemma FaceSplit(f: Face, rest: string)
    ensures Numbers(FaceOf(f), rest) ==
              Ln(Decimal(f.hairNumber), Numbers([f.hairColor, f.browNumber, f.faceHairNumber],
                 Strings([Decimal(f.eyeNumber)], Numbers(FaceOf(f)[5..], rest))))
  {
    hide Ln, Decimal;
    var n := FaceOf(f);
    assert n[1..][0] == n[1] && n[1..][1..] == n[2..] && n[2..][1..] == n[3..] && n[3..][1..] == n[4..]
        && n[4..][1..] == n[5..];
    var (s, t) := ([f.hairColor, f.browNumber, f.faceHairNumber],
        Strings([Decimal(f.eyeNumber)], Numbers(n[5..], rest)));
    assert s[1..] == [f.browNumber, f.faceHairNumber] && s[1..][1..] == [f.faceHairNumber] && s[1..][1..][1..] == [];
    assert Numbers(n[4..], rest) == Ln(Decimal(n[4]), Numbers(n[5..], rest));
    OneString(Decimal(f.eyeNumber), Numbers(n[5..], rest));
    assert t == Numbers(n[4..], rest);
    assert Numbers([f.faceHairNumber], t) == Numbers(n[3..], rest);
    assert Numbers([f.browNumber, f.faceHairNumber], t) == Numbers(n[2..], rest);
  }

  lemma NoColon(n: int, missing: int)
    requires IsInt32(n)
    ensures PairOf(Decimal(n), missing) == (n, missing) && Clean(Decimal(n))
  {
    DecimalClean(n);
    AtoiDecimal(n, "");
    assert Decimal(n) + "" == Decimal(n);
    assert AllDigits(Digits(if n < 0 then -n else n));
  }

  /** What is to be read last: what there is of it, and the lines that count it. */
  datatype Tail = Tail(three: seq<int>, lastCrimeTime: string, affectCount: string, affects: seq<Affect>,
      itemCount: int,
                       items: seq<Item>, kills: seq<int>, writeTime: string, rest: string)

  function TailText(t: Tail): string {
    Numbers(t.three, Strings([t.lastCrimeTime], Ln(t.affectCount, Affects(t.affects, ItemsOf(t)))))
  }

  function ItemsOf(t: Tail): string {
    Numbers([t.itemCount], Items(t.items, Numbers(t.kills, Strings([t.writeTime], t.rest))))
  }

  predicate Readable(t: Tail) {
    && |t.three| == 3 && AllInt32(t.three) && Clean(t.lastCrimeTime) && Clean(t.affectCount)
    && Says(Atoi(t.affectCount), |t.affects|) && (forall a <- t.affects :: AffectFits(a))
    && IsInt32(t.itemCount) && Says(t.itemCount, |t.items|)
       && (forall i :: 0 <= i < |t.items| ==> Printable(t.items[i]))
    && |t.kills| == 4 && AllInt32(t.kills) && Clean(t.writeTime)
  }

  function WholeTail(ch: Character): Tail {
    Tail([ch.girth, ch.height, ch.one], ch.lastCrimeTime, Decimal(|ch.affects|), ch.affects, |ch.items|, ch.items,
         Kills(ch), ch.writeTime, "")
  }

  lemma WholeIsLast(ch: Character)
    requires Savable(ch)
    ensures TailText(WholeTail(ch)) == Last(ch) && Readable(WholeTail(ch))
  {
    hide Ln, Numbers, Strings, Affects, Items, AffectFits, Printable, Decimal, Atoi;
    AffectsAre(ch.affects, Inventory(ch));
    CountIsRead(|ch.affects|);
    assert Clean([ch.lastCrimeTime][0]) && Clean([ch.writeTime][0]);
  }

  /** What is left in the end of a character without a head, if what was read so far was nothing set. */
  function ShiftedTail(ch: Character): Tail {
    Tail([-1, -1, -1], Decimal(-1), Pair(-1, 0), [], -1, [], [-1, -1, -1, ch.girth], Decimal(ch.height),
         Numbers([ch.one], Strings([ch.lastCrimeTime], AffectsText(ch.affects, Inventory(ch)))))
  }

  /** What the face leaves for the end. */
  function AfterEye(ch: Character): string {
    Numbers(FaceOf(ch.face)[5..],
        Ln(Pair(ch.lastRoom, ch.lastDungeon), Numbers([ch.x, ch.y, ch.loop], Strings([ch.bio], Last(ch)))))
  }

  lemma {:induction false} NumbersJoin(a: seq<int>, b: seq<int>, rest: string)
    ensures Numbers(a + b, rest) == Numbers(a, Numbers(b, rest))
  {
    hide Ln, Decimal;
    if a == [] {
      assert a + b == b;
    } else {
      assert (a + b)[1..] == a[1..] + b;
      NumbersJoin(a[1..], b, rest);
    }
  }

  /** A number that is read as a line. */
  lemma NumberIsLine(n: int, rest: string)
    ensures Strings([Decimal(n)], rest) == Numbers([n], rest)
  {
    hide Ln, Decimal;
    OneString(Decimal(n), rest);
    OneNumber(n, rest);
  }

  /** The lines from a character's place on, if nothing of it is set, up to those of its end. */
  lemma PlaceLines(ch: Character, z: string)
    requires UnsetPlace(ch)
    ensures Numbers([ch.x, ch.y, ch.loop], Strings([ch.bio], Numbers([ch.girth, ch.height, ch.one], z)))
            == Numbers([-1], Numbers([-1, -1, -1, ch.girth], Strings([Decimal(ch.height)], Numbers([ch.one], z))))
  {
    hide Ln, Decimal, Numbers, Strings;
    var (g, h, one) := (ch.girth, ch.height, ch.one);
    NumberIsLine(-1, Numbers([g, h, one], z));
    NumberIsLine(h, Numbers([one], z));
    NumbersJoin([-1], [g, h, one], z);
    NumbersJoin([-1, -1, -1], [-1] + [g, h, one], z);
    NumbersJoin([h], [one], z);
    NumbersJoin([-1, -1, -1, g], [h] + [one], z);
    NumbersJoin([-1], [-1, -1, -1, g] + ([h] + [one]), z);
    assert [-1, -1, -1] + ([-1] + [g, h, one]) == [-1] + ([-1, -1, -1, g] + ([h] + [one]));
  }

  lemma ShiftedIsLeft(ch: Character)
    requires Savable(ch) && UnsetPlace(ch)
    ensures TailText(ShiftedTail(ch)) == AfterEye(ch) && Readable(ShiftedTail(ch))
  {
    hide Ln, AffectsText, Inventory, Decimal, Atoi, Pair, Printable, Numbers, Strings;
    var z := Strings([ch.lastCrimeTime], AffectsText(ch.affects, Inventory(ch)));
    PairClean(-1, 0);
    CountIsRead(-1);
    CountIsRead(ch.height);
    PairCount(-1, 0);
    PlaceLines(ch, z);
    var after := Ln(Pair(-1, 0), Numbers([ch.x, ch.y, ch.loop], Strings([ch.bio], Last(ch))));
    assert FaceOf(ch.face)[5..] == [-1, -1, -1] + [-1];
    NumbersJoin([-1, -1, -1], [-1], after);
    NumberIsLine(-1, after);
  }

  lemma PairCount(a: int, b: int)
    ensures Atoi(Pair(a, b)) == a
  {
    hide Decimal, Atoi, AfterChar;
    NumberThen(a, ':', Decimal(b));
  }

  method ReadMiddle(c: Cursor, buffer: string, top: Character, ghost good: bool, ghost ch: Character)
    returns (line: string, r: Character)
    requires c.Valid() && (good ==> Savable(ch) && SameTop(top, ch) && c.Rest() == Middle(ch))
    modifies c
    ensures c.Valid() && (good ==> SameTop(r, ch))
    ensures good && ch.record.headNumber != -1 ==> SameMiddle(r, ch) && c.Rest() == Last(ch)
    ensures good && ch.record.headNumber == -1 ==> Shifted(r, ch) && c.Rest() == AfterEye(ch)
  {
    hide Ln, Numbers, Strings, Last, Pair, Decimal, PairOf;
    ghost var bare := ch.record.headNumber == -1;
    ghost var bio := Strings([ch.bio], Last(ch));
    ghost var room := Ln(Pair(ch.lastRoom, ch.lastDungeon), Numbers([ch.x, ch.y, ch.loop], bio));
    ghost var afterEye := AfterEye(ch);
    ghost var eye := Strings([Decimal(ch.face.eyeNumber)], afterEye);
    ghost var place := if bare then [ch.face.hairColor, ch.face.browNumber, ch.face.faceHairNumber]
        else [ch.x, ch.y, ch.loop];
    ghost var words := if bare then [Decimal(ch.face.eyeNumber)] else [ch.bio];
    if good {
      FaceSplit(ch.face, room);
      NoColon(ch.face.hairNumber, 0);
      NoColon(ch.face.eyeNumber, 0);
      PairClean(ch.lastRoom, ch.lastDungeon);
    }
    var n, face, s;
    line, n := ReadNumbers(c, buffer, 10, good, RecordOf(ch.record), Numbers(FaceOf(ch.face), room));
    line, face := ReadFace(c, line, n[9], good && !bare, ch.face, room);
    ghost var afterPlace := if bare then eye else bio;
    ghost var roomLine := if bare then Decimal(ch.face.hairNumber) else Pair(ch.lastRoom, ch.lastDungeon);
    line := c.Line(line, good, roomLine, Numbers(place, afterPlace));
    var rooms := PairOf(line, 0);
    PairIsRead(ch.lastRoom, ch.lastDungeon, 0);
    var record := Record(n[0], n[1], n[2], n[3], n[4], n[5], n[6], n[7], n[8], n[9]);
    line, n := ReadNumbers(c, line, 3, good, place, afterPlace);
    line, s := ReadStrings(c, line, 1, good, words, if bare then afterEye else Last(ch));
    r := top.(record := record, face := face, lastRoom := rooms.0, lastDungeon := rooms.1,
              x := n[0], y := n[1], loop := n[2], bio := s[0]);
  }

  method ReadLast(c: Cursor, buffer: string, top: Character, ghost good: bool, ghost t: Tail) returns (r: Character)
    requires c.Valid() && (good ==> Readable(t) && c.Rest() == TailText(t))
    modifies c
    ensures c.Valid() && SameTop(r, top) && SameMiddle(r, top)
    ensures good ==> r == Ended(top, t)
  {
    hide Ln, Numbers, Strings, Items, Affects, NumberedAll;
    ghost var lines := Strings([t.lastCrimeTime], Ln(t.affectCount, Affects(t.affects, ItemsOf(t))));
    var line, n := ReadNumbers(c, buffer, 3, good, t.three, lines);
    var s, affects, ok;
    line, s := ReadStrings(c, line, 1, good, [t.lastCrimeTime], Ln(t.affectCount, Affects(t.affects, ItemsOf(t))));
    line, affects, ok := ReadAffects(c, line, true, good, t.affectCount, t.affects, ItemsOf(t));
    r := top.(girth := n[0], height := n[1], one := n[2], lastCrimeTime := s[0], affects := affects);
    if ok {
      r := ReadRest(c, line, r, good, t);
    }
  }

  /** What is read of a tail. */
  function Ended(top: Character, t: Tail): Character
    requires |t.three| == 3 && |t.kills| == 4
  {
    top.(girth := t.three[0], height := t.three[1], one := t.three[2], lastCrimeTime := t.lastCrimeTime, affects :=
        t.affects,
         items := NumberedAll(t.items, 0, 0).0, playerKills := t.kills[0], NPCKills := t.kills[1], oldLevel :=
             t.kills[2],
         stamina := t.kills[3], writeTime := t.writeTime)
  }

  method ReadRest(c: Cursor, buffer: string, top: Character, ghost good: bool, ghost t: Tail) returns (r: Character)
    requires c.Valid() && (good ==> Readable(t) && c.Rest() == ItemsOf(t))
    modifies c
    ensures c.Valid() && SameTop(r, top) && SameMiddle(r, top)
    ensures r.girth == top.girth && r.height == top.height && r.one == top.one && r.lastCrimeTime == top.lastCrimeTime
    ensures r.affects == top.affects
    ensures good ==> r == top.(items := NumberedAll(t.items, 0, 0).0, playerKills := t.kills[0], NPCKills := t.kills[1],
                               oldLevel := t.kills[2], stamina := t.kills[3], writeTime := t.writeTime)
  {
    hide Ln, Numbers, Strings, Items, NumberedAll;
    ghost var end := Numbers(t.kills, Strings([t.writeTime], t.rest));
    if good {
      EndIsThere(t);
    }
    var line, n := ReadNumbers(c, buffer, 1, good, [t.itemCount], Items(t.items, end));
    var items, ok := ReadInventory(c, n[0], good, t.items, end);
    r := top.(items := items);
    if ok {
      var s;
      line, n := ReadNumbers(c, line, 4, good, t.kills, Strings([t.writeTime], t.rest));
      line, s := ReadStrings(c, line, 1, good, [t.writeTime], t.rest);
      r := r.(playerKills := n[0], NPCKills := n[1], oldLevel := n[2], stamina := n[3], writeTime := s[0]);
    }
  }

  lemma EndIsThere(t: Tail)
    requires t.kills != []
    ensures Numbers(t.kills, Strings([t.writeTime], t.rest)) != []
  {
  }

  /** Whether what is read back is what was saved, its items numbered. */
  predicate Restored(r: Character, ch: Character) {
    r == ch.(items := NumberedAll(ch.items, 0, 0).0)
  }

  lemma NumberedNone(s: seq<Item>)
    ensures NumberedAll(s, 0, 0).0 == [] <==> s == []
  {
  }

  lemma ShiftedIff(r: Character, ch: Character, top: Character)
    requires Savable(ch) && SameTop(top, ch) && Shifted(top, ch) && SameTop(r, top) && SameMiddle(r, top)
    requires UnsetPlace(ch) ==> r == Ended(top, ShiftedTail(ch))
    ensures Restored(r, ch) <==> Unset(ch)
  {
    hide Savable, Decimal;
    if Restored(r, ch) {
      assert UnsetPlace(ch);
      NumberedNone(ch.items);
    }
    if Unset(ch) {
      NumberedNone(ch.items);
    }
  }

  method CreateData(c: Cursor, ghost good: bool, ghost ch: Character) returns (r: Character)
    requires c.Valid() && (good ==> Savable(ch) && c.Rest() == CharacterText(ch))
    modifies c
    ensures c.Valid()
    ensures good ==> (Restored(r, ch) <==> ch.record.headNumber != -1 || Unset(ch))
    ensures good && ch.record.headNumber == -1 ==> Shifted(r, ch)
  {
    hide Savable, CharacterText, Middle, Last, NumberedAll, TailText, AfterEye, Readable, Unset;
    var line, top;
    line, top := ReadTop(c, good, ch);
    line, top := ReadMiddle(c, line, top, good, ch);
    ghost var bare := ch.record.headNumber == -1;
    if good {
      WholeIsLast(ch);
      if UnsetPlace(ch) {
        ShiftedIsLeft(ch);
      }
    }
    r := ReadLast(c, line, top, good && (!bare || UnsetPlace(ch)), if bare then ShiftedTail(ch) else WholeTail(ch));
    if good && bare {
      ShiftedIff(r, ch, top);
    }
  }

  /** Any character that fits into lines and has a head is read back as it was, with its items numbered from 1. One
      without a head is read back only if nothing of it is set from its face on. */
  method SaveAndLoad(ch: Character) returns (r: Character)
    requires Savable(ch)
    ensures Restored(r, ch) <==> ch.record.headNumber != -1 || Unset(ch)
    ensures ch.record.headNumber != -1 ==> exists last :: IdsOfAll(r.items) == From(1, last)
    ensures ch.record.headNumber == -1 ==> Shifted(r, ch)
  {
    hide Savable, CharacterText;
    var p := PackData(ch);
    var c := new Cursor(p.text);
    r := CreateData(c, true, ch);
    AllIdsCountUp(ch.items, 0, 0);
    assert ch.record.headNumber != -1 ==> IdsOfAll(r.items) == From(1, NumberedAll(ch.items, 0, 0).1);
  }

  /** For example, a new character at x = 5 who has no head yet comes back somewhere else. */
  method Headless() returns (ch: Character, r: Character)
    ensures Savable(ch) && r.x == -1 && ch.x == 5 && !Restored(r, ch)
  {
    ch := NEW.(x := 5);
    IsSavable(ch);
    r := SaveAndLoad(ch);
  }

  lemma IsSavable(ch: Character)
    requires ch == NEW.(x := 5)
    ensures Savable(ch)
  {
  }
}
