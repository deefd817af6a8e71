/** Inventory items in the text of a saved character (global/csinvitem.cpp): printed one field a line, children after
    their container, and read back. */
module SaveItems {
  import opened Common
  import opened SaveText

  datatype Affect = Affect(duration: int, id: int, source: int, kind: int, value: int)

  datatype Item = Item(
    id: int, level: int, name: string, specialName: string,
    color: int, physicalState: int, value: int, mana: int, health: int, x: int, y: int, loop: int,
    affects: seq<Affect>,
    wear: int, weapon: int, open: int, lock: int, entry: int, password: string, use: int, spellBag: string,
    containedItems: int, items: seq<Item>)

  // ---- affects

  function AffectLine(a: Affect): string {
    Decimal(a.duration)
        + (" " + (Decimal(a.id) + (" " + (Decimal(a.source) + (" " + (Decimal(a.kind) + (" " + Decimal(a.value))))))))
  }

  function AfterSpace(s: string): string {
    AfterChar(' ', s)
  }

  /** The five numbers of a line. */
  function AffectOf(line: string): Affect {
    var (b, c, d, e) := (AfterSpace(line), AfterSpace(AfterSpace(line)), AfterSpace(AfterSpace(AfterSpace(line))),
                         AfterSpace(AfterSpace(AfterSpace(AfterSpace(line)))));
    Affect(Atoi(line), Atoi(b), Atoi(c), Atoi(d), Atoi(e))
  }

  lemma AffectIsRead(a: Affect)
    ensures AffectOf(AffectLine(a)) == a
  {
    hide Decimal, Atoi, AfterChar;
    var e := Decimal(a.value);
    var d := Decimal(a.kind) + (" " + e);
    var c := Decimal(a.source) + (" " + d);
    var b := Decimal(a.id) + (" " + c);
    NumberThen(a.duration, ' ', b);
    NumberThen(a.id, ' ', c);
    NumberThen(a.source, ' ', d);
    NumberThen(a.kind, ' ', e);
    AtoiDecimal(a.value, "");
    assert e + "" == e;
  }

  predicate AffectFits(a: Affect) {
    IsInt32(a.duration) && IsInt32(a.id) && IsInt32(a.source) && IsInt32(a.kind) && IsInt32(a.value)
  }

  lemma AffectClean(a: Affect)
    requires AffectFits(a)
    ensures Clean(AffectLine(a))
  {
    hide Decimal;
    DecimalShort(a.duration);
    DecimalShort(a.id);
    DecimalShort(a.source);
    DecimalShort(a.kind);
    DecimalShort(a.value);
  }

  lemma DecimalShort(n: int)
    requires IsInt32(n)
    ensures Clean(Decimal(n)) && |Decimal(n)| <= 11
  {
    DecimalClean(n);
    assert Power10(5) == 100000;
    assert Power10(8) == 1000 * Power10(5);
    assert Power10(10) == 100 * Power10(8);
    DigitsLength(if n < 0 then -n else n, 10);
  }

  // ---- what is printed, and what comes then

  function Numbers(ns: seq<int>, rest: string): string {
    if ns == [] then rest else Ln(Decimal(ns[0]), Numbers(ns[1..], rest))
  }

  function Affects(s: seq<Affect>, rest: string): string {
    if s == [] then rest else Ln(AffectLine(s[0]), Affects(s[1..], rest))
  }

  function Looks(it: Item): seq<int> {
    [it.color, it.physicalState, it.value, it.mana, it.health, it.x, it.y, it.loop]
  }

  function Uses(it: Item): seq<int> {
    [it.wear, it.weapon, it.open, it.lock, it.entry]
  }

  function ItemText(it: Item, rest: string): string
    decreases it, 1
  {
    Ln(it.name, Ln(it.specialName, Numbers(Looks(it), AffectsText(it.affects, AfterAffects(it, rest)))))
  }

  function AfterAffects(it: Item, rest: string): string
    decreases it, 0
  {
    Numbers(Uses(it), Ln(it.password, Numbers([it.use], Ln(it.spellBag, Numbers([|it.items|], Items(it.items, rest))))))
  }

  function AffectsText(s: seq<Affect>, rest: string): string {
    Numbers([|s|], Affects(s, rest))
  }

  function Items(s: seq<Item>, rest: string): string
    decreases s
  {
    if s == [] then rest else ItemText(s[0], Items(s[1..], rest))
  }

  function Decimals(ns: seq<int>): seq<string> {
    seq(|ns|, i requires 0 <= i < |ns| => Decimal(ns[i]))
  }

  lemma {:induction false} NumbersAre(ns: seq<int>, rest: string)
    ensures Numbers(ns, rest) == Strings(Decimals(ns), rest)
  {
    hide Ln, Decimal;
    if ns != [] {
      NumbersAre(ns[1..], rest);
      assert Decimals(ns)[1..] == Decimals(ns[1..]);
    }
  }

  lemma LineBefore(l: string, ls: seq<string>, rest: string)
    ensures Ln(l, Strings(ls, rest)) == Strings([l] + ls, rest)
  {
    hide Ln;
    assert ([l] + ls)[1..] == ls;
  }

  lemma AffectSample()
    ensures AffectLine(Affect(1, 2, 3, 4, 5)) == "1 2 3 4 5"
  {
    assert Decimal(1) == "1" && Decimal(2) == "2" && Decimal(3) == "3" && Decimal(4) == "4" && Decimal(5) == "5";
  }

  /** The lines of an item, in order, around its affects and before what is in it. */
  lemma ItemLines(it: Item, rest: string)
    ensures ItemText(it, rest) == Strings(
              [it.name, it.specialName, Decimal(it.color), Decimal(it.physicalState), Decimal(it.value),
               Decimal(it.mana), Decimal(it.health), Decimal(it.x), Decimal(it.y), Decimal(it.loop),
               Decimal(|it.affects|)],
              Affects(it.affects, Strings(
                [Decimal(it.wear), Decimal(it.weapon), Decimal(it.open), Decimal(it.lock), Decimal(it.entry),
                 it.password, Decimal(it.use), it.spellBag, Decimal(|it.items|)],
                Items(it.items, rest))))
  {
    AfterLines(it, rest);
    hide Ln, Decimal, Items, Affects, AfterAffects, Numbers, Strings;
    var more := Affects(it.affects, AfterAffects(it, rest));
    var looks := Decimals(Looks(it));
    assert looks == [Decimal(it.color), Decimal(it.physicalState), Decimal(it.value), Decimal(it.mana),
                     Decimal(it.health), Decimal(it.x), Decimal(it.y), Decimal(it.loop)];
    NumbersAre([|it.affects|], more);
    assert Decimals([|it.affects|]) == [Decimal(|it.affects|)];
    NumbersAre(Looks(it), Strings([Decimal(|it.affects|)], more));
    StringsAppend(looks, [Decimal(|it.affects|)], more);
    LineBefore(it.specialName, looks + [Decimal(|it.affects|)], more);
    LineBefore(it.name, [it.specialName] + (looks + [Decimal(|it.affects|)]), more);
    assert [it.name] + ([it.specialName] + (looks + [Decimal(|it.affects|)])) ==
        [it.name, it.specialName, Decimal(it.color), Decimal(it.physicalState), Decimal(it.value),
         Decimal(it.mana), Decimal(it.health), Decimal(it.x), Decimal(it.y), Decimal(it.loop), Decimal(|it.affects|)];
  }

  lemma AfterLines(it: Item, rest: string)
    ensures AfterAffects(it, rest) == Strings(
              [Decimal(it.wear), Decimal(it.weapon), Decimal(it.open), Decimal(it.lock), Decimal(it.entry),
               it.password, Decimal(it.use), it.spellBag, Decimal(|it.items|)],
              Items(it.items, rest))
  {
    hide Ln, Decimal, Items, Numbers, Strings;
    var end := Items(it.items, rest);
    var uses := Decimals(Uses(it));
    assert uses == [Decimal(it.wear), Decimal(it.weapon), Decimal(it.open), Decimal(it.lock), Decimal(it.entry)];
    NumbersAre([|it.items|], end);
    assert Decimals([|it.items|]) == [Decimal(|it.items|)];
    LineBefore(it.spellBag, [Decimal(|it.items|)], end);
    var two := [it.spellBag] + [Decimal(|it.items|)];
    NumbersAre([it.use], Strings(two, end));
    assert Decimals([it.use]) == [Decimal(it.use)];
    StringsAppend([Decimal(it.use)], two, end);
    LineBefore(it.password, [Decimal(it.use)] + two, end);
    var four := [it.password] + ([Decimal(it.use)] + two);
    NumbersAre(Uses(it), Strings(four, end));
    StringsAppend(uses, four, end);
    assert uses + four == [Decimal(it.wear), Decimal(it.weapon), Decimal(it.open), Decimal(it.lock),
                           Decimal(it.entry), it.password, Decimal(it.use), it.spellBag, Decimal(|it.items|)];
  }

  /** What can be printed and read back: strings of one line, numbers of 32 bits, at most 1000 items in a container. */
  predicate Printable(it: Item) {
    && Clean(it.name) && Clean(it.specialName) && Clean(it.password) && Clean(it.spellBag) && IsInt32(it.use)
    && (forall n <- Looks(it) :: IsInt32(n)) && (forall n <- Uses(it) :: IsInt32(n))
    && |it.affects| < 0x8000_0000 && (forall a <- it.affects :: AffectFits(a))
    && |it.items| <= 1000 && (forall c <- it.items :: Printable(c))
  }

  /** The item as it is read: numbered in the order of the text, from `id` on, children one level deeper. */
  function Numbered(it: Item, level: int, id: int): (Item, int)
    decreases it, 1
  {
    var (items, last) := NumberedAll(it.items, level + 1, id);
    (it.(id := id, level := level, containedItems := |it.items|, items := items), last)
  }

  function NumberedAll(s: seq<Item>, level: int, id: int): (seq<Item>, int)
    decreases s
  {
    if s == [] then ([], id) else
      var (c, last) := Numbered(s[0], level, id + 1);
      var (rest, end) := NumberedAll(s[1..], level, last);
      ([c] + rest, end)
  }

  /** One level more with each container around, and as many contained as are there. */
  ghost predicate Nested(it: Item, level: int)
    decreases it
  {
    it.level == level && it.containedItems == |it.items| && forall c <- it.items :: Nested(c, level + 1)
  }

  /** The same but for the numbers that reading gives. */
  ghost predicate Alike(a: Item, b: Item)
    decreases a
  {
    && a == b.(id := a.id, level := a.level, containedItems := a.containedItems, items := a.items)
    && |a.items| == |b.items| && forall i :: 0 <= i < |a.items| ==> Alike(a.items[i], b.items[i])
  }

  /** Numbering changes ids, levels and counts, and nothing else. */
  lemma {:induction false} NumberedIs(it: Item, level: int, id: int)
    ensures var n := Numbered(it, level, id).0; Nested(n, level) && Alike(n, it)
    decreases it, 1
  {
    AllNumberedIs(it.items, level + 1, id);
  }

  lemma {:induction false} AllNumberedIs(s: seq<Item>, level: int, id: int)
    ensures var n := NumberedAll(s, level, id).0;
            |n| == |s| && forall i :: 0 <= i < |s| ==> Nested(n[i], level) && Alike(n[i], s[i])
    decreases s
  {
    if s != [] {
      NumberedIs(s[0], level, id + 1);
      AllNumberedIs(s[1..], level, Numbered(s[0], level, id + 1).1);
    }
  }

  /** The ids, in the order of the text. */
  function Ids(it: Item): seq<int>
    decreases it, 1
  {
    [it.id] + IdsOfAll(it.items)
  }

  function IdsOfAll(s: seq<Item>): seq<int>
    decreases s
  {
    if s == [] then [] else Ids(s[0]) + IdsOfAll(s[1..])
  }

  function From(a: int, n: nat): seq<int> {
    seq(n, i => a + i)
  }

  /** Numbering counts up by one from item to item, so no two have the same id. */
  lemma {:induction false} IdsCountUp(it: Item, level: int, id: int)
    ensures var (n, last) := Numbered(it, level, id);
            last >= id && Ids(n) == From(id, last - id + 1)
    decreases it, 1
  {
    AllIdsCountUp(it.items, level + 1, id);
    var (items, last) := NumberedAll(it.items, level + 1, id);
    assert From(id, last - id + 1) == [id] + From(id + 1, last - id);
  }

  lemma {:induction false} AllIdsCountUp(s: seq<Item>, level: int, id: int)
    ensures var (n, end) := NumberedAll(s, level, id);
            end >= id && IdsOfAll(n) == From(id + 1, end - id)
    decreases s
  {
    if s != [] {
      var (c, last) := Numbered(s[0], level, id + 1);
      var (rest, end) := NumberedAll(s[1..], level, last);
      IdsCountUp(s[0], level, id + 1);
      AllIdsCountUp(s[1..], level, last);
      assert ([c] + rest)[1..] == rest;
      assert From(id + 1, end - id) == From(id + 1, last - id) + From(last + 1, end - last);
    }
  }

  // ---- reading

  /** `good` says that what is left of the text is what was printed; then that is what is read. */
  method ReadNumber(c: Cursor, buffer: string, ghost good: bool, ghost n: int, ghost rest: string)
    returns (line: string, r: int)
    requires c.Valid() && (good ==> IsInt32(n) && c.Rest() == Ln(Decimal(n), rest))
    modifies c
    ensures c.Valid() && c.size <= old(c.size) && (old(c.size) > 0 ==> c.size < old(c.size)) && c.at >= old(c.at)
    ensures good ==> r == n && c.Rest() == rest
  {
    if good {
      DecimalClean(n);
      AtoiDecimal(n, "");
      assert Decimal(n) + "" == Decimal(n);
    }
    line := c.Line(buffer, good, Decimal(n), rest);
    r := Atoi(line);
  }

  method ReadNumbers(c: Cursor, buffer: string, count: nat, ghost good: bool, ghost ns: seq<int>, ghost rest: string)
    returns (line: string, rs: seq<int>)
    requires c.Valid() && (good ==> |ns| == count && (forall n <- ns :: IsInt32(n)) && c.Rest() == Numbers(ns, rest))
    modifies c
    ensures c.Valid() && c.size <= old(c.size) && c.at >= old(c.at) && |rs| == count
    ensures good ==> rs == ns && c.Rest() == rest
  {
    hide Decimal, Ln;
    line, rs := buffer, [];
    while |rs| < count
      invariant c.Valid() && c.size <= old(c.size) && c.at >= old(c.at) && |rs| <= count
      invariant good ==> rs == ns[..|rs|] && c.Rest() == Numbers(ns[|rs|..], rest)
      decreases count - |rs|
    {
      ghost var i := |rs|;
      assert good ==> ns[i] in ns && ns[i..][1..] == ns[i + 1..];
      var r;
      line, r := ReadNumber(c, line, good, if good then ns[i] else 0, if good then Numbers(ns[i + 1..], rest) else "");
      rs := rs + [r];
    }
    assert good ==> ns[..count] == ns && ns[count..] == [];
  }

  lemma AffectsAre(s: seq<Affect>, rest: string)
    ensures AffectsText(s, rest) == Ln(Decimal(|s|), Affects(s, rest))
  {
    hide Ln, Decimal, Affects;
    OneNumber(|s|, Affects(s, rest));
  }

  lemma OneNumber(n: int, rest: string)
    ensures Numbers([n], rest) == Ln(Decimal(n), rest)
  {
    hide Ln, Decimal;
    assert [n][1..] == [];
  }

  /** A count read for so many things; any that is not positive will do for none. */
  predicate Says(count: int, n: nat) {
    count == n || (count <= 0 && n == 0)
  }

  lemma CountIsRead(n: int)
    requires IsInt32(n)
    ensures Clean(Decimal(n)) && Atoi(Decimal(n)) == n
  {
    DecimalClean(n);
    AtoiDecimal(n, "");
    assert Decimal(n) + "" == Decimal(n);
  }

  /** As many affects as the first line says, which is `count`. Only a character looks whether the text has ended
      before. */
  method ReadAffects(c: Cursor, buffer: string, looks: bool, ghost good: bool, ghost count: string,
      ghost s: seq<Affect>, ghost rest: string)
    returns (line: string, affects: seq<Affect>, ok: bool)
    requires c.Valid()
    requires good ==>
            Clean(count) && Says(Atoi(count), |s|) && (forall a <- s :: AffectFits(a))
            && c.Rest() == Ln(count, Affects(s, rest))
    modifies c
    ensures c.Valid() && c.size <= old(c.size) && c.at >= old(c.at)
    ensures good ==> ok && affects == s && c.Rest() == rest
  {
    hide Decimal, Atoi, Ln, AffectLine, AffectOf;
    line := c.Line(buffer, good, count, Affects(s, rest));
    affects := [];
    var affectCount := Atoi(line);
    while affectCount > 0
      invariant c.Valid() && c.size <= old(c.size) && c.at >= old(c.at)
      invariant good ==> |affects| <= |s| && Says(affectCount, |s| - |affects|) && affects == s[..|affects|]
      invariant good ==> c.Rest() == Affects(s[|affects|..], rest)
    {
      if looks && c.size < 1 {
        return line, affects, false;
      }
      ghost var i := |affects|;
      if good {
        assert s[i] in s && s[i..][1..] == s[i + 1..];
        AffectIsRead(s[i]);
        AffectClean(s[i]);
      }
      line := c.Line(line, good, if good then AffectLine(s[i]) else "", if good then Affects(s[i + 1..], rest) else "");
      affects := affects + [AffectOf(line)];
      affectCount := affectCount - 1;
    }
    assert good ==> s[|affects|..] == [];
    ok := true;
  }

  lemma {:induction false} SomethingLeft(s: seq<Item>, rest: string)
    requires rest != []
    ensures Items(s, rest) != []
    decreases s
  {
    if s != [] {
      assert |Items(s, rest)| == |ItemText(s[0], Items(s[1..], rest))| > 0;
    }
  }

  /** All of an item but what it contains. */
  method ReadFields(c: Cursor, level: int, theID: int, ghost good: bool, ghost it: Item, ghost rest: string)
    returns (item: Item)
    requires c.Valid() && c.size > 0 && (good ==> Printable(it) && c.Rest() == ItemText(it, rest))
    modifies c
    ensures c.Valid() && c.size < old(c.size) && c.at >= old(c.at)
    ensures good ==>
            item == it.(id := theID, level := level, containedItems := |it.items|, items := [])
            && c.Rest() == Items(it.items, rest)
  {
    hide Ln, Numbers, AffectsText, Items, Numbered;
    ghost var after := AfterAffects(it, rest);
    ghost var affectsOn := AffectsText(it.affects, after);
    var name := c.Line("", good, it.name, Ln(it.specialName, Numbers(Looks(it), affectsOn)));
    var specialName := c.Line(name, good, it.specialName, Numbers(Looks(it), affectsOn));
    var line, looks := ReadNumbers(c, specialName, 8, good, Looks(it), affectsOn);
    var affects, ok;
    if good {
      CountIsRead(|it.affects|);
      AffectsAre(it.affects, after);
    }
    line, affects, ok := ReadAffects(c, line, false, good, Decimal(|it.affects|), it.affects, after);
    item := ReadMore(c, line, theID, level, name, specialName, looks, affects, good, it, rest);
  }

  method ReadMore(c: Cursor, buffer: string, theID: int, level: int, name: string, specialName: string, looks: seq<int>,
                  affects: seq<Affect>, ghost good: bool, ghost it: Item, ghost rest: string) returns (item: Item)
    requires c.Valid() && |looks| == 8 && (good ==> Printable(it) && c.Rest() == AfterAffects(it, rest))
    requires good ==> name == it.name && specialName == it.specialName && looks == Looks(it) && affects == it.affects
    modifies c
    ensures c.Valid() && c.size <= old(c.size) && c.at >= old(c.at)
    ensures good ==>
            item == it.(id := theID, level := level, containedItems := |it.items|, items := [])
            && c.Rest() == Items(it.items, rest)
  {
    hide Ln, Numbers, AffectsText, Items, Numbered, Decimal;
    ghost var count := Numbers([|it.items|], Items(it.items, rest));
    ghost var useOn := Numbers([it.use], Ln(it.spellBag, count));
    var line, uses := ReadNumbers(c, buffer, 5, good, Uses(it), Ln(it.password, useOn));
    var password := c.Line(line, good, it.password, useOn);
    var use;
    line, use := ReadNumbers(c, password, 1, good, [it.use], Ln(it.spellBag, count));
    var spellBag := c.Line(line, good, it.spellBag, count);
    var counts;
    line, counts := ReadNumbers(c, spellBag, 1, good, [|it.items|], Items(it.items, rest));
    item := Item(theID, level, name, specialName, looks[0], looks[1], looks[2], looks[3], looks[4], looks[5], looks[6],
        looks[7], affects, uses[0], uses[1], uses[2], uses[3], uses[4], password, use[0], spellBag, counts[0], []);
  }

  /** An item with all that it contains. Where there are too many to be true, or the text ends, the place to read on
      from is left at the start of the item, and what was read is kept. */
  method ReadItem(c: Cursor, level: int, theID: int, ghost good: bool, ghost it: Item, ghost rest: string)
    returns (item: Item, last: int)
    requires c.Valid() && c.size > 0 && (good ==> Printable(it) && rest != [] && c.Rest() == ItemText(it, rest))
    modifies c
    ensures c.Valid() && c.size < old(c.size)
    ensures good ==> (item, last) == Numbered(it, level, theID) && c.Rest() == rest
    decreases c.size, 0
  {
    hide Ln, ItemText, Items;
    var start := c.at;
    ghost var s := it.items;
    item := ReadFields(c, level, theID, good, it, rest);
    last := theID;
    if good {
      SomethingLeft(s, rest);
    }
    var invCount := item.containedItems;
    if invCount > 1000 || c.size < 1 {
      c.at := start;
      return;
    }
    assert good ==> |s| == invCount;
    var items, ok;
    items, last, ok := ReadChildren(c, level + 1, theID, invCount, good, s, rest);
    item := item.(items := items);
    if !ok {
      c.at := start;
    }
  }

  lemma ItemsStep(s: seq<Item>, rest: string)
    ensures Items(s, rest) == if s == [] then rest else ItemText(s[0], Items(s[1..], rest))
  {
  }

  lemma NumberedStep(s: seq<Item>, level: int, last: int, before: seq<Item>)
    ensures s == [] ==> NumberedAll(s, level, last) == ([], last) && before + [] == before
    ensures s != [] ==>
              var (c, l) := Numbered(s[0], level, last + 1);
              var (rest, end) := NumberedAll(s[1..], level, l);
              NumberedAll(s, level, last) == ([c] + rest, end) && before + ([c] + rest) == before + [c] + rest
  {
  }

  /** The items of a character. Here the text is looked at before each of them, and no count is too high. */
  method ReadInventory(c: Cursor, count: int, ghost good: bool, ghost s: seq<Item>, ghost rest: string)
    returns (items: seq<Item>, ok: bool)
    requires c.Valid()
    requires good ==>
            Says(count, |s|) && (forall i :: 0 <= i < |s| ==> Printable(s[i])) && rest != []
            && c.Rest() == Items(s, rest)
    modifies c
    ensures c.Valid()
    ensures good ==> ok && items == NumberedAll(s, 0, 0).0 && c.Rest() == rest
  {
    hide Printable, Numbered, NumberedAll, Items, ItemText;
    items := [];
    var invCount, invID := count, 0;
    ghost var all := NumberedAll(s, 0, 0);
    assert s[0..] == s && [] + all.0 == all.0;
    while invCount > 0
      invariant c.Valid()
      invariant good ==> |items| <= |s| && Says(invCount, |s| - |items|) && c.Rest() == Items(s[|items|..], rest)
      invariant good ==> all == (items + NumberedAll(s[|items|..], 0, invID).0, NumberedAll(s[|items|..], 0, invID).1)
    {
      if good {
        SomethingLeft(s[|items|..], rest);
      }
      if c.size < 1 {
        return items, false;
      }
      ghost var i := |items|;
      ghost var more := if good then s[i + 1..] else [];
      if good {
        assert s[i..][0] == s[i] && s[i..][1..] == more;
        SomethingLeft(more, rest);
        ItemsStep(s[i..], rest);
        NumberedStep(s[i..], 0, invID, items);
      }
      var inv;
      inv, invID := ReadItem(c, 0, invID + 1, good, if good then s[i] else EmptyItem(), Items(more, rest));
      items := items + [inv];
      invCount := invCount - 1;
    }
    if good {
      assert s[|items|..] == [];
      ItemsStep([], rest);
      NumberedStep([], 0, invID, items);
    }
    ok := true;
  }

  /** The children, one after the other; not `ok` if the text ends after one of them. */
  method ReadChildren(c: Cursor, level: int, theID: int, count: int, ghost good: bool, ghost s: seq<Item>,
      ghost rest: string)
    returns (items: seq<Item>, last: int, ok: bool)
    requires c.Valid() && c.size > 0
    requires good ==>
            count == |s| && (forall i :: 0 <= i < |s| ==> Printable(s[i])) && rest != [] && c.Rest() == Items(s, rest)
    modifies c
    ensures c.Valid() && c.size <= old(c.size)
    ensures good ==> ok && (items, last) == NumberedAll(s, level, theID) && c.Rest() == rest
    decreases c.size, 1
  {
    hide Printable, Numbered, NumberedAll, Items, ItemText;
    items, last := [], theID;
    var invCount := count;
    ghost var all := NumberedAll(s, level, theID);
    assert s[0..] == s && [] + all.0 == all.0;
    ItemsStep(s, rest);
    while invCount > 0
      invariant c.Valid() && 0 < c.size <= old(c.size)
      invariant good ==> |items| <= |s| && invCount == |s| - |items| && c.Rest() == Items(s[|items|..], rest)
      invariant good ==>
              all == (items + NumberedAll(s[|items|..], level, last).0, NumberedAll(s[|items|..], level, last).1)
    {
      ghost var i := |items|;
      ghost var more := if good then s[i + 1..] else [];
      if good {
        assert s[i..][0] == s[i] && s[i..][1..] == more;
        SomethingLeft(more, rest);
        ItemsStep(s[i..], rest);
        NumberedStep(s[i..], level, last, items);
      }
      var inv;
      inv, last := ReadItem(c, level, last + 1, good, if good then s[i] else EmptyItem(), Items(more, rest));
      items := items + [inv];
      invCount := invCount - 1;
      if c.size < 1 {
        return items, last, false;
      }
    }
    if good {
      assert s[|items|..] == [];
      ItemsStep([], rest);
      NumberedStep([], level, last, items);
    }
    ok := true;
  }

  ghost function EmptyItem(): Item {
    Item(0, 0, "", "", 0, 0, 0, 0, 0, 0, 0, 0, [], 0, 0, 0, 0, 0, "", 0, "", 0, [])
  }

  // ---- printing

  /** A text that is added to at its end. `rest` is what is to be added after all this. */
  class PackedData {
    var text: string

    constructor ()
      ensures text == ""
    {
      text := "";
    }

    method Print(l: string, ghost rest: string)
      modifies this
      ensures text + rest == old(text) + Ln(l, rest)
    {
      text := text + l + [NEWLINE];
    }

    method PrintNumbers(ns: seq<int>, ghost rest: string)
      modifies this
      ensures text + rest == old(text) + Numbers(ns, rest)
    {
      hide Ln, Decimal;
      var i := 0;
      while i < |ns|
        invariant 0 <= i <= |ns| && text + Numbers(ns[i..], rest) == old(text) + Numbers(ns, rest)
      {
        assert ns[i..][1..] == ns[i + 1..];
        Print(Decimal(ns[i]), Numbers(ns[i + 1..], rest));
        i := i + 1;
      }
      assert ns[i..] == [];
    }

    method PrintAffects(s: seq<Affect>, ghost rest: string)
      modifies this
      ensures text + rest == old(text) + AffectsText(s, rest)
    {
      hide Ln, AffectLine, Numbers;
      PrintNumbers([|s|], Affects(s, rest));
      var i := 0;
      while i < |s|
        invariant 0 <= i <= |s| && text + Affects(s[i..], rest) == old(text) + AffectsText(s, rest)
      {
        assert s[i..][1..] == s[i + 1..];
        Print(AffectLine(s[i]), Affects(s[i + 1..], rest));
        i := i + 1;
      }
      assert s[i..] == [];
    }

    method PackItem(it: Item, ghost rest: string)
      modifies this
      ensures text + rest == old(text) + ItemText(it, rest)
      decreases it, 1
    {
      hide Ln, Numbers, AffectsText, Items;
      ghost var after := AfterAffects(it, rest);
      Print(it.name, Ln(it.specialName, Numbers(Looks(it), AffectsText(it.affects, after))));
      Print(it.specialName, Numbers(Looks(it), AffectsText(it.affects, after)));
      PrintNumbers(Looks(it), AffectsText(it.affects, after));
      PrintAffects(it.affects, after);
      PackMore(it, rest);
    }

    method PackMore(it: Item, ghost rest: string)
      modifies this
      ensures text + rest == old(text) + AfterAffects(it, rest)
      decreases it, 0
    {
      hide Ln, Numbers, Items;
      ghost var count := Numbers([|it.items|], Items(it.items, rest));
      PrintNumbers(Uses(it), Ln(it.password, Numbers([it.use], Ln(it.spellBag, count))));
      Print(it.password, Numbers([it.use], Ln(it.spellBag, count)));
      PrintNumbers([it.use], Ln(it.spellBag, count));
      Print(it.spellBag, count);
      PrintNumbers([|it.items|], Items(it.items, rest));
      PackItems(it.items, rest);
    }

    method PackItems(s: seq<Item>, ghost rest: string)
      modifies this
      ensures text + rest == old(text) + Items(s, rest)
      decreases s
    {
      hide ItemText, Items;
      var i := 0;
      assert s[0..] == s;
      while i < |s|
        invariant 0 <= i <= |s| && text + Items(s[i..], rest) == old(text) + Items(s, rest)
      {
        assert s[i..][0] == s[i] && s[i..][1..] == s[i + 1..];
        ItemsStep(s[i..], rest);
        PackItem(s[i], Items(s[i + 1..], rest));
        i := i + 1;
      }
      assert s[i..] == [];
      ItemsStep([], rest);
    }
  }
}
