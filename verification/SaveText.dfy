/** Lines and numbers, as global/tools.cpp and the C library print and read them. */
module SaveText {
  import opened Common

  const NEWLINE := '\n'
  const NUL := 0 as char

  /** What fits into one line and its buffer. */
  predicate Clean(l: string) {
    |l| < 1024 && NEWLINE !in l && NUL !in l
  }

  // ---- bufgets

  /** The line that starts `s`; NUL characters do not count. */
  function LineOf(s: string): string {
    if s == [] || s[0] == NEWLINE then [] else (if s[0] == NUL then [] else [s[0]]) + LineOf(s[1..])
  }

  function AfterLine(s: string): (r: string)
    ensures |r| <= |s| && (s != [] ==> |r| < |s|)
  {
    if s == [] then [] else if s[0] == NEWLINE then s[1..] else AfterLine(s[1..])
  }

  lemma NextCharacter(s: string)
    ensures s == [] ==> LineOf(s) == [] && AfterLine(s) == []
    ensures s != [] && s[0] == NEWLINE ==> LineOf(s) == [] && AfterLine(s) == s[1..]
    ensures s != [] && s[0] != NEWLINE ==>
            LineOf(s) == (if s[0] == NUL then [] else [s[0]]) + LineOf(s[1..]) && AfterLine(s) == AfterLine(s[1..])
  {
  }

  lemma {:induction false} LineIsRead(l: string, rest: string)
    requires Clean(l)
    ensures LineOf(l + [NEWLINE] + rest) == l && AfterLine(l + [NEWLINE] + rest) == rest
  {
    var s := l + [NEWLINE] + rest;
    if l == [] {
      assert s == [NEWLINE] + rest;
    } else {
      assert s[1..] == l[1..] + [NEWLINE] + rest;
      LineIsRead(l[1..], rest);
      assert l == [l[0]] + l[1..];
    }
  }

  /** A place in a text, and how much of it is left to read. */
  class Cursor {
    const data: string
    var at: nat
    var size: nat

    constructor (data: string)
      ensures Valid() && Rest() == data && size == |data|
    {
      this.data, at, size := data, 0, |data|;
    }

    predicate Valid()
      reads this
    {
      at + size <= |data|
    }

    function Rest(): string
      requires Valid()
      reads this
    {
      data[at..at + size]
    }

    /** A line that is not there leaves the buffer as it was. */
    method Bufgets(buffer: string) returns (line: string)
      requires Valid()
      modifies this
      ensures Valid() && Rest() == AfterLine(old(Rest())) && size <= old(size) && (old(size) > 0 ==> size < old(size))
      ensures line == if old(size) == 0 then buffer else LineOf(old(Rest()))
      ensures at >= old(at)
    {
      hide LineOf, AfterLine;
      if size < 1 {
        return buffer;
      }
      line := [];
      ghost var all, end := Rest(), at + size;
      while size > 0
        invariant Valid() && at + size == end && at >= old(at) && size <= old(size)
        invariant size == old(size) ==> at == old(at)
        invariant LineOf(all) == line + LineOf(Rest()) && AfterLine(all) == AfterLine(Rest())
        decreases size
      {
        var ch := data[at];
        ghost var rest := Rest();
        at, size := at + 1, size - 1;
        assert rest[1..] == Rest();
        NextCharacter(rest);
        if ch == NEWLINE {
          return;
        }
        if ch != NUL {
          line := line + [ch];
        }
      }
      NextCharacter([]);
    }

    /** The next line; `l`, if it is a good text that starts with it. */
    method Line(buffer: string, ghost good: bool, ghost l: string, ghost rest: string) returns (line: string)
      requires Valid() && (good ==> Clean(l) && Rest() == Ln(l, rest))
      modifies this
      ensures Valid() && size <= old(size) && (old(size) > 0 ==> size < old(size)) && at >= old(at)
      ensures good ==> line == l && Rest() == rest
    {
      if good {
        LineIsRead(l, rest);
      }
      line := Bufgets(buffer);
    }
  }

  /** A line, and what comes then. */
  function Ln(l: string, rest: string): (s: string)
    ensures |s| > |rest|
  {
    l + [NEWLINE] + rest
  }

  // ---- %d and atoi

  /** Each on its own line. */
  function Strings(s: seq<string>, rest: string): string {
    if s == [] then rest else Ln(s[0], Strings(s[1..], rest))
  }

  lemma {:induction false} StringsAppend(a: seq<string>, b: seq<string>, rest: string)
    ensures Strings(a + b, rest) == Strings(a, Strings(b, rest))
  {
    hide Ln;
    if a == [] {
      assert a + b == b;
    } else {
      assert (a + b)[1..] == a[1..] + b;
      StringsAppend(a[1..], b, rest);
    }
  }

  lemma StringsSample()
    ensures Strings(["ab", "", "c"], "d") == "ab\n\nc\nd"
  {
    assert ["ab", "", "c"][1..] == ["", "c"] && ["", "c"][1..] == ["c"] && ["c"][1..] == [];
    assert Strings(["c"], "d") == Ln("c", Strings([], "d")) == "c\nd";
    assert Strings(["", "c"], "d") == Ln("", "c\nd") == "\nc\nd";
    assert Strings(["ab", "", "c"], "d") == Ln("ab", "\nc\nd");
  }

  function Digit(d: int): char
    requires 0 <= d < 10
  {
    (d + '0' as int) as char
  }

  predicate AllDigits(s: string) {
    forall i :: 0 <= i < |s| ==> '0' <= s[i] <= '9'
  }

  function Digits(n: nat): (s: string)
    ensures s != [] && AllDigits(s)
  {
    if n < 10 then [Digit(n)] else Digits(n / 10) + [Digit(n % 10)]
  }

  /** `%d` */
  function Decimal(n: int): string {
    if n < 0 then "-" + Digits(-n) else Digits(n)
  }

  /** Blanks in front are passed over, and a sign is taken; what does not start like a number is 0. */
  lemma AtoiSample()
    ensures Atoi(" \t12x") == 12 && Atoi("+7") == 7 && Atoi("-5:6") == -5 && Atoi("x1") == 0 && Atoi("") == 0
  {
    assert " \t12x"[1..] == "\t12x" && "\t12x"[1..] == "12x" && "12x"[1..] == "2x" && "2x"[1..] == "x";
    assert Value(12, "x") == 12 && Value(1, "2x") == 12 && Value(0, "12x") == 12 && Atoi("12x") == 12;
    assert Atoi("\t12x") == 12;
    assert "+7"[1..] == "7" && "7"[1..] == "" && Value(0, "7") == 7;
    assert "-5:6"[1..] == "5:6" && "5:6"[1..] == ":6" && Value(0, "5:6") == 5;
  }

  lemma DecimalSample()
    ensures Decimal(0) == "0" && Decimal(907) == "907" && Decimal(-31) == "-31"
  {
    assert Digits(9) == "9" && Digits(90) == "90" && Digits(3) == "3";
  }

  /** The value of the digits at the start of `s`, after `n`. */
  function Value(n: nat, s: string): nat
    decreases |s|
  {
    if s == [] || !('0' <= s[0] <= '9') then n else Value(10 * n + (s[0] as int - '0' as int), s[1..])
  }

  predicate Blank(c: char) {
    c == ' ' || 9 <= c as int <= 13
  }

  function Atoi(s: string): int {
    if s != [] && Blank(s[0]) then Atoi(s[1..])
    else if s != [] && s[0] == '-' then -(Value(0, s[1..]) as int)
    else if s != [] && s[0] == '+' then Value(0, s[1..])
    else Value(0, s)
  }

  /** Digits are read until something else comes. */
  lemma {:induction false} ValueDigits(n: nat, m: nat, t: string)
    requires t == [] || !('0' <= t[0] <= '9')
    ensures Value(0, Digits(n) + t) == n
  {
    ValueOf(0, Digits(n), t);
    DigitsSum(n);
  }

  /** What `ds` stands for, the last digit first. */
  function Sum(n: nat, ds: string): nat
    requires AllDigits(ds)
  {
    if ds == [] then n else 10 * Sum(n, ds[..|ds| - 1]) + (ds[|ds| - 1] as int - '0' as int)
  }

  lemma {:induction false} DigitsSum(n: nat)
    ensures Sum(0, Digits(n)) == n
  {
    if n >= 10 {
      DigitsSum(n / 10);
      assert Digits(n)[..|Digits(n)| - 1] == Digits(n / 10);
    } else {
      assert Digits(n)[..0] == [];
    }
  }

  lemma {:induction false} ValueOf(n: nat, ds: string, t: string)
    requires AllDigits(ds)
    requires t == [] || !('0' <= t[0] <= '9')
    ensures Value(n, ds + t) == Sum(n, ds)
    decreases |ds|
  {
    if ds == [] {
      assert ds + t == t;
    } else {
      var first := 10 * n + (ds[0] as int - '0' as int);
      assert (ds + t)[1..] == ds[1..] + t;
      ValueOf(first, ds[1..], t);
      SumFront(n, ds);
    }
  }

  lemma {:induction false} SumFront(n: nat, ds: string)
    requires ds != [] && AllDigits(ds)
    ensures Sum(n, ds) == Sum(10 * n + (ds[0] as int - '0' as int), ds[1..])
    decreases |ds|
  {
    var front := ds[..|ds| - 1];
    if front == [] {
      assert ds[1..] == [];
      assert Sum(n, front) == n;
    } else {
      SumFront(n, front);
      assert ds[1..][..|ds| - 2] == front[1..];
    }
  }

  /** A number that was printed is read back, whatever follows that is no digit. */
  lemma AtoiDecimal(n: int, t: string)
    requires t == [] || !('0' <= t[0] <= '9')
    ensures Atoi(Decimal(n) + t) == n
  {
    hide Value, Digits, Atoi;
    if n < 0 {
      ValueDigits(-n, 0, t);
      AfterSign(Digits(-n), t);
    } else {
      ValueDigits(n, 0, t);
      NoSign(Digits(n) + t);
    }
  }

  lemma AfterSign(ds: string, t: string)
    ensures Atoi("-" + ds + t) == -(Value(0, ds + t) as int)
  {
    var s := "-" + ds + t;
    assert s[0] == '-' && s[1..] == ds + t;
  }

  lemma NoSign(s: string)
    requires s != [] && '0' <= s[0] <= '9'
    ensures Atoi(s) == Value(0, s)
  {
  }

  function Power10(k: nat): nat {
    if k == 0 then 1 else 10 * Power10(k - 1)
  }

  lemma {:induction false} DigitsLength(n: nat, k: nat)
    requires k > 0 && n < Power10(k)
    ensures |Digits(n)| <= k
    decreases k
  {
    if n >= 10 {
      DigitsLength(n / 10, k - 1);
    }
  }

  lemma DecimalClean(n: int)
    requires IsInt32(n)
    ensures Clean(Decimal(n))
  {
    assert Power10(5) == 100000;
    assert Power10(8) == 1000 * Power10(5);
    assert Power10(10) == 100 * Power10(8);
    DigitsLength(if n < 0 then -n else n, 10);
    var ds := Digits(if n < 0 then -n else n);
    assert AllDigits(ds);
  }

  /** What follows the first `ch`. */
  function AfterChar(ch: char, s: string): string {
    if s == [] then [] else if s[0] == ch then s[1..] else AfterChar(ch, s[1..])
  }

  lemma {:induction false} CharIsFound(ch: char, ds: string, t: string)
    requires ch !in ds
    ensures AfterChar(ch, ds + ([ch] + t)) == t
  {
    var s := ds + ([ch] + t);
    if ds == [] {
      assert s == [ch] + t;
    } else {
      assert s[1..] == ds[1..] + ([ch] + t);
      CharIsFound(ch, ds[1..], t);
    }
  }

  /** Of a number, something that cannot be in one, and anything else, both the number and the rest are found. */
  lemma NumberThen(n: int, ch: char, t: string)
    requires !('0' <= ch <= '9') && ch != '-'
    ensures Atoi(Decimal(n) + ([ch] + t)) == n && AfterChar(ch, Decimal(n) + ([ch] + t)) == t
  {
    AtoiDecimal(n, [ch] + t);
    assert AllDigits(Digits(if n < 0 then -n else n));
    CharIsFound(ch, Decimal(n), t);
  }
}
