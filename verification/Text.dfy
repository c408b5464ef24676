/** The string operations of Python and JavaScript that the models share. */
module Text {
  import opened Wrappers

  /** Python's str.isspace. */
  predicate IsSpace(c: char) {
    || '\t' <= c <= '\r' || '\U{1c}' <= c <= ' ' || c == '\U{85}' || c == '\U{a0}' || c == '\U{1680}'
    || '\U{2000}' <= c <= '\U{200a}' || c in {'\U{2028}', '\U{2029}', '\U{202f}', '\U{205f}', '\U{3000}'}
  }

  function LStrip(s: string): string {
    if s != "" && IsSpace(s[0]) then LStrip(s[1..]) else s
  }

  function RStrip(s: string): string {
    if s != "" && IsSpace(s[|s| - 1]) then RStrip(s[..|s| - 1]) else s
  }

  function Strip(s: string): string {
    RStrip(LStrip(s))
  }

  predicate Blank(s: string) {
    forall c :: c in s ==> IsSpace(c)
  }

  lemma {:induction false} LStripParts(s: string) returns (a: string)
    ensures s == a + LStrip(s) && Blank(a) && (LStrip(s) == "" || !IsSpace(LStrip(s)[0]))
  {
    if s != "" && IsSpace(s[0]) {
      var rest := LStripParts(s[1..]);
      a := [s[0]] + rest;
    } else {
      a := "";
    }
  }

  lemma {:induction false} RStripParts(s: string) returns (b: string)
    ensures s == RStrip(s) + b && Blank(b) && (RStrip(s) == "" || !IsSpace(RStrip(s)[|RStrip(s)| - 1]))
  {
    if s != "" && IsSpace(s[|s| - 1]) {
      var rest := RStripParts(s[..|s| - 1]);
      b := rest + [s[|s| - 1]];
    } else {
      b := "";
    }
  }

  /** Stripping removes white space at both ends, all of it and nothing else. */
  lemma StripParts(s: string) returns (a: string, b: string)
    ensures s == a + Strip(s) + b && Blank(a) && Blank(b)
    ensures var t := Strip(s); t == "" || (!IsSpace(t[0]) && !IsSpace(t[|t| - 1]))
  {
    a := LStripParts(s);
    b := RStripParts(LStrip(s));
  }

  lemma StripTight(s: string)
    requires s == "" || (!IsSpace(s[0]) && !IsSpace(s[|s| - 1]))
    ensures Strip(s) == s
  {}

  lemma StripTwice(s: string)
    ensures Strip(Strip(s)) == Strip(s)
  {
    hide Strip;
    var a, b := StripParts(s);
    StripTight(Strip(s));
  }

  predicate StartsWith(s: string, prefix: string) {
    |prefix| <= |s| && s[..|prefix|] == prefix
  }

  predicate EndsWith(s: string, suffix: string) {
    |suffix| <= |s| && s[|s| - |suffix|..] == suffix
  }

  /** The first position of c, or -1. */
  function IndexOf(s: string, c: char): (i: int)
    ensures -1 <= i < |s|
    ensures i >= 0 ==> s[i] == c && c !in s[..i]
    ensures i < 0 ==> c !in s
  {
    if s == "" then -1
    else if s[0] == c then 0
    else
      var i := IndexOf(s[1..], c);
      if i < 0 then -1 else
        assert s[..i + 1] == [s[0]] + s[1..][..i];
        i + 1
  }

  lemma {:induction false} IndexOfIs(a: string, c: char, b: string)
    requires c !in a
    ensures IndexOf(a + [c] + b, c) == |a|
  {
    if a != "" {
      assert (a + [c] + b)[1..] == a[1..] + [c] + b;
      IndexOfIs(a[1..], c, b);
    }
  }

  lemma {:induction false} IndexOfAppend(x: string, y: string, c: char)
    ensures IndexOf(x + y, c) == if IndexOf(x, c) >= 0 then IndexOf(x, c)
                                 else if IndexOf(y, c) >= 0 then |x| + IndexOf(y, c) else -1
  {
    if x == "" {
      assert x + y == y;
    } else {
      assert (x + y)[1..] == x[1..] + y;
      IndexOfAppend(x[1..], y, c);
    }
  }

  function SplitOn(s: string, c: char): (parts: seq<string>)
    ensures parts != []
  {
    if s == "" then [""]
    else if s[0] == c then [""] + SplitOn(s[1..], c)
    else
      var rest := SplitOn(s[1..], c);
      [[s[0]] + rest[0]] + rest[1..]
  }

  function JoinWith(parts: seq<string>, c: char): string
    requires parts != []
  {
    if |parts| == 1 then parts[0] else parts[0] + [c] + JoinWith(parts[1..], c)
  }

  lemma {:induction false} SplitPrefix(p: string, s: string, c: char)
    requires c !in p
    ensures SplitOn(p + s, c) == [p + SplitOn(s, c)[0]] + SplitOn(s, c)[1..]
  {
    if p == "" {
      assert p + s == s;
      assert "" + SplitOn(s, c)[0] == SplitOn(s, c)[0];
    } else {
      SplitPrefix(p[1..], s, c);
      assert (p + s)[1..] == p[1..] + s && (p + s)[0] == p[0];
      assert [p[0]] + (p[1..] + SplitOn(s, c)[0]) == p + SplitOn(s, c)[0];
    }
  }

  lemma {:induction false} SplitJoin(parts: seq<string>, c: char)
    requires parts != [] && forall p :: p in parts ==> c !in p
    ensures SplitOn(JoinWith(parts, c), c) == parts
  {
    var p := parts[0];
    if |parts| == 1 {
      SplitPrefix(p, "", c);
      assert p + "" == p;
    } else {
      var rest := JoinWith(parts[1..], c);
      SplitJoin(parts[1..], c);
      SplitPrefix(p, [c] + rest, c);
      assert ([c] + rest)[1..] == rest;
      assert p + ([c] + rest) == JoinWith(parts, c);
      assert p + "" == p;
      assert SplitOn([c] + rest, c) == [""] + parts[1..];
    }
  }

  /** A text splits in one way at its first colon. */
  lemma {:induction false} FirstColon(a: string, x: string, b: string, y: string)
    requires a + ":" + x == b + ":" + y && ':' !in a && ':' !in b
    ensures a == b && x == y
  {
    var s, t := a + ":" + x, b + ":" + y;
    assert s[0] == (if a == "" then ':' else a[0]) && t[0] == (if b == "" then ':' else b[0]);
    assert (a != "" ==> a[0] in a) && (b != "" ==> b[0] in b);
    if a == "" || b == "" {
      assert s[1..] == a + x && t[1..] == b + y;
      assert "" + x == x && "" + y == y;
    } else {
      assert s[1..] == a[1..] + ":" + x && t[1..] == b[1..] + ":" + y;
      FirstColon(a[1..], x, b[1..], y);
      assert a == [a[0]] + a[1..] && b == [b[0]] + b[1..];
    }
  }

  /** A text splits in one way at its last colon. */
  lemma {:induction false} LastColon(a: string, x: string, b: string, y: string)
    requires a + ":" + x == b + ":" + y && ':' !in x && ':' !in y
    ensures a == b && x == y
    decreases |x|
  {
    var s, t := a + ":" + x, b + ":" + y;
    assert s[|s| - 1] == (if x == "" then ':' else x[|x| - 1]) && t[|t| - 1] == (if y == "" then ':' else y[|y| - 1]);
    assert (x != "" ==> x[|x| - 1] in x) && (y != "" ==> y[|y| - 1] in y);
    if x == "" || y == "" {
      assert s[..|s| - 1] == a + x && t[..|t| - 1] == b + y;
      assert a + "" == a && b + "" == b;
    } else {
      var x', y' := x[..|x| - 1], y[..|y| - 1];
      assert s[..|s| - 1] == a + ":" + x' && t[..|t| - 1] == b + ":" + y';
      LastColon(a, x', b, y');
      assert x == x' + [x[|x| - 1]] && y == y' + [y[|y| - 1]];
    }
  }

  // ---------------------------------------------------------------------------
  // Decimal numerals

  predicate IsDigit(c: char) {
    '0' <= c <= '9'
  }

  function DigitChar(d: nat): (c: char)
    requires d < 10
    ensures IsDigit(c) && DigitOf(c) == d
  {
    '0' + d as char
  }

  function DigitOf(c: char): (d: nat)
    requires IsDigit(c)
    ensures d < 10
  {
    c as int - '0' as int
  }

  function Decimal(n: nat): (s: string)
    ensures s != "" && forall c :: c in s ==> IsDigit(c)
  {
    if n < 10 then [DigitChar(n)] else Decimal(n / 10) + [DigitChar(n % 10)]
  }

  /** The value of a run of decimal digits. */
  function DigitsValue(s: string): nat
    requires forall c :: c in s ==> IsDigit(c)
  {
    if s == "" then 0
    else
      assert s[|s| - 1] in s;
      DigitsValue(s[..|s| - 1]) * 10 + DigitOf(s[|s| - 1])
  }

  lemma {:induction false} DecimalValue(n: nat)
    ensures DigitsValue(Decimal(n)) == n
  {
    var s := Decimal(n);
    if n < 10 {
      assert s[..|s| - 1] == "";
      assert DigitsValue("") == 0;
    } else {
      DecimalValue(n / 10);
      assert s[..|s| - 1] == Decimal(n / 10);
    }
  }

  lemma DecimalInjective(m: nat, n: nat)
    requires Decimal(m) == Decimal(n)
    ensures m == n
  {
    DecimalValue(m);
    DecimalValue(n);
  }

  /** Python's int() on ASCII digits: blanks around, a sign, single underscores inside. */
  function PyInt(s: string): Option<int> {
    var t := Strip(s);
    if t != "" && t[0] == '-' then (match Digits(t[1..]) case None => None case Some(n) => Some(-n))
    else if t != "" && t[0] == '+' then Digits(t[1..])
    else Digits(t)
  }

  predicate DigitRun(t: string) {
    && t != "" && t[0] != '_' && t[|t| - 1] != '_'
    && (forall c :: c in t ==> IsDigit(c) || c == '_')
    && (forall i, j :: 0 <= i < |t| && 0 <= j < |t| && j == i + 1 && t[i] == '_' ==> t[j] != '_')
  }

  function Digits(t: string): Option<int> {
    if DigitRun(t) then Some(DigitsValue(NoUnderscores(t))) else None
  }

  function NoUnderscores(t: string): (r: string)
    requires forall c :: c in t ==> IsDigit(c) || c == '_'
    ensures forall c :: c in r ==> IsDigit(c)
    ensures '_' !in t ==> r == t
  {
    if t == "" then "" else if t[0] == '_' then NoUnderscores(t[1..]) else [t[0]] + NoUnderscores(t[1..])
  }

  lemma PyIntDecimal(n: nat)
    ensures PyInt(Decimal(n)) == Some(n)
  {
    var s := Decimal(n);
    assert s[0] in s && s[|s| - 1] in s;
    StripTight(s);
    DecimalValue(n);
    assert '_' !in s;
  }
}
