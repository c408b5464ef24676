/** What the splitter's tokens are, in the terms of section 4.1 of the PostgreSQL manual:
    a quoted literal is a value with its quotes doubled, a dollar body ends at the first
    occurrence of its tag, and block comments nest. */
module SqlTokens {
  import opened Wrappers
  import opened SqlSplit

  // ---------------------------------------------------------------------------
  // Quoted literals and identifiers

  function Doubled(v: string, q: char): string {
    if v == "" then "" else if v[0] == q then [q, q] + Doubled(v[1..], q) else [v[0]] + Doubled(v[1..], q)
  }

  /** t starts with the rest of the literal of value v: its body and the closing quote. */
  ghost predicate Quoted(t: string, q: char, n: nat, v: string) {
    n <= |t| && t[..n] == Doubled(v, q) + [q] && (n < |t| ==> t[n] != q)
  }

  ghost predicate IsQuoted(t: string, q: char, n: nat) {
    exists v :: Quoted(t, q, n, v)
  }

  lemma {:induction false} QuoteValue(t: string, q: char) returns (v: string)
    requires Quote(t, q).closed
    ensures Quoted(t, q, Quote(t, q).len, v)
    decreases |t|
  {
    if t[0] != q {
      var v' := QuoteValue(t[1..], q);
      v := [t[0]] + v';
      assert v[1..] == v';
      assert t[..Quote(t, q).len] == [t[0]] + t[1..][..Quote(t[1..], q).len];
    } else if |t| > 1 && t[1] == q {
      var v' := QuoteValue(t[2..], q);
      v := [q] + v';
      assert v[1..] == v';
      assert t[..Quote(t, q).len] == [q, q] + t[2..][..Quote(t[2..], q).len];
    } else {
      v := "";
    }
  }

  lemma {:induction false} QuoteReads(t: string, q: char, n: nat, v: string)
    requires Quoted(t, q, n, v)
    ensures Quote(t, q) == Token(Literal, n, true)
    decreases |v|
  {
    var d := Doubled(v, q) + [q];
    assert t[..n] == d && forall i :: 0 <= i < n ==> t[i] == t[..n][i];
    if v != "" {
      var k := if v[0] == q then 2 else 1;
      assert d[k..] == Doubled(v[1..], q) + [q];
      assert t[k..][..n - k] == d[k..];
      QuoteReads(t[k..], q, n - k, v[1..]);
    }
  }

  /** A quoted token ends after n characters exactly when those are some value with its
      quotes doubled and a closing quote, and no further quote follows. */
  lemma QuoteIff(t: string, q: char, n: nat)
    ensures Quote(t, q) == Token(Literal, n, true) <==> IsQuoted(t, q, n)
  {
    if Quote(t, q) == Token(Literal, n, true) { var v := QuoteValue(t, q); }
    if v :| Quoted(t, q, n, v) { QuoteReads(t, q, n, v); }
  }

  // ---------------------------------------------------------------------------
  // Escape strings

  datatype Piece = Escaped(c: char) | Twin | Bare(c: char)

  /** The body of an escape string: backslash pairs, doubled quotes and bare characters. */
  function Body(ps: seq<Piece>): string {
    if ps == [] then "" else
      (match ps[0] case Escaped(c) => ['\\', c] case Twin => "''" case Bare(c) => [c]) + Body(ps[1..])
  }

  ghost predicate EscapeQuoted(t: string, n: nat, ps: seq<Piece>) {
    && (forall i :: 0 <= i < |ps| && ps[i].Bare? ==> ps[i].c != '\\' && ps[i].c != '\'')
    && n <= |t| && t[..n] == Body(ps) + "'" && (n < |t| ==> t[n] != '\'')
  }

  ghost predicate IsEscapeQuoted(t: string, n: nat) {
    exists ps :: EscapeQuoted(t, n, ps)
  }

  lemma {:induction false} EQuotePieces(t: string) returns (ps: seq<Piece>)
    requires EQuote(t).closed
    ensures EscapeQuoted(t, EQuote(t).len, ps)
    decreases |t|
  {
    var n := EQuote(t).len;
    if t[0] == '\'' && !(|t| > 1 && t[1] == '\'') {
      ps := [];
    } else {
      var k := if (t[0] == '\\' && |t| > 1) || t[0] == '\'' then 2 else 1;
      var p := if k == 1 then Bare(t[0]) else if t[0] == '\\' then Escaped(t[1]) else Twin;
      var ps' := EQuotePieces(t[k..]);
      ps := [p] + ps';
      assert ps[1..] == ps';
      assert t[..n] == t[..k] + t[k..][..n - k];
    }
  }

  lemma {:induction false} EQuoteReads(t: string, n: nat, ps: seq<Piece>)
    requires EscapeQuoted(t, n, ps)
    ensures EQuote(t) == Token(Literal, n, true)
    decreases |ps|
  {
    var d := Body(ps) + "'";
    assert t[..n] == d && forall i :: 0 <= i < n ==> t[i] == t[..n][i];
    if ps != [] {
      var k := if ps[0].Bare? then 1 else 2;
      assert d[k..] == Body(ps[1..]) + "'";
      assert t[k..][..n - k] == d[k..];
      EQuoteReads(t[k..], n - k, ps[1..]);
    }
  }

  lemma EQuoteIff(t: string, n: nat)
    ensures EQuote(t) == Token(Literal, n, true) <==> IsEscapeQuoted(t, n)
  {
    if EQuote(t) == Token(Literal, n, true) { var ps := EQuotePieces(t); }
    if ps :| EscapeQuoted(t, n, ps) { EQuoteReads(t, n, ps); }
  }

  // ---------------------------------------------------------------------------
  // Dollar quoting

  /** A dollar tag: between dollar signs nothing, or a name of letters, digits and underscores
      that does not start with a digit. */
  predicate IsTag(cc: Chars, tag: string) {
    && |tag| >= 2 && tag[0] == '$' && tag[|tag| - 1] == '$'
    && IsName(cc, tag[1..|tag| - 1])
  }

  predicate IsName(cc: Chars, name: string) {
    && (name != "" ==> name[0] in cc.alpha || name[0] == '_')
    && forall i :: 0 <= i < |name| ==> name[i] in cc.alnum || name[i] == '_'
  }

  predicate OccursAt(t: string, tag: string, j: nat) {
    j + |tag| <= |t| && t[j..j + |tag|] == tag
  }

  /** The length of a name that a dollar sign ends. */
  lemma {:induction false} NameLength(cc: Chars, name: string, rest: string)
    requires forall i :: 0 <= i < |name| ==> WordChar(cc, name[i])
    ensures WordLen(cc, name + "$" + rest) == |name|
  {
    assert '$' in MARKS;
    var t := name + "$" + rest;
    if name == "" {
      assert t[0] == '$';
    } else {
      assert t[0] == name[0] && t[1..] == name[1..] + "$" + rest;
      NameLength(cc, name[1..], rest);
    }
  }

  lemma OpenReads(cc: Chars, tag: string, rest: string)
    requires IsTag(cc, tag)
    ensures DollarOpen(cc, tag + rest) == Some(tag)
  {
    var t, name := tag + rest, tag[1..|tag| - 1];
    assert '$' in MARKS;
    assert tag == ['$'] + name + ['$'];
    if name == "" {
      assert tag == "$$" && t[1] == '$';
    } else {
      assert t[0] == '$' && t[1] == name[0] == tag[1] && WordChar(cc, name[0]);
      assert t[2..] == name[1..] + "$" + rest;
      NameLength(cc, name[1..], rest);
      assert t[..|tag|] == tag;
    }
  }

  lemma OpenShape(cc: Chars, t: string)
    requires DollarOpen(cc, t).Some?
    ensures IsTag(cc, DollarOpen(cc, t).value) && OccursAt(t, DollarOpen(cc, t).value, 0)
  {
    if |t| > 1 && t[1] == '$' {
      assert t[..2] == "$$";
    } else {
      var k := WordLen(cc, t[2..]);
      var tag := t[..k + 3];
      assert DollarOpen(cc, t) == Some(tag);
      var name := tag[1..|tag| - 1];
      assert |name| == k + 1 && name[0] == t[1];
      forall i | 0 <= i < |name| ensures name[i] in cc.alnum || name[i] == '_' {
        if i > 0 { assert name[i] == t[2..][i - 1]; }
      }
    }
  }

  /** The opener finds exactly the tag that stands at the start of the text. */
  lemma OpenIff(cc: Chars, t: string, tag: string)
    ensures DollarOpen(cc, t) == Some(tag) <==> IsTag(cc, tag) && OccursAt(t, tag, 0)
  {
    if IsTag(cc, tag) && OccursAt(t, tag, 0) {
      assert t == tag + t[|tag|..];
      OpenReads(cc, tag, t[|tag|..]);
    }
    if DollarOpen(cc, t).Some? { OpenShape(cc, t); }
  }

  lemma OccursShift(t: string, tag: string, j: nat)
    requires t != "" && 0 < j
    ensures OccursAt(t, tag, j) <==> OccursAt(t[1..], tag, j - 1)
  {
    if j + |tag| <= |t| {
      var a, b := t[j..j + |tag|], t[1..][j - 1..j - 1 + |tag|];
      assert forall i :: 0 <= i < |tag| ==> a[i] == t[j + i] == b[i];
      assert a == b;
    }
  }

  /** A dollar body ends at the first occurrence of its opening tag. */
  lemma {:induction false} DollarBody(cc: Chars, t: string, tag: string)
    requires IsTag(cc, tag)
    ensures var tk := Dollar(cc, t, tag);
            if tk.closed then
              tk.len >= |tag| && OccursAt(t, tag, tk.len - |tag|)
              && forall j: nat :: j < tk.len - |tag| ==> !OccursAt(t, tag, j)
            else forall j: nat :: !OccursAt(t, tag, j)
  {
    hide DollarOpen, OccursAt, IsTag;
    OpenIff(cc, t, tag);
    if t == "" {
      OccursNever(cc, tag);
    } else if DollarOpen(cc, t) != Some(tag) {
      DollarBody(cc, t[1..], tag);
      forall j: nat | 0 < j ensures OccursAt(t, tag, j) <==> OccursAt(t[1..], tag, j - 1) {
        OccursShift(t, tag, j);
      }
    }
  }

  lemma OccursNever(cc: Chars, tag: string)
    requires IsTag(cc, tag)
    ensures forall j: nat :: !OccursAt("", tag, j)
  {}

  // ---------------------------------------------------------------------------
  // Nested block comments

  datatype Mark = Open | Close | Ch(c: char)

  function Text(ms: seq<Mark>): string {
    if ms == [] then "" else
      (match ms[0] case Open => "/*" case Close => "*/" case Ch(c) => [c]) + Text(ms[1..])
  }

  /** The comment marks nest `depth` deep at the start and close together at the very end. */
  predicate Nested(ms: seq<Mark>, depth: nat) {
    ms != [] &&
    match ms[0]
    case Open => Nested(ms[1..], depth + 1)
    case Close => if depth <= 1 then depth == 1 && ms[1..] == [] else Nested(ms[1..], depth - 1)
    case Ch(_) => Nested(ms[1..], depth)
  }

  /** No two neighbours spell a mark between them. */
  predicate Distinct(ms: seq<Mark>) {
    ms != [] ==>
      && Distinct(ms[1..])
      && (ms[0] == Ch('/') ==> Text(ms[1..]) == "" || Text(ms[1..])[0] != '*')
      && (ms[0] == Ch('*') ==> Text(ms[1..]) == "" || Text(ms[1..])[0] != '/')
  }

  ghost predicate Commented(t: string, depth: nat, n: nat, ms: seq<Mark>) {
    Nested(ms, depth) && Distinct(ms) && n <= |t| && t[..n] == Text(ms)
  }

  ghost predicate IsComment(t: string, depth: nat, n: nat) {
    exists ms :: Commented(t, depth, n, ms)
  }

  lemma {:induction false} BlockMarks(t: string, depth: nat) returns (ms: seq<Mark>)
    requires depth >= 1 && Block(t, depth).closed
    ensures Commented(t, depth, Block(t, depth).len, ms)
    decreases |t|
  {
    if Pair(t, '*', '/') && depth == 1 {
      ms := [Close];
      assert ms[1..] == [] && t[..2] == "*/";
    } else {
      var k := if Pair(t, '/', '*') || Pair(t, '*', '/') then 2 else 1;
      var d := if Pair(t, '/', '*') then depth + 1 else if k == 2 then depth - 1 else depth;
      var ms' := BlockMarks(t[k..], d);
      var m := if Pair(t, '/', '*') then Open else if k == 2 then Close else Ch(t[0]);
      MarksCons(t, depth, m, k, d, Block(t[k..], d).len, ms');
      ms := [m] + ms';
    }
  }

  lemma MarksCons(t: string, depth: nat, m: Mark, k: nat, d: nat, n: nat, ms: seq<Mark>)
    requires t != "" && k == (if Pair(t, '/', '*') || Pair(t, '*', '/') then 2 else 1) && depth >= 1
    requires m == if Pair(t, '/', '*') then Open else if k == 2 then Close else Ch(t[0])
    requires d == (if m.Open? then depth + 1 else if m.Close? then depth - 1 else depth) && d >= 1
    requires Commented(t[k..], d, n, ms)
    ensures Commented(t, depth, k + n, [m] + ms)
  {
    var all := [m] + ms;
    assert all[1..] == ms && all[0] == m;
    assert t[..k + n] == t[..k] + t[k..][..n];
    if Text(ms) != "" { assert Text(ms)[0] == t[k..][..n][0] == t[k]; }
  }

  lemma {:induction false} BlockReads(t: string, depth: nat, n: nat, ms: seq<Mark>)
    requires depth >= 1 && Commented(t, depth, n, ms)
    ensures Block(t, depth) == Token(BlockComment, n, true)
    decreases |ms|
  {
    var d := Text(ms);
    assert t[..n] == d && forall i :: 0 <= i < n ==> t[i] == t[..n][i];
    var k := if ms[0].Ch? then 1 else 2;
    assert d[k..] == Text(ms[1..]);
    assert t[k..][..n - k] == d[k..];
    if ms[0].Ch? {
      NestedText(ms[1..], depth);
      assert t[1] == d[1] == Text(ms[1..])[0];
      BlockReads(t[1..], depth, n - 1, ms[1..]);
    } else if ms[0].Open? {
      BlockReads(t[2..], depth + 1, n - 2, ms[1..]);
    } else if depth > 1 {
      BlockReads(t[2..], depth - 1, n - 2, ms[1..]);
    }
  }

  lemma NestedText(ms: seq<Mark>, depth: nat)
    requires Nested(ms, depth)
    ensures Text(ms) != ""
  {}

  /** A block comment closes after n characters exactly when those spell comment marks
      that nest and first balance there. */
  lemma BlockIff(t: string, depth: nat, n: nat)
    requires depth >= 1
    ensures Block(t, depth) == Token(BlockComment, n, true) <==> IsComment(t, depth, n)
  {
    if Block(t, depth) == Token(BlockComment, n, true) { var ms := BlockMarks(t, depth); }
    if ms :| Commented(t, depth, n, ms) { BlockReads(t, depth, n, ms); }
  }

  // ---------------------------------------------------------------------------
  // Which token starts where

  /** A line comment of n characters: two dashes, up to and with the first newline. */
  predicate LineText(t: string, n: nat) {
    && 3 <= n <= |t| && t[0] == '-' && t[1] == '-' && t[n - 1] == '\n'
    && forall i :: 2 <= i < n - 1 ==> t[i] != '\n'
  }

  ghost predicate BlockText(t: string, n: nat) {
    Pair(t, '/', '*') && n >= 2 && IsComment(t[2..], 1, n - 2)
  }

  /** A quote after this text opens an escape string: an E that does not end a longer word. */
  predicate AfterE(cc: Chars, before: string) {
    || (|before| == 1 && before[0] in {'E', 'e'})
    || (|before| > 1 && before[|before| - 1] in {'E', 'e'}
        && before[|before| - 2] !in cc.alnum && before[|before| - 2] != '_')
  }

  ghost predicate QuotedText(cc: Chars, before: string, t: string, n: nat) {
    && t != "" && n >= 1
    && if t[0] == '\"' then IsQuoted(t[1..], '\"', n - 1)
       else t[0] == '\'' &&
            if AfterE(cc, before) then IsEscapeQuoted(t[1..], n - 1)
            else IsQuoted(t[1..], '\'', n - 1)
  }

  /** A tag, a body in which it does not occur, and the tag again. */
  ghost predicate DollarText(cc: Chars, t: string, n: nat) {
    exists tag :: IsTag(cc, tag) && OccursAt(t, tag, 0) && DollarEnds(t[|tag|..], tag, n - |tag|)
  }

  predicate DollarEnds(t: string, tag: string, n: int) {
    |tag| <= n && OccursAt(t, tag, n - |tag|) && forall j: nat :: j < n - |tag| ==> !OccursAt(t, tag, j)
  }

  /** No comment, quote or tag starts here. */
  ghost predicate PlainText(cc: Chars, t: string) {
    && t != "" && !Pair(t, '-', '-') && !Pair(t, '/', '*') && t[0] != '\'' && t[0] != '\"'
    && forall tag :: IsTag(cc, tag) ==> !OccursAt(t, tag, 0)
  }

  /** The text, which follows `before`, starts with a token of n characters. */
  ghost predicate TokenText(cc: Chars, before: string, t: string, kind: Kind, n: nat) {
    match kind
    case LineComment => LineText(t, n)
    case BlockComment => BlockText(t, n)
    case Literal => QuotedText(cc, before, t, n) || DollarText(cc, t, n)
    case Plain => n == 1 && PlainText(cc, t)
  }

  lemma {:induction false} LineIff(t: string, n: nat)
    ensures Line(t) == Token(LineComment, n, true) <==>
            1 <= n <= |t| && t[n - 1] == '\n' && forall i :: 0 <= i < n - 1 ==> t[i] != '\n'
  {
    if t != "" && t[0] != '\n' && n > 0 { LineIff(t[1..], n - 1); }
  }

  lemma DollarIff(cc: Chars, t: string, tag: string, n: nat)
    requires IsTag(cc, tag)
    ensures Dollar(cc, t, tag) == Token(Literal, n, true) <==> DollarEnds(t, tag, n)
  {
    hide Dollar, OccursAt, IsTag;
    DollarBody(cc, t, tag);
    DollarKind(cc, t, tag);
  }

  lemma DollarKind(cc: Chars, t: string, tag: string)
    ensures Dollar(cc, t, tag).kind == Literal
  {}

  lemma OpenOne(cc: Chars, t: string)
    ensures DollarOpen(cc, t).None? <==> forall tag :: IsTag(cc, tag) ==> !OccursAt(t, tag, 0)
    ensures DollarOpen(cc, t).Some? ==> forall tag :: IsTag(cc, tag) && OccursAt(t, tag, 0) ==> DollarOpen(cc, t).value == tag
  {
    hide DollarOpen, IsTag, OccursAt;
    forall tag ensures DollarOpen(cc, t) == Some(tag) <==> IsTag(cc, tag) && OccursAt(t, tag, 0) { OpenIff(cc, t, tag); }
  }

  lemma EscapeStartIff(cc: Chars, before: string)
    ensures EscapeStart(cc, before) <==> AfterE(cc, before)
  {}

  /** The token that starts at a character of code is the one whose text stands there. */
  lemma FirstIff(cc: Chars, before: string, t: string, kind: Kind, n: nat)
    requires t != "" && t[0] != ';'
    ensures First(cc, before, t) == Token(kind, n, true) <==> TokenText(cc, before, t, kind, n)
  {
    hide Line, Block, Quote, EQuote, Dollar, DollarOpen, EscapeStart, AfterE, IsTag, IsQuoted, IsEscapeQuoted, IsComment,
         OccursAt, DollarEnds;
    EscapeStartIff(cc, before);
    OpenOne(cc, t);
    TagDollar(cc, t);
    if n >= 1 {
      QuoteIff(t[1..], t[0], n - 1);
      EQuoteIff(t[1..], n - 1);
    }
    if Pair(t, '-', '-') {
      if n >= 2 { LineIff(t[2..], n - 2); }
      assert forall i :: 2 <= i < |t| ==> t[i] == t[2..][i - 2];
    } else if Pair(t, '/', '*') {
      if n >= 2 { BlockIff(t[2..], 1, n - 2); }
    } else if t[0] != '\'' && t[0] != '\"' && DollarOpen(cc, t).Some? {
      var tag := DollarOpen(cc, t).value;
      OpenIff(cc, t, tag);
      if n >= |tag| { DollarIff(cc, t[|tag|..], tag, n - |tag|); }
      DollarLong(t, tag, n);
    }
  }

  lemma DollarLong(t: string, tag: string, n: nat)
    requires |tag| <= |t|
    ensures DollarEnds(t[|tag|..], tag, n - |tag|) ==> n >= |tag|
  {}

  /** A tag starts with a dollar sign, so nothing else starts where one stands. */
  lemma TagDollar(cc: Chars, t: string)
    ensures forall tag :: IsTag(cc, tag) && OccursAt(t, tag, 0) ==> t != "" && t[0] == '$' && |tag| <= |t|
  {
    forall tag | IsTag(cc, tag) && OccursAt(t, tag, 0) ensures t != "" && t[0] == '$' && |tag| <= |t| {
      assert t[0..|tag|][0] == tag[0];
    }
  }

  // ---------------------------------------------------------------------------
  // Where the splitter cuts, and what it drops

  /** n characters of whole tokens, none of which starts at a semicolon. */
  ghost predicate Tokens(cc: Chars, before: string, t: string, n: nat)
    decreases n
  {
    || n == 0
    || (n <= |t| && t[0] != ';' &&
        exists kind, k :: 1 <= k <= n && TokenText(cc, before, t, kind, k) && Tokens(cc, before + t[..k], t[k..], n - k))
  }

  /** The first cut of a text falls exactly at the semicolon that whole tokens lead up to. */
  lemma {:induction false} CutIff(cc: Chars, before: string, t: string, n: nat)
    ensures Scan(cc, before, t).end == Cut && Scan(cc, before, t).len == n <==>
            n < |t| && t[n] == ';' && Tokens(cc, before, t, n)
    decreases |t|
  {
    hide First, TokenText;
    if t != "" && t[0] != ';' {
      var tk := First(cc, before, t);
      FirstIff(cc, before, t, tk.kind, tk.len);
      forall kind, k ensures TokenText(cc, before, t, kind, k) <==> tk == Token(kind, k, true) {
        FirstIff(cc, before, t, kind, k);
      }
      if tk.closed && tk.len <= n { CutIff(cc, before + t[..tk.len], t[tk.len..], n - tk.len); }
    }
  }

  /** White space and comments, the last of which may be left open. */
  ghost predicate TriviaText(cc: Chars, t: string)
    decreases |t|
  {
    || t == ""
    || (t[0] in cc.space && TriviaText(cc, t[1..]))
    || (Pair(t, '-', '-') && forall n :: !LineText(t, n))
    || (Pair(t, '/', '*') && forall n :: !BlockText(t, n))
    || exists n :: 1 <= n <= |t| && (LineText(t, n) || BlockText(t, n)) && TriviaText(cc, t[n..])
  }

  lemma CommentIff(t: string)
    ensures Pair(t, '-', '-') ==>
              var tk := Line(t[2..]).Grow(2);
              forall n :: LineText(t, n) <==> tk.closed && tk.len == n
    ensures Pair(t, '/', '*') ==>
              var tk := Block(t[2..], 1).Grow(2);
              forall n :: BlockText(t, n) <==> tk.closed && tk.len == n
  {
    hide Line, Block, IsComment;
    if Pair(t, '-', '-') {
      forall n: nat | n >= 2 ensures LineText(t, n) <==> Line(t[2..]).Grow(2) == Token(LineComment, n, true) {
        LineIff(t[2..], n - 2);
        assert forall i :: 2 <= i < |t| ==> t[i] == t[2..][i - 2];
      }
    }
    if Pair(t, '/', '*') {
      forall n: nat | n >= 2 ensures BlockText(t, n) <==> Block(t[2..], 1).Grow(2) == Token(BlockComment, n, true) {
        BlockIff(t[2..], 1, n - 2);
      }
    }
  }

  /** What is dropped as trivia is exactly white space and comments. */
  lemma {:induction false} TriviaIff(cc: Chars, t: string)
    ensures Trivia(cc, t) <==> TriviaText(cc, t)
    decreases |t|
  {
    hide Line, Block, TriviaText;
    TriviaCases(cc, t);
    assert '-' in MARKS && '/' in MARKS;
    if t != "" {
      if t[0] in cc.space {
        TriviaIff(cc, t[1..]);
      } else if Pair(t, '-', '-') {
        TriviaIff(cc, t[2 + Line(t[2..]).len..]);
      } else if Pair(t, '/', '*') {
        TriviaIff(cc, t[2 + Block(t[2..], 1).len..]);
      }
    }
  }

  lemma TriviaCases(cc: Chars, t: string)
    ensures TriviaText(cc, "")
    ensures t != "" && t[0] in cc.space ==> (TriviaText(cc, t) <==> TriviaText(cc, t[1..]))
    ensures Pair(t, '-', '-') ==> (TriviaText(cc, t) <==> TriviaText(cc, t[2 + Line(t[2..]).len..]))
    ensures Pair(t, '/', '*') ==> (TriviaText(cc, t) <==> TriviaText(cc, t[2 + Block(t[2..], 1).len..]))
    ensures t != "" && t[0] !in cc.space && !Pair(t, '-', '-') && !Pair(t, '/', '*') ==> !TriviaText(cc, t)
  {
    hide Line, Block, LineText, BlockText;
    CommentIff(t);
    CommentStarts(t);
    assert '-' in MARKS && '/' in MARKS;
    if Pair(t, '-', '-') {
      var tk := Line(t[2..]).Grow(2);
      if tk.closed { assert LineText(t, tk.len); } else { assert t[tk.len..] == ""; }
    } else if Pair(t, '/', '*') {
      var tk := Block(t[2..], 1).Grow(2);
      if tk.closed { assert BlockText(t, tk.len); } else { assert t[tk.len..] == ""; }
    }
  }

  lemma CommentStarts(t: string)
    ensures forall n :: LineText(t, n) ==> Pair(t, '-', '-')
    ensures forall n :: BlockText(t, n) ==> Pair(t, '/', '*')
  {}
}
