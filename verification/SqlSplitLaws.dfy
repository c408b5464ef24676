/** What the splitter promises: nothing lost, cuts only in code, the two lexers agree,
    and splitting a re-joined list of statements gives the list back. */
module SqlSplitLaws {
  import opened Wrappers
  import opened SqlSplit

  // ---------------------------------------------------------------------------
  // Tokens do not change when white space or a cut follows them

  /** The text may follow a statement without gluing to its last token. */
  predicate Apart(cc: Chars, y: string) {
    y == "" || y[0] == ';' || y[0] in cc.space
  }

  predicate AllSpace(cc: Chars, w: string) {
    forall i :: 0 <= i < |w| ==> w[i] in cc.space
  }

  lemma ApartMarks(cc: Chars, y: string)
    requires Apart(cc, y) && y != ""
    ensures y[0] !in {'-', '/', '*', '\'', '\"', '$', '\\', '_'} && !WordChar(cc, y[0])
  {
    assert forall c :: c in {'-', '/', '*', '\'', '\"', '$', '\\', '_', ';'} ==> c in MARKS;
  }

  lemma {:induction false} LineStable(x: string, y: string)
    ensures Line(x).closed ==> Line(x + y) == Line(x)
    ensures !Line(x).closed ==> Line(x + y) == Line(y).Grow(|x|)
  {
    if x == "" {
      assert x + y == y;
    } else {
      LineStable(x[1..], y);
      assert (x + y)[1..] == x[1..] + y;
    }
  }

  lemma {:induction false} BlockStable(cc: Chars, x: string, depth: nat, y: string)
    requires depth >= 1 && Apart(cc, y)
    ensures Block(x, depth).closed ==> Block(x + y, depth) == Block(x, depth)
    ensures !Block(x, depth).closed ==>
              (y != "" ==> Block(x + y, depth).len > |x|) && (AllSpace(cc, y) ==> !Block(x + y, depth).closed)
    decreases |x|
  {
    if y != "" { ApartMarks(cc, y); }
    if x == "" {
      assert x + y == y;
      if AllSpace(cc, y) { BlockSpaces(cc, y, depth); }
    } else if Pair(x, '/', '*') {
      assert (x + y)[2..] == x[2..] + y;
      BlockStable(cc, x[2..], depth + 1, y);
    } else if Pair(x, '*', '/') {
      assert (x + y)[2..] == x[2..] + y;
      if depth > 1 { BlockStable(cc, x[2..], depth - 1, y); }
    } else {
      assert (x + y)[1..] == x[1..] + y;
      BlockStable(cc, x[1..], depth, y);
    }
  }

  lemma {:induction false} BlockSpaces(cc: Chars, w: string, depth: nat)
    requires depth >= 1 && AllSpace(cc, w)
    ensures !Block(w, depth).closed
  {
    if w != "" {
      ApartMarks(cc, w);
      BlockSpaces(cc, w[1..], depth);
    }
  }

  lemma {:induction false} QuoteStable(cc: Chars, x: string, q: char, y: string)
    requires Apart(cc, y) && q in {'\'', '\"'}
    ensures Quote(x, q).closed ==> Quote(x + y, q) == Quote(x, q)
    ensures !Quote(x, q).closed ==>
              (y != "" ==> Quote(x + y, q).len > |x|) && (AllSpace(cc, y) ==> !Quote(x + y, q).closed)
    decreases |x|
  {
    if y != "" { ApartMarks(cc, y); }
    if x == "" {
      assert x + y == y;
      if AllSpace(cc, y) { QuoteSpaces(cc, y, q); }
    } else if x[0] != q {
      assert (x + y)[1..] == x[1..] + y;
      QuoteStable(cc, x[1..], q, y);
    } else if |x| > 1 && x[1] == q {
      assert (x + y)[2..] == x[2..] + y;
      QuoteStable(cc, x[2..], q, y);
    }
  }

  lemma {:induction false} QuoteSpaces(cc: Chars, w: string, q: char)
    requires AllSpace(cc, w) && q in {'\'', '\"'}
    ensures !Quote(w, q).closed
  {
    if w != "" {
      ApartMarks(cc, w);
      QuoteSpaces(cc, w[1..], q);
    }
  }

  lemma {:induction false} EQuoteStable(cc: Chars, x: string, y: string)
    requires Apart(cc, y)
    ensures EQuote(x).closed ==> EQuote(x + y) == EQuote(x)
    ensures !EQuote(x).closed ==>
              (y != "" ==> EQuote(x + y).len > |x|) && (AllSpace(cc, y) ==> !EQuote(x + y).closed)
    decreases |x|
  {
    if y != "" { ApartMarks(cc, y); }
    if x == "" {
      assert x + y == y;
      if AllSpace(cc, y) { EQuoteSpaces(cc, y); }
    } else if x[0] == '\\' && |x| > 1 {
      assert (x + y)[2..] == x[2..] + y;
      EQuoteStable(cc, x[2..], y);
    } else if x[0] == '\\' {
      assert EQuote(x) == EQuote(x[1..]).Grow(1) && x[1..] == "";
      if y != "" {
        assert (x + y)[2..] == y[1..];
        if AllSpace(cc, y) { EQuoteSpaces(cc, y[1..]); }
      } else {
        assert x + y == x;
      }
    } else if x[0] != '\'' {
      assert (x + y)[1..] == x[1..] + y;
      EQuoteStable(cc, x[1..], y);
    } else if |x| > 1 && x[1] == '\'' {
      assert (x + y)[2..] == x[2..] + y;
      EQuoteStable(cc, x[2..], y);
    }
  }

  lemma {:induction false} EQuoteSpaces(cc: Chars, w: string)
    requires AllSpace(cc, w)
    ensures !EQuote(w).closed
  {
    if w != "" {
      ApartMarks(cc, w);
      EQuoteSpaces(cc, w[1..]);
    }
  }

  lemma {:induction false} WordStable(cc: Chars, x: string, y: string)
    requires Apart(cc, y)
    ensures WordLen(cc, x + y) == WordLen(cc, x)
  {
    if y != "" { ApartMarks(cc, y); }
    if x == "" {
      assert x + y == y;
    } else {
      assert (x + y)[1..] == x[1..] + y;
      WordStable(cc, x[1..], y);
    }
  }

  lemma OpenStable(cc: Chars, x: string, y: string)
    requires Apart(cc, y)
    ensures DollarOpen(cc, x + y) == DollarOpen(cc, x)
  {
    if y != "" { ApartMarks(cc, y); }
    if x == "" {
      assert x + y == y;
    } else if |x| > 1 {
      assert (x + y)[2..] == x[2..] + y;
      WordStable(cc, x[2..], y);
      var j := 2 + WordLen(cc, x[2..]);
      if j < |x| { assert (x + y)[..j + 1] == x[..j + 1]; }
    }
  }

  lemma {:induction false} DollarStable(cc: Chars, x: string, tag: string, y: string)
    requires Apart(cc, y)
    ensures Dollar(cc, x, tag).closed ==> Dollar(cc, x + y, tag) == Dollar(cc, x, tag)
    ensures !Dollar(cc, x, tag).closed ==>
              && (y != "" ==> Dollar(cc, x + y, tag).len > |x|)
              && (AllSpace(cc, y) ==> !Dollar(cc, x + y, tag).closed)
  {
    hide DollarOpen;
    OpenStable(cc, x, y);
    if x == "" {
      assert x + y == y;
      if y != "" { ApartMarks(cc, y); }
      if AllSpace(cc, y) { DollarSpaces(cc, y, tag); }
    } else if DollarOpen(cc, x) != Some(tag) {
      assert (x + y)[1..] == x[1..] + y;
      DollarStable(cc, x[1..], tag, y);
    }
  }

  lemma {:induction false} DollarSpaces(cc: Chars, w: string, tag: string)
    requires AllSpace(cc, w)
    ensures !Dollar(cc, w, tag).closed
  {
    if w != "" {
      ApartMarks(cc, w);
      DollarSpaces(cc, w[1..], tag);
    }
  }

  /** A token that ends inside x ends there whatever follows apart; one that does not
      runs on into what follows. */
  lemma FirstStable(cc: Chars, buf: string, x: string, y: string)
    requires x != "" && x[0] != ';' && Apart(cc, y)
    ensures First(cc, buf, x).closed ==> First(cc, buf, x + y) == First(cc, buf, x)
    ensures !First(cc, buf, x).closed ==>
              && First(cc, buf, x + y).kind == First(cc, buf, x).kind
              && (y != "" ==> First(cc, buf, x + y).len > |x|)
              && (AllSpace(cc, y) && First(cc, buf, x).kind != LineComment ==> !First(cc, buf, x + y).closed)
              && (First(cc, buf, x).kind == LineComment ==> First(cc, buf, x + y) == Line(y).Grow(|x|))
  {
    hide Line, Block, Quote, EQuote, Dollar, DollarOpen, EscapeStart, AllSpace;
    if y != "" { ApartMarks(cc, y); }
    assert (x + y)[1..] == x[1..] + y;
    if |x| > 1 { assert (x + y)[2..] == x[2..] + y; }
    if Pair(x, '-', '-') {
      LineStable(x[2..], y);
    } else if Pair(x, '/', '*') {
      BlockStable(cc, x[2..], 1, y);
    } else if x[0] == '\'' {
      EQuoteStable(cc, x[1..], y);
      QuoteStable(cc, x[1..], '\'', y);
    } else if x[0] == '\"' {
      QuoteStable(cc, x[1..], '\"', y);
    } else {
      OpenStable(cc, x, y);
      var tag := DollarOpen(cc, x);
      if tag.Some? {
        assert (x + y)[|tag.value|..] == x[|tag.value|..] + y;
        DollarStable(cc, x[|tag.value|..], tag.value, y);
      }
    }
  }

  // ---------------------------------------------------------------------------
  // Scanning a statement in different surroundings

  predicate Wordy(cc: Chars, buf: string) {
    buf != "" && WordChar(cc, buf[|buf| - 1])
  }

  /** Two buffers that look alike to the two-character look-behind. */
  predicate Alike(cc: Chars, a: string, b: string) {
    EscapeStart(cc, a) == EscapeStart(cc, b) && Wordy(cc, a) == Wordy(cc, b)
  }

  lemma AlikeAppend(cc: Chars, a: string, b: string, u: string)
    requires Alike(cc, a, b)
    ensures Alike(cc, a + u, b + u)
  {
    if u == "" {
      assert a + u == a && b + u == b;
    } else {
      assert (a + u)[|a + u| - 1] == u[|u| - 1] == (b + u)[|b + u| - 1];
    }
  }

  lemma {:induction false} ScanAlike(cc: Chars, a: string, b: string, x: string)
    requires Alike(cc, a, b)
    ensures Scan(cc, a, x) == Scan(cc, b, x)
    decreases |x|
  {
    if x != "" && x[0] != ';' {
      assert First(cc, a, x) == First(cc, b, x) by { hide Line, Block, Quote, EQuote, Dollar, DollarOpen; }
      hide First;
      var n := First(cc, a, x).len;
      AlikeAppend(cc, a, b, x[..n]);
      ScanAlike(cc, a + x[..n], b + x[..n], x[n..]);
    }
  }

  lemma SpaceToken(cc: Chars, buf: string, x: string)
    requires x != "" && x[0] in cc.space
    ensures x[0] != ';' && First(cc, buf, x) == Token(Plain, 1, true)
  {
    ApartMarks(cc, x);
    assert ';' in MARKS;
  }

  lemma {:induction false} ScanLead(cc: Chars, buf: string, w: string, x: string)
    requires AllSpace(cc, w)
    ensures Scan(cc, buf, w + x) == Scan(cc, buf + w, x).(len := |w| + Scan(cc, buf + w, x).len)
    decreases |w|
  {
    hide First;
    if w == "" {
      assert w + x == x && buf + w == buf;
    } else {
      SpaceToken(cc, buf, w + x);
      assert (w + x)[1..] == w[1..] + x && (w + x)[..1] == w[..1];
      ScanLead(cc, buf + w[..1], w[1..], x);
      assert buf + w[..1] + w[1..] == buf + w;
    }
  }

  lemma SpacesAlike(cc: Chars, w: string)
    requires AllSpace(cc, w)
    ensures Alike(cc, w, "")
  {
    if w != "" { ApartMarks(cc, w[|w| - 1..]); }
  }

  lemma ScanSpaces(cc: Chars, buf: string, w: string)
    requires AllSpace(cc, w)
    ensures Scan(cc, buf, w) == Outcome(InCode, |w|, true)
  {
    ScanLead(cc, buf, w, "");
    assert w + "" == w;
  }

  lemma {:induction false} LineSpaces(cc: Chars, w: string)
    requires AllSpace(cc, w)
    ensures AllSpace(cc, w[Line(w).len..])
    ensures '\n' in w ==> Line(w).closed
  {
    if w != "" && w[0] != '\n' { LineSpaces(cc, w[1..]); }
  }

  /** White space after a statement: only a line comment can notice it. */
  lemma {:induction false} ScanTrail(cc: Chars, buf: string, x: string, w: string)
    requires AllSpace(cc, w)
    ensures var o, p := Scan(cc, buf, x), Scan(cc, buf, x + w);
            && p.trivia == o.trivia
            && (o.end == Cut <==> p.end == Cut)
            && (o.end == InCode ==> p.end == InCode)
            && (o.end == InOther ==> p.end == InOther)
            && (o.end == InLine ==> p.end == InLine || p.end == InCode)
            && (o.end == InLine && '\n' in w ==> p.end == InCode)
    decreases |x|
  {
    hide First, Line;
    if x == "" {
      assert x + w == w;
      ScanSpaces(cc, buf, w);
    } else if x[0] != ';' {
      FirstStable(cc, buf, x, w);
      var tk, tk' := First(cc, buf, x), First(cc, buf, x + w);
      if tk.closed {
        assert (x + w)[..tk.len] == x[..tk.len] && (x + w)[tk.len..] == x[tk.len..] + w;
        ScanTrail(cc, buf + x[..tk.len], x[tk.len..], w);
      } else if tk.kind == LineComment {
        LineSpaces(cc, w);
        if tk'.closed {
          assert (x + w)[tk'.len..] == w[Line(w).len..];
          ScanSpaces(cc, buf + (x + w)[..tk'.len], w[Line(w).len..]);
        }
      }
    }
  }

  /** A semicolon after a statement that ends in code cuts. */
  lemma {:induction false} ScanCut(cc: Chars, buf: string, u: string, v: string)
    requires Scan(cc, buf, u).end == InCode
    ensures Scan(cc, buf, u + ";" + v) == Outcome(Cut, |u|, Scan(cc, buf, u).trivia)
    decreases |u|
  {
    hide First;
    var z := ";" + v;
    assert u + ";" + v == u + z;
    if u == "" {
      assert u + z == z;
    } else {
      FirstStable(cc, buf, u, z);
      var n := First(cc, buf, u).len;
      assert (u + z)[..n] == u[..n] && (u + z)[n..] == u[n..] + ";" + v;
      ScanCut(cc, buf + u[..n], u[n..], v);
    }
  }

  lemma Within(x: string, n: nat, m: nat)
    requires n <= m <= |x|
    ensures x[..m][..n] == x[..n] && x[..m][n..] == x[n..][..m - n]
  {}

  /** Conversely, what precedes a cut ends in code when scanned on its own. */
  lemma {:induction false} ScanPrefix(cc: Chars, buf: string, x: string)
    requires Scan(cc, buf, x).end == Cut
    ensures Scan(cc, buf, x[..Scan(cc, buf, x).len]) == Scan(cc, buf, x).(end := InCode)
    decreases |x|
  {
    hide First;
    var o := Scan(cc, buf, x);
    var u, z := x[..o.len], x[o.len..];
    assert x == u + z && z[0] == ';';
    if u != "" {
      var tk := First(cc, buf, x);
      FirstStable(cc, buf, u, z);
      assert tk.closed && First(cc, buf, u) == tk;
      ScanPrefix(cc, buf + x[..tk.len], x[tk.len..]);
      Within(x, tk.len, o.len);
    }
  }

  // ---------------------------------------------------------------------------
  // Nothing is lost, and cuts fall exactly where the lexer is in code

  function Join(segs: seq<string>): string
    requires segs != []
  {
    if |segs| == 1 then segs[0] else segs[0] + ";" + Join(segs[1..])
  }

  predicate CutsInCode(cc: Chars, segs: seq<string>) {
    && segs != []
    && (forall i :: 0 <= i < |segs| - 1 ==> Scan(cc, "", segs[i]).end == InCode)
    && Scan(cc, "", segs[|segs| - 1]).end != Cut
  }

  lemma {:induction false} RawSound(cc: Chars, s: string)
    ensures Join(Raw(cc, s)) == s && CutsInCode(cc, Raw(cc, s))
    decreases |s|
  {
    hide Scan;
    var o := Scan(cc, "", s);
    if o.end == Cut {
      var rest := s[o.len + 1..];
      RawSound(cc, rest);
      ScanPrefix(cc, "", s);
      assert Raw(cc, s)[1..] == Raw(cc, rest);
      assert s == s[..o.len] + ";" + rest;
    }
  }

  lemma {:induction false} RawComplete(cc: Chars, segs: seq<string>)
    requires CutsInCode(cc, segs)
    ensures Raw(cc, Join(segs)) == segs
  {
    hide Scan;
    if |segs| > 1 {
      RawComplete(cc, segs[1..]);
      ScanCut(cc, "", segs[0], Join(segs[1..]));
      assert Join(segs)[..|segs[0]|] == segs[0];
      assert Join(segs)[|segs[0]| + 1..] == Join(segs[1..]);
    }
  }

  /** The raw segments are the one way to write the input as texts joined by semicolons
      in which every semicolon falls where the lexer is in code. */
  lemma RawIff(cc: Chars, s: string, segs: seq<string>)
    ensures segs == Raw(cc, s) <==> CutsInCode(cc, segs) && Join(segs) == s
  {
    RawSound(cc, s);
    if CutsInCode(cc, segs) && Join(segs) == s { RawComplete(cc, segs); }
  }

  // ---------------------------------------------------------------------------
  // The second lexer, stripping, and which segments are dropped

  lemma {:induction false} TriviaAgrees(cc: Chars, buf: string, x: string)
    ensures Trivia(cc, x) <==> Scan(cc, buf, x).end != Cut && Scan(cc, buf, x).trivia
    decreases |x|
  {
    hide Line, Block, Quote, EQuote, Dollar, DollarOpen, EscapeStart;
    if x != "" && x[0] != ';' {
      var tk := First(cc, buf, x);
      if x[0] in cc.space {
        SpaceToken(cc, buf, x);
        TriviaAgrees(cc, buf + x[..1], x[1..]);
      } else if Pair(x, '-', '-') || Pair(x, '/', '*') {
        if tk.closed {
          TriviaAgrees(cc, buf + x[..tk.len], x[tk.len..]);
        } else {
          assert x[tk.len..] == "";
        }
      }
    } else if x != "" {
      assert ';' in MARKS;
    }
  }

  lemma {:induction false} LStripParts(cc: Chars, s: string) returns (w: string)
    ensures s == w + LStrip(cc, s) && AllSpace(cc, w)
    ensures LStrip(cc, s) == "" || LStrip(cc, s)[0] !in cc.space
  {
    w := "";
    if s != "" && s[0] in cc.space {
      var w' := LStripParts(cc, s[1..]);
      w := s[..1] + w';
      assert s == s[..1] + s[1..];
    }
  }

  lemma {:induction false} RStripParts(cc: Chars, s: string) returns (w: string)
    ensures s == RStrip(cc, s) + w && AllSpace(cc, w)
    ensures RStrip(cc, s) == "" || RStrip(cc, s)[|RStrip(cc, s)| - 1] !in cc.space
  {
    w := "";
    if s != "" && s[|s| - 1] in cc.space {
      var init, last := s[..|s| - 1], s[|s| - 1..];
      var w' := RStripParts(cc, init);
      w := w' + last;
      assert s == init + last == RStrip(cc, init) + w' + last == RStrip(cc, init) + (w' + last);
    }
  }

  /** A text neither empty nor with white space at either end. */
  predicate Trimmed(cc: Chars, t: string) {
    t != "" && t[0] !in cc.space && t[|t| - 1] !in cc.space
  }

  lemma StripParts(cc: Chars, s: string) returns (a: string, b: string)
    ensures AllSpace(cc, a) && AllSpace(cc, b) && s == a + Strip(cc, s) + b
    ensures Strip(cc, s) == "" || Trimmed(cc, Strip(cc, s))
  {
    a := LStripParts(cc, s);
    b := RStripParts(cc, LStrip(cc, s));
    assert a + (Strip(cc, s) + b) == a + Strip(cc, s) + b;
  }

  lemma {:induction false} StripUnique(cc: Chars, a: string, t: string, b: string)
    requires AllSpace(cc, a) && AllSpace(cc, b) && Trimmed(cc, t)
    ensures Strip(cc, a + t + b) == t
    decreases |a| + |b|
  {
    if a != "" {
      assert (a + t + b)[1..] == a[1..] + t + b;
      StripUnique(cc, a[1..], t, b);
    } else if b != "" {
      var s, k := t + b, |b| - 1;
      assert a + t + b == s;
      assert s[..|s| - 1] == t + b[..k] && a + t + b[..k] == t + b[..k];
      assert s[|s| - 1] == b[k];
      StripUnique(cc, a, t, b[..k]);
    } else {
      assert a + t + b == t;
    }
  }

  lemma {:induction false} StripSpaces(cc: Chars, w: string)
    requires AllSpace(cc, w)
    ensures Strip(cc, w) == ""
  {
    if w != "" { StripSpaces(cc, w[1..]); }
  }

  lemma ScanStrip(cc: Chars, s: string)
    ensures var o, t := Scan(cc, "", s), Scan(cc, "", Strip(cc, s));
            && t.trivia == o.trivia
            && (t.end == Cut <==> o.end == Cut)
            && (o.end == InCode ==> t.end == InCode || t.end == InLine)
  {
    hide Scan, Strip, Alike;
    var a, b := StripParts(cc, s);
    var t := Strip(cc, s);
    assert s == a + (t + b) && "" + a == a;
    ScanLead(cc, "", a, t + b);
    SpacesAlike(cc, a);
    ScanAlike(cc, a, "", t + b);
    ScanTrail(cc, "", t, b);
  }

  /** A segment is dropped exactly when it holds nothing but white space and comments. */
  lemma EmitIff(cc: Chars, seg: string)
    requires Scan(cc, "", seg).end != Cut
    ensures Emit(cc, seg) == if Scan(cc, "", seg).trivia then [] else [Strip(cc, seg)]
  {
    hide Scan, Strip, Trivia;
    ScanStrip(cc, seg);
    TriviaAgrees(cc, "", Strip(cc, seg));
    ScanSpaces(cc, "", "");
  }

  // ---------------------------------------------------------------------------
  // Splitting a joined list of statements

  predicate Statement(cc: Chars, t: string) {
    Trimmed(cc, t) && Scan(cc, "", t).end != Cut && !Scan(cc, "", t).trivia
  }

  /** A list a split can produce: only the last statement may be left unterminated. */
  predicate Statements(cc: Chars, ts: seq<string>) {
    && (forall i :: 0 <= i < |ts| ==> Statement(cc, ts[i]))
    && (forall i :: 0 <= i < |ts| - 1 ==> Scan(cc, "", ts[i]).end != InOther)
  }

  function JoinStatements(ts: seq<string>): string {
    if ts == [] then "" else if |ts| == 1 then ts[0] else ts[0] + "\n;\n" + JoinStatements(ts[1..])
  }

  lemma EmitStatement(cc: Chars, seg: string)
    requires Scan(cc, "", seg).end != Cut && Emit(cc, seg) != []
    ensures Emit(cc, seg) == [Strip(cc, seg)] && Statement(cc, Strip(cc, seg))
    ensures Scan(cc, "", seg).end == InCode ==> Scan(cc, "", Strip(cc, seg)).end != InOther
  {
    hide Scan, Strip, Trivia;
    EmitIff(cc, seg);
    ScanStrip(cc, seg);
    ScanSpaces(cc, "", "");
    var a, b := StripParts(cc, seg);
  }

  lemma {:induction false} SplitStatements(cc: Chars, s: string)
    ensures Statements(cc, Split(cc, s))
    decreases |s|
  {
    hide Scan, Strip, Trivia, Statement;
    var o := Scan(cc, "", s);
    SplitUnfold(cc, s);
    if o.end == Cut {
      var seg := s[..o.len];
      ScanPrefix(cc, "", s);
      SplitStatements(cc, s[o.len + 1..]);
      if Emit(cc, seg) != [] { EmitStatement(cc, seg); }
    } else if Emit(cc, s) != [] {
      EmitStatement(cc, s);
    }
  }

  lemma SplitUnfold(cc: Chars, s: string)
    ensures var o := Scan(cc, "", s);
            Split(cc, s) == if o.end != Cut then Emit(cc, s)
                            else Emit(cc, s[..o.len]) + Split(cc, s[o.len + 1..])
  {
    hide Scan, Emit;
    var o, segs := Scan(cc, "", s), Raw(cc, s);
    assert EmitAll(cc, segs) == Emit(cc, segs[0]) + EmitAll(cc, segs[1..]);
    if o.end != Cut { assert segs[1..] == []; } else { assert segs[1..] == Raw(cc, s[o.len + 1..]); }
  }

  lemma EmitLead(cc: Chars, w: string, seg: string)
    requires AllSpace(cc, w)
    ensures Emit(cc, w + seg) == Emit(cc, seg)
  {
    hide Strip, Trivia;
    var a, b := StripParts(cc, seg);
    var t := Strip(cc, seg);
    if t != "" {
      assert w + seg == (w + a) + t + b;
      StripUnique(cc, w + a, t, b);
    } else {
      assert w + seg == w + (a + b);
      StripSpaces(cc, w + seg);
    }
  }

  lemma SplitLead(cc: Chars, w: string, x: string)
    requires AllSpace(cc, w)
    ensures Split(cc, w + x) == Split(cc, x)
  {
    hide Scan, Emit, Split, Alike;
    ScanLead(cc, "", w, x);
    SpacesAlike(cc, w);
    ScanAlike(cc, w, "", x);
    assert "" + w == w;
    var o := Scan(cc, "", x);
    SplitUnfold(cc, x);
    SplitUnfold(cc, w + x);
    if o.end == Cut {
      assert (w + x)[..|w| + o.len] == w + x[..o.len];
      assert (w + x)[|w| + o.len + 1..] == x[o.len + 1..];
      EmitLead(cc, w, x[..o.len]);
    } else {
      EmitLead(cc, w, x);
    }
  }

  /** Each emitted statement splits to itself alone. */
  lemma SplitAlone(cc: Chars, t: string)
    requires Statement(cc, t)
    ensures Split(cc, t) == [t]
  {
    hide Scan, Emit, Split, Strip;
    SplitUnfold(cc, t);
    EmitIff(cc, t);
    StripUnique(cc, "", t, "");
    assert "" + t + "" == t;
  }

  /** Any list of statements survives joining and splitting. */
  lemma {:induction false} SplitJoin(cc: Chars, ts: seq<string>)
    requires Statements(cc, ts)
    ensures Split(cc, JoinStatements(ts)) == ts
  {
    hide Scan, Emit, Split, Strip;
    if ts == [] {
      SplitUnfold(cc, "");
      ScanSpaces(cc, "", "");
      EmitIff(cc, "");
    } else if |ts| == 1 {
      SplitAlone(cc, ts[0]);
    } else {
      var t, rest := ts[0], JoinStatements(ts[1..]);
      var seg := t + "\n";
      ScanTrail(cc, "", t, "\n");
      assert Scan(cc, "", seg).end == InCode;
      var all := JoinStatements(ts);
      assert all == seg + ";" + ("\n" + rest);
      ScanCut(cc, "", seg, "\n" + rest);
      assert all[..|seg|] == seg && all[|seg| + 1..] == "\n" + rest;
      SplitUnfold(cc, all);
      EmitIff(cc, seg);
      StripUnique(cc, "", t, "\n");
      assert "" + t + "\n" == seg;
      SplitLead(cc, "\n", rest);
      SplitJoin(cc, ts[1..]);
    }
  }

  /** For every text, joining the statements and splitting again gives the same list. */
  lemma RoundTrip(cc: Chars, s: string)
    ensures Split(cc, JoinStatements(Split(cc, s))) == Split(cc, s)
    ensures forall t :: t in Split(cc, s) ==> Split(cc, t) == [t]
  {
    hide *;
    var ts := Split(cc, s);
    SplitStatements(cc, s);
    SplitJoin(cc, ts);
    forall t | t in ts ensures Split(cc, t) == [t] {
      AllStatements(cc, ts, t);
      SplitAlone(cc, t);
    }
  }

  lemma AllStatements(cc: Chars, ts: seq<string>, t: string)
    requires Statements(cc, ts) && t in ts
    ensures Statement(cc, t)
  {}
}
