/** The SQL statement splitter: src/artek_buddy/db/sql_split.py.

    The two lexing loops are methods.  Each is proved equal to a function that
    works on the remaining text, and the promises are proved about those functions. */
module SqlSplit {
  import opened Wrappers

  /** The characters for which Python's str.isalpha, str.isalnum and str.isspace hold,
      kept abstract. */
  datatype CharClass = CharClass(alpha: set<char>, alnum: set<char>, space: set<char>)

  const MARKS := {'-', '/', '*', '\'', '\"', '$', ';', '\\', '_'}

  /** All the splitter needs to know about the character classes. */
  ghost predicate Sound(cc: CharClass) {
    && '\n' in cc.space && 'E' in cc.alpha && 'e' in cc.alpha
    && cc.alpha <= cc.alnum && cc.space !! cc.alnum
    && MARKS !! cc.alnum && MARKS !! cc.space
  }

  type Chars = cc: CharClass | Sound(cc)
    ghost witness CharClass({'E', 'e'}, {'E', 'e', '0'}, {'\n', ' '})

  predicate WordChar(cc: Chars, c: char) {
    c in cc.alnum || c == '_'
  }

  // ---------------------------------------------------------------------------
  // Tokens: what one visit to a lexer state consumes of the remaining text

  datatype Kind = Plain | LineComment | BlockComment | Literal

  /** `closed` is false when the text ends inside the token. */
  datatype Token = Token(kind: Kind, len: nat, closed: bool) {
    function Grow(n: nat): Token {
      Token(kind, n + len, closed)
    }
  }

  predicate Pair(t: string, a: char, b: char) {
    |t| > 1 && t[0] == a && t[1] == b
  }

  function Line(t: string): (tk: Token)
    ensures tk.kind == LineComment && tk.len <= |t| && (!tk.closed ==> tk.len == |t|)
    ensures t != "" ==> tk.len >= 1
  {
    if t == "" then Token(LineComment, 0, false)
    else if t[0] == '\n' then Token(LineComment, 1, true)
    else Line(t[1..]).Grow(1)
  }

  function Block(t: string, depth: nat): (tk: Token)
    requires depth >= 1
    ensures tk.kind == BlockComment && tk.len <= |t| && (!tk.closed ==> tk.len == |t|)
    decreases |t|
  {
    if t == "" then Token(BlockComment, 0, false)
    else if Pair(t, '/', '*') then Block(t[2..], depth + 1).Grow(2)
    else if Pair(t, '*', '/') then
      if depth == 1 then Token(BlockComment, 2, true) else Block(t[2..], depth - 1).Grow(2)
    else Block(t[1..], depth).Grow(1)
  }

  function Quote(t: string, q: char): (tk: Token)
    ensures tk.kind == Literal && tk.len <= |t| && (!tk.closed ==> tk.len == |t|)
    decreases |t|
  {
    if t == "" then Token(Literal, 0, false)
    else if t[0] != q then Quote(t[1..], q).Grow(1)
    else if |t| > 1 && t[1] == q then Quote(t[2..], q).Grow(2)
    else Token(Literal, 1, true)
  }

  function EQuote(t: string): (tk: Token)
    ensures tk.kind == Literal && tk.len <= |t| && (!tk.closed ==> tk.len == |t|)
    decreases |t|
  {
    if t == "" then Token(Literal, 0, false)
    else if t[0] == '\\' && |t| > 1 then EQuote(t[2..]).Grow(2)
    else if t[0] != '\'' then EQuote(t[1..]).Grow(1)
    else if |t| > 1 && t[1] == '\'' then EQuote(t[2..]).Grow(2)
    else Token(Literal, 1, true)
  }

  function WordLen(cc: Chars, t: string): (k: nat)
    ensures k <= |t|
    ensures forall j :: 0 <= j < k ==> WordChar(cc, t[j])
    ensures k < |t| ==> !WordChar(cc, t[k])
  {
    if t != "" && WordChar(cc, t[0]) then 1 + WordLen(cc, t[1..]) else 0
  }

  function DollarOpen(cc: Chars, t: string): (tag: Option<string>)
    ensures tag.Some? ==> 2 <= |tag.value| <= |t| && tag.value == t[..|tag.value|] && t[0] == '$'
  {
    if t == "" || t[0] != '$' then None
    else if |t| > 1 && t[1] == '$' then Some("$$")
    else if |t| > 1 && (t[1] in cc.alpha || t[1] == '_') then
      var j := 2 + WordLen(cc, t[2..]);
      if j < |t| && t[j] == '$' then Some(t[..j + 1]) else None
    else None
  }

  function Dollar(cc: Chars, t: string, tag: string): (tk: Token)
    ensures tk.kind == Literal && tk.len <= |t| && (!tk.closed ==> tk.len == |t|)
  {
    if DollarOpen(cc, t) == Some(tag) then Token(Literal, |tag|, true)
    else if t == "" then Token(Literal, 0, false)
    else Dollar(cc, t[1..], tag).Grow(1)
  }

  /** Whether a quote that follows `buf` opens an escape string. */
  predicate EscapeStart(cc: Chars, buf: string) {
    && |buf| >= 1 && buf[|buf| - 1] in ['E', 'e']
    && (|buf| >= 2 ==> !WordChar(cc, buf[|buf| - 2]))
  }

  /** The token that starts at a character of the code state other than a semicolon. */
  function First(cc: Chars, buf: string, t: string): (tk: Token)
    requires t != "" && t[0] != ';'
    ensures 1 <= tk.len <= |t| && (!tk.closed ==> tk.len == |t|)
  {
    if Pair(t, '-', '-') then Line(t[2..]).Grow(2)
    else if Pair(t, '/', '*') then Block(t[2..], 1).Grow(2)
    else if t[0] == '\'' then (if EscapeStart(cc, buf) then EQuote(t[1..]) else Quote(t[1..], '\'')).Grow(1)
    else if t[0] == '\"' then Quote(t[1..], '\"').Grow(1)
    else match DollarOpen(cc, t)
      case Some(tag) => Dollar(cc, t[|tag|..], tag).Grow(|tag|)
      case None => Token(Plain, 1, true)
  }

  // ---------------------------------------------------------------------------
  // Scanning one statement, and the list of raw segments

  datatype End = Cut | InCode | InLine | InOther

  /** Where scanning stopped, after how many characters, and whether all of them were
      white space or comments. */
  datatype Outcome = Outcome(end: End, len: nat, trivia: bool)

  predicate IsTrivia(cc: Chars, tk: Token, c: char) {
    tk.kind.LineComment? || tk.kind.BlockComment? || (tk.kind.Plain? && c in cc.space)
  }

  function Scan(cc: Chars, buf: string, t: string): (o: Outcome)
    ensures o.len <= |t| && (o.end == Cut <==> o.len < |t|)
    ensures o.end == Cut ==> t[o.len] == ';'
    decreases |t|
  {
    if t == "" then Outcome(InCode, 0, true)
    else if t[0] == ';' then Outcome(Cut, 0, true)
    else
      var tk := First(cc, buf, t);
      var trivia := IsTrivia(cc, tk, t[0]);
      if !tk.closed then Outcome(if tk.kind.LineComment? then InLine else InOther, |t|, trivia)
      else
        var o := Scan(cc, buf + t[..tk.len], t[tk.len..]);
        Outcome(o.end, tk.len + o.len, trivia && o.trivia)
  }

  /** The raw text between the semicolons at which the splitter cuts. */
  function Raw(cc: Chars, s: string): (segs: seq<string>)
    ensures segs != []
    decreases |s|
  {
    var o := Scan(cc, "", s);
    if o.end != Cut then [s] else [s[..o.len]] + Raw(cc, s[o.len + 1..])
  }

  function LStrip(cc: Chars, s: string): string {
    if s != "" && s[0] in cc.space then LStrip(cc, s[1..]) else s
  }

  function RStrip(cc: Chars, s: string): string {
    if s != "" && s[|s| - 1] in cc.space then RStrip(cc, s[..|s| - 1]) else s
  }

  function Strip(cc: Chars, s: string): string {
    RStrip(cc, LStrip(cc, s))
  }

  /** The second lexer: white space and comments only. */
  predicate Trivia(cc: Chars, t: string)
    decreases |t|
  {
    if t == "" then true
    else if t[0] in cc.space then Trivia(cc, t[1..])
    else if Pair(t, '-', '-') then Trivia(cc, t[2 + Line(t[2..]).len..])
    else if Pair(t, '/', '*') then Trivia(cc, t[2 + Block(t[2..], 1).len..])
    else false
  }

  function Emit(cc: Chars, seg: string): seq<string> {
    var text := Strip(cc, seg);
    if text != "" && !Trivia(cc, text) then [text] else []
  }

  function EmitAll(cc: Chars, segs: seq<string>): seq<string> {
    if segs == [] then [] else Emit(cc, segs[0]) + EmitAll(cc, segs[1..])
  }

  function Split(cc: Chars, s: string): seq<string> {
    EmitAll(cc, Raw(cc, s))
  }

  /** The raw statement being scanned, and what follows the semicolon that ends it. */
  datatype Next = Next(seg: string, rest: Option<string>)

  function Head(cc: Chars, buf: string, t: string): Next {
    var o := Scan(cc, buf, t);
    if o.end != Cut then Next(buf + t, None) else Next(buf + t[..o.len], Some(t[o.len + 1..]))
  }

  function Deliver(cc: Chars, next: Next): seq<string> {
    Emit(cc, next.seg) + (if next.rest.None? then [] else Split(cc, next.rest.value))
  }

  lemma SplitHead(cc: Chars, s: string)
    ensures Split(cc, s) == Deliver(cc, Head(cc, "", s))
  {
    var o, segs := Scan(cc, "", s), Raw(cc, s);
    assert "" + s == s && "" + s[..o.len] == s[..o.len];
    assert EmitAll(cc, segs) == Emit(cc, segs[0]) + EmitAll(cc, segs[1..]);
    if o.end != Cut { assert segs[1..] == []; } else { assert segs[1..] == Raw(cc, s[o.len + 1..]); }
  }

  /** Consuming the token a code character starts does not change what is still to come. */
  lemma HeadToken(cc: Chars, buf: string, t: string, tk: Token)
    requires t != "" && t[0] != ';' && tk == First(cc, buf, t)
    ensures Head(cc, buf, t) == Head(cc, buf + t[..tk.len], t[tk.len..])
  {
    hide Scan, First;
    var n := tk.len;
    ScanToken(cc, buf, t, tk);
    var o' := Scan(cc, buf + t[..n], t[n..]);
    Slide(buf, t, n, o'.len);
    if o'.end == Cut { Slide(buf, t, n, o'.len + 1); } else { assert buf + t == buf + t[..n] + t[n..]; }
  }

  lemma Slide(buf: string, t: string, n: nat, k: nat)
    requires n + k <= |t|
    ensures buf + t[..n] + t[n..][..k] == buf + t[..n + k]
    ensures t[n..][k..] == t[n + k..]
  {}

  lemma ScanToken(cc: Chars, buf: string, t: string, tk: Token)
    requires t != "" && t[0] != ';' && tk == First(cc, buf, t)
    ensures var o, o' := Scan(cc, buf, t), Scan(cc, buf + t[..tk.len], t[tk.len..]);
            && (o.end == Cut <==> o'.end == Cut)
            && o.len == tk.len + o'.len
  {
    hide First;
    if !tk.closed {
      assert t[tk.len..] == "";
    }
  }

  lemma HeadCut(cc: Chars, buf: string, t: string)
    requires t != "" && t[0] == ';'
    ensures Head(cc, buf, t) == Next(buf, Some(t[1..]))
  {
    assert buf + t[..0] == buf;
  }

  // ---------------------------------------------------------------------------
  // The loops

  method DollarOpenAt(cc: Chars, sql: string, i: nat) returns (tag: Option<string>)
    requires i <= |sql|
    ensures tag == DollarOpen(cc, sql[i..])
    ensures tag.Some? ==> i + 2 <= i + |tag.value| <= |sql| && tag.value == sql[i..i + |tag.value|] && sql[i] == '$'
  {
    if i >= |sql| || sql[i] != '$' { return None; }
    var j := i + 1;
    if j < |sql| && sql[j] == '$' { return Some("$$"); }
    if j < |sql| && (sql[j] in cc.alpha || sql[j] == '_') {
      j := j + 1;
      while j < |sql| && WordChar(cc, sql[j])
        invariant i + 2 <= j <= |sql|
        invariant WordLen(cc, sql[i..][2..]) == j - i - 2 + WordLen(cc, sql[j..])
      {
        assert sql[j..][1..] == sql[j + 1..];
        j := j + 1;
      }
      if j < |sql| && sql[j] == '$' {
        assert sql[i..][..j - i + 1] == sql[i..j + 1];
        return Some(sql[i..j + 1]);
      }
    }
    return None;
  }

  predicate IsEscapeStringStart(cc: Chars, sql: string, quoteIndex: nat)
    requires quoteIndex <= |sql|
  {
    if quoteIndex < 1 || sql[quoteIndex - 1] !in ['E', 'e'] then false
    else if quoteIndex >= 2 && WordChar(cc, sql[quoteIndex - 2]) then false
    else true
  }

  datatype State = CodeState | LineState | BlockState | SQuoteState | EStringState | DQuoteState | DollarState

  /** The variables that steer the lexers besides the position. */
  datatype Control = Control(state: State, depth: nat, tag: string) {
    predicate Valid() { state == BlockState ==> depth >= 1 }
  }

  const IN_CODE := Control(CodeState, 0, "")

  /** The second lexer's verdict when it is in state `c` before the text t. */
  predicate TriviaFrom(cc: Chars, c: Control, t: string)
    requires c.Valid()
  {
    match c.state
    case LineState => Trivia(cc, t[Line(t).len..])
    case BlockState => Trivia(cc, t[Block(t, c.depth).len..])
    case _ => Trivia(cc, t)
  }

  lemma TriviaComment(cc: Chars, t: string)
    requires Pair(t, '-', '-') || Pair(t, '/', '*')
    ensures Pair(t, '-', '-') ==> Trivia(cc, t) == Trivia(cc, t[2..][Line(t[2..]).len..])
    ensures Pair(t, '/', '*') ==> Trivia(cc, t) == Trivia(cc, t[2..][Block(t[2..], 1).len..])
  {
    assert '-' in MARKS && '/' in MARKS && t[0] !in cc.space;
    if Pair(t, '-', '-') {
      assert t[2..][Line(t[2..]).len..] == t[2 + Line(t[2..]).len..];
    } else {
      assert t[2..][Block(t[2..], 1).len..] == t[2 + Block(t[2..], 1).len..];
    }
  }

  /** One turn of the second lexer's loop. */
  lemma TriviaStep(cc: Chars, c: Control, t: string)
    requires t != "" && c.Valid()
    ensures c.state == LineState ==>
              TriviaFrom(cc, c, t) == TriviaFrom(cc, if t[0] == '\n' then c.(state := CodeState) else c, t[1..])
    ensures c.state == BlockState && Pair(t, '/', '*') ==>
              TriviaFrom(cc, c, t) == TriviaFrom(cc, c.(depth := c.depth + 1), t[2..])
    ensures c.state == BlockState && Pair(t, '*', '/') ==>
              TriviaFrom(cc, c, t) ==
              TriviaFrom(cc, if c.depth == 1 then Control(CodeState, 0, c.tag) else c.(depth := c.depth - 1), t[2..])
    ensures c.state == BlockState && !Pair(t, '/', '*') && !Pair(t, '*', '/') ==>
              TriviaFrom(cc, c, t) == TriviaFrom(cc, c, t[1..])
    ensures c.state == CodeState && t[0] in cc.space ==> TriviaFrom(cc, c, t) == TriviaFrom(cc, c, t[1..])
    ensures c.state == CodeState && Pair(t, '-', '-') ==>
              TriviaFrom(cc, c, t) == TriviaFrom(cc, c.(state := LineState), t[2..])
    ensures c.state == CodeState && Pair(t, '/', '*') ==>
              TriviaFrom(cc, c, t) == TriviaFrom(cc, Control(BlockState, 1, c.tag), t[2..])
    ensures c.state == CodeState && t[0] !in cc.space && !Pair(t, '-', '-') && !Pair(t, '/', '*') ==>
              !TriviaFrom(cc, c, t)
  {
    if c.state == CodeState && (Pair(t, '-', '-') || Pair(t, '/', '*')) {
      TriviaComment(cc, t);
    }
  }

  lemma TriviaEnds(cc: Chars, sql: string)
    ensures TriviaFrom(cc, IN_CODE, sql[0..]) == Trivia(cc, sql)
    ensures forall c: Control :: c.Valid() ==> TriviaFrom(cc, c, "")
  {
    assert sql[0..] == sql;
  }

  method OnlyTrivia(cc: Chars, sql: string) returns (b: bool)
    ensures b == Trivia(cc, sql)
  {
    hide TriviaFrom, Trivia;
    var i, n := 0, |sql|;
    var state, depth := CodeState, 0;
    TriviaEnds(cc, sql);
    while i < n
      invariant 0 <= i <= n && depth >= 0
      invariant state in {CodeState, LineState, BlockState} && Control(state, depth, "").Valid()
      invariant Trivia(cc, sql) == TriviaFrom(cc, Control(state, depth, ""), sql[i..])
      decreases n - i
    {
      var ch := sql[i];
      var next := if i + 1 < n then [sql[i + 1]] else "";
      ghost var t := sql[i..];
      assert t[1..] == sql[i + 1..];
      assert i + 1 < n ==> t[2..] == sql[i + 2..];
      TriviaStep(cc, Control(state, depth, ""), t);
      if state == LineState {
        if ch == '\n' { state := CodeState; }
        i := i + 1;
      } else if state == BlockState {
        if ch == '/' && next == "*" {
          depth, i := depth + 1, i + 2;
        } else if ch == '*' && next == "/" {
          depth, i := depth - 1, i + 2;
          if depth <= 0 { state, depth := CodeState, 0; }
        } else {
          i := i + 1;
        }
      } else if ch in cc.space {
        i := i + 1;
      } else if ch == '-' && next == "-" {
        state, i := LineState, i + 2;
      } else if ch == '/' && next == "*" {
        state, depth, i := BlockState, 1, i + 2;
      } else {
        return false;
      }
    }
    assert sql[i..] == "";
    return true;
  }

  /** What one turn of the splitter's loop does to the control variables, and how many
      characters it moves into the buffer; for every character but a cutting semicolon. */
  function Step(cc: Chars, c: Control, buf: string, t: string): (r: (Control, nat))
    requires t != "" && c.Valid() && (c.state == CodeState ==> t[0] != ';')
    ensures r.0.Valid() && 1 <= r.1 <= |t|
  {
    match c.state
    case CodeState =>
      if Pair(t, '-', '-') then (Control(LineState, c.depth, c.tag), 2)
      else if Pair(t, '/', '*') then (Control(BlockState, 1, c.tag), 2)
      else if t[0] == '\'' then
        (Control(if EscapeStart(cc, buf) then EStringState else SQuoteState, c.depth, c.tag), 1)
      else if t[0] == '\"' then (Control(DQuoteState, c.depth, c.tag), 1)
      else (
        match DollarOpen(cc, t)
        case Some(tag) => (Control(DollarState, c.depth, tag), |tag|)
        case None => (c, 1))
    case LineState => (if t[0] == '\n' then c.(state := CodeState) else c, 1)
    case BlockState =>
      if Pair(t, '/', '*') then (c.(depth := c.depth + 1), 2)
      else if Pair(t, '*', '/') then
        (if c.depth == 1 then Control(CodeState, 0, c.tag) else c.(depth := c.depth - 1), 2)
      else (c, 1)
    case SQuoteState => QuoteStep(c, t, '\'')
    case DQuoteState => QuoteStep(c, t, '\"')
    case EStringState => if t[0] == '\\' && |t| > 1 then (c, 2) else QuoteStep(c, t, '\'')
    case DollarState =>
      if DollarOpen(cc, t) == Some(c.tag) then (Control(CodeState, c.depth, ""), |c.tag|) else (c, 1)
  }

  function QuoteStep(c: Control, t: string, q: char): (r: (Control, nat))
    requires t != ""
    ensures 1 <= r.1 <= |t|
    ensures r.0 == c || r.0 == c.(state := CodeState)
  {
    if t[0] != q then (c, 1)
    else if |t| > 1 && t[1] == q then (c, 2)
    else (c.(state := CodeState), 1)
  }

  /** How much of the text belongs to the token the lexer is in the middle of. */
  function Tail(cc: Chars, c: Control, t: string): (n: nat)
    requires c.Valid()
    ensures n <= |t|
  {
    match c.state
    case CodeState => 0
    case LineState => Line(t).len
    case BlockState => Block(t, c.depth).len
    case SQuoteState => Quote(t, '\'').len
    case EStringState => EQuote(t).len
    case DQuoteState => Quote(t, '\"').len
    case DollarState => Dollar(cc, t, c.tag).len
  }

  lemma TailStep(cc: Chars, c: Control, buf: string, t: string)
    requires t != "" && c.Valid() && (c.state == CodeState ==> t[0] != ';')
    ensures var (c', k) := Step(cc, c, buf, t);
            k + Tail(cc, c', t[k..]) == if c.state == CodeState then First(cc, buf, t).len else Tail(cc, c, t)
  {
    match c.state
    case CodeState =>
    case LineState =>
    case BlockState =>
    case SQuoteState =>
    case DQuoteState =>
    case EStringState =>
    case DollarState =>
  }

  lemma TailInCode(cc: Chars, c: Control, t: string)
    requires c.Valid() && c.state == CodeState
    ensures Tail(cc, c, t) == 0
  {}

  function Resume(cc: Chars, c: Control, buf: string, t: string): Next
    requires c.Valid()
  {
    var n := Tail(cc, c, t);
    Head(cc, buf + t[..n], t[n..])
  }

  lemma ResumeStep(cc: Chars, c: Control, buf: string, t: string, c': Control, k: nat)
    requires t != "" && c.Valid() && (c.state == CodeState ==> t[0] != ';')
    requires (c', k) == Step(cc, c, buf, t)
    ensures Resume(cc, c, buf, t) == Resume(cc, c', buf + t[..k], t[k..])
  {
    hide Step, Tail, Head, First;
    TailStep(cc, c, buf, t);
    var m := Tail(cc, c', t[k..]);
    Slide(buf, t, k, m);
    if c.state == CodeState {
      TailInCode(cc, c, t);
      HeadToken(cc, buf, t, First(cc, buf, t));
      assert buf + t[..0] == buf && t[0..] == t;
    }
  }

  lemma ResumeStart(cc: Chars, sql: string)
    ensures Resume(cc, IN_CODE, "", sql[0..]) == Head(cc, "", sql) && Since(sql, 0, 0, "")
    ensures Deliver(cc, Head(cc, "", sql)) == Split(cc, sql)
  {
    SplitHead(cc, sql);
    assert sql[0..] == sql && "" + sql[..0] == "";
  }

  lemma ResumeEnd(cc: Chars, c: Control, buf: string)
    requires c.Valid()
    ensures Deliver(cc, Resume(cc, c, buf, "")) == Emit(cc, buf)
  {
    assert buf + "" + "" == buf;
  }

  method EmitText(cc: Chars, buf: string, out: seq<string>) returns (out': seq<string>)
    ensures out' == out + Emit(cc, buf)
  {
    var text := Strip(cc, buf);
    var trivial := OnlyTrivia(cc, text);
    out' := if text != "" && !trivial then out + [text] else out;
  }

  lemma Assoc(a: seq<string>, b: seq<string>, c: seq<string>)
    ensures a + b + c == a + (b + c)
  {}

  method SplitSqlStatements(cc: Chars, sql: string) returns (out: seq<string>)
    ensures out == Split(cc, sql)
  {
    hide Resume, Deliver, Head, Split, DollarOpen, EscapeStart, IsEscapeStringStart, Since, Emit;
    out := [];
    var buf, i, n := "", 0, |sql|;
    var state, depth, tag := CodeState, 0, "";
    ghost var goal, start := Head(cc, "", sql), 0;
    ResumeStart(cc, sql);
    while i < n
      invariant 0 <= i <= n && 0 <= depth && Control(state, depth, tag).Valid()
      invariant 0 <= start && Since(sql, start, i, buf)
      invariant Resume(cc, Control(state, depth, tag), buf, sql[i..]) == goal
      invariant out + Deliver(cc, goal) == Split(cc, sql)
      decreases n - i
    {
      var ch := sql[i];
      var next := if i + 1 < n then sql[i + 1] else NUL;
      ghost var c := Control(state, depth, tag);
      Turn(cc, sql, start, i, c, buf);
      if state == LineState {
        buf, i := buf + sql[i..i + 1], i + 1;
        if ch == '\n' { state := CodeState; }
      } else if state == BlockState {
        if ch == '/' && next == '*' {
          buf, depth, i := buf + sql[i..i + 2], depth + 1, i + 2;
        } else if ch == '*' && next == '/' {
          buf, depth, i := buf + sql[i..i + 2], depth - 1, i + 2;
          if depth <= 0 { state, depth := CodeState, 0; }
        } else {
          buf, i := buf + sql[i..i + 1], i + 1;
        }
      } else if state == SQuoteState {
        if ch == '\'' && next == '\'' {
          buf, i := buf + sql[i..i + 2], i + 2;
        } else {
          buf, i := buf + sql[i..i + 1], i + 1;
          if ch == '\'' { state := CodeState; }
        }
      } else if state == EStringState {
        if ch == '\\' && i + 1 < n {
          buf, i := buf + sql[i..i + 2], i + 2;
        } else if ch == '\'' && next == '\'' {
          buf, i := buf + sql[i..i + 2], i + 2;
        } else {
          buf, i := buf + sql[i..i + 1], i + 1;
          if ch == '\'' { state := CodeState; }
        }
      } else if state == DQuoteState {
        if ch == '\"' && next == '\"' {
          buf, i := buf + sql[i..i + 2], i + 2;
        } else {
          buf, i := buf + sql[i..i + 1], i + 1;
          if ch == '\"' { state := CodeState; }
        }
      } else if state == DollarState {
        var found := DollarOpenAt(cc, sql, i);
        if found == Some(tag) {
          buf, i, state, tag := buf + tag, i + |tag|, CodeState, "";
        } else {
          buf, i := buf + sql[i..i + 1], i + 1;
        }
      } else if ch == '-' && next == '-' {
        buf, state, i := buf + sql[i..i + 2], LineState, i + 2;
      } else if ch == '/' && next == '*' {
        buf, state, depth, i := buf + sql[i..i + 2], BlockState, 1, i + 2;
      } else if ch == '\'' {
        state := if IsEscapeStringStart(cc, sql, i) then EStringState else SQuoteState;
        buf, i := buf + sql[i..i + 1], i + 1;
      } else if ch == '\"' {
        buf, state, i := buf + sql[i..i + 1], DQuoteState, i + 1;
      } else {
        var found := DollarOpenAt(cc, sql, i);
        if found.Some? {
          buf, tag, state, i := buf + found.value, found.value, DollarState, i + |found.value|;
        } else if ch == ';' {
          Assoc(out, Emit(cc, buf), Deliver(cc, Head(cc, "", sql[i + 1..])));
          out := EmitText(cc, buf, out);
          buf, i := "", i + 1;
          goal, start := Head(cc, "", sql[i..]), i;
        } else {
          buf, i := buf + sql[i..i + 1], i + 1;
        }
      }
    }
    assert sql[i..] == "";
    ResumeEnd(cc, Control(state, depth, tag), buf);
    out := EmitText(cc, buf, out);
  }

  const NUL := '\0'

  /** The buffer holds the text since the last cut. */
  ghost predicate Since(sql: string, start: nat, i: nat, buf: string) {
    start <= i <= |sql| && buf == sql[start..i] && (start > 0 ==> sql[start - 1] == ';')
  }

  /** One turn of the splitter's loop, at position i of the whole text. */
  lemma Turn(cc: Chars, sql: string, start: nat, i: nat, c: Control, buf: string)
    requires i < |sql| && Since(sql, start, i, buf) && c.Valid()
    ensures IsEscapeStringStart(cc, sql, i) == EscapeStart(cc, buf)
    ensures c.state == CodeState && sql[i] == ';' ==>
              && Since(sql, i + 1, i + 1, "")
              && Deliver(cc, Resume(cc, c, buf, sql[i..])) == Emit(cc, buf) + Deliver(cc, Head(cc, "", sql[i + 1..]))
              && Resume(cc, c, "", sql[i + 1..]) == Head(cc, "", sql[i + 1..])
    ensures c.state != CodeState || sql[i] != ';' ==>
              var (c', k) := Step(cc, c, buf, sql[i..]);
              && Since(sql, start, i + k, buf + sql[i..i + k])
              && Resume(cc, c, buf, sql[i..]) == Resume(cc, c', buf + sql[i..i + k], sql[i + k..])
  {
    hide Resume, Deliver, Head, Emit, Step, EscapeStart, IsEscapeStringStart;
    var t := sql[i..];
    EscapeStartAgrees(cc, sql, start, i, buf);
    if c.state == CodeState && sql[i] == ';' {
      CutStep(cc, c, buf, t);
      assert t[1..] == sql[i + 1..];
    } else {
      var (c', k) := Step(cc, c, buf, t);
      ResumeStep(cc, c, buf, t, c', k);
      assert t[..k] == sql[i..i + k] && t[k..] == sql[i + k..];
      assert sql[start..i] + sql[i..i + k] == sql[start..i + k];
    }
  }

  /** At a cutting semicolon the statement in the buffer is complete. */
  lemma CutStep(cc: Chars, c: Control, buf: string, t: string)
    requires t != "" && t[0] == ';' && c.state == CodeState
    ensures Deliver(cc, Resume(cc, c, buf, t)) == Emit(cc, buf) + Deliver(cc, Head(cc, "", t[1..]))
    ensures Resume(cc, c, "", t[1..]) == Head(cc, "", t[1..])
  {
    assert buf + t[..0] == buf && t[0..] == t;
    HeadCut(cc, buf, t);
    SplitHead(cc, t[1..]);
    assert "" + t[1..][..0] == "" && t[1..][0..] == t[1..];
  }


  /** Looking back in the whole text is looking back in the statement buffer. */
  lemma EscapeStartAgrees(cc: Chars, sql: string, start: nat, i: nat, buf: string)
    requires start <= i <= |sql| && buf == sql[start..i]
    requires start > 0 ==> sql[start - 1] == ';'
    ensures IsEscapeStringStart(cc, sql, i) == EscapeStart(cc, buf)
  {
    assert ';' in MARKS;
    if |buf| >= 1 { assert buf[|buf| - 1] == sql[i - 1]; }
    if |buf| >= 2 { assert buf[|buf| - 2] == sql[i - 2]; }
  }
}
