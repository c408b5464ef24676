/** The path a resolved screen URL is opened with: src/artek_buddy/computer/screen.py,
    screen_policy_path.  Percent-encoding is an arbitrary codec. */
module ScreenPath {
  import opened Wrappers
  import opened Text
  import ScreenUrl

  // ---------------------------------------------------------------------------
  // Query strings: urllib.parse.parse_qsl and urlencode

  /** quote_plus and its inverse. */
  datatype Codec = Codec(quote: string -> string, unquote: string -> string)

  predicate Plain(s: string) {
    '%' !in s && '+' !in s
  }

  ghost predicate Sound(c: Codec) {
    && (forall s :: c.unquote(c.quote(s)) == s)
    && (forall s, x :: x in c.quote(s) ==> x != '&' && x != '=')
    && (forall s :: Plain(s) ==> c.unquote(s) == s)
  }

  type Pair = (string, string)

  function ReadPair(c: Codec, text: string): Pair {
    var i := IndexOf(text, '=');
    if i < 0 then (c.unquote(text), "") else (c.unquote(text[..i]), c.unquote(text[i + 1..]))
  }

  function ReadPairs(c: Codec, parts: seq<string>): seq<Pair> {
    if parts == [] then []
    else (if parts[0] == "" then [] else [ReadPair(c, parts[0])]) + ReadPairs(c, parts[1..])
  }

  /** parse_qsl, keeping blank values. */
  function ParseQsl(c: Codec, query: string): seq<Pair> {
    ReadPairs(c, SplitOn(query, '&'))
  }

  function PrintPair(c: Codec, p: Pair): string {
    c.quote(p.0) + "=" + c.quote(p.1)
  }

  function PrintPairs(c: Codec, ps: seq<Pair>): (parts: seq<string>)
    ensures |parts| == |ps|
  {
    if ps == [] then [] else [PrintPair(c, ps[0])] + PrintPairs(c, ps[1..])
  }

  function UrlEncode(c: Codec, ps: seq<Pair>): string {
    if ps == [] then "" else JoinWith(PrintPairs(c, ps), '&')
  }

  lemma PairBack(c: Codec, p: Pair)
    requires Sound(c)
    ensures PrintPair(c, p) != "" && '&' !in PrintPair(c, p) && ReadPair(c, PrintPair(c, p)) == p
  {
    var k, v := c.quote(p.0), c.quote(p.1);
    var text := k + ['='] + v;
    IndexOfIs(k, '=', v);
    assert text == PrintPair(c, p) && text[..|k|] == k && text[|k| + 1..] == v;
  }

  lemma {:induction false} PairsBack(c: Codec, ps: seq<Pair>)
    requires Sound(c)
    ensures ReadPairs(c, PrintPairs(c, ps)) == ps
    ensures forall part :: part in PrintPairs(c, ps) ==> '&' !in part
  {
    hide ReadPair, PrintPair;
    if ps != [] {
      PairBack(c, ps[0]);
      PairsBack(c, ps[1..]);
      assert PrintPairs(c, ps)[1..] == PrintPairs(c, ps[1..]);
    }
  }

  lemma ReadOne(c: Codec, text: string)
    ensures ReadPairs(c, [text]) == if text == "" then [] else [ReadPair(c, text)]
  {
    assert [text][1..] == [];
  }

  /** Parsing an encoded query gives back its pairs. */
  lemma QueryRoundTrip(c: Codec, ps: seq<Pair>)
    requires Sound(c)
    ensures ParseQsl(c, UrlEncode(c, ps)) == ps
  {
    if ps == [] {
      ReadOne(c, "");
    } else {
      PairsBack(c, ps);
      SplitJoin(PrintPairs(c, ps), '&');
    }
  }

  // ---------------------------------------------------------------------------
  // Dictionaries of pairs, in insertion order

  /** The values of a key, in order. */
  function Values(ps: seq<Pair>, key: string): seq<string> {
    if ps == [] then []
    else Values(ps[..|ps| - 1], key) + if ps[|ps| - 1].0 == key then [ps[|ps| - 1].1] else []
  }

  function Assign(d: seq<Pair>, key: string, value: string): seq<Pair> {
    if d == [] then [(key, value)]
    else if d[|d| - 1].0 == key then d[..|d| - 1] + [(key, value)]
    else Assign(d[..|d| - 1], key, value) + [d[|d| - 1]]
  }

  function Dict(ps: seq<Pair>): seq<Pair> {
    if ps == [] then [] else Assign(Dict(ps[..|ps| - 1]), ps[|ps| - 1].0, ps[|ps| - 1].1)
  }

  lemma ValuesSnoc(ps: seq<Pair>, p: Pair, key: string)
    ensures Values(ps + [p], key) == Values(ps, key) + if p.0 == key then [p.1] else []
  {
    assert (ps + [p])[..|ps|] == ps;
  }

  /** Of several values of a key the last one counts. */
  function LastOf(values: seq<string>): seq<string> {
    if values == [] then [] else [values[|values| - 1]]
  }

  lemma {:induction false} AssignValues(d: seq<Pair>, key: string, value: string)
    requires forall k :: |Values(d, k)| <= 1
    ensures forall k :: Values(Assign(d, key, value), k) == if k == key then [value] else Values(d, k)
  {
    if d == [] {
      OneValue(key, value);
    } else {
      var init, last := d[..|d| - 1], d[|d| - 1];
      assert d == init + [last];
      forall k ensures Values(d, k) == Values(init, k) + if last.0 == k then [last.1] else [] {
        ValuesSnoc(init, last, k);
      }
      assert forall k :: |Values(d, k)| <= 1;
      assert forall k :: |Values(init, k)| <= |Values(d, k)|;
      AssignValues(init, key, value);
      forall k ensures Values(Assign(d, key, value), k) == if k == key then [value] else Values(d, k) {
        if last.0 == key {
          ValuesSnoc(init, (key, value), k);
        } else {
          ValuesSnoc(Assign(init, key, value), last, k);
        }
      }
    }
  }

  lemma {:induction false} DictValues(ps: seq<Pair>)
    ensures forall k :: Values(Dict(ps), k) == LastOf(Values(ps, k))
  {
    if ps != [] {
      var init, last := ps[..|ps| - 1], ps[|ps| - 1];
      DictValues(init);
      AssignValues(Dict(init), last.0, last.1);
    }
  }

  // ---------------------------------------------------------------------------
  // The policy path

  /** What is kept of a parsed URL. */
  datatype Parsed = Parsed(path: string, query: string)

  /** Tabs and line breaks are removed before parsing. */
  function Clean(s: string): string {
    if s == "" then "" else (if s[0] in {'\t', '\r', '\n'} then "" else [s[0]]) + Clean(s[1..])
  }

  function Until(s: string, c: char): string {
    var i := IndexOf(s, c);
    if i < 0 then s else s[..i]
  }

  function Behind(s: string, c: char): string {
    var i := IndexOf(s, c);
    if i < 0 then "" else s[i + 1..]
  }

  /** What follows a host part. */
  function AfterHost(s: string): string {
    if s == "" || s[0] in {'/', '?', '#'} then s else AfterHost(s[1..])
  }

  function LastSlash(s: string): (i: int)
    ensures -1 <= i < |s|
  {
    if s == "" then -1 else if s[|s| - 1] == '/' then |s| - 1 else LastSlash(s[..|s| - 1])
  }

  /** The path without the parameters of its last segment. */
  function DropParams(path: string): string {
    var slash := LastSlash(path);
    var from := if slash < 0 then 0 else slash;
    path[..from] + Until(path[from..], ';')
  }

  predicate Contains(s: string, part: string) {
    exists i :: 0 <= i <= |s| && StartsWith(s[i..], part)
  }

  /** urlparse of the requested text, which starts with a slash: a text with "://" in it is
      parsed as it stands, and then may start with a host part; any other is parsed behind a
      host. */
  function Parse(requested: string): Parsed {
    var s := Clean(requested);
    var local := if Contains(requested, "://") && StartsWith(s, "//") then AfterHost(s[2..]) else s;
    var url := Until(local, '#');
    Parsed(DropParams(Until(url, '?')), Behind(url, '?'))
  }

  function Flag(control: bool): string {
    if control then "false" else "true"
  }

  predicate Embed(path: string) {
    EndsWith(path, "/embed.html")
  }

  function PolicyQuery(control: bool): string {
    "view_only=" + Flag(control)
  }

  function PolicyPath(c: Codec, requested: string, control: bool): Parsed {
    var parsed := Parse(requested);
    if Embed(parsed.path) then Parsed(parsed.path, PolicyQuery(control))
    else
      var query := Dict(ParseQsl(c, parsed.query));
      if Values(query, ViewOnly()) != [] then
        Parsed(parsed.path, UrlEncode(c, Assign(query, ViewOnly(), Flag(control))))
      else Parsed(if parsed.path == "" then "/" else parsed.path, "")
  }

  function ViewOnly(): string {
    "view_only"
  }

  /** What a reader of the path's query finds for a key. */
  function Shown(c: Codec, p: Parsed, key: string): seq<string> {
    Values(ParseQsl(c, p.query), key)
  }

  predicate Unmarked(s: string) {
    forall x :: x in s ==> x !in {'\t', '\r', '\n', '#', '?', '&', '=', '%', '+'}
  }

  lemma PolicyWords(control: bool)
    ensures Unmarked(ViewOnly()) && Unmarked(Flag(control)) && ViewOnly() != ""
    ensures PolicyQuery(control) == ViewOnly() + "=" + Flag(control)
    ensures ScreenUrl.Query(control) == "?" + PolicyQuery(control)
  {
    hide Unmarked;
    WordsPlain();
    QueryText(control);
  }

  lemma WordsPlain()
    ensures Unmarked("view_only") && Unmarked("true") && Unmarked("false")
  {}

  lemma QueryText(control: bool)
    ensures ScreenUrl.Query(control) == "?" + PolicyQuery(control)
  {}

  lemma FlagReads(c: Codec, control: bool)
    requires Sound(c)
    ensures ParseQsl(c, PolicyQuery(control)) == [(ViewOnly(), Flag(control))]
  {
    hide ViewOnly, Flag, SplitOn, IndexOf;
    PolicyWords(control);
    var k, v := ViewOnly(), Flag(control);
    var q := k + ['='] + v;
    assert q == PolicyQuery(control);
    IndexOfIs(k, '=', v);
    assert q[..|k|] == k && q[|k| + 1..] == v;
    assert JoinWith([q], '&') == q;
    assert forall x :: x in q ==> x in k || x == '=' || x in v;
    SplitJoin([q], '&');
    ReadOne(c, q);
  }

  /** Whatever was requested, the path never shows a policy other than the signed one; it
      shows the signed one exactly for the embed page or if the request named a policy.  Every
      other key keeps its last value if the request named a policy, and is dropped otherwise. */
  lemma PolicyHolds(c: Codec, requested: string, control: bool)
    requires Sound(c)
    ensures var p, parsed := PolicyPath(c, requested, control), Parse(requested);
            var named := Values(ParseQsl(c, parsed.query), ViewOnly()) != [];
            && Shown(c, p, ViewOnly()) == (if Embed(parsed.path) || named then [Flag(control)] else [])
            && (forall k :: k != ViewOnly() ==>
                  Shown(c, p, k) ==
                  if !Embed(parsed.path) && named then LastOf(Values(ParseQsl(c, parsed.query), k)) else [])
            && (p.path == parsed.path || (parsed.path == "" && p.path == "/"))
  {
    hide Parse, ParseQsl, UrlEncode, Values, Assign, Dict, Embed, ViewOnly;
    var parsed := Parse(requested);
    var ps := ParseQsl(c, parsed.query);
    DictValues(ps);
    AssignValues(Dict(ps), ViewOnly(), Flag(control));
    QueryRoundTrip(c, Assign(Dict(ps), ViewOnly(), Flag(control)));
    QueryRoundTrip(c, []);
    EmptyQuery(c);
    FlagReads(c, control);
    OneValue(ViewOnly(), Flag(control));
  }

  lemma EmptyQuery(c: Codec)
    ensures UrlEncode(c, []) == "" && forall k :: Values([], k) == []
  {}

  lemma OneValue(key: string, value: string)
    ensures forall k :: Values([(key, value)], k) == if k == key then [value] else []
  {
    assert [] + [(key, value)] == [(key, value)];
    forall k ensures Values([(key, value)], k) == if k == key then [value] else [] {
      ValuesSnoc([], (key, value), k);
    }
  }

  // ---------------------------------------------------------------------------
  // Minted URLs

  lemma {:induction false} CleanAppend(a: string, b: string)
    ensures Clean(a + b) == Clean(a) + Clean(b)
  {
    if a == "" {
      assert a + b == b && "" + Clean(b) == Clean(b);
    } else {
      assert (a + b)[1..] == a[1..] + b;
      CleanAppend(a[1..], b);
    }
  }

  lemma {:induction false} CleanKeeps(s: string)
    ensures forall x :: x in Clean(s) <==> x in s && x !in {'\t', '\r', '\n'}
    ensures (forall x :: x in s ==> x !in {'\t', '\r', '\n'}) ==> Clean(s) == s
  {
    if s != "" {
      CleanKeeps(s[1..]);
      assert s == [s[0]] + s[1..] && s[0] in s;
      assert forall x :: x in s[1..] ==> x in s;
    }
  }

  /** A host part ends before the first question mark or number sign. */
  lemma {:induction false} AfterHostKeeps(s: string, q: string)
    requires q != "" && q[0] == '?' && '?' !in s
    ensures exists t :: AfterHost(s + q) == t + q && '?' !in t && ('#' in t <==> '#' in s)
  {
    if s == "" || s[0] in {'/', '?', '#'} {
      assert s + q == s + q && (s + q)[0] == if s == "" then '?' else s[0];
    } else {
      assert (s + q)[1..] == s[1..] + q && (s + q)[0] == s[0];
      AfterHostKeeps(s[1..], q);
    }
  }

  lemma LocalIs(s: string, q: string, host: bool) returns (t: string)
    requires q != "" && q[0] == '?' && '?' !in s && (host ==> StartsWith(s + q, "//"))
    ensures (if host then AfterHost((s + q)[2..]) else s + q) == t + q
    ensures '?' !in t && ('#' in t <==> '#' in s)
  {
    if host {
      assert |s| >= 2 && s[..2] == "//" by {
        assert (s + q)[0] == '/' && (s + q)[1] == '/';
      }
      assert (s + q)[2..] == s[2..] + q && s == "//" + s[2..];
      AfterHostKeeps(s[2..], q);
      t :| AfterHost(s[2..] + q) == t + q && '?' !in t && ('#' in t <==> '#' in s[2..]);
    } else {
      t := s;
    }
  }

  lemma CutsAt(t: string, query: string)
    requires '?' !in t && '#' !in query
    ensures var url := Until(t + "?" + query, '#');
            Behind(url, '?') == if '#' in t then "" else query
  {
    var s := t + "?" + query;
    assert s == t + (['?'] + query) && s == t + ['?'] + query;
    if '#' in t {
      IndexOfAppend(t, ['?'] + query, '#');
      assert Until(s, '#') == t[..IndexOf(t, '#')];
      assert '?' !in Until(s, '#');
    } else {
      IndexOfAppend(t, ['?'] + query, '#');
      assert forall x :: x in ['?'] + query ==> x != '#';
      IndexOfIs(t, '?', query);
      assert s[|t| + 1..] == query;
    }
  }

  lemma MintedQuery(path: string, control: bool)
    ensures var suffix := ScreenUrl.Suffix(path);
            Parse(suffix + ScreenUrl.Query(control)).query == if '#' in suffix then "" else PolicyQuery(control)
  {
    hide AfterHost, Contains, Until, Behind, DropParams, Clean, ScreenUrl.Suffix, StartsWith, ViewOnly, Flag, ScreenUrl.Query;
    var suffix, query := ScreenUrl.Suffix(path), PolicyQuery(control);
    var q := "?" + query;
    PolicyWords(control);
    ScreenUrl.SuffixPlain(path, control);
    CleanAppend(suffix, q);
    CleanKeeps(q);
    CleanKeeps(suffix);
    var requested := suffix + q;
    var t := LocalIs(Clean(suffix), q, Contains(requested, "://") && StartsWith(Clean(requested), "//"));
    assert t + q == t + "?" + query;
    CutsAt(t, query);
  }

  /** A minted URL opens with the policy it was minted for, exactly if its path has no
      number sign or still names the embed page; behind a number sign the policy is taken
      for a fragment and dropped. */
  lemma MintedPolicyIff(c: Codec, path: string, control: bool)
    requires Sound(c)
    ensures var suffix := ScreenUrl.Suffix(path);
            var requested := suffix + ScreenUrl.Query(control);
            Shown(c, PolicyPath(c, requested, control), ViewOnly()) == [Flag(control)] <==>
            '#' !in suffix || Embed(Parse(requested).path)
  {
    hide Parse, ParseQsl, Values, Embed, Dict, PolicyPath;
    var suffix := ScreenUrl.Suffix(path);
    var requested := suffix + ScreenUrl.Query(control);
    PolicyHolds(c, requested, control);
    MintedQuery(path, control);
    FlagReads(c, control);
    OneValue(ViewOnly(), Flag(control));
    EmptyQuery(c);
    QueryRoundTrip(c, []);
  }

  /** Minted for "/vnc.html#x", a URL opens without any policy. */
  lemma FragmentHidesPolicy(c: Codec, control: bool)
    requires Sound(c)
    ensures var requested := ScreenUrl.Suffix("/vnc.html#x") + ScreenUrl.Query(control);
            Shown(c, PolicyPath(c, requested, control), ViewOnly()) == []
  {
    hide ParseQsl, Values, Dict, PolicyPath, ScreenUrl.Query, ScreenUrl.Suffix, Parse, Embed;
    var path := "/vnc.html#x";
    var requested := ScreenUrl.Suffix(path) + ScreenUrl.Query(control);
    PlainSuffix();
    PolicyHolds(c, requested, control);
    MintedQuery(path, control);
    EmptyQuery(c);
    QueryRoundTrip(c, []);
    ShortPath(ScreenUrl.Query(control));
  }

  lemma PlainSuffix()
    ensures ScreenUrl.Suffix("/vnc.html#x") == "/vnc.html#x" && '#' in "/vnc.html#x"
  {
    assert "/vnc.html#x"[9] == '#';
  }

  lemma ShortPath(query: string)
    ensures !Embed(Parse("/vnc.html#x" + query).path)
  {
    hide Parse, DropParams;
    var path := "/vnc.html";
    assert path + "#" + ("x" + query) == "/vnc.html#x" + query;
    PlainPath(path);
    FragmentPath(path, "x" + query);
    assert |path| == 9;
  }

  lemma PlainPath(path: string)
    requires path == "/vnc.html"
    ensures |path| > 1 && path[0] == '/' && path[1] != '/' && ';' !in path && Unmarked(path)
  {}

  /** A plain path before a number sign is all that is parsed. */
  lemma FragmentPath(path: string, rest: string)
    requires |path| > 1 && path[0] == '/' && path[1] != '/' && ';' !in path && Unmarked(path)
    ensures Parse(path + "#" + rest).path == path
  {
    hide AfterHost, Contains, Clean, DropParams, Until, Behind;
    var requested := path + (['#'] + rest);
    assert requested == path + "#" + rest;
    CleanAppend(path, ['#'] + rest);
    CleanAppend(['#'], rest);
    CleanKeeps(path);
    CleanKeeps(['#']);
    var s := path + ['#'] + Clean(rest);
    assert path + (['#'] + Clean(rest)) == s;
    assert s[1] == path[1];
    UntilIs(path, '#', Clean(rest));
    UntilIs(path, '?', "");
    DropsNothing(path);
  }

  lemma UntilIs(a: string, c: char, b: string)
    requires c !in a
    ensures Until(a + [c] + b, c) == a && Until(a, c) == a
  {
    IndexOfIs(a, c, b);
  }

  lemma DropsNothing(path: string)
    requires ';' !in path
    ensures DropParams(path) == path
  {
    hide LastSlash, Until;
    var from := if LastSlash(path) < 0 then 0 else LastSlash(path);
    assert path[..from] + path[from..] == path;
    assert forall x :: x in path[from..] ==> x in path;
    UntilIs(path[from..], ';', "");
  }

  // ---------------------------------------------------------------------------
  // A codec

  /** The characters that quoting has to escape, and their codes. */
  function Escape(x: char): string {
    if x == '%' then "%25" else if x == '&' then "%26" else if x == '+' then "%2B" else if x == '=' then "%3D" else [x]
  }

  function Quote(s: string): string {
    if s == "" then "" else Escape(s[0]) + Quote(s[1..])
  }

  /** The character that an escape at the start stands for. */
  function Unescape(s: string): Option<char> {
    if |s| < 3 || s[0] != '%' then None
    else if s[1] == '2' && s[2] == '5' then Some('%')
    else if s[1] == '2' && s[2] == '6' then Some('&')
    else if s[1] == '2' && s[2] == 'B' then Some('+')
    else if s[1] == '3' && s[2] == 'D' then Some('=')
    else None
  }

  function Unquote(s: string): string {
    if s == "" then ""
    else
      match Unescape(s)
      case Some(x) => [x] + Unquote(s[3..])
      case None => [if s[0] == '+' then ' ' else s[0]] + Unquote(s[1..])
  }

  lemma EscapeBack(x: char, rest: string)
    ensures Unquote(Escape(x) + rest) == [x] + Unquote(rest)
  {
    var s := Escape(x) + rest;
    assert s[|Escape(x)|..] == rest && s[0] == Escape(x)[0];
    if x in {'%', '&', '+', '='} { assert s[1] == Escape(x)[1] && s[2] == Escape(x)[2]; }
  }

  lemma {:induction false} QuoteBack(s: string)
    ensures Unquote(Quote(s)) == s
    ensures forall x :: x in Quote(s) ==> x != '&' && x != '='
  {
    hide Unquote;
    if s == "" {
      UnquoteNothing();
    } else {
      QuoteBack(s[1..]);
      EscapeBack(s[0], Quote(s[1..]));
      EscapePlain(s[0]);
      assert s == [s[0]] + s[1..];
    }
  }

  lemma UnquoteNothing()
    ensures Unquote("") == ""
  {}

  lemma EscapePlain(x: char)
    ensures forall y :: y in Escape(x) ==> y != '&' && y != '='
  {}

  lemma {:induction false} PlainUnquoted(s: string)
    requires Plain(s)
    ensures Unquote(s) == s
  {
    if s != "" {
      assert s[0] in s && forall x :: x in s[1..] ==> x in s;
      PlainUnquoted(s[1..]);
      assert s == [s[0]] + s[1..];
    }
  }

  /** A codec as assumed exists. */
  lemma SomeCodec() returns (c: Codec)
    ensures Sound(c)
  {
    hide Quote, Unquote;
    c := Codec(s => Quote(s), s => Unquote(s));
    forall s ensures c.unquote(c.quote(s)) == s { QuoteBack(s); }
    forall s, x | x in c.quote(s) ensures x != '&' && x != '=' { QuoteBack(s); }
    forall s | Plain(s) ensures c.unquote(s) == s { PlainUnquoted(s); }
  }
}
