/** Signed screen URLs: src/artek_buddy/computer/screen.py.  The signature is an arbitrary
    function of the signed text; what screen_policy_path makes of the requested path is left
    to a parameter. */
module ScreenUrl {
  import opened Wrappers
  import opened Text
  import opened Bytes

  const TTL_MS: nat := 60 * 60 * 1000
  const SIGNATURE_LENGTH := 43

  /** The parsed groups of a screen URL. */
  datatype Parts = Parts(host: string, port: nat, control: bool, expires: nat, signature: string, requested: string)

  /** What resolving gives: a target, None, or an exception from decoding the host. */
  datatype Resolved = Target(hostname: string, port: nat, requested: string, interactive: bool) | NotFound | Raises

  datatype Minted = Url(url: string) | Refused

  function Policy(control: bool): string {
    if control then "control" else "view"
  }

  /** The text that is signed. */
  function Message(host: string, port: nat, control: bool, expires: nat): string {
    host + ":" + Decimal(port) + ":" + Policy(control) + ":" + Decimal(expires)
  }

  /** A keyed signature as _sign returns it: 43 characters of the base64url alphabet. */
  ghost predicate Signer(sign: string -> string) {
    forall m :: |sign(m)| == SIGNATURE_LENGTH && Token(sign(m))
  }

  // ---------------------------------------------------------------------------
  // Allowed hosts

  predicate AllDigits(s: string) {
    forall c :: c in s ==> IsDigit(c)
  }

  /** n groups of a dot and one to three digits. */
  predicate Octets(s: string, n: nat)
    decreases n, 1
  {
    if n == 0 then s == "" else Octet(s, 1, n) || Octet(s, 2, n) || Octet(s, 3, n)
  }

  /** A dot, k digits, and n - 1 further groups. */
  predicate Octet(s: string, k: nat, n: nat)
    requires n > 0
    decreases n, 0
  {
    1 + k <= |s| && s[0] == '.' && AllDigits(s[1..1 + k]) && Octets(s[1 + k..], n - 1)
  }

  predicate IsAllowedHost(h: string) {
    || h in {"localhost", "127.0.0.1", "::1"}
    || (StartsWith(h, "10") && Octets(h[2..], 3))
    || (StartsWith(h, "192.168") && Octets(h[7..], 2))
    || (StartsWith(h, "172.") && |h| > 6 && AllDigits(h[4..6]) && 16 <= DigitsValue(h[4..6]) <= 31 && Octets(h[6..], 2))
    || (StartsWith(h, "artek-bot-") && |h| > 10 && forall c :: c in h[10..] ==> InAlphabet(c) || c == '.')
  }

  predicate AllowedPort(port: int) {
    1024 <= port <= 65535
  }

  // ---------------------------------------------------------------------------
  // Minting

  /** The path with its leading slash and without its query. */
  function Suffix(path: string): string {
    var s := if path != "" && path[0] == '/' then path else "/" + path;
    var q := IndexOf(s, '?');
    if q >= 0 then s[..q] else s
  }

  function Query(control: bool): string {
    if control then "?view_only=false" else "?view_only=true"
  }

  function Print(p: Parts): string {
    "/novnc/" + B64Url(Encode(p.host)) + "/" + Decimal(p.port) + "/" + Policy(p.control) + "/" + Decimal(p.expires)
    + "." + p.signature + p.requested
  }

  function Mint(sign: string -> string, host: string, port: int, control: bool, path: string, now: nat): Minted {
    if !IsAllowedHost(host) || !AllowedPort(port) then Refused
    else
      var expires := now + TTL_MS;
      Url(Print(Parts(host, port, control, expires, sign(Message(host, port, control, expires)), Suffix(path) + Query(control))))
  }

  // ---------------------------------------------------------------------------
  // Resolving

  /** The maximal run of characters of a class, and the text after it. */
  function TakeToken(s: string): (n: nat)
    ensures n <= |s| && Token(s[..n]) && (n < |s| ==> !InAlphabet(s[n]))
  {
    if s != "" && InAlphabet(s[0]) then
      var n := 1 + TakeToken(s[1..]);
      assert s[..n] == [s[0]] + s[1..][..n - 1];
      n
    else 0
  }

  function TakeDigits(s: string): (n: nat)
    ensures n <= |s| && AllDigits(s[..n]) && (n < |s| ==> !IsDigit(s[n]))
  {
    if s != "" && IsDigit(s[0]) then
      var n := 1 + TakeDigits(s[1..]);
      assert s[..n] == [s[0]] + s[1..][..n - 1];
      n
    else 0
  }

  /** A matched group and what follows it. */
  datatype Match<T> = Match(group: T, rest: string)

  function After(s: string, prefix: string): Option<string> {
    if StartsWith(s, prefix) then Some(s[|prefix|..]) else None
  }

  function MatchToken(s: string): Option<Match<string>> {
    var n := TakeToken(s);
    if n > 0 then Some(Match(s[..n], s[n..])) else None
  }

  function MatchNumber(s: string): Option<Match<nat>> {
    var n := TakeDigits(s);
    if n > 0 then Some(Match(DigitsValue(s[..n]), s[n..])) else None
  }

  function MatchPolicy(s: string): Option<Match<bool>> {
    if StartsWith(s, "view/") then Some(Match(false, s[5..]))
    else if StartsWith(s, "control/") then Some(Match(true, s[8..]))
    else None
  }

  /** The optional path and query at the end: a path runs to the first question mark, a query
      has no newline; one final newline is allowed and not part of the match. */
  function MatchRequested(s: string): Option<string> {
    var q := IndexOf(s, '?');
    var path, query := if q < 0 then s else s[..q], if q < 0 then "" else s[q..];
    var final := query != "" && query[|query| - 1] == '\n';
    var query' := if final then query[..|query| - 1] else query;
    if '\n' in query' then None
    else if path == "" || (path == "\n" && q < 0) then Some("/" + query')
    else if path[0] == '/' then Some(path + query')
    else None
  }

  /** The regular expression, with the host group still encoded. */
  function Parse(url: string): Option<(string, Parts)> {
    match After(url, "/novnc/") case None => None case Some(s0) =>
    match MatchToken(s0) case None => None case Some(host) =>
    match After(host.rest, "/") case None => None case Some(s1) =>
    match MatchNumber(s1) case None => None case Some(port) =>
    match After(port.rest, "/") case None => None case Some(s2) =>
    match MatchPolicy(s2) case None => None case Some(policy) =>
    match MatchNumber(policy.rest) case None => None case Some(expires) =>
    match After(expires.rest, ".") case None => None case Some(s3) =>
    if |s3| < SIGNATURE_LENGTH || !Token(s3[..SIGNATURE_LENGTH]) then None
    else
      match MatchRequested(s3[SIGNATURE_LENGTH..])
      case None => None
      case Some(requested) =>
        Some((host.group, Parts("", port.group, policy.group, expires.group, s3[..SIGNATURE_LENGTH], requested)))
  }

  function DecodeHost(token: string): Option<string> {
    match B64UrlDecode(token) case None => None case Some(bs) => Decode(bs)
  }

  function Resolve(sign: string -> string, url: string, now: int): Resolved {
    match Parse(url)
    case None => NotFound
    case Some((token, p)) =>
      match DecodeHost(token)
      case None => Raises
      case Some(host) =>
        if !IsAllowedHost(host) then NotFound
        else if !AllowedPort(p.port) || p.expires < now then NotFound
        else if p.signature != sign(Message(host, p.port, p.control, p.expires)) then NotFound
        else Target(host, p.port, p.requested, p.control)
  }

  // ---------------------------------------------------------------------------
  // The round trip

  lemma AfterIs(prefix: string, s: string)
    ensures After(prefix + s, prefix) == Some(s)
  {
    assert (prefix + s)[..|prefix|] == prefix && (prefix + s)[|prefix|..] == s;
  }

  lemma {:induction false} TakeTokenIs(t: string, s: string)
    requires Token(t) && (s == "" || !InAlphabet(s[0]))
    ensures TakeToken(t + s) == |t|
  {
    if t == "" {
      assert t + s == s;
    } else {
      assert t[0] in t && (t + s)[1..] == t[1..] + s;
      TakeTokenIs(t[1..], s);
    }
  }

  lemma {:induction false} TakeDigitsIs(t: string, s: string)
    requires AllDigits(t) && (s == "" || !IsDigit(s[0]))
    ensures TakeDigits(t + s) == |t|
  {
    if t == "" {
      assert t + s == s;
    } else {
      assert t[0] in t && (t + s)[1..] == t[1..] + s;
      TakeDigitsIs(t[1..], s);
    }
  }

  lemma TokenMatches(t: string, s: string)
    requires Token(t) && t != "" && s != "" && s[0] == '/'
    ensures MatchToken(t + s) == Some(Match(t, s))
  {
    TakeTokenIs(t, s);
    assert (t + s)[..|t|] == t && (t + s)[|t|..] == s;
  }

  lemma DigitsMatch(d: string, s: string)
    requires d != "" && AllDigits(d) && s != "" && !IsDigit(s[0])
    ensures MatchNumber(d + s) == Some(Match(DigitsValue(d), s))
  {
    hide DigitsValue;
    TakeDigitsIs(d, s);
    assert (d + s)[..|d|] == d && (d + s)[|d|..] == s;
  }

  lemma NumberMatches(n: nat, s: string)
    requires s != "" && !IsDigit(s[0])
    ensures MatchNumber(Decimal(n) + s) == Some(Match(n, s))
  {
    hide Decimal;
    DigitsMatch(Decimal(n), s);
    DecimalValue(n);
  }

  lemma PolicyMatches(control: bool, s: string)
    ensures MatchPolicy(Policy(control) + "/" + s) == Some(Match(control, s))
  {
    var t := Policy(control) + "/";
    assert t == if control then "control/" else "view/";
    AfterIs(t, s);
    assert t + s == Policy(control) + "/" + s;
    if control { assert (t + s)[0] == 'c'; assert (t + s)[..5][0] == 'c'; }
  }

  /** A path that starts with a slash and has no question mark, and a query of one line. */
  predicate Requested(r: string, path: string, query: string) {
    && r == path + query && path != "" && path[0] == '/' && '?' !in path
    && query != "" && query[0] == '?' && '\n' !in query
  }

  lemma RequestedMatches(r: string, path: string, query: string)
    requires Requested(r, path, query)
    ensures MatchRequested(r) == Some(r)
  {
    hide IndexOf;
    assert query == "?" + query[1..] && r == path + ['?'] + query[1..];
    IndexOfIs(path, '?', query[1..]);
    assert r[..|path|] == path && r[|path|..] == query;
    assert query[|query| - 1] in query;
  }

  lemma TokenOfHost(host: string)
    requires host != ""
    ensures var token := B64Url(Encode(host)); Token(token) && token != "" && DecodeHost(token) == Some(host)
  {
    hide EncodeChar, Token, B64Url, B64UrlDecode, Decode;
    B64UrlRoundTrip(Encode(host));
    Utf8RoundTrip(host);
  }

  lemma SuffixPlain(path: string, control: bool)
    ensures Requested(Suffix(path) + Query(control), Suffix(path), Query(control))
  {
    hide IndexOf;
    var s := if path != "" && path[0] == '/' then path else "/" + path;
    var q := IndexOf(s, '?');
    if q >= 0 { assert q > 0; }
  }

  /** For every allowed host and port, every policy and path, a minted URL resolves, at any
      time up to its expiry, to the same host, port and policy; after that, to nothing. */
  lemma RoundTrip(sign: string -> string, host: string, port: int, control: bool, path: string, now: nat, later: int)
    requires Signer(sign)
    ensures var m := Mint(sign, host, port, control, path, now);
            if IsAllowedHost(host) && AllowedPort(port) then
              m.Url? && Resolve(sign, m.url, later) ==
              if later <= now + TTL_MS then Target(host, port, Suffix(path) + Query(control), control) else NotFound
            else m == Refused
  {
    hide Parse, Print, Message, Suffix, Query, DecodeHost, IsAllowedHost;
    if IsAllowedHost(host) && AllowedPort(port) {
      AllowedNotEmpty(host);
      var expires := now + TTL_MS;
      var p := Parts(host, port, control, expires, sign(Message(host, port, control, expires)), Suffix(path) + Query(control));
      SuffixPlain(path, control);
      ParsePrints(p, Suffix(path), Query(control));
      TokenOfHost(host);
    }
  }

  lemma AllowedNotEmpty(host: string)
    requires IsAllowedHost(host)
    ensures host != ""
  {}

  // ---------------------------------------------------------------------------
  // What the signature covers

  /** The signed text determines host, port, policy and expiry, colons in the host or not. */
  lemma MessageDetermines(h: string, p: nat, c: bool, e: nat, h': string, p': nat, c': bool, e': nat)
    requires Message(h, p, c, e) == Message(h', p', c', e')
    ensures h == h' && p == p' && c == c' && e == e'
  {
    hide Decimal;
    assert !IsDigit(':');
    LastColon(h + ":" + Decimal(p) + ":" + Policy(c), Decimal(e), h' + ":" + Decimal(p') + ":" + Policy(c'), Decimal(e'));
    LastColon(h + ":" + Decimal(p), Policy(c), h' + ":" + Decimal(p'), Policy(c'));
    LastColon(h, Decimal(p), h', Decimal(p'));
    DecimalInjective(e, e');
    DecimalInjective(p, p');
    assert Policy(true)[0] == 'c' && Policy(false)[0] == 'v';
  }

  // ---------------------------------------------------------------------------
  // Which URLs resolve

  /** The pieces of a screen URL's text. */
  datatype Pieces = Pieces(token: string, port: string, control: bool, expires: string, signature: string, tail: string) {
    predicate Valid() {
      && token != "" && Token(token) && port != "" && AllDigits(port) && expires != "" && AllDigits(expires)
      && |signature| == SIGNATURE_LENGTH && Token(signature)
    }

    function Text(): string {
      "/novnc/" + (token + ("/" + (port + ("/" + (Policy(control) + "/" + (expires + ("." + (signature + tail))))))))
    }
  }

  lemma ParseReads(x: Pieces)
    requires x.Valid()
    ensures Parse(x.Text()) ==
            match MatchRequested(x.tail)
            case None => None
            case Some(r) => Some((x.token, Parts("", DigitsValue(x.port), x.control, DigitsValue(x.expires), x.signature, r)))
  {
    hide Policy, IndexOf, TakeToken, TakeDigits, MatchToken, MatchNumber, MatchPolicy, MatchRequested, After, DigitsValue;
    var t3 := x.signature + x.tail;
    var t2 := "." + t3;
    var t1 := x.expires + t2;
    var t0 := Policy(x.control) + "/" + t1;
    var u1 := x.port + ("/" + t0);
    var u0 := x.token + ("/" + u1);
    AfterIs("/novnc/", u0);
    TokenMatches(x.token, "/" + u1);
    AfterIs("/", u1);
    DigitsMatch(x.port, "/" + t0);
    AfterIs("/", t0);
    PolicyMatches(x.control, t1);
    DigitsMatch(x.expires, t2);
    AfterIs(".", t3);
    assert t3[..SIGNATURE_LENGTH] == x.signature && t3[SIGNATURE_LENGTH..] == x.tail;
  }

  /** Parsing a printed URL gives back its parts. */
  lemma ParsePrints(p: Parts, path: string, query: string)
    requires p.host != "" && |p.signature| == SIGNATURE_LENGTH && Token(p.signature)
    requires Requested(p.requested, path, query)
    ensures Parse(Print(p)) == Some((B64Url(Encode(p.host)), p.(host := "")))
  {
    hide Decimal, Policy, B64Url, Encode, Parse, MatchRequested, DigitsValue;
    TokenOfHost(p.host);
    var x := Pieces(B64Url(Encode(p.host)), Decimal(p.port), p.control, Decimal(p.expires), p.signature, p.requested);
    DecimalValue(p.port);
    DecimalValue(p.expires);
    PrintIsText(p, x.token);
    ParseReads(x);
    RequestedMatches(p.requested, path, query);
  }

  lemma PrintIsText(p: Parts, token: string)
    requires token == B64Url(Encode(p.host))
    ensures Print(p) == Pieces(token, Decimal(p.port), p.control, Decimal(p.expires), p.signature, p.requested).Text()
  {
    hide Decimal, Policy, B64Url, Encode;
  }

  lemma AfterParts(s: string, prefix: string)
    requires After(s, prefix).Some?
    ensures s == prefix + After(s, prefix).value
  {}

  lemma TokenParts(s: string)
    requires MatchToken(s).Some?
    ensures var m := MatchToken(s).value; m.group != "" && Token(m.group) && s == m.group + m.rest
  {}

  lemma NumberParts(s: string) returns (d: string)
    requires MatchNumber(s).Some?
    ensures d != "" && AllDigits(d) && s == d + MatchNumber(s).value.rest && DigitsValue(d) == MatchNumber(s).value.group
  {
    hide DigitsValue;
    d := s[..TakeDigits(s)];
  }

  lemma PolicyParts(s: string)
    requires MatchPolicy(s).Some?
    ensures var m := MatchPolicy(s).value; s == Policy(m.group) + "/" + m.rest
  {
    if StartsWith(s, "view/") { assert s == "view/" + s[5..]; } else { assert s == "control/" + s[8..]; }
    assert "view" + "/" == "view/" && "control" + "/" == "control/";
  }

  lemma ParseShape(url: string) returns (x: Pieces)
    requires Parse(url).Some?
    ensures x.Valid() && url == x.Text()
  {
    hide Policy, IndexOf, TakeToken, TakeDigits, MatchToken, MatchNumber, MatchPolicy, MatchRequested, After, DigitsValue;
    AfterParts(url, "/novnc/");
    var s0 := After(url, "/novnc/").value;
    TokenParts(s0);
    var host := MatchToken(s0).value;
    AfterParts(host.rest, "/");
    var s1 := After(host.rest, "/").value;
    var port := NumberParts(s1);
    var rest1 := MatchNumber(s1).value.rest;
    AfterParts(rest1, "/");
    var s2 := After(rest1, "/").value;
    PolicyParts(s2);
    var policy := MatchPolicy(s2).value;
    var expires := NumberParts(policy.rest);
    var rest2 := MatchNumber(policy.rest).value.rest;
    AfterParts(rest2, ".");
    var s3 := After(rest2, ".").value;
    assert s3 == s3[..SIGNATURE_LENGTH] + s3[SIGNATURE_LENGTH..];
    x := Pieces(host.group, port, policy.group, expires, s3[..SIGNATURE_LENGTH], s3[SIGNATURE_LENGTH..]);
  }

  /** The text is that of a URL, signed for its host, port, policy and expiry, for an allowed
      host and port, and not expired. */
  ghost predicate SignedFor(sign: string -> string, url: string, now: int, x: Pieces, t: Resolved) {
    && t.Target? && x.Valid() && url == x.Text()
    && DecodeHost(x.token) == Some(t.hostname) && AllowedHost(t.hostname)
    && t.port == DigitsValue(x.port) && 1024 <= t.port <= 65535 && t.interactive == x.control
    && DigitsValue(x.expires) >= now
    && x.signature == sign(Message(t.hostname, t.port, t.interactive, DigitsValue(x.expires)))
    && MatchRequested(x.tail) == Some(t.requested)
  }

  /** A URL resolves to exactly what it is signed for, and to nothing otherwise. */
  lemma ResolveIff(sign: string -> string, url: string, now: int, t: Resolved)
    requires t.Target?
    ensures Resolve(sign, url, now) == t <==> exists x :: SignedFor(sign, url, now, x, t)
  {
    hide Parse, DecodeHost, IsAllowedHost, AllowedHost, Message, MatchRequested, DigitsValue, Pieces.Text;
    AllowedHostIff(t.hostname);
    if Resolve(sign, url, now) == t {
      var x := ParseShape(url);
      ParseReads(x);
      assert SignedFor(sign, url, now, x, t);
    }
    if x :| SignedFor(sign, url, now, x, t) {
      ParseReads(x);
    }
  }

  /** One to three digits. */
  predicate Group(s: string) {
    1 <= |s| <= 3 && AllDigits(s)
  }

  predicate TwoGroups(h: string, prefix: string, a: string, b: string) {
    Group(a) && Group(b) && h == prefix + "." + a + "." + b
  }

  predicate ThreeGroups(h: string, prefix: string, a: string, b: string, c: string) {
    Group(a) && Group(b) && Group(c) && h == prefix + "." + a + "." + b + "." + c
  }

  ghost predicate InClassB(h: string) {
    exists n, a, b :: 16 <= n <= 31 && TwoGroups(h, "172." + Decimal(n), a, b)
  }

  predicate BotHost(h: string, name: string) {
    h == "artek-bot-" + name && name != "" && forall x :: x in name ==> InAlphabet(x) || x == '.'
  }

  /** The loopback names, the private address ranges, and the containers of bots. */
  ghost predicate AllowedHost(h: string) {
    || h == "localhost" || h == "127.0.0.1" || h == "::1"
    || (exists a, b, c :: ThreeGroups(h, "10", a, b, c))
    || (exists a, b :: TwoGroups(h, "192.168", a, b))
    || InClassB(h)
    || (exists name :: BotHost(h, name))
  }

  /** The first group of octets, and what follows it. */
  lemma OctetsTake(s: string, n: nat) returns (a: string, rest: string)
    requires n > 0 && Octets(s, n)
    ensures Group(a) && s == "." + a + rest && Octets(rest, n - 1)
  {
    var k := if Octet(s, 1, n) then 1 else if Octet(s, 2, n) then 2 else 3;
    a, rest := s[1..1 + k], s[1 + k..];
    assert s == "." + a + rest;
  }

  lemma OctetsPut(a: string, rest: string, n: nat)
    requires n > 0 && Group(a) && Octets(rest, n - 1)
    ensures Octets("." + a + rest, n)
  {
    var s, k := "." + a + rest, |a|;
    assert s[1..1 + k] == a && s[1 + k..] == rest && s[0] == '.';
    assert Octet(s, k, n);
  }

  lemma TwoOctets(prefix: string, s: string)
    ensures Octets(s, 2) <==> exists a, b :: TwoGroups(prefix + s, prefix, a, b)
  {
    hide Octets, Group;
    NoOctets();
    if Octets(s, 2) {
      var a, rest := OctetsTake(s, 2);
      var b, rest2 := OctetsTake(rest, 1);
      EndOctets(rest2);
      assert prefix + s == prefix + "." + a + "." + b;
      assert TwoGroups(prefix + s, prefix, a, b);
    }
    if a, b :| TwoGroups(prefix + s, prefix, a, b) {
      var rest := "." + b + "";
      OctetsPut(b, "", 1);
      OctetsPut(a, rest, 2);
      assert prefix + s == prefix + ("." + a + rest);
      SamePrefix(prefix, s, "." + a + rest);
    }
  }

  lemma ThreeOctets(prefix: string, s: string)
    ensures Octets(s, 3) <==> exists a, b, c :: ThreeGroups(prefix + s, prefix, a, b, c)
  {
    hide Octets, Group;
    if Octets(s, 3) {
      var a, rest := OctetsTake(s, 3);
      TwoOctets(prefix + "." + a, rest);
      var b, c :| TwoGroups(prefix + "." + a + rest, prefix + "." + a, b, c);
      assert prefix + "." + a + rest == prefix + s;
      assert ThreeGroups(prefix + s, prefix, a, b, c);
    }
    if a, b, c :| ThreeGroups(prefix + s, prefix, a, b, c) {
      var rest := "." + b + "." + c;
      assert prefix + "." + a + rest == prefix + s;
      assert TwoGroups(prefix + "." + a + rest, prefix + "." + a, b, c);
      TwoOctets(prefix + "." + a, rest);
      OctetsPut(a, rest, 3);
      assert prefix + s == prefix + ("." + a + rest);
      SamePrefix(prefix, s, "." + a + rest);
    }
  }

  lemma SamePrefix(p: string, a: string, b: string)
    requires p + a == p + b
    ensures a == b
  {
    assert (p + a)[|p|..] == a && (p + b)[|p|..] == b;
  }

  lemma NoOctets()
    ensures Octets("", 0)
  {}

  lemma EndOctets(s: string)
    requires Octets(s, 0)
    ensures s == ""
  {}

  /** Which two digits have a value from 16 to 31. */
  lemma TwoDigits(d: string, n: nat)
    requires 10 <= n < 100
    ensures Decimal(n) == d <==> |d| == 2 && AllDigits(d) && DigitsValue(d) == n
  {
    assert Decimal(n) == [DigitChar(n / 10)] + [DigitChar(n % 10)];
    if |d| == 2 && AllDigits(d) {
      assert d[0] in d && d[1] in d;
      assert d[..1] == [d[0]] && d[..1][..0] == "";
      assert DigitsValue(d) == DigitsValue(d[..1]) * 10 + DigitOf(d[1]);
      assert DigitsValue(d[..1]) == DigitOf(d[0]);
      assert d == [d[0]] + [d[1]];
      if DigitsValue(d) == n { assert n / 10 == DigitOf(d[0]) && n % 10 == DigitOf(d[1]); }
    }
    DecimalValue(n);
  }

  lemma ClassB(h: string)
    ensures InClassB(h) <==>
            StartsWith(h, "172.") && |h| > 6 && AllDigits(h[4..6]) && 16 <= DigitsValue(h[4..6]) <= 31 && Octets(h[6..], 2)
  {
    hide Octets, Decimal, DigitsValue, Group;
    if InClassB(h) {
      var n, a, b :| 16 <= n <= 31 && TwoGroups(h, "172." + Decimal(n), a, b);
      TwoDigits(Decimal(n), n);
      var prefix, s := "172." + Decimal(n), "." + a + "." + b;
      assert h == prefix + s && |prefix| == 6;
      assert h[..4] == "172." && h[4..6] == Decimal(n) && h[6..] == s;
      TwoOctets(prefix, s);
    }
    if StartsWith(h, "172.") && |h| > 6 && AllDigits(h[4..6]) && 16 <= DigitsValue(h[4..6]) <= 31 && Octets(h[6..], 2) {
      var n := DigitsValue(h[4..6]);
      TwoDigits(h[4..6], n);
      var prefix := "172." + Decimal(n);
      assert prefix == h[..6] && h == prefix + h[6..];
      TwoOctets(prefix, h[6..]);
      var a, b :| TwoGroups(h, prefix, a, b);
      assert 16 <= n <= 31 && TwoGroups(h, "172." + Decimal(n), a, b);
    }
  }

  lemma PrefixIff(h: string, prefix: string)
    ensures StartsWith(h, prefix) <==> exists s :: h == prefix + s
    ensures StartsWith(h, prefix) ==> h == prefix + h[|prefix|..]
    ensures forall s :: h == prefix + s ==> StartsWith(h, prefix) && h[|prefix|..] == s
  {}

  /** The regular expressions and names allow exactly these hosts. */
  lemma AllowedHostIff(h: string)
    ensures IsAllowedHost(h) <==> AllowedHost(h)
  {
    hide Octets, DigitsValue, InClassB, ThreeGroups, TwoGroups, StartsWith;
    ClassB(h);
    TenHosts(h);
    OtherHosts(h);
    BotHosts(h);
  }

  lemma TenHosts(h: string)
    ensures StartsWith(h, "10") && Octets(h[2..], 3) <==> exists a, b, c :: ThreeGroups(h, "10", a, b, c)
  {
    hide Octets;
    if StartsWith(h, "10") {
      PrefixIff(h, "10");
      ThreeOctets("10", h[2..]);
    }
    if a, b, c :| ThreeGroups(h, "10", a, b, c) {
      assert h == "10" + ("." + a + "." + b + "." + c);
      PrefixIff(h, "10");
    }
  }

  lemma OtherHosts(h: string)
    ensures StartsWith(h, "192.168") && Octets(h[7..], 2) <==> exists a, b :: TwoGroups(h, "192.168", a, b)
  {
    hide Octets;
    if StartsWith(h, "192.168") {
      PrefixIff(h, "192.168");
      TwoOctets("192.168", h[7..]);
    }
    if a, b :| TwoGroups(h, "192.168", a, b) {
      assert h == "192.168" + ("." + a + "." + b);
      PrefixIff(h, "192.168");
    }
  }

  lemma BotHosts(h: string)
    ensures StartsWith(h, "artek-bot-") && |h| > 10 && (forall c :: c in h[10..] ==> InAlphabet(c) || c == '.') <==>
            exists name :: BotHost(h, name)
  {
    PrefixIff(h, "artek-bot-");
    if StartsWith(h, "artek-bot-") && |h| > 10 && forall c :: c in h[10..] ==> InAlphabet(c) || c == '.' {
      assert BotHost(h, h[10..]);
    }
    if name :| BotHost(h, name) { assert h[10..] == name; }
  }

  /** A URL that resolves with a signature made for some host, port, policy and expiry gives
      exactly those, unless two different texts have the same signature. */
  lemma ResolvedIsSigned(sign: string -> string, url: string, now: int, h: string, p: nat, c: bool, e: nat)
    requires Resolve(sign, url, now).Target? && Parse(url).Some?
    requires Parse(url).value.1.signature == sign(Message(h, p, c, e))
    ensures var t, parts := Resolve(sign, url, now), Parse(url).value.1;
            var message := Message(t.hostname, t.port, t.interactive, parts.expires);
            || (t.hostname == h && t.port == p && t.interactive == c && parts.expires == e
                && e >= now && IsAllowedHost(h) && AllowedPort(p))
            || (message != Message(h, p, c, e) && sign(message) == sign(Message(h, p, c, e)))
  {
    hide Parse, Message, DecodeHost, IsAllowedHost;
    var (token, parts) := Parse(url).value;
    var host := DecodeHost(token).value;
    if Message(host, parts.port, parts.control, parts.expires) == Message(h, p, c, e) {
      MessageDetermines(h, p, c, e, host, parts.port, parts.control, parts.expires);
    }
  }
}
