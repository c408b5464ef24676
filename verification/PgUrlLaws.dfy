/** What the redaction promises: passwords of every postgres URL are covered, nothing else
    changes, and redacting twice is redacting once. */
module PgUrlLaws {
  import opened Text
  import opened PgUrls

  // ---------------------------------------------------------------------------
  // Schemes

  /** A scheme is letters from p on, then "://". */
  lemma SchemeChars(t: string, p: nat)
    requires SchemeAt(t, p) > 0
    ensures var n := SchemeAt(t, p);
            && p + n <= |t| && n >= 11 && t[p] == 'p'
            && (forall q :: p < q < p + n ==> t[q] !in {'p', '@', '[', ']'})
            && t[p + n - 3] == ':' && t[p + n - 2] == '/' && t[p + n - 1] == '/'
            && (forall q :: p <= q < p + n - 3 ==> t[q] != ':')
  {
    var n := SchemeAt(t, p);
    var s := if n == 13 then Scheme(0) else Scheme(1);
    assert t[p..p + n] == s;
    SchemeLetters();
    forall q | p <= q < p + n ensures t[q] == s[q - p] { assert t[q] == t[p..p + n][q - p]; }
  }

  lemma SchemeLetters()
    ensures forall j: nat :: j < 2 ==>
              var s := Scheme(j);
              && |s| == (if j == 0 then 13 else 11) && s[0] == 'p'
              && (forall k :: 0 < k < |s| ==> s[k] !in {'p', '@', '[', ']'})
              && s[|s| - 3] == ':' && s[|s| - 2] == '/' && s[|s| - 1] == '/'
              && (forall k :: 0 <= k < |s| - 3 ==> s[k] != ':')
  {}

  /** Two schemes never overlap. */
  lemma Apart(t: string, p: nat, q: nat)
    requires SchemeAt(t, p) > 0 && SchemeAt(t, q) > 0 && p < q
    ensures q >= p + SchemeAt(t, p)
  {
    hide SchemeAt;
    SchemeChars(t, p);
    SchemeChars(t, q);
  }

  /** The same text has the same schemes. */
  lemma SameScheme(a: string, p: nat, b: string, q: nat, n: nat)
    requires p + n <= |a| && q + n <= |b| && a[p..p + n] == b[q..q + n]
    requires 0 < SchemeAt(a, p) <= n
    ensures SchemeAt(b, q) == SchemeAt(a, p)
  {
    hide Scheme;
    SchemeSize();
    OneScheme(b, q);
    var m := SchemeAt(a, p);
    assert a[p..p + m] == a[p..p + n][..m] && b[q..q + m] == b[q..q + n][..m];
  }

  // ---------------------------------------------------------------------------
  // The spans that are replaced

  type Span = (nat, nat)

  function Spans(t: string, i: nat): seq<Span>
    requires i <= |t|
    decreases |t| - i
  {
    if i == |t| then []
    else
      var hit := FirstScheme(t, i);
      var start := hit + SchemeAt(t, hit);
      var rest := Spans(t, TurnAt(t, i).next);
      if hit < |t| && Redacts(t, start) then [(FindChar(t, ':', start) + 1, FindChar(t, '@', start))] + rest else rest
  }

  /** The nonempty password of a URL: a colon before it, no at-sign or white space inside,
      an at-sign after it. */
  predicate Password(t: string, s: Span) {
    && 0 < s.0 < s.1 < |t| && t[s.0 - 1] == ':' && t[s.1] == '@'
    && (forall q :: s.0 <= q < s.1 ==> t[q] != '@') && !SpaceIn(t, s.0, s.1)
  }

  /** Passwords in order and apart, from position i on. */
  predicate Passwords(t: string, i: nat, spans: seq<Span>)
    decreases |spans|
  {
    spans != [] ==> i < spans[0].0 && Password(t, spans[0]) && Passwords(t, spans[0].1 + 1, spans[1..])
  }

  /** All spans replaced at once. */
  function Splice(t: string, from: nat, spans: seq<Span>): string
    requires from <= |t| && Passwords(t, from, spans)
    decreases |spans|
  {
    if spans == [] then t[from..]
    else t[from..spans[0].0] + Mask() + "@" + Splice(t, spans[0].1 + 1, spans[1..])
  }

  /** One turn either leaves its text alone or replaces one password. */
  lemma SpanTurn(t: string, i: nat) returns (masks: bool)
    requires i < |t|
    ensures var k := TurnAt(t, i);
            && RedactFrom(t, i) == k.text + RedactFrom(t, k.next)
            && (!masks ==> Spans(t, i) == Spans(t, k.next) && k.text == t[i..k.next])
            && (masks ==>
                  && |Spans(t, i)| > 0
                  && var s := Spans(t, i)[0];
                  && i < s.0 && Password(t, s) && k.next == s.1 + 1
                  && Spans(t, i)[1..] == Spans(t, k.next) && k.text == t[i..s.0] + Mask() + "@")
  {
    hide Mask, FirstScheme, SchemeAt, TurnAt, Redacts, FindChar, Password;
    TurnIs(t, i);
    var hit := FirstScheme(t, i);
    var start := hit + SchemeAt(t, hit);
    masks := hit < |t| && Redacts(t, start);
    var rest := Spans(t, TurnAt(t, i).next);
    if masks {
      IsPassword(t, start);
      assert Spans(t, i) == [(FindChar(t, ':', start) + 1, FindChar(t, '@', start))] + rest;
    } else if hit == |t| {
      assert t[i..|t|] == t[i..];
    }
  }

  lemma IsPassword(t: string, start: nat)
    requires Redacts(t, start)
    ensures Password(t, (FindChar(t, ':', start) + 1, FindChar(t, '@', start)))
  {}

  lemma PasswordsFrom(t: string, i: nat, j: nat, spans: seq<Span>)
    requires Passwords(t, j, spans) && i <= j
    ensures Passwords(t, i, spans)
  {}

  lemma {:induction false} SpansArePasswords(t: string, i: nat)
    requires i <= |t|
    ensures Passwords(t, i, Spans(t, i))
    decreases |t| - i
  {
    hide Spans, TurnAt, RedactFrom, Mask, Password;
    if i < |t| {
      var masks := SpanTurn(t, i);
      var k := TurnAt(t, i);
      SpansArePasswords(t, k.next);
      if !masks { PasswordsFrom(t, i, k.next, Spans(t, i)); }
    } else {
      SpansEnd(t);
    }
  }

  lemma SpansEnd(t: string)
    ensures Spans(t, |t|) == [] && RedactFrom(t, |t|) == ""
  {}

  lemma {:induction false} RedactSplices(t: string, i: nat)
    requires i <= |t| && Passwords(t, i, Spans(t, i))
    ensures RedactFrom(t, i) == Splice(t, i, Spans(t, i))
    decreases |t| - i
  {
    hide Spans, TurnAt, RedactFrom, Mask, Password;
    if i < |t| {
      var masks := SpanTurn(t, i);
      var k := TurnAt(t, i);
      SpansArePasswords(t, k.next);
      RedactSplices(t, k.next);
      if !masks { SpliceFrom(t, i, k.next, Spans(t, i)); }
    } else {
      SpansEnd(t);
    }
  }

  lemma SpliceFrom(t: string, i: nat, j: nat, spans: seq<Span>)
    requires i <= j <= |t| && Passwords(t, j, spans) && Passwords(t, i, spans)
    ensures Splice(t, i, spans) == t[i..j] + Splice(t, j, spans)
  {
    hide Mask, SpaceIn;
    if spans == [] {
      assert t[i..] == t[i..j] + t[j..];
    } else {
      Slice(t, i, j, spans[0].0);
      Regroup3(t[i..j], t[j..spans[0].0], Mask(), Splice(t, spans[0].1 + 1, spans[1..]));
    }
  }

  lemma Regroup3(a: string, b: string, m: string, rest: string)
    ensures a + b + m + "@" + rest == a + (b + m + "@" + rest)
  {}

  /** Nothing outside the replaced password spans changes. */
  lemma OnlyPasswordsChange(t: string)
    ensures Passwords(t, 0, Spans(t, 0)) && Redact(t) == Splice(t, 0, Spans(t, 0))
  {
    hide Spans, RedactFrom, Passwords, Splice;
    SpansArePasswords(t, 0);
    RedactSplices(t, 0);
  }

  ghost predicate Covers(spans: seq<Span>, a: nat, b: nat) {
    exists k :: 0 <= k < |spans| && spans[k].0 <= a && b <= spans[k].1
  }

  /** The password of every URL in the text lies inside a replaced span, also where an
      earlier scheme was skipped or an earlier span swallowed this URL. */
  lemma {:induction false} EveryPasswordCovered(t: string, i: nat, p: nat, start: nat)
    requires i <= p < |t| && SchemeAt(t, p) > 0 && start == p + SchemeAt(t, p) && Redacts(t, start)
    ensures Covers(Spans(t, i), FindChar(t, ':', start) + 1, FindChar(t, '@', start))
    decreases |t| - i
  {
    hide SchemeAt, Redacts, Spans, TurnAt, RedactFrom, Mask, Password;
    var hit := FirstScheme(t, i);
    var s0 := hit + SchemeAt(t, hit);
    var colon, at := FindChar(t, ':', start), FindChar(t, '@', start);
    RedactsOrder(t, start);
    SpanStep(t, i);
    var next := TurnAt(t, i).next;
    if p > hit { Apart(t, hit, p); }
    if p >= next {
      EveryPasswordCovered(t, next, p, start);
      CoversMore(Spans(t, i), Spans(t, next), colon + 1, at);
    } else if p > hit {
      Swallowed(t, s0, p);
    }
    if p < next { assert Spans(t, i)[0].0 <= colon + 1 && at <= Spans(t, i)[0].1; }
  }

  lemma SpanStep(t: string, i: nat)
    requires i < |t| && FirstScheme(t, i) < |t|
    ensures var hit, k := FirstScheme(t, i), TurnAt(t, i);
            var start := hit + SchemeAt(t, hit);
            var rest := Spans(t, k.next);
            if Redacts(t, start) then
              && FindChar(t, ':', start) >= 0
              && k.next == FindChar(t, '@', start) + 1
              && Spans(t, i) == [(FindChar(t, ':', start) + 1, FindChar(t, '@', start))] + rest
            else k.next == start && Spans(t, i) == rest
  {
    hide FirstScheme, SchemeAt, Mask, Redacts, TurnAt, FindChar;
    TurnIs(t, i);
  }

  /** At position p stands a postgres URL with a user, a colon, a password and an at-sign. */
  predicate Url(t: string, p: nat, start: nat, colon: nat, at: nat) {
    && p < start <= |t|
    && (t[p..start] == "postgresql://" || t[p..start] == "postgres://")
    && start < colon && colon + 1 < at < |t| && t[colon] == ':' && t[at] == '@'
    && (forall q :: start <= q < colon ==> t[q] != ':' && t[q] != '/' && t[q] != '@')
    && (forall q :: colon < q < at ==> t[q] != '@' && !IsSpace(t[q]))
  }

  lemma SchemeIff(t: string, p: nat, start: nat)
    requires p < start
    ensures SchemeAt(t, p) == start - p <==>
            start <= |t| && (t[p..start] == "postgresql://" || t[p..start] == "postgres://")
  {
    OneScheme(t, p);
  }

  /** What the scan takes for a URL with a password to redact is exactly that. */
  lemma UrlIff(t: string, p: nat, start: nat, colon: nat, at: nat)
    ensures Url(t, p, start, colon, at) <==>
            && SchemeAt(t, p) > 0 && start == p + SchemeAt(t, p) && Redacts(t, start)
            && colon == FindChar(t, ':', start) && at == FindChar(t, '@', start)
  {
    hide SchemeAt, FindChar;
    if p < start { SchemeIff(t, p, start); }
    if Url(t, p, start, colon, at) {
      FindAt(t, ':', start, colon);
      FindAt(t, '@', start, at);
    }
  }

  /** The password of every postgres URL in the text is covered. */
  lemma EveryUrlCovered(t: string, p: nat, start: nat, colon: nat, at: nat)
    requires Url(t, p, start, colon, at)
    ensures Covers(Spans(t, 0), colon + 1, at)
  {
    hide Covers, Spans, SchemeAt, Redacts;
    UrlIff(t, p, start, colon, at);
    EveryPasswordCovered(t, 0, p, start);
  }

  /** And nothing else is: every replaced span is the password of such a URL. */
  ghost predicate OfUrl(t: string, s: Span) {
    exists p, start :: UrlOver(t, p, start, s)
  }

  predicate UrlOver(t: string, p: nat, start: nat, s: Span) {
    s.0 > 0 && Url(t, p, start, s.0 - 1, s.1)
  }

  lemma {:induction false} SpansAreUrls(t: string, i: nat)
    requires i <= |t|
    ensures forall k :: 0 <= k < |Spans(t, i)| ==> OfUrl(t, Spans(t, i)[k])
    decreases |t| - i
  {
    hide Redacts, SchemeAt, Url, TurnAt;
    if i < |t| {
      var hit, next := FirstScheme(t, i), TurnAt(t, i).next;
      SpansAreUrls(t, next);
      if hit < |t| {
        var start := hit + SchemeAt(t, hit);
        SpanStep(t, i);
        if Redacts(t, start) {
          RedactsOrder(t, start);
          var colon, at := FindChar(t, ':', start), FindChar(t, '@', start);
          UrlIff(t, hit, start, colon, at);
          assert Spans(t, i)[0] == (colon + 1, at) && UrlOver(t, hit, start, (colon + 1, at));
          assert Spans(t, i)[1..] == Spans(t, next);
        }
      } else {
        SpansNone(t, i);
      }
    }
  }

  lemma SpansNone(t: string, i: nat)
    requires i < |t| && FirstScheme(t, i) == |t|
    ensures Spans(t, i) == []
  {
    SpansEnd(t);
  }

  lemma MaskText()
    ensures Mask() == "[redacted]"
  {}

  lemma CoversMore(all: seq<Span>, rest: seq<Span>, a: nat, b: nat)
    requires Covers(rest, a, b)
    requires all == rest || (|all| > 0 && all[1..] == rest)
    ensures Covers(all, a, b)
  {
    var k :| 0 <= k < |rest| && rest[k].0 <= a && b <= rest[k].1;
    if all != rest { assert all[k + 1] == rest[k]; }
  }

  /** A URL that starts inside a redacted one has its password inside that one's. */
  lemma Swallowed(t: string, s0: nat, p: nat)
    requires s0 <= p < |t| && SchemeAt(t, p) > 0 && Redacts(t, s0) && p <= FindChar(t, '@', s0)
    requires Redacts(t, p + SchemeAt(t, p))
    ensures FindChar(t, '@', p + SchemeAt(t, p)) == FindChar(t, '@', s0)
    ensures FindChar(t, ':', p + SchemeAt(t, p)) > FindChar(t, ':', s0)
  {
    hide SchemeAt, SpaceIn;
    SchemeChars(t, p);
  }

  // ---------------------------------------------------------------------------
  // Redacting again

  /** `a` from i and `b` from j put the same colon and at-sign before a scheme's decision. */
  predicate Like(a: string, i: nat, b: string, j: nat) {
    var c, d, c', d' := FindChar(a, ':', i), FindChar(a, '@', i), FindChar(b, ':', j), FindChar(b, '@', j);
    && (c < 0 <==> c' < 0)
    && (c >= 0 ==> c' - j == c - i && forall k :: i <= k < c ==> a[k] == b[j + (k - i)])
    && (d < 0 <==> d' < 0)
    && (d >= 0 ==> (SpaceIn(a, i, d) <==> SpaceIn(b, j, d')))
    && (c >= 0 && d >= 0 ==> (c < d <==> c' < d'))
    && (0 <= c < d ==> (c + 1 < d <==> c' + 1 < d') && (SpaceIn(a, c + 1, d) <==> SpaceIn(b, c' + 1, d')))
  }

  lemma LikeDecides(a: string, i: nat, b: string, j: nat)
    requires Like(a, i, b, j)
    ensures Redacts(a, i) <==> Redacts(b, j)
  {
    hide SpaceIn;
    var c, c' := FindChar(a, ':', i), FindChar(b, ':', j);
    if 0 <= c {
      assert forall k :: j <= k < c' ==> b[k] == a[i + (k - j)];
    }
  }

  /** The output from j on is the redaction of the input from i on. */
  predicate Redacted(t: string, i: nat, o: string, j: nat) {
    i <= |t| && j <= |o| && o[j..] == RedactFrom(t, i)
  }

  /** One turn, seen in input and output. */
  lemma OutputTurn(t: string, i: nat, o: string, j: nat) returns (j': nat)
    requires Redacted(t, i, o, j) && i < |t|
    ensures var k := TurnAt(t, i); j' == j + |k.text| && j' <= |o| && o[j..j'] == k.text && Redacted(t, k.next, o, j')
  {
    hide TurnAt;
    var k := TurnAt(t, i);
    j' := j + |k.text|;
    assert |o[j..]| == |k.text| + |RedactFrom(t, k.next)|;
    assert o[j..][..|k.text|] == k.text == o[j..j'];
    assert o[j..][|k.text|..] == RedactFrom(t, k.next) == o[j'..];
  }

  /** Searching through a stretch that both texts share. */
  lemma FindShared(a: string, i: nat, n: nat, b: string, j: nat, m: nat, c: char)
    requires i <= n <= |a| && j <= m <= |b| && a[i..n] == b[j..m]
    ensures var p, q := FindChar(a, c, i), FindChar(b, c, j);
            if i <= p < n then q == j + (p - i)
            else p == FindChar(a, c, n) && q == FindChar(b, c, m)
    ensures forall k :: i <= k < n ==> a[k] == b[j + (k - i)]
  {
    hide FindChar;
    assert n - i == m - j;
    forall k | i <= k < n ensures a[k] == b[j + (k - i)] { assert a[k] == a[i..n][k - i]; }
    FindFrom(a, c, i, n);
    FindFrom(b, c, j, m);
    var p, q := FindChar(a, c, i), FindChar(b, c, j);
    if i <= p < n { assert b[j + (p - i)] == c; }
    if j <= q < m { assert a[i + (q - j)] == b[j + (i + (q - j) - i)]; }
  }

  lemma {:induction false} FindFrom(t: string, c: char, i: nat, n: nat)
    requires i <= n <= |t|
    ensures !(i <= FindChar(t, c, i) < n) ==> FindChar(t, c, i) == FindChar(t, c, n)
    decreases n - i
  {
    if i < n && t[i] != c { FindFrom(t, c, i + 1, n); }
  }

  lemma SpaceSame(a: string, x: nat, y: nat, b: string, x': nat)
    requires x <= y <= |a| && x' + (y - x) <= |b|
    requires forall k :: x <= k < y ==> a[k] == b[x' + (k - x)]
    ensures SpaceIn(a, x, y) <==> SpaceIn(b, x', x' + (y - x))
  {
    if SpaceIn(a, x, y) {
      var k :| x <= k < y && IsSpace(a[k]);
      assert IsSpace(b[x' + (k - x)]);
    }
    if SpaceIn(b, x', x' + (y - x)) {
      var k :| x' <= k < x' + (y - x) && IsSpace(b[k]);
      assert a[x + (k - x')] == b[x' + (x + (k - x') - x)];
    }
  }

  lemma SpaceSplit(t: string, x: nat, n: nat, y: nat)
    requires x <= n <= y <= |t|
    ensures SpaceIn(t, x, y) <==> SpaceIn(t, x, n) || SpaceIn(t, n, y)
  {
    if SpaceIn(t, x, y) { var k :| x <= k < y && IsSpace(t[k]); assert k < n || n <= k; }
  }

  /** Texts that share a stretch with a colon in it, not as its last character, and are
      alike behind it are alike. */
  lemma LikeShared(a: string, i: nat, n: nat, b: string, j: nat, m: nat)
    requires i <= n <= |a| && j <= m <= |b| && a[i..n] == b[j..m] && Like(a, n, b, m)
    requires i <= FindChar(a, ':', i) < n - 1
    ensures Like(a, i, b, j)
  {
    hide FindChar, SpaceIn;
    assert n - i == m - j by { assert |a[i..n]| == |b[j..m]|; }
    FindShared(a, i, n, b, j, m, ':');
    FindShared(a, i, n, b, j, m, '@');
    var c, d, c' := FindChar(a, ':', i), FindChar(a, '@', i), FindChar(b, ':', j);
    if i <= d < n {
      SpaceSame(a, i, d, b, j);
      if c < d { SpaceSame(a, c + 1, d, b, c' + 1); }
    } else if d >= n {
      SpaceBehind(a, i, n, d, b, j, m, FindChar(b, '@', j));
      SpaceBehind(a, c + 1, n, d, b, c' + 1, m, FindChar(b, '@', j));
    }
  }

  lemma SpaceBehind(a: string, i: nat, n: nat, d: nat, b: string, j: nat, m: nat, d': nat)
    requires i <= n <= d <= |a| && j <= m <= d' <= |b| && n - i == m - j
    requires forall k :: i <= k < n ==> a[k] == b[j + (k - i)]
    requires SpaceIn(a, n, d) <==> SpaceIn(b, m, d')
    ensures SpaceIn(a, i, d) <==> SpaceIn(b, j, d')
  {
    hide SpaceIn;
    SpaceSplit(a, i, n, d);
    SpaceSplit(b, j, m, d');
    SpaceSame(a, i, n, b, j);
  }

  lemma MaskLetters()
    ensures Mask()[0] == '[' && forall k :: 0 <= k < 10 ==> Mask()[k] !in {'@', ':', 'p'} && !IsSpace(Mask()[k])
  {}

  /** The mask in place of a password keeps texts alike. */
  lemma LikeMasked(a: string, i: nat, s: Span, b: string, j: nat, m: nat)
    requires i < s.0 && Password(a, s) && j <= m && m + 11 <= |b| && a[i..s.0] == b[j..m]
    requires b[m..m + 10] == Mask() && b[m + 10] == '@'
    requires i <= FindChar(a, ':', i) < s.0 - 1
    ensures Like(a, i, b, j)
  {
    hide FindChar, SpaceIn, Mask;
    assert s.0 - i == m - j by { assert |a[i..s.0]| == |b[j..m]|; }
    MaskLetters();
    forall k | m <= k < m + 10 ensures b[k] !in {'@', ':', 'p'} && !IsSpace(b[k]) {
      assert b[k] == b[m..m + 10][k - m];
    }
    NoSpaces(b, m, m + 10);
    FindShared(a, i, s.0, b, j, m, ':');
    FindShared(a, i, s.0, b, j, m, '@');
    FindAt(a, '@', s.0, s.1);
    FindAt(b, '@', m, m + 10);
    var c, d, c' := FindChar(a, ':', i), FindChar(a, '@', i), FindChar(b, ':', j);
    if d < s.0 {
      SpaceSame(a, i, d, b, j);
      if c < d { SpaceSame(a, c + 1, d, b, c' + 1); }
    } else {
      SpaceSplit(a, i, s.0, s.1);
      SpaceSplit(b, j, m, m + 10);
      SpaceSame(a, i, s.0, b, j);
      SpaceSplit(a, c + 1, s.0, s.1);
      SpaceSplit(b, c' + 1, m, m + 10);
      SpaceSame(a, c + 1, s.0, b, c' + 1);
    }
  }

  lemma NoSpaces(t: string, x: nat, y: nat)
    requires y <= |t| && forall k :: x <= k < y ==> !IsSpace(t[k])
    ensures !SpaceIn(t, x, y)
  {}

  lemma {:induction false} FindAt(t: string, c: char, i: nat, p: nat)
    requires i <= p < |t| && t[p] == c && forall k :: i <= k < p ==> t[k] != c
    ensures FindChar(t, c, i) == p
    decreases p - i
  {
    if i < p { FindAt(t, c, i + 1, p); }
  }

  /** A turn that has found a scheme passes the scheme's colon. */
  lemma TurnColon(t: string, i: nat)
    requires i < |t| && FirstScheme(t, i) < |t|
    ensures var start := FirstScheme(t, i) + SchemeAt(t, FirstScheme(t, i));
            start <= |t| && i <= FindChar(t, ':', i) < start - 1
  {
    hide SchemeAt, FirstScheme;
    SchemeChars(t, FirstScheme(t, i));
  }

  /** What a turn does to input and output. */
  lemma TurnShapes(t: string, i: nat, o: string, j: nat) returns (j': nat)
    requires Redacted(t, i, o, j) && i < |t|
    ensures Shaped(t, i, o, j, j')
  {
    hide Mask, FirstScheme, SchemeAt, Redacts, TurnAt, FindChar, RedactFrom, Password, Redacted;
    TurnIs(t, i);
    j' := OutputTurn(t, i, o, j);
    var hit, k := FirstScheme(t, i), TurnAt(t, i);
    var start := hit + SchemeAt(t, hit);
    if hit == |t| {
      assert t[i..|t|] == t[i..];
    } else if Redacts(t, start) {
      IsPassword(t, start);
      RedactsOrder(t, start);
      MaskedSlices(o, j, t[i..FindChar(t, ':', start) + 1]);
    }
  }

  lemma MaskedSlices(o: string, j: nat, x: string)
    requires j + |x| + 11 <= |o| && o[j..j + |x| + 11] == x + Mask() + "@"
    ensures var m := j + |x|; o[j..m] == x && o[m..m + 10] == Mask() && o[m + 10] == '@'
  {
    hide Mask;
    var m, y, all := j + |x|, Mask() + "@", o[j..j + |x| + 11];
    assert all == x + y && all[..|x|] == x && all[|x|..] == y && y[..10] == Mask() && y[10] == '@';
    forall k | 0 <= k < |x| ensures o[j..m][k] == x[k] { assert o[j + k] == all[k]; }
    assert o[j..m] == x;
    forall k | 0 <= k < 11 ensures o[m + k] == y[k] { assert o[m + k] == all[|x| + k]; }
    assert o[m..m + 10] == y[..10];
  }

  /** The shapes that TurnShapes finds. */
  ghost predicate Shaped(t: string, i: nat, o: string, j: nat, j': nat)
    requires i < |t|
  {
    var hit, k := FirstScheme(t, i), TurnAt(t, i);
    && j <= j' <= |o| && Redacted(t, k.next, o, j')
    && if hit == |t| then k.next == |t| && o[j..j'] == t[i..|t|]
       else
         var start := hit + SchemeAt(t, hit);
         if !Redacts(t, start) then k.next == start && o[j..j'] == t[i..start]
         else
           var s := (FindChar(t, ':', start) + 1, FindChar(t, '@', start));
           var m := j + (s.0 - i);
           && start < s.0 - 1 && Password(t, s) && k.next == s.1 + 1
           && j' == m + 11 && o[j..m] == t[i..s.0] && o[m..m + 10] == Mask() && o[m + 10] == '@'
  }

  lemma LikeTurn(t: string, i: nat, o: string, j: nat, j': nat)
    requires i < |t| && Shaped(t, i, o, j, j') && Like(t, TurnAt(t, i).next, o, j')
    ensures Like(t, i, o, j)
  {
    hide Mask, FirstScheme, SchemeAt, Redacts, TurnAt, RedactFrom, Password, Like, FindChar;
    var hit := FirstScheme(t, i);
    if hit == |t| {
      RestSame(t, i, o, j, j');
    } else {
      var start := hit + SchemeAt(t, hit);
      TurnColon(t, i);
      if Redacts(t, start) {
        var s := (FindChar(t, ':', start) + 1, FindChar(t, '@', start));
        LikeMasked(t, i, s, o, j, j + (s.0 - i));
      } else {
        LikeShared(t, i, start, o, j, j');
      }
    }
  }

  /** Decisions are unaffected by later replacements. */
  lemma {:induction false} LikeOutput(t: string, i: nat, o: string, j: nat)
    requires Redacted(t, i, o, j)
    ensures Like(t, i, o, j)
    decreases |t| - i
  {
    hide TurnAt, RedactFrom, Like, Shaped;
    if i == |t| {
      SpansEnd(t);
      LikeEnds(t, o, j);
    } else {
      var j' := TurnShapes(t, i, o, j);
      ShapedRest(t, i, o, j, j');
      LikeOutput(t, TurnAt(t, i).next, o, j');
      LikeTurn(t, i, o, j, j');
    }
  }

  lemma ShapedRest(t: string, i: nat, o: string, j: nat, j': nat)
    requires i < |t| && Shaped(t, i, o, j, j')
    ensures j <= j' <= |o| && Redacted(t, TurnAt(t, i).next, o, j')
  {
    hide TurnAt, Redacts, FirstScheme, SchemeAt, Redacted;
  }

  lemma LikeEnds(t: string, o: string, j: nat)
    requires j <= |o| && o[j..] == ""
    ensures Like(t, |t|, o, j)
  {}

  lemma RestSame(t: string, i: nat, o: string, j: nat, j': nat)
    requires i <= |t| && j <= j' <= |o| && o[j..j'] == t[i..|t|] && Redacted(t, |t|, o, j')
    ensures Like(t, i, o, j)
  {
    hide FindChar, SpaceIn;
    SpansEnd(t);
    assert j' == |o| by { assert |o[j'..]| == 0; }
    assert |o| - j == |t| - i by { assert |o[j..j']| == |t[i..|t|]|; }
    FindShared(t, i, |t|, o, j, j', ':');
    FindShared(t, i, |t|, o, j, j', '@');
    FindNone(t, ':');
    FindNone(t, '@');
    FindNone(o, ':');
    FindNone(o, '@');
    var c, d, c' := FindChar(t, ':', i), FindChar(t, '@', i), FindChar(o, ':', j);
    if d >= 0 {
      SpaceSame(t, i, d, o, j);
      if 0 <= c < d { SpaceSame(t, c + 1, d, o, c' + 1); }
    }
  }

  lemma FindNone(t: string, c: char)
    ensures FindChar(t, c, |t|) == -1
  {}

  // ---------------------------------------------------------------------------
  // The output is clean, and clean text does not change

  /** From j on, every password that would be redacted is already the mask. */
  ghost predicate Clean(o: string, j: nat) {
    forall q :: j <= q < |o| && SchemeAt(o, q) > 0 ==> CleanAt(o, q + SchemeAt(o, q))
  }

  predicate CleanAt(o: string, start: nat) {
    Redacts(o, start) ==>
      var colon, at := FindChar(o, ':', start), FindChar(o, '@', start);
      0 <= colon < at <= |o| && o[colon + 1..at] == Mask()
  }

  lemma SubSlice(a: string, x: nat, y: nat, b: string, u: nat, d: nat, n: nat)
    requires x <= y <= |a| && u + (y - x) <= |b| && a[x..y] == b[u..u + (y - x)] && d + n <= y - x
    ensures a[x + d..x + d + n] == b[u + d..u + d + n]
  {
    var l, r := a[x + d..x + d + n], b[u + d..u + d + n];
    forall k | 0 <= k < n ensures l[k] == r[k] {
      assert l[k] == a[x + d + k] == a[x..y][d + k];
      assert r[k] == b[u + d + k] == b[u..u + (y - x)][d + k];
    }
    assert l == r;
  }

  /** No scheme begins in what a turn puts out before the scheme it found. */
  lemma NoneBefore(t: string, i: nat, hit: nat, o: string, j: nat, q: nat)
    requires i <= hit <= |t| && hit == FirstScheme(t, i) && j <= q
    requires j + (hit - i) <= |o| && o[j..j + (hit - i)] == t[i..hit] && q < j + (hit - i)
    requires hit == |t| ==> j + (hit - i) == |o|
    requires hit < |t| ==> SchemeAt(o, j + (hit - i)) > 0
    ensures SchemeAt(o, q) == 0
  {
    hide SchemeAt, FirstScheme;
    var h := j + (hit - i);
    if SchemeAt(o, q) > 0 {
      var n := SchemeAt(o, q);
      if hit < |t| { Apart(o, q, h); }
      var p := i + (q - j);
      SubSlice(o, j, h, t, i, q - j, n);
      SameScheme(o, q, t, p, n);
      assert false;
    }
  }

  lemma {:induction false} OutputClean(t: string, i: nat, o: string, j: nat)
    requires Redacted(t, i, o, j)
    ensures Clean(o, j)
    decreases |t| - i
  {
    hide SchemeAt, TurnAt, RedactFrom, CleanAt, Shaped;
    if i < |t| {
      var j' := TurnShapes(t, i, o, j);
      ShapedRest(t, i, o, j, j');
      OutputClean(t, TurnAt(t, i).next, o, j');
      forall q | j <= q < |o| && SchemeAt(o, q) > 0 ensures CleanAt(o, q + SchemeAt(o, q)) {
        if q < j' { TurnClean(t, i, o, j, j', q); }
      }
    } else {
      SpansEnd(t);
      assert |o[j..]| == 0;
    }
  }

  /** What one turn puts out from position j of the output to j', up to x of the input. */
  predicate Copied(t: string, i: nat, x: nat, o: string, j: nat) {
    i <= x <= |t| && j + (x - i) <= |o| && o[j..j + (x - i)] == t[i..x]
  }

  /** A scheme that begins in a copied stretch is the one the turn found. */
  lemma FoundScheme(t: string, i: nat, x: nat, o: string, j: nat, q: nat)
    requires i < |t| && FirstScheme(t, i) < |t| && Copied(t, i, x, o, j)
    requires FirstScheme(t, i) + SchemeAt(t, FirstScheme(t, i)) <= x && j <= q && SchemeAt(o, q) > 0
    ensures var hit := FirstScheme(t, i);
            var h, n := j + (hit - i), SchemeAt(t, hit);
            && SchemeAt(o, h) == n
            && (q == h || q >= h + n)
  {
    hide FirstScheme, SchemeAt;
    var hit := FirstScheme(t, i);
    var h, n := j + (hit - i), SchemeAt(t, hit);
    SubSlice(t, i, x, o, j, hit - i, n);
    SameScheme(t, hit, o, h, n);
    SubSlice(t, i, x, o, j, 0, hit - i);
    if q < h { NoneBefore(t, i, hit, o, j, q); }
    if q > h { Apart(o, h, q); }
  }

  /** A scheme in what one turn puts out is the one it found. */
  lemma TurnClean(t: string, i: nat, o: string, j: nat, j': nat, q: nat)
    requires i < |t| && Shaped(t, i, o, j, j') && j <= q < j' && SchemeAt(o, q) > 0
    ensures CleanAt(o, q + SchemeAt(o, q))
  {
    hide Mask, FirstScheme, SchemeAt, Redacts, TurnAt, RedactFrom, Password, Like, CleanAt, FindChar;
    var hit := FirstScheme(t, i);
    if hit == |t| {
      SpansEnd(t);
      assert |o[j'..]| == 0 && |o[j..j']| == |t[i..|t|]|;
      NoneBefore(t, i, hit, o, j, q);
    } else {
      var n := SchemeAt(t, hit);
      var start := hit + n;
      var h := j + (hit - i);
      if !Redacts(t, start) {
        assert |o[j..j']| == |t[i..start]|;
        FoundScheme(t, i, start, o, j, q);
        LikeOutput(t, start, o, j');
        LikeDecides(t, start, o, j');
        NotClean(o, j');
      } else {
        var a := FindChar(t, ':', start) + 1;
        InText(t, start);
        FoundScheme(t, i, a, o, j, q);
        SubSlice(t, i, a, o, j, start - i, a - start);
        MaskClean(t, start, o, h + n, j' - 11);
        if q > h { NoneInMasked(t, start, o, h + n, j' - 11, q); }
      }
    }
  }

  lemma InText(t: string, start: nat)
    requires Redacts(t, start)
    ensures start < FindChar(t, ':', start) < |t|
  {}

  lemma NotClean(o: string, start: nat)
    requires !Redacts(o, start)
    ensures CleanAt(o, start)
  {}

  /** Behind the scheme the output has the same user, then the mask. */
  lemma MaskClean(t: string, start: nat, o: string, j: nat, m: nat)
    requires Redacts(t, start) && start <= FindChar(t, ':', start) < |t| && j <= m && m + 11 <= |o|
    requires t[start..FindChar(t, ':', start) + 1] == o[j..m] && o[m..m + 10] == Mask() && o[m + 10] == '@'
    ensures CleanAt(o, j)
  {
    hide Mask, SpaceIn;
    var colon := FindChar(t, ':', start);
    assert |t[start..colon + 1]| == |o[j..m]|;
    FindShared(t, start, colon + 1, o, j, m, ':');
    FindShared(t, start, colon + 1, o, j, m, '@');
    MaskLetters();
    forall k | m <= k < m + 10 ensures o[k] != '@' { assert o[k] == o[m..m + 10][k - m]; }
    FindAt(o, '@', m, m + 10);
  }

  /** No scheme begins in the user, the mask, or across them. */
  lemma NoneInMasked(t: string, start: nat, o: string, j: nat, m: nat, q: nat)
    requires Redacts(t, start) && start <= FindChar(t, ':', start) < |t| && j <= m && m + 11 <= |o|
    requires t[start..FindChar(t, ':', start) + 1] == o[j..m] && o[m..m + 10] == Mask() && o[m + 10] == '@'
    requires j <= q < m + 11
    ensures SchemeAt(o, q) == 0
  {
    hide Mask, SpaceIn, SchemeAt;
    var colon := FindChar(t, ':', start);
    assert |t[start..colon + 1]| == |o[j..m]|;
    forall k | start <= k < colon + 1 ensures o[j + (k - start)] == t[k] {
      assert t[k] == t[start..colon + 1][k - start] == o[j..m][k - start];
    }
    assert o[m - 1] == ':' && forall k :: j <= k < m - 1 ==> o[k] == t[start + (k - j)] && o[k] != ':';
    MaskLetters();
    forall k | m <= k < m + 10 ensures o[k] == Mask()[k - m] { assert o[k] == o[m..m + 10][k - m]; }
    assert o[m] == '[';
    if SchemeAt(o, q) > 0 {
      SchemeChars(o, q);
      assert false;
    }
  }

  /** Clean text is left as it is. */
  lemma {:induction false} CleanFixed(o: string, i: nat)
    requires i <= |o| && Clean(o, i)
    ensures RedactFrom(o, i) == o[i..]
    decreases |o| - i
  {
    hide Mask, FirstScheme, SchemeAt, Redacts, TurnAt, FindChar;
    if i < |o| {
      TurnIs(o, i);
      var k := TurnAt(o, i);
      var hit := FirstScheme(o, i);
      CleanFixed(o, k.next);
      assert o[i..] == o[i..k.next] + o[k.next..];
      if hit < |o| {
        var start := hit + SchemeAt(o, hit);
        if Redacts(o, start) {
          assert CleanAt(o, start);
          var colon, at := FindChar(o, ':', start), FindChar(o, '@', start);
          MaskBack(o, i, colon, at);
        }
      }
    }
  }

  lemma MaskBack(o: string, i: nat, colon: nat, at: nat)
    requires i <= colon < at < |o| && o[colon + 1..at] == Mask() && o[at] == '@'
    ensures o[i..colon + 1] + Mask() + "@" == o[i..at + 1]
  {
    hide Mask;
    assert o[i..at + 1] == o[i..colon + 1] + o[colon + 1..at] + o[at..at + 1];
  }

  /** Redacting twice is redacting once, for every text; and no password that the scan
      would redact is left unmasked in its output. */
  lemma Idempotent(t: string)
    ensures Redact(Redact(t)) == Redact(t)
    ensures Clean(Redact(t), 0)
  {
    hide RedactFrom, Clean;
    var o := Redact(t);
    assert o[0..] == o;
    OutputClean(t, 0, o, 0);
    CleanFixed(o, 0);
  }
}
