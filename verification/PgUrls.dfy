/** Redaction of postgres URLs: src/artek_buddy/observe.py, _redact_postgres_urls. */
module PgUrls {
  import opened Text

  /** The schemes, in the order the scan tries them. */
  function Scheme(k: nat): string {
    if k == 0 then "postgresql://" else "postgres://"
  }

  function Mask(): (m: string)
    ensures |m| == 10
  {
    "[redacted]"
  }

  predicate At(t: string, s: string, p: nat) {
    p + |s| <= |t| && t[p..p + |s|] == s
  }

  /** The length of the scheme that stands at p, or 0. */
  function SchemeAt(t: string, p: nat): (n: nat)
    ensures n > 0 ==> p + n <= |t| && n >= 11
  {
    if At(t, Scheme(0), p) then 13 else if At(t, Scheme(1), p) then 11 else 0
  }

  /** Python's str.find: the first position at or after `from`, or -1. */
  function Find(t: string, s: string, from: nat): (p: int)
    ensures p == -1 || (from <= p && At(t, s, p))
    ensures forall q: nat :: from <= q && (p == -1 || q < p) ==> !At(t, s, q)
    decreases |t| - from
  {
    if from + |s| > |t| then -1
    else if At(t, s, from) then from
    else Find(t, s, from + 1)
  }

  /** str.find for one character. */
  function FindChar(t: string, c: char, from: nat): (p: int)
    ensures p == -1 || (from <= p < |t| && t[p] == c)
    ensures forall q :: from <= q < |t| && (p == -1 || q < p) ==> t[q] != c
    decreases |t| - from
  {
    if from >= |t| then -1 else if t[from] == c then from else FindChar(t, c, from + 1)
  }

  predicate SpaceIn(t: string, a: nat, b: nat)
    requires b <= |t|
  {
    exists q :: a <= q < b && IsSpace(t[q])
  }

  /** What follows a scheme that ends at `start` is user:password@, with a user and a
      password to redact. */
  predicate Redacts(t: string, start: nat) {
    var colon, at := FindChar(t, ':', start), FindChar(t, '@', start);
    && start < colon && colon + 1 < at
    && (forall q :: start <= q < colon ==> t[q] != '/')
    && !SpaceIn(t, colon + 1, at)
  }

  /** The first scheme at or after position p, or the end of the text. */
  function FirstScheme(t: string, p: nat): (hit: nat)
    requires p <= |t|
    ensures p <= hit <= |t| && (hit < |t| ==> SchemeAt(t, hit) > 0)
    ensures forall q: nat :: p <= q < hit ==> SchemeAt(t, q) == 0
    decreases |t| - p
  {
    if p == |t| || SchemeAt(t, p) > 0 then p else FirstScheme(t, p + 1)
  }

  /** What one turn of the scan puts out, and where it goes on. */
  datatype Turn = Turn(text: string, next: nat)

  function TurnAt(t: string, i: nat): (k: Turn)
    requires i < |t|
    ensures i < k.next <= |t|
  {
    var hit := FirstScheme(t, i);
    if hit == |t| then Turn(t[i..], |t|)
    else
      var start := hit + SchemeAt(t, hit);
      if Redacts(t, start) then
        Turn(t[i..FindChar(t, ':', start) + 1] + Mask() + "@", FindChar(t, '@', start) + 1)
      else Turn(t[i..start], start)
  }

  /** The text from position i on, redacted. */
  function RedactFrom(t: string, i: nat): string
    requires i <= |t|
    decreases |t| - i
  {
    if i == |t| then ""
    else
      var k := TurnAt(t, i);
      k.text + RedactFrom(t, k.next)
  }

  function Redact(t: string): string {
    RedactFrom(t, 0)
  }

  method RedactPostgresUrls(text: string) returns (out: string)
    ensures out == Redact(text)
  {
    hide Mask, RedactFrom, Redact, Redacts, FirstScheme, SchemeAt, At, SpaceIn, TurnAt;
    out := "";
    var i, n := 0, |text|;
    RedactEnds(text);
    while i < n
      invariant 0 <= i <= n && out + RedactFrom(text, i) == Redact(text)
      decreases n - i
    {
      var hit, scheme := FindScheme(text, i);
      RedactTurn(text, i, out);
      TurnText(text, i, scheme);
      ghost var out0 := out;
      if hit < 0 {
        out := out + text[i..];
        assert out + "" == out;
        return;
      }
      out := out + text[i..hit];
      var userStart := hit + |scheme|;
      var colon := FindChar(text, ':', userStart);
      var at := FindChar(text, '@', userStart);
      var user := if 0 <= colon < at then text[userStart..colon] else "";
      var password := if colon >= 0 && at > colon then text[colon + 1..at] else "";
      Decide(text, userStart);
      if colon < 0 || at < 0 || colon >= at || user == "" || '/' in user || password == ""
         || SpaceIn(password, 0, |password|) {
        out := out + scheme;
        Regroup(out0, text[i..hit], scheme, "");
        i := userStart;
        continue;
      }
      out := out + text[hit..colon + 1];
      out := out + Mask();
      out := out + "@";
      Regroup(out0, text[i..hit], text[hit..colon + 1], Mask());
      i := at + 1;
    }
    assert out + "" == out;
  }

  lemma Regroup(out: string, a: string, b: string, m: string)
    ensures out + (a + b + m + "@") == out + a + b + m + "@"
    ensures out + (a + b) == out + a + b
  {}

  lemma RedactTurn(t: string, i: nat, out: string)
    requires i < |t|
    ensures out + RedactFrom(t, i) == out + TurnAt(t, i).text + RedactFrom(t, TurnAt(t, i).next)
  {
    hide TurnAt;
    var k := TurnAt(t, i);
    assert out + (k.text + RedactFrom(t, k.next)) == out + k.text + RedactFrom(t, k.next);
  }

  lemma AtText(t: string, s: string, p: nat)
    ensures At(t, s, p) ==> p + |s| <= |t| && s == t[p..p + |s|]
  {}

  lemma RedactsOrder(t: string, start: nat)
    requires Redacts(t, start)
    ensures start < FindChar(t, ':', start) && FindChar(t, ':', start) + 1 < FindChar(t, '@', start) < |t|
  {}

  lemma TurnIs(t: string, i: nat)
    requires i < |t|
    ensures var hit, k := FirstScheme(t, i), TurnAt(t, i);
            if hit == |t| then k == Turn(t[i..], |t|)
            else
              var start := hit + SchemeAt(t, hit);
              if Redacts(t, start) then
                var colon, at := FindChar(t, ':', start), FindChar(t, '@', start);
                start < colon && colon + 1 < at < |t| && k == Turn(t[i..colon + 1] + Mask() + "@", at + 1)
              else k == Turn(t[i..start], start)
  {
    hide Mask, FirstScheme, SchemeAt, Redacts, FindChar;
    var hit := FirstScheme(t, i);
    if hit < |t| && Redacts(t, hit + SchemeAt(t, hit)) { RedactsOrder(t, hit + SchemeAt(t, hit)); }
  }

  /** The pieces the loop appends make up the turn. */
  lemma TurnText(t: string, i: nat, scheme: string)
    requires i < |t|
    ensures var hit, k := FirstScheme(t, i), TurnAt(t, i);
            if hit == |t| then k == Turn(t[i..], |t|)
            else
              var start := hit + SchemeAt(t, hit);
              if Redacts(t, start) then
                var colon, at := FindChar(t, ':', start), FindChar(t, '@', start);
                start < colon < at && k == Turn(t[i..hit] + t[hit..colon + 1] + Mask() + "@", at + 1)
              else At(t, scheme, hit) && |scheme| == SchemeAt(t, hit) ==> k == Turn(t[i..hit] + scheme, start)
  {
    hide Mask, FirstScheme, Redacts, FindChar, TurnAt, SchemeAt, At;
    TurnIs(t, i);
    AtText(t, scheme, FirstScheme(t, i));
    var hit := FirstScheme(t, i);
    if hit < |t| {
      var start := hit + SchemeAt(t, hit);
      if Redacts(t, start) {
        Slice(t, i, hit, FindChar(t, ':', start) + 1);
      } else {
        Slice(t, i, hit, start);
      }
    }
  }

  lemma Slice(t: string, i: nat, j: nat, k: nat)
    requires i <= j <= k <= |t|
    ensures t[i..k] == t[i..j] + t[j..k]
  {}

  lemma RedactEnds(t: string)
    ensures RedactFrom(t, |t|) == "" && "" + RedactFrom(t, 0) == Redact(t)
  {}

  /** The loop's test of user and password is Redacts. */
  lemma Decide(t: string, start: nat)
    requires start <= |t|
    ensures var colon, at := FindChar(t, ':', start), FindChar(t, '@', start);
            var user := if 0 <= colon < at then t[start..colon] else "";
            var password := if colon >= 0 && at > colon then t[colon + 1..at] else "";
            Redacts(t, start) <==>
            !(colon < 0 || at < 0 || colon >= at || user == "" || '/' in user || password == ""
              || SpaceIn(password, 0, |password|))
  {
    var colon, at := FindChar(t, ':', start), FindChar(t, '@', start);
    if 0 <= colon < at {
      var user, password := t[start..colon], t[colon + 1..at];
      assert forall q :: start <= q < colon ==> t[q] == user[q - start];
      if SpaceIn(t, colon + 1, at) {
        var q :| colon + 1 <= q < at && IsSpace(t[q]);
        assert password[q - colon - 1] == t[q];
      }
    }
  }

  /** The earliest scheme from i on; the longer one, should two start together. */
  method FindScheme(text: string, i: nat) returns (hit: int, scheme: string)
    requires i <= |text|
    ensures hit == (if FirstScheme(text, i) == |text| then -1 else FirstScheme(text, i))
    ensures hit >= 0 ==> At(text, scheme, hit) && |scheme| == SchemeAt(text, hit)
  {
    hide Find, FirstScheme, At;
    hit, scheme := -1, "";
    for k := 0 to 2
      invariant hit < 0 ==> scheme == "" && forall j, q: nat :: 0 <= j < k && q >= i ==> !At(text, Scheme(j), q)
      invariant hit >= 0 ==> hit >= i && At(text, scheme, hit) && exists j :: 0 <= j < k && scheme == Scheme(j)
      invariant hit >= 0 ==> forall j, q: nat :: 0 <= j < k && i <= q < hit ==> !At(text, Scheme(j), q)
    {
      var candidate := Scheme(k);
      var found := Find(text, candidate, i);
      if found < 0 { continue; }
      var longer := found == hit && |candidate| > |scheme|;
      if hit < 0 || found < hit || longer {
        hit, scheme := found, candidate;
      }
    }
    var first := FirstScheme(text, i);
    if hit >= 0 {
      assert scheme == Scheme(0) || scheme == Scheme(1);
      OneScheme(text, hit);
      assert SchemeAt(text, hit) > 0;
      assert forall q: nat :: i <= q < hit ==> !At(text, Scheme(0), q) && !At(text, Scheme(1), q);
    } else {
      assert forall q: nat :: i <= q ==> !At(text, Scheme(0), q) && !At(text, Scheme(1), q);
    }
  }

  lemma SchemeSize()
    ensures |Scheme(0)| == 13 && |Scheme(1)| == 11
  {}

  lemma OneScheme(t: string, p: nat)
    ensures !(At(t, Scheme(0), p) && At(t, Scheme(1), p))
  {
    if At(t, Scheme(0), p) { assert t[p + 8] == t[p..p + 13][8] == 'q'; }
    if At(t, Scheme(1), p) { assert t[p + 8] == t[p..p + 11][8] == ':'; }
  }
}
