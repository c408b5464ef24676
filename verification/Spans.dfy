/** Choosing and masking credential spans: src/artek_buddy/bot_credentials.py,
    find_chat_credentials and redact_found, for any candidate matches. */
module Spans {

  /** A match, and the mask its secret gets. */
  datatype Span = Span(start: nat, end: nat, mask: string)

  predicate Overlap(a: Span, b: Span) {
    a.start < b.end && a.end > b.start
  }

  predicate Hits(s: Span, covered: seq<Span>) {
    exists i :: 0 <= i < |covered| && Overlap(s, covered[i])
  }

  /** Keeping, in order, each candidate that overlaps none kept before. */
  function Accepted(candidates: seq<Span>): seq<Span> {
    if candidates == [] then []
    else
      var last, found := candidates[|candidates| - 1], Accepted(candidates[..|candidates| - 1]);
      if Hits(last, found) then found else found + [last]
  }

  method FindChatCredentials(candidates: seq<Span>) returns (found: seq<Span>)
    ensures found == Accepted(candidates)
  {
    found := [];
    for k := 0 to |candidates|
      invariant found == Accepted(candidates[..k])
    {
      assert candidates[..k + 1][..k] == candidates[..k];
      var overlaps := false;
      for i := 0 to |found|
        invariant overlaps <==> exists j :: 0 <= j < i && Overlap(candidates[k], found[j])
      {
        if Overlap(candidates[k], found[i]) { overlaps := true; }
      }
      if !overlaps { found := found + [candidates[k]]; }
    }
    assert candidates[..|candidates|] == candidates;
  }

  predicate Disjoint(spans: seq<Span>) {
    forall i, j :: 0 <= i < j < |spans| ==> !Overlap(spans[j], spans[i])
  }

  /** The accepted spans are pairwise disjoint, each is a candidate, and every candidate is
      accepted or overlaps one that is. */
  lemma {:induction false} AcceptedIsMaximal(candidates: seq<Span>)
    ensures Disjoint(Accepted(candidates))
    ensures forall s :: s in Accepted(candidates) ==> s in candidates
    ensures forall s :: s in candidates ==> s in Accepted(candidates) || Hits(s, Accepted(candidates))
  {
    if candidates != [] {
      var init, last := candidates[..|candidates| - 1], candidates[|candidates| - 1];
      AcceptedIsMaximal(init);
      var before, after := Accepted(init), Accepted(candidates);
      forall s | s in candidates ensures s in after || Hits(s, after) {
        if s in init && s !in before {
          var i :| 0 <= i < |before| && Overlap(s, before[i]);
          assert after[i] == before[i];
        }
      }
    }
  }

  /** The flagged candidates, in order. */
  function Flagged(candidates: seq<Span>, flags: seq<bool>): seq<Span>
    requires |flags| == |candidates|
  {
    if candidates == [] then []
    else
      var n := |candidates| - 1;
      Flagged(candidates[..n], flags[..n]) + if flags[n] then [candidates[n]] else []
  }

  /** The candidate at position i overlaps no earlier one that is flagged. */
  predicate Free(candidates: seq<Span>, flags: seq<bool>, i: nat)
    requires i < |candidates| && |flags| == |candidates|
  {
    forall j :: 0 <= j < i && flags[j] ==> !Overlap(candidates[i], candidates[j])
  }

  lemma {:induction false} FlaggedHits(s: Span, candidates: seq<Span>, flags: seq<bool>)
    requires |flags| == |candidates|
    ensures Hits(s, Flagged(candidates, flags)) <==>
            exists j :: 0 <= j < |candidates| && flags[j] && Overlap(s, candidates[j])
  {
    hide Overlap;
    if candidates != [] {
      var n := |candidates| - 1;
      var found := Flagged(candidates[..n], flags[..n]);
      FlaggedHits(s, candidates[..n], flags[..n]);
      HitsMore(s, found, candidates[n]);
      assert forall j :: 0 <= j < n ==> candidates[..n][j] == candidates[j] && flags[..n][j] == flags[j];
    }
  }

  lemma HitsMore(s: Span, found: seq<Span>, last: Span)
    ensures Hits(s, found + [last]) <==> Hits(s, found) || Overlap(s, last)
    ensures Hits(s, found + []) <==> Hits(s, found)
  {
    hide Overlap;
    var all := found + [last];
    assert all[|found|] == last && forall i :: 0 <= i < |found| ==> all[i] == found[i];
    assert found + [] == found;
  }

  /** Of overlapping candidates the earlier one wins: exactly those are accepted, in order,
      that overlap no earlier accepted one. */
  lemma {:induction false} EarlierWins(candidates: seq<Span>) returns (flags: seq<bool>)
    ensures |flags| == |candidates| && Accepted(candidates) == Flagged(candidates, flags)
    ensures forall i :: 0 <= i < |candidates| ==> (flags[i] <==> Free(candidates, flags, i))
  {
    hide Overlap, Hits;
    if candidates == [] {
      flags := [];
    } else {
      var n := |candidates| - 1;
      var before := EarlierWins(candidates[..n]);
      flags := before + [!Hits(candidates[n], Accepted(candidates[..n]))];
      assert flags[..n] == before;
      FlaggedHits(candidates[n], candidates[..n], before);
      assert Accepted(candidates[..n]) + [] == Accepted(candidates[..n]);
      forall i | 0 <= i < n ensures flags[i] <==> Free(candidates, flags, i) {
        assert flags[i] == before[i] && (before[i] <==> Free(candidates[..n], before, i));
      }
    }
  }

  // ---------------------------------------------------------------------------
  // Masking

  predicate Within(s: Span, text: string) {
    s.start < s.end <= |text|
  }

  /** In order of start, apart, and inside the text from position `from` on. */
  predicate Ascending(spans: seq<Span>, from: nat, text: string) {
    if spans == [] then from <= |text|
    else from <= spans[0].start && Within(spans[0], text) && Ascending(spans[1..], spans[0].end, text)
  }

  /** All spans replaced at once; the text between them is kept in order. */
  function Replaced(text: string, from: nat, spans: seq<Span>): string
    requires Ascending(spans, from, text)
    decreases |spans|
  {
    if spans == [] then text[from..]
    else text[from..spans[0].start] + spans[0].mask + Replaced(text, spans[0].end, spans[1..])
  }

  function Cut(out: string, s: Span): string
    requires s.start <= s.end <= |out|
  {
    out[..s.start] + s.mask + out[s.end..]
  }

  /** sorted(found, key=start): inserting before the first span that starts later. */
  function Insert(s: Span, spans: seq<Span>): seq<Span> {
    if spans == [] || s.start < spans[0].start then [s] + spans else [spans[0]] + Insert(s, spans[1..])
  }

  function Sorted(found: seq<Span>): seq<Span> {
    if found == [] then [] else Insert(found[|found| - 1], Sorted(found[..|found| - 1]))
  }

  lemma {:induction false} InsertAscends(s: Span, spans: seq<Span>, from: nat, text: string)
    requires Ascending(spans, from, text) && Within(s, text) && from <= s.start && !Hits(s, spans)
    ensures Ascending(Insert(s, spans), from, text)
    ensures forall x :: x in Insert(s, spans) <==> x == s || x in spans
    decreases |spans|
  {
    if spans != [] {
      assert !Overlap(s, spans[0]);
      if s.start >= spans[0].start {
        forall i | 0 <= i < |spans| - 1 ensures !Overlap(s, spans[1..][i]) { assert spans[1..][i] == spans[i + 1]; }
        InsertAscends(s, spans[1..], spans[0].end, text);
        assert Insert(s, spans)[1..] == Insert(s, spans[1..]);
      } else {
        assert Insert(s, spans)[1..] == spans;
      }
    } else {
      assert Insert(s, spans)[1..] == [];
    }
  }

  lemma {:induction false} SortedAscends(found: seq<Span>, text: string)
    requires Disjoint(found) && forall s :: s in found ==> Within(s, text)
    ensures Ascending(Sorted(found), 0, text)
    ensures forall x :: x in Sorted(found) <==> x in found
  {
    if found != [] {
      var init, last := found[..|found| - 1], found[|found| - 1];
      SortedAscends(init, text);
      var sorted := Sorted(init);
      forall i | 0 <= i < |sorted| ensures !Overlap(last, sorted[i]) {
        assert sorted[i] in init;
        var j :| 0 <= j < |init| && init[j] == sorted[i];
        assert found[j] == init[j];
      }
      assert last in found;
      InsertAscends(last, sorted, 0, text);
    }
  }

  /** The masking loop of redact_found: from the last span to the first, each splice works
      on the text as already changed behind it. */
  method RedactFound(text: string, found: seq<Span>) returns (out: string)
    requires Disjoint(found) && forall s :: s in found ==> Within(s, text)
    ensures Ascending(Sorted(found), 0, text) && out == Replaced(text, 0, Sorted(found))
  {
    hide Sorted;
    SortedAscends(found, text);
    var spans := Sorted(found);
    out := text;
    var n := |spans|;
    Tails(spans, 0, text, n);
    assert spans[n..] == [] && text[0..] == text;
    while n > 0
      invariant 0 <= n <= |spans|
      invariant Ascending(spans[n..], EndBefore(spans, n), text)
      invariant out == text[..EndBefore(spans, n)] + Replaced(text, EndBefore(spans, n), spans[n..])
    {
      n := n - 1;
      Tails(spans, 0, text, n);
      var s := spans[n];
      ghost var e, behind := EndBefore(spans, n), Replaced(text, s.end, spans[n + 1..]);
      assert spans[n..][1..] == spans[n + 1..];
      assert out[..s.start] == text[..s.start] && out[s.end..] == behind;
      out := Cut(out, s);
      assert text[..s.start] == text[..e] + text[e..s.start];
      assert out == text[..e] + (text[e..s.start] + s.mask + behind);
    }
    assert spans[0..] == spans && text[..0] == "";
  }

  function EndBefore(spans: seq<Span>, n: nat): nat
    requires n <= |spans|
  {
    if n == 0 then 0 else spans[n - 1].end
  }

  lemma {:induction false} Tails(spans: seq<Span>, from: nat, text: string, n: nat)
    requires Ascending(spans, from, text) && n <= |spans|
    ensures Ascending(spans[n..], if n == 0 then from else spans[n - 1].end, text)
    decreases n
  {
    if n == 0 {
      assert spans[0..] == spans;
    } else {
      Tails(spans[1..], spans[0].end, text, n - 1);
      assert spans[1..][n - 1..] == spans[n..];
      if n > 1 { assert spans[1..][n - 2] == spans[n - 1]; }
    }
  }

  // ---------------------------------------------------------------------------
  // Masking is writing masks for secrets

  /** Gaps and fillings, alternately; there is one more gap. */
  function Weave(gaps: seq<string>, fillings: seq<string>): string
    requires |gaps| == |fillings| + 1
  {
    if fillings == [] then gaps[0] else gaps[0] + fillings[0] + Weave(gaps[1..], fillings[1..])
  }

  function Secret(text: string, s: Span): string {
    if s.start <= s.end <= |text| then text[s.start..s.end] else ""
  }

  function Secrets(text: string, spans: seq<Span>): seq<string> {
    seq(|spans|, k requires 0 <= k < |spans| => Secret(text, spans[k]))
  }

  function Masks(spans: seq<Span>): seq<string> {
    seq(|spans|, k requires 0 <= k < |spans| => spans[k].mask)
  }

  /** The text is some gaps woven with the secrets, and what replacing gives is the same gaps
      woven with the masks. */
  lemma {:induction false} ReplacedIsWoven(text: string, from: nat, spans: seq<Span>) returns (gaps: seq<string>)
    requires Ascending(spans, from, text)
    ensures |gaps| == |spans| + 1
    ensures text[from..] == Weave(gaps, Secrets(text, spans))
    ensures Replaced(text, from, spans) == Weave(gaps, Masks(spans))
    decreases spans
  {
    if spans == [] {
      gaps := [text[from..]];
    } else {
      var s := spans[0];
      var rest := ReplacedIsWoven(text, s.end, spans[1..]);
      gaps := [text[from..s.start]] + rest;
      assert gaps[1..] == rest;
      assert Secrets(text, spans)[1..] == Secrets(text, spans[1..]);
      assert Masks(spans)[1..] == Masks(spans[1..]);
      assert text[from..] == text[from..s.start] + text[s.start..s.end] + text[s.end..];
    }
  }
}
