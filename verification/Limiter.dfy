/** The sliding-window limiter: src/artek_buddy/auth.py, AttemptLimiter.  Times are reals:
    rounding is not the point. */
module Limiter {

  /** The stamps that lie less than a window before `now`. */
  function Recent(stamps: seq<real>, now: real, window: real): (r: seq<real>)
    ensures |r| <= |stamps|
  {
    if stamps == [] then []
    else
      var last := stamps[|stamps| - 1];
      Recent(stamps[..|stamps| - 1], now, window) + if now - last < window then [last] else []
  }

  function StampsOf(hits: map<string, seq<real>>, key: string): seq<real> {
    if key in hits then hits[key] else []
  }

  function Pruned(hits: map<string, seq<real>>, key: string, now: real, window: real): map<string, seq<real>> {
    var kept := Recent(StampsOf(hits, key), now, window);
    if kept == [] then hits - {key} else hits[key := kept]
  }

  class AttemptLimiter {
    const limit: nat
    const window: real
    var hits: map<string, seq<real>>

    constructor (limit: nat, window: real)
      ensures this.limit == limit && this.window == window && hits == map[]
    {
      this.limit, this.window, hits := limit, window, map[];
    }

    method Prune(key: string, now: real) returns (kept: seq<real>)
      modifies this
      ensures hits == Pruned(old(hits), key, now, window)
      ensures kept == Recent(StampsOf(old(hits), key), now, window)
    {
      var stamps := if key in hits then hits[key] else [];
      kept := [];
      for i := 0 to |stamps|
        invariant kept == Recent(stamps[..i], now, window)
      {
        assert stamps[..i + 1][..i] == stamps[..i];
        if now - stamps[i] < window { kept := kept + [stamps[i]]; }
      }
      assert stamps[..|stamps|] == stamps;
      if kept != [] { hits := hits[key := kept]; } else { hits := hits - {key}; }
    }

    method Allow(key: string, now: real) returns (ok: bool)
      modifies this
      ensures hits == Pruned(old(hits), key, now, window)
      ensures ok == (|Recent(StampsOf(old(hits), key), now, window)| < limit)
    {
      var kept := Prune(key, now);
      ok := |kept| < limit;
    }

    method Record(key: string, now: real)
      modifies this
      ensures hits == Recorded(old(hits), key, now, window)
    {
      var kept := Prune(key, now);
      kept := kept + [now];
      hits := hits[key := kept];
      assert hits == old(hits)[key := kept];
    }
  }

  function Recorded(hits: map<string, seq<real>>, key: string, now: real, window: real): map<string, seq<real>> {
    hits[key := Recent(StampsOf(hits, key), now, window) + [now]]
  }

  // ---------------------------------------------------------------------------
  // Every run

  /** Checks and records of a key, each at its time.  An allowing check gives a permit to
      record; a caller may also let its permit go. */
  datatype Step = Check(key: string, now: real) | Record(key: string, now: real) | LetGo(key: string, now: real)

  /** The limiter, every record ever made, the permits outstanding, and the time of the
      latest step. */
  datatype World = World(hits: map<string, seq<real>>, history: map<string, seq<real>>, permits: map<string, nat>, clock: real)

  function Start(clock: real): World {
    World(map[], map[], map[], clock)
  }

  function PermitsOf(w: World, key: string): nat {
    if key in w.permits then w.permits[key] else 0
  }

  predicate Allows(w: World, limit: nat, window: real, s: Step) {
    |Recent(StampsOf(w.hits, s.key), s.now, window)| < limit
  }

  function Next(w: World, limit: nat, window: real, s: Step): World {
    var p := PermitsOf(w, s.key);
    var fewer := w.permits[s.key := if p > 0 then p - 1 else 0];
    match s
    case Check(key, now) =>
      World(Pruned(w.hits, key, now, window), w.history,
            if Allows(w, limit, window, s) then w.permits[key := p + 1] else w.permits, now)
    case Record(key, now) =>
      World(Recorded(w.hits, key, now, window), w.history[key := StampsOf(w.history, key) + [now]], fewer, now)
    case LetGo(key, now) => World(w.hits, w.history, fewer, now)
  }

  /** Time does not run backwards. */
  predicate Runs(start: World, limit: nat, window: real, steps: seq<Step>, end: World)
    decreases |steps|
  {
    if steps == [] then start == end
    else start.clock <= steps[0].now && Runs(Next(start, limit, window, steps[0]), limit, window, steps[1..], end)
  }

  /** Records use permits, of which no key ever has more than c outstanding. */
  predicate Licensed(w: World, limit: nat, window: real, c: nat, s: Step) {
    match s
    case Check(key, _) => Allows(w, limit, window, s) ==> PermitsOf(w, key) < c
    case _ => PermitsOf(w, s.key) > 0
  }

  predicate AllLicensed(start: World, limit: nat, window: real, c: nat, steps: seq<Step>)
    decreases |steps|
  {
    steps != [] ==>
      && Licensed(start, limit, window, c, steps[0])
      && AllLicensed(Next(start, limit, window, steps[0]), limit, window, c, steps[1..])
  }

  predicate UpTo(stamps: seq<real>, time: real) {
    forall i :: 0 <= i < |stamps| ==> stamps[i] <= time
  }

  predicate Ordered(stamps: seq<real>) {
    forall i, j :: 0 <= i < j < |stamps| ==> stamps[i] <= stamps[j]
  }

  /** The records made at or before `time` and less than a window before it. */
  function Within(stamps: seq<real>, time: real, window: real): (r: seq<real>)
    ensures |r| <= |stamps|
  {
    if stamps == [] then []
    else
      var last := stamps[|stamps| - 1];
      Within(stamps[..|stamps| - 1], time, window) + if last <= time && time - last < window then [last] else []
  }

  /** The limiter remembers, of every key, all that can still matter. */
  ghost predicate Remembers(w: World, window: real) {
    forall key :: Remembered(StampsOf(w.hits, key), StampsOf(w.history, key), w.clock, window)
  }

  ghost predicate Remembered(stamps: seq<real>, history: seq<real>, clock: real, window: real) {
    && UpTo(history, clock) && Ordered(history)
    && forall now :: now >= clock ==> Recent(stamps, now, window) == Recent(history, now, window)
  }

  /** What is recorded and permitted stays within the bound, and so has every window. */
  ghost predicate Bounded(w: World, bound: nat, window: real) {
    forall key :: Keeps(StampsOf(w.history, key), PermitsOf(w, key), w.clock, bound, window)
  }

  ghost predicate Keeps(history: seq<real>, permits: nat, clock: real, bound: nat, window: real) {
    && |Recent(history, clock, window)| + permits <= bound
    && forall time :: |Within(history, time, window)| <= bound
  }

  lemma RecentAppend(stamps: seq<real>, x: real, now: real, window: real)
    ensures Recent(stamps + [x], now, window) == Recent(stamps, now, window) + if now - x < window then [x] else []
    ensures Within(stamps + [x], now, window) ==
            Within(stamps, now, window) + if x <= now && now - x < window then [x] else []
  {
    assert (stamps + [x])[..|stamps|] == stamps;
  }

  /** Pruning early loses nothing that pruning later would keep. */
  lemma {:induction false} RecentTwice(stamps: seq<real>, earlier: real, now: real, window: real)
    requires earlier <= now
    ensures Recent(Recent(stamps, earlier, window), now, window) == Recent(stamps, now, window)
  {
    if stamps != [] {
      var init, last := stamps[..|stamps| - 1], stamps[|stamps| - 1];
      RecentTwice(init, earlier, now, window);
      if earlier - last < window { RecentAppend(Recent(init, earlier, window), last, now, window); }
      else { assert Recent(init, earlier, window) + [] == Recent(init, earlier, window); }
    }
  }

  /** Of stamps not after `earlier`, a later window holds no more than the recent ones. */
  lemma {:induction false} WithinBound(stamps: seq<real>, earlier: real, time: real, window: real)
    requires UpTo(stamps, earlier) && earlier <= time
    ensures |Within(stamps, time, window)| <= |Recent(stamps, earlier, window)|
  {
    if stamps != [] { WithinBound(stamps[..|stamps| - 1], earlier, time, window); }
  }

  lemma {:induction false} RecentShrinks(stamps: seq<real>, earlier: real, now: real, window: real)
    requires earlier <= now
    ensures |Recent(stamps, now, window)| <= |Recent(stamps, earlier, window)|
  {
    if stamps != [] { RecentShrinks(stamps[..|stamps| - 1], earlier, now, window); }
  }

  lemma StepRemembers(w: World, limit: nat, window: real, s: Step)
    requires Remembers(w, window) && w.clock <= s.now
    ensures Remembers(Next(w, limit, window, s), window)
  {
    hide Recent, Remembered;
    var w' := Next(w, limit, window, s);
    forall key ensures Remembered(StampsOf(w'.hits, key), StampsOf(w'.history, key), w'.clock, window) {
      var stamps, history := StampsOf(w.hits, key), StampsOf(w.history, key);
      assert Remembered(stamps, history, w.clock, window);
      Later(stamps, history, w.clock, s.now, window);
      if key == s.key {
        if s.Check? { RememberPruned(stamps, history, s.now, window); }
        if s.Record? { RememberRecord(stamps, history, s.now, window); }
      }
    }
  }

  lemma Later(stamps: seq<real>, history: seq<real>, clock: real, now: real, window: real)
    requires Remembered(stamps, history, clock, window) && clock <= now
    ensures Remembered(stamps, history, now, window)
  {
    hide Recent;
  }

  lemma RememberPruned(stamps: seq<real>, history: seq<real>, now: real, window: real)
    requires Remembered(stamps, history, now, window)
    ensures Remembered(Recent(stamps, now, window), history, now, window)
  {
    hide Recent;
    forall t | t >= now ensures Recent(Recent(stamps, now, window), t, window) == Recent(history, t, window) {
      RecentTwice(stamps, now, t, window);
    }
  }

  lemma RememberRecord(stamps: seq<real>, history: seq<real>, now: real, window: real)
    requires Remembered(stamps, history, now, window)
    ensures Remembered(Recent(stamps, now, window) + [now], history + [now], now, window)
  {
    hide Recent;
    var kept := Recent(stamps, now, window);
    forall t | t >= now ensures Recent(kept + [now], t, window) == Recent(history + [now], t, window) {
      RecentTwice(stamps, now, t, window);
      RecentAppend(kept, now, t, window);
      RecentAppend(history, now, t, window);
    }
  }

  lemma StepBounded(w: World, limit: nat, window: real, c: nat, s: Step)
    requires c >= 1 && Remembers(w, window) && Bounded(w, limit + c - 1, window) && w.clock <= s.now
    requires Licensed(w, limit, window, c, s)
    ensures Bounded(Next(w, limit, window, s), limit + c - 1, window)
  {
    hide Recent, Within, Remembered, Keeps;
    var w', bound := Next(w, limit, window, s), limit + c - 1;
    forall key ensures Keeps(StampsOf(w'.history, key), PermitsOf(w', key), w'.clock, bound, window) {
      var stamps, history, p := StampsOf(w.hits, key), StampsOf(w.history, key), PermitsOf(w, key);
      assert Remembered(stamps, history, w.clock, window) && Keeps(history, p, w.clock, bound, window);
      KeepsLater(stamps, history, p, w.clock, s.now, bound, window);
      if key == s.key {
        if s.Record? { KeepsRecord(history, p, s.now, bound, window); }
        if s.Check? && Allows(w, limit, window, s) { KeepsPermit(history, p, s.now, bound, window); }
        if s.LetGo? { KeepsLess(history, p, s.now, bound, window); }
      }
    }
  }

  lemma KeepsLater(stamps: seq<real>, history: seq<real>, p: nat, clock: real, now: real, bound: nat, window: real)
    requires Remembered(stamps, history, clock, window) && Keeps(history, p, clock, bound, window) && clock <= now
    ensures Keeps(history, p, now, bound, window) && UpTo(history, now)
    ensures Recent(stamps, now, window) == Recent(history, now, window)
  {
    hide Recent, Within;
    RecentShrinks(history, clock, now, window);
  }

  lemma KeepsRecord(history: seq<real>, p: nat, now: real, bound: nat, window: real)
    requires Keeps(history, p, now, bound, window) && p > 0 && UpTo(history, now)
    ensures Keeps(history + [now], p - 1, now, bound, window)
  {
    hide Recent, Within;
    RecentAppend(history, now, now, window);
    forall time ensures |Within(history + [now], time, window)| <= bound {
      RecentAppend(history, now, time, window);
      if time >= now { WithinBound(history, now, time, window); }
    }
  }

  lemma KeepsPermit(history: seq<real>, p: nat, now: real, bound: nat, window: real)
    requires Keeps(history, p, now, bound, window) && |Recent(history, now, window)| + p + 1 <= bound
    ensures Keeps(history, p + 1, now, bound, window)
  {
    hide Recent, Within;
  }

  lemma KeepsLess(history: seq<real>, p: nat, now: real, bound: nat, window: real)
    requires Keeps(history, p, now, bound, window) && p > 0
    ensures Keeps(history, p - 1, now, bound, window)
  {
    hide Recent, Within;
  }

  lemma {:induction false} RunKeeps(start: World, limit: nat, window: real, c: nat, steps: seq<Step>, end: World)
    requires Remembers(start, window) && Runs(start, limit, window, steps, end)
    ensures Remembers(end, window)
    ensures c >= 1 && Bounded(start, limit + c - 1, window) && AllLicensed(start, limit, window, c, steps) ==>
              Bounded(end, limit + c - 1, window)
    decreases |steps|
  {
    hide Remembers, Bounded, Next, Licensed;
    if steps != [] {
      var next := Next(start, limit, window, steps[0]);
      StepRemembers(start, limit, window, steps[0]);
      if c >= 1 && Bounded(start, limit + c - 1, window) && AllLicensed(start, limit, window, c, steps) {
        StepBounded(start, limit, window, c, steps[0]);
      }
      RunKeeps(next, limit, window, c, steps[1..], end);
    }
  }

  lemma StartKeeps(clock: real, bound: nat, window: real)
    ensures Remembers(Start(clock), window) && Bounded(Start(clock), bound, window)
  {}

  /** The stamps from position k on are less than a window old, those before it are older. */
  predicate Divides(stamps: seq<real>, k: nat, now: real, window: real) {
    && k <= |stamps|
    && (forall i :: 0 <= i < k ==> now - stamps[i] >= window)
    && (forall i :: k <= i < |stamps| ==> now - stamps[i] < window)
  }

  /** Of stamps in order, the recent ones are those from some position on. */
  lemma {:induction false} RecentIs(stamps: seq<real>, now: real, window: real) returns (k: nat)
    requires Ordered(stamps)
    ensures Divides(stamps, k, now, window) && Recent(stamps, now, window) == stamps[k..]
  {
    hide Recent, Divides;
    var n := |stamps|;
    if stamps == [] || now - stamps[n - 1] >= window {
      k := n;
      assert forall i :: 0 <= i < n ==> stamps[i] <= stamps[n - 1];
      NoneRecent(stamps, now, window);
    } else {
      k := RecentIs(stamps[..n - 1], now, window);
      RecentLast(stamps, k, now, window);
    }
  }

  lemma RecentLast(stamps: seq<real>, k: nat, now: real, window: real)
    requires stamps != [] && now - stamps[|stamps| - 1] < window
    requires var init := stamps[..|stamps| - 1];
             Divides(init, k, now, window) && Recent(init, now, window) == init[k..]
    ensures Divides(stamps, k, now, window) && Recent(stamps, now, window) == stamps[k..]
  {
    var n := |stamps| - 1;
    assert stamps[k..] == stamps[..n][k..] + [stamps[n]];
    assert forall i :: 0 <= i < n ==> stamps[i] == stamps[..n][i];
  }

  lemma {:induction false} NoneRecent(stamps: seq<real>, now: real, window: real)
    requires forall i :: 0 <= i < |stamps| ==> now - stamps[i] >= window
    ensures Recent(stamps, now, window) == [] == stamps[|stamps|..] && Divides(stamps, |stamps|, now, window)
  {
    if stamps != [] { NoneRecent(stamps[..|stamps| - 1], now, window); }
  }

  /** In every run, however checks and records mix, a check counts exactly the records made
      less than a window before it: pruning forgets none of them. */
  lemma NothingForgotten(clock: real, limit: nat, window: real, steps: seq<Step>, end: World, key: string, now: real)
    returns (k: nat)
    requires Runs(Start(clock), limit, window, steps, end) && end.clock <= now
    ensures var history := StampsOf(end.history, key);
            Divides(history, k, now, window) && Recent(StampsOf(end.hits, key), now, window) == history[k..]
  {
    hide Recent;
    StartKeeps(clock, 0, window);
    RunKeeps(Start(clock), limit, window, 0, steps, end);
    assert Remembered(StampsOf(end.hits, key), StampsOf(end.history, key), end.clock, window);
    k := RecentIs(StampsOf(end.history, key), now, window);
  }

  /** The records from position i on that are less than a window before the one at j. */
  lemma {:induction false} WithinCounts(stamps: seq<real>, i: nat, j: nat, window: real)
    requires Ordered(stamps) && i <= j < |stamps| && stamps[j] - stamps[i] < window
    ensures |Within(stamps, stamps[j], window)| >= j - i + 1
  {
    WithinFrom(stamps, i, j + 1, stamps[j], window);
    WithinGrows(stamps, j + 1, stamps[j], window);
  }

  lemma {:induction false} WithinFrom(stamps: seq<real>, i: nat, n: nat, time: real, window: real)
    requires i <= n <= |stamps| && forall k :: i <= k < n ==> stamps[k] <= time && time - stamps[k] < window
    ensures |Within(stamps[..n], time, window)| >= n - i
    decreases n - i
  {
    if i < n {
      WithinFrom(stamps, i, n - 1, time, window);
      assert stamps[..n][..n - 1] == stamps[..n - 1];
    }
  }

  lemma {:induction false} WithinGrows(stamps: seq<real>, n: nat, time: real, window: real)
    requires n <= |stamps|
    ensures |Within(stamps[..n], time, window)| <= |Within(stamps, time, window)|
    decreases |stamps|
  {
    if n < |stamps| {
      WithinGrows(stamps[..|stamps| - 1], n, time, window);
      assert stamps[..|stamps| - 1][..n] == stamps[..n];
    } else {
      assert stamps[..n] == stamps;
    }
  }

  /** If every record uses a permit and no key has more than c outstanding, no more than
      limit + c - 1 records of a key ever lie within less than a window; for c = 1, where each
      record directly follows its check, no more than the limit. */
  lemma EveryRun(clock: real, limit: nat, window: real, c: nat, steps: seq<Step>, end: World, key: string, i: nat, j: nat)
    requires c >= 1 && Runs(Start(clock), limit, window, steps, end)
    requires AllLicensed(Start(clock), limit, window, c, steps)
    ensures var history := StampsOf(end.history, key);
            i <= j < |history| && history[j] - history[i] < window ==> j - i + 1 <= limit + c - 1
  {
    hide Recent, Within;
    StartKeeps(clock, limit + c - 1, window);
    RunKeeps(Start(clock), limit, window, c, steps, end);
    var history := StampsOf(end.history, key);
    assert Remembered(StampsOf(end.hits, key), history, end.clock, window);
    assert Keeps(history, PermitsOf(end, key), end.clock, limit + c - 1, window);
    if i <= j < |history| && history[j] - history[i] < window { WithinCounts(history, i, j, window); }
  }

  // ---------------------------------------------------------------------------
  // The bound is sharp

  /** The state with m records of the key, all at time 0, and p permits. */
  ghost predicate Holds(w: World, key: string, m: nat, p: nat) {
    && w.clock == 0.0 && PermitsOf(w, key) == p
    && StampsOf(w.hits, key) == StampsOf(w.history, key) == seq(m, i => 0.0)
  }

  lemma {:induction false} AllRecent(m: nat, window: real)
    requires window > 0.0
    ensures Recent(seq(m, i => 0.0), 0.0, window) == seq(m, i => 0.0)
  {
    if m > 0 {
      AllRecent(m - 1, window);
      assert seq(m, i => 0.0)[..m - 1] == seq(m - 1, i => 0.0);
      assert seq(m - 1, i => 0.0) + [0.0] == seq(m, i => 0.0);
    }
  }

  lemma CheckHolds(w: World, limit: nat, window: real, key: string, m: nat, p: nat)
    requires Holds(w, key, m, p) && window > 0.0 && m < limit
    ensures Holds(Next(w, limit, window, Check(key, 0.0)), key, m, p + 1)
    ensures Allows(w, limit, window, Check(key, 0.0))
  {
    AllRecent(m, window);
  }

  lemma RecordHolds(w: World, limit: nat, window: real, key: string, m: nat, p: nat)
    requires Holds(w, key, m, p) && window > 0.0 && p > 0
    ensures Holds(Next(w, limit, window, Record(key, 0.0)), key, m + 1, p - 1)
  {
    AllRecent(m, window);
    assert seq(m, i => 0.0) + [0.0] == seq(m + 1, i => 0.0);
  }

  /** A licensed run, and its end. */
  ghost predicate Reaches(w: World, limit: nat, window: real, c: nat, steps: seq<Step>, end: World) {
    Runs(w, limit, window, steps, end) && AllLicensed(w, limit, window, c, steps)
  }

  lemma {:induction false} Then(w: World, limit: nat, window: real, c: nat, p: seq<Step>, mid: World, q: seq<Step>, end: World)
    requires Reaches(w, limit, window, c, p, mid) && Reaches(mid, limit, window, c, q, end)
    ensures Reaches(w, limit, window, c, p + q, end)
    decreases |p|
  {
    hide Next, Licensed;
    if p == [] {
      assert p + q == q;
    } else {
      assert (p + q)[0] == p[0] && (p + q)[1..] == p[1..] + q;
      Then(Next(w, limit, window, p[0]), limit, window, c, p[1..], mid, q, end);
    }
  }

  lemma One(w: World, limit: nat, window: real, c: nat, s: Step)
    requires w.clock <= s.now && Licensed(w, limit, window, c, s)
    ensures Reaches(w, limit, window, c, [s], Next(w, limit, window, s))
  {
    assert AllLicensed(Next(w, limit, window, s), limit, window, c, []);
    assert Runs(Next(w, limit, window, s), limit, window, [], Next(w, limit, window, s));
    assert [s][1..] == [];
  }

  lemma {:induction false} ChecksHold(w: World, limit: nat, window: real, c: nat, key: string, m: nat, n: nat)
    returns (steps: seq<Step>, end: World)
    requires Holds(w, key, m, 0) && window > 0.0 && m < limit && n <= c
    ensures Reaches(w, limit, window, c, steps, end) && Holds(end, key, m, n)
  {
    hide Next, Allows, Reaches;
    if n == 0 {
      steps, end := [], w;
      Nothing(w, limit, window, c);
    } else {
      var mid: World;
      steps, mid := ChecksHold(w, limit, window, c, key, m, n - 1);
      CheckHolds(mid, limit, window, key, m, n - 1);
      One(mid, limit, window, c, Check(key, 0.0));
      end := Next(mid, limit, window, Check(key, 0.0));
      Then(w, limit, window, c, steps, mid, [Check(key, 0.0)], end);
      steps := steps + [Check(key, 0.0)];
    }
  }

  lemma Nothing(w: World, limit: nat, window: real, c: nat)
    ensures Reaches(w, limit, window, c, [], w)
  {}

  lemma {:induction false} RecordsHold(w: World, limit: nat, window: real, c: nat, key: string, m: nat, p: nat)
    returns (steps: seq<Step>, end: World)
    requires Holds(w, key, m, p) && window > 0.0
    ensures Reaches(w, limit, window, c, steps, end) && Holds(end, key, m + p, 0)
    decreases p
  {
    hide Next, Reaches;
    if p == 0 {
      steps, end := [], w;
      Nothing(w, limit, window, c);
    } else {
      var next := Next(w, limit, window, Record(key, 0.0));
      RecordHolds(w, limit, window, key, m, p);
      One(w, limit, window, c, Record(key, 0.0));
      steps, end := RecordsHold(next, limit, window, c, key, m + 1, p - 1);
      Then(w, limit, window, c, [Record(key, 0.0)], next, steps, end);
      steps := [Record(key, 0.0)] + steps;
    }
  }

  lemma {:induction false} FillsUp(w: World, limit: nat, window: real, c: nat, key: string, m: nat)
    returns (steps: seq<Step>, end: World)
    requires m < limit && c >= 1 && window > 0.0 && Holds(w, key, m, 0)
    ensures Reaches(w, limit, window, c, steps, end) && Holds(end, key, limit + c - 1, 0)
    decreases limit - m
  {
    hide Holds, Reaches;
    var n := if m == limit - 1 then c else 1;
    var checks, checked := ChecksHold(w, limit, window, c, key, m, n);
    var records, recorded := RecordsHold(checked, limit, window, c, key, m, n);
    Then(w, limit, window, c, checks, checked, records, recorded);
    steps, end := checks + records, recorded;
    if m < limit - 1 {
      var more: seq<Step>;
      more, end := FillsUp(recorded, limit, window, c, key, m + 1);
      Then(w, limit, window, c, steps, recorded, more, end);
      steps := steps + more;
    }
  }

  /** The bound is reached, for every limit and c: by limit - 1 checks each with its record,
      then c checks before c records. */
  lemma Sharp(limit: nat, window: real, c: nat, key: string) returns (steps: seq<Step>, end: World)
    requires limit >= 1 && c >= 1 && window > 0.0
    ensures Reaches(Start(0.0), limit, window, c, steps, end)
    ensures StampsOf(end.history, key) == seq(limit + c - 1, i => 0.0)
  {
    assert Holds(Start(0.0), key, 0, 0);
    steps, end := FillsUp(Start(0.0), limit, window, c, key, 0);
  }
}
