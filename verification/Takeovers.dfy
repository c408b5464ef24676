/** Takeover waits of ConsentHub: src/artek_buddy/consent.py.  Each locked section is one
    atomic step; a wait may reach its last section, by timeout or wake-up, at any time. */
module Takeovers {
  import opened Wrappers

  datatype Outcome = Released | Cancelled | TimedOut

  /** The hub's three tables: waiting runs per bot, decided results, and bots released
      while nobody was waiting. */
  datatype Tables = Tables(waiters: map<string, set<string>>, results: map<string, Outcome>, released: set<string>) {
    function WaitersOf(bot: string): set<string> {
      if bot in waiters then waiters[bot] else {}
    }
  }

  function SetWaiters(t: Tables, bot: string, runs: set<string>): Tables {
    t.(waiters := if runs == {} then t.waiters - {bot} else t.waiters[bot := runs])
  }

  /** The first locked section of wait_takeover. */
  function Entered(t: Tables, bot: string, run: string): (Tables, Option<Outcome>) {
    if bot in t.released then (t.(released := t.released - {bot}), Some(Released))
    else if run in t.results then (t.(results := t.results - {run}), Some(t.results[run]))
    else (SetWaiters(t, bot, t.WaitersOf(bot) + {run}), None)
  }

  /** The last locked section of wait_takeover. */
  function Finished(t: Tables, bot: string, run: string): (Tables, Outcome) {
    (SetWaiters(t, bot, t.WaitersOf(bot) - {run}).(released := t.released - {bot}, results := t.results - {run}),
     if run in t.results then t.results[run] else TimedOut)
  }

  function ReleasedBy(t: Tables, bot: string): Tables {
    var woken := t.WaitersOf(bot);
    Tables(t.waiters - {bot},
           map run | run in t.results.Keys + woken :: if run in woken then Released else t.results[run],
           if woken == {} then t.released + {bot} else t.released)
  }

  function CancelledBy(t: Tables, wanted: set<string>): Tables {
    var hit := set bot, run | bot in t.waiters && run in t.waiters[bot] && run in wanted :: run;
    Tables(map bot | bot in t.waiters && t.waiters[bot] - wanted != {} :: t.waiters[bot] - wanted,
           map run | run in t.results.Keys + hit :: if run in hit then Cancelled else t.results[run],
           t.released)
  }

  class TakeoverHub {
    var waiters: map<string, set<string>>
    var results: map<string, Outcome>
    var released: set<string>

    ghost function State(): Tables
      reads this
    {
      Tables(waiters, results, released)
    }

    constructor ()
      ensures State() == Tables(map[], map[], {})
    {
      waiters, results, released := map[], map[], {};
    }

    method EnterWait(bot: string, run: string) returns (r: Option<Outcome>)
      requires bot in waiters ==> waiters[bot] != {}
      modifies this
      ensures bot == "" || run == "" ==> r == Some(TimedOut) && State() == old(State())
      ensures bot != "" && run != "" ==> (State(), r) == Entered(old(State()), bot, run)
    {
      if bot == "" || run == "" { return Some(TimedOut); }
      if bot in released {
        released := released - {bot};
        return Some(Released);
      }
      if run in results {
        r := Some(results[run]);
        results := results - {run};
        return r;
      }
      waiters := waiters[bot := (if bot in waiters then waiters[bot] else {}) + {run}];
      r := None;
    }

    method FinishWait(bot: string, run: string) returns (r: Outcome)
      requires bot in waiters ==> waiters[bot] != {}
      modifies this
      ensures (State(), r) == Finished(old(State()), bot, run)
    {
      if bot in waiters {
        var pending := waiters[bot] - {run};
        waiters := waiters[bot := pending];
        if pending == {} {
          waiters := waiters - {bot};
        }
      }
      released := released - {bot};
      r := if run in results then results[run] else TimedOut;
      results := results - {run};
      assert State().waiters == Finished(old(State()), bot, run).0.waiters;
    }

    method ReleaseTakeovers(bot: string)
      modifies this
      ensures State() == if bot == "" then old(State()) else ReleasedBy(old(State()), bot)
    {
      if bot == "" { return; }
      var pending := if bot in waiters then waiters[bot] else {};
      waiters := waiters - {bot};
      var todo := pending;
      while todo != {}
        invariant todo <= pending && waiters == old(waiters) - {bot} && released == old(released)
        invariant results == map run | run in old(results).Keys + (pending - todo) ::
                               if run in pending - todo then Released else old(results)[run]
        decreases todo
      {
        var run :| run in todo;
        results := results[run := Released];
        todo := todo - {run};
        assert pending - todo == (pending - todo - {run}) + {run};
      }
      assert pending - todo == pending;
      assert results == ReleasedBy(old(State()), bot).results;
      if pending == {} {
        released := released + {bot};
      }
    }

    method CancelTakeovers(runIds: seq<string>)
      requires forall bot :: bot in waiters ==> waiters[bot] != {}
      modifies this
      ensures State() == CancelledBy(old(State()), set run | run in runIds)
    {
      hide Part, MarkCancelled, CancelledBy;
      var wanted := set run | run in runIds;
      ghost var before := State();
      var bots := waiters.Keys;
      ghost var done: set<string> := {};
      PartStart(before, wanted);
      while bots != {}
        invariant done !! bots && done + bots == before.waiters.Keys && released == before.released
        invariant Part(before, State(), wanted, done)
        decreases bots
      {
        var bot :| bot in bots;
        PartAt(before, State(), wanted, done, bot);
        var pending := waiters[bot];
        ghost var before1 := State();
        var todo := pending;
        MarkNone(before1.results);
        assert before.waiters[bot] * wanted - todo == {};
        while todo != {}
          invariant todo <= before.waiters[bot] && bot in before.waiters && released == before.released
          invariant waiters == before1.waiters && pending == before.waiters[bot] - (wanted - todo)
          invariant results == MarkCancelled(before1.results, before.waiters[bot] * wanted - todo)
          decreases todo
        {
          var run :| run in todo;
          ghost var marked := before.waiters[bot] * wanted - todo;
          todo := todo - {run};
          if run in wanted {
            pending := pending - {run};
            MarkOne(before1.results, marked, run);
            results := results[run := Cancelled];
            assert before.waiters[bot] * wanted - todo == marked + {run};
          } else {
            assert before.waiters[bot] * wanted - todo == marked;
          }
        }
        assert before.waiters[bot] * wanted - todo == before.waiters[bot] * wanted;
        assert wanted - todo == wanted;
        waiters := waiters[bot := pending];
        if pending == {} {
          waiters := waiters - {bot};
        }
        assert waiters == if pending == {} then before1.waiters - {bot} else before1.waiters[bot := pending];
        bots := bots - {bot};
        PartStep(before, before1, State(), wanted, done, bot);
        done := done + {bot};
      }
      assert done == before.waiters.Keys;
      PartDone(before, State(), wanted, done);
    }
  }

  function MarkCancelled(results: map<string, Outcome>, runs: set<string>): map<string, Outcome> {
    map run | run in results.Keys + runs :: if run in runs then Cancelled else results[run]
  }

  lemma MarkNone(results: map<string, Outcome>)
    ensures MarkCancelled(results, {}) == results
  {}

  lemma MarkOne(results: map<string, Outcome>, runs: set<string>, run: string)
    ensures MarkCancelled(results, runs)[run := Cancelled] == MarkCancelled(results, runs + {run})
  {}

  lemma MarkMore(results: map<string, Outcome>, a: set<string>, b: set<string>)
    ensures MarkCancelled(MarkCancelled(results, a), b) == MarkCancelled(results, a + b)
  {}

  lemma PartStart(before: Tables, wanted: set<string>)
    ensures Part(before, before, wanted, {})
  {
    assert HitIn(before, wanted, {}) == {};
    MarkNone(before.results);
  }

  /** What cancelling has done when the bots in `done` have been visited. */
  ghost predicate Part(before: Tables, now: Tables, wanted: set<string>, done: set<string>) {
    && now.waiters == (map bot | bot in before.waiters && (bot in done ==> before.waiters[bot] - wanted != {}) ::
                         if bot in done then before.waiters[bot] - wanted else before.waiters[bot])
    && now.results == MarkCancelled(before.results, HitIn(before, wanted, done))
  }

  function HitIn(t: Tables, wanted: set<string>, bots: set<string>): set<string> {
    set bot, run | bot in t.waiters && run in t.waiters[bot] && bot in bots && run in wanted :: run
  }

  lemma PartAt(before: Tables, now: Tables, wanted: set<string>, done: set<string>, bot: string)
    requires Part(before, now, wanted, done) && bot in before.waiters && bot !in done
    ensures bot in now.waiters && now.waiters[bot] == before.waiters[bot]
  {}

  lemma PartStep(before: Tables, mid: Tables, now: Tables, wanted: set<string>, done: set<string>, bot: string)
    requires Part(before, mid, wanted, done) && bot in before.waiters && bot !in done
    requires now.waiters == (if before.waiters[bot] - wanted == {} then mid.waiters - {bot}
                             else mid.waiters[bot := before.waiters[bot] - wanted])
    requires now.results == MarkCancelled(mid.results, before.waiters[bot] * wanted)
    ensures Part(before, now, wanted, done + {bot})
  {
    hide MarkCancelled;
    assert HitIn(before, wanted, done + {bot}) == HitIn(before, wanted, done) + before.waiters[bot] * wanted;
    MarkMore(before.results, HitIn(before, wanted, done), before.waiters[bot] * wanted);
  }

  lemma PartDone(before: Tables, now: Tables, wanted: set<string>, done: set<string>)
    requires Part(before, now, wanted, done) && done == before.waiters.Keys && now.released == before.released
    ensures now == CancelledBy(before, wanted)
  {
    var hit := set bot, run | bot in before.waiters && run in before.waiters[bot] && run in wanted :: run;
    assert HitIn(before, wanted, done) == hit;
  }
}

/** Every interleaving of takeover waits, releases and cancels, with one wait per run. */
module TakeoverRuns {
  import opened Wrappers
  import opened Takeovers

  datatype Entry =
    | DidEnter(bot: string, run: string)
    | DidFinish(bot: string, run: string)
    | DidRelease(bot: string, woke: set<string>)
    | DidCancel(runs: set<string>)

  /** A wait in flight: its bot, and the length of the log when it registered. */
  datatype Call = Call(bot: string, since: nat)

  datatype World = World(t: Tables, calls: map<string, Call>, log: seq<Entry>)

  datatype Step = Enter(bot: string, run: string) | Finish(run: string) | Release(bot: string) | Cancel(runs: set<string>)

  predicate Enabled(w: World, step: Step) {
    match step
    case Enter(bot, run) => bot != "" && run != "" && run !in w.calls
    case Finish(run) => run in w.calls
    case Release(bot) => bot != ""
    case Cancel(_) => true
  }

  function Next(w: World, step: Step): World
    requires Enabled(w, step)
  {
    match step
    case Enter(bot, run) =>
      var (t, r) := Entered(w.t, bot, run);
      var log := w.log + [DidEnter(bot, run)];
      World(t, if r.None? then w.calls[run := Call(bot, |log|)] else w.calls, log)
    case Finish(run) =>
      var bot := w.calls[run].bot;
      World(Finished(w.t, bot, run).0, w.calls - {run}, w.log + [DidFinish(bot, run)])
    case Release(bot) =>
      World(ReleasedBy(w.t, bot), w.calls, w.log + [DidRelease(bot, w.t.WaitersOf(bot))])
    case Cancel(runs) =>
      World(CancelledBy(w.t, runs), w.calls, w.log + [DidCancel(runs)])
  }

  const INITIAL := World(Tables(map[], map[], {}), map[], [])

  predicate Runs(start: World, steps: seq<Step>, end: World)
    decreases |steps|
  {
    if steps == [] then start == end
    else Enabled(start, steps[0]) && Runs(Next(start, steps[0]), steps[1..], end)
  }

  function Decides(e: Entry, bot: string, run: string): Option<Outcome> {
    match e
    case DidRelease(b, _) => if b == bot then Some(Released) else None
    case DidCancel(runs) => if run in runs then Some(Cancelled) else None
    case _ => None
  }

  /** The first release or cancel in log[since..] that concerns the wait. */
  function FirstDecision(log: seq<Entry>, since: nat, bot: string, run: string): Option<Outcome> {
    if |log| <= since then None
    else
      var earlier := FirstDecision(log[..|log| - 1], since, bot, run);
      if earlier.Some? then earlier else Decides(log[|log| - 1], bot, run)
  }

  /** A release found nobody waiting, and no wait for the bot has entered or finished since. */
  predicate Token(log: seq<Entry>, bot: string) {
    log != [] &&
    match log[|log| - 1]
    case DidRelease(b, woke) => (b == bot && woke == {}) || Token(log[..|log| - 1], bot)
    case DidEnter(b, _) => b != bot && Token(log[..|log| - 1], bot)
    case DidFinish(b, _) => b != bot && Token(log[..|log| - 1], bot)
    case DidCancel(_) => Token(log[..|log| - 1], bot)
  }

  lemma LogGrows(log: seq<Entry>, e: Entry)
    ensures forall since: nat, bot, run :: since <= |log| ==>
              FirstDecision(log + [e], since, bot, run) ==
              if FirstDecision(log, since, bot, run).Some? then FirstDecision(log, since, bot, run) else Decides(e, bot, run)
    ensures forall bot :: Token(log + [e], bot) ==
              match e
              case DidRelease(b, woke) => (b == bot && woke == {}) || Token(log, bot)
              case DidEnter(b, _) => b != bot && Token(log, bot)
              case DidFinish(b, _) => b != bot && Token(log, bot)
              case DidCancel(_) => Token(log, bot)
  {
    var l := log + [e];
    assert l[..|l| - 1] == log && l[|l| - 1] == e;
  }

  /** A wait in flight is registered until the first decision, and then holds its result. */
  ghost predicate CallOk(w: World, run: string)
    requires run in w.calls
  {
    var c := w.calls[run];
    var d := FirstDecision(w.log, c.since, c.bot, run);
    && c.since <= |w.log|
    && (run in w.t.WaitersOf(c.bot) <==> d.None?)
    && (run in w.t.results <==> d.Some?)
    && (d.Some? ==> w.t.results[run] == d.value)
  }

  ghost predicate Inv(w: World) {
    && (forall run :: run in w.calls ==> CallOk(w, run))
    && (forall bot :: bot in w.t.waiters ==> w.t.waiters[bot] != {})
    && (forall bot, run :: bot in w.t.waiters && run in w.t.waiters[bot] ==> run in w.calls && w.calls[run].bot == bot)
    && w.t.results.Keys <= w.calls.Keys
    && (forall bot :: bot in w.t.released ==> bot !in w.t.waiters)
    && (forall bot :: bot in w.t.released <==> Token(w.log, bot))
  }

  lemma EnterKeeps(w: World, bot: string, run: string)
    requires Inv(w) && Enabled(w, Enter(bot, run))
    ensures Inv(Next(w, Enter(bot, run)))
  {
    hide FirstDecision, Token;
    LogGrows(w.log, DidEnter(bot, run));
    DecisionNow(w.log + [DidEnter(bot, run)], bot, run);
  }

  lemma DecisionNow(log: seq<Entry>, bot: string, run: string)
    ensures FirstDecision(log, |log|, bot, run) == None
  {}

  lemma FinishKeeps(w: World, run: string)
    requires Inv(w) && Enabled(w, Finish(run))
    ensures Inv(Next(w, Finish(run)))
  {
    hide FirstDecision, Token;
    LogGrows(w.log, DidFinish(w.calls[run].bot, run));
    var w' := Next(w, Finish(run));
    forall r | r in w'.calls ensures CallOk(w', r) {
      assert CallOk(w, r);
      assert w'.t.WaitersOf(w.calls[r].bot) - {run} == w.t.WaitersOf(w.calls[r].bot) - {run};
    }
  }

  lemma ReleaseKeeps(w: World, bot: string)
    requires Inv(w) && Enabled(w, Release(bot))
    ensures Inv(Next(w, Release(bot)))
  {
    hide FirstDecision, Token;
    var woken := w.t.WaitersOf(bot);
    LogGrows(w.log, DidRelease(bot, woken));
    var w' := Next(w, Release(bot));
    forall r | r in w'.calls ensures CallOk(w', r) {
      assert CallOk(w, r);
      assert r in woken <==> w.calls[r].bot == bot && FirstDecision(w.log, w.calls[r].since, bot, r).None?;
    }
  }

  lemma CancelKeeps(w: World, runs: set<string>)
    requires Inv(w) && Enabled(w, Cancel(runs))
    ensures Inv(Next(w, Cancel(runs)))
  {
    hide FirstDecision, Token;
    LogGrows(w.log, DidCancel(runs));
    var w' := Next(w, Cancel(runs));
    forall r | r in w'.calls ensures CallOk(w', r) {
      assert CallOk(w, r);
      assert w'.t.WaitersOf(w.calls[r].bot) == w.t.WaitersOf(w.calls[r].bot) - runs;
    }
  }

  lemma {:induction false} RunKeeps(start: World, steps: seq<Step>, end: World)
    requires Inv(start) && Runs(start, steps, end)
    ensures Inv(end)
    decreases |steps|
  {
    hide Inv, Next;
    if steps != [] {
      match steps[0] {
        case Enter(bot, run) => EnterKeeps(start, bot, run);
        case Finish(run) => FinishKeeps(start, run);
        case Release(bot) => ReleaseKeeps(start, bot);
        case Cancel(runs) => CancelKeeps(start, runs);
      }
      RunKeeps(Next(start, steps[0]), steps[1..], end);
    }
  }

  /** What a wait returns, in every run: immediately "released" exactly when a token is
      pending; otherwise the first release or cancel since it registered, and "timeout"
      exactly when there was none. */
  lemma WaitOutcome(steps: seq<Step>, w: World, bot: string, run: string)
    requires Runs(INITIAL, steps, w)
    ensures Enabled(w, Enter(bot, run)) ==>
              Entered(w.t, bot, run).1 == if Token(w.log, bot) then Some(Released) else None
    ensures run in w.calls ==>
              var c := w.calls[run];
              Finished(w.t, c.bot, run).1 ==
              match FirstDecision(w.log, c.since, c.bot, run) case Some(d) => d case None => TimedOut
  {
    hide FirstDecision, Token, Runs;
    assert Inv(INITIAL) by { assert forall bot :: !Token(INITIAL.log, bot) by { NoToken(); } }
    RunKeeps(INITIAL, steps, w);
    if run in w.calls { assert CallOk(w, run); }
  }

  lemma NoToken()
    ensures forall bot :: !Token([], bot)
  {}

  /** In every run a pending token means that nobody waits for that bot, a wait that enters
      uses it up, and nothing is left behind when no wait is in flight. */
  lemma NothingLeft(steps: seq<Step>, w: World)
    requires Runs(INITIAL, steps, w)
    ensures forall bot :: Token(w.log, bot) ==> w.t.WaitersOf(bot) == {}
    ensures forall bot, run :: Enabled(w, Enter(bot, run)) ==> !Token(Next(w, Enter(bot, run)).log, bot)
    ensures w.calls == map[] ==> w.t.waiters == map[] && w.t.results == map[]
  {
    hide FirstDecision, Token, Runs;
    assert Inv(INITIAL) by { NoToken(); }
    RunKeeps(INITIAL, steps, w);
    forall bot, run | Enabled(w, Enter(bot, run)) ensures !Token(Next(w, Enter(bot, run)).log, bot) {
      LogGrows(w.log, DidEnter(bot, run));
    }
    forall bot | bot in w.t.waiters ensures w.calls != map[] {
      var run :| run in w.t.waiters[bot];
      assert run in w.calls;
    }
  }
}
