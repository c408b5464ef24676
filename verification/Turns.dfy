/** The turn indexes of the runtime: src/artek_buddy/runtime/base.py. */
module Turns {
  import opened Wrappers

  datatype Turn = Turn(bot: string, run: string, thread: string, role: string, agent: Option<string>)

  /** The per-run maps, the per-agent map, the tool box registered for each agent, and the
      turn in every box.  Boxes are numbered; one that was never registered holds no turn. */
  datatype Index = Index(byRun: map<string, Turn>, active: map<string, (string, string, string)>, roles: map<string, string>,
                         byAgent: map<string, Turn>, boxes: map<string, nat>, held: map<nat, Turn>)

  const EMPTY := Index(map[], map[], map[], map[], map[], map[])

  function FrozenRun(x: Index, t: Turn): Index {
    x.(byRun := x.byRun[t.run := t], active := x.active[t.run := (t.bot, t.run, t.thread)],
       roles := x.roles[t.run := t.role])
  }

  function FrozenAgent(x: Index, a: string, t: Turn): Index {
    x.(byAgent := x.byAgent[a := t], held := if a in x.boxes then x.held[x.boxes[a] := t] else x.held)
  }

  function Frozen(x: Index, t: Turn): Index {
    if t.agent.Some? && t.agent.value != "" then FrozenAgent(FrozenRun(x, t), t.agent.value, t) else FrozenRun(x, t)
  }

  /** The boxes of these agents. */
  function BoxesOf(x: Index, agents: set<string>): set<nat> {
    set a | a in x.boxes && a in agents :: x.boxes[a]
  }

  /** Dropping per-run entries, and the per-agent entries of some agents with their boxes' turns. */
  function Dropped(x: Index, runs: set<string>, agents: set<string>): Index {
    Index(x.byRun - runs, x.active - runs, x.roles - runs, x.byAgent - agents, x.boxes, x.held - BoxesOf(x, agents))
  }

  function AgentsOfRun(x: Index, run: string): set<string> {
    set a | a in x.byAgent && x.byAgent[a].run == run
  }

  function AgentsOfBot(x: Index, bot: string): set<string> {
    set a | a in x.byAgent && x.byAgent[a].bot == bot
  }

  /** The runs cleared with a bot: its own, and one whose id is the bot's. */
  function RunsOfBot(x: Index, bot: string): set<string> {
    set r | r in x.active && (r == bot || x.active[r].0 == bot)
  }

  function Cleared(x: Index, bot: string, run: string): Index {
    if run != "" then Dropped(x, {run}, AgentsOfRun(x, run))
    else if bot == "" then x
    else Dropped(x, RunsOfBot(x, bot), AgentsOfBot(x, bot))
  }

  /** The turn frozen for an agent. */
  function TurnOf(x: Index, agent: string): Option<Turn> {
    if agent in x.byAgent then Some(x.byAgent[agent]) else None
  }

  function Filled(x: Index, box: nat, frozen: Option<Turn>): Index {
    x.(held := if frozen.Some? then x.held[box := frozen.value] else x.held)
  }

  /** The live runs of a bot; of all bots for "". */
  function Live(x: Index, bot: string): set<string> {
    set r | r in x.byRun && (bot == "" || x.byRun[r].bot == bot)
  }

  lemma DroppedNone(x: Index)
    ensures Dropped(x, {}, {}) == x
  {
    assert BoxesOf(x, {}) == {};
  }

  lemma DroppedRun(x: Index, runs: set<string>, r: string)
    ensures var y := Dropped(x, runs, {});
            Dropped(x, runs + {r}, {}) == y.(byRun := y.byRun - {r}, active := y.active - {r}, roles := y.roles - {r})
    ensures Dropped(x, runs, {}).active == x.active - runs && Dropped(x, runs, {}).byAgent == x.byAgent
  {
    var y := Dropped(x, runs, {});
    assert x.byRun - (runs + {r}) == y.byRun - {r};
    assert x.active - (runs + {r}) == y.active - {r};
    assert x.roles - (runs + {r}) == y.roles - {r};
  }

  lemma DroppedAgent(x: Index, agents: set<string>, a: string)
    ensures var y := Dropped(x, {}, agents);
            Dropped(x, {}, agents + {a}) ==
            y.(byAgent := y.byAgent - {a}, held := if a in y.boxes then y.held - {y.boxes[a]} else y.held)
  {
    var y := Dropped(x, {}, agents);
    assert x.byAgent - (agents + {a}) == y.byAgent - {a};
    assert BoxesOf(x, agents + {a}) == BoxesOf(x, agents) + if a in x.boxes then {x.boxes[a]} else {};
    assert Dropped(x, {}, agents + {a}).held == if a in y.boxes then y.held - {y.boxes[a]} else y.held;
  }

  lemma DroppedBoth(x: Index, runs: set<string>, agents: set<string>)
    ensures Dropped(Dropped(x, runs, {}), {}, agents) == Dropped(x, runs, agents)
  {
    var y := Dropped(x, runs, {});
    assert BoxesOf(x, {}) == {} && BoxesOf(y, agents) == BoxesOf(x, agents);
    assert y.held == x.held && y.byAgent == x.byAgent;
    assert y.byRun - {} == x.byRun - runs && y.active - {} == x.active - runs && y.roles - {} == x.roles - runs;
  }

  class TurnIndex {
    var byRun: map<string, Turn>
    var active: map<string, (string, string, string)>
    var roles: map<string, string>
    var byAgent: map<string, Turn>
    var boxes: map<string, nat>
    var held: map<nat, Turn>

    ghost function State(): Index
      reads this
    {
      Index(byRun, active, roles, byAgent, boxes, held)
    }

    constructor ()
      ensures State() == EMPTY
    {
      byRun, active, roles, byAgent, boxes, held := map[], map[], map[], map[], map[], map[];
    }

    method FreezeTurn(t: Turn)
      modifies this
      ensures State() == Frozen(old(State()), t)
    {
      byRun := byRun[t.run := t];
      active := active[t.run := (t.bot, t.run, t.thread)];
      roles := roles[t.run := t.role];
      if t.agent.Some? && t.agent.value != "" {
        byAgent := byAgent[t.agent.value := t];
        if t.agent.value in boxes {
          held := held[boxes[t.agent.value] := t];
        }
      }
    }

    /** The locked section of register_tool_box, which reads the agent's frozen turn. */
    method RegisterToolBox(agent: string, box: nat) returns (frozen: Option<Turn>)
      modifies this`boxes
      ensures State() == old(State()).(boxes := old(boxes)[agent := box])
      ensures frozen == TurnOf(old(State()), agent)
    {
      boxes := boxes[agent := box];
      frozen := if agent in byAgent then Some(byAgent[agent]) else None;
    }

    /** The end of register_tool_box, after the lock is released. */
    method FillBox(box: nat, frozen: Option<Turn>)
      modifies this`held
      ensures State() == Filled(old(State()), box, frozen)
    {
      if frozen.Some? { held := held[box := frozen.value]; }
    }

    method ClearActiveTurn(bot: string, run: string)
      modifies this
      ensures State() == Cleared(old(State()), bot, run)
    {
      hide Dropped;
      ghost var x := State();
      DroppedNone(x);
      if run != "" {
        DroppedRun(x, {}, run);
        active, roles, byRun := active - {run}, roles - {run}, byRun - {run};
        assert {} + {run} == {run};
        var agents := set a | a in byAgent && byAgent[a].run == run;
        assert agents == AgentsOfRun(x, run);
        DroppedBoth(x, {run}, agents);
        DropAgents(agents);
        return;
      }
      if bot == "" { return; }
      var keys := active.Keys;
      ghost var gone: set<string> := {};
      assert RunsOfBot(x, bot) - keys == {};
      while keys != {}
        invariant keys <= x.active.Keys && gone == RunsOfBot(x, bot) - keys
        invariant State() == Dropped(x, gone, {}) && byAgent == x.byAgent
        invariant active == x.active - gone
        decreases keys
      {
        var key :| key in keys;
        keys := keys - {key};
        if key == bot || active[key].0 == bot {
          DroppedRun(x, gone, key);
          active, roles, byRun := active - {key}, roles - {key}, byRun - {key};
          assert RunsOfBot(x, bot) - keys == gone + {key};
          gone := gone + {key};
        } else {
          assert RunsOfBot(x, bot) - keys == gone;
        }
      }
      assert gone == RunsOfBot(x, bot);
      var agents := set a | a in byAgent && byAgent[a].bot == bot;
      assert agents == AgentsOfBot(x, bot);
      DroppedBoth(x, gone, agents);
      DropAgents(agents);
    }

    /** The second loop of both branches: forgetting agents and emptying their boxes. */
    method DropAgents(agents: set<string>)
      modifies this`byAgent, this`held
      ensures State() == Dropped(old(State()), {}, agents)
    {
      hide Dropped;
      ghost var x := State();
      var todo := agents;
      DroppedNone(x);
      assert agents - todo == {};
      while todo != {}
        invariant todo <= agents && State() == Dropped(x, {}, agents - todo)
        decreases todo
      {
        var a :| a in todo;
        DroppedAgent(x, agents - todo, a);
        assert agents - (todo - {a}) == agents - todo + {a};
        todo := todo - {a};
        byAgent := byAgent - {a};
        if a in boxes { held := held - {boxes[a]}; }
      }
      assert agents - todo == agents;
    }

    /** `current` is the run of the callback context, "" outside a callback. */
    method ResolveTurn(current: string, bot: string, agent: string) returns (r: Option<Turn>)
      ensures r == Resolved(State(), current, bot, agent)
    {
      if current != "" {
        if current in byRun && (bot == "" || byRun[current].bot == bot) { return Some(byRun[current]); }
      }
      if agent != "" {
        if agent in byAgent && (bot == "" || byAgent[agent].bot == bot) { return Some(byAgent[agent]); }
      }
      var matching := set r | r in byRun && (bot == "" || byRun[r].bot == bot);
      assert matching == Live(State(), bot);
      if |matching| == 1 {
        var run :| run in matching;
        Singleton(matching, run);
        return Some(byRun[run]);
      }
      return None;
    }
  }

  lemma Singleton(s: set<string>, x: string)
    requires |s| == 1 && x in s
    ensures s == {x}
  {
    assert |s - {x}| == 0;
  }

  /** What resolving returns: the callback's turn, then the agent's, then the only live turn. */
  ghost function Resolved(x: Index, current: string, bot: string, agent: string): Option<Turn> {
    if current != "" && current in x.byRun && (bot == "" || x.byRun[current].bot == bot) then Some(x.byRun[current])
    else if agent != "" && agent in x.byAgent && (bot == "" || x.byAgent[agent].bot == bot) then Some(x.byAgent[agent])
    else if |Live(x, bot)| == 1 then
      var run :| run in Live(x, bot);
      Some(x.byRun[run])
    else None
  }

  // ---------------------------------------------------------------------------
  // Every interleaving of freezes, registrations and clears

  /** A registration is two steps: `Read` in the lock, which registers a new box and reads the
      agent's turn, and `Fill` after it. */
  datatype Step = Freeze(t: Turn) | Read(box: nat, agent: string) | Fill(box: nat) | Clear(bot: string, run: string)

  /** What a registration that has not filled its box yet has read. */
  datatype Pending = Pending(agent: string, frozen: Option<Turn>)

  /** `used` are the boxes registered so far. */
  datatype World = World(x: Index, pending: map<nat, Pending>, used: set<nat>)

  const START := World(EMPTY, map[], {})

  /** Every registration comes with a box of its own. */
  predicate Enabled(w: World, s: Step) {
    match s
    case Read(box, _) => box !in w.used
    case Fill(box) => box in w.pending
    case _ => true
  }

  function Next(w: World, s: Step): World
    requires Enabled(w, s)
  {
    match s
    case Freeze(t) => w.(x := Frozen(w.x, t))
    case Clear(bot, run) => w.(x := Cleared(w.x, bot, run))
    case Read(box, agent) =>
      World(w.x.(boxes := w.x.boxes[agent := box]), w.pending[box := Pending(agent, TurnOf(w.x, agent))], w.used + {box})
    case Fill(box) => w.(x := Filled(w.x, box, w.pending[box].frozen), pending := w.pending - {box})
  }

  /** The world after these steps, if each could be taken. */
  function After(steps: seq<Step>): Option<World> {
    if steps == [] then Some(START)
    else
      var before, last := After(steps[..|steps| - 1]), steps[|steps| - 1];
      if before.Some? && Enabled(before.value, last) then Some(Next(before.value, last)) else None
  }

  predicate Legal(steps: seq<Step>) {
    After(steps).Some?
  }

  lemma {:induction false} LegalPrefix(steps: seq<Step>, i: nat)
    requires Legal(steps) && i <= |steps|
    ensures Legal(steps[..i])
  {
    if i < |steps| {
      var init := steps[..|steps| - 1];
      LegalPrefix(init, i);
      assert init[..i] == steps[..i];
    } else {
      assert steps[..i] == steps;
    }
  }

  // ---------------------------------------------------------------------------
  // What holds in every run

  /** The three per-run maps have the same keys and agree, an agent's turn names the agent,
      and every agent has a box of its own. */
  ghost predicate Shape(w: World) {
    && w.x.byRun.Keys == w.x.active.Keys == w.x.roles.Keys
    && (forall r :: r in w.x.byRun ==>
          var t := w.x.byRun[r];
          t.run == r && w.x.active[r] == (t.bot, t.run, t.thread) && w.x.roles[r] == t.role)
    && (forall a :: a in w.x.byAgent ==> a != "" && w.x.byAgent[a].agent == Some(a))
    && (forall a :: a in w.x.boxes ==> w.x.boxes[a] in w.used)
    && (forall a, b :: a in w.x.boxes && b in w.x.boxes && w.x.boxes[a] == w.x.boxes[b] ==> a == b)
    && w.pending.Keys <= w.used && w.x.held.Keys <= w.used
    && (forall box, a :: box in w.pending && a in w.x.boxes && w.x.boxes[a] == box ==> w.pending[box].agent == a)
  }

  lemma StepShape(w: World, s: Step)
    requires Shape(w) && Enabled(w, s)
    ensures Shape(Next(w, s))
  {
    match s
    case Freeze(t) => FreezeShape(w, t);
    case Clear(bot, run) => ClearShape(w, bot, run);
    case Read(_, _) =>
    case Fill(_) =>
  }

  lemma FreezeShape(w: World, t: Turn)
    requires Shape(w)
    ensures Shape(w.(x := Frozen(w.x, t)))
  {
    hide Shape, FrozenRun, FrozenAgent;
    FreezeRunShape(w, t);
    if t.agent.Some? && t.agent.value != "" { FreezeAgentShape(w.(x := FrozenRun(w.x, t)), t.agent.value, t); }
  }

  lemma FreezeRunShape(w: World, t: Turn)
    requires Shape(w)
    ensures Shape(w.(x := FrozenRun(w.x, t)))
  {
    var y := FrozenRun(w.x, t);
    assert y.byRun.Keys == w.x.byRun.Keys + {t.run} && y.active.Keys == w.x.active.Keys + {t.run}
      && y.roles.Keys == w.x.roles.Keys + {t.run};
  }

  lemma FreezeAgentShape(w: World, a: string, t: Turn)
    requires Shape(w) && a != "" && t.agent == Some(a)
    ensures Shape(w.(x := FrozenAgent(w.x, a, t)))
  {}

  lemma DropShape(w: World, runs: set<string>, agents: set<string>)
    requires Shape(w)
    ensures Shape(w.(x := Dropped(w.x, runs, agents)))
  {}

  lemma ClearShape(w: World, bot: string, run: string)
    requires Shape(w)
    ensures Shape(w.(x := Cleared(w.x, bot, run)))
  {
    hide Dropped, Shape;
    DropShape(w, {run}, AgentsOfRun(w.x, run));
    DropShape(w, RunsOfBot(w.x, bot), AgentsOfBot(w.x, bot));
  }

  lemma {:induction false} RunShape(steps: seq<Step>)
    requires Legal(steps)
    ensures Shape(After(steps).value)
  {
    hide Shape, Next, Enabled;
    if steps == [] {
      StartShape();
    } else {
      RunShape(steps[..|steps| - 1]);
      StepShape(After(steps[..|steps| - 1]).value, steps[|steps| - 1]);
    }
  }

  lemma StartShape()
    ensures Shape(START)
  {}

  // ---------------------------------------------------------------------------
  // An agent's turn, from the steps alone

  /** What a step makes of an agent's turn. */
  function Moved(turn: Option<Turn>, agent: string, s: Step): Option<Turn> {
    match s
    case Freeze(t) => if t.agent == Some(agent) && agent != "" then Some(t) else turn
    case Clear(bot, run) =>
      if turn.None? then None
      else if run != "" then (if turn.value.run == run then None else turn)
      else if bot != "" && turn.value.bot == bot then None
      else turn
    case _ => turn
  }

  /** The agent's turn after these steps, if it was `start` before. */
  function TurnSince(steps: seq<Step>, agent: string, start: Option<Turn>): Option<Turn> {
    if steps == [] then start
    else Moved(TurnSince(steps[..|steps| - 1], agent, start), agent, steps[|steps| - 1])
  }

  lemma StepTurn(w: World, s: Step, agent: string)
    requires Enabled(w, s)
    ensures TurnOf(Next(w, s).x, agent) == Moved(TurnOf(w.x, agent), agent, s)
  {
    if s.Clear? {
      assert agent in AgentsOfRun(w.x, s.run) <==> agent in w.x.byAgent && w.x.byAgent[agent].run == s.run;
      assert agent in AgentsOfBot(w.x, s.bot) <==> agent in w.x.byAgent && w.x.byAgent[agent].bot == s.bot;
    }
  }

  lemma {:induction false} RunTurn(steps: seq<Step>, agent: string)
    requires Legal(steps)
    ensures TurnOf(After(steps).value.x, agent) == TurnSince(steps, agent, None)
  {
    hide Next, Enabled, Moved;
    if steps != [] {
      RunTurn(steps[..|steps| - 1], agent);
      StepTurn(After(steps[..|steps| - 1]).value, steps[|steps| - 1], agent);
    }
  }

  lemma {:induction false} TurnThen(p: seq<Step>, q: seq<Step>, agent: string, start: Option<Turn>)
    ensures TurnSince(p + q, agent, start) == TurnSince(q, agent, TurnSince(p, agent, start))
  {
    if q == [] {
      assert p + q == p;
    } else {
      var n := |q| - 1;
      TurnThen(p, q[..n], agent, start);
      assert (p + q)[..|p + q| - 1] == p + q[..n] && (p + q)[|p + q| - 1] == q[n];
    }
  }

  /** What a step makes of the turn of a run. */
  function RunMoved(turn: Option<Turn>, run: string, s: Step): Option<Turn> {
    match s
    case Freeze(t) => if t.run == run then Some(t) else turn
    case Clear(bot, r) =>
      if turn.None? then None
      else if r != "" then (if r == run then None else turn)
      else if bot != "" && (turn.value.bot == bot || run == bot) then None
      else turn
    case _ => turn
  }

  /** The run's turn after these steps. */
  function RunTurnSince(steps: seq<Step>, run: string): Option<Turn> {
    if steps == [] then None else RunMoved(RunTurnSince(steps[..|steps| - 1], run), run, steps[|steps| - 1])
  }

  function TurnOfRun(x: Index, run: string): Option<Turn> {
    if run in x.byRun then Some(x.byRun[run]) else None
  }

  lemma StepLive(w: World, s: Step, run: string)
    requires Shape(w) && Enabled(w, s)
    ensures TurnOfRun(Next(w, s).x, run) == RunMoved(TurnOfRun(w.x, run), run, s)
  {
    if s.Clear? { assert run in RunsOfBot(w.x, s.bot) <==> run in w.x.active && (run == s.bot || w.x.active[run].0 == s.bot); }
  }

  /** In every run of steps, exactly those runs are live that were frozen and not cleared
      since, each with its latest turn. */
  lemma {:induction false} RunLive(steps: seq<Step>, run: string)
    requires Legal(steps)
    ensures TurnOfRun(After(steps).value.x, run) == RunTurnSince(steps, run)
  {
    hide Next, Enabled, RunMoved, Shape, TurnOfRun;
    if steps != [] {
      RunShape(steps[..|steps| - 1]);
      RunLive(steps[..|steps| - 1], run);
      StepLive(After(steps[..|steps| - 1]).value, steps[|steps| - 1], run);
    } else {
      NoneLive(run);
    }
  }

  lemma NoneLive(run: string)
    ensures TurnOfRun(START.x, run) == None
  {}

  /** The turn in the agent's box. */
  function BoxTurn(x: Index, agent: string): Option<Turn> {
    if agent in x.boxes && x.boxes[agent] in x.held then Some(x.held[x.boxes[agent]]) else None
  }

  /** What a step makes of the turn in an agent's box: a freeze for the agent puts its turn
      there, a clear that takes the agent's turn empties it, a fill puts what was read, a new
      box is empty, and no other step touches it. */
  lemma StepBox(w: World, s: Step, agent: string)
    requires Shape(w) && Enabled(w, s) && agent in w.x.boxes && agent != ""
    ensures var before, after := BoxTurn(w.x, agent), BoxTurn(Next(w, s).x, agent);
            match s
            case Freeze(t) => after == if t.agent == Some(agent) then Some(t) else before
            case Clear(_, _) =>
              after == if TurnOf(w.x, agent).Some? && Moved(TurnOf(w.x, agent), agent, s).None? then None else before
            case Fill(box) =>
              after == if box == w.x.boxes[agent] && w.pending[box].frozen.Some? then w.pending[box].frozen else before
            case Read(_, a) => after == if a == agent then None else before
  {
    if s.Clear? {
      assert agent in AgentsOfRun(w.x, s.run) <==> agent in w.x.byAgent && w.x.byAgent[agent].run == s.run;
      assert agent in AgentsOfBot(w.x, s.bot) <==> agent in w.x.byAgent && w.x.byAgent[agent].bot == s.bot;
      ClearBox(w, AgentsOfRun(w.x, s.run), agent);
      ClearBox(w, AgentsOfBot(w.x, s.bot), agent);
    }
  }

  lemma ClearBox(w: World, agents: set<string>, agent: string)
    requires Shape(w) && agent in w.x.boxes
    ensures w.x.boxes[agent] in BoxesOf(w.x, agents) <==> agent in agents
  {}

  // ---------------------------------------------------------------------------
  // The boxes, and filling one late

  /** Every registered box holds its agent's turn or none. */
  ghost predicate BoxesOk(x: Index) {
    forall a :: a in x.boxes && x.boxes[a] in x.held ==> TurnOf(x, a) == Some(x.held[x.boxes[a]])
  }

  /** What a registration has read is still its agent's turn, or it fills nothing that matters. */
  predicate InTime(w: World, box: nat)
    requires box in w.pending
  {
    var p := w.pending[box];
    p.frozen.None? || (p.agent in w.x.boxes && w.x.boxes[p.agent] == box ==> TurnOf(w.x, p.agent) == p.frozen)
  }

  /** No step but a late fill disturbs the boxes. */
  lemma BoxesIff(w: World, s: Step)
    requires Shape(w) && Enabled(w, s) && BoxesOk(w.x)
    ensures BoxesOk(Next(w, s).x) <==> (s.Fill? ==> InTime(w, s.box))
  {
    match s
    case Freeze(t) =>
    case Clear(bot, run) => ClearBoxes(w, bot, run);
    case Read(box, agent) =>
    case Fill(box) => FillBoxes(w, box);
  }

  lemma ClearBoxes(w: World, bot: string, run: string)
    requires Shape(w) && BoxesOk(w.x)
    ensures BoxesOk(Cleared(w.x, bot, run))
  {
    hide Dropped, Shape, BoxesOk;
    DropBoxes(w, {run}, AgentsOfRun(w.x, run));
    DropBoxes(w, RunsOfBot(w.x, bot), AgentsOfBot(w.x, bot));
  }

  lemma DropBoxes(w: World, runs: set<string>, agents: set<string>)
    requires Shape(w) && BoxesOk(w.x)
    ensures BoxesOk(Dropped(w.x, runs, agents))
  {
    forall a | a in w.x.boxes && a in agents ensures w.x.boxes[a] in BoxesOf(w.x, agents) {}
  }

  lemma FillBoxes(w: World, box: nat)
    requires Shape(w) && BoxesOk(w.x) && box in w.pending
    ensures BoxesOk(Next(w, Fill(box)).x) <==> InTime(w, box)
  {
    var p, y := w.pending[box], Next(w, Fill(box)).x;
    if p.frozen.Some? && p.agent in w.x.boxes && w.x.boxes[p.agent] == box {
      assert y.held[y.boxes[p.agent]] == p.frozen.value && TurnOf(y, p.agent) == TurnOf(w.x, p.agent);
    }
  }

  /** Where the box was registered. */
  function ReadAt(steps: seq<Step>, box: nat): (i: int)
    ensures -1 <= i < |steps|
    ensures i >= 0 ==> steps[i].Read? && steps[i].box == box
  {
    if steps == [] then -1
    else
      var n := |steps| - 1;
      if steps[n].Read? && steps[n].box == box then n else ReadAt(steps[..n], box)
  }

  /** The agent has been given another box. */
  predicate Replaced(steps: seq<Step>, agent: string) {
    exists i :: 0 <= i < |steps| && steps[i].Read? && steps[i].agent == agent
  }

  /** Filling this box next comes in time: the registration read no turn, or the agent has
      been given another box since, or what was frozen and cleared since the read leaves the
      agent with the turn that was read. */
  predicate FillsInTime(steps: seq<Step>, box: nat) {
    var j := ReadAt(steps, box);
    j >= 0 ==>
      var agent, since := steps[j].agent, steps[j + 1..];
      var frozen := TurnSince(steps[..j], agent, None);
      frozen.None? || Replaced(since, agent) || TurnSince(since, agent, frozen) == frozen
  }

  /** What a pending registration has read, and whether its box is still the agent's. */
  ghost predicate PendingIs(steps: seq<Step>, w: World, box: nat)
    requires box in w.pending
  {
    var j, p := ReadAt(steps, box), w.pending[box];
    && j >= 0 && p.agent == steps[j].agent && p.frozen == TurnSince(steps[..j], p.agent, None)
    && (p.agent in w.x.boxes && w.x.boxes[p.agent] == box <==> !Replaced(steps[j + 1..], p.agent))
  }

  lemma ReplacedSnoc(steps: seq<Step>, s: Step, agent: string)
    ensures Replaced(steps + [s], agent) <==> Replaced(steps, agent) || (s.Read? && s.agent == agent)
  {
    if s.Read? && s.agent == agent { assert (steps + [s])[|steps|] == s; }
    if Replaced(steps, agent) {
      var i :| 0 <= i < |steps| && steps[i].Read? && steps[i].agent == agent;
      assert (steps + [s])[i] == steps[i];
    }
  }

  lemma {:induction false} RunPending(steps: seq<Step>, box: nat)
    requires Legal(steps) && box in After(steps).value.pending
    ensures PendingIs(steps, After(steps).value, box)
  {
    hide PendingIs, Next, Enabled, TurnSince, TurnOf;
    if steps != [] {
      var n := |steps| - 1;
      var init, s := steps[..n], steps[n];
      var w := After(init).value;
      assert steps == init + [s];
      LastStep(steps);
      if s.Read? && s.box == box {
        RunTurn(init, s.agent);
        PendingNew(init, w, s);
      } else {
        PendingOld(w, s, box);
        RunPending(init, box);
        PendingStep(init, w, s, box);
      }
    }
  }

  lemma PendingOld(w: World, s: Step, box: nat)
    requires Enabled(w, s) && box in Next(w, s).pending && !(s.Read? && s.box == box)
    ensures box in w.pending && Next(w, s).pending[box] == w.pending[box]
  {}

  lemma PendingNew(steps: seq<Step>, w: World, s: Step)
    requires Enabled(w, s) && s.Read? && TurnOf(w.x, s.agent) == TurnSince(steps, s.agent, None)
    ensures PendingIs(steps + [s], Next(w, s), s.box)
  {
    hide TurnSince, TurnOf, Replaced;
    var n, all := |steps|, steps + [s];
    assert all[..n] == steps && all[n + 1..] == [];
    NotReplaced(s.agent);
  }

  lemma PendingStep(steps: seq<Step>, w: World, s: Step, box: nat)
    requires Enabled(w, s) && box in w.pending && box in Next(w, s).pending && PendingIs(steps, w, box)
    requires Next(w, s).pending[box] == w.pending[box] && !(s.Read? && s.box == box)
    ensures PendingIs(steps + [s], Next(w, s), box)
  {
    hide TurnSince, Replaced;
    var all, j := steps + [s], ReadAt(steps, box);
    assert all[..|all| - 1] == steps;
    assert all[..j] == steps[..j] && all[j + 1..] == steps[j + 1..] + [s];
    ReplacedSnoc(steps[j + 1..], s, w.pending[box].agent);
    SameBoxes(w, s);
  }

  lemma NotReplaced(agent: string)
    ensures !Replaced([], agent)
  {}

  lemma SameBoxes(w: World, s: Step)
    requires Enabled(w, s)
    ensures s.Read? || Next(w, s).x.boxes == w.x.boxes
  {}

  /** In every run, whether a fill comes in time is a matter of the steps since its read. */
  lemma InTimeIff(steps: seq<Step>, box: nat)
    requires Legal(steps) && box in After(steps).value.pending
    ensures InTime(After(steps).value, box) <==> FillsInTime(steps, box)
  {
    hide Replaced, TurnSince, After;
    var w := After(steps).value;
    RunPending(steps, box);
    var j, agent := ReadAt(steps, box), w.pending[box].agent;
    RunTurn(steps, agent);
    TurnThen(steps[..j], [steps[j]], agent, None);
    TurnThen(steps[..j] + [steps[j]], steps[j + 1..], agent, None);
    assert steps[..j] + [steps[j]] + steps[j + 1..] == steps;
    ReadMovesNothing(steps[j], TurnSince(steps[..j], agent, None), agent);
  }

  lemma ReadMovesNothing(s: Step, turn: Option<Turn>, agent: string)
    requires s.Read?
    ensures TurnSince([s], agent, turn) == turn
  {
    assert [s][..0] == [];
    assert TurnSince([], agent, turn) == turn;
  }

  /** The run can be taken, and leaves every box right. */
  ghost predicate BoxesAfter(steps: seq<Step>) {
    Legal(steps) && BoxesOk(After(steps).value.x)
  }

  predicate StepInTime(steps: seq<Step>, s: Step) {
    s.Fill? ==> FillsInTime(steps, s.box)
  }

  lemma LastBoxes(steps: seq<Step>)
    requires Legal(steps) && steps != [] && BoxesAfter(steps[..|steps| - 1])
    ensures BoxesAfter(steps) <==> StepInTime(steps[..|steps| - 1], steps[|steps| - 1])
  {
    hide BoxesOk, FillsInTime, Next, Enabled, Shape, InTime, After;
    var init, s := steps[..|steps| - 1], steps[|steps| - 1];
    LastStep(steps);
    RunShape(init);
    BoxesIff(After(init).value, s);
    if s.Fill? { InTimeIff(init, s.box); }
  }

  /** Every box is right in every state of a run exactly if every fill comes in time. */
  lemma {:induction false} RunBoxesIff(steps: seq<Step>)
    requires Legal(steps)
    ensures (forall i :: 0 <= i <= |steps| ==> BoxesAfter(steps[..i])) <==>
            (forall i :: 0 <= i < |steps| ==> StepInTime(steps[..i], steps[i]))
  {
    hide BoxesAfter, StepInTime, Legal;
    if steps == [] {
      StartBoxes();
      assert steps[..0] == [];
    } else {
      var n := |steps| - 1;
      LegalPrefix(steps, n);
      RunBoxesIff(steps[..n]);
      assert forall i :: 0 <= i <= n ==> steps[..n][..i] == steps[..i];
      assert steps[..n + 1] == steps;
      assert BoxesAfter(steps[..n][..n]) <==> BoxesAfter(steps[..n]);
      if BoxesAfter(steps[..n]) { LastBoxes(steps); }
    }
  }

  lemma StartBoxes()
    ensures BoxesAfter([]) && AgentsAfter([])
  {}

  lemma LastStep(steps: seq<Step>)
    requires Legal(steps) && steps != []
    ensures var init, s := steps[..|steps| - 1], steps[|steps| - 1];
            && Legal(init) && Enabled(After(init).value, s) && After(steps).value == Next(After(init).value, s)
            && (s.Fill? ==> s.box in After(init).value.pending)
  {}

  lemma AfterNothing()
    ensures After([]) == Some(START)
  {}

  lemma AfterNext(steps: seq<Step>, i: nat, w: World)
    requires i < |steps| && After(steps[..i]) == Some(w) && Enabled(w, steps[i])
    ensures After(steps[..i + 1]) == Some(Next(w, steps[i]))
  {
    assert steps[..i + 1][..i] == steps[..i];
  }

  /** The race: a registration reads a turn, the run is cleared, and the box is filled with
      the turn that is gone. */
  lemma LateFillRevives()
    ensures var t := Turn("b", "r", "th", "lead", Some("a"));
            var steps := [Freeze(t), Read(0, "a"), Clear("", "r"), Fill(0)];
            && Legal(steps) && !FillsInTime(steps[..3], 0)
            && var x := After(steps).value.x;
               !BoxesOk(x) && x.boxes["a"] in x.held && x.held[x.boxes["a"]] == t && "r" !in x.byRun
  {
    hide After, FillsInTime;
    var t := Turn("b", "r", "th", "lead", Some("a"));
    var steps := [Freeze(t), Read(0, "a"), Clear("", "r"), Fill(0)];
    AfterNothing();
    var x1 := Frozen(EMPTY, t);
    var w1 := World(x1, map[], {});
    var w2 := Next(w1, steps[1]);
    var w3 := Next(w2, steps[2]);
    assert steps[..0] == [] && steps[..4] == steps;
    AfterNext(steps, 0, START);
    AfterNext(steps, 1, w1);
    AfterNext(steps, 2, w2);
    AfterNext(steps, 3, w3);
    assert w2.x.byAgent.Keys == {"a"} && w2.x.byAgent["a"] == t;
    assert AgentsOfRun(w2.x, "r") == {"a"};
    assert w3.pending == map[0 := Pending("a", Some(t))];
    assert TurnOf(w3.x, "a") == None;
    assert !InTime(w3, 0);
    InTimeIff(steps[..3], 0);
    var x := After(steps).value.x;
    assert TurnOf(x, "a") == None && x.boxes["a"] == 0;
  }

  // ---------------------------------------------------------------------------
  // The agents, and runs that change hands

  /** Every agent's turn is of a live run of the same bot. */
  ghost predicate AgentsLive(x: Index) {
    forall a :: a in x.byAgent ==>
      var t := x.byAgent[a];
      t.run in x.byRun && x.byRun[t.run].bot == t.bot
  }

  /** A freeze takes no run over from another bot's agent, and a bot is not cleared whose id
      is the run of another bot's agent. */
  ghost predicate Safe(turnOf: string -> Option<Turn>, s: Step) {
    match s
    case Freeze(t) =>
      forall a :: turnOf(a).Some? && t.agent != Some(a) && turnOf(a).value.run == t.run ==> turnOf(a).value.bot == t.bot
    case Clear(bot, run) =>
      run == "" && bot != "" ==> forall a :: turnOf(a).Some? && turnOf(a).value.run == bot ==> turnOf(a).value.bot == bot
    case _ => true
  }

  lemma AgentsIff(w: World, s: Step)
    requires Shape(w) && Enabled(w, s) && AgentsLive(w.x)
    ensures AgentsLive(Next(w, s).x) <==> Safe(a => TurnOf(w.x, a), s)
  {
    match s
    case Freeze(t) => FreezeAgents(w, t);
    case Clear(bot, run) => ClearAgents(w, bot, run);
    case Read(_, _) =>
    case Fill(_) =>
  }

  lemma FreezeAgents(w: World, t: Turn)
    requires Shape(w) && AgentsLive(w.x)
    ensures AgentsLive(Frozen(w.x, t)) <==> Safe(a => TurnOf(w.x, a), Freeze(t))
  {
    var x, y := w.x, Frozen(w.x, t);
    var turnOf := (a: string) => TurnOf(x, a);
    if !Safe(turnOf, Freeze(t)) {
      var a :| turnOf(a).Some? && t.agent != Some(a) && turnOf(a).value.run == t.run && turnOf(a).value.bot != t.bot;
      assert a in y.byAgent && y.byAgent[a] == x.byAgent[a] && y.byRun[t.run] == t;
    } else {
      forall a | a in y.byAgent ensures y.byAgent[a].run in y.byRun && y.byRun[y.byAgent[a].run].bot == y.byAgent[a].bot {
        if y.byAgent[a] != t { assert turnOf(a) == Some(y.byAgent[a]) && (t.agent == Some(a) ==> a == ""); }
      }
    }
  }

  lemma ClearAgents(w: World, bot: string, run: string)
    requires Shape(w) && AgentsLive(w.x)
    ensures AgentsLive(Cleared(w.x, bot, run)) <==> Safe(a => TurnOf(w.x, a), Clear(bot, run))
  {
    var x, y := w.x, Cleared(w.x, bot, run);
    var turnOf := (a: string) => TurnOf(x, a);
    if !Safe(turnOf, Clear(bot, run)) {
      var a :| turnOf(a).Some? && turnOf(a).value.run == bot && turnOf(a).value.bot != bot;
      assert a in y.byAgent && bot in RunsOfBot(x, bot) && bot !in y.byRun;
    } else {
      forall a | a in y.byAgent ensures y.byAgent[a].run in y.byRun && y.byRun[y.byAgent[a].run].bot == y.byAgent[a].bot {
        assert turnOf(a) == Some(y.byAgent[a]) == Some(x.byAgent[a]);
      }
    }
  }

  /** The run can be taken, and leaves every agent with a live turn. */
  ghost predicate AgentsAfter(steps: seq<Step>) {
    Legal(steps) && AgentsLive(After(steps).value.x)
  }

  ghost predicate StepSafe(steps: seq<Step>, s: Step) {
    Safe(a => TurnSince(steps, a, None), s)
  }

  lemma LastAgents(steps: seq<Step>)
    requires Legal(steps) && steps != [] && AgentsAfter(steps[..|steps| - 1])
    ensures AgentsAfter(steps) <==> StepSafe(steps[..|steps| - 1], steps[|steps| - 1])
  {
    hide AgentsLive, Safe, Next, Enabled, Shape, TurnSince, After;
    var init, s := steps[..|steps| - 1], steps[|steps| - 1];
    LastStep(steps);
    RunShape(init);
    var x := After(init).value.x;
    AgentsIff(After(init).value, s);
    forall a ensures TurnOf(x, a) == TurnSince(init, a, None) { RunTurn(init, a); }
    SafeSame(a => TurnOf(x, a), a => TurnSince(init, a, None), s);
  }

  /** Every agent's turn is live in every state of a run exactly if every step is safe, by
      the turns that the steps before it leave the agents with. */
  lemma {:induction false} RunAgentsIff(steps: seq<Step>)
    requires Legal(steps)
    ensures (forall i :: 0 <= i <= |steps| ==> AgentsAfter(steps[..i])) <==>
            (forall i :: 0 <= i < |steps| ==> StepSafe(steps[..i], steps[i]))
  {
    hide AgentsAfter, StepSafe, Legal;
    if steps == [] {
      StartBoxes();
      assert steps[..0] == [];
    } else {
      var n := |steps| - 1;
      LegalPrefix(steps, n);
      RunAgentsIff(steps[..n]);
      assert forall i :: 0 <= i <= n ==> steps[..n][..i] == steps[..i];
      assert steps[..n + 1] == steps;
      assert AgentsAfter(steps[..n][..n]) <==> AgentsAfter(steps[..n]);
      if AgentsAfter(steps[..n]) { LastAgents(steps); }
    }
  }

  lemma SafeSame(f: string -> Option<Turn>, g: string -> Option<Turn>, s: Step)
    requires forall a :: f(a) == g(a)
    ensures Safe(f, s) <==> Safe(g, s)
  {}

  /** Each run id belongs to one bot throughout, and is not itself the id of another bot. */
  predicate Proper(botOf: map<string, string>, s: Step) {
    match s
    case Freeze(t) => t.run in botOf && botOf[t.run] == t.bot
    case Clear(bot, run) => run == "" && bot in botOf ==> botOf[bot] == bot
    case _ => true
  }

  lemma {:induction false} ProperTurn(botOf: map<string, string>, steps: seq<Step>, a: string)
    requires forall s :: s in steps ==> Proper(botOf, s)
    ensures var t := TurnSince(steps, a, None);
            t.Some? ==> t.value.run in botOf && botOf[t.value.run] == t.value.bot
  {
    if steps != [] {
      assert steps[|steps| - 1] in steps;
      ProperTurn(botOf, steps[..|steps| - 1], a);
    }
  }

  /** If every run belongs to one bot, every step is safe. */
  lemma ProperIsSafe(botOf: map<string, string>, steps: seq<Step>, s: Step)
    requires Proper(botOf, s) && forall s' :: s' in steps ==> Proper(botOf, s')
    ensures StepSafe(steps, s)
  {
    hide TurnSince;
    forall a
      ensures var t := TurnSince(steps, a, None);
              t.Some? ==> t.value.run in botOf && botOf[t.value.run] == t.value.bot
    {
      ProperTurn(botOf, steps, a);
    }
  }

  /** In every run in which run ids belong to one bot each and fills come in time, the three
      per-run maps agree, every agent's turn is of a live run, every box holds its agent's
      turn or none, and what resolves is a turn of a live run of the bot asked for. */
  lemma RunConsistent(botOf: map<string, string>, steps: seq<Step>, current: string, bot: string, agent: string)
    requires Legal(steps) && forall s :: s in steps ==> Proper(botOf, s)
    requires forall i :: 0 <= i < |steps| ==> StepInTime(steps[..i], steps[i])
    ensures var w := After(steps).value; Shape(w) && AgentsLive(w.x) && BoxesOk(w.x)
    ensures var x := After(steps).value.x;
            match Resolved(x, current, bot, agent)
            case Some(t) => t.run in x.byRun && x.byRun[t.run].bot == t.bot && (bot != "" ==> t.bot == bot)
            case None => |Live(x, bot)| != 1
  {
    hide BoxesOk, AgentsLive, Shape, StepInTime, StepSafe, Proper, After, Resolved, Live;
    RunShape(steps);
    RunBoxesIff(steps);
    forall i | 0 <= i < |steps| ensures StepSafe(steps[..i], steps[i]) {
      assert steps[i] in steps;
      assert forall s :: s in steps[..i] ==> s in steps;
      ProperIsSafe(botOf, steps[..i], steps[i]);
    }
    RunAgentsIff(steps);
    assert steps[..|steps|] == steps;
    assert BoxesAfter(steps[..|steps|]) && AgentsAfter(steps[..|steps|]);
    Resolves(After(steps).value, current, bot, agent);
  }

  lemma Resolves(w: World, current: string, bot: string, agent: string)
    requires Shape(w) && AgentsLive(w.x)
    ensures match Resolved(w.x, current, bot, agent)
            case Some(t) => t.run in w.x.byRun && w.x.byRun[t.run].bot == t.bot && (bot != "" ==> t.bot == bot)
            case None => |Live(w.x, bot)| != 1
    ensures var mine := (t: Option<Turn>) => t.Some? && (bot == "" || t.value.bot == bot);
            && (current != "" && mine(TurnOfRun(w.x, current)) ==> Resolved(w.x, current, bot, agent) == TurnOfRun(w.x, current))
            && (!(current != "" && mine(TurnOfRun(w.x, current))) && agent != "" && mine(TurnOf(w.x, agent)) ==>
                  Resolved(w.x, current, bot, agent) == TurnOf(w.x, agent))
  {}

  /** A clear leaves nothing of what it clears: no live run, agent or box still has it. */
  lemma ClearForgets(w: World, bot: string, run: string)
    requires Shape(w) && BoxesOk(w.x)
    ensures var y := Cleared(w.x, bot, run);
            && (run != "" ==> run !in y.byRun && forall a :: a in y.byAgent ==> y.byAgent[a].run != run)
            && (run == "" && bot != "" ==> Live(y, bot) == {} && forall a :: a in y.byAgent ==> y.byAgent[a].bot != bot)
            && (forall a :: a in y.boxes && y.boxes[a] in y.held ==>
                  (run != "" ==> y.held[y.boxes[a]].run != run)
                  && (run == "" && bot != "" ==> y.held[y.boxes[a]].bot != bot))
  {
    ClearBoxes(w, bot, run);
  }

  /** If one run is frozen for two bots, the first one's agent has a turn of a run that is
      now the other's, and clearing the other leaves it with a turn that is not live. */
  lemma SharedRunDangles()
    ensures var t, u := Turn("b1", "r", "th", "lead", Some("a")), Turn("b2", "r", "th", "lead", None);
            var x := Frozen(Frozen(EMPTY, t), u);
            && AgentsLive(Frozen(EMPTY, t)) && !AgentsLive(x)
            && "a" in Cleared(x, "b2", "").byAgent && "r" !in Cleared(x, "b2", "").byRun
  {
    var t, u := Turn("b1", "r", "th", "lead", Some("a")), Turn("b2", "r", "th", "lead", None);
    var y := Frozen(Frozen(EMPTY, t), u);
    assert "b1"[1] != "b2"[1];
    assert "a" in y.byAgent && y.byAgent["a"] == t && y.byRun["r"] == u;
    assert RunsOfBot(y, "b2") == {"r"};
    assert AgentsOfBot(y, "b2") == {};
  }

  /** If a run's id is another bot's, clearing that bot drops the run and leaves its agent. */
  lemma RunNamedAsBot()
    ensures var x := Frozen(EMPTY, Turn("b1", "b2", "th", "lead", Some("a")));
            AgentsLive(x) && !AgentsLive(Cleared(x, "b2", ""))
  {
    var t := Turn("b1", "b2", "th", "lead", Some("a"));
    var x := Frozen(EMPTY, t);
    assert "b1"[1] != "b2"[1];
    assert RunsOfBot(x, "b2") == {"b2"} && AgentsOfBot(x, "b2") == {};
    var y := Cleared(x, "b2", "");
    assert "a" in y.byAgent && y.byAgent["a"] == t && "b2" !in y.byRun;
  }
}
