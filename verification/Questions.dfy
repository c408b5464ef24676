/** Owner questions of ConsentHub: src/artek_buddy/consent.py.  Each locked section is one
    atomic step.  What the store answers (whether a bot exists, a message belongs to the run,
    a message update succeeds) is a parameter. */
module Questions {
  import opened Wrappers
  import opened Text

  datatype Question = Question(bot: string, thread: string, messageId: Option<string>, answer: Option<string>, cancelled: bool)

  datatype Status = Running | WaitingInput

  /** The registered questions, and the run statuses the hub has written to the store. */
  datatype Hub = Hub(questions: map<string, Question>, status: map<string, Status>)

  datatype Reply = Answer(text: string) | Inactive | WasCancelled | TooLate

  function Begun(h: Hub, bot: string, run: string, thread: string, botExists: bool): (Hub, bool) {
    if bot == "" || run == "" || thread == "" || !botExists || run in h.questions then (h, false)
    else (h.(questions := h.questions[run := Question(bot, thread, None, None, false)]), true)
  }

  function Activated(h: Hub, run: string, message: string, botExists: bool): (Hub, bool) {
    if run !in h.questions || h.questions[run].cancelled then (h, false)
    else
      var q := h.questions[run];
      if q.messageId != None && q.messageId != Some(message) then (h, false)
      else
        var q' := q.(messageId := Some(message));
        if q.answer.Some? then (h.(questions := h.questions[run := q']), true)
        else if !botExists then (h.(questions := h.questions - {run}), false)
        else (Hub(h.questions[run := q'], h.status[run := WaitingInput]), true)
  }

  /** `belongs`: the message is in the thread and of the run; `updated`: the store accepted
      the answer. */
  function Answered(h: Hub, bot: string, run: string, message: string, answer: string, belongs: bool, updated: bool): (Hub, bool) {
    var text := Strip(answer);
    if text == "" || run !in h.questions then (h, false)
    else
      var q := h.questions[run];
      if q.cancelled || q.bot != bot || (q.messageId.None? && !belongs) then (h, false)
      else
        var q' := if q.messageId.None? then q.(messageId := Some(message)) else q;
        var h' := h.(questions := h.questions[run := q']);
        if q'.messageId != Some(message) || q.answer.Some? || !updated then (h', false)
        else (Hub(h.questions[run := q'.(answer := Some(text))], h.status[run := Running]), true)
  }

  /** The last locked section of wait_question. */
  function Finished(h: Hub, run: string): (Hub, Reply) {
    if run !in h.questions then (h, Inactive)
    else
      var q := h.questions[run];
      (h.(questions := h.questions - {run}),
       if q.answer.Some? then Answer(q.answer.value) else if q.cancelled then WasCancelled else TooLate)
  }

  function CancelledBy(h: Hub, runs: set<string>): Hub {
    h.(questions := map run | run in h.questions ::
         if run in runs then h.questions[run].(cancelled := true) else h.questions[run])
  }

  function RunSet(runIds: seq<string>): set<string> {
    set run | run in runIds
  }

  class QuestionHub {
    var questions: map<string, Question>
    var status: map<string, Status>

    ghost function State(): Hub
      reads this
    {
      Hub(questions, status)
    }

    constructor ()
      ensures State() == Hub(map[], map[])
    {
      questions, status := map[], map[];
    }

    method BeginQuestion(bot: string, run: string, thread: string, botExists: bool) returns (ok: bool)
      modifies this
      ensures (State(), ok) == Begun(old(State()), bot, run, thread, botExists)
    {
      if bot == "" || run == "" || thread == "" || !botExists { return false; }
      if run in questions { return false; }
      questions := questions[run := Question(bot, thread, None, None, false)];
      ok := true;
    }

    method ActivateQuestion(run: string, message: string, botExists: bool) returns (ok: bool)
      modifies this
      ensures (State(), ok) == Activated(old(State()), run, message, botExists)
    {
      if run !in questions || questions[run].cancelled { return false; }
      if questions[run].messageId !in {None, Some(message)} { return false; }
      questions := questions[run := questions[run].(messageId := Some(message))];
      if questions[run].answer.Some? { return true; }
      if !botExists {
        questions := questions - {run};
        assert questions == old(questions) - {run};
        return false;
      }
      status := status[run := WaitingInput];
      ok := true;
    }

    method AnswerQuestion(bot: string, run: string, message: string, answer: string, belongs: bool, updated: bool)
      returns (ok: bool)
      modifies this
      ensures (State(), ok) == Answered(old(State()), bot, run, message, answer, belongs, updated)
    {
      hide Strip;
      var text := Strip(answer);
      if text == "" { return false; }
      if run !in questions || questions[run].cancelled || questions[run].bot != bot { return false; }
      if questions[run].messageId.None? {
        if !belongs { return false; }
        questions := questions[run := questions[run].(messageId := Some(message))];
      }
      assert questions == old(questions)[run := questions[run]];
      if questions[run].messageId != Some(message) || questions[run].answer.Some? { return false; }
      if !updated { return false; }
      questions := questions[run := questions[run].(answer := Some(text))];
      assert questions == old(questions)[run := questions[run]];
      status := status[run := Running];
      ok := true;
    }

    /** The locked section that ends wait_question, with the reply it decides. */
    method FinishWait(run: string) returns (r: Reply)
      modifies this
      ensures (State(), r) == Finished(old(State()), run)
    {
      if run !in questions { return Inactive; }
      var current := questions[run];
      questions := questions - {run};
      if current.answer.Some? { return Answer(current.answer.value); }
      if current.cancelled { return WasCancelled; }
      return TooLate;
    }

    method CancelQuestions(runIds: seq<string>)
      modifies this
      ensures State() == CancelledBy(old(State()), RunSet(runIds))
    {
      for i := 0 to |runIds|
        invariant State() == CancelledBy(old(State()), RunSet(runIds[..i]))
      {
        assert runIds[..i + 1] == runIds[..i] + [runIds[i]];
        assert RunSet(runIds[..i + 1]) == RunSet(runIds[..i]) + {runIds[i]};
        if runIds[i] in questions {
          questions := questions[runIds[i] := questions[runIds[i]].(cancelled := true)];
        }
      }
      assert runIds[..|runIds|] == runIds;
    }
  }
}

/** Every interleaving of asking, activating, answering, cancelling and waiting. */
module QuestionRuns {
  import opened Wrappers
  import opened Text
  import opened Questions

  /** What a step did: `DidTie` is a refused answer that still fixed the question's message,
      `DidEnd` the end of a question by a wait or by an activation for a bot that is gone. */
  datatype Entry =
    | DidBegin(run: string, bot: string)
    | DidActivate(run: string, message: string)
    | DidTie(run: string, message: string)
    | DidAnswer(run: string, message: string, text: string)
    | DidCancel(runs: set<string>)
    | DidEnd(run: string)
    | DidNothing

  /** `waits` and `late` count the waits in flight and those that timed out but have not yet
      marked their run running. */
  datatype World = World(h: Hub, log: seq<Entry>, waits: multiset<string>, late: multiset<string>)

  datatype Step =
    | Begin(bot: string, run: string, thread: string, botExists: bool)
    | Activate(run: string, message: string, botExists: bool)
    | Reply(bot: string, run: string, message: string, answer: string, belongs: bool, updated: bool)
    | Cancel(runs: set<string>)
    | StartWait(run: string)
    | FinishWait(run: string)
    | MarkLate(run: string)

  predicate Enabled(w: World, step: Step) {
    match step
    case StartWait(run) => run in w.h.questions
    case FinishWait(run) => run in w.waits
    case MarkLate(run) => run in w.late
    case _ => true
  }

  function NextHub(h: Hub, step: Step): Hub {
    match step
    case Begin(bot, run, thread, botExists) => Begun(h, bot, run, thread, botExists).0
    case Activate(run, message, botExists) => Activated(h, run, message, botExists).0
    case Reply(bot, run, message, answer, belongs, updated) => Answered(h, bot, run, message, answer, belongs, updated).0
    case Cancel(runs) => CancelledBy(h, runs)
    case StartWait(_) => h
    case FinishWait(run) => Finished(h, run).0
    case MarkLate(run) => h.(status := h.status[run := Running])
  }

  function EntryOf(h: Hub, step: Step): Entry {
    match step
    case Begin(bot, run, thread, botExists) =>
      if Begun(h, bot, run, thread, botExists).1 then DidBegin(run, bot) else DidNothing
    case Activate(run, message, botExists) =>
      var (h', ok) := Activated(h, run, message, botExists);
      if ok then DidActivate(run, message)
      else if run in h.questions && run !in h'.questions then DidEnd(run) else DidNothing
    case Reply(bot, run, message, answer, belongs, updated) =>
      var (h', ok) := Answered(h, bot, run, message, answer, belongs, updated);
      if ok then DidAnswer(run, message, Strip(answer)) else if h' != h then DidTie(run, message) else DidNothing
    case Cancel(runs) => DidCancel(runs)
    case FinishWait(run) => if run in h.questions then DidEnd(run) else DidNothing
    case _ => DidNothing
  }

  function Next(w: World, step: Step): World
    requires Enabled(w, step)
  {
    World(NextHub(w.h, step), w.log + [EntryOf(w.h, step)],
          if step.StartWait? then w.waits + multiset{step.run}
          else if step.FinishWait? then w.waits - multiset{step.run} else w.waits,
          if step.FinishWait? && Finished(w.h, step.run).1 == TooLate then w.late + multiset{step.run}
          else if step.MarkLate? then w.late - multiset{step.run} else w.late)
  }

  predicate Runs(start: World, steps: seq<Step>, end: World)
    decreases |steps|
  {
    if steps == [] then start == end
    else Enabled(start, steps[0]) && Runs(Next(start, steps[0]), steps[1..], end)
  }

  const INITIAL := World(Hub(map[], map[]), [], multiset{}, multiset{})

  // ---------------------------------------------------------------------------
  // A run's question, from the log alone

  datatype Decision = Undecided | Said(text: string) | CalledOff

  /** The bot that was asked about, the message the question is shown as, the first thing
      decided, and whether the question has been called off, be it after an answer. */
  datatype Case = Case(bot: string, message: Option<string>, decision: Decision, cancelled: bool)

  function CaseAfter(c: Option<Case>, e: Entry, run: string): Option<Case> {
    match e
    case DidBegin(r, bot) => if r == run then Some(Case(bot, None, Undecided, false)) else c
    case DidEnd(r) => if r == run then None else c
    case DidActivate(r, m) => if r == run && c.Some? then Some(c.value.(message := Some(m))) else c
    case DidTie(r, m) => if r == run && c.Some? then Some(c.value.(message := Some(m))) else c
    case DidAnswer(r, m, text) =>
      if r == run && c.Some? then
        Some(c.value.(message := Some(m), decision := if c.value.decision == Undecided then Said(text) else c.value.decision))
      else c
    case DidCancel(runs) =>
      if run in runs && c.Some? then
        Some(c.value.(cancelled := true, decision := if c.value.decision == Undecided then CalledOff else c.value.decision))
      else c
    case DidNothing => c
  }

  /** The run's open question after this log. */
  function CaseOf(log: seq<Entry>, run: string): Option<Case> {
    if log == [] then None else CaseAfter(CaseOf(log[..|log| - 1], run), log[|log| - 1], run)
  }

  /** How many answers were accepted since the run's latest question began. */
  function Accepted(log: seq<Entry>, run: string): nat {
    if log == [] then 0
    else
      var last := log[|log| - 1];
      if last.DidBegin? && last.run == run then 0
      else Accepted(log[..|log| - 1], run) + if last.DidAnswer? && last.run == run then 1 else 0
  }

  predicate Names(e: Entry, run: string) {
    (e.DidAnswer? || e.DidActivate? || e.DidTie?) && e.run == run
  }

  /** Since the latest question began, every activation, tie and answer was for this message. */
  predicate Agree(log: seq<Entry>, run: string, message: Option<string>) {
    log != [] ==>
      var last := log[|log| - 1];
      (last.DidBegin? && last.run == run) ||
      (Agree(log[..|log| - 1], run, message) && (Names(last, run) ==> message == Some(last.message)))
  }

  lemma LogGrows(log: seq<Entry>, e: Entry, run: string)
    ensures CaseOf(log + [e], run) == CaseAfter(CaseOf(log, run), e, run)
    ensures Accepted(log + [e], run) ==
            if e.DidBegin? && e.run == run then 0
            else Accepted(log, run) + if e.DidAnswer? && e.run == run then 1 else 0
    ensures forall m :: Agree(log + [e], run, m) <==>
              (e.DidBegin? && e.run == run) || (Agree(log, run, m) && (Names(e, run) ==> m == Some(e.message)))
  {
    assert (log + [e])[..|log|] == log;
  }

  /** Until a message is known there has been no activation or answer, so any will agree. */
  lemma {:induction false} AgreeAny(log: seq<Entry>, run: string, m: Option<string>)
    requires Agree(log, run, None)
    ensures Agree(log, run, m)
    decreases |log|
  {
    if log != [] {
      var last := log[|log| - 1];
      if !(last.DidBegin? && last.run == run) { AgreeAny(log[..|log| - 1], run, m); }
    }
  }

  // ---------------------------------------------------------------------------
  // The invariant

  /** What the hub keeps of the run is what the log says. */
  ghost predicate RunOk(h: Hub, log: seq<Entry>, run: string) {
    var c := CaseOf(log, run);
    && (run in h.questions <==> c.Some?)
    && Accepted(log, run) <= 1
    && (Accepted(log, run) == 1 && c.Some? ==> c.value.decision.Said?)
    && (c.Some? ==>
          var q := h.questions[run];
          && q.bot == c.value.bot && q.messageId == c.value.message && q.cancelled == c.value.cancelled
          && c.value.decision == (if q.answer.Some? then Said(q.answer.value) else if q.cancelled then CalledOff else Undecided)
          && (q.answer.Some? ==> q.messageId.Some? && Accepted(log, run) == 1 && run in h.status && h.status[run] == Running)
          && Agree(log, run, q.messageId))
    && (Accepted(log, run) == 1 ==> run in h.status && h.status[run] == Running)
  }

  ghost predicate Inv(w: World) {
    forall run :: RunOk(w.h, w.log, run)
  }

  lemma StepKeeps(w: World, step: Step)
    requires Inv(w) && Enabled(w, step)
    ensures Inv(Next(w, step))
  {
    hide RunOk, NextHub, EntryOf;
    forall run ensures RunOk(Next(w, step).h, Next(w, step).log, run) {
      RunStep(w.h, w.log, step, run);
    }
  }

  lemma RunStep(h: Hub, log: seq<Entry>, step: Step, run: string)
    requires RunOk(h, log, run)
    ensures RunOk(NextHub(h, step), log + [EntryOf(h, step)], run)
  {
    hide CaseOf, Accepted, Agree, Strip;
    var e := EntryOf(h, step);
    LogGrows(log, e, run);
    if CaseOf(log, run).Some? && CaseOf(log, run).value.message.None? && Names(e, run) {
      AgreeAny(log, run, Some(e.message));
    }
    if step.Reply? { ReplyStep(h, step); }
  }

  /** What a reply leaves of the hub. */
  lemma ReplyStep(h: Hub, step: Step)
    requires step.Reply?
    ensures var h', e := NextHub(h, step), EntryOf(h, step);
            && (e.DidNothing? ==> h' == h)
            && (e.DidTie? ==> step.run in h.questions && h.questions[step.run].messageId.None?
                              && h' == h.(questions := h.questions[step.run := h.questions[step.run].(messageId := Some(step.message))]))
  {
    hide Strip;
    if step.run in h.questions && h.questions[step.run].messageId.Some? {
      assert h.questions[step.run := h.questions[step.run]] == h.questions;
    }
  }

  lemma {:induction false} RunKeeps(start: World, steps: seq<Step>, end: World)
    requires Inv(start) && Runs(start, steps, end)
    ensures Inv(end)
    decreases |steps|
  {
    hide Inv, Next, Enabled;
    if steps != [] {
      StepKeeps(start, steps[0]);
      RunKeeps(Next(start, steps[0]), steps[1..], end);
    }
  }

  lemma EveryRun(steps: seq<Step>, w: World)
    requires Runs(INITIAL, steps, w)
    ensures Inv(w)
  {
    RunKeeps(INITIAL, steps, w);
  }

  // ---------------------------------------------------------------------------
  // When each operation succeeds, by the log and the step alone

  /** A question begins exactly if the names are given, the bot exists, and none is open. */
  lemma BeginIff(steps: seq<Step>, w: World, s: Step)
    requires Runs(INITIAL, steps, w) && s.Begin?
    ensures Next(w, s).log == w.log + [DidBegin(s.run, s.bot)] <==>
            s.bot != "" && s.run != "" && s.thread != "" && s.botExists && CaseOf(w.log, s.run).None?
  {
    hide Runs, Inv, CaseOf, RunOk;
    EveryRun(steps, w);
    OpenIff(w, s.run);
    LastEntry(w, s, DidBegin(s.run, s.bot));
  }

  /** May the question be shown as this message? */
  predicate Fits(c: Case, message: string) {
    c.message == None || c.message == Some(message)
  }

  /** An activation succeeds exactly for an open question that has not been called off, even
      after an answer, and is not shown as another message, if it is answered or its bot
      exists; if it is not answered, the run then waits for input.  It ends the question if
      the bot is gone. */
  lemma ActivateIff(steps: seq<Step>, w: World, s: Step)
    requires Runs(INITIAL, steps, w) && s.Activate?
    ensures var c, w' := CaseOf(w.log, s.run), Next(w, s);
            var may := c.Some? && !c.value.cancelled && Fits(c.value, s.message);
            && (w'.log == w.log + [DidActivate(s.run, s.message)] <==> may && (c.value.decision.Said? || s.botExists))
            && (w'.log == w.log + [DidEnd(s.run)] <==> may && !c.value.decision.Said? && !s.botExists)
            && (may && c.value.decision == Undecided && s.botExists ==>
                  s.run in w'.h.status && w'.h.status[s.run] == WaitingInput)
  {
    hide Runs, Inv, CaseOf;
    EveryRun(steps, w);
    OpenIff(w, s.run);
    LastEntry(w, s, DidActivate(s.run, s.message));
    LastEntry(w, s, DidEnd(s.run));
  }

  /** An answer is accepted exactly if its text is not blank, a question of that bot is open
      for the run with nothing decided, the message is the one it is shown as or, if none is
      known, one of the run, and the store takes it.  A wait that ends next returns the text. */
  lemma ReplyIff(steps: seq<Step>, w: World, s: Step)
    requires Runs(INITIAL, steps, w) && s.Reply?
    ensures var c, text, w' := CaseOf(w.log, s.run), Strip(s.answer), Next(w, s);
            && (w'.log == w.log + [DidAnswer(s.run, s.message, text)] <==>
                  && text != "" && c.Some? && c.value.bot == s.bot && c.value.decision == Undecided
                  && (if c.value.message.Some? then c.value.message == Some(s.message) else s.belongs)
                  && s.updated)
            && (w'.log == w.log + [DidAnswer(s.run, s.message, text)] ==> Finished(w'.h, s.run).1 == Answer(text))
            && (w'.log == w.log + [DidTie(s.run, s.message)] <==>
                  && text != "" && c.Some? && c.value.bot == s.bot && c.value.decision == Undecided
                  && c.value.message.None? && s.belongs && !s.updated)
  {
    hide Runs, Inv, CaseOf, Strip;
    EveryRun(steps, w);
    OpenIff(w, s.run);
    LastEntry(w, s, DidAnswer(s.run, s.message, Strip(s.answer)));
    LastEntry(w, s, DidTie(s.run, s.message));
    ReplyStep(w.h, s);
    if s.run in w.h.questions && w.h.questions[s.run].messageId.None? {
      TieChanges(w.h, s);
    }
  }

  lemma TieChanges(h: Hub, s: Step)
    requires s.Reply? && s.run in h.questions && h.questions[s.run].messageId.None?
    ensures h.(questions := h.questions[s.run := h.questions[s.run].(messageId := Some(s.message))]) != h
  {
    var h' := h.(questions := h.questions[s.run := h.questions[s.run].(messageId := Some(s.message))]);
    assert h'.questions[s.run] != h.questions[s.run];
  }

  lemma LastEntry(w: World, s: Step, e: Entry)
    requires Enabled(w, s)
    ensures Next(w, s).log == w.log + [e] <==> EntryOf(w.h, s) == e
  {
    hide EntryOf;
    assert (w.log + [EntryOf(w.h, s)])[|w.log|] == EntryOf(w.h, s);
    assert (w.log + [e])[|w.log|] == e;
  }

  lemma OpenIff(w: World, run: string)
    requires Inv(w)
    ensures run in w.h.questions <==> CaseOf(w.log, run).Some?
    ensures run in w.h.questions ==>
              var q, c := w.h.questions[run], CaseOf(w.log, run).value;
              && q.bot == c.bot && q.messageId == c.message && q.cancelled == c.cancelled
              && (c.decision == Undecided <==> q.answer.None? && !q.cancelled)
              && (c.decision == CalledOff <==> q.answer.None? && q.cancelled)
              && (q.answer.Some? <==> c.decision.Said?) && (q.answer.Some? ==> q.messageId.Some?)
  {
    hide CaseOf, Accepted, Agree;
    assert RunOk(w.h, w.log, run);
  }

  /** In every run, a wait that ends on an open question returns the first thing decided since
      it began: the accepted answer, word for word, or the cancellation, or a timeout if
      neither came.  At most one answer was accepted, and all activations and answers were for
      one message. */
  lemma WaitOutcome(steps: seq<Step>, w: World, run: string)
    requires Runs(INITIAL, steps, w)
    ensures var c := CaseOf(w.log, run);
            Finished(w.h, run).1 ==
            if c.None? then Inactive
            else match c.value.decision
                 case Said(text) => Answer(text)
                 case CalledOff => WasCancelled
                 case Undecided => TooLate
    ensures Accepted(w.log, run) <= 1
    ensures CaseOf(w.log, run).Some? ==> Agree(w.log, run, CaseOf(w.log, run).value.message)
  {
    hide Runs, CaseOf, Agree, Accepted;
    EveryRun(steps, w);
    assert RunOk(w.h, w.log, run);
  }

  /** In every run, once an answer is accepted the run stays running, whatever activations
      come late, until a new question begins for it. */
  lemma NeverBackToWaiting(steps: seq<Step>, w: World, run: string)
    requires Runs(INITIAL, steps, w) && Accepted(w.log, run) > 0
    ensures run in w.h.status && w.h.status[run] == Running
  {
    hide Runs, CaseOf, Agree, Accepted;
    EveryRun(steps, w);
    assert RunOk(w.h, w.log, run);
  }
}
