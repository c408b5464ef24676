/** Every interleaving of publishers and subscribers of the hub. */
module EventHubRuns {
  import opened EventHub

  // ---------------------------------------------------------------------------
  // The run model

  datatype Item = Heartbeat | Gap | Yield(event: Event)

  datatype Phase = Greeted | Replaying | Live

  /** A subscription in progress.  `regAt` and `snapAt` are the lengths of the publication
      log at registration and at the replay snapshot, `picks` the positions in the channel's
      history of the events taken live, `dropped` how many were pushed out of the queue. */
  datatype Sub = Sub(channel: string, after: string, replay: bool, phase: Phase, pending: seq<Event>, out: seq<Item>,
                     regAt: nat, snapAt: nat, picks: seq<nat>, dropped: nat)

  datatype World = World(hub: Hub, log: seq<Event>, subs: map<nat, Sub>)

  datatype Step =
    | Publish(e: Event)
    | Register(s: nat, channel: string, after: string, replay: bool)
    | Snapshot(s: nat)
    | Emit(s: nat)
    | Take(s: nat)
    | Beat(s: nat)
    | Close(s: nat)

  predicate Enabled(w: World, step: Step) {
    match step
    case Publish(_) => true
    case Register(s, _, _, _) => s !in w.subs && s !in w.hub.queues
    case Snapshot(s) => s in w.subs && w.subs[s].phase == Greeted
    case Emit(s) => s in w.subs && w.subs[s].phase == Replaying
    case Take(s) => s in w.subs && s in w.hub.queues && w.subs[s].phase == Live && w.hub.queues[s] != []
    case Beat(s) => s in w.subs && w.subs[s].phase == Live
    case Close(s) => s in w.subs
  }

  /** How many events a queue pushes out when it receives these. */
  function Overflow(queue: seq<Event>, es: seq<Event>): nat {
    if |queue| + |es| <= QUEUE_SIZE then 0 else |queue| + |es| - QUEUE_SIZE
  }

  function Next(w: World, step: Step): World
    requires Enabled(w, step)
  {
    match step
    case Publish(e) =>
      World(Published(w.hub, e), w.log + [e],
            map s | s in w.subs ::
              if s in w.hub.queues then
                var u := w.subs[s];
                u.(dropped := u.dropped + Overflow(w.hub.queues[s], Deliveries(e, u.channel)))
              else w.subs[s])
    case Register(s, channel, after, replay) =>
      w.(hub := Registered(w.hub, channel, s),
         subs := w.subs[s := Sub(channel, after, replay, Greeted, [], [Heartbeat], |w.log|, |w.log|, [], 0)])
    case Snapshot(s) =>
      var u := w.subs[s];
      var items := w.hub.BufOf(u.channel);
      var u' :=
        if !u.replay then u.(phase := Live)
        else if u.after != "" && !HasId(items, u.after) then u.(phase := Live, out := u.out + [Gap])
        else u.(phase := Replaying, pending := ReplayOf(items, u.after));
      w.(subs := w.subs[s := u'.(snapAt := |w.log|)])
    case Emit(s) =>
      var u := w.subs[s];
      var u' := if u.pending == [] then u.(phase := Live)
                else u.(pending := u.pending[1..], out := u.out + [Yield(u.pending[0])]);
      w.(subs := w.subs[s := u'])
    case Take(s) =>
      var u, queue := w.subs[s], w.hub.queues[s];
      var head := |Channel(w.log, u.channel)| - |queue|;
      World(w.hub.(queues := w.hub.queues[s := queue[1..]]), w.log,
            w.subs[s := u.(out := u.out + [Yield(queue[0])], picks := u.picks + [if head < 0 then 0 else head])])
    case Beat(s) =>
      var u := w.subs[s];
      w.(subs := w.subs[s := u.(out := u.out + [Heartbeat])])
    case Close(s) =>
      w.(hub := Discarded(w.hub, w.subs[s].channel, s), subs := w.subs - {s})
  }

  /** The worlds of every run, whatever the interleaving. */
  predicate Runs(start: World, steps: seq<Step>, end: World)
    decreases |steps|
  {
    if steps == [] then start == end
    else Enabled(start, steps[0]) && Runs(Next(start, steps[0]), steps[1..], end)
  }

  function Initial(size: nat): World {
    World(Hub(size, map[], map[], map[]), [], map[])
  }

  // ---------------------------------------------------------------------------
  // History, and what a subscriber should see of it

  /** What one publication puts on a channel; an event of the bot named "*" reaches the
      workspace channel twice. */
  function Deliveries(e: Event, channel: string): seq<Event> {
    (if e.bot == channel then [e] else []) + (if channel == WORKSPACE then [e] else [])
  }

  function Channel(log: seq<Event>, channel: string): seq<Event> {
    if log == [] then [] else Channel(log[..|log| - 1], channel) + Deliveries(log[|log| - 1], channel)
  }

  /** The events of one bot. */
  function Of(log: seq<Event>, bot: string): seq<Event> {
    if log == [] then []
    else Of(log[..|log| - 1], bot) + if log[|log| - 1].bot == bot then [log[|log| - 1]] else []
  }

  function Events(out: seq<Item>): seq<Event> {
    if out == [] then []
    else Events(out[..|out| - 1]) + if out[|out| - 1].Yield? then [out[|out| - 1].event] else []
  }

  predicate Bounded(picks: seq<nat>, n: nat) {
    forall i :: 0 <= i < |picks| ==> picks[i] < n
  }

  function At(history: seq<Event>, picks: seq<nat>): (es: seq<Event>)
    requires Bounded(picks, |history|)
    ensures |es| == |picks| && forall i :: 0 <= i < |picks| ==> es[i] == history[picks[i]]
  {
    seq(|picks|, i requires 0 <= i < |picks| => history[picks[i]])
  }

  /** The events replayed by a snapshot of this log, and whether there was a gap. */
  function Window(u: Sub, size: nat, log: seq<Event>): seq<Event> {
    var seen := Of(log, u.channel);
    seen[Oldest(|seen|, size)..]
  }

  /** Of n events, the position of the oldest one among the last `size`. */
  function Oldest(n: nat, size: nat): (i: nat)
    ensures i <= n
  {
    if n <= size then 0 else n - size
  }

  lemma RingIsWindow(u: Sub, size: nat, log: seq<Event>)
    ensures LastN(Of(log, u.channel), size) == Window(u, size, log)
  {
    RingHolds(Of(log, u.channel), size);
  }

  /** The ring holds the last `size` events, or all there are. */
  lemma RingHolds(events: seq<Event>, size: nat)
    ensures |LastN(events, size)| == if |events| < size then |events| else size
    ensures LastN(events, size) == events[Oldest(|events|, size)..]
  {}

  predicate GapAt(u: Sub, size: nat, log: seq<Event>) {
    u.replay && u.after != "" && !HasId(Window(u, size, log), u.after)
  }

  function Wanted(u: Sub, size: nat, log: seq<Event>): seq<Event> {
    if !u.replay || GapAt(u, size, log) then [] else ReplayOf(Window(u, size, log), u.after)
  }

  // ---------------------------------------------------------------------------
  // The invariant

  predicate Increasing(picks: seq<nat>, lo: nat, hi: nat) {
    && (forall i :: 0 <= i < |picks| ==> lo <= picks[i] < hi)
    && (forall i, j :: 0 <= i < j < |picks| ==> picks[i] < picks[j])
  }

  predicate Suffix(queue: seq<Event>, history: seq<Event>) {
    |queue| <= |history| && queue == history[|history| - |queue|..]
  }

  /** A subscriber's queue is a contiguous suffix of its channel's history, of bounded
      length; taken, dropped and queued events account for all since registration. */
  ghost predicate QueueOk(u: Sub, log: seq<Event>, queue: seq<Event>) {
    var history := Channel(log, u.channel);
    && u.regAt <= |log| && |queue| <= QUEUE_SIZE && Suffix(queue, history)
    && var reg, head := |Channel(log[..u.regAt], u.channel)|, |history| - |queue|;
    && reg <= head && Increasing(u.picks, reg, head)
    && |u.picks| + u.dropped == head - reg
  }

  /** The output opens with a heartbeat; the gap marker, if there is one, comes right after
      it, before any event, and there is no other. */
  predicate Marked(out: seq<Item>, gap: bool) {
    && out != [] && out[0] == Heartbeat && (gap ==> |out| > 1)
    && forall i :: 0 <= i < |out| ==> (out[i] == Gap <==> gap && i == 1)
  }

  lemma MarkedMore(out: seq<Item>, gap: bool, x: Item)
    requires Marked(out, gap) && x != Gap
    ensures Marked(out + [x], gap)
  {}

  ghost predicate OutOk(u: Sub, size: nat, log: seq<Event>) {
    var history := Channel(log, u.channel);
    && Bounded(u.picks, |history|)
    && (u.phase == Greeted ==> u.out == [Heartbeat] && u.pending == [])
    && (u.phase != Greeted ==>
          && u.regAt <= u.snapAt <= |log|
          && Marked(u.out, GapAt(u, size, log[..u.snapAt]))
          && Events(u.out) + u.pending == Wanted(u, size, log[..u.snapAt]) + At(history, u.picks))
    && (u.phase != Live ==> u.picks == [])
    && (u.phase == Live ==> u.pending == [])
  }

  ghost predicate Inv(w: World) {
    && w.hub.queues.Keys == w.subs.Keys
    && (forall b :: w.hub.BufOf(b) == LastN(Of(w.log, b), w.hub.size))
    && (forall c, s :: s in w.hub.SubsOf(c) <==> s in w.subs && w.subs[s].channel == c)
    && (forall s :: s in w.subs ==> QueueOk(w.subs[s], w.log, w.hub.queues[s]))
    && (forall s :: s in w.subs ==> OutOk(w.subs[s], w.hub.size, w.log))
  }

  lemma LogAppend(log: seq<Event>, e: Event, c: string)
    ensures Channel(log + [e], c) == Channel(log, c) + Deliveries(e, c)
    ensures Of(log + [e], c) == Of(log, c) + if e.bot == c then [e] else []
  {
    var l := log + [e];
    assert l[..|l| - 1] == log && l[|l| - 1] == e;
  }

  lemma EventsAppend(out: seq<Item>, x: Item)
    ensures Events(out + [x]) == Events(out) + if x.Yield? then [x.event] else []
    ensures forall y :: y in out + [x] <==> y in out || y == x
  {
    var o := out + [x];
    assert o[..|o| - 1] == out && o[|o| - 1] == x;
  }

  /** Pushing onto a queue that is a suffix of history keeps it one. */
  lemma PushSuffix(history: seq<Event>, queue: seq<Event>, e: Event)
    requires |queue| <= QUEUE_SIZE && Suffix(queue, history)
    ensures Suffix(Push(queue, e), history + [e])
    ensures |Push(queue, e)| == if |queue| < QUEUE_SIZE then |queue| + 1 else QUEUE_SIZE
  {
    if |queue| == QUEUE_SIZE {
      var k := |history| - |queue|;
      assert queue[1..] == history[k + 1..];
      assert (history + [e])[k + 1..] == history[k + 1..] + [e];
    }
  }

  function PushAll(queue: seq<Event>, es: seq<Event>): seq<Event>
    decreases |es|
  {
    if es == [] then queue else PushAll(Push(queue, es[0]), es[1..])
  }

  lemma {:induction false} PushAllSuffix(history: seq<Event>, queue: seq<Event>, es: seq<Event>)
    requires |queue| <= QUEUE_SIZE && Suffix(queue, history)
    ensures Suffix(PushAll(queue, es), history + es)
    ensures |PushAll(queue, es)| == |queue| + |es| - Overflow(queue, es) <= QUEUE_SIZE
    decreases |es|
  {
    hide Push, Suffix, PushAll, Overflow;
    PushAllCons(queue, es);
    if es == [] {
      assert history + es == history;
    } else {
      var q1 := Push(queue, es[0]);
      PushSuffix(history, queue, es[0]);
      OverflowCons(queue, q1, es);
      PushAllSuffix(history + [es[0]], q1, es[1..]);
      assert history + [es[0]] + es[1..] == history + es;
    }
  }

  lemma PushAllCons(queue: seq<Event>, es: seq<Event>)
    ensures PushAll(queue, es) == if es == [] then queue else PushAll(Push(queue, es[0]), es[1..])
    ensures |queue| <= QUEUE_SIZE && es == [] ==> Overflow(queue, es) == 0
  {}

  lemma OverflowCons(queue: seq<Event>, q1: seq<Event>, es: seq<Event>)
    requires |queue| <= QUEUE_SIZE && es != []
    requires |q1| == if |queue| < QUEUE_SIZE then |queue| + 1 else QUEUE_SIZE
    ensures |queue| + |es| - Overflow(queue, es) == |q1| + |es[1..]| - Overflow(q1, es[1..])
  {}

  lemma PushTwice(queue: seq<Event>, e: Event)
    ensures PushAll(queue, []) == queue
    ensures PushAll(queue, [e]) == Push(queue, e)
    ensures PushAll(queue, [e, e]) == Push(Push(queue, e), e)
  {
    hide Push;
    assert [e][1..] == [] && [e, e][1..] == [e];
    assert PushAll(Push(queue, e), [e]) == PushAll(Push(Push(queue, e), e), []);
  }

  /** A publication reaches exactly the queues registered on its channels. */
  lemma PublishQueues(w: World, e: Event, s: nat)
    requires Inv(w) && s in w.subs
    ensures Published(w.hub, e).queues.Keys == w.subs.Keys
    ensures Published(w.hub, e).queues[s] == PushAll(w.hub.queues[s], Deliveries(e, w.subs[s].channel))
  {
    hide QueueOk, OutOk, LastN, Push, Of, Channel;
    var c, q := w.subs[s].channel, w.hub.queues[s];
    var h1 := w.hub.(buf := w.hub.buf[e.bot := LastN(w.hub.BufOf(e.bot) + [e], w.hub.size)]);
    assert s in h1.SubsOf(e.bot) <==> c == e.bot by { assert h1.SubsOf(e.bot) == w.hub.SubsOf(e.bot); }
    assert s in h1.SubsOf(WORKSPACE) <==> c == WORKSPACE by { assert h1.SubsOf(WORKSPACE) == w.hub.SubsOf(WORKSPACE); }
    PushTwice(q, e);
    hide PushAll;
    assert [] + [e] == [e] && [e] + [] == [e] && [e] + [e] == [e, e];
  }

  lemma RingGrows(events: seq<Event>, e: Event, n: nat)
    ensures LastN(LastN(events, n) + [e], n) == LastN(events + [e], n)
  {}

  lemma PublishQueueOk(u: Sub, u': Sub, log: seq<Event>, e: Event, queue: seq<Event>)
    requires QueueOk(u, log, queue)
    requires u' == u.(dropped := u.dropped + Overflow(queue, Deliveries(e, u.channel)))
    ensures QueueOk(u', log + [e], PushAll(queue, Deliveries(e, u.channel)))
  {
    hide Channel, Deliveries, PushAll, Suffix, Overflow;
    LogAppend(log, e, u.channel);
    PushAllSuffix(Channel(log, u.channel), queue, Deliveries(e, u.channel));
    assert (log + [e])[..u.regAt] == log[..u.regAt];
  }

  lemma PublishOutOk(u: Sub, u': Sub, size: nat, log: seq<Event>, e: Event)
    requires OutOk(u, size, log) && u' == u.(dropped := u'.dropped)
    ensures OutOk(u', size, log + [e])
  {
    hide Channel, Deliveries, Wanted, GapAt;
    var history, d := Channel(log, u.channel), Deliveries(e, u.channel);
    LogAppend(log, e, u.channel);
    assert At(history + d, u.picks) == At(history, u.picks);
    if u.phase != Greeted {
      assert (log + [e])[..u.snapAt] == log[..u.snapAt];
      SameWanted(u, u', size, log);
    }
  }

  lemma PublishSub(w: World, e: Event, s: nat)
    requires Inv(w) && s in w.subs
    ensures var w' := Next(w, Publish(e));
            && s in w'.hub.queues && s in w'.subs
            && QueueOk(w'.subs[s], w'.log, w'.hub.queues[s]) && OutOk(w'.subs[s], w'.hub.size, w'.log)
  {
    hide Published, Inv, QueueOk, OutOk, Deliveries, PushAll;
    var w' := Next(w, Publish(e));
    var u := w.subs[s];
    var queue := InvAt(w, s);
    PublishQueues(w, e, s);
    PublishSize(w.hub, e);
    PublishQueueOk(u, w'.subs[s], w.log, e, queue);
    PublishOutOk(u, w'.subs[s], w.hub.size, w.log, e);
  }

  lemma PublishSize(h: Hub, e: Event)
    ensures Published(h, e).size == h.size && Published(h, e).subs == h.subs
    ensures Published(h, e).buf == h.buf[e.bot := LastN(h.BufOf(e.bot) + [e], h.size)]
  {}

  lemma InvAt(w: World, s: nat) returns (queue: seq<Event>)
    requires Inv(w) && s in w.subs
    ensures s in w.hub.queues && queue == w.hub.queues[s]
    ensures QueueOk(w.subs[s], w.log, queue) && OutOk(w.subs[s], w.hub.size, w.log)
    ensures w.hub.BufOf(w.subs[s].channel) == LastN(Of(w.log, w.subs[s].channel), w.hub.size)
  {
    queue := w.hub.queues[s];
  }

  lemma PublishKeeps(w: World, e: Event)
    requires Inv(w)
    ensures Inv(Next(w, Publish(e)))
  {
    hide QueueOk, OutOk, LastN, Published, Of;
    var w' := Next(w, Publish(e));
    PublishSize(w.hub, e);
    forall b ensures w'.hub.BufOf(b) == LastN(Of(w'.log, b), w'.hub.size) {
      LogAppend(w.log, e, b);
      if b == e.bot { RingGrows(Of(w.log, b), e, w.hub.size); } else { assert Of(w.log, b) + [] == Of(w.log, b); }
    }
    if s :| s in w.subs { PublishQueues(w, e, s); } else { PublishNobody(w, e); }
    forall s | s in w'.subs
      ensures QueueOk(w'.subs[s], w'.log, w'.hub.queues[s]) && OutOk(w'.subs[s], w'.hub.size, w'.log)
    {
      PublishSub(w, e, s);
    }
    forall c, s ensures s in w'.hub.SubsOf(c) <==> s in w'.subs && w'.subs[s].channel == c {
      assert w'.hub.SubsOf(c) == w.hub.SubsOf(c);
    }
  }

  lemma PublishNobody(w: World, e: Event)
    ensures Published(w.hub, e).queues.Keys == w.hub.queues.Keys
  {}

  /** One subscriber's step that leaves the hub's channels alone. */
  lemma LocalKeeps(w: World, w': World, s: nat)
    requires Inv(w) && s in w.subs && w'.log == w.log
    requires w'.hub == w.hub.(queues := w'.hub.queues) && w'.hub.queues.Keys == w.hub.queues.Keys
    requires w'.subs.Keys == w.subs.Keys && w'.subs[s].channel == w.subs[s].channel
    requires forall t :: t in w.subs && t != s ==> w'.subs[t] == w.subs[t] && w'.hub.queues[t] == w.hub.queues[t]
    requires QueueOk(w'.subs[s], w.log, w'.hub.queues[s]) && OutOk(w'.subs[s], w.hub.size, w.log)
    ensures Inv(w')
  {
    hide QueueOk, OutOk, LastN, Of;
    forall c, t ensures t in w'.hub.SubsOf(c) <==> t in w'.subs && w'.subs[t].channel == c {
      assert w'.hub.SubsOf(c) == w.hub.SubsOf(c);
    }
    forall b ensures w'.hub.BufOf(b) == LastN(Of(w'.log, b), w'.hub.size) {
      assert w'.hub.BufOf(b) == w.hub.BufOf(b);
    }
  }

  lemma RegisterKeeps(w: World, step: Step)
    requires Inv(w) && step.Register? && Enabled(w, step)
    ensures Inv(Next(w, step))
  {
    hide QueueOk, OutOk, LastN, Of;
    var w' := Next(w, step);
    NewSub(w'.subs[step.s], w.hub.size, w.log);
    forall b ensures w'.hub.BufOf(b) == LastN(Of(w'.log, b), w'.hub.size) {
      assert w'.hub.BufOf(b) == w.hub.BufOf(b);
    }
    forall c, t ensures t in w'.hub.SubsOf(c) <==> t in w'.subs && w'.subs[t].channel == c {
      assert t in w.hub.SubsOf(c) <==> t in w.subs && w.subs[t].channel == c;
    }
  }

  lemma NewSub(u: Sub, size: nat, log: seq<Event>)
    requires u == Sub(u.channel, u.after, u.replay, Greeted, [], [Heartbeat], |log|, |log|, [], 0)
    ensures QueueOk(u, log, []) && OutOk(u, size, log)
  {
    hide Channel;
    assert log[..|log|] == log;
  }

  lemma CloseKeeps(w: World, s: nat)
    requires Inv(w) && s in w.subs
    ensures Inv(Next(w, Close(s)))
  {
    hide LastN, Of, QueueOk, OutOk;
    var w' := Next(w, Close(s));
    forall b ensures w'.hub.BufOf(b) == LastN(Of(w'.log, b), w'.hub.size) {
      assert w'.hub.BufOf(b) == w.hub.BufOf(b);
    }
    forall c, t ensures t in w'.hub.SubsOf(c) <==> t in w'.subs && w'.subs[t].channel == c {
      assert t in w.hub.SubsOf(c) <==> t in w.subs && w.subs[t].channel == c;
    }
  }

  lemma SameWanted(u: Sub, u': Sub, size: nat, log: seq<Event>)
    requires u'.channel == u.channel && u'.after == u.after && u'.replay == u.replay && u'.snapAt == u.snapAt
    ensures u.snapAt <= |log| ==>
              && Wanted(u', size, log[..u.snapAt]) == Wanted(u, size, log[..u.snapAt])
              && GapAt(u', size, log[..u.snapAt]) == GapAt(u, size, log[..u.snapAt])
  {}

  /** The queue part of the invariant sees only some of the subscription. */
  lemma SameQueue(u: Sub, u': Sub, log: seq<Event>, queue: seq<Event>)
    requires QueueOk(u, log, queue)
    requires u' == u.(phase := u'.phase, pending := u'.pending, out := u'.out, snapAt := u'.snapAt)
    ensures QueueOk(u', log, queue)
  {
    hide Channel, Suffix;
  }

  lemma SnapshotOutOk(u: Sub, u': Sub, size: nat, log: seq<Event>)
    requires OutOk(u, size, log) && u.phase == Greeted && u.regAt <= |log|
    requires u' == (if !u.replay then u.(phase := Live)
                    else if GapAt(u, size, log) then u.(phase := Live, out := u.out + [Gap])
                    else u.(phase := Replaying, pending := ReplayOf(Window(u, size, log), u.after))).(snapAt := |log|)
    ensures OutOk(u', size, log)
  {
    hide Channel, Window, ReplayOf, HasId, Events, At;
    EventsAppend(u.out, Gap);
    NoEvents();
    var now := log[..u'.snapAt];
    assert now == log;
    SameWindow(u, u', size, log);
    assert GapAt(u', size, now) == GapAt(u, size, log);
    assert At(Channel(log, u.channel), u'.picks) == [];
    assert Wanted(u', size, now) + [] == Wanted(u', size, now) == u'.pending;
    assert Events(u'.out) + u'.pending == u'.pending;
  }

  lemma NoEvents()
    ensures Events([Heartbeat]) == []
  {
    EventsAppend([], Heartbeat);
    assert [] + [Heartbeat] == [Heartbeat];
  }

  lemma SameWindow(u: Sub, u': Sub, size: nat, log: seq<Event>)
    requires u'.channel == u.channel
    ensures Window(u', size, log) == Window(u, size, log)
  {}

  lemma SnapshotKeeps(w: World, s: nat)
    requires Inv(w) && Enabled(w, Snapshot(s))
    ensures Inv(Next(w, Snapshot(s)))
  {
    hide Inv, LastN, Of, QueueOk, OutOk, HasId, ReplayOf;
    var w' := Next(w, Snapshot(s));
    var queue := InvAt(w, s);
    var u, u' := w.subs[s], w'.subs[s];
    RegBound(u, w.log, queue);
    RingIsWindow(u, w.hub.size, w.log);
    SnapshotOutOk(u, u', w.hub.size, w.log);
    SameQueue(u, u', w.log, queue);
    LocalKeeps(w, w', s);
  }

  lemma RegBound(u: Sub, log: seq<Event>, queue: seq<Event>)
    requires QueueOk(u, log, queue)
    ensures u.regAt <= |log|
  {}

  lemma EmitOutOk(u: Sub, u': Sub, size: nat, log: seq<Event>)
    requires OutOk(u, size, log) && u.phase == Replaying
    requires u' == if u.pending == [] then u.(phase := Live)
                   else u.(pending := u.pending[1..], out := u.out + [Yield(u.pending[0])])
    ensures OutOk(u', size, log)
  {
    hide Channel, Wanted, GapAt, Events, Marked;
    SameWanted(u, u', size, log);
    if u.pending != [] {
      MarkedMore(u.out, GapAt(u, size, log[..u.snapAt]), Yield(u.pending[0]));
      EventsAppend(u.out, Yield(u.pending[0]));
      assert Events(u.out) + u.pending == Events(u'.out) + u'.pending;
    }
  }

  lemma EmitKeeps(w: World, s: nat)
    requires Inv(w) && Enabled(w, Emit(s))
    ensures Inv(Next(w, Emit(s)))
  {
    hide Inv, QueueOk, OutOk;
    var w' := Next(w, Emit(s));
    var queue := InvAt(w, s);
    EmitOutOk(w.subs[s], w'.subs[s], w.hub.size, w.log);
    SameQueue(w.subs[s], w'.subs[s], w.log, queue);
    LocalKeeps(w, w', s);
  }

  lemma TakeOk(u: Sub, u': Sub, size: nat, log: seq<Event>, queue: seq<Event>, head: nat)
    requires QueueOk(u, log, queue) && OutOk(u, size, log) && u.phase == Live && queue != []
    requires head == |Channel(log, u.channel)| - |queue|
    requires u' == u.(out := u.out + [Yield(queue[0])], picks := u.picks + [head])
    ensures QueueOk(u', log, queue[1..]) && OutOk(u', size, log)
  {
    hide Channel, Wanted, GapAt, Events, Marked;
    var history := Channel(log, u.channel);
    MarkedMore(u.out, GapAt(u, size, log[..u.snapAt]), Yield(queue[0]));
    EventsAppend(u.out, Yield(queue[0]));
    SameWanted(u, u', size, log);
    assert queue[0] == history[head];
    assert At(history, u'.picks) == At(history, u.picks) + [queue[0]];
    var wanted, taken := Wanted(u, size, log[..u.snapAt]), At(history, u.picks);
    assert wanted + taken + [queue[0]] == wanted + (taken + [queue[0]]);
    assert Events(u.out) + [] == Events(u.out) && Events(u'.out) + [] == Events(u'.out);
  }

  lemma TakeKeeps(w: World, s: nat)
    requires Inv(w) && Enabled(w, Take(s))
    ensures Inv(Next(w, Take(s)))
  {
    hide Inv, QueueOk, OutOk, Channel;
    var w' := Next(w, Take(s));
    var queue := InvAt(w, s);
    HeadBound(w.subs[s], w.log, queue);
    TakeOk(w.subs[s], w'.subs[s], w.hub.size, w.log, queue, |Channel(w.log, w.subs[s].channel)| - |queue|);
    LocalKeeps(w, w', s);
  }

  lemma HeadBound(u: Sub, log: seq<Event>, queue: seq<Event>)
    requires QueueOk(u, log, queue)
    ensures |queue| <= |Channel(log, u.channel)|
  {}

  lemma BeatOutOk(u: Sub, u': Sub, size: nat, log: seq<Event>)
    requires OutOk(u, size, log) && u.phase == Live && u' == u.(out := u.out + [Heartbeat])
    ensures OutOk(u', size, log)
  {
    hide Channel, Wanted, GapAt, Events, Marked;
    MarkedMore(u.out, GapAt(u, size, log[..u.snapAt]), Heartbeat);
    EventsAppend(u.out, Heartbeat);
    assert Events(u.out) + [] == Events(u.out);
    SameWanted(u, u', size, log);
  }

  lemma BeatKeeps(w: World, s: nat)
    requires Inv(w) && Enabled(w, Beat(s))
    ensures Inv(Next(w, Beat(s)))
  {
    hide Inv, QueueOk, OutOk;
    var w' := Next(w, Beat(s));
    var queue := InvAt(w, s);
    BeatOutOk(w.subs[s], w'.subs[s], w.hub.size, w.log);
    SameQueue(w.subs[s], w'.subs[s], w.log, queue);
    LocalKeeps(w, w', s);
  }

  lemma StepKeeps(w: World, step: Step)
    requires Inv(w) && Enabled(w, step)
    ensures Inv(Next(w, step))
  {
    hide Inv, Next;
    match step
    case Publish(e) => PublishKeeps(w, e);
    case Register(_, _, _, _) => RegisterKeeps(w, step);
    case Snapshot(s) => SnapshotKeeps(w, s);
    case Emit(s) => EmitKeeps(w, s);
    case Take(s) => TakeKeeps(w, s);
    case Beat(s) => BeatKeeps(w, s);
    case Close(s) => CloseKeeps(w, s);
  }

  lemma {:induction false} RunKeeps(start: World, steps: seq<Step>, end: World)
    requires Inv(start) && Runs(start, steps, end)
    ensures Inv(end)
    decreases |steps|
  {
    hide Inv, Next;
    if steps != [] {
      StepKeeps(start, steps[0]);
      RunKeeps(Next(start, steps[0]), steps[1..], end);
    }
  }

  lemma InitialOk(size: nat)
    ensures Inv(Initial(size))
  {}

  // ---------------------------------------------------------------------------
  // What a subscriber has seen

  lemma {:induction false} ChannelPrefix(log: seq<Event>, k: nat, c: string)
    requires k <= |log|
    ensures Channel(log[..k], c) <= Channel(log, c)
    decreases |log|
  {
    hide Deliveries;
    if k < |log| {
      var init := log[..|log| - 1];
      ChannelPrefix(init, k, c);
      assert init[..k] == log[..k];
    } else {
      assert log[..k] == log;
    }
  }

  /** Away from the workspace channel a channel's history is the bot's own events. */
  lemma {:induction false} ChannelIsOf(log: seq<Event>, c: string)
    requires c != WORKSPACE
    ensures Channel(log, c) == Of(log, c)
  {
    if log != [] { ChannelIsOf(log[..|log| - 1], c); }
  }

  /** The position of the cursor: the first event with that id. */
  predicate FirstWithId(events: seq<Event>, id: string, c: nat) {
    c < |events| && events[c].id == id && forall k :: 0 <= k < c ==> events[k].id != id
  }

  lemma {:induction false} AfterIs(events: seq<Event>, id: string) returns (c: nat)
    requires HasId(events, id)
    ensures FirstWithId(events, id, c) && After(events, id) == events[c + 1..]
  {
    if events[0].id == id {
      c := 0;
    } else {
      var c' := AfterIs(events[1..], id);
      c := c' + 1;
      assert forall k :: 0 < k < c ==> events[k] == events[1..][k - 1];
    }
  }

  lemma {:induction false} Dense(picks: seq<nat>, lo: nat, hi: nat, i: nat)
    requires Increasing(picks, lo, hi) && |picks| == hi - lo && i < |picks|
    ensures picks[i] == lo + i
    decreases |picks|
  {
    var n := |picks| - 1;
    if i < n {
      assert picks[n] < hi;
      var init := picks[..n];
      assert forall j :: 0 <= j < n ==> init[j] == picks[j] < picks[n];
      Dense(init, lo, hi - 1, i);
    } else if n > 0 {
      assert Increasing(picks[..n], lo, picks[n]);
      Climbs(picks, lo, hi, n);
    }
  }

  lemma {:induction false} Climbs(picks: seq<nat>, lo: nat, hi: nat, i: nat)
    requires Increasing(picks, lo, hi) && i < |picks|
    ensures picks[i] >= lo + i
  {
    if i > 0 { Climbs(picks, lo, hi, i - 1); }
  }

  /** Where in the history the replay of a subscription starts. */
  predicate ReplayStart(u: Sub, size: nat, seen: seq<Event>, lo: nat) {
    var oldest := Oldest(|seen|, size);
    && lo <= |seen|
    && if !u.replay then lo == |seen|
       else if u.after == "" then lo == oldest
       else if HasId(seen[oldest..], u.after) then
         lo > oldest && FirstWithId(seen[oldest..], u.after, lo - 1 - oldest)
       else lo == |seen|
  }

  lemma WantedIs(u: Sub, size: nat, log: seq<Event>) returns (lo: nat)
    ensures ReplayStart(u, size, Of(log, u.channel), lo)
    ensures Wanted(u, size, log) == Of(log, u.channel)[lo..]
  {
    hide Of, HasId, FirstWithId;
    var seen := Of(log, u.channel);
    var first := Oldest(|seen|, size);
    var window := seen[first..];
    if !u.replay || GapAt(u, size, log) {
      lo := |seen|;
    } else if u.after == "" {
      lo := first;
    } else {
      var c := AfterIs(window, u.after);
      FirstBound(window, u.after, c);
      lo := first + c + 1;
      assert window[c + 1..] == seen[lo..];
    }
  }

  lemma FirstBound(events: seq<Event>, id: string, c: nat)
    requires FirstWithId(events, id, c)
    ensures c < |events|
  {}

  lemma StartInSeen(u: Sub, size: nat, seen: seq<Event>, lo: nat)
    requires ReplayStart(u, size, seen, lo)
    ensures lo <= |seen|
  {}

  /** What a subscriber that has taken its snapshot has been given, in every run: the bot's
      events from position `lo` to the snapshot, and then the channel's events at increasing
      positions from `reg` on, with the events still queued a suffix of the history.  One gap
      marker, ahead of all events, stands for a cursor that the ring no longer holds, and
      then nothing is replayed. */
  ghost predicate Stream(u: Sub, size: nat, log: seq<Event>, queue: seq<Event>, lo: nat) {
    && u.regAt <= u.snapAt <= |log|
    && var history, seen := Channel(log, u.channel), Of(log[..u.snapAt], u.channel);
    var reg, snap, head := |Channel(log[..u.regAt], u.channel)|, |Channel(log[..u.snapAt], u.channel)|, |history| - |queue|;
    && reg <= snap <= |history| && reg <= head && lo <= |seen|
    && ReplayStart(u, size, seen, lo)
    && |queue| <= QUEUE_SIZE && queue == history[head..]
    && Increasing(u.picks, reg, head) && |u.picks| + u.dropped == head - reg
    && Bounded(u.picks, |history|)
    && Events(u.out) == seen[lo..] + At(history, u.picks)
    && Marked(u.out, GapAt(u, size, log[..u.snapAt]))
  }

  lemma StreamIs(w: World, s: nat) returns (lo: nat)
    requires Inv(w) && s in w.subs && s in w.hub.queues && w.subs[s].phase == Live
    ensures Stream(w.subs[s], w.hub.size, w.log, w.hub.queues[s], lo)
  {
    hide Inv, Of, Events, At, GapAt, Wanted, LastN, HasId, FirstWithId, Marked, ReplayStart;
    var u, size, log := w.subs[s], w.hub.size, w.log;
    var queue := InvAt(w, s);
    var earlier := log[..u.snapAt];
    ChannelPrefix(log, u.snapAt, u.channel);
    ChannelPrefix(earlier, u.regAt, u.channel);
    assert earlier[..u.regAt] == log[..u.regAt];
    lo := WantedIs(u, size, earlier);
    StartInSeen(u, size, Of(earlier, u.channel), lo);
    assert Events(u.out) + [] == Events(u.out);
  }

  /** Without overflow nothing is lost: on a bot's channel the stream is history[lo..snap)
      followed by history[reg..head) with reg <= snap, so every event from `lo` on is seen
      and only those in the overlap [reg..snap) are seen twice. */
  lemma NothingLost(u: Sub, size: nat, log: seq<Event>, queue: seq<Event>, lo: nat)
    requires Stream(u, size, log, queue, lo) && u.dropped == 0
    ensures var history, seen := Channel(log, u.channel), Of(log[..u.snapAt], u.channel);
            var reg, snap, head := |Channel(log[..u.regAt], u.channel)|, |Channel(log[..u.snapAt], u.channel)|, |history| - |queue|;
            && Events(u.out) == seen[lo..] + history[reg..head]
            && (u.channel != WORKSPACE ==>
                  && lo <= snap && Events(u.out) == history[lo..snap] + history[reg..head]
                  && forall k :: lo <= k < head ==> history[k] in Events(u.out))
  {
    hide Channel, Of, Events, ReplayStart, GapAt, Marked;
    var history := Channel(log, u.channel);
    var reg, snap, head := |Channel(log[..u.regAt], u.channel)|, |Channel(log[..u.snapAt], u.channel)|, |history| - |queue|;
    var live := At(history, u.picks);
    forall i | 0 <= i < |live| ensures live[i] == history[reg..head][i] {
      Dense(u.picks, reg, head, i);
    }
    assert live == history[reg..head];
    if u.channel != WORKSPACE {
      var seen := Channel(log[..u.snapAt], u.channel);
      ChannelIsOf(log[..u.snapAt], u.channel);
      ChannelPrefix(log, u.snapAt, u.channel);
      assert seen[lo..] == history[lo..snap];
      forall k | lo <= k < head ensures history[k] in Events(u.out) {
        if k < snap { assert history[k] == history[lo..snap][k - lo]; } else { assert history[k] == history[reg..head][k - reg]; }
      }
    }
  }

  /** An event is pushed out only when the queue is full of events not yet taken. */
  lemma DropsOnlyWhenFull(w: World, e: Event, s: nat)
    requires Inv(w) && s in w.subs && s in w.hub.queues
    ensures var w' := Next(w, Publish(e));
            && s in w'.hub.queues && s in w'.subs
            && (w'.subs[s].dropped > w.subs[s].dropped ==> |w'.hub.queues[s]| == QUEUE_SIZE)
  {
    hide Published, Inv, Suffix, Channel;
    var queue := InvAt(w, s);
    PublishQueues(w, e, s);
    PublishSize(w.hub, e);
    PushAllSuffix(Channel(w.log, w.subs[s].channel), queue, Deliveries(e, w.subs[s].channel));
  }

  /** The theorem over whole runs. */
  lemma EveryRun(size: nat, steps: seq<Step>, end: World, s: nat) returns (lo: nat)
    requires Runs(Initial(size), steps, end)
    requires s in end.subs && end.subs[s].phase == Live
    ensures s in end.hub.queues && Stream(end.subs[s], end.hub.size, end.log, end.hub.queues[s], lo)
  {
    hide Inv, Stream, Runs;
    InitialOk(size);
    RunKeeps(Initial(size), steps, end);
    var queue := InvAt(end, s);
    lo := StreamIs(end, s);
  }
}
