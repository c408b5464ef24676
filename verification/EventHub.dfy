/** The in-process event hub: src/artek_buddy/bus.py.  Every method runs on the event loop,
    so each is one atomic step. */
module EventHub {

  datatype Event = Event(bot: string, id: string, body: string)

  const WORKSPACE := "*"
  const QUEUE_SIZE := 256

  /** The hub's fields.  A channel that is absent from a map has the empty default. */
  datatype Hub = Hub(size: nat, buf: map<string, seq<Event>>, subs: map<string, set<nat>>, queues: map<nat, seq<Event>>) {
    function BufOf(bot: string): seq<Event> {
      if bot in buf then buf[bot] else []
    }

    function SubsOf(channel: string): set<nat> {
      if channel in subs then subs[channel] else {}
    }

    ghost predicate Valid() {
      forall channel, q :: q in SubsOf(channel) ==> q in queues
    }
  }

  /** The newest n events of s, or all of them if there are not so many. */
  function LastN(s: seq<Event>, n: nat): seq<Event> {
    if |s| <= n then s else s[|s| - n..]
  }

  /** A bounded queue drops its oldest event to admit a new one. */
  function Push(queue: seq<Event>, e: Event): seq<Event> {
    if |queue| < QUEUE_SIZE then queue + [e] else queue[1..] + [e]
  }

  function Delivered(h: Hub, e: Event, qs: set<nat>): Hub {
    h.(queues := map q | q in h.queues :: if q in qs then Push(h.queues[q], e) else h.queues[q])
  }

  function Published(h: Hub, e: Event): Hub {
    var h1 := h.(buf := h.buf[e.bot := LastN(h.BufOf(e.bot) + [e], h.size)]);
    Delivered(Delivered(h1, e, h1.SubsOf(e.bot)), e, h1.SubsOf(WORKSPACE))
  }

  function Registered(h: Hub, channel: string, q: nat): Hub {
    h.(subs := h.subs[channel := h.SubsOf(channel) + {q}], queues := h.queues[q := []])
  }

  function Discarded(h: Hub, channel: string, q: nat): Hub {
    h.(subs := h.subs[channel := h.SubsOf(channel) - {q}], queues := h.queues - {q})
  }

  predicate HasId(events: seq<Event>, id: string) {
    exists i :: 0 <= i < |events| && events[i].id == id
  }

  /** The events after the first one with the given id. */
  function After(events: seq<Event>, id: string): seq<Event> {
    if events == [] then [] else if events[0].id == id then events[1..] else After(events[1..], id)
  }

  function ReplayOf(events: seq<Event>, after: string): seq<Event> {
    if after == "" then events else After(events, after)
  }

  /** Registrations only ever name queues that exist. */
  lemma StillValid(h: Hub, h': Hub, added: set<nat>, gone: set<nat>)
    requires h.Valid() && h'.queues.Keys == h.queues.Keys + added - gone
    requires forall c, q :: q in h'.SubsOf(c) ==> q !in gone && (q in h.SubsOf(c) || q in added)
    ensures h'.Valid()
  {
    forall c, q | q in h'.SubsOf(c) ensures q in h'.queues {}
  }

  class EventHub {
    const size: nat
    var buf: map<string, seq<Event>>
    var subs: map<string, set<nat>>
    var queues: map<nat, seq<Event>>

    ghost function State(): Hub
      reads this
    {
      Hub(size, buf, subs, queues)
    }

    constructor (size: nat)
      ensures State() == Hub(size, map[], map[], map[]) && State().Valid()
    {
      this.size := size;
      buf, subs, queues := map[], map[], map[];
    }

    method Publish(event: Event)
      requires State().Valid()
      modifies this
      ensures State() == Published(old(State()), event) && State().Valid()
    {
      ghost var before := State();
      var items := if event.bot in buf then buf[event.bot] else [];
      items := items + [event];
      if |items| > size { items := items[|items| - size..]; }
      buf := buf[event.bot := items];
      ghost var h1 := State();
      assert forall c :: h1.SubsOf(c) == before.SubsOf(c);
      StillValid(before, h1, {}, {});
      var queues1 := if event.bot in subs then subs[event.bot] else {};
      assert queues1 == h1.SubsOf(event.bot);
      Deliver(event, queues1);
      var queues2 := if WORKSPACE in subs then subs[WORKSPACE] else {};
      assert queues2 == h1.SubsOf(WORKSPACE) == State().SubsOf(WORKSPACE);
      Deliver(event, queues2);
    }

    method Deliver(event: Event, qs: set<nat>)
      requires State().Valid() && forall q :: q in qs ==> q in queues
      modifies this`queues
      ensures State() == Delivered(old(State()), event, qs) && State().Valid()
    {
      ghost var before := State();
      var todo := qs;
      while todo != {}
        invariant todo <= qs && State() == Delivered(before, event, qs - todo)
        decreases todo
      {
        var q :| q in todo;
        Enqueue(q, event);
        todo := todo - {q};
        assert qs - todo == (qs - todo - {q}) + {q};
      }
      assert qs - todo == qs;
      assert forall c :: State().SubsOf(c) == before.SubsOf(c);
      StillValid(before, State(), {}, {});
    }

    method Enqueue(q: nat, event: Event)
      requires q in queues
      modifies this`queues
      ensures queues == old(queues)[q := Push(old(queues[q]), event)]
    {
      if |queues[q]| < QUEUE_SIZE {
        queues := queues[q := queues[q] + [event]];
      } else {
        queues := queues[q := queues[q][1..]];
        queues := queues[q := queues[q] + [event]];
      }
    }

    method HasEvent(bot: string, id: string) returns (b: bool)
      ensures b == HasId(State().BufOf(bot), id)
    {
      var items := if bot in buf then buf[bot] else [];
      for i := 0 to |items|
        invariant forall k :: 0 <= k < i ==> items[k].id != id
      {
        if items[i].id == id { return true; }
      }
      return false;
    }

    method Replay(bot: string, after: string) returns (out: seq<Event>)
      ensures out == ReplayOf(State().BufOf(bot), after)
    {
      var items := if bot in buf then buf[bot] else [];
      if after == "" { return items; }
      var seen := false;
      out := [];
      for i := 0 to |items|
        invariant !seen ==> out == [] && After(items, after) == After(items[i..], after)
        invariant seen ==> out + items[i..] == After(items, after)
      {
        if seen {
          assert items[i..] == [items[i]] + items[i + 1..];
          out := out + [items[i]];
        } else if items[i].id == after {
          seen := true;
        }
      }
    }

    /** The start of a subscription: a fresh queue, registered. */
    method Register(channel: string, q: nat)
      requires State().Valid() && q !in queues
      modifies this
      ensures State() == Registered(old(State()), channel, q) && State().Valid()
    {
      ghost var before := State();
      queues := queues[q := []];
      subs := subs[channel := (if channel in subs then subs[channel] else {}) + {q}];
      StillValid(before, State(), {q}, {});
    }

    /** The end of a subscription. */
    method Discard(channel: string, q: nat)
      requires State().Valid() && q in queues
      requires forall c :: c != channel ==> q !in State().SubsOf(c)
      modifies this
      ensures State() == Discarded(old(State()), channel, q) && State().Valid()
    {
      ghost var before := State();
      subs := subs[channel := (if channel in subs then subs[channel] else {}) - {q}];
      queues := queues - {q};
      forall c ensures q !in State().SubsOf(c) {
        if c != channel { assert State().SubsOf(c) == before.SubsOf(c); }
      }
      StillValid(before, State(), {}, {q});
    }

    /** queue.get() on a queue that is not empty. */
    method Get(q: nat) returns (event: Event)
      requires State().Valid() && q in queues && queues[q] != []
      modifies this`queues
      ensures event == old(queues[q])[0] && State().Valid()
      ensures State() == old(State()).(queues := old(queues)[q := old(queues[q])[1..]])
    {
      ghost var before := State();
      event := queues[q][0];
      queues := queues[q := queues[q][1..]];
      assert forall c :: State().SubsOf(c) == before.SubsOf(c);
      StillValid(before, State(), {}, {});
    }
  }
}
