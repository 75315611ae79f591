/** The fetch loop in place inside the transfer: what the step system proves of a fetch is about the
    states the loop goes through, and what it returns is what the loop returns. */
module TransferLoop {
  import opened Prelude
  import opened Naming
  import opened Put
  import opened Peek
  import opened PeekClient
  import opened Transfer
  import opened TransferSafety

  /** What an event of the transfer is to the fetch loop. */
  function Seen(e: Event): seq<Recv> {
    match e
    case Deliver(p, now) => [Packet(Some(p.data), now)]
    case Noise(now) => [Packet(None, now)]
    case Idle(now, _) => [Elapsed(now)]
    case Close => [Disconnected]
    case _ => []
  }

  /** What `recv` yields to the loop from event `from` up to event `to`. */
  function Inbox(es: seq<Event>, from: nat, to: nat): seq<Recv>
    requires from <= to <= |es|
  {
    if from == to then [] else Inbox(es, from, to - 1) + Seen(es[to - 1])
  }

  function OrderOf(e: Event): seq<nat> {
    if e.Idle? then e.order else []
  }

  function OrdersSeen(e: Event): seq<seq<nat>> {
    if Seen(e) == [] then [] else [OrderOf(e)]
  }

  /** The order in which the table yielded the stale entries, turn by turn. */
  function Orders(es: seq<Event>, from: nat, to: nat): seq<seq<nat>>
    requires from <= to <= |es|
  {
    if from == to then [] else Orders(es, from, to - 1) + OrdersSeen(es[to - 1])
  }

  /** Event `d` delivers the discovery Data, after which the loop runs until state `i`. */
  ghost predicate LoopRunning(j: Job, ws: seq<World>, es: seq<Event>, d: nat, i: nat)
    requires j.Valid()
  {
    Run(j, ws, es) && d < i < |ws| && ws[d].phase.Discovering? && es[d].Deliver? && ws[i].phase.Fetching?
  }

  /** One event of the transfer while fetching: nothing to the loop, or one turn and the next loop head. */
  lemma EventIsTurn(j: Job, w: World, e: Event)
    requires j.Valid() && Safe(j, w) && Enabled(j, w, e) && w.phase.Fetching? && !e.Close?
    ensures Seen(e) == [] ==> Next(j, w, e).phase == w.phase
    ensures Seen(e) != [] ==>
              var f, m := w.phase.fetch, Seen(e)[0];
              var g := AfterEvent(f, e);
              && g == Refill(Turned(f, m, OrderOf(e)), e.now) && Seen(e) == [m] && !m.Disconnected?
              && (forall t :: TimeOf(m, t) == e.now) && f.received != f.total
              && (m.Elapsed? ==> Enumerates(OrderOf(e), StaleKeys(f, j.lifetime, m.now)))
              && Next(j, w, e).phase == if g.received == g.total then Finish(g) else Fetching(w.phase.versioned, g)
  {
    hide Refill, Asks, NextBatch, Reply, Discover, Expire, Receive, Finish, AsksOk, ParcelsOk, Inv, HoldsChunks,
         Saturated;
  }

  /** The event that starts the loop. */
  lemma EventStarts(j: Job, w: World, e: Event)
    requires j.Valid() && Enabled(j, w, e) && w.phase.Discovering? && Next(j, w, e).phase.Fetching?
    ensures e.Deliver? && Discover(e.p.data, j.pipeline).Begin?
    ensures Next(j, w, e).phase.fetch == Refill(Discover(e.p.data, j.pipeline).fetch, e.now)
  {
    hide Refill, Asks, NextBatch, Reply, Discover;
  }

  /** The loop in place reaches `g` from `f` on this inbox: after its turns, each of them taken rightly. */
  ghost predicate Reaches(f: Fetch, inbox: seq<Recv>, orders: seq<seq<nat>>, lifetime: nat, start: nat, g: Fetch) {
    && |orders| == |inbox| && g == Refilled(f, inbox, orders, start, |orders|)
    && forall k :: 0 <= k < |orders| ==> TurnAt(f, inbox, orders, lifetime, start, k)
  }

  /** Every fetch of every run is the state the loop reaches from the discovery Data on the packets,
      waits and table orders the run gave it. */
  lemma {:induction false} FetchesAreLoopStates(j: Job, ws: seq<World>, es: seq<Event>, d: nat, i: nat)
    requires j.Valid() && LoopRunning(j, ws, es, d, i)
    ensures Discover(es[d].p.data, j.pipeline).Begin?
    ensures Reaches(Discover(es[d].p.data, j.pipeline).fetch, Inbox(es, d + 1, i), Orders(es, d + 1, i),
                    j.lifetime, es[d].now, ws[i].phase.fetch)
  {
    hide Refill, Next, Enabled, Discover, Safe, Timed, AfterEvent, Reaches, Run, StepAt, Assembled;
    RunningBetween(j, ws, es, d, i);
    StepOf(j, ws, es, d);
    if i == d + 1 {
      EventStarts(j, ws[d], es[d]);
      ReachStart(Discover(es[d].p.data, j.pipeline).fetch, j.lifetime, es[d].now);
    } else {
      FetchesAreLoopStates(j, ws, es, d, i - 1);
      RunInvariant(j, ws, es, i - 1);
      StepOf(j, ws, es, i - 1);
      NotClosing(j, ws[i - 1], es[i - 1]);
      var f := Discover(es[d].p.data, j.pipeline).fetch;
      NextTurn(j, ws[i - 1], es[i - 1], f, Inbox(es, d + 1, i - 1), Orders(es, d + 1, i - 1), es[d].now);
    }
  }

  lemma ReachStart(f: Fetch, lifetime: nat, start: nat)
    ensures Reaches(f, [], [], lifetime, start, Refill(f, start))
  {
    hide Refill;
  }

  lemma RunningBetween(j: Job, ws: seq<World>, es: seq<Event>, d: nat, i: nat)
    requires j.Valid() && LoopRunning(j, ws, es, d, i)
    ensures Run(j, ws, es) && |ws| == |es| + 1 && ws[d].phase.Discovering? && es[d].Deliver? && ws[i].phase.Fetching?
    ensures d + 1 < i ==> LoopRunning(j, ws, es, d, i - 1) && ws[i - 1].phase.Fetching?
  {
    hide Next, Enabled, StepAt;
    StepOf(j, ws, es, d);
    LeavesDiscovery(j, ws[d], es[d]);
    if d + 1 < i {
      StaysFetching(j, ws, es, d + 1, i - 1, i);
    }
  }

  /** One event of the transfer extends what the loop in place has reached. */
  lemma NextTurn(j: Job, w: World, e: Event, f: Fetch, inbox: seq<Recv>, orders: seq<seq<nat>>, start: nat)
    requires j.Valid() && Safe(j, w) && Enabled(j, w, e) && w.phase.Fetching? && !e.Close?
    requires Reaches(f, inbox, orders, j.lifetime, start, w.phase.fetch)
    ensures var g := AfterEvent(w.phase.fetch, e);
            && Reaches(f, inbox + Seen(e), orders + OrdersSeen(e), j.lifetime, start, g)
            && (Seen(e) == [] ==> g == w.phase.fetch)
            && Next(j, w, e).phase ==
               if Seen(e) == [] then w.phase
               else if g.received == g.total then Finish(g) else Fetching(w.phase.versioned, g)
  {
    hide Safe, Next, Enabled, Refill, Turned, Reaches, StaleKeys, Enumerates, Finish;
    EventIsTurn(j, w, e);
    if Seen(e) == [] {
      assert inbox + Seen(e) == inbox && orders + OrdersSeen(e) == orders;
    } else {
      ReachTurn(f, inbox, orders, j.lifetime, start, w.phase.fetch, Seen(e)[0], OrderOf(e), e.now);
    }
  }

  function AfterEvent(f: Fetch, e: Event): Fetch {
    match e
    case Deliver(p, now) => Refill(Turned(f, Packet(Some(p.data), now), []), now)
    case Noise(now) => Refill(Turned(f, Packet(None, now), []), now)
    case Idle(now, order) => Refill(Turned(f, Elapsed(now), order), now)
    case _ => f
  }

  lemma ReachTurn(f: Fetch, inbox: seq<Recv>, orders: seq<seq<nat>>, lifetime: nat, start: nat, g: Fetch,
                  m: Recv, order: seq<nat>, now: nat)
    requires Reaches(f, inbox, orders, lifetime, start, g) && g.received != g.total
    requires !m.Disconnected? && (forall t :: TimeOf(m, t) == now)
    requires m.Elapsed? ==> Enumerates(order, StaleKeys(g, lifetime, m.now))
    ensures Reaches(f, inbox + [m], orders + [order], lifetime, start, Refill(Turned(g, m, order), now))
  {
    hide Refill, Turned, TurnAt, Refilled, StaleKeys, Enumerates;
    OneMoreTurn(f, inbox, orders, m, order, lifetime, start);
    var n := |inbox|;
    assert TimeAt(inbox + [m], start, n + 1) == TimeOf((inbox + [m])[n], TimeAt(inbox + [m], start, n));
  }

  lemma LeavesDiscovery(j: Job, w: World, e: Event)
    requires j.Valid() && Enabled(j, w, e) && w.phase.Discovering? && e.Deliver?
    ensures !Next(j, w, e).phase.Discovering?
  {
    hide Refill, Asks, NextBatch, Discover;
  }

  lemma {:induction false} StaysFetching(j: Job, ws: seq<World>, es: seq<Event>, from: nat, k: nat, i: nat)
    requires j.Valid() && Run(j, ws, es) && from <= k <= i < |ws| && !ws[from].phase.Discovering? &&
             ws[i].phase.Fetching?
    ensures ws[k].phase.Fetching?
    decreases i - k
  {
    if k < i {
      StaysFetching(j, ws, es, from, k + 1, i);
      assert StepAt(j, ws, es, k);
      NeverBack(j, ws, es, from, k);
      hide Refill, Asks, Reply, Discover;
    }
  }

  lemma {:induction false} NeverBack(j: Job, ws: seq<World>, es: seq<Event>, from: nat, k: nat)
    requires j.Valid() && Run(j, ws, es) && from <= k < |ws| && !ws[from].phase.Discovering?
    ensures !ws[k].phase.Discovering?
    decreases k - from
  {
    if k > from {
      hide Next, Run, StepAt, Enabled;
      NeverBack(j, ws, es, from, k - 1);
      StepOf(j, ws, es, k - 1);
      NotBackInOne(j, ws[k - 1], es[k - 1]);
    }
  }

  lemma NotBackInOne(j: Job, w: World, e: Event)
    requires j.Valid() && Enabled(j, w, e) && !w.phase.Discovering?
    ensures !Next(j, w, e).phase.Discovering?
  {
    hide Refill, Asks, Reply, Discover;
  }

  /** When a run leaves the fetch loop with bytes, the loop in place, given what that run's packets
      and waits were, returns the same bytes - and these are the published payload. */
  lemma LoopReturnsTheSame(j: Job, ws: seq<World>, es: seq<Event>, d: nat, i: nat)
    requires j.Valid() && LoopRunning(j, ws, es, d, i) && i < |es| && ws[i + 1].phase.Returned?
    ensures FetchOutcome(es[d].p.data, j.pipeline, Inbox(es, d + 1, i + 1)) == Done(Some(ws[i + 1].phase.bytes))
    ensures ws[i + 1].phase.bytes == j.o.payload
  {
    hide Next, Enabled, Safe, Timed, Discover, Reaches, Refill, Run, StepAt;
    RunningBetween(j, ws, es, d, i);
    StepOf(j, ws, es, i);
    RunInvariant(j, ws, es, i);
    ReturnsThePayload(j, ws, es, i + 1);
    FetchesAreLoopStates(j, ws, es, d, i);
    NotClosing(j, ws[i], es[i]);
    var f, start := Discover(es[d].p.data, j.pipeline).fetch, es[d].now;
    NextTurn(j, ws[i], es[i], f, Inbox(es, d + 1, i), Orders(es, d + 1, i), start);
    Begun(es[d].p.data, j.pipeline);
    var g := AfterEvent(ws[i].phase.fetch, es[i]);
    hide AfterEvent, Outcome;
    CompleteOutcome(f, Inbox(es, d + 1, i + 1), Orders(es, d + 1, i + 1), j.lifetime, start, g);
  }

  lemma CompleteOutcome(f: Fetch, inbox: seq<Recv>, orders: seq<seq<nat>>, lifetime: nat, start: nat, g: Fetch)
    requires Reaches(f, inbox, orders, lifetime, start, g) && g.received == g.total
    requires |f.segments| == f.total && f.received == Stored(f.segments)
    ensures Outcome(f.segments, inbox) == Assembled(g.segments)
  {
    hide Refilled, TurnAt, Outcome, Assembled, Stored;
    OutcomeAlong(f, inbox, orders, lifetime, start, |orders|);
    OutcomeComplete(g.segments, inbox[|orders|..]);
  }

  lemma NotClosing(j: Job, w: World, e: Event)
    requires j.Valid() && Enabled(j, w, e) && w.phase.Fetching? && !Next(j, w, e).phase.Failed?
    ensures !e.Close?
  {
    hide LoopHead, Reply;
  }

  lemma Begun(d: Data, pipeline: nat)
    requires 1 <= pipeline && Discover(d, pipeline).Begin?
    ensures var f := Discover(d, pipeline).fetch; |f.segments| == f.total && f.received == Stored(f.segments)
  {
    DiscoverEstablishes(d, pipeline);
  }

  /** End to end, from any answer of a put producer and any further Data of it: the payload, or
      nothing for want of packets; no index panics. */
  lemma FetchesThePayload(j: Job, first: Data, inbox: seq<Recv>)
    requires j.Valid() && Genuine(j.o, first)
    requires forall m :: m in inbox && m.Packet? && m.data.Some? ==> Genuine(j.o, m.data.value)
    ensures FetchOutcome(first, j.pipeline, inbox) in {Done(None), Done(Some(j.o.payload))}
  {
    DiscoverGenuine(j, first);
    if Discover(first, j.pipeline).Begin? {
      ReturnsPublished(j.o, Discover(first, j.pipeline).fetch.segments, inbox);
    }
  }
}
