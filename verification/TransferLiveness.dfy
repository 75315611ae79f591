/** Progress of the segmented transfer when round trips stay below the Interest lifetime. */
module TransferLiveness {
  import opened Prelude
  import opened Naming
  import opened Put
  import opened Peek
  import opened Transfer
  import opened TransferSafety

  /** No packet is still on the way a lifetime after the Interest behind it was sent. */
  ghost predicate Prompt(j: Job, w: World, e: Event) {
    match e
    case Deliver(_, now) => YoungAt(j, w, now)
    case Noise(now) => YoungAt(j, w, now)
    case Idle(now, _) => YoungAt(j, w, now)
    case _ => true
  }

  ghost predicate YoungAt(j: Job, w: World, now: nat) {
    && (forall a :: a in w.asks ==> now < a.born + j.lifetime)
    && (forall p :: p in w.parcels ==> now < p.born + j.lifetime)
  }

  ghost predicate PromptAt(j: Job, ws: seq<World>, es: seq<Event>, i: nat)
    requires |ws| == |es| + 1 && i < |es|
  {
    Prompt(j, ws[i], es[i])
  }

  ghost predicate PromptRun(j: Job, ws: seq<World>, es: seq<Event>)
    requires j.Valid()
  {
    Run(j, ws, es) && forall i :: 0 <= i < |es| ==> PromptAt(j, ws, es, i)
  }

  /** The producer has an answer to the discovery Interest. */
  predicate Answerable(j: Job)
    requires j.o.Valid()
  {
    Asked(j.prefix) < Count(j.o)
  }

  ghost predicate AskedFor(w: World, i: nat) {
    exists a :: a in w.asks && LastSegment(a.name) == Some(i)
  }

  ghost predicate Answered(w: World, i: nat) {
    exists p :: p in w.parcels && LastSegment(p.data.name) == Some(i)
  }

  ghost predicate OnTheWay(w: World, i: nat) {
    AskedFor(w, i) || Answered(w, i)
  }

  /** Without a loss since the last idle timeout, everything outstanding is on the way. */
  ghost predicate Covered(j: Job, w: World)
    requires j.Valid()
  {
    match w.phase
    case Discovering =>
      w.lost == 0 && Answerable(j) ==> w.asks != multiset{} || w.parcels != multiset{}
    case Fetching(_, f) =>
      w.lost == w.spent ==> forall i :: i in SegsInFlight(f) ==> OnTheWay(w, i)
    case Failed(NoResponse) => w.lost >= 1 || !Answerable(j)
    case Failed(Undecodable) => w.strays >= 1
    case _ => true
  }

  predicate Tally(w: World) {
    w.timeouts <= w.spent <= w.lost
  }

  lemma {:induction false} AsksContain(versioned: Name, segs: seq<nat>, now: nat, i: nat)
    requires i in Elems(segs) && i < TWO_64
    ensures exists a :: a in Asks(versioned, segs, now) && LastSegment(a.name) == Some(i)
  {
    var n := |segs| - 1;
    if i == segs[n] {
      LastSegmentOfAppend(versioned, i);
      assert Ask(AppendSegment(versioned, i), now) in Asks(versioned, segs, now);
    } else {
      AsksContain(versioned, segs[..n], now, i);
    }
  }

  lemma {:induction false} AsksSize(versioned: Name, segs: seq<nat>, now: nat)
    ensures |Asks(versioned, segs, now)| == |segs|
  {
    if segs != [] {
      AsksSize(versioned, segs[..|segs| - 1], now);
    }
  }

  lemma RefillSegs(f: Fetch, now: nat)
    requires Inv(f)
    ensures SegsInFlight(Refill(f, now)) == SegsInFlight(f) + Elems(NextBatch(f, f.nextSeg, Room(f)).0)
  {
    var (batch, stop) := NextBatch(f, f.nextSeg, Room(f));
    KeysBelow(f, {});
    hide InvBut;
    LaunchSegs(f.(nextSeg := stop), batch, now);
  }

  /** A loop head covers what it sends; the rest stays covered. */
  lemma LoopHeadCovered(j: Job, w: World, versioned: Name, f: Fetch, now: nat)
    requires j.Valid() && Inv(f) && HoldsChunks(j, f)
    requires w.lost == w.spent ==> forall i :: i in SegsInFlight(f) ==> OnTheWay(w, i)
    ensures Covered(j, LoopHead(w, versioned, f, now))
  {
    BatchBounds(j, f);
    RefillKeeps(f, now);
    RefillFrame(f, now);
    RefillSegs(f, now);
    var g, v := Refill(f, now), LoopHead(w, versioned, f, now);
    var batch := NextBatch(f, f.nextSeg, Room(f)).0;
    hide Inv, Refill, Saturated, OnTheWay;
    StoredFull(g.segments);
    if g.received == g.total {
      CompleteIsPayload(j, g);
    } else if w.lost == w.spent {
      forall i | i in SegsInFlight(g)
        ensures OnTheWay(v, i)
      {
        if i in SegsInFlight(f) {
          StillOnTheWay(w, v, i);
        } else {
          ElemsIn(batch, i);
          SentOnTheWay(v, versioned, batch, now, i);
        }
      }
    }
  }

  lemma SentOnTheWay(v: World, versioned: Name, segs: seq<nat>, now: nat, i: nat)
    requires i in Elems(segs) && i < TWO_64 && Asks(versioned, segs, now) <= v.asks
    ensures OnTheWay(v, i)
  {
    AsksContain(versioned, segs, now, i);
    var a :| a in Asks(versioned, segs, now) && LastSegment(a.name) == Some(i);
    assert a in v.asks;
  }

  lemma StillOnTheWay(w: World, v: World, i: nat)
    requires OnTheWay(w, i)
    requires forall a :: a in w.asks ==> a in v.asks
    requires forall p :: p in w.parcels ==> p in v.parcels
    ensures OnTheWay(v, i)
  {
  }

  lemma ServeCovered(j: Job, w: World, a: Ask)
    requires j.Valid() && Safe(j, w) && Covered(j, w) && a in w.asks
    ensures Covered(j, Next(j, w, Serve(a)))
  {
    var v := Next(j, w, Serve(a));
    ReplyIsGenuine(j.o, a.name);
    match w.phase {
      case Discovering =>
        assert Known(j, w.phase, Asked(a.name));
        if Answerable(j) {
          assert Parcel(Reply(j.o, a.name).value, a.born) in v.parcels;
        }
      case Fetching(_, f) =>
        if w.lost == w.spent {
          forall i | i in SegsInFlight(f)
            ensures OnTheWay(v, i)
          {
            InFlightBelow(f, i);
            ServeOne(j, w, a, i);
          }
        }
      case _ =>
    }
  }

  lemma InFlightBelow(f: Fetch, i: nat)
    requires Inv(f) && i in SegsInFlight(f)
    ensures i < f.nextSeg <= f.total == |f.segments| && f.segments[i].None?
  {
    var k :| k in f.inFlight && f.inFlight[k].seg == i;
    assert Carries(f, k, i);
  }

  lemma ServeOne(j: Job, w: World, a: Ask, i: nat)
    requires j.Valid() && a in w.asks && OnTheWay(w, i) && i < Count(j.o)
    ensures OnTheWay(Next(j, w, Serve(a)), i)
  {
    var v := Next(j, w, Serve(a));
    ReplyIsGenuine(j.o, a.name);
    if AskedFor(w, i) {
      var b :| b in w.asks && LastSegment(b.name) == Some(i);
      if b == a {
        assert Parcel(Reply(j.o, a.name).value, a.born) in v.parcels;
      } else {
        assert b in v.asks;
      }
    } else {
      var p :| p in w.parcels && LastSegment(p.data.name) == Some(i);
      assert p in v.parcels;
    }
  }

  lemma ReceiveSegs(f: Fetch, idx: nat, content: Bytes)
    requires Inv(f) && idx < f.total
    ensures SegsInFlight(Receive(f, Some(idx), content)) == SegsInFlight(f) - {idx}
  {
    var g := Receive(f, Some(idx), content);
    forall i: nat
      ensures i in SegsInFlight(g) <==> i in SegsInFlight(f) && i != idx
    {
      if i in SegsInFlight(f) {
        InFlightBelow(f, i);
        var k :| k in f.inFlight && f.inFlight[k].seg == i;
        if i != idx {
          assert g.inFlight[k].seg == i;
        }
      }
    }
  }

  lemma DeliverCovered(j: Job, w: World, p: Parcel, now: nat)
    requires j.Valid() && Safe(j, w) && Covered(j, w) && Active(w) && p in w.parcels
    ensures Covered(j, Delivered(j, w.(parcels := w.parcels - multiset{p}), p.data, now))
  {
    var v := w.(parcels := w.parcels - multiset{p});
    if w.phase.Discovering? {
      DiscoverGenuine(j, p.data);
      match Discover(p.data, j.pipeline) {
        case Begin(f) =>
          assert SegsInFlight(f) == {};
          LoopHeadCovered(j, v, p.data.name[..|p.data.name| - 1], f, now);
        case _ =>
      }
    } else {
      var f, idx := w.phase.fetch, LastSegment(p.data.name);
      ReceiveKeeps(f, idx, p.data.content);
      ReceiveSegs(f, idx.value, p.data.content);
      var g := Receive(f, idx, p.data.content);
      hide Inv;
      if w.lost == w.spent {
        forall i | i in SegsInFlight(g)
          ensures OnTheWay(v, i)
        {
          OthersOnTheWay(w, p, i);
        }
      }
      LoopHeadCovered(j, v, w.phase.versioned, g, now);
    }
  }

  lemma OthersOnTheWay(w: World, p: Parcel, i: nat)
    requires OnTheWay(w, i) && p in w.parcels && LastSegment(p.data.name) != Some(i)
    ensures OnTheWay(w.(parcels := w.parcels - multiset{p}), i)
  {
    var v := w.(parcels := w.parcels - multiset{p});
    if Answered(w, i) {
      var q :| q in w.parcels && LastSegment(q.data.name) == Some(i);
      assert q in v.parcels;
    }
  }

  /** When a wait times out, the network has nothing left for this fetch. */
  lemma QuietAtTimeout(j: Job, w: World, now: nat)
    requires Timed(w) && now >= w.clock + j.lifetime + GRACE && YoungAt(j, w, now)
    ensures w.asks == multiset{} && w.parcels == multiset{}
  {
    assert forall a :: a !in w.asks;
    assert forall p :: p !in w.parcels;
  }

  /** An idle timeout of the fetch loop is always the consequence of a loss since the previous one. */
  lemma IdleMeansLoss(j: Job, w: World, now: nat)
    requires j.Valid() && Safe(j, w) && Timed(w) && Covered(j, w) && Tally(w)
    requires w.phase.Fetching? && now >= w.clock + j.lifetime + GRACE && YoungAt(j, w, now)
    ensures w.spent < w.lost
  {
    var f := w.phase.fetch;
    SaturatedIsBusy(f);
    QuietAtTimeout(j, w, now);
    hide Inv;
    assert forall i: nat :: !AskedFor(w, i) && !Answered(w, i);
    var k :| k in f.inFlight;
    var i := f.inFlight[k].seg;
    assert i in SegsInFlight(f);
    assert !OnTheWay(w, i);
  }

  lemma IdleCovered(j: Job, w: World, order: seq<nat>, now: nat)
    requires j.Valid() && Safe(j, w) && w.phase.Fetching? && Enumerates(order, w.phase.fetch.inFlight.Keys)
    ensures Covered(j, TimedOut(w, order, now))
  {
    var f, versioned := w.phase.fetch, w.phase.versioned;
    var segs, g := SegsOf(f, order), Expire(f, order, now);
    var v := w.(asks := w.asks + Asks(versioned, segs, now), timeouts := w.timeouts + 1, spent := w.lost);
    ExpireKeeps(f, order, now);
    SegsOfElems(f, order);
    BatchBounds(j, f);
    ResentOnTheWay(j, w, order, now, v);
    TimedOutIs(w, order, now);
    hide OnTheWay, Expire, Inv, LoopHead, SegsInFlight, Enumerates, SegsOf, Asks, Safe, TimedOut, Covered;
    LoopHeadCovered(j, v, versioned, g, now);
  }

  lemma TimedOutIs(w: World, order: seq<nat>, now: nat)
    requires w.phase.Fetching? && Elems(order) <= w.phase.fetch.inFlight.Keys
    ensures var f, versioned := w.phase.fetch, w.phase.versioned;
            var v := w.(asks := w.asks + Asks(versioned, SegsOf(f, order), now), timeouts := w.timeouts + 1,
                        spent := w.lost);
            TimedOut(w, order, now) == LoopHead(v, versioned, Expire(f, order, now), now)
  {
    hide LoopHead, Expire, Asks, SegsOf;
  }

  lemma ResentOnTheWay(j: Job, w: World, order: seq<nat>, now: nat, v: World)
    requires j.Valid() && Safe(j, w) && w.phase.Fetching? && Enumerates(order, w.phase.fetch.inFlight.Keys)
    requires Asks(w.phase.versioned, SegsOf(w.phase.fetch, order), now) <= v.asks
    ensures forall i :: i in SegsInFlight(w.phase.fetch) ==> OnTheWay(v, i)
  {
    var f, segs := w.phase.fetch, SegsOf(w.phase.fetch, order);
    SegsOfElems(f, order);
    BatchBounds(j, f);
    hide OnTheWay, SegsOf, Elems, Asks;
    forall i | i in SegsInFlight(f)
      ensures OnTheWay(v, i)
    {
      InFlightBelow(f, i);
      SentOnTheWay(v, w.phase.versioned, segs, now, i);
    }
  }

  lemma MoreCovered(j: Job, w: World, v: World)
    requires j.Valid() && Covered(j, w) && Tally(w)
    requires v.phase == w.phase && v.spent == w.spent && v.lost >= w.lost && v.strays >= w.strays
    requires w.phase.Discovering? ==> w.spent == 0
    requires v.lost == w.lost ==>
              (forall a :: a in w.asks ==> a in v.asks) && (forall p :: p in w.parcels ==> p in v.parcels)
    ensures Covered(j, v)
  {
    if w.phase.Fetching? && v.lost == v.spent {
      forall i | i in SegsInFlight(w.phase.fetch)
        ensures OnTheWay(v, i)
      {
        StillOnTheWay(w, v, i);
      }
    }
  }

  lemma StepCovered(j: Job, w: World, e: Event)
    requires j.Valid() && Safe(j, w) && Timed(w) && Covered(j, w) && Tally(w)
    requires w.phase.Discovering? ==> w.spent == 0
    requires Enabled(j, w, e) && Prompt(j, w, e)
    ensures Covered(j, Next(j, w, e))
  {
    hide Safe, Timed, LoopHead, Delivered, Covered;
    match e {
      case Serve(a) => ServeCovered(j, w, a);
      case Deliver(p, now) => DeliverCovered(j, w, p, now);
      case Noise(now) => NoiseCovered(j, w, now);
      case Idle(now, order) =>
        if w.phase.Fetching? {
          AllStale(j, w, now);
          IdleCovered(j, w, order, now);
        } else {
          DiscoveryTimeoutCovered(j, w, order, now);
        }
      case Close => assert Covered(j, w.(phase := Failed(Closed))) by { CloseCovered(j, w); }
      case _ => MoreCovered(j, w, Next(j, w, e));
    }
  }

  lemma CloseCovered(j: Job, w: World)
    requires j.Valid()
    ensures Covered(j, w.(phase := Failed(Closed)))
  {
  }

  lemma NoiseCovered(j: Job, w: World, now: nat)
    requires j.Valid() && Safe(j, w) && Covered(j, w) && Enabled(j, w, Noise(now))
    ensures Covered(j, Next(j, w, Noise(now)))
  {
    hide Inv, Saturated, OnTheWay, LoopHead, SegsInFlight, AsksOk, ParcelsOk, HoldsChunks;
    if w.phase.Fetching? {
      var v := w.(strays := w.strays + 1);
      forall i | w.lost == w.spent && i in SegsInFlight(w.phase.fetch)
        ensures OnTheWay(v, i)
      {
        StillOnTheWay(w, v, i);
      }
      NextIsLoopHead(j, w, now);
      hide Next;
      LoopHeadCovered(j, v, w.phase.versioned, w.phase.fetch, now);
    }
  }

  lemma NextIsLoopHead(j: Job, w: World, now: nat)
    requires j.Valid() && Enabled(j, w, Noise(now)) && w.phase.Fetching?
    ensures Next(j, w, Noise(now)) == LoopHead(w.(strays := w.strays + 1), w.phase.versioned, w.phase.fetch, now)
  {
    hide LoopHead;
  }

  lemma DiscoveryTimeoutCovered(j: Job, w: World, order: seq<nat>, now: nat)
    requires j.Valid() && Timed(w) && Covered(j, w) && w.phase.Discovering?
    requires now >= w.clock + j.lifetime + GRACE && YoungAt(j, w, now)
    ensures Covered(j, TimedOut(w, order, now))
  {
    QuietAtTimeout(j, w, now);
  }

  function Credit(pipeline: nat, losses: int): int {
    (2 * pipeline + 1) * losses
  }

  /** Segments still to be requested, twice, and one for ending. */
  function Todo(j: Job, phase: Phase): int
    requires j.Valid()
  {
    match phase
    case Discovering => 2 * Count(j.o) + 1
    case Fetching(_, f) => 2 * (f.total - f.nextSeg) + 1
    case _ => 0
  }

  /** The work still possible: packets to move, segments to request, and what the budgets of
      `losses` and `strays` can still add. Every step uses some of it up. */
  function Rank(j: Job, w: World, losses: nat, strays: nat): int
    requires j.Valid()
  {
    Credit(j.pipeline, losses - w.timeouts) + 3 * (strays - w.strays) + 2 * |w.asks| + |w.parcels| + Todo(j, w.phase)
  }

  lemma LoopHeadRank(j: Job, w: World, versioned: Name, f: Fetch, now: nat, losses: nat, strays: nat)
    requires j.Valid() && f.nextSeg <= f.total
    ensures Rank(j, LoopHead(w, versioned, f, now), losses, strays) <=
              Rank(j, w.(phase := Fetching(versioned, f)), losses, strays)
  {
    var batch := NextBatch(f, f.nextSeg, Room(f)).0;
    AsksSize(versioned, batch, now);
    RefillFrame(f, now);
    hide Refill, Credit;
  }

  lemma BegunTodo(j: Job, d: Data)
    requires j.Valid() && Genuine(j.o, d) && Discover(d, j.pipeline).Begin?
    ensures d.name != [] && Discover(d, j.pipeline).fetch.nextSeg <= Discover(d, j.pipeline).fetch.total
    ensures Todo(j, Fetching(d.name[..|d.name| - 1], Discover(d, j.pipeline).fetch)) <= Todo(j, Discovering)
  {
    DiscoverGenuine(j, d);
    BatchBounds(j, Discover(d, j.pipeline).fetch);
    hide Inv;
  }

  lemma DiscoveredRank(j: Job, w: World, d: Data, now: nat, losses: nat, strays: nat)
    requires j.Valid() && w.phase.Discovering? && Genuine(j.o, d)
    ensures Rank(j, Discovered(j, w, d, now), losses, strays) <= Rank(j, w, losses, strays)
  {
    hide Credit, LoopHead, Genuine, Discover, Count;
    match Discover(d, j.pipeline) {
      case Begin(f) =>
        BegunTodo(j, d);
        LoopHeadRank(j, w, d.name[..|d.name| - 1], f, now, losses, strays);
        hide Todo;
      case _ =>
    }
  }

  lemma TakenParcel(j: Job, w: World, p: Parcel, phase: Phase, losses: nat, strays: nat)
    requires j.Valid() && p in w.parcels && Todo(j, phase) == Todo(j, w.phase)
    ensures Rank(j, w.(parcels := w.parcels - multiset{p}, phase := phase), losses, strays) < Rank(j, w, losses, strays)
  {
    hide Todo, Credit;
  }

  lemma DeliverRank(j: Job, w: World, p: Parcel, now: nat, losses: nat, strays: nat)
    requires j.Valid() && Safe(j, w) && Active(w) && p in w.parcels
    ensures Rank(j, Delivered(j, w.(parcels := w.parcels - multiset{p}), p.data, now), losses, strays) <
              Rank(j, w, losses, strays)
  {
    var v := w.(parcels := w.parcels - multiset{p});
    ActiveBounds(j, w);
    assert Genuine(j.o, p.data);
    hide Safe, Genuine, LoopHead, Discovered, Rank;
    if w.phase.Discovering? {
      DiscoveredRank(j, v, p.data, now, losses, strays);
      TakenParcel(j, w, p, w.phase, losses, strays);
    } else {
      var f := Receive(w.phase.fetch, LastSegment(p.data.name), p.data.content);
      TakenParcel(j, w, p, Fetching(w.phase.versioned, f), losses, strays);
      LoopHeadRank(j, v, w.phase.versioned, f, now, losses, strays);
    }
  }

  lemma FetchingTodo(j: Job, versioned: Name, f: Fetch, g: Fetch)
    requires j.Valid() && f.total == g.total && f.nextSeg == g.nextSeg
    ensures Todo(j, Fetching(versioned, f)) == Todo(j, Fetching(versioned, g))
  {
  }

  /** Re-sending at most a pipeline of Interests costs less than the credit of the timeout. */
  lemma ResentRank(j: Job, w: World, segs: seq<nat>, now: nat, phase: Phase, losses: nat, strays: nat)
    requires j.Valid() && w.phase.Fetching? && |segs| <= j.pipeline && Todo(j, phase) == Todo(j, w.phase)
    ensures var v := w.(asks := w.asks + Asks(w.phase.versioned, segs, now), timeouts := w.timeouts + 1,
                        spent := w.lost, phase := phase);
            Rank(j, v, losses, strays) < Rank(j, w, losses, strays)
  {
    hide Todo, Credit;
    AsksSize(w.phase.versioned, segs, now);
    CreditStep(j.pipeline, losses - w.timeouts - 1);
  }

  lemma CreditStep(pipeline: nat, losses: int)
    ensures Credit(pipeline, losses + 1) == Credit(pipeline, losses) + (2 * pipeline + 1)
  {
  }

  lemma InFlightBound(j: Job, w: World)
    requires j.Valid() && Safe(j, w) && w.phase.Fetching?
    ensures |w.phase.fetch.inFlight| <= j.pipeline
  {
    assert InvBut(w.phase.fetch, {});
    hide Carried, Table, AsksOk, ParcelsOk;
  }

  lemma IdleRank(j: Job, w: World, order: seq<nat>, now: nat, losses: nat, strays: nat)
    requires j.Valid() && Safe(j, w) && w.phase.Fetching? && Enumerates(order, w.phase.fetch.inFlight.Keys)
    ensures Rank(j, TimedOut(w, order, now), losses, strays) < Rank(j, w, losses, strays)
  {
    var f, versioned := w.phase.fetch, w.phase.versioned;
    var segs, g := SegsOf(f, order), Expire(f, order, now);
    ExpireKeeps(f, order, now);
    BatchBounds(j, f);
    InFlightBound(j, w);
    FetchingTodo(j, versioned, f, g);
    TimedOutIs(w, order, now);
    hide Inv, LoopHead, Safe, Todo, Expire, SegsInFlight, Rank, SegsOf, Asks, Enumerates, HoldsChunks, TimedOut;
    ResentRank(j, w, segs, now, Fetching(versioned, g), losses, strays);
    LoopHeadRank(j, w.(asks := w.asks + Asks(versioned, segs, now), timeouts := w.timeouts + 1, spent := w.lost),
                 versioned, g, now, losses, strays);
  }

  /** Events of the network, the producer and a closing connection. */
  lemma PassiveRank(j: Job, w: World, e: Event, losses: nat, strays: nat)
    requires j.Valid() && Enabled(j, w, e) && !e.Deliver? && !e.Noise? && !e.Idle?
    requires w.phase.Fetching? ==> w.phase.fetch.nextSeg <= w.phase.fetch.total
    ensures Rank(j, Next(j, w, e), losses, strays) < Rank(j, w, losses, strays)
  {
    hide Reply, Credit, Count;
  }

  lemma NoiseRank(j: Job, w: World, now: nat, losses: nat, strays: nat)
    requires j.Valid() && Active(w) && now >= w.clock
    requires w.phase.Fetching? ==> w.phase.fetch.nextSeg <= w.phase.fetch.total
    ensures Rank(j, Next(j, w, Noise(now)), losses, strays) < Rank(j, w, losses, strays)
  {
    hide LoopHead, Credit, Count;
    if w.phase.Fetching? {
      LoopHeadRank(j, w.(strays := w.strays + 1), w.phase.versioned, w.phase.fetch, now, losses, strays);
    }
  }

  lemma StepRank(j: Job, w: World, e: Event, losses: nat, strays: nat)
    requires j.Valid() && Safe(j, w) && Timed(w) && Enabled(j, w, e)
    ensures Rank(j, Next(j, w, e), losses, strays) < Rank(j, w, losses, strays)
  {
    ActiveBounds(j, w);
    hide Safe, Delivered, TimedOut, LoopHead, Reply, Rank;
    match e {
      case Deliver(p, now) => DeliverRank(j, w, p, now, losses, strays);
      case Noise(now) => NoiseRank(j, w, now, losses, strays);
      case Idle(now, order) =>
        if w.phase.Fetching? {
          AllStale(j, w, now);
          IdleRank(j, w, order, now, losses, strays);
        } else {
          DiscoveryTimeoutRank(j, w, order, now, losses, strays);
        }
      case _ =>
        hide Next;
        PassiveRank(j, w, e, losses, strays);
    }
  }

  lemma DiscoveryTimeoutRank(j: Job, w: World, order: seq<nat>, now: nat, losses: nat, strays: nat)
    requires j.Valid() && w.phase.Discovering?
    ensures Rank(j, TimedOut(w, order, now), losses, strays) < Rank(j, w, losses, strays)
  {
  }

  lemma ActiveBounds(j: Job, w: World)
    requires j.Valid() && Safe(j, w)
    ensures w.phase.Fetching? ==> w.phase.fetch.nextSeg <= w.phase.fetch.total
  {
    if w.phase.Fetching? {
      BatchBounds(j, w.phase.fetch);
    }
  }

  lemma LoopHeadFields(w: World, versioned: Name, f: Fetch, now: nat)
    ensures var v := LoopHead(w, versioned, f, now);
            && v.lost == w.lost && v.spent == w.spent && v.timeouts == w.timeouts && v.strays == w.strays
            && (v.phase.Fetching? || v.phase.Returned? || v.phase == Failed(Incomplete))
  {
    hide Refill;
  }

  /** How one event moves the tallies and the phase. */
  ghost predicate Moves(w: World, e: Event, v: World) {
    && v.lost >= w.lost && v.strays >= w.strays
    && (if e.Idle? && w.phase.Fetching? then v.timeouts == w.timeouts + 1 && v.spent == w.lost
        else v.timeouts == w.timeouts && v.spent == w.spent)
    && (v.phase.Discovering? ==> w.phase.Discovering?)
    && (v.phase == Failed(Closed) ==> e == Close || w.phase == v.phase)
    && (!Active(w) ==> v.phase == w.phase)
    && (w.phase.Fetching? && e != Close ==> v.phase.Fetching? || v.phase.Returned? || v.phase == Failed(Incomplete))
  }

  lemma DeliverMoves(j: Job, w: World, p: Parcel, now: nat)
    requires Active(w)
    ensures Moves(w, Deliver(p, now), Delivered(j, w.(parcels := w.parcels - multiset{p}), p.data, now))
  {
    var u := w.(parcels := w.parcels - multiset{p});
    hide LoopHead;
    if w.phase.Fetching? {
      LoopHeadFields(u, w.phase.versioned, Receive(w.phase.fetch, LastSegment(p.data.name), p.data.content), now);
    } else if Discover(p.data, j.pipeline).Begin? {
      LoopHeadFields(u, p.data.name[..|p.data.name| - 1], Discover(p.data, j.pipeline).fetch, now);
    }
  }

  lemma NoiseMoves(j: Job, w: World, now: nat)
    requires j.Valid() && Enabled(j, w, Noise(now))
    ensures Moves(w, Noise(now), Next(j, w, Noise(now)))
  {
    hide LoopHead;
    if w.phase.Fetching? {
      LoopHeadFields(w.(strays := w.strays + 1), w.phase.versioned, w.phase.fetch, now);
    }
  }

  lemma IdleMoves(w: World, order: seq<nat>, now: nat)
    requires Active(w)
    requires w.phase.Fetching? ==> Elems(order) <= w.phase.fetch.inFlight.Keys
    ensures Moves(w, Idle(now, order), TimedOut(w, order, now))
  {
    hide LoopHead, Expire;
    if w.phase.Fetching? {
      var f, versioned := w.phase.fetch, w.phase.versioned;
      LoopHeadFields(w.(asks := w.asks + Asks(versioned, SegsOf(f, order), now), timeouts := w.timeouts + 1,
                        spent := w.lost),
                     versioned, Expire(f, order, now), now);
    }
  }

  lemma NextFields(j: Job, w: World, e: Event)
    requires j.Valid() && Enabled(j, w, e)
    ensures Moves(w, e, Next(j, w, e))
  {
    match e {
      case Deliver(p, now) =>
        hide Moves, Delivered;
        DeliverMoves(j, w, p, now);
      case Noise(now) =>
        hide Moves;
        NoiseMoves(j, w, now);
      case Idle(now, order) =>
        hide Moves, TimedOut;
        IdleMoves(w, order, now);
      case _ =>
        hide Moves, Next;
        PassiveMoves(j, w, e);
    }
  }

  lemma PassiveMoves(j: Job, w: World, e: Event)
    requires j.Valid() && Enabled(j, w, e) && !e.Deliver? && !e.Noise? && !e.Idle?
    ensures Moves(w, e, Next(j, w, e))
  {
    hide Reply;
  }

  lemma StepTally(j: Job, w: World, e: Event)
    requires j.Valid() && Safe(j, w) && Timed(w) && Covered(j, w) && Tally(w)
    requires w.phase.Discovering? ==> w.spent == 0
    requires Enabled(j, w, e) && Prompt(j, w, e)
    ensures var v := Next(j, w, e);
            Tally(v) && (v.phase.Discovering? ==> v.spent == 0)
  {
    hide Safe, Timed, Covered, Next;
    if e.Idle? && w.phase.Fetching? {
      IdleMeansLoss(j, w, e.now);
    }
    NextFields(j, w, e);
  }

  lemma InitCovered(j: Job)
    requires j.Valid()
    ensures Covered(j, Init(j)) && Tally(Init(j)) && Init(j).spent == 0
  {
    assert Ask(j.prefix, 0) in Init(j).asks;
  }

  /** What holds in every state of a prompt run. */
  lemma {:induction false} PromptInvariant(j: Job, ws: seq<World>, es: seq<Event>, i: nat)
    requires j.Valid() && PromptRun(j, ws, es) && i < |ws|
    ensures Safe(j, ws[i]) && Timed(ws[i]) && Covered(j, ws[i]) && Tally(ws[i])
    ensures ws[i].phase.Discovering? ==> ws[i].spent == 0
  {
    hide Safe, Timed, Covered, Tally, Next, Enabled, Prompt;
    RunInvariant(j, ws, es, i);
    if i == 0 {
      InitCovered(j);
    } else {
      PromptInvariant(j, ws, es, i - 1);
      assert StepAt(j, ws, es, i - 1) && PromptAt(j, ws, es, i - 1);
      StepCovered(j, ws[i - 1], es[i - 1]);
      StepTally(j, ws[i - 1], es[i - 1]);
    }
  }

  /** The fetch loop times out at most once per lost packet. */
  lemma TimeoutsAtMostLosses(j: Job, ws: seq<World>, es: seq<Event>, i: nat)
    requires j.Valid() && PromptRun(j, ws, es) && i < |ws|
    ensures ws[i].timeouts <= ws[i].lost
  {
    PromptInvariant(j, ws, es, i);
  }

  lemma {:induction false} RankDescends(j: Job, ws: seq<World>, es: seq<Event>, i: nat, losses: nat, strays: nat)
    requires j.Valid() && Run(j, ws, es) && i < |ws|
    ensures i + Rank(j, ws[i], losses, strays) <= Rank(j, ws[0], losses, strays)
  {
    assert |ws| == |es| + 1;
    hide Safe, Timed, Rank, Next, Enabled, Run, StepAt;
    if i > 0 {
      RankDescends(j, ws, es, i - 1, losses, strays);
      StepOf(j, ws, es, i - 1);
      RunInvariant(j, ws, es, i - 1);
      StepRank(j, ws[i - 1], es[i - 1], losses, strays);
    }
  }

  /** A fetch with few losses and strays is short: at most this many events of any kind. */
  lemma BoundedRun(j: Job, ws: seq<World>, es: seq<Event>)
    requires j.Valid() && PromptRun(j, ws, es)
    ensures var end := ws[|es|];
            |es| <= (2 * j.pipeline + 1) * end.lost + 3 * end.strays + 2 * Count(j.o) + 3
  {
    var end := ws[|es|];
    RankDescends(j, ws, es, |es|, end.lost, end.strays);
    PromptInvariant(j, ws, es, |es|);
    ActiveBounds(j, end);
    hide Safe, Timed, Covered;
    assert Credit(j.pipeline, end.lost - end.timeouts) >= 0;
  }

  /** Nothing on the way is overdue at the time of the last event. */
  lemma {:induction false} StaysYoung(j: Job, ws: seq<World>, es: seq<Event>, i: nat)
    requires j.Valid() && 0 < j.lifetime && PromptRun(j, ws, es) && i < |ws|
    ensures YoungAt(j, ws[i], ws[i].clock)
  {
    if i > 0 {
      StaysYoung(j, ws, es, i - 1);
      assert StepAt(j, ws, es, i - 1) && PromptAt(j, ws, es, i - 1);
      RunInvariant(j, ws, es, i - 1);
      StepYoung(j, ws[i - 1], es[i - 1]);
    }
  }

  lemma LoopHeadYoung(j: Job, w: World, versioned: Name, f: Fetch, now: nat)
    requires 0 < j.lifetime && YoungAt(j, w, now)
    ensures YoungAt(j, LoopHead(w, versioned, f, now), now)
  {
    var batch := NextBatch(f, f.nextSeg, Room(f)).0;
    forall a | a in Asks(versioned, batch, now)
      ensures a.born == now
    {
      AsksBorn(versioned, batch, now, a);
    }
  }

  lemma IdleYoung(j: Job, w: World, order: seq<nat>, now: nat)
    requires 0 < j.lifetime && YoungAt(j, w, now) && w.phase.Fetching?
    requires Elems(order) <= w.phase.fetch.inFlight.Keys
    ensures YoungAt(j, TimedOut(w, order, now), now)
  {
    var f, versioned := w.phase.fetch, w.phase.versioned;
    var sent := Asks(versioned, SegsOf(f, order), now);
    forall a | a in sent
      ensures a.born == now
    {
      AsksBorn(versioned, SegsOf(f, order), now, a);
    }
    hide LoopHead, Expire;
    LoopHeadYoung(j, w.(asks := w.asks + sent, timeouts := w.timeouts + 1, spent := w.lost),
                  versioned, Expire(f, order, now), now);
  }

  lemma FewerYoung(j: Job, w: World, v: World, now: nat)
    requires YoungAt(j, w, now)
    requires forall a :: a in v.asks ==> a in w.asks
    requires forall p :: p in v.parcels ==> p in w.parcels || exists a :: a in w.asks && a.born == p.born
    ensures YoungAt(j, v, now)
  {
  }

  lemma DeliverYoung(j: Job, w: World, p: Parcel, now: nat)
    requires 0 < j.lifetime && YoungAt(j, w, now) && Active(w)
    ensures YoungAt(j, Delivered(j, w.(parcels := w.parcels - multiset{p}), p.data, now), now)
  {
    var v := w.(parcels := w.parcels - multiset{p});
    hide LoopHead;
    if w.phase.Fetching? {
      LoopHeadYoung(j, v, w.phase.versioned, Receive(w.phase.fetch, LastSegment(p.data.name), p.data.content), now);
    } else if Discover(p.data, j.pipeline).Begin? {
      LoopHeadYoung(j, v, p.data.name[..|p.data.name| - 1], Discover(p.data, j.pipeline).fetch, now);
    }
  }

  lemma PassiveYoung(j: Job, w: World, e: Event)
    requires j.Valid() && Enabled(j, w, e) && !e.Deliver? && !e.Noise? && !e.Idle? && YoungAt(j, w, w.clock)
    ensures YoungAt(j, Next(j, w, e), w.clock)
  {
    hide Reply, YoungAt;
    FewerYoung(j, w, Next(j, w, e), w.clock);
  }

  lemma NoiseYoung(j: Job, w: World, now: nat)
    requires j.Valid() && 0 < j.lifetime && YoungAt(j, w, now) && Active(w) && now >= w.clock
    ensures YoungAt(j, Next(j, w, Noise(now)), now)
  {
    hide LoopHead;
    if w.phase.Fetching? {
      LoopHeadYoung(j, w.(strays := w.strays + 1), w.phase.versioned, w.phase.fetch, now);
    }
  }

  lemma DiscoveryTimeoutYoung(j: Job, w: World, order: seq<nat>, now: nat)
    requires YoungAt(j, w, now) && w.phase.Discovering?
    ensures YoungAt(j, TimedOut(w, order, now), now)
  {
  }

  lemma StepYoung(j: Job, w: World, e: Event)
    requires j.Valid() && 0 < j.lifetime && YoungAt(j, w, w.clock) && Enabled(j, w, e) && Prompt(j, w, e)
    ensures YoungAt(j, Next(j, w, e), Next(j, w, e).clock)
  {
    NextClock(j, w, e);
    hide LoopHead, Delivered, TimedOut, Reply, YoungAt;
    match e {
      case Deliver(p, now) => DeliverYoung(j, w, p, now);
      case Noise(now) => NoiseYoung(j, w, now);
      case Idle(now, order) =>
        if w.phase.Fetching? {
          IdleYoung(j, w, order, now);
        } else {
          DiscoveryTimeoutYoung(j, w, order, now);
        }
      case _ =>
        hide Next;
        PassiveYoung(j, w, e);
    }
  }

  lemma NextClock(j: Job, w: World, e: Event)
    requires j.Valid() && Enabled(j, w, e)
    ensures Next(j, w, e).clock ==
            match e { case Deliver(_, now) => now case Noise(now) => now case Idle(now, _) => now case _ => w.clock }
  {
    hide Refill, Reply, Expire;
  }

  /** An unfinished fetch is never stuck: the producer can serve, a Data can arrive, or the wait times out. */
  lemma NeverStuck(j: Job, ws: seq<World>, es: seq<Event>) returns (e: Event)
    requires j.Valid() && 0 < j.lifetime && PromptRun(j, ws, es) && Active(ws[|es|])
    ensures Enabled(j, ws[|es|], e) && Prompt(j, ws[|es|], e)
    ensures e.Serve? || e.Deliver? || e.Idle?
  {
    var w := ws[|es|];
    StaysYoung(j, ws, es, |es|);
    if w.asks != multiset{} {
      var a :| a in w.asks;
      e := Serve(a);
    } else if w.parcels != multiset{} {
      var p :| p in w.parcels;
      e := Deliver(p, w.clock);
    } else {
      var now := w.clock + j.lifetime + GRACE;
      var order := [];
      if w.phase.Fetching? {
        order := SomeEnumeration(StaleKeys(w.phase.fetch, j.lifetime, now));
      }
      e := Idle(now, order);
    }
  }

  /** Once discovery has succeeded, only a closed connection keeps the fetch from returning the payload. */
  lemma {:induction false} FetchOnlyEndsWell(j: Job, ws: seq<World>, es: seq<Event>, from: nat, i: nat)
    requires j.Valid() && Run(j, ws, es) && from <= i < |ws| && ws[from].phase.Fetching? && Close !in es
    ensures ws[i].phase.Fetching? || ws[i].phase == Returned(j.o.payload)
    decreases i - from
  {
    hide Safe, Timed, Next;
    RunInvariant(j, ws, es, i);
    if i > from {
      FetchOnlyEndsWell(j, ws, es, from, i - 1);
      assert es[i - 1] in es;
      assert StepAt(j, ws, es, i - 1);
      SafePhase(j, ws[i]);
      NextFields(j, ws[i - 1], es[i - 1]);
    }
  }

  lemma SafePhase(j: Job, w: World)
    requires j.Valid() && Safe(j, w)
    ensures w.phase.Returned? ==> w.phase.bytes == j.o.payload
    ensures !w.phase.Panicked? && w.phase != Failed(Incomplete)
  {
  }

  /** The whole story: a prompt run in which the connection stays open either can go on, and not for
      longer than the bound, or it has ended with the payload, or discovery itself went wrong - its
      one unrepeated exchange was lost, got no answer, or met an undecodable packet. */
  lemma Outcome(j: Job, ws: seq<World>, es: seq<Event>)
    requires j.Valid() && 0 < j.lifetime && PromptRun(j, ws, es) && Close !in es
    ensures var end := ws[|es|];
            || (Active(end) && exists e :: Enabled(j, end, e) && Prompt(j, end, e) &&
                                           (e.Serve? || e.Deliver? || e.Idle?))
            || end.phase == Returned(j.o.payload)
            || (end.phase == Failed(NoResponse) && (end.lost >= 1 || !Answerable(j)))
            || (end.phase == Failed(Undecodable) && end.strays >= 1)
  {
    var end := ws[|es|];
    PromptInvariant(j, ws, es, |es|);
    NotClosed(j, ws, es, |es|);
    if Active(end) {
      var e := NeverStuck(j, ws, es);
    }
  }

  lemma {:induction false} NotClosed(j: Job, ws: seq<World>, es: seq<Event>, i: nat)
    requires j.Valid() && Run(j, ws, es) && Close !in es && i < |ws|
    ensures ws[i].phase != Failed(Closed)
  {
    if i > 0 {
      NotClosed(j, ws, es, i - 1);
      assert es[i - 1] in es;
      assert StepAt(j, ws, es, i - 1);
      hide Next;
      NextFields(j, ws[i - 1], es[i - 1]);
    }
  }

  /** The discovery exchange is gone: neither its Interest nor an answer is left in the network. */
  ghost predicate DiscoveryGone(w: World) {
    w.phase.Failed? || (w.phase.Discovering? && w.asks == multiset{} && w.parcels == multiset{})
  }

  /** Discovery is never repeated: once its Interest and all answers are gone, no run recovers. */
  lemma {:induction false} LostDiscoveryIsFinal(j: Job, ws: seq<World>, es: seq<Event>, from: nat, i: nat)
    requires j.Valid() && Run(j, ws, es) && from <= i < |ws| && DiscoveryGone(ws[from])
    ensures DiscoveryGone(ws[i])
    decreases i - from
  {
    if i > from {
      LostDiscoveryIsFinal(j, ws, es, from, i - 1);
      assert StepAt(j, ws, es, i - 1);
      hide LoopHead, Reply;
    }
  }

  /** Losing the one discovery Interest ends the fetch at its first elapsed wait, whatever is published. */
  lemma LostInterestFails(j: Job)
    requires j.Valid()
    ensures var es := [LoseAsk(Ask(j.prefix, 0)), Idle(j.lifetime + GRACE, [])];
            exists ws: seq<World> ::
              Run(j, ws, es) && ws[|es|].phase == Failed(NoResponse) && ws[|es|].lost == 1
  {
    var a, now := Ask(j.prefix, 0), j.lifetime + GRACE;
    var es := [LoseAsk(a), Idle(now, [])];
    var w0 := Init(j);
    var w1 := w0.(asks := multiset{}, lost := 1);
    assert w0.asks - multiset{a} == multiset{};
    var ws := [w0, w1, w1.(phase := Failed(NoResponse), clock := now)];
    assert StepAt(j, ws, es, 0) && StepAt(j, ws, es, 1);
    assert Run(j, ws, es);
  }

  /** Losing the answer does the same. */
  lemma LostAnswerFails(j: Job)
    requires j.Valid() && Answerable(j)
    ensures exists ws: seq<World>, es: seq<Event> ::
              Run(j, ws, es) && |es| == 3 && ws[3].phase == Failed(NoResponse) && ws[3].lost == 1 && ws[3].strays == 0
  {
    ReplyIsGenuine(j.o, j.prefix);
    var a, p, now := Ask(j.prefix, 0), Parcel(Reply(j.o, j.prefix).value, 0), j.lifetime + GRACE;
    hide Reply, LoopHead, Delivered;
    var es := [Serve(a), LoseParcel(p), Idle(now, [])];
    var w0 := Init(j);
    var w1 := Next(j, w0, es[0]);
    assert w1 == w0.(asks := multiset{}, parcels := multiset{p}) by {
      assert w0.asks - multiset{a} == multiset{} && w0.parcels + multiset{p} == multiset{p};
    }
    var w2 := Next(j, w1, es[1]);
    assert w2 == w1.(parcels := multiset{}, lost := 1) by {
      assert w1.parcels - multiset{p} == multiset{};
    }
    var w3 := Next(j, w2, es[2]);
    assert w3 == w2.(phase := Failed(NoResponse), clock := now);
    hide Next;
    var ws := [w0, w1, w2, w3];
    assert StepAt(j, ws, es, 0) && StepAt(j, ws, es, 1) && StepAt(j, ws, es, 2);
    hide Enabled;
    assert Run(j, ws, es);
  }

  ghost predicate DiscoveredAt(j: Job, ws: seq<World>, es: seq<Event>, k: nat)
    requires |ws| == |es| + 1 && k < |es|
  {
    ws[k].phase.Discovering? && es[k].Deliver?
  }

  lemma {:induction false} NothingDiscovered(j: Job, ws: seq<World>, es: seq<Event>, i: nat)
    requires j.Valid() && Run(j, ws, es) && i < |ws|
    requires forall k: nat :: k < i ==> !DiscoveredAt(j, ws, es, k)
    ensures ws[i].phase.Discovering? || ws[i].phase.Failed?
  {
    if i > 0 {
      NothingDiscovered(j, ws, es, i - 1);
      assert StepAt(j, ws, es, i - 1) && !DiscoveredAt(j, ws, es, i - 1);
      hide LoopHead, Reply;
    }
  }

  lemma OnlyActiveMoves(j: Job, w: World, e: Event)
    requires j.Valid() && Enabled(j, w, e) && !Active(w)
    ensures Next(j, w, e).phase == w.phase
  {
    hide Reply;
  }

  lemma {:induction false} StaysReturned(j: Job, ws: seq<World>, es: seq<Event>, from: nat, i: nat)
    requires j.Valid() && Run(j, ws, es) && from <= i < |ws| && ws[from].phase.Returned?
    ensures ws[i].phase == ws[from].phase
    decreases i - from
  {
    if i > from {
      hide Next, Run, StepAt;
      StaysReturned(j, ws, es, from, i - 1);
      StepOf(j, ws, es, i - 1);
      OnlyActiveMoves(j, ws[i - 1], es[i - 1]);
    }
  }

  /** A run that has ended without the connection closing returned the payload exactly when a Data
      was delivered while discovering: no later loss, duplicate or stray can make it fail, and
      nothing can make up for a discovery that got no answer. */
  lemma ReturnsExactlyIfDiscovered(j: Job, ws: seq<World>, es: seq<Event>)
    requires j.Valid() && Run(j, ws, es) && Close !in es && !Active(ws[|es|])
    ensures ws[|es|].phase == Returned(j.o.payload) <==> exists k: nat :: k < |es| && DiscoveredAt(j, ws, es, k)
    ensures ws[|es|].phase != Returned(j.o.payload) ==>
              ws[|es|].phase == Failed(NoResponse) || ws[|es|].phase == Failed(Undecodable)
  {
    var n := |es|;
    RunInvariant(j, ws, es, n);
    SafePhase(j, ws[n]);
    NotClosed(j, ws, es, n);
    assert |ws| == n + 1;
    hide Safe, Timed;
    hide Run;
    if k: nat :| k < n && DiscoveredAt(j, ws, es, k) {
      DiscoveredReturns(j, ws, es, k);
    } else {
      NothingDiscovered(j, ws, es, n);
    }
  }

  lemma DiscoveredReturns(j: Job, ws: seq<World>, es: seq<Event>, k: nat)
    requires j.Valid() && Run(j, ws, es) && Close !in es && !Active(ws[|es|])
    requires k < |es| && DiscoveredAt(j, ws, es, k)
    ensures ws[|es|].phase == Returned(j.o.payload)
  {
    RunInvariant(j, ws, es, k + 1);
    DeliveredStarts(j, ws, es, k);
    SafePhase(j, ws[k + 1]);
    hide Safe, Timed, StepAt;
    if ws[k + 1].phase.Fetching? {
      FetchOnlyEndsWell(j, ws, es, k + 1, |es|);
    } else {
      StaysReturned(j, ws, es, k + 1, |es|);
    }
  }

  lemma DeliveredStarts(j: Job, ws: seq<World>, es: seq<Event>, k: nat)
    requires j.Valid() && Run(j, ws, es) && k < |es| && DiscoveredAt(j, ws, es, k)
    ensures ws[k + 1].phase.Fetching? || ws[k + 1].phase.Returned?
  {
    assert StepAt(j, ws, es, k);
    RunInvariant(j, ws, es, k + 1);
    SafePhase(j, ws[k + 1]);
    hide Safe, Timed, Discover, Refill, Asks, Assembled;
  }
}
