/** Safety of the segmented transfer: whatever the network and the clock do, the fetch
    returns the published payload or nothing, and its bookkeeping stays exact. */
module TransferSafety {
  import opened Prelude
  import opened Naming
  import opened FinalBlock
  import opened Put
  import opened Peek
  import opened Transfer

  /** The segments a packet can be about: those asked for so far. */
  predicate Known(j: Job, phase: Phase, i: nat) {
    match phase
    case Discovering => i == Asked(j.prefix)
    case Fetching(_, f) => i < f.nextSeg || i == f.first
    case _ => true
  }

  ghost predicate AsksOk(j: Job, phase: Phase, asks: multiset<Ask>) {
    forall a :: a in asks ==> Known(j, phase, Asked(a.name))
  }

  ghost predicate ParcelsOk(j: Job, phase: Phase, parcels: multiset<Parcel>)
    requires j.Valid()
  {
    forall p :: p in parcels ==> Genuine(j.o, p.data) && Known(j, phase, LastSegment(p.data.name).value)
  }

  /** Every stored segment is the published one. */
  ghost predicate HoldsChunks(j: Job, f: Fetch)
    requires j.Valid()
  {
    && f.total == Count(j.o) == |f.segments|
    && f.pipeline == j.pipeline
    && forall i :: 0 <= i < f.total && f.segments[i].Some? ==>
         f.segments[i].value == Chunks(j.o.payload, j.o.chunkSize)[i]
  }

  ghost predicate PhaseOk(j: Job, phase: Phase)
    requires j.Valid()
  {
    match phase
    case Discovering => true
    case Fetching(_, f) => Inv(f) && Saturated(f) && f.received < f.total && HoldsChunks(j, f)
    case Returned(bytes) => bytes == j.o.payload
    case Failed(cause) => cause != Incomplete
    case Panicked => false
  }

  ghost predicate Safe(j: Job, w: World)
    requires j.Valid()
  {
    PhaseOk(j, w.phase) && AsksOk(j, w.phase, w.asks) && ParcelsOk(j, w.phase, w.parcels)
  }

  lemma {:induction false} AsksMembers(versioned: Name, segs: seq<nat>, now: nat, a: Ask)
    requires a in Asks(versioned, segs, now)
    requires forall i :: 0 <= i < |segs| ==> segs[i] < TWO_64
    ensures a.born == now && LastSegment(a.name).Some? && LastSegment(a.name).value in segs
  {
    var n := |segs| - 1;
    if a in Asks(versioned, segs[..n], now) {
      AsksMembers(versioned, segs[..n], now, a);
    } else {
      LastSegmentOfAppend(versioned, segs[n]);
    }
  }

  /** The Interests a refill sends ask for segments below the new `nextSeg`. */
  lemma SentAsks(versioned: Name, f: Fetch, now: nat, a: Ask)
    requires f.nextSeg <= f.total < TWO_64
    requires a in Asks(versioned, NextBatch(f, f.nextSeg, Room(f)).0, now)
    ensures Asked(a.name) < NextBatch(f, f.nextSeg, Room(f)).1
  {
    var batch := NextBatch(f, f.nextSeg, Room(f)).0;
    assert forall i :: 0 <= i < |batch| ==> batch[i] in batch;
    AsksMembers(versioned, batch, now, a);
  }

  lemma LoopHeadPackets(j: Job, w: World, versioned: Name, f: Fetch, now: nat)
    requires j.Valid() && f.nextSeg <= f.total < TWO_64
    requires AsksOk(j, Fetching(versioned, f), w.asks) && ParcelsOk(j, Fetching(versioned, f), w.parcels)
    ensures var v := LoopHead(w, versioned, f, now);
            AsksOk(j, v.phase, v.asks) && ParcelsOk(j, v.phase, v.parcels)
  {
    RefillFrame(f, now);
    hide Refill, Genuine;
    var v := LoopHead(w, versioned, f, now);
    var sent := Asks(versioned, NextBatch(f, f.nextSeg, Room(f)).0, now);
    forall a | a in v.asks
      ensures Known(j, v.phase, Asked(a.name))
    {
      if a in sent {
        SentAsks(versioned, f, now, a);
      } else {
        assert a in w.asks;
      }
    }
  }

  /** The loop head keeps everything, and leaves the loop only with the whole payload. */
  lemma LoopHeadSafe(j: Job, w: World, versioned: Name, f: Fetch, now: nat)
    requires j.Valid() && Inv(f) && HoldsChunks(j, f)
    requires AsksOk(j, Fetching(versioned, f), w.asks) && ParcelsOk(j, Fetching(versioned, f), w.parcels)
    ensures Safe(j, LoopHead(w, versioned, f, now))
  {
    var g := Refill(f, now);
    BatchBounds(j, f);
    RefillKeeps(f, now);
    RefillFrame(f, now);
    hide Inv, Refill, AsksOk, ParcelsOk, Saturated;
    LoopHeadPackets(j, w, versioned, f, now);
    StoredFull(g.segments);
    if g.received == g.total {
      CompleteIsPayload(j, g);
    }
  }

  lemma BatchBounds(j: Job, f: Fetch)
    requires j.Valid() && Inv(f) && HoldsChunks(j, f)
    ensures f.nextSeg <= f.total < TWO_64 && f.received == Stored(f.segments)
  {
    assert Shape(f);
  }

  lemma CompleteIsPayload(j: Job, f: Fetch)
    requires j.Valid() && HoldsChunks(j, f)
    requires Stored(f.segments) == f.total
    ensures Assembled(f.segments) == Some(j.o.payload)
  {
    var chunks := Chunks(j.o.payload, j.o.chunkSize);
    StoredFull(f.segments);
    AssembledIsJoin(f.segments, chunks);
    ChunksFlatten(j.o.payload, j.o.chunkSize);
  }

  /** What the discovery response of a put producer leads to. */
  lemma DiscoverGenuine(j: Job, d: Data)
    requires j.Valid() && Genuine(j.o, d)
    ensures !Discover(d, j.pipeline).IndexOutOfBounds?
    ensures Discover(d, j.pipeline).Whole? ==> Count(j.o) == 1 && d.content == j.o.payload
    ensures Discover(d, j.pipeline).Begin? ==>
              var f := Discover(d, j.pipeline).fetch;
              Inv(f) && HoldsChunks(j, f) && f.first == LastSegment(d.name).value && f.received == 1 < f.total
  {
    ReadsBack(Count(j.o) - 1);
    assert Announced(d) == Count(j.o);
    match Discover(d, j.pipeline) {
      case Whole(_) =>
        ChunksFlatten(j.o.payload, j.o.chunkSize);
        var chunks := Chunks(j.o.payload, j.o.chunkSize);
        assert chunks == [chunks[0]];
        assert Flatten(chunks) == chunks[0] + Flatten([]);
      case Begin(f) => DiscoverEstablishes(d, j.pipeline);
      case IndexOutOfBounds =>
    }
  }

  lemma DiscoveredSafe(j: Job, w: World, d: Data, now: nat)
    requires j.Valid() && Safe(j, w) && w.phase.Discovering? && Genuine(j.o, d)
    requires LastSegment(d.name).value == Asked(j.prefix)
    ensures Safe(j, Discovered(j, w, d, now))
  {
    DiscoverGenuine(j, d);
    match Discover(d, j.pipeline) {
      case Begin(f) =>
        LoopHeadSafe(j, w, d.name[..|d.name| - 1], f, now);
      case _ =>
    }
  }

  lemma ReceivedSafe(j: Job, w: World, d: Data, now: nat)
    requires j.Valid() && Safe(j, w) && w.phase.Fetching? && Genuine(j.o, d)
    requires Known(j, w.phase, LastSegment(d.name).value)
    ensures Safe(j, Delivered(j, w, d, now))
  {
    var f := w.phase.fetch;
    var idx := LastSegment(d.name);
    ReceiveKeeps(f, idx, d.content);
    hide Inv;
    LoopHeadSafe(j, w, w.phase.versioned, Receive(f, idx, d.content), now);
  }

  lemma IdleSafe(j: Job, w: World, order: seq<nat>, now: nat)
    requires j.Valid() && Safe(j, w) && w.phase.Fetching?
    requires Enumerates(order, w.phase.fetch.inFlight.Keys)
    ensures Safe(j, TimedOut(w, order, now))
  {
    var f, versioned := w.phase.fetch, w.phase.versioned;
    var segs, g := SegsOf(f, order), Expire(f, order, now);
    ExpireKeeps(f, order, now);
    SegsBelow(f, order);
    assert HoldsChunks(j, f) && HoldsChunks(j, g);
    hide Inv, Expire, LoopHead, HoldsChunks, Saturated, SegsInFlight;
    ResentAsks(j, w.asks, versioned, f, g, segs, now);
    assert ParcelsOk(j, Fetching(versioned, g), w.parcels);
    LoopHeadSafe(j, w.(asks := w.asks + Asks(versioned, segs, now), timeouts := w.timeouts + 1, spent := w.lost),
                 versioned, g, now);
  }

  lemma ResentAsks(j: Job, asks: multiset<Ask>, versioned: Name, f: Fetch, g: Fetch, segs: seq<nat>, now: nat)
    requires AsksOk(j, Fetching(versioned, f), asks) && g.nextSeg == f.nextSeg <= TWO_64 && g.first == f.first
    requires forall i :: i in segs ==> i < f.nextSeg
    ensures AsksOk(j, Fetching(versioned, g), asks + Asks(versioned, segs, now))
  {
    assert forall i :: 0 <= i < |segs| ==> segs[i] in segs;
    forall a | a in asks + Asks(versioned, segs, now)
      ensures Known(j, Fetching(versioned, g), Asked(a.name))
    {
      if a in Asks(versioned, segs, now) {
        AsksMembers(versioned, segs, now, a);
      } else {
        assert Known(j, Fetching(versioned, f), Asked(a.name));
      }
    }
  }

  lemma SegsBelow(f: Fetch, order: seq<nat>)
    requires Inv(f) && Elems(order) == f.inFlight.Keys
    ensures f.nextSeg <= f.total
    ensures forall i :: i in SegsOf(f, order) ==> i < f.nextSeg
  {
    var segs := SegsOf(f, order);
    assert Shape(f) && Table(f);
    forall i | i in segs
      ensures i < f.nextSeg
    {
      var x :| 0 <= x < |segs| && segs[x] == i;
      ElemsIn(order, order[x]);
      assert Carries(f, order[x], i);
    }
  }

  /** Nothing is sent to the future: entries and packets carry times up to the present. */
  ghost predicate Timed(w: World) {
    && (forall a :: a in w.asks ==> a.born <= w.clock)
    && (forall p :: p in w.parcels ==> p.born <= w.clock)
    && (w.phase.Fetching? ==>
          forall k :: k in w.phase.fetch.inFlight ==> w.phase.fetch.inFlight[k].t0 <= w.clock)
  }

  /** By the time a wait has timed out, every outstanding Interest is stale. */
  lemma AllStale(j: Job, w: World, now: nat)
    requires Timed(w) && w.phase.Fetching? && now >= w.clock + j.lifetime + GRACE
    ensures StaleKeys(w.phase.fetch, j.lifetime, now) == w.phase.fetch.inFlight.Keys
  {
  }

  lemma FewerPackets(j: Job, w: World, v: World)
    requires j.Valid() && Safe(j, w)
    requires v.phase == w.phase || (v.phase.Failed? && v.phase.cause != Incomplete)
    requires forall a :: a in v.asks ==> a in w.asks
    requires forall p :: p in v.parcels ==> p in w.parcels
    ensures Safe(j, v)
  {
    hide Inv, Saturated, HoldsChunks, Genuine;
  }

  lemma ServeSafe(j: Job, w: World, a: Ask)
    requires j.Valid() && Safe(j, w) && a in w.asks
    ensures Safe(j, Next(j, w, Serve(a)))
  {
    ReplyIsGenuine(j.o, a.name);
    hide PhaseOk, Reply, Asked;
    var reply := Reply(j.o, a.name);
    assert Known(j, w.phase, Asked(a.name));
    var v := Next(j, w, Serve(a));
    assert v.phase == w.phase;
    forall p | p in v.parcels
      ensures Genuine(j.o, p.data) && Known(j, v.phase, LastSegment(p.data.name).value)
    {
      if p !in w.parcels {
        assert reply.Some? && p == Parcel(reply.value, a.born);
      }
    }
  }

  lemma DeliverSafe(j: Job, w: World, p: Parcel, now: nat)
    requires j.Valid() && Safe(j, w) && Active(w) && p in w.parcels
    ensures Safe(j, Delivered(j, w.(parcels := w.parcels - multiset{p}), p.data, now))
  {
    var v := w.(parcels := w.parcels - multiset{p});
    FewerPackets(j, w, v);
    assert Genuine(j.o, p.data) && Known(j, w.phase, LastSegment(p.data.name).value);
    hide Safe;
    if w.phase.Discovering? {
      DiscoveredSafe(j, v, p.data, now);
    } else {
      ReceivedSafe(j, v, p.data, now);
    }
  }

  lemma NoiseSafe(j: Job, w: World, now: nat)
    requires j.Valid() && Safe(j, w) && w.phase.Fetching?
    ensures Safe(j, LoopHead(w.(strays := w.strays + 1), w.phase.versioned, w.phase.fetch, now))
  {
    hide Inv, Saturated, HoldsChunks, LoopHead;
    LoopHeadSafe(j, w.(strays := w.strays + 1), w.phase.versioned, w.phase.fetch, now);
  }

  lemma StepSafe(j: Job, w: World, e: Event)
    requires j.Valid() && Safe(j, w) && Timed(w) && Enabled(j, w, e)
    ensures Safe(j, Next(j, w, e))
  {
    hide Safe, LoopHead, Delivered, TimedOut;
    match e {
      case Serve(a) => ServeSafe(j, w, a);
      case Deliver(p, now) => DeliverSafe(j, w, p, now);
      case Noise(now) =>
        if w.phase.Fetching? {
          NoiseSafe(j, w, now);
        } else {
          FewerPackets(j, w, Next(j, w, e));
        }
      case Idle(now, order) =>
        if w.phase.Fetching? {
          AllStale(j, w, now);
          IdleSafe(j, w, order, now);
        } else {
          DiscoveryTimeout(j, w, order, now);
        }
      case _ => PassiveSafe(j, w, e);
    }
  }

  lemma PassiveSafe(j: Job, w: World, e: Event)
    requires j.Valid() && Safe(j, w) && Enabled(j, w, e) && !e.Deliver? && !e.Noise? && !e.Idle? && !e.Serve?
    ensures Safe(j, Next(j, w, e))
  {
    hide Safe;
    FewerPackets(j, w, Next(j, w, e));
  }

  lemma DiscoveryTimeout(j: Job, w: World, order: seq<nat>, now: nat)
    requires j.Valid() && Safe(j, w) && w.phase.Discovering?
    ensures Safe(j, TimedOut(w, order, now))
  {
    FewerPackets(j, w, TimedOut(w, order, now));
  }

  lemma {:induction false} AsksBorn(versioned: Name, segs: seq<nat>, now: nat, a: Ask)
    requires a in Asks(versioned, segs, now)
    ensures a.born == now
  {
    var n := |segs| - 1;
    if a in Asks(versioned, segs[..n], now) {
      AsksBorn(versioned, segs[..n], now, a);
    }
  }

  lemma LoopHeadTimed(w: World, versioned: Name, f: Fetch, now: nat)
    requires now >= w.clock
    requires forall a :: a in w.asks ==> a.born <= now
    requires forall p :: p in w.parcels ==> p.born <= now
    requires forall k :: k in f.inFlight ==> f.inFlight[k].t0 <= now
    ensures Timed(LoopHead(w, versioned, f, now))
  {
    var (batch, stop) := NextBatch(f, f.nextSeg, Room(f));
    var h := f.(nextSeg := stop);
    forall a | a in Asks(versioned, batch, now)
      ensures a.born <= now
    {
      AsksBorn(versioned, batch, now, a);
    }
    forall k | k in Launch(h, batch, now).inFlight
      ensures Launch(h, batch, now).inFlight[k].t0 <= now
    {
      LaunchStamps(h, batch, now, k);
    }
  }

  lemma LaterTimed(w: World, v: World)
    requires Timed(w) && v.clock >= w.clock
    requires v.phase == w.phase || !v.phase.Fetching?
    requires forall a :: a in v.asks ==> a in w.asks
    requires forall p :: p in v.parcels ==> p in w.parcels
    ensures Timed(v)
  {
  }

  lemma PassiveTimed(j: Job, w: World, e: Event)
    requires j.Valid() && Timed(w) && Enabled(j, w, e) && !e.Deliver? && !e.Noise? && !e.Idle? && !e.Serve?
    ensures Timed(Next(j, w, e))
  {
    LaterTimed(w, Next(j, w, e));
  }

  lemma ServeTimed(j: Job, w: World, a: Ask)
    requires j.Valid() && Timed(w) && a in w.asks
    ensures Timed(Next(j, w, Serve(a)))
  {
    hide Reply;
  }

  lemma DeliverTimed(j: Job, w: World, p: Parcel, now: nat)
    requires Timed(w) && Active(w) && now >= w.clock
    ensures Timed(Delivered(j, w.(parcels := w.parcels - multiset{p}), p.data, now))
  {
    var v := w.(parcels := w.parcels - multiset{p});
    hide LoopHead;
    if w.phase.Fetching? {
      LoopHeadTimed(v, w.phase.versioned, Receive(w.phase.fetch, LastSegment(p.data.name), p.data.content), now);
    } else if Discover(p.data, j.pipeline).Begin? {
      LoopHeadTimed(v, p.data.name[..|p.data.name| - 1], Discover(p.data, j.pipeline).fetch, now);
    }
  }

  lemma NoiseTimed(w: World, now: nat)
    requires Timed(w) && w.phase.Fetching? && now >= w.clock
    ensures Timed(LoopHead(w.(strays := w.strays + 1), w.phase.versioned, w.phase.fetch, now))
  {
    LoopHeadTimed(w.(strays := w.strays + 1), w.phase.versioned, w.phase.fetch, now);
  }

  lemma StepTimed(j: Job, w: World, e: Event)
    requires j.Valid() && Timed(w) && Enabled(j, w, e)
    ensures Timed(Next(j, w, e))
  {
    hide LoopHead, Delivered, Reply, Timed;
    match e {
      case Deliver(p, now) => DeliverTimed(j, w, p, now);
      case Noise(now) =>
        if w.phase.Fetching? {
          NoiseTimed(w, now);
        } else {
          LaterTimed(w, Next(j, w, e));
        }
      case Idle(now, order) =>
        if w.phase.Fetching? {
          hide TimedOut;
          IdleTimed(j, w, order, now);
        } else {
          LaterTimed(w, Next(j, w, e));
        }
      case Serve(a) => ServeTimed(j, w, a);
      case _ => PassiveTimed(j, w, e);
    }
  }

  lemma IdleTimed(j: Job, w: World, order: seq<nat>, now: nat)
    requires Timed(w) && w.phase.Fetching? && now >= w.clock
    requires Elems(order) <= w.phase.fetch.inFlight.Keys
    ensures Timed(TimedOut(w, order, now))
  {
    var f, versioned := w.phase.fetch, w.phase.versioned;
    var segs := SegsOf(f, order);
    forall a | a in Asks(versioned, segs, now)
      ensures a.born == now
    {
      AsksBorn(versioned, segs, now, a);
    }
    var h := f.(inFlight := f.inFlight - Elems(order));
    forall k | k in Launch(h, segs, now).inFlight
      ensures Launch(h, segs, now).inFlight[k].t0 <= now
    {
      LaunchStamps(h, segs, now, k);
    }
    LoopHeadTimed(w.(asks := w.asks + Asks(versioned, segs, now), timeouts := w.timeouts + 1, spent := w.lost),
                  versioned, Expire(f, order, now), now);
  }

  lemma InitSafe(j: Job)
    requires j.Valid()
    ensures Safe(j, Init(j)) && Timed(Init(j))
  {
  }

  /** Both invariants hold in every state of every run. */
  lemma {:induction false} RunInvariant(j: Job, ws: seq<World>, es: seq<Event>, i: nat)
    requires j.Valid() && Run(j, ws, es) && i < |ws|
    ensures Safe(j, ws[i]) && Timed(ws[i])
  {
    hide Safe, Timed, Next, Enabled;
    if i == 0 {
      InitSafe(j);
    } else {
      RunInvariant(j, ws, es, i - 1);
      assert StepAt(j, ws, es, i - 1);
      StepSafe(j, ws[i - 1], es[i - 1]);
      StepTimed(j, ws[i - 1], es[i - 1]);
    }
  }

  /** If the fetch returns, it returns the published payload - for every payload, segment size,
      pipeline depth and every schedule of loss, duplication, reordering and timeouts. */
  lemma ReturnsThePayload(j: Job, ws: seq<World>, es: seq<Event>, i: nat)
    requires j.Valid() && Run(j, ws, es) && i < |ws|
    ensures ws[i].phase.Returned? ==> ws[i].phase.bytes == j.o.payload
    ensures !ws[i].phase.Panicked? && ws[i].phase != Failed(Incomplete)
  {
    RunInvariant(j, ws, es, i);
  }

  /** The bookkeeping at every loop head of every run. */
  lemma LoopHeadInvariant(j: Job, ws: seq<World>, es: seq<Event>, i: nat)
    requires j.Valid() && Run(j, ws, es) && i < |ws| && ws[i].phase.Fetching?
    ensures var f := ws[i].phase.fetch;
            && Inv(f) && f.received == Stored(f.segments) < f.total
            && 1 <= |f.inFlight| <= j.pipeline
            && (|f.inFlight| == j.pipeline || f.nextSeg == f.total)
  {
    RunInvariant(j, ws, es, i);
    SaturatedIsBusy(ws[i].phase.fetch);
  }

  /** Every idle timeout of the fetch loop re-sends everything outstanding: the segments on the
      way stay the same, each under a fresh key with a fresh time. */
  lemma IdleRound(j: Job, ws: seq<World>, es: seq<Event>, i: nat)
    requires j.Valid() && Run(j, ws, es) && i < |es| && es[i].Idle? && ws[i].phase.Fetching?
    ensures ws[i + 1].phase.Fetching?
    ensures var f, g := ws[i].phase.fetch, ws[i + 1].phase.fetch;
            && SegsInFlight(g) == SegsInFlight(f) && |g.inFlight| == |f.inFlight|
            && g.inFlight.Keys !! f.inFlight.Keys
            && (forall k :: k in g.inFlight ==> g.inFlight[k].t0 == es[i].now)
            && g.segments == f.segments && g.nextSeg == f.nextSeg && g.received == f.received
  {
    RunInvariant(j, ws, es, i);
    assert StepAt(j, ws, es, i);
    var w, now, order := ws[i], es[i].now, es[i].order;
    AllStale(j, w, now);
    ExpireKeeps(w.phase.fetch, order, now);
    SaturatedRefill(Expire(w.phase.fetch, order, now), now);
  }

  /** Refilling a saturated fetch changes nothing. */
  lemma SaturatedRefill(f: Fetch, now: nat)
    requires Inv(f) && Saturated(f)
    ensures Refill(f, now) == f && NextBatch(f, f.nextSeg, Room(f)).0 == []
  {
    assert Room(f) == 0 || f.nextSeg >= f.total;
  }
}
