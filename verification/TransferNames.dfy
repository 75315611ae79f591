/** Names in the segmented transfer: what is asked for and what answers. */
module TransferNames {
  import opened Prelude
  import opened Naming
  import opened Put
  import opened Peek
  import opened Transfer

  /** The versioned name whose segments the fetch is about: the one the producer serves under, or what
      the consumer was given in front of a segment component. */
  function Base(j: Job): Name {
    if LastSegment(j.prefix).None? then j.o.served else j.prefix[..|j.prefix| - 1]
  }

  ghost predicate AskNamed(j: Job, name: Name) {
    name == j.prefix || exists n: nat :: name == AppendSegment(Base(j), n)
  }

  predicate DataNamed(j: Job, name: Name) {
    name != [] && name[..|name| - 1] == Base(j)
  }

  /** Every Interest is the discovery Interest or for a segment of the versioned name, every Data is a
      segment of it, and the fetch has read the versioned name off its discovery Data. */
  ghost predicate Named(j: Job, w: World) {
    && (forall a :: a in w.asks ==> AskNamed(j, a.name))
    && (forall p :: p in w.parcels ==> DataNamed(j, p.data.name))
    && (w.phase.Fetching? ==> w.phase.versioned == Base(j))
  }

  lemma {:induction false} AsksNamed(j: Job, segs: seq<nat>, now: nat, a: Ask)
    requires a in Asks(Base(j), segs, now)
    ensures AskNamed(j, a.name)
  {
    hide AppendSegment, Base;
    var n := |segs| - 1;
    if a in Asks(Base(j), segs[..n], now) {
      AsksNamed(j, segs[..n], now, a);
    }
  }

  lemma ReplyNamed(j: Job, name: Name)
    requires j.Valid() && AskNamed(j, name) && Reply(j.o, name).Some?
    ensures DataNamed(j, Reply(j.o, name).value.name)
  {
    ReplyAnswers(j.o, name);
    if name != j.prefix {
      var n: nat :| name == AppendSegment(Base(j), n);
      SegmentName(Base(j), n);
    }
    hide Reply, AppendSegment;
  }

  lemma SegmentName(base: Name, n: nat)
    ensures LastSegment(AppendSegment(base, n)).Some?
    ensures AppendSegment(base, n) != [] && AppendSegment(base, n)[..|AppendSegment(base, n)| - 1] == base
  {
  }

  lemma LoopHeadNamed(j: Job, w: World, f: Fetch, now: nat)
    requires forall a :: a in w.asks ==> AskNamed(j, a.name)
    requires forall p :: p in w.parcels ==> DataNamed(j, p.data.name)
    ensures Named(j, LoopHead(w, Base(j), f, now))
  {
    var batch := NextBatch(f, f.nextSeg, Room(f)).0;
    hide AskNamed, DataNamed, Base, Refill, NextBatch;
    forall a | a in Asks(Base(j), batch, now)
      ensures AskNamed(j, a.name)
    {
      AsksNamed(j, batch, now, a);
    }
  }

  lemma IdleNamed(j: Job, w: World, order: seq<nat>, now: nat)
    requires Named(j, w) && w.phase.Fetching? && Elems(order) <= w.phase.fetch.inFlight.Keys
    ensures Named(j, TimedOut(w, order, now))
  {
    var f := w.phase.fetch;
    var segs := SegsOf(f, order);
    var resent := w.(asks := w.asks + Asks(Base(j), segs, now), timeouts := w.timeouts + 1, spent := w.lost);
    hide AskNamed, DataNamed, Base, LoopHead, Expire;
    forall a | a in Asks(Base(j), segs, now)
      ensures AskNamed(j, a.name)
    {
      AsksNamed(j, segs, now, a);
    }
    LoopHeadNamed(j, resent, Expire(f, order, now), now);
  }

  lemma DeliverNamed(j: Job, w: World, p: Parcel, now: nat)
    requires Named(j, w) && Active(w) && p in w.parcels
    ensures Named(j, Delivered(j, w.(parcels := w.parcels - multiset{p}), p.data, now))
  {
    var v := w.(parcels := w.parcels - multiset{p});
    hide AskNamed, LoopHead, Base, Discover, Receive;
    assert DataNamed(j, p.data.name);
    if w.phase.Fetching? {
      hide DataNamed;
      LoopHeadNamed(j, v, Receive(w.phase.fetch, LastSegment(p.data.name), p.data.content), now);
    } else {
      DiscoveredNamed(j, v, p.data, now);
      hide Discovered;
    }
  }

  lemma DiscoveredNamed(j: Job, w: World, d: Data, now: nat)
    requires Named(j, w) && w.phase.Discovering? && DataNamed(j, d.name)
    ensures Named(j, Discovered(j, w, d, now))
  {
    hide AskNamed, LoopHead, Base, Discover;
    if Discover(d, j.pipeline).Begin? {
      LoopHeadNamed(j, w, Discover(d, j.pipeline).fetch, now);
    }
  }

  lemma OthersNamed(j: Job, w: World, e: Event)
    requires j.Valid() && Named(j, w) && Enabled(j, w, e) && !e.Deliver? && !e.Noise? && !e.Idle?
    ensures Named(j, Next(j, w, e))
  {
    hide AskNamed, DataNamed, Base;
    if e.Serve? && Reply(j.o, e.a.name).Some? {
      ReplyNamed(j, e.a.name);
    }
    hide Reply;
  }

  lemma StepNamed(j: Job, w: World, e: Event)
    requires j.Valid() && Named(j, w) && Enabled(j, w, e)
    ensures Named(j, Next(j, w, e))
  {
    hide AskNamed, DataNamed, Base, LoopHead, Delivered, TimedOut;
    match e {
      case Deliver(p, now) => DeliverNamed(j, w, p, now);
      case Noise(now) =>
        if w.phase.Fetching? {
          LoopHeadNamed(j, w.(strays := w.strays + 1), w.phase.fetch, now);
        }
      case Idle(now, order) =>
        if w.phase.Fetching? {
          IdleNamed(j, w, order, now);
        } else {
          assert TimedOut(w, order, now) == w.(phase := Failed(NoResponse), clock := now) by {
            DiscoveryTimesOut(w, order, now);
          }
        }
      case _ =>
        hide Next;
        OthersNamed(j, w, e);
    }
  }

  lemma DiscoveryTimesOut(w: World, order: seq<nat>, now: nat)
    requires w.phase.Discovering?
    ensures TimedOut(w, order, now) == w.(phase := Failed(NoResponse), clock := now)
  {
  }

  /** In every state of every run all names are right. */
  lemma {:induction false} RunNamed(j: Job, ws: seq<World>, es: seq<Event>, i: nat)
    requires j.Valid() && Run(j, ws, es) && i < |ws|
    ensures Named(j, ws[i])
  {
    if i > 0 {
      assert |ws| == |es| + 1;
      StepOf(j, ws, es, i - 1);
      hide Named, Next, Enabled, Run, StepAt;
      RunNamed(j, ws, es, i - 1);
      StepNamed(j, ws[i - 1], es[i - 1]);
    }
  }

  /** A fetch of a name without a version: whatever the fetch asks for after discovery is the served
      versioned name and one segment component, and every Data on the way extends the name asked for. */
  lemma AsksForServedSegments(j: Job, ws: seq<World>, es: seq<Event>, i: nat)
    requires j.Valid() && Run(j, ws, es) && i < |ws| && LastSegment(j.prefix).None? && j.prefix <= j.o.served
    ensures forall a :: a in ws[i].asks && a.name != j.prefix ==>
              exists n: nat :: a.name == AppendSegment(j.o.served, n)
    ensures forall p :: p in ws[i].parcels ==>
              p.data.name != [] && p.data.name[..|p.data.name| - 1] == j.o.served && j.prefix <= p.data.name
    ensures ws[i].phase.Fetching? ==> ws[i].phase.versioned == j.o.served
  {
    RunNamed(j, ws, es, i);
    hide Run, AppendSegment;
    assert Base(j) == j.o.served;
    forall p | p in ws[i].parcels
      ensures p.data.name != [] && p.data.name[..|p.data.name| - 1] == j.o.served && j.prefix <= p.data.name
    {
      assert DataNamed(j, p.data.name);
    }
  }
}
