/** One segmented fetch against one `ndn-put` producer over a network that may lose,
    duplicate, delay and reorder packets. Times are milliseconds. */
module Transfer {
  import opened Prelude
  import opened Naming
  import opened FinalBlock
  import opened Put
  import opened Peek

  const GRACE: nat := 500

  /** What is published, and what the consumer was asked to do. */
  datatype Job = Job(o: Published, prefix: Name, pipeline: nat, lifetime: nat) {
    ghost predicate Valid() {
      o.Valid() && 1 <= pipeline
    }
  }

  /** A packet on the way carries the time at which the consumer sent the Interest behind it. */
  datatype Ask = Ask(name: Name, born: nat)

  datatype Parcel = Parcel(data: Data, born: nat)

  datatype Cause = NoResponse | Undecodable | Closed | Incomplete

  datatype Phase =
    | Discovering
    | Fetching(versioned: Name, fetch: Fetch)
    | Returned(bytes: Bytes)
    | Failed(cause: Cause)
    | Panicked

  /** The consumer, the network, and tallies: packets lost, lost up to the last idle timeout
      (`spent`), idle timeouts of the fetch loop, and strays (duplicates and undecodable packets). */
  datatype World = World(
    phase: Phase,
    asks: multiset<Ask>,
    parcels: multiset<Parcel>,
    clock: nat,
    lost: nat,
    spent: nat,
    timeouts: nat,
    strays: nat)

  datatype Event =
    | LoseAsk(a: Ask)
    | LoseParcel(p: Parcel)
    | DuplicateAsk(a: Ask)
    | DuplicateParcel(p: Parcel)
    | Serve(a: Ask)
    | Deliver(p: Parcel, now: nat)
    | Noise(now: nat)
    | Idle(now: nat, order: seq<nat>)
    | Close

  function Init(j: Job): World {
    World(Discovering, multiset{Ask(j.prefix, 0)}, multiset{}, 0, 0, 0, 0, 0)
  }

  predicate Active(w: World) {
    w.phase.Discovering? || w.phase.Fetching?
  }

  ghost predicate Enabled(j: Job, w: World, e: Event) {
    match e
    case LoseAsk(a) => a in w.asks
    case LoseParcel(p) => p in w.parcels
    case DuplicateAsk(a) => a in w.asks
    case DuplicateParcel(p) => p in w.parcels
    case Serve(a) => a in w.asks
    case Deliver(p, now) => Active(w) && p in w.parcels && now >= w.clock
    case Noise(now) => Active(w) && now >= w.clock
    case Idle(now, order) =>
      && Active(w) && now >= w.clock + j.lifetime + GRACE
      && (w.phase.Fetching? ==> Enumerates(order, StaleKeys(w.phase.fetch, j.lifetime, now)))
    case Close => Active(w)
  }

  function Asks(versioned: Name, segs: seq<nat>, now: nat): multiset<Ask> {
    if segs == [] then multiset{}
    else Asks(versioned, segs[..|segs| - 1], now) + multiset{Ask(AppendSegment(versioned, segs[|segs| - 1]), now)}
  }

  function Finish(f: Fetch): Phase {
    match Assembled(f.segments)
    case Some(bytes) => Returned(bytes)
    case None => Failed(Incomplete)
  }

  /** Refill, then leave the loop if everything is stored. */
  function LoopHead(w: World, versioned: Name, f: Fetch, now: nat): World {
    var g := Refill(f, now);
    w.(phase := if g.received == g.total then Finish(g) else Fetching(versioned, g),
       asks := w.asks + Asks(versioned, NextBatch(f, f.nextSeg, Room(f)).0, now),
       clock := now)
  }

  function Discovered(j: Job, w: World, d: Data, now: nat): World {
    match Discover(d, j.pipeline)
    case Whole(content) => w.(phase := Returned(content), clock := now)
    case IndexOutOfBounds => w.(phase := Panicked, clock := now)
    case Begin(f) => LoopHead(w, d.name[..|d.name| - 1], f, now)
  }

  function Delivered(j: Job, w: World, d: Data, now: nat): World
    requires Active(w)
  {
    match w.phase
    case Discovering => Discovered(j, w, d, now)
    case Fetching(versioned, f) => LoopHead(w, versioned, Receive(f, LastSegment(d.name), d.content), now)
  }

  function TimedOut(w: World, order: seq<nat>, now: nat): World
    requires Active(w)
    requires w.phase.Fetching? ==> Elems(order) <= w.phase.fetch.inFlight.Keys
  {
    match w.phase
    case Discovering => w.(phase := Failed(NoResponse), clock := now)
    case Fetching(versioned, f) =>
      var resent := w.(asks := w.asks + Asks(versioned, SegsOf(f, order), now),
                       timeouts := w.timeouts + 1, spent := w.lost);
      LoopHead(resent, versioned, Expire(f, order, now), now)
  }

  ghost function Next(j: Job, w: World, e: Event): World
    requires j.Valid() && Enabled(j, w, e)
  {
    match e
    case LoseAsk(a) => w.(asks := w.asks - multiset{a}, lost := w.lost + 1)
    case LoseParcel(p) => w.(parcels := w.parcels - multiset{p}, lost := w.lost + 1)
    case DuplicateAsk(a) => w.(asks := w.asks + multiset{a}, strays := w.strays + 1)
    case DuplicateParcel(p) => w.(parcels := w.parcels + multiset{p}, strays := w.strays + 1)
    case Serve(a) =>
      var reply := Reply(j.o, a.name);
      w.(asks := w.asks - multiset{a},
         parcels := w.parcels + if reply.Some? then multiset{Parcel(reply.value, a.born)} else multiset{})
    case Deliver(p, now) => Delivered(j, w.(parcels := w.parcels - multiset{p}), p.data, now)
    case Noise(now) =>
      if w.phase.Discovering? then w.(phase := Failed(Undecodable), clock := now, strays := w.strays + 1)
      else LoopHead(w.(strays := w.strays + 1), w.phase.versioned, w.phase.fetch, now)
    case Idle(now, order) => TimedOut(w, order, now)
    case Close => w.(phase := Failed(Closed))
  }

  ghost predicate StepAt(j: Job, ws: seq<World>, es: seq<Event>, i: nat)
    requires j.Valid() && |ws| == |es| + 1 && i < |es|
  {
    Enabled(j, ws[i], es[i]) && ws[i + 1] == Next(j, ws[i], es[i])
  }

  /** A finite run: `ws` are the states, `es` the events between them. */
  ghost predicate Run(j: Job, ws: seq<World>, es: seq<Event>)
    requires j.Valid()
  {
    && |ws| == |es| + 1 && ws[0] == Init(j)
    && forall i :: 0 <= i < |es| ==> StepAt(j, ws, es, i)
  }

  lemma StepOf(j: Job, ws: seq<World>, es: seq<Event>, k: nat)
    requires j.Valid() && Run(j, ws, es) && k < |es|
    ensures Enabled(j, ws[k], es[k]) && ws[k + 1] == Next(j, ws[k], es[k])
  {
    assert StepAt(j, ws, es, k);
    hide Enabled, Next;
  }
}
