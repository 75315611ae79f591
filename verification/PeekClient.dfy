/** `fetch_segmented` in place: the mutable state of one fetch, its three updates and its loop. */
module PeekClient {
  import opened Prelude
  import opened Naming
  import opened Put
  import opened Peek
  import opened FinalBlock

  /** What one `recv` under the drain timeout yields. */
  datatype Recv = Packet(data: Option<Data>, now: nat) | Elapsed(now: nat) | Disconnected

  function TimeOf(m: Recv, before: nat): nat {
    match m
    case Packet(_, now) => now
    case Elapsed(now) => now
    case Disconnected => before
  }

  /** One turn of the loop after its refill; `order` is how the table yields the stale entries. */
  function Turned(f: Fetch, m: Recv, order: seq<nat>): Fetch {
    match m
    case Packet(Some(d), _) => Receive(f, LastSegment(d.name), d.content)
    case Elapsed(now) => if Elems(order) <= f.inFlight.Keys then Expire(f, order, now) else f
    case _ => f
  }

  function TimeAt(inbox: seq<Recv>, start: nat, k: nat): nat
    requires k <= |inbox|
  {
    if k == 0 then start else TimeOf(inbox[k - 1], TimeAt(inbox, start, k - 1))
  }

  /** The state after `k` turns and the refill that follows. */
  function Refilled(f: Fetch, inbox: seq<Recv>, orders: seq<seq<nat>>, start: nat, k: nat): Fetch
    requires k <= |orders| <= |inbox|
  {
    var g := if k == 0 then f else Turned(Refilled(f, inbox, orders, start, k - 1), inbox[k - 1], orders[k - 1]);
    Refill(g, TimeAt(inbox, start, k))
  }

  /** Turn `k` was taken: the fetch was incomplete and connected, and an idle turn took all stale entries. */
  ghost predicate TurnAt(f: Fetch, inbox: seq<Recv>, orders: seq<seq<nat>>, lifetime: nat, start: nat, k: nat)
    requires k < |orders| <= |inbox|
  {
    var g := Refilled(f, inbox, orders, start, k);
    && g.received != g.total && !inbox[k].Disconnected?
    && (inbox[k].Elapsed? ==> Enumerates(orders[k], StaleKeys(g, lifetime, inbox[k].now)))
  }

  /** Up to turn `k` no more Interests have gone out than sending allows; keys number the Interests. */
  ghost predicate SentWithin(f: Fetch, inbox: seq<Recv>, orders: seq<seq<nat>>, start: nat, k: nat, budget: Option<nat>)
    requires k <= |orders| <= |inbox|
  {
    Within(Refilled(f, inbox, orders, start, k).nextKey, budget)
  }

  /** What the fetch returns depends only on the Data that arrives, not on timeouts or the pipeline. */
  function Outcome(segments: seq<Option<Bytes>>, inbox: seq<Recv>): Option<Bytes>
    decreases |inbox|
  {
    if Stored(segments) == |segments| then Assembled(segments)
    else if inbox == [] || inbox[0].Disconnected? then None
    else Outcome(Kept(segments, inbox[0]), inbox[1..])
  }

  function Kept(segments: seq<Option<Bytes>>, m: Recv): seq<Option<Bytes>> {
    match m
    case Packet(Some(d), _) =>
      var idx := LastSegment(d.name);
      if idx.Some? && idx.value < |segments| && segments[idx.value].None?
      then segments[idx.value := Some(d.content)] else segments
    case _ => segments
  }

  class SegmentedFetch {
    const total: nat
    const first: nat
    const pipeline: nat
    var segments: seq<Option<Bytes>>
    var inFlight: map<nat, Flight>
    var nextSeg: nat
    var received: nat
    var nextKey: nat

    ghost function View(): Fetch
      reads this
    {
      Fetch(total, first, pipeline, segments, inFlight, nextSeg, received, nextKey)
    }

    constructor (d: Data, pipeline: nat)
      requires Discover(d, pipeline).Begin?
      ensures View() == Discover(d, pipeline).fetch
    {
      var firstSeg := if LastSegment(d.name).Some? then LastSegment(d.name).value else 0;
      var count := Announced(d);
      var none: Option<Bytes> := None;
      this.total, this.first, this.pipeline := count, firstSeg, pipeline;
      this.segments := seq(count, _ => none)[firstSeg := Some(d.content)];
      this.inFlight := map[];
      this.nextSeg := if firstSeg == 0 then 1 else 0;
      this.received, this.nextKey := 1, 0;
    }

    /** Open slots are filled with the next unrequested segments; `batch` is what is sent. */
    method RefillPipeline(now: nat) returns (batch: seq<nat>)
      requires View().nextSeg <= total
      modifies this
      ensures View() == Refill(old(View()), now)
      ensures batch == NextBatch(old(View()), old(nextSeg), Room(old(View()))).0
    {
      hide Launch, NextBatch, Room;
      ghost var start := View();
      BatchStep(start, nextSeg, Room(start));
      RoomIs(start);
      batch := [];
      assert batch + NextBatch(start, nextSeg, Room(start)).0 == NextBatch(start, nextSeg, Room(start)).0;
      while |inFlight| + |batch| < pipeline && nextSeg < total
        invariant View() == start.(nextSeg := nextSeg)
        invariant |inFlight| + |batch| <= pipeline || batch == []
        invariant var (rest, stop) := NextBatch(start, nextSeg, Room(start) - |batch|);
                  NextBatch(start, start.nextSeg, Room(start)) == (batch + rest, stop)
        decreases total - nextSeg
      {
        BatchStep(start, nextSeg, Room(start) - |batch|);
        if nextSeg == first {
          nextSeg := nextSeg + 1;
          continue;
        }
        ghost var rest := NextBatch(start, nextSeg + 1, Room(start) - |batch| - 1).0;
        assert batch + ([nextSeg] + rest) == batch + [nextSeg] + rest;
        batch := batch + [nextSeg];
        nextSeg := nextSeg + 1;
      }
      BatchStep(start, nextSeg, Room(start) - |batch|);
      assert batch + [] == batch;
      Enter(batch, now);
    }

    /** Record what was just sent. */
    method Enter(segs: seq<nat>, now: nat)
      modifies this
      ensures View() == Launch(old(View()), segs, now)
    {
      ghost var start := View();
      for k := 0 to |segs|
        invariant View() == Launch(start, segs[..k], now)
      {
        assert segs[..k + 1][..k] == segs[..k];
        inFlight := inFlight[nextKey := Flight(segs[k], now)];
        nextKey := nextKey + 1;
      }
      assert segs[..|segs|] == segs;
    }

    /** One decoded Data. */
    method Accept(d: Data)
      requires |segments| == total
      modifies this
      ensures View() == Receive(old(View()), LastSegment(d.name), d.content)
    {
      var idx := LastSegment(d.name);
      if idx.Some? && idx.value < total && segments[idx.value].None? {
        segments := segments[idx.value := Some(d.content)];
        received := received + 1;
        inFlight := map k | k in inFlight && inFlight[k].seg != idx.value :: inFlight[k];
      }
    }

    /** The stale entries, in whatever order the table yields them. */
    method CollectStale(lifetime: nat, now: nat) returns (stale: seq<nat>)
      ensures Enumerates(stale, StaleKeys(View(), lifetime, now))
    {
      stale := Listed(set k | k in inFlight && now >= inFlight[k].t0 + lifetime);
      assert (set k | k in inFlight && now >= inFlight[k].t0 + lifetime) == StaleKeys(View(), lifetime, now);
    }

    /** The idle branch: re-send every stale entry under a fresh key. */
    method Resend(lifetime: nat, now: nat) returns (stale: seq<nat>)
      modifies this
      ensures Enumerates(stale, StaleKeys(old(View()), lifetime, now))
      ensures View() == Expire(old(View()), stale, now)
    {
      ghost var start := View();
      stale := CollectStale(lifetime, now);
      assert Elems(stale) <= inFlight.Keys;
      var segs: seq<nat> := [];
      for i := 0 to |stale|
        invariant View() == start
        invariant |segs| == i && forall x :: 0 <= x < i ==> segs[x] == SegsOf(start, stale)[x]
      {
        ElemsIn(stale, stale[i]);
        segs := segs + [inFlight[stale[i]].seg];
      }
      assert segs == SegsOf(start, stale);
      inFlight := inFlight - Elems(stale);
      Enter(segs, now);
    }

    /** The loop, driven by what `recv` yields; None if it bails out or is still waiting. `orders`
        records how the table yielded the stale entries of each turn. With a budget, sending fails
        beyond that many Interests, and the refill after that ends the loop with an error. */
    method Run(inbox: seq<Recv>, lifetime: nat, start: nat, budget: Option<nat>)
      returns (r: Option<Bytes>, ghost orders: seq<seq<nat>>)
      requires |segments| == total && nextSeg <= total && received == Stored(segments)
      modifies this
      ensures |orders| <= |inbox| && forall k :: 0 <= k < |orders| ==>
                    TurnAt(old(View()), inbox, orders, lifetime, start, k)
      ensures View() == Refilled(old(View()), inbox, orders, start, |orders|)
      ensures forall k :: 0 <= k < |orders| ==> SentWithin(old(View()), inbox, orders, start, k, budget)
      ensures Within(nextKey, budget) && received != total ==> |orders| == |inbox| || inbox[|orders|].Disconnected?
      ensures r == if Within(nextKey, budget) then Outcome(old(segments), inbox) else None
    {
      hide Refill, TurnAt, Outcome, Kept, Stored, Receive, Expire;
      var now := start;
      var k := 0;
      orders := [];
      ghost var f := View();
      assert inbox[0..] == inbox;
      while true
        invariant k == |orders| <= |inbox| && now == TimeAt(inbox, start, k)
        invariant |segments| == total && nextSeg <= total && received == Stored(segments)
        invariant View() == if k == 0 then f
                            else Turned(Refilled(f, inbox, orders, start, k - 1), inbox[k - 1], orders[k - 1])
        invariant forall i :: 0 <= i < k ==> TurnAt(f, inbox, orders, lifetime, start, i)
        invariant forall i :: 0 <= i < k ==> SentWithin(f, inbox, orders, start, i, budget)
        invariant Outcome(old(segments), inbox) == Outcome(segments, inbox[k..])
        decreases |inbox| - k
      {
        ghost var before := View();
        var _ := RefillPipeline(now);
        RefillFrame(before, now);
        ghost var waiting, order: seq<nat> := View(), [];
        assert waiting == Refilled(f, inbox, orders, start, k);
        if !Within(nextKey, budget) {
          return None, orders;
        }
        if received == total {
          break;
        }
        OutcomeStep(segments, inbox, k);
        if k == |inbox| || inbox[k].Disconnected? {
          return None, orders;
        }
        match inbox[k] {
          case Packet(None, t) =>
          case Packet(Some(d), t) => Accept(d);
          case Elapsed(t) => order := Resend(lifetime, t);
        }
        now := TimeOf(inbox[k], now);
        TurnFrame(waiting, inbox[k], order);
        TurnTaken(f, inbox, orders, order, lifetime, start);
        SentKept(f, inbox, orders, order, start, budget);
        orders := orders + [order];
        k := k + 1;
      }
      OutcomeComplete(segments, inbox[k..]);
      StoredFull(segments);
      r := Reassemble(segments);
    }
  }

  /** What a fetch makes of its discovery Data and of what `recv` yields afterwards. */
  datatype Fetched = IndexPanic | Done(result: Option<Bytes>)

  function FetchOutcome(first: Data, pipeline: nat, inbox: seq<Recv>): Fetched {
    match Discover(first, pipeline)
    case Whole(content) => Done(Some(content))
    case IndexOutOfBounds => IndexPanic
    case Begin(f) => Done(Outcome(f.segments, inbox))
  }

  /** `fetch_segmented` from its discovery Data on: what the inbox determines, unless sending failed first. */
  method FetchSegmented(first: Data, pipeline: nat, inbox: seq<Recv>, lifetime: nat, start: nat, budget: Option<nat>)
    returns (r: Fetched, ghost orders: seq<seq<nat>>)
    requires 1 <= pipeline
    ensures |orders| <= |inbox|
    ensures var d := Discover(first, pipeline);
            if d.Begin? then
              && (forall k :: 0 <= k < |orders| ==> TurnAt(d.fetch, inbox, orders, lifetime, start, k))
              && (forall k :: 0 <= k < |orders| ==> SentWithin(d.fetch, inbox, orders, start, k, budget))
              && r == if SentWithin(d.fetch, inbox, orders, start, |orders|, budget)
                      then FetchOutcome(first, pipeline, inbox) else Done(None)
            else r == FetchOutcome(first, pipeline, inbox)
  {
    var begun := Discover(first, pipeline);
    orders := [];
    match begun {
      case Whole(content) => r := Done(Some(content));
      case IndexOutOfBounds => r := IndexPanic;
      case Begin(f) =>
        DiscoverEstablishes(first, pipeline);
        var fetch := new SegmentedFetch(first, pipeline);
        hide Discover, Refilled, TurnAt, Outcome;
        var result: Option<Bytes>;
        result, orders := fetch.Run(inbox, lifetime, start, budget);
        r := Done(result);
    }
  }

  method Reassemble(segments: seq<Option<Bytes>>) returns (r: Option<Bytes>)
    ensures r == Assembled(segments)
  {
    var out: Bytes := [];
    for k := 0 to |segments|
      invariant Assembled(segments[..k]) == Some(out)
    {
      assert segments[..k + 1][..k] == segments[..k];
      match segments[k] {
        case Some(b) => out := out + b;
        case None =>
          MissingStaysMissing(segments, k);
          return None;
      }
    }
    assert segments[..|segments|] == segments;
    return Some(out);
  }

  lemma {:induction false} MissingStaysMissing(segments: seq<Option<Bytes>>, k: nat)
    requires k < |segments| && segments[k].None?
    ensures Assembled(segments).None?
  {
    var n := |segments| - 1;
    if k < n {
      MissingStaysMissing(segments[..n], k);
    }
  }

  lemma BatchStep(f: Fetch, next: nat, room: nat)
    ensures NextBatch(f, next, room) ==
            if room == 0 || next >= f.total then ([], next)
            else if next == f.first then NextBatch(f, next + 1, room)
            else ([next] + NextBatch(f, next + 1, room - 1).0, NextBatch(f, next + 1, room - 1).1)
  {
  }

  lemma RoomIs(f: Fetch)
    ensures Room(f) == if |f.inFlight| < f.pipeline then f.pipeline - |f.inFlight| else 0
  {
  }

  lemma ExpireFrame(f: Fetch, order: seq<nat>, now: nat)
    requires Elems(order) <= f.inFlight.Keys
    ensures var g := Expire(f, order, now);
            g.segments == f.segments && g.received == f.received && g.nextSeg == f.nextSeg && g.total == f.total
  {
    LaunchFrame(f.(inFlight := f.inFlight - Elems(order)), SegsOf(f, order), now);
    hide Launch, SegsOf;
  }

  lemma Keeps(f: Fetch, d: Data)
    requires |f.segments| == f.total && f.received == Stored(f.segments)
    ensures var g := Receive(f, LastSegment(d.name), d.content);
            && (forall t :: g.segments == Kept(f.segments, Packet(Some(d), t))) && |g.segments| == g.total
            && g.received == Stored(g.segments) && g.nextSeg == f.nextSeg && g.total == f.total
  {
    var idx := LastSegment(d.name);
    if idx.Some? && idx.value < f.total && f.segments[idx.value].None? {
      StoredUpdate(f.segments, idx.value, d.content);
    }
  }

  /** A turn changes the stored segments as `Kept` says and leaves the counters right. */
  lemma TurnFrame(f: Fetch, m: Recv, order: seq<nat>)
    requires |f.segments| == f.total && f.received == Stored(f.segments)
    ensures var g := Turned(f, m, order);
            && g.segments == Kept(f.segments, m) && |g.segments| == g.total
            && g.received == Stored(g.segments) && g.nextSeg == f.nextSeg && g.total == f.total
  {
    hide Receive, Expire, Stored;
    match m {
      case Packet(Some(d), _) => Keeps(f, d);
      case Elapsed(now) =>
        if Elems(order) <= f.inFlight.Keys {
          ExpireFrame(f, order, now);
        }
      case _ =>
    }
  }

  lemma OutcomeStep(segments: seq<Option<Bytes>>, inbox: seq<Recv>, k: nat)
    requires k <= |inbox| && Stored(segments) != |segments|
    ensures Outcome(segments, inbox[k..]) ==
            if k == |inbox| || inbox[k].Disconnected? then None
            else Outcome(Kept(segments, inbox[k]), inbox[k + 1..])
  {
    hide Stored, Kept;
  }

  lemma OutcomeComplete(segments: seq<Option<Bytes>>, inbox: seq<Recv>)
    requires Stored(segments) == |segments|
    ensures Outcome(segments, inbox) == Assembled(segments)
  {
  }

  /** Later turns do not change earlier states. */
  lemma {:induction false} PrefixRefilled(f: Fetch, inbox: seq<Recv>, orders: seq<seq<nat>>, order: seq<nat>,
                                          start: nat, k: nat)
    requires k <= |orders| < |inbox|
    ensures Refilled(f, inbox, orders + [order], start, k) == Refilled(f, inbox, orders, start, k)
  {
    RefilledStep(f, inbox, orders, start, k);
    RefilledStep(f, inbox, orders + [order], start, k);
    hide Refill, Turned, Refilled, TimeAt;
    if k > 0 {
      PrefixRefilled(f, inbox, orders, order, start, k - 1);
      assert (orders + [order])[k - 1] == orders[k - 1];
    }
  }

  lemma RefilledStep(f: Fetch, inbox: seq<Recv>, orders: seq<seq<nat>>, start: nat, k: nat)
    requires k <= |orders| <= |inbox|
    ensures k == 0 ==> Refilled(f, inbox, orders, start, k) == Refill(f, TimeAt(inbox, start, k))
    ensures k > 0 ==>
              var before := Refilled(f, inbox, orders, start, k - 1);
              Refilled(f, inbox, orders, start, k) ==
              Refill(Turned(before, inbox[k - 1], orders[k - 1]), TimeAt(inbox, start, k))
  {
    hide Refill, Turned, TimeAt;
  }

  lemma TurnTaken(f: Fetch, inbox: seq<Recv>, orders: seq<seq<nat>>, order: seq<nat>, lifetime: nat, start: nat)
    requires |orders| < |inbox| && forall i :: 0 <= i < |orders| ==> TurnAt(f, inbox, orders, lifetime, start, i)
    requires var g := Refilled(f, inbox, orders, start, |orders|);
             && g.received != g.total && !inbox[|orders|].Disconnected?
             && (inbox[|orders|].Elapsed? ==> Enumerates(order, StaleKeys(g, lifetime, inbox[|orders|].now)))
    ensures forall i :: 0 <= i <= |orders| ==> TurnAt(f, inbox, orders + [order], lifetime, start, i)
    ensures Refilled(f, inbox, orders + [order], start, |orders|) == Refilled(f, inbox, orders, start, |orders|)
  {
    PrefixRefilled(f, inbox, orders, order, start, |orders|);
    forall i | 0 <= i < |orders|
      ensures TurnAt(f, inbox, orders + [order], lifetime, start, i)
    {
      PrefixRefilled(f, inbox, orders, order, start, i);
      assert TurnAt(f, inbox, orders, lifetime, start, i);
    }
  }

  /** Along any turns the outcome stays what it was, and the counters stay right. */
  lemma {:induction false} OutcomeAlong(f: Fetch, inbox: seq<Recv>, orders: seq<seq<nat>>, lifetime: nat, start: nat,
                                        k: nat)
    requires k <= |orders| <= |inbox| && forall i :: 0 <= i < k ==> TurnAt(f, inbox, orders, lifetime, start, i)
    requires |f.segments| == f.total && f.received == Stored(f.segments)
    ensures var g := Refilled(f, inbox, orders, start, k);
            && |g.segments| == g.total == f.total && g.received == Stored(g.segments)
            && Outcome(f.segments, inbox) == Outcome(g.segments, inbox[k..])
  {
    hide Refill, Turned, Outcome, Kept, Stored, StaleKeys, Enumerates;
    if k == 0 {
      assert inbox[0..] == inbox;
      RefillFrame(f, start);
    } else {
      OutcomeAlong(f, inbox, orders, lifetime, start, k - 1);
      var g := Refilled(f, inbox, orders, start, k - 1);
      assert TurnAt(f, inbox, orders, lifetime, start, k - 1);
      TurnFrame(g, inbox[k - 1], orders[k - 1]);
      OutcomeStep(g.segments, inbox, k - 1);
      RefillFrame(Turned(g, inbox[k - 1], orders[k - 1]), TimeAt(inbox, start, k));
    }
  }

  /** Later packets do not change earlier states. */
  lemma {:induction false} LongerInbox(f: Fetch, inbox: seq<Recv>, m: Recv, orders: seq<seq<nat>>, start: nat, k: nat)
    requires k <= |orders| <= |inbox|
    ensures TimeAt(inbox + [m], start, k) == TimeAt(inbox, start, k)
    ensures Refilled(f, inbox + [m], orders, start, k) == Refilled(f, inbox, orders, start, k)
  {
    if k > 0 {
      LongerInbox(f, inbox, m, orders, start, k - 1);
      assert (inbox + [m])[k - 1] == inbox[k - 1];
      hide Refill, Turned;
    }
  }

  /** One more turn at the end. */
  lemma OneMoreTurn(f: Fetch, inbox: seq<Recv>, orders: seq<seq<nat>>, m: Recv, order: seq<nat>, lifetime: nat,
                    start: nat)
    requires |orders| == |inbox| && forall i :: 0 <= i < |orders| ==> TurnAt(f, inbox, orders, lifetime, start, i)
    requires var g := Refilled(f, inbox, orders, start, |orders|);
             && g.received != g.total && !m.Disconnected?
             && (m.Elapsed? ==> Enumerates(order, StaleKeys(g, lifetime, m.now)))
    ensures forall i :: 0 <= i <= |orders| ==> TurnAt(f, inbox + [m], orders + [order], lifetime, start, i)
    ensures Refilled(f, inbox + [m], orders + [order], start, |orders| + 1) ==
            Refill(Turned(Refilled(f, inbox, orders, start, |orders|), m, order),
                   TimeAt(inbox + [m], start, |inbox| + 1))
  {
    hide Refill, Turned, StaleKeys, Enumerates;
    forall i | 0 <= i < |orders|
      ensures TurnAt(f, inbox + [m], orders, lifetime, start, i)
    {
      LongerInbox(f, inbox, m, orders, start, i);
      assert TurnAt(f, inbox, orders, lifetime, start, i);
    }
    LongerInbox(f, inbox, m, orders, start, |orders|);
    TurnTaken(f, inbox + [m], orders, order, lifetime, start);
  }

  lemma SentKept(f: Fetch, inbox: seq<Recv>, orders: seq<seq<nat>>, order: seq<nat>, start: nat, budget: Option<nat>)
    requires |orders| < |inbox|
    requires forall i :: 0 <= i <= |orders| ==> SentWithin(f, inbox, orders, start, i, budget)
    ensures forall i :: 0 <= i <= |orders| ==> SentWithin(f, inbox, orders + [order], start, i, budget)
  {
    forall i | 0 <= i <= |orders|
      ensures SentWithin(f, inbox, orders + [order], start, i, budget)
    {
      assert SentWithin(f, inbox, orders, start, i, budget);
      PrefixRefilled(f, inbox, orders, order, start, i);
      hide Refilled;
    }
  }

  /** The Data of segment `i` is received before the connection closes. */
  predicate Arrives(inbox: seq<Recv>, i: nat) {
    inbox != [] && !inbox[0].Disconnected? &&
    ((inbox[0].Packet? && inbox[0].data.Some? && LastSegment(inbox[0].data.value.name) == Some(i)) ||
     Arrives(inbox[1..], i))
  }

  /** The fetch returns exactly when every missing segment arrives while the connection is open. */
  lemma {:induction false} ReturnsExactly(segments: seq<Option<Bytes>>, inbox: seq<Recv>)
    ensures Outcome(segments, inbox).Some? <==>
            forall i: nat :: i < |segments| ==> segments[i].Some? || Arrives(inbox, i)
    decreases |inbox|
  {
    StoredFull(segments);
    if Stored(segments) == |segments| {
      AssembledIsSome(segments);
    } else if inbox != [] && !inbox[0].Disconnected? {
      var kept := Kept(segments, inbox[0]);
      ReturnsExactly(kept, inbox[1..]);
      forall i: nat | i < |segments|
        ensures kept[i].Some? || Arrives(inbox[1..], i) <==> segments[i].Some? || Arrives(inbox, i)
      {
      }
    }
  }

  lemma {:induction false} AssembledIsSome(segments: seq<Option<Bytes>>)
    requires forall i :: 0 <= i < |segments| ==> segments[i].Some?
    ensures Assembled(segments).Some?
  {
    if segments != [] {
      AssembledIsSome(segments[..|segments| - 1]);
    }
  }

  /** From one producer's Data only, and segments stored from it, the fetch returns that producer's
      payload or nothing. */
  lemma {:induction false} ReturnsPublished(o: Published, segments: seq<Option<Bytes>>, inbox: seq<Recv>)
    requires o.Valid() && |segments| == Count(o)
    requires forall i :: 0 <= i < |segments| && segments[i].Some? ==>
              segments[i].value == Chunks(o.payload, o.chunkSize)[i]
    requires forall m :: m in inbox && m.Packet? && m.data.Some? ==> Genuine(o, m.data.value)
    ensures Outcome(segments, inbox).None? || Outcome(segments, inbox) == Some(o.payload)
    decreases |inbox|
  {
    if Stored(segments) == |segments| {
      StoredFull(segments);
      AssembledIsJoin(segments, Chunks(o.payload, o.chunkSize));
      ChunksFlatten(o.payload, o.chunkSize);
    } else if inbox != [] && !inbox[0].Disconnected? {
      assert inbox[0] in inbox;
      ReturnsPublished(o, Kept(segments, inbox[0]), inbox[1..]);
    }
  }

  /** The content of the first received Data whose name ends in segment `i`, while the connection is open. */
  function FirstNamed(inbox: seq<Recv>, i: nat): Option<Bytes> {
    if inbox == [] || inbox[0].Disconnected? then None
    else if inbox[0].Packet? && inbox[0].data.Some? && LastSegment(inbox[0].data.value.name) == Some(i)
    then Some(inbox[0].data.value.content)
    else FirstNamed(inbox[1..], i)
  }

  lemma {:induction false} NamedArrives(inbox: seq<Recv>, i: nat)
    ensures FirstNamed(inbox, i).Some? <==> Arrives(inbox, i)
  {
    if inbox != [] {
      NamedArrives(inbox[1..], i);
    }
  }

  /** Segment `i` in the end: what is stored already, or else the first Data that names it. */
  function Part(segments: seq<Option<Bytes>>, inbox: seq<Recv>, i: nat): Option<Bytes>
    requires i < |segments|
  {
    if segments[i].Some? then segments[i] else FirstNamed(inbox, i)
  }

  /** Whatever the fetch returns is made of the stored segments and of the first Data naming each other one. */
  lemma {:induction false} OutcomeParts(segments: seq<Option<Bytes>>, inbox: seq<Recv>, parts: seq<Bytes>)
    requires |parts| == |segments| && forall i :: 0 <= i < |parts| ==> Part(segments, inbox, i) == Some(parts[i])
    ensures Outcome(segments, inbox) == Some(Flatten(parts))
    decreases |inbox|
  {
    StoredFull(segments);
    if Stored(segments) == |segments| {
      AssembledIsJoin(segments, parts);
    } else {
      var i :| 0 <= i < |segments| && segments[i].None?;
      assert Part(segments, inbox, i) == Some(parts[i]);
      forall i | 0 <= i < |parts|
        ensures Part(Kept(segments, inbox[0]), inbox[1..], i) == Some(parts[i])
      {
        assert Part(segments, inbox, i) == Some(parts[i]);
      }
      OutcomeParts(Kept(segments, inbox[0]), inbox[1..], parts);
    }
  }

  /** What the name of the discovery Data says: whether it has a segment component, and which. */
  predicate Segmented(d: Data) {
    d.name != [] && d.name[|d.name| - 1].typ == SEGMENT
  }

  function IndexOf(d: Data): nat {
    if LastSegment(d.name).Some? then LastSegment(d.name).value else 0
  }

  /** The number of segments its FinalBlockId announces, if it has a readable one. */
  function CountOf(d: Data): nat {
    match d.finalBlockId
    case None => 1
    case Some(fb) => if Decoded(fb).Some? then Decoded(fb).value + 1 else 1
  }

  /** Part `i` of the object whose discovery Data is `first`. */
  function PartOf(first: Data, inbox: seq<Recv>, i: nat): Option<Bytes> {
    if i == IndexOf(first) then Some(first.content) else FirstNamed(inbox, i)
  }

  /** What a fetch gives, for any discovery Data and any inbox: the content alone when the name has no
      segment component or one segment is announced; a panic when the index is not below the announced
      count or the count does not fit a word; and otherwise, once each part has arrived, the parts in
      order - the discovery content at its index, and the first Data naming each other index. */
  lemma FetchExactly(first: Data, pipeline: nat, inbox: seq<Recv>)
    ensures var r, n := FetchOutcome(first, pipeline, inbox), CountOf(first);
            && (!Segmented(first) || n == 1 ==> r == Done(Some(first.content)))
            && (Segmented(first) && n != 1 ==> (r == IndexPanic <==> IndexOf(first) >= n || n >= TWO_64))
            && (Segmented(first) && n != 1 && r != IndexPanic ==>
                  (r == Done(None) <==> exists i: nat :: i < n && PartOf(first, inbox, i).None?)
                  && forall parts: seq<Bytes> ::
                       (|parts| == n && forall i :: 0 <= i < n ==> PartOf(first, inbox, i) == Some(parts[i])) ==>
                         r == Done(Some(Flatten(parts))))
  {
    var n := CountOf(first);
    if Segmented(first) && n != 1 && IndexOf(first) < n < TWO_64 {
      var f := Discover(first, pipeline).fetch;
      assert forall i: nat :: i < n ==> Part(f.segments, inbox, i) == PartOf(first, inbox, i);
      ReturnsExactly(f.segments, inbox);
      forall i: nat
        ensures FirstNamed(inbox, i).Some? <==> Arrives(inbox, i)
      {
        NamedArrives(inbox, i);
      }
      assert Outcome(f.segments, inbox).Some? <==> forall i: nat :: i < n ==> PartOf(first, inbox, i).Some? by {
        assert forall i: nat :: i < n ==> (PartOf(first, inbox, i).Some? <==> f.segments[i].Some? || Arrives(inbox, i));
        assert (forall i: nat :: i < n ==> PartOf(first, inbox, i).Some?) <==>
               (forall i: nat :: i < n ==> f.segments[i].Some? || Arrives(inbox, i));
      }
      forall parts: seq<Bytes> | |parts| == n && forall i :: 0 <= i < n ==> PartOf(first, inbox, i) == Some(parts[i])
        ensures Outcome(f.segments, inbox) == Some(Flatten(parts))
      {
        OutcomeParts(f.segments, inbox, parts);
      }
    }
  }
}
