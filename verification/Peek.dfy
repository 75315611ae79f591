/** `ndn-peek`: the state of one segmented fetch and what each turn of its loop does to it. */
module Peek {
  import opened Prelude
  import opened Naming
  import opened FinalBlock
  import opened Put

  /** One outstanding Interest: the segment it asks for and when it was sent (milliseconds). */
  datatype Flight = Flight(seg: nat, t0: nat)

  datatype Fetch = Fetch(
    total: nat,
    first: nat,
    pipeline: nat,
    segments: seq<Option<Bytes>>,
    inFlight: map<nat, Flight>,
    nextSeg: nat,
    received: nat,
    nextKey: nat)

  datatype Start = Whole(content: Bytes) | Begin(fetch: Fetch) | IndexOutOfBounds

  /** Segments announced by the discovery response; one if nothing readable is announced. */
  function Announced(d: Data): nat {
    if d.finalBlockId.Some? && Decoded(d.finalBlockId.value).Some?
    then Decoded(d.finalBlockId.value).value + 1
    else 1
  }

  /** From the discovery response to the first loop head. */
  function Discover(d: Data, pipeline: nat): Start {
    if d.name == [] || d.name[|d.name| - 1].typ != SEGMENT then Whole(d.content)
    else
      var first := if LastSegment(d.name).Some? then LastSegment(d.name).value else 0;
      var total := Announced(d);
      if total == 1 then Whole(d.content)
      else if first >= total || total >= TWO_64 then IndexOutOfBounds
      else
        var segments := seq(total, _ => None)[first := Some(d.content)];
        Begin(Fetch(total, first, pipeline, segments, map[], if first == 0 then 1 else 0, 1, 0))
  }

  /** The segments the refill picks: the next `room` unrequested ones, and where it stops. */
  function NextBatch(f: Fetch, nextSeg: nat, room: nat): (r: (seq<nat>, nat))
    ensures nextSeg <= r.1 && (nextSeg <= f.total ==> r.1 <= f.total)
    ensures forall i :: i in r.0 <==> nextSeg <= i < r.1 && i != f.first
    ensures forall i, j :: 0 <= i < j < |r.0| ==> r.0[i] < r.0[j]
    ensures |r.0| <= room && |r.0| <= r.1 - nextSeg
    ensures |r.0| == room || r.1 >= f.total
    decreases f.total - nextSeg
  {
    if room == 0 || nextSeg >= f.total then ([], nextSeg)
    else if nextSeg == f.first then NextBatch(f, nextSeg + 1, room)
    else
      var (rest, stop) := NextBatch(f, nextSeg + 1, room - 1);
      assert forall j :: 0 <= j < |rest| ==> rest[j] in rest;
      ([nextSeg] + rest, stop)
  }

  /** Record one freshly sent Interest under a fresh key. */
  function LaunchOne(f: Fetch, seg: nat, now: nat): Fetch {
    f.(inFlight := f.inFlight[f.nextKey := Flight(seg, now)], nextKey := f.nextKey + 1)
  }

  function Launch(f: Fetch, segs: seq<nat>, now: nat): Fetch {
    if segs == [] then f
    else LaunchOne(Launch(f, segs[..|segs| - 1], now), segs[|segs| - 1], now)
  }

  function Room(f: Fetch): nat {
    if |f.inFlight| < f.pipeline then f.pipeline - |f.inFlight| else 0
  }

  function Refill(f: Fetch, now: nat): Fetch {
    var (batch, stop) := NextBatch(f, f.nextSeg, Room(f));
    Launch(f.(nextSeg := stop), batch, now)
  }

  function Without(inFlight: map<nat, Flight>, seg: nat): map<nat, Flight> {
    map k | k in inFlight && inFlight[k].seg != seg :: inFlight[k]
  }

  /** A received Data: `idx` is the segment its last component names, if any. */
  function Receive(f: Fetch, idx: Option<nat>, content: Bytes): Fetch {
    if idx.Some? && idx.value < f.total && idx.value < |f.segments| && f.segments[idx.value].None? then
      f.(segments := f.segments[idx.value := Some(content)],
         received := f.received + 1,
         inFlight := Without(f.inFlight, idx.value))
    else f
  }

  function StaleKeys(f: Fetch, lifetime: nat, now: nat): set<nat> {
    set k | k in f.inFlight && now >= f.inFlight[k].t0 + lifetime
  }

  function SegsOf(f: Fetch, order: seq<nat>): seq<nat>
    requires Elems(order) <= f.inFlight.Keys
  {
    seq<nat>(|order|, i requires 0 <= i < |order| =>
      ElemsIn(order, order[i]);
      f.inFlight[order[i]].seg)
  }

  /** An idle timeout re-sends the stale entries, in the order `order` the hash map yields them. */
  function Expire(f: Fetch, order: seq<nat>, now: nat): Fetch
    requires Elems(order) <= f.inFlight.Keys
  {
    Launch(f.(inFlight := f.inFlight - Elems(order)), SegsOf(f, order), now)
  }

  function Stored(segments: seq<Option<Bytes>>): nat {
    if segments == [] then 0
    else Stored(segments[..|segments| - 1]) + if segments[|segments| - 1].Some? then 1 else 0
  }

  /** `reassemble`: the stored segments joined in order, or nothing if one is missing. */
  function Assembled(segments: seq<Option<Bytes>>): Option<Bytes> {
    if segments == [] then Some([])
    else
      var n := |segments| - 1;
      if Assembled(segments[..n]).Some? && segments[n].Some?
      then Some(Assembled(segments[..n]).value + segments[n].value)
      else None
  }

  lemma {:induction false} AssembledIsJoin(segments: seq<Option<Bytes>>, parts: seq<Bytes>)
    requires |segments| == |parts| && forall i :: 0 <= i < |parts| ==> segments[i] == Some(parts[i])
    ensures Assembled(segments) == Some(Flatten(parts))
  {
    if segments != [] {
      var n := |segments| - 1;
      AssembledIsJoin(segments[..n], parts[..n]);
      FlattenAppend(parts[..n], parts[n]);
      assert parts[..n] + [parts[n]] == parts;
    }
  }

  ghost predicate Carries(f: Fetch, k: nat, i: nat) {
    k in f.inFlight && f.inFlight[k].seg == i
  }

  ghost predicate Shape(f: Fetch) {
    && |f.segments| == f.total && f.first < f.total && f.nextSeg <= f.total && 1 <= f.pipeline
    && f.segments[f.first].Some?
    && f.received == Stored(f.segments)
    && (forall i :: f.nextSeg <= i < f.total && i != f.first ==> f.segments[i].None?)
  }

  ghost predicate Carried(f: Fetch, i: nat) {
    exists k :: Carries(f, k, i)
  }

  /** The table of outstanding Interests: old keys, requested missing segments, no segment twice. */
  ghost predicate Table(f: Fetch)
    requires Shape(f)
  {
    && (forall k: nat, i: nat :: Carries(f, k, i) ==> k < f.nextKey && i < f.nextSeg && f.segments[i].None?)
    && (forall k: nat, l: nat, i: nat :: Carries(f, k, i) && Carries(f, l, i) ==> k == l)
  }

  /** The loop-head invariant while the segments in `pending` are sent but not yet entered in the table. */
  ghost predicate InvBut(f: Fetch, pending: set<nat>) {
    && Shape(f) && Table(f)
    && |f.inFlight| + |pending| <= f.pipeline
    && (forall i :: i in pending ==> i < f.nextSeg && f.segments[i].None? && !Carried(f, i))
    && (forall i {:trigger Carried(f, i)} ::
          0 <= i < f.nextSeg && f.segments[i].None? && i !in pending ==> Carried(f, i))
  }

  /** What holds at every loop head. */
  ghost predicate Inv(f: Fetch) {
    InvBut(f, {})
  }

  /** Refilled as far as it goes: the pipeline is full or every segment has been requested. */
  ghost predicate Saturated(f: Fetch) {
    |f.inFlight| == f.pipeline || f.nextSeg == f.total
  }

  /** Each segment other than the discovered one is in exactly one of three states. */
  lemma ThreeStates(f: Fetch, i: nat)
    requires Inv(f) && i < f.total && i != f.first
    ensures f.segments[i].Some? ==> i < f.nextSeg && forall k :: !Carries(f, k, i)
    ensures i >= f.nextSeg ==> f.segments[i].None? && forall k :: !Carries(f, k, i)
    ensures f.segments[i].None? && i < f.nextSeg ==>
              exists k :: Carries(f, k, i) && forall l :: Carries(f, l, i) ==> l == k
  {
    if f.segments[i].None? && i < f.nextSeg {
      assert Carried(f, i);
      var k :| Carries(f, k, i);
    }
  }

  lemma {:induction false} StoredUpdate(segments: seq<Option<Bytes>>, i: nat, b: Bytes)
    requires i < |segments| && segments[i].None?
    ensures Stored(segments[i := Some(b)]) == Stored(segments) + 1
  {
    var n := |segments| - 1;
    var updated := segments[i := Some(b)];
    if i == n {
      assert updated[..n] == segments[..n];
    } else {
      assert updated[..n] == segments[..n][i := Some(b)];
      StoredUpdate(segments[..n], i, b);
    }
  }

  lemma {:induction false} StoredNone(n: nat)
    ensures Stored(seq(n, _ => None)) == 0
  {
    if n > 0 {
      var s := seq<Option<Bytes>>(n, _ => None);
      assert s[..n - 1] == seq<Option<Bytes>>(n - 1, _ => None);
      StoredNone(n - 1);
    }
  }

  /** All counted, none missing - and the count never exceeds the length. */
  lemma {:induction false} StoredFull(segments: seq<Option<Bytes>>)
    ensures Stored(segments) <= |segments|
    ensures Stored(segments) == |segments| <==> forall i :: 0 <= i < |segments| ==> segments[i].Some?
  {
    if segments != [] {
      var n := |segments| - 1;
      StoredFull(segments[..n]);
      assert forall i :: 0 <= i < n ==> segments[..n][i] == segments[i];
    }
  }

  lemma DiscoverEstablishes(d: Data, pipeline: nat)
    requires 1 <= pipeline && Discover(d, pipeline).Begin?
    ensures Inv(Discover(d, pipeline).fetch)
  {
    var f := Discover(d, pipeline).fetch;
    StoredNone(f.total);
    StoredUpdate(seq(f.total, _ => None), f.first, d.content);
  }

  lemma LaunchOneKeeps(f: Fetch, seg: nat, now: nat, pending: set<nat>)
    requires InvBut(f, pending) && seg in pending
    ensures InvBut(LaunchOne(f, seg, now), pending - {seg})
  {
    var g := LaunchOne(f, seg, now);
    assert !Carried(f, seg);
    assert f.nextKey !in f.inFlight by {
      assert forall k :: k in f.inFlight ==> Carries(f, k, f.inFlight[k].seg);
    }
    assert forall k: nat, i: nat :: Carries(g, k, i) ==> (k == f.nextKey && i == seg) || Carries(f, k, i);
    forall i: nat
      ensures Carried(g, i) <==> i == seg || Carried(f, i)
    {
      assert Carries(g, f.nextKey, seg);
      if Carried(f, i) {
        var k :| Carries(f, k, i);
        assert Carries(g, k, i);
      }
      if Carried(g, i) && i != seg {
        var k :| Carries(g, k, i);
        assert Carries(f, k, i);
      }
    }
  }

  /** Entering every pending segment, in any order, completes the invariant. */
  lemma {:induction false} LaunchKeeps(f: Fetch, segs: seq<nat>, now: nat, pending: set<nat>)
    requires InvBut(f, pending) && Elems(segs) <= pending && NoRepeats(segs)
    ensures InvBut(Launch(f, segs, now), pending - Elems(segs))
  {
    hide InvBut;
    if segs == [] {
      assert pending - Elems(segs) == pending;
    } else {
      var rest, last := segs[..|segs| - 1], segs[|segs| - 1];
      LaunchKeeps(f, rest, now, pending);
      LaunchOneKeeps(Launch(f, rest, now), last, now, pending - Elems(rest));
      assert pending - Elems(rest) - {last} == pending - Elems(segs);
    }
  }

  /** What launching adds: one entry per segment, under consecutive fresh keys, stamped `now`. */
  lemma {:induction false} LaunchEntries(f: Fetch, segs: seq<nat>, now: nat)
    requires forall k :: k in f.inFlight ==> k < f.nextKey
    ensures var g := Launch(f, segs, now);
            && g.nextKey == f.nextKey + |segs|
            && |g.inFlight| == |f.inFlight| + |segs|
            && (forall k :: k in g.inFlight <==> k in f.inFlight || f.nextKey <= k < g.nextKey)
  {
    if segs != [] {
      LaunchEntries(f, segs[..|segs| - 1], now);
    }
  }

  lemma {:induction false} LaunchStamps(f: Fetch, segs: seq<nat>, now: nat, k: nat)
    requires k in Launch(f, segs, now).inFlight
    ensures (k in f.inFlight && Launch(f, segs, now).inFlight[k] == f.inFlight[k])
            || Launch(f, segs, now).inFlight[k].t0 == now
  {
    if segs != [] {
      var g := Launch(f, segs[..|segs| - 1], now);
      if k != g.nextKey {
        LaunchStamps(f, segs[..|segs| - 1], now, k);
      }
    }
  }

  /** Picking the next batch makes exactly the picked segments pending. */
  lemma RefillPending(f: Fetch)
    requires Inv(f)
    ensures var (batch, stop) := NextBatch(f, f.nextSeg, Room(f));
            InvBut(f.(nextSeg := stop), Elems(batch)) && NoRepeats(batch) && |Elems(batch)| == |batch|
  {
    var (batch, stop) := NextBatch(f, f.nextSeg, Room(f));
    var h := f.(nextSeg := stop);
    AscendingNoRepeats(batch);
    EnumerationLength(batch, Elems(batch));
    assert forall k: nat, i: nat :: Carries(h, k, i) <==> Carries(f, k, i);
    assert forall i: nat :: Carried(h, i) <==> Carried(f, i);
    forall i: nat
      ensures i in Elems(batch) <==> f.nextSeg <= i < stop && i != f.first
    {
      ElemsIn(batch, i);
    }
  }

  lemma RefillKeeps(f: Fetch, now: nat)
    requires Inv(f)
    ensures Inv(Refill(f, now)) && Saturated(Refill(f, now))
    ensures Refill(f, now).received < f.total ==> Refill(f, now).inFlight != map[]
  {
    var (batch, stop) := NextBatch(f, f.nextSeg, Room(f));
    var h := f.(nextSeg := stop);
    RefillPending(f);
    KeysBelow(h, Elems(batch));
    assert stop <= f.total && |f.inFlight| <= f.pipeline by {
      assert Shape(f);
    }
    hide InvBut;
    LaunchKeeps(h, batch, now, Elems(batch));
    assert Elems(batch) - Elems(batch) == {};
    LaunchEntries(h, batch, now);
    LaunchFrame(h, batch, now);
    SaturatedIsBusy(Refill(f, now));
  }

  lemma KeysBelow(f: Fetch, pending: set<nat>)
    requires InvBut(f, pending)
    ensures forall k :: k in f.inFlight ==> k < f.nextKey
  {
    assert forall k :: k in f.inFlight ==> Carries(f, k, f.inFlight[k].seg);
  }

  lemma {:induction false} LaunchFrame(f: Fetch, segs: seq<nat>, now: nat)
    ensures Launch(f, segs, now) ==
              f.(inFlight := Launch(f, segs, now).inFlight, nextKey := Launch(f, segs, now).nextKey)
  {
    if segs != [] {
      LaunchFrame(f, segs[..|segs| - 1], now);
    }
  }

  lemma RefillFrame(f: Fetch, now: nat)
    ensures var g := Refill(f, now);
            && g.nextSeg == NextBatch(f, f.nextSeg, Room(f)).1 && g.first == f.first && g.total == f.total
            && g.segments == f.segments && g.received == f.received && g.pipeline == f.pipeline
  {
    var (batch, stop) := NextBatch(f, f.nextSeg, Room(f));
    LaunchFrame(f.(nextSeg := stop), batch, now);
    hide Launch, NextBatch, Room;
  }

  /** An incomplete, refilled fetch always has something on the way. */
  lemma SaturatedIsBusy(f: Fetch)
    requires Inv(f) && Saturated(f)
    ensures f.received < f.total ==> f.inFlight != map[]
  {
    StoredFull(f.segments);
    if f.received < f.total && f.nextSeg == f.total {
      var i :| 0 <= i < |f.segments| && f.segments[i].None?;
      assert Carried(f, i);
    }
  }

  lemma WithoutSize(inFlight: map<nat, Flight>, seg: nat)
    ensures |Without(inFlight, seg)| <= |inFlight|
  {
    SubsetSize(Without(inFlight, seg).Keys, inFlight.Keys);
  }

  lemma {:induction false} SubsetSize<T>(a: set<T>, b: set<T>)
    requires a <= b
    ensures |a| <= |b|
  {
    assert b == a + (b - a);
  }

  /** Receiving a segment that was asked for keeps the invariant; the discovered one counts as asked for. */
  lemma ReceiveKeeps(f: Fetch, idx: Option<nat>, content: Bytes)
    requires Inv(f)
    requires idx.Some? ==> idx.value < f.nextSeg || idx.value == f.first || idx.value >= f.total
    ensures Inv(Receive(f, idx, content))
  {
    var g := Receive(f, idx, content);
    if g != f {
      var i := idx.value;
      StoredUpdate(f.segments, i, content);
      WithoutSize(f.inFlight, i);
      assert forall k: nat, j: nat :: Carries(g, k, j) <==> j != i && Carries(f, k, j);
      assert forall j: nat :: Carried(g, j) <==> j != i && Carried(f, j);
    }
  }

  /** The set of segments on the way. */
  function SegsInFlight(f: Fetch): set<nat> {
    set k | k in f.inFlight :: f.inFlight[k].seg
  }

  /** Emptying the table makes exactly its segments pending. */
  lemma EmptiedPending(f: Fetch)
    requires Inv(f) && |SegsInFlight(f)| <= |f.inFlight|
    ensures InvBut(f.(inFlight := map[]), SegsInFlight(f))
  {
    var h := f.(inFlight := map[]);
    assert forall k: nat, i: nat :: !Carries(h, k, i);
    forall i: nat | i in SegsInFlight(f)
      ensures i < f.nextSeg && f.segments[i].None?
    {
      var k :| k in f.inFlight && f.inFlight[k].seg == i;
      assert Carries(f, k, i);
    }
    forall i: nat | i < f.nextSeg && f.segments[i].None?
      ensures i in SegsInFlight(f)
    {
      assert Carried(f, i);
    }
  }

  lemma SegsOfPending(f: Fetch, order: seq<nat>)
    requires Inv(f) && Enumerates(order, f.inFlight.Keys)
    ensures NoRepeats(SegsOf(f, order)) && Elems(SegsOf(f, order)) == SegsInFlight(f)
    ensures |SegsInFlight(f)| == |f.inFlight| == |order|
    ensures InvBut(f.(inFlight := map[]), SegsInFlight(f))
  {
    hide InvBut;
    EnumerationLength(order, f.inFlight.Keys);
    SegsOfDistinct(f, order);
    SegsOfElems(f, order);
    EnumerationLength(SegsOf(f, order), SegsInFlight(f));
    EmptiedPending(f);
  }

  lemma {:induction false} SegsOfDistinct(f: Fetch, order: seq<nat>)
    requires Inv(f) && NoRepeats(order) && Elems(order) <= f.inFlight.Keys
    ensures NoRepeats(SegsOf(f, order))
  {
    if order != [] {
      var n := |order| - 1;
      SegsOfDistinct(f, order[..n]);
      var segs := SegsOf(f, order);
      assert segs[..n] == SegsOf(f, order[..n]);
      if segs[n] in Elems(segs[..n]) {
        ElemsIn(segs[..n], segs[n]);
        var j :| 0 <= j < n && segs[j] == segs[n];
        NoRepeatsAt(order, j, n);
        ElemsIn(order, order[j]);
        assert Carries(f, order[j], segs[n]) && Carries(f, order[n], segs[n]);
        assert false;
      }
    }
  }

  lemma SegsOfElems(f: Fetch, order: seq<nat>)
    requires Elems(order) == f.inFlight.Keys
    ensures Elems(SegsOf(f, order)) == SegsInFlight(f)
  {
    var segs := SegsOf(f, order);
    forall i: nat
      ensures i in Elems(segs) <==> i in SegsInFlight(f)
    {
      ElemsIn(segs, i);
      if i in SegsInFlight(f) {
        var k :| k in f.inFlight && f.inFlight[k].seg == i;
        ElemsIn(order, k);
        var j :| 0 <= j < |order| && order[j] == k;
        assert segs[j] == i;
      }
      if i in segs {
        var j :| 0 <= j < |segs| && segs[j] == i;
        ElemsIn(order, order[j]);
      }
    }
  }

  lemma LaunchOneSegs(f: Fetch, seg: nat, now: nat)
    requires f.nextKey !in f.inFlight
    ensures SegsInFlight(LaunchOne(f, seg, now)) == SegsInFlight(f) + {seg}
  {
    var h := LaunchOne(f, seg, now);
    assert h.inFlight[f.nextKey].seg == seg;
    forall k | k in f.inFlight
      ensures f.inFlight[k].seg in SegsInFlight(h)
    {
      assert h.inFlight[k] == f.inFlight[k];
    }
  }

  lemma {:induction false} LaunchSegs(f: Fetch, segs: seq<nat>, now: nat)
    requires forall k :: k in f.inFlight ==> k < f.nextKey
    ensures SegsInFlight(Launch(f, segs, now)) == SegsInFlight(f) + Elems(segs)
  {
    if segs != [] {
      var init, last := segs[..|segs| - 1], segs[|segs| - 1];
      LaunchSegs(f, init, now);
      LaunchEntries(f, init, now);
      hide SegsInFlight;
      LaunchOneSegs(Launch(f, init, now), last, now);
    }
  }

  lemma ExpireEntries(f: Fetch, order: seq<nat>, now: nat)
    requires Elems(order) == f.inFlight.Keys && forall k :: k in f.inFlight ==> k < f.nextKey
    ensures var g := Expire(f, order, now);
            && |g.inFlight| == |order|
            && (forall k :: k in g.inFlight ==> k !in f.inFlight && g.inFlight[k].t0 == now)
            && g == f.(inFlight := g.inFlight, nextKey := g.nextKey)
            && SegsInFlight(g) == Elems(SegsOf(f, order))
            && g == Launch(f.(inFlight := map[]), SegsOf(f, order), now)
  {
    var segs, h := SegsOf(f, order), f.(inFlight := map[]);
    assert f.inFlight - Elems(order) == map[];
    LaunchEntries(h, segs, now);
    LaunchFrame(h, segs, now);
    assert SegsInFlight(h) == {};
    LaunchSegs(h, segs, now);
    forall k | k in Launch(h, segs, now).inFlight
      ensures Launch(h, segs, now).inFlight[k].t0 == now
    {
      LaunchStamps(h, segs, now, k);
    }
  }

  /** A full idle round: every entry moves to a fresh key with a fresh time, the segments stay the same. */
  lemma ExpireKeeps(f: Fetch, order: seq<nat>, now: nat)
    requires Inv(f) && Enumerates(order, f.inFlight.Keys)
    ensures var g := Expire(f, order, now);
            && Inv(g)
            && |g.inFlight| == |f.inFlight| == |order|
            && SegsInFlight(g) == SegsInFlight(f)
            && (forall k :: k in g.inFlight ==> k !in f.inFlight && g.inFlight[k].t0 == now)
            && g == f.(inFlight := g.inFlight, nextKey := g.nextKey)
  {
    SegsOfPending(f, order);
    KeysBelow(f, {});
    ExpireEntries(f, order, now);
    hide InvBut, Expire;
    LaunchKeeps(f.(inFlight := map[]), SegsOf(f, order), now, SegsInFlight(f));
    assert SegsInFlight(f) - SegsInFlight(f) == {};
  }
}
