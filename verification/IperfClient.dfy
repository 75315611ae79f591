/** `run_client`: the forward measurement loop with its deadline and drain phase. */
module IperfClient {
  import opened Prelude
  import opened Iperf

  /** The initial burst. */
  function Start(initialWindow: nat, window: real, now: nat, stamp: nat): Session {
    var first := if initialWindow < Allowed(window) then initialWindow else Allowed(window);
    FillWindow(Fresh(now), first, stamp).(clock := if now < stamp then stamp else now)
  }

  function OnArrival(s: Session, seqNo: Option<nat>, now: nat, stamp: nat, window: real, deadline: nat): Session {
    var a := TakeAnswer(s, seqNo, now);
    var b := if a.pastDeadline then a
             else if now < deadline then FillWindow(a, Allowed(window), stamp)
             else a.(pastDeadline := true);
    b.(ended := b.pastDeadline && b.table == map[], clock := stamp)
  }

  /** The entries an idle drain wait drops: those at least a drain timeout old. */
  function Drain(s: Session, now: nat): Session {
    var dropped := StaleSeqs(s, DRAIN, now);
    s.(table := s.table - dropped, drained := s.drained + dropped)
  }

  /** `(window / 2.0).max(2.0) as usize`. */
  function RetryLimit(window: real): nat {
    if window / 2.0 < 2.0 then 2 else (window / 2.0).Floor
  }

  function OnIdle(s: Session, now: nat, stamp: nat, window: real, order: seq<nat>, deadline: nat): Session {
    if s.pastDeadline then
      var d := if s.table == map[] then s else Drain(s, now);
      d.(ended := d.table == map[], clock := stamp)
    else if now >= deadline then s.(pastDeadline := true, clock := stamp)
    else Retry(s, order, RetryLimit(window), stamp).(clock := stamp)
  }

  /** Only an idle wait before the deadline looks for stale entries to retry. */
  predicate Retries(s: Session, e: Event, deadline: nat) {
    e.Idle? && !s.pastDeadline && e.now < deadline
  }

  ghost predicate Enabled(s: Session, e: Event, deadline: nat) {
    !s.ended && Timely(s, e) && (Retries(s, e, deadline) ==> OrderOk(s, e))
  }

  ghost function Next(s: Session, e: Event, deadline: nat): Session {
    match e
    case Arrival(seqNo, now, stamp, window) => OnArrival(s, seqNo, now, stamp, window, deadline)
    case Idle(now, stamp, _, window, order) => OnIdle(s, now, stamp, window, order, deadline)
    case Disconnect => s.(ended := true)
  }

  ghost predicate StepAt(ss: seq<Session>, es: seq<Event>, deadline: nat, i: nat)
    requires |ss| == |es| + 1 && i < |es|
  {
    Enabled(ss[i], es[i], deadline) && ss[i + 1] == Next(ss[i], es[i], deadline)
  }

  ghost predicate Run(ss: seq<Session>, es: seq<Event>, deadline: nat) {
    && |ss| == |es| + 1
    && (exists initialWindow: nat, window: real, now: nat, stamp: nat ::
          now <= stamp && ss[0] == Start(initialWindow, window, now, stamp))
    && forall i :: 0 <= i < |es| ==> StepAt(ss, es, deadline, i)
  }

  /** What holds at every loop head of the client. */
  ghost predicate Good(s: Session) {
    && Books(s) && StampedBy(s, s.clock)
    && (!s.pastDeadline ==> s.drained == {})
  }

  lemma FillGood(s: Session, allowed: nat, stamp: nat)
    requires Books(s) && StampedBy(s, stamp)
    ensures Books(FillWindow(s, allowed, stamp)) && StampedBy(FillWindow(s, allowed, stamp), stamp)
  {
    FillWindowBooks(s, allowed, stamp);
    FillWindowExact(s, allowed, stamp);
    hide Books, FillWindow;
  }

  lemma StartGood(initialWindow: nat, window: real, now: nat, stamp: nat)
    requires now <= stamp
    ensures Good(Start(initialWindow, window, now, stamp))
  {
    var first := if initialWindow < Allowed(window) then initialWindow else Allowed(window);
    var s := FillWindow(Fresh(now), first, stamp);
    FreshBooks(now);
    FillGood(Fresh(now), first, stamp);
    FillWindowExact(Fresh(now), first, stamp);
    hide Books, FillWindow;
    FlagsKeepBooks(s, s.pastDeadline, s.ended, stamp);
  }

  lemma TakeAnswerKeeps(s: Session, seqNo: Option<nat>, now: nat, stamp: nat)
    requires Good(s) && s.clock <= stamp
    ensures var a := TakeAnswer(s, seqNo, now);
            Books(a) && StampedBy(a, stamp) && a.pastDeadline == s.pastDeadline && a.drained == s.drained
  {
    TakeAnswerBooks(s, seqNo, now);
    hide Books;
  }

  lemma ArrivalGood(s: Session, seqNo: Option<nat>, now: nat, stamp: nat, window: real, deadline: nat)
    requires Good(s) && s.clock <= now <= stamp
    ensures Good(OnArrival(s, seqNo, now, stamp, window, deadline))
  {
    var a := TakeAnswer(s, seqNo, now);
    TakeAnswerKeeps(s, seqNo, now, stamp);
    FillGood(a, Allowed(window), stamp);
    FillWindowExact(a, Allowed(window), stamp);
    hide Books, FillWindow, TakeAnswer;
    var b := if a.pastDeadline then a
             else if now < deadline then FillWindow(a, Allowed(window), stamp)
             else a.(pastDeadline := true);
    FlagsKeepBooks(a, true, a.ended, a.clock);
    assert a.(pastDeadline := true, ended := a.ended, clock := a.clock) == a.(pastDeadline := true);
    FlagsKeepBooks(b, b.pastDeadline, b.pastDeadline && b.table == map[], stamp);
  }

  lemma DrainPartition(s: Session, now: nat)
    requires Books(s)
    ensures Partition(Drain(s, now))
    ensures StaleSeqs(s, DRAIN, now) !! s.drained
  {
    var t := Drain(s, now);
    forall q: nat
      ensures Places(t, q) == Places(s, q)
      ensures q in s.table ==> q !in s.drained
    {
      OnePlace(s, q);
    }
    hide Places;
    SamePlaces(s, t);
  }

  lemma DrainBooks(s: Session, now: nat)
    requires Books(s)
    ensures Books(Drain(s, now))
  {
    var t, dropped := Drain(s, now), StaleSeqs(s, DRAIN, now);
    DrainPartition(s, now);
    StaleInTable(s, now);
    hide Partition, StaleSeqs, Places, Tries;
    DropSizes(s.table, dropped, s.drained);
    assert t.table == s.table - dropped && t.drained == s.drained + dropped;
    DrainTries(s, dropped);
  }

  lemma DrainTries(s: Session, dropped: set<nat>)
    requires Tries(s)
    ensures Tries(s.(table := s.table - dropped, drained := s.drained + dropped))
  {
  }

  lemma StaleInTable(s: Session, now: nat)
    ensures StaleSeqs(s, DRAIN, now) <= s.table.Keys
  {
  }

  lemma DropSizes(table: map<nat, Probe>, dropped: set<nat>, drained: set<nat>)
    requires dropped <= table.Keys && dropped !! drained
    ensures |table - dropped| == |table| - |dropped| && |drained + dropped| == |drained| + |dropped|
  {
    assert (table - dropped).Keys == table.Keys - dropped;
  }

  lemma SamePlaces(s: Session, t: Session)
    requires Partition(s) && t.nextSeq == s.nextSeq && forall q: nat :: Places(t, q) == Places(s, q)
    ensures Partition(t)
  {
  }

  lemma IdleGood(s: Session, now: nat, stamp: nat, rto: nat, window: real, order: seq<nat>, deadline: nat)
    requires Good(s) && s.clock <= now <= stamp
    requires !s.pastDeadline && now < deadline ==> Enumerates(order, StaleSeqs(s, rto, now))
    ensures Good(OnIdle(s, now, stamp, window, order, deadline))
  {
    if s.pastDeadline {
      DrainBooks(s, now);
      hide Books;
      var d := Drain(s, now);
      FlagsKeepBooks(s, s.pastDeadline, true, stamp);
      FlagsKeepBooks(d, s.pastDeadline, d.table == map[], stamp);
    } else if now >= deadline {
      hide Books;
      FlagsKeepBooks(s, true, s.ended, stamp);
    } else {
      RetryEffect(s, order, RetryLimit(window), stamp);
      RetryFrame(s, order, RetryLimit(window), stamp);
      hide Books, Retry;
      var t := Retry(s, order, RetryLimit(window), stamp);
      FlagsKeepBooks(t, t.pastDeadline, t.ended, stamp);
    }
  }

  lemma {:induction false} RunGood(ss: seq<Session>, es: seq<Event>, deadline: nat, i: nat)
    requires Run(ss, es, deadline) && i < |ss|
    ensures Good(ss[i])
  {
    hide Good, OnArrival, OnIdle, Start;
    if i == 0 {
      var initialWindow: nat, window: real, now: nat, stamp: nat :|
        now <= stamp && ss[0] == Start(initialWindow, window, now, stamp);
      StartGood(initialWindow, window, now, stamp);
    } else {
      RunGood(ss, es, deadline, i - 1);
      assert StepAt(ss, es, deadline, i - 1);
      var s := ss[i - 1];
      match es[i - 1] {
        case Arrival(seqNo, now, stamp, window) => ArrivalGood(s, seqNo, now, stamp, window, deadline);
        case Idle(now, stamp, rto, window, order) => IdleGood(s, now, stamp, rto, window, order, deadline);
        case Disconnect => EndedGood(s);
      }
    }
  }

  lemma EndedGood(s: Session)
    requires Good(s)
    ensures Good(s.(ended := true))
  {
    hide Books;
    FlagsKeepBooks(s, s.pastDeadline, true, s.clock);
  }

  /** In every state of every run: issued = outstanding + answered (one RTT sample each) + given up
      + dropped at the drain, each number in exactly one of these places; `in_flight` is the table
      until the deadline and never below it after; and each number issued has been sent between one
      and four times. */
  lemma WholeRunAccounts(ss: seq<Session>, es: seq<Event>, deadline: nat, i: nat)
    requires Run(ss, es, deadline) && i < |ss|
    ensures var s := ss[i];
            && s.nextSeq == |s.table| + |s.rtts| + s.timedOut + |s.drained|
            && s.inFlight == |s.table| + |s.drained| && (!s.pastDeadline ==> s.inFlight == |s.table|)
            && |s.rtts| == |s.answered| && s.timedOut == |s.gaveUp|
            && Partition(s)
            && (forall q: nat :: q < s.nextSeq <==> q in s.sends) && (forall q :: q in s.sends ==> 1 <= s.sends[q] <= 4)
            && (forall q :: q in s.table ==> q in s.sends && s.sends[q] == s.table[q].retries + 1)
  {
    RunGood(ss, es, deadline, i);
    hide Partition;
  }

  /** The summary line: packets still outstanding at the end are excluded, `lost` is what is left. */
  datatype Report = Report(sent: nat, outstanding: nat, effectiveSent: nat, received: nat, lost: nat)

  function Summary(s: Session): Report {
    var effective := SaturatingSub(s.nextSeq, |s.table|);
    Report(s.nextSeq, |s.table|, effective, s.received, SaturatingSub(effective, s.received))
  }

  /** Received packets beyond the RTT samples are exactly the unmatched arrivals. */
  lemma {:induction false} SurplusCounts(ss: seq<Session>, es: seq<Event>, deadline: nat, i: nat)
    requires Run(ss, es, deadline) && i < |ss|
    ensures ss[i].received == |ss[i].rtts| + Surplus(ss, es, i)
  {
    if i == 0 {
      var initialWindow: nat, window: real, now: nat, stamp: nat :|
        now <= stamp && ss[0] == Start(initialWindow, window, now, stamp);
      FillWindowExact(Fresh(now), if initialWindow < Allowed(window) then initialWindow else Allowed(window), stamp);
    } else {
      hide Next, Enabled;
      SurplusCounts(ss, es, deadline, i - 1);
      assert StepAt(ss, es, deadline, i - 1);
      SurplusStep(ss[i - 1], es[i - 1], deadline);
    }
  }

  lemma SurplusStep(s: Session, e: Event, deadline: nat)
    requires Enabled(s, e, deadline)
    ensures var t := Next(s, e, deadline);
            t.received - |t.rtts| == s.received - |s.rtts| + (if Unmatched(s, e) then 1 else 0)
  {
    match e {
      case Arrival(seqNo, now, stamp, window) =>
        FillWindowExact(TakeAnswer(s, seqNo, now), Allowed(window), stamp);
        hide FillWindow;
      case Idle(now, stamp, rto, window, order) =>
        RetryFrame(s, order, RetryLimit(window), stamp);
        hide Retry;
      case Disconnect =>
    }
  }

  /** `effective_sent` counts exactly the resolved sequence numbers. `lost` counts the given-up and
      drained ones less the unmatched arrivals, so it is exact if and only if no arrival was unmatched
      or nothing was lost. */
  lemma ReportedLoss(ss: seq<Session>, es: seq<Event>, deadline: nat, i: nat)
    requires Run(ss, es, deadline) && i < |ss|
    ensures var s, r, missing := ss[i], Summary(ss[i]), |ss[i].gaveUp| + |ss[i].drained|;
            && r.sent == s.nextSeq && r.outstanding == |s.table| && r.received == s.received
            && r.effectiveSent == r.sent - r.outstanding == |s.answered| + missing
            && s.received == |s.answered| + Surplus(ss, es, i)
            && r.lost == SaturatingSub(missing, Surplus(ss, es, i)) <= missing
            && (r.lost == missing <==> missing == 0 || forall k: nat :: k < i ==> !Unmatched(ss[k], es[k]))
  {
    RunGood(ss, es, deadline, i);
    SurplusCounts(ss, es, deadline, i);
    SurplusZero(ss, es, i);
    hide Partition, Tries, Run, Surplus, Unmatched;
  }

  /** One stray packet hides one loss: the only packet sent is dropped at the drain, and none is reported lost. */
  lemma StrayHidesLoss()
    ensures exists ss: seq<Session>, es: seq<Event> ::
              Run(ss, es, 10) && |es| == 2 && es[0] == Arrival(None, 10, 10, 1.0) &&
              |ss[2].drained| == 1 && ss[2].gaveUp == {} && ss[2].ended && Summary(ss[2]).lost == 0
  {
    var es := [Arrival(None, 10, 10, 1.0), Idle(10 + DRAIN, 10 + DRAIN, MIN_RTO, 1.0, [])];
    var s0 := Start(1, 1.0, 0, 0);
    assert s0 == SendNew(Fresh(0), 0) by {
      assert Allowed(1.0) == 1;
      assert FillWindow(SendNew(Fresh(0), 0), 1, 0) == SendNew(Fresh(0), 0);
      assert FillWindow(Fresh(0), 1, 0) == FillWindow(SendNew(Fresh(0), 0), 1, 0);
    }
    assert 0 in s0.table && s0.table.Keys == {0};
    hide Start, FillWindow;
    var s1 := Next(s0, es[0], 10);
    assert s1 == s0.(received := 1, pastDeadline := true, clock := 10);
    var s2 := Next(s1, es[1], 10);
    DropsTheOnly(s1);
    var ss := [s0, s1, s2];
    assert Enabled(s0, es[0], 10) && Enabled(s1, es[1], 10);
    hide Next, Enabled;
    assert StepAt(ss, es, 10, 0) && StepAt(ss, es, 10, 1);
    assert Run(ss, es, 10);
  }

  lemma DropsTheOnly(s: Session)
    requires s.table == map[0 := Probe(0, 0)] && s.drained == {} && s.pastDeadline
    ensures var t := OnIdle(s, 10 + DRAIN, 10 + DRAIN, 1.0, [], 10);
            t.drained == {0} && t.ended && t.gaveUp == s.gaveUp && t.table == map[] && t.received == s.received &&
            t.nextSeq == s.nextSeq
  {
    assert StaleSeqs(s, DRAIN, 10 + DRAIN) == {0};
    assert s.table - {0} == map[];
  }

  /** Neither decrement of `in_flight` ever saturates: a matched arrival takes off one, and a retry
      round has taken off `k` after giving up `k` entries. */
  lemma DecrementsAreExact(ss: seq<Session>, es: seq<Event>, deadline: nat, i: nat)
    requires Run(ss, es, deadline) && i < |es|
    ensures var s := ss[i];
            match es[i]
            case Arrival(seqNo, now, _, _) =>
              seqNo.Some? && seqNo.value in s.table ==> TakeAnswer(s, seqNo, now).inFlight == s.inFlight - 1
            case Idle(_, _, _, _, order) =>
              Retries(s, es[i], deadline) ==> forall k: nat :: k <= |Select(s, order, true)| ==>
                GiveUp(s, Select(s, order, true)[..k]).inFlight == s.inFlight - k
            case Disconnect => true
  {
    RunGood(ss, es, deadline, i);
    assert StepAt(ss, es, deadline, i);
    var s := ss[i];
    match es[i] {
      case Arrival(seqNo, now, stamp, window) =>
        hide Partition;
        assert |s.table.Keys| >= 1 || s.table == map[];
      case Idle(now, stamp, rto, window, order) =>
        hide Books, Select, GiveUp;
        forall k: nat | Retries(s, es[i], deadline) && k <= |Select(s, order, true)|
          ensures GiveUp(s, Select(s, order, true)[..k]).inFlight == s.inFlight - k
        {
          SpentDecrements(s, order, k);
        }
      case Disconnect =>
    }
  }

  /** No new sequence number goes out once the window is full, and none at or after the deadline. */
  lemma WindowRespected(ss: seq<Session>, es: seq<Event>, deadline: nat, i: nat)
    requires Run(ss, es, deadline) && i < |es| && ss[i + 1].nextSeq > ss[i].nextSeq
    ensures es[i].Arrival? && !ss[i].pastDeadline && es[i].now < deadline
    ensures ss[i + 1].inFlight == Allowed(es[i].window)
  {
    assert StepAt(ss, es, deadline, i);
    var s := ss[i];
    match es[i] {
      case Arrival(seqNo, now, stamp, window) =>
        FillWindowExact(TakeAnswer(s, seqNo, now), Allowed(window), stamp);
      case Idle(now, stamp, rto, window, order) =>
        RetryFrame(s, order, RetryLimit(window), stamp);
        hide Retry;
      case Disconnect =>
    }
  }

  /** Every event at or after the deadline leaves the loop past it; passing it is final. */
  lemma DeadlineNoticed(s: Session, e: Event, deadline: nat)
    requires Enabled(s, e, deadline) && !e.Disconnect?
    ensures e.now >= deadline || s.pastDeadline ==> Next(s, e, deadline).pastDeadline
  {
    match e {
      case Arrival(seqNo, now, stamp, window) => hide FillWindow;
      case Idle(now, stamp, rto, window, order) => hide Retry;
    }
  }

  /** Past the deadline the first idle wait drops everything, so it ends the loop. */
  lemma FirstIdleDrainEnds(s: Session, e: Event, deadline: nat)
    requires Good(s) && s.pastDeadline && Enabled(s, e, deadline) && e.Idle?
    ensures Next(s, e, deadline).ended && Next(s, e, deadline).table == map[]
  {
    hide Books;
    assert StaleSeqs(s, DRAIN, e.now) == s.table.Keys;
  }

  lemma {:induction false} StaysPast(ss: seq<Session>, es: seq<Event>, deadline: nat, i: nat, k: nat)
    requires Run(ss, es, deadline) && i <= k < |ss| && ss[i].pastDeadline
    ensures ss[k].pastDeadline
    decreases k - i
  {
    if i < k {
      StaysPast(ss, es, deadline, i, k - 1);
      assert StepAt(ss, es, deadline, k - 1);
      if !es[k - 1].Disconnect? {
        DeadlineNoticed(ss[k - 1], es[k - 1], deadline);
      }
    }
  }

  /** The second idle wait that times out at or after the deadline is the last event of the run. */
  lemma StopsAfterDeadline(ss: seq<Session>, es: seq<Event>, deadline: nat, i: nat, k: nat)
    requires Run(ss, es, deadline) && i < k < |es|
    requires es[i].Idle? && es[i].now >= deadline && es[k].Idle?
    ensures ss[k + 1].ended && k + 1 == |es|
  {
    assert StepAt(ss, es, deadline, i) && StepAt(ss, es, deadline, k);
    DeadlineNoticed(ss[i], es[i], deadline);
    StaysPast(ss, es, deadline, i + 1, k);
    RunGood(ss, es, deadline, k);
    FirstIdleDrainEnds(ss[k], es[k], deadline);
    assert k + 1 < |es| ==> StepAt(ss, es, deadline, k + 1);
  }
}
