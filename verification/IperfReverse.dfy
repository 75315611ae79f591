/** `run_reverse_consumer`: the loop that keeps retrying past the deadline until every
    sequence number is answered or given up. */
module IperfReverse {
  import opened Prelude
  import opened Iperf

  /** The refill at the bottom of the loop, decided on the later clock reading. */
  function Bottom(s: Session, stamp: nat, window: real, deadline: nat): Session {
    if !s.pastDeadline && stamp < deadline then FillWindow(s, Allowed(window), stamp) else s
  }

  function OnArrival(s: Session, seqNo: Option<nat>, now: nat, stamp: nat, window: real, deadline: nat): Session {
    var a := TakeAnswer(s, seqNo, now);
    var b := if a.pastDeadline then a
             else if now < deadline then FillWindow(a, Allowed(window), stamp)
             else a.(pastDeadline := true);
    if b.pastDeadline && b.table == map[] then b.(ended := true, clock := stamp)
    else Bottom(b, stamp, window, deadline).(clock := stamp)
  }

  function OnIdle(s: Session, now: nat, stamp: nat, window: real, order: seq<nat>, deadline: nat): Session {
    var p := s.(pastDeadline := s.pastDeadline || now >= deadline);
    if p.pastDeadline && p.table == map[] then p.(ended := true, clock := stamp)
    else Bottom(Retry(p, order, |order|, stamp), stamp, window, deadline).(clock := stamp)
  }

  ghost predicate Enabled(s: Session, e: Event) {
    !s.ended && Timely(s, e) && OrderOk(s, e)
  }

  ghost function Next(s: Session, e: Event, deadline: nat): Session {
    match e
    case Arrival(seqNo, now, stamp, window) => OnArrival(s, seqNo, now, stamp, window, deadline)
    case Idle(now, stamp, _, window, order) => OnIdle(s, now, stamp, window, order, deadline)
    case Disconnect => s.(ended := true)
  }

  ghost predicate StepAt(ss: seq<Session>, es: seq<Event>, deadline: nat, i: nat)
    requires |ss| == |es| + 1 && i < |es|
  {
    Enabled(ss[i], es[i]) && ss[i + 1] == Next(ss[i], es[i], deadline)
  }

  /** The reverse consumer sends nothing before its first event. */
  ghost predicate Run(ss: seq<Session>, es: seq<Event>, deadline: nat) {
    && |ss| == |es| + 1
    && ss[0] == Fresh(ss[0].clock)
    && forall i :: 0 <= i < |es| ==> StepAt(ss, es, deadline, i)
  }

  /** What holds at every loop head: nothing is ever drained, so `in_flight` is the table throughout. */
  ghost predicate Good(s: Session) {
    Books(s) && StampedBy(s, s.clock) && s.drained == {}
  }

  ghost predicate GoodBy(s: Session, stamp: nat) {
    Books(s) && StampedBy(s, stamp) && s.drained == {}
  }

  lemma Flagged(s: Session, past: bool, ended: bool, stamp: nat)
    requires GoodBy(s, stamp)
    ensures Good(s.(pastDeadline := past, ended := ended, clock := stamp))
    ensures GoodBy(s.(pastDeadline := past), stamp)
  {
    hide Books;
    FlagsKeepBooks(s, past, ended, stamp);
    FlagsKeepBooks(s, past, s.ended, s.clock);
  }

  lemma FillGood(s: Session, allowed: nat, stamp: nat)
    requires GoodBy(s, stamp)
    ensures GoodBy(FillWindow(s, allowed, stamp), stamp)
  {
    FillWindowBooks(s, allowed, stamp);
    FillWindowExact(s, allowed, stamp);
    hide Books, FillWindow;
  }

  lemma TakeAnswerGood(s: Session, seqNo: Option<nat>, now: nat, stamp: nat)
    requires Good(s) && s.clock <= stamp
    ensures GoodBy(TakeAnswer(s, seqNo, now), stamp)
  {
    TakeAnswerBooks(s, seqNo, now);
    hide Books;
  }

  lemma BottomGood(s: Session, stamp: nat, window: real, deadline: nat)
    requires GoodBy(s, stamp)
    ensures Good(Bottom(s, stamp, window, deadline).(clock := stamp))
  {
    hide Good, GoodBy;
    FillGood(s, Allowed(window), stamp);
    var t := Bottom(s, stamp, window, deadline);
    Flagged(t, t.pastDeadline, t.ended, stamp);
  }

  lemma ArrivalGood(s: Session, seqNo: Option<nat>, now: nat, stamp: nat, window: real, deadline: nat)
    requires Good(s) && s.clock <= now <= stamp
    ensures Good(OnArrival(s, seqNo, now, stamp, window, deadline))
  {
    var a := TakeAnswer(s, seqNo, now);
    TakeAnswerGood(s, seqNo, now, stamp);
    hide Good, GoodBy, TakeAnswer, Bottom, FillWindow;
    FillGood(a, Allowed(window), stamp);
    var b := if a.pastDeadline then a
             else if now < deadline then FillWindow(a, Allowed(window), stamp)
             else a.(pastDeadline := true);
    Flagged(a, true, a.ended, stamp);
    Flagged(b, b.pastDeadline, true, stamp);
    BottomGood(b, stamp, window, deadline);
  }

  lemma RetryGood(s: Session, order: seq<nat>, stamp: nat)
    requires Good(s) && s.clock <= stamp && NoRepeats(order) && Elems(order) <= s.table.Keys
    ensures GoodBy(Retry(s, order, |order|, stamp), stamp)
  {
    RetryEffect(s, order, |order|, stamp);
    RetryFrame(s, order, |order|, stamp);
    hide Books, Retry;
  }

  lemma IdleGood(s: Session, now: nat, stamp: nat, rto: nat, window: real, order: seq<nat>, deadline: nat)
    requires Good(s) && s.clock <= now <= stamp && Enumerates(order, StaleSeqs(s, rto, now))
    ensures Good(OnIdle(s, now, stamp, window, order, deadline))
  {
    var p := s.(pastDeadline := s.pastDeadline || now >= deadline);
    assert GoodBy(s, s.clock) && GoodBy(s, stamp);
    Flagged(s, p.pastDeadline, s.ended, s.clock);
    assert p == s.(pastDeadline := p.pastDeadline, ended := s.ended, clock := s.clock);
    Flagged(s, p.pastDeadline, true, stamp);
    hide Good, GoodBy, Bottom, Retry;
    RetryGood(p, order, stamp);
    BottomGood(Retry(p, order, |order|, stamp), stamp, window, deadline);
  }

  lemma {:induction false} RunGood(ss: seq<Session>, es: seq<Event>, deadline: nat, i: nat)
    requires Run(ss, es, deadline) && i < |ss|
    ensures Good(ss[i])
  {
    if i == 0 {
      FreshBooks(ss[0].clock);
    } else {
      hide Good, OnArrival, OnIdle;
      RunGood(ss, es, deadline, i - 1);
      assert StepAt(ss, es, deadline, i - 1);
      var s := ss[i - 1];
      match es[i - 1] {
        case Arrival(seqNo, now, stamp, window) => ArrivalGood(s, seqNo, now, stamp, window, deadline);
        case Idle(now, stamp, rto, window, order) => IdleGood(s, now, stamp, rto, window, order, deadline);
        case Disconnect => Flagged(s, s.pastDeadline, true, s.clock);
      }
    }
  }

  /** In every state of every run: issued = outstanding + answered + given up, each number in exactly
      one of these places, `in_flight` is the table, each number issued was sent between one and four
      times, and the loss the consumer reports is at most what is outstanding or given up. */
  lemma WholeRunAccounts(ss: seq<Session>, es: seq<Event>, deadline: nat, i: nat)
    requires Run(ss, es, deadline) && i < |ss|
    ensures var s, lost := ss[i], SaturatingSub(ss[i].nextSeq, ss[i].received);
            && s.nextSeq == |s.table| + |s.rtts| + s.timedOut
            && s.inFlight == |s.table|
            && |s.rtts| == |s.answered| <= s.received && s.timedOut == |s.gaveUp|
            && Partition(s) && s.drained == {}
            && (forall q: nat :: q < s.nextSeq <==> q in s.sends) && (forall q :: q in s.sends ==> 1 <= s.sends[q] <= 4)
            && (forall q :: q in s.table ==> q in s.sends && s.sends[q] == s.table[q].retries + 1)
            && lost == SaturatingSub(|s.table| + s.timedOut, s.received - |s.rtts|)
            && lost == SaturatingSub(|s.table| + s.timedOut, Surplus(ss, es, i))
            && lost <= |s.table| + |s.gaveUp|
  {
    RunGood(ss, es, deadline, i);
    SurplusCounts(ss, es, deadline, i);
    hide Partition;
  }

  /** Received packets beyond the RTT samples are exactly the unmatched arrivals. */
  lemma {:induction false} SurplusCounts(ss: seq<Session>, es: seq<Event>, deadline: nat, i: nat)
    requires Run(ss, es, deadline) && i < |ss|
    ensures ss[i].received == |ss[i].rtts| + Surplus(ss, es, i)
  {
    if i > 0 {
      hide Next, Enabled;
      SurplusCounts(ss, es, deadline, i - 1);
      assert StepAt(ss, es, deadline, i - 1);
      SurplusStep(ss[i - 1], es[i - 1], deadline);
    }
  }

  lemma SurplusStep(s: Session, e: Event, deadline: nat)
    requires Enabled(s, e)
    ensures var t := Next(s, e, deadline);
            t.received - |t.rtts| == s.received - |s.rtts| + (if Unmatched(s, e) then 1 else 0)
  {
    match e {
      case Arrival(seqNo, now, stamp, window) =>
        var a := TakeAnswer(s, seqNo, now);
        FillWindowExact(a, Allowed(window), stamp);
        FillWindowExact(FillWindow(a, Allowed(window), stamp), Allowed(window), stamp);
        hide FillWindow;
      case Idle(now, stamp, rto, window, order) =>
        var p := s.(pastDeadline := s.pastDeadline || now >= deadline);
        RetryFrame(p, order, |order|, stamp);
        FillWindowExact(Retry(p, order, |order|, stamp), Allowed(window), stamp);
        hide Retry, FillWindow;
      case Disconnect =>
    }
  }

  /** Neither decrement of `in_flight` ever saturates. */
  lemma DecrementsAreExact(ss: seq<Session>, es: seq<Event>, deadline: nat, i: nat)
    requires Run(ss, es, deadline) && i < |es|
    ensures var s := ss[i];
            match es[i]
            case Arrival(seqNo, now, _, _) =>
              seqNo.Some? && seqNo.value in s.table ==> TakeAnswer(s, seqNo, now).inFlight == s.inFlight - 1
            case Idle(now, _, _, _, order) =>
              var p := s.(pastDeadline := s.pastDeadline || now >= deadline);
              forall k: nat :: k <= |Select(p, order, true)| ==>
                GiveUp(p, Select(p, order, true)[..k]).inFlight == s.inFlight - k
            case Disconnect => true
  {
    RunGood(ss, es, deadline, i);
    assert StepAt(ss, es, deadline, i);
    var s := ss[i];
    match es[i] {
      case Arrival(seqNo, now, stamp, window) =>
        hide Partition;
        assert |s.table.Keys| >= 1 || s.table == map[];
      case Idle(now, stamp, rto, window, order) =>
        hide Books, Select, GiveUp;
        var p := s.(pastDeadline := s.pastDeadline || now >= deadline);
        Flagged(s, p.pastDeadline, s.ended, s.clock);
        forall k: nat | k <= |Select(p, order, true)|
          ensures GiveUp(p, Select(p, order, true)[..k]).inFlight == s.inFlight - k
        {
          SpentDecrements(p, order, k);
        }
      case Disconnect =>
    }
  }

  /** New sequence numbers go out only before the deadline, and leave `in_flight` at the window's floor. */
  lemma WindowRespected(ss: seq<Session>, es: seq<Event>, deadline: nat, i: nat)
    requires Run(ss, es, deadline) && i < |es| && ss[i + 1].nextSeq > ss[i].nextSeq
    ensures !es[i].Disconnect? && !ss[i].pastDeadline && es[i].now < deadline
    ensures ss[i + 1].inFlight == Allowed(es[i].window)
  {
    assert StepAt(ss, es, deadline, i);
    var s := ss[i];
    match es[i] {
      case Arrival(seqNo, now, stamp, window) =>
        var a := TakeAnswer(s, seqNo, now);
        FillWindowExact(a, Allowed(window), stamp);
        FillWindowExact(FillWindow(a, Allowed(window), stamp), Allowed(window), stamp);
        hide FillWindow;
      case Idle(now, stamp, rto, window, order) =>
        var p := s.(pastDeadline := s.pastDeadline || now >= deadline);
        RetryFrame(p, order, |order|, stamp);
        FillWindowExact(Retry(p, order, |order|, stamp), Allowed(window), stamp);
        hide Retry, FillWindow;
      case Disconnect =>
    }
  }

  /** How much retrying an entry can still cause, in idle waits: `span` bounds the retransmission
      timeout, and each retry costs at most the waits until the entry is stale again. */
  function Waits(p: Probe, clock: nat, span: nat): int {
    var patience := span / DRAIN + 1;
    var waited := if clock < p.t0 then 0 else (clock - p.t0) / DRAIN;
    (MAX_RETRIES - p.retries) * (patience + 1) + (if waited < patience then patience - waited else 0) + 1
  }

  function MaxWaits(span: nat): nat {
    4 * (span / DRAIN + 2)
  }

  lemma WaitsBounds(p: Probe, clock: nat, span: nat)
    requires p.retries <= MAX_RETRIES
    ensures 1 <= Waits(p, clock, span) <= MaxWaits(span)
  {
  }

  lemma WaitsShrink(p: Probe, clock: nat, later: nat, span: nat)
    requires clock <= later
    ensures Waits(p, later, span) <= Waits(p, clock, span)
  {
    DivMonotone(clock - p.t0, later - p.t0);
  }

  lemma DivMonotone(a: int, b: int)
    requires a <= b
    ensures a / DRAIN <= b / DRAIN
  {
  }

  /** An idle wait brings every entry closer to its end: one that is not stale has waited longer,
      one that is re-sent has used up a retry. */
  lemma WaitShortens(p: Probe, r: Probe, clock: nat, now: nat, stamp: nat, rto: nat, span: nat)
    requires p.t0 <= clock && clock + DRAIN <= now <= stamp && rto <= span && p.retries <= MAX_RETRIES
    requires if now >= p.t0 + rto then p.retries < MAX_RETRIES && r == Probe(stamp, p.retries + 1) else r == p
    ensures Waits(r, stamp, span) < Waits(p, clock, span)
  {
    if now >= p.t0 + rto {
      var patience := span / DRAIN + 1;
      assert (MAX_RETRIES - r.retries) * (patience + 1) + (patience + 1) == (MAX_RETRIES - p.retries) * (patience + 1);
    } else {
      DivMonotone(clock - p.t0 + DRAIN, stamp - p.t0);
      DivMonotone(now - p.t0, span);
      DivMonotone(clock - p.t0 + DRAIN, now - p.t0);
      assert (clock - p.t0 + DRAIN) / DRAIN == (clock - p.t0) / DRAIN + 1;
    }
  }

  predicate LateIdle(e: Event, deadline: nat) {
    e.Idle? && e.now >= deadline
  }

  /** Idle waits that timed out at or after the deadline. */
  function LateIdles(es: seq<Event>, deadline: nat): nat {
    if es == [] then 0
    else LateIdles(es[..|es| - 1], deadline) + if LateIdle(es[|es| - 1], deadline) then 1 else 0
  }

  ghost predicate TimeoutsBelow(es: seq<Event>, span: nat) {
    forall i :: 0 <= i < |es| && es[i].Idle? ==> es[i].rto <= span
  }

  /** After `n` late idle waits every outstanding entry has at most the remaining waits left; the
      first of them was still a short one and may not have helped. */
  ghost predicate Budget(s: Session, n: nat, span: nat) {
    && (n >= 1 ==> s.pastDeadline)
    && (forall q :: q in s.table ==> n + Waits(s.table[q], s.clock, span) <= MaxWaits(span) + 1)
    && (!s.ended ==> n <= MaxWaits(span) + 1)
    && n <= MaxWaits(span) + 2
  }

  lemma BookedRetries(s: Session, q: nat)
    requires Books(s) && q in s.table
    ensures s.table[q].retries <= MAX_RETRIES
  {
  }

  /** Before the deadline no wait is counted, and any table is within budget. */
  lemma FreshBudget(s: Session, span: nat)
    requires Good(s)
    ensures Budget(s, 0, span)
  {
    forall q | q in s.table
      ensures Waits(s.table[q], s.clock, span) <= MaxWaits(span)
    {
      BookedRetries(s, q);
      WaitsBounds(s.table[q], s.clock, span);
    }
  }

  lemma ArrivalBudget(s: Session, e: Event, deadline: nat, n: nat, span: nat)
    requires Good(s) && Enabled(s, e) && e.Arrival? && Budget(s, n, span)
    ensures Budget(Next(s, e, deadline), n, span)
  {
    var t := Next(s, e, deadline);
    ArrivalGood(s, e.seqNo, e.now, e.stamp, e.window, deadline);
    if n == 0 {
      FreshBudget(t, span);
    } else {
      hide Books, Waits, FillWindow;
      assert t.pastDeadline;
      forall q | q in t.table
        ensures n + Waits(t.table[q], t.clock, span) <= MaxWaits(span) + 1
      {
        assert q in s.table && t.table[q] == s.table[q];
        WaitsShrink(s.table[q], s.clock, t.clock, span);
      }
    }
  }

  /** The effect of an idle wait past the deadline on one entry. */
  lemma LateRetryEntry(s: Session, e: Event, deadline: nat, q: nat)
    requires Good(s) && Enabled(s, e) && e.Idle? && (s.pastDeadline || e.now >= deadline)
    requires s.table != map[] && q in Next(s, e, deadline).table
    ensures q in s.table
    ensures var p, r := s.table[q], Next(s, e, deadline).table[q];
            if e.now >= p.t0 + e.rto then p.retries < MAX_RETRIES && r == Probe(e.stamp, p.retries + 1) else r == p
  {
    var p := s.(pastDeadline := true);
    FlagsKeepBooks(s, true, s.ended, s.clock);
    assert p == s.(pastDeadline := true, ended := s.ended, clock := s.clock);
    RetryEffect(p, e.order, |e.order|, e.stamp);
    RetryFrame(p, e.order, |e.order|, e.stamp);
    hide Books, Retry;
  }

  /** The first late idle wait: whatever is outstanding is within the full allowance. */
  lemma FirstLateIdleBudget(s: Session, e: Event, deadline: nat, span: nat)
    requires Good(s) && Enabled(s, e) && LateIdle(e, deadline) && !s.pastDeadline && Budget(s, 0, span)
    ensures Budget(Next(s, e, deadline), 1, span)
  {
    var t := Next(s, e, deadline);
    IdlePast(s, e, deadline);
    IdleGood(s, e.now, e.stamp, e.rto, e.window, e.order, deadline);
    hide Waits, Next;
    forall q | q in t.table
      ensures Waits(t.table[q], t.clock, span) <= MaxWaits(span)
    {
      BookedRetries(t, q);
      WaitsBounds(t.table[q], t.clock, span);
    }
  }

  lemma LateIdleBudget(s: Session, e: Event, deadline: nat, n: nat, span: nat)
    requires Good(s) && Enabled(s, e) && e.Idle? && e.rto <= span && Budget(s, n, span)
    requires s.pastDeadline
    ensures Budget(Next(s, e, deadline), n + 1, span)
  {
    var t := Next(s, e, deadline);
    IdlePast(s, e, deadline);
    if s.table != map[] {
      forall q | q in t.table
        ensures n + 1 + Waits(t.table[q], t.clock, span) <= MaxWaits(span) + 1
      {
        LateEntryWaits(s, e, deadline, q, span);
      }
      hide Waits, Next, MaxWaits;
      var q :| q in s.table;
      BookedRetries(s, q);
      WaitsBounds(s.table[q], s.clock, span);
    }
  }

  lemma LateEntryWaits(s: Session, e: Event, deadline: nat, q: nat, span: nat)
    requires Good(s) && Enabled(s, e) && e.Idle? && e.rto <= span && s.pastDeadline
    requires s.table != map[] && q in Next(s, e, deadline).table
    ensures q in s.table
    ensures Waits(Next(s, e, deadline).table[q], Next(s, e, deadline).clock, span) < Waits(s.table[q], s.clock, span)
  {
    LateRetryEntry(s, e, deadline, q);
    IdlePast(s, e, deadline);
    BookedRetries(s, q);
    hide Waits, Next, Books;
    WaitShortens(s.table[q], Next(s, e, deadline).table[q], s.clock, e.now, e.stamp, e.rto, span);
  }

  lemma WeakerBudget(s: Session, n: nat, span: nat)
    requires Budget(s, n + 1, span)
    ensures Budget(s, n, span)
  {
  }

  lemma IdleBudget(s: Session, e: Event, deadline: nat, n: nat, span: nat)
    requires Good(s) && Enabled(s, e) && e.Idle? && e.rto <= span && Budget(s, n, span)
    ensures Budget(Next(s, e, deadline), if LateIdle(e, deadline) then n + 1 else n, span)
  {
    if !s.pastDeadline && e.now >= deadline {
      FirstLateIdleBudget(s, e, deadline, span);
    } else if s.pastDeadline {
      LateIdleBudget(s, e, deadline, n, span);
      if !LateIdle(e, deadline) {
        WeakerBudget(Next(s, e, deadline), n, span);
      }
    } else {
      IdleGood(s, e.now, e.stamp, e.rto, e.window, e.order, deadline);
      hide Good, OnIdle;
      FreshBudget(Next(s, e, deadline), span);
    }
  }

  lemma {:induction false} RunBudget(ss: seq<Session>, es: seq<Event>, deadline: nat, span: nat, i: nat)
    requires Run(ss, es, deadline) && TimeoutsBelow(es, span) && i < |ss|
    ensures Budget(ss[i], LateIdles(es[..i], deadline), span)
  {
    if i == 0 {
      FreshBudget(ss[0], span);
    } else {
      hide Good, Next, Budget, Enabled;
      RunBudget(ss, es, deadline, span, i - 1);
      RunGood(ss, es, deadline, i - 1);
      assert StepAt(ss, es, deadline, i - 1);
      assert es[..i][..i - 1] == es[..i - 1];
      hide Run;
      StepBudget(ss[i - 1], es[i - 1], deadline, LateIdles(es[..i - 1], deadline), span);
    }
  }

  lemma StepBudget(s: Session, e: Event, deadline: nat, n: nat, span: nat)
    requires Good(s) && Enabled(s, e) && Budget(s, n, span) && (e.Idle? ==> e.rto <= span)
    ensures Budget(Next(s, e, deadline), n + (if LateIdle(e, deadline) then 1 else 0), span)
  {
    hide Good, Next, Budget, Enabled;
    match e {
      case Arrival(_, _, _, _) => ArrivalBudget(s, e, deadline, n, span);
      case Idle(_, _, _, _, _) => IdleBudget(s, e, deadline, n, span);
      case Disconnect => DisconnectBudget(s, deadline, n, span);
    }
  }

  lemma DisconnectBudget(s: Session, deadline: nat, n: nat, span: nat)
    requires Budget(s, n, span)
    ensures Budget(Next(s, Disconnect, deadline), n, span)
  {
  }

  /** Whatever arrives, the consumer times out at or after the deadline a bounded number of times:
      four tries of each sequence number, each given at most the waits its timeout needs. */
  lemma StopsAfterDeadline(ss: seq<Session>, es: seq<Event>, deadline: nat, span: nat)
    requires Run(ss, es, deadline) && TimeoutsBelow(es, span)
    ensures LateIdles(es, deadline) <= 4 * (span / DRAIN + 2) + 2
  {
    RunBudget(ss, es, deadline, span, |es|);
    assert es[..|es|] == es;
  }

  /** The consumer ends only on a closed connection or past the deadline with nothing outstanding. */
  lemma EndsEmptyHanded(s: Session, e: Event, deadline: nat)
    requires Enabled(s, e) && Next(s, e, deadline).ended && !e.Disconnect?
    ensures Next(s, e, deadline).pastDeadline && Next(s, e, deadline).table == map[]
  {
    match e {
      case Arrival(seqNo, now, stamp, window) =>
        var a := TakeAnswer(s, seqNo, now);
        FillWindowExact(a, Allowed(window), stamp);
        FillWindowExact(FillWindow(a, Allowed(window), stamp), Allowed(window), stamp);
        hide FillWindow;
      case Idle(now, stamp, rto, window, order) =>
        var p := s.(pastDeadline := s.pastDeadline || now >= deadline);
        RetryFrame(p, order, |order|, stamp);
        FillWindowExact(Retry(p, order, |order|, stamp), Allowed(window), stamp);
        hide FillWindow, Retry;
    }
  }

  lemma IdlePast(s: Session, e: Event, deadline: nat)
    requires Enabled(s, e) && e.Idle? && (s.pastDeadline || e.now >= deadline)
    ensures Next(s, e, deadline).pastDeadline && Next(s, e, deadline).clock == e.stamp
    ensures s.table == map[] ==> Next(s, e, deadline).ended && Next(s, e, deadline).table == map[]
    ensures s.table != map[] ==> !Next(s, e, deadline).ended
  {
    RetryFrame(s.(pastDeadline := true), e.order, |e.order|, e.stamp);
    hide Retry;
  }
}
