/** What each turn of `run_reverse_consumer` does, over whole runs. */
module IperfReverseTurns {
  import opened Prelude
  import opened Iperf
  import opened IperfReverse

  lemma ArrivalTimes(s: Session, seqNo: Option<nat>, now: nat, stamp: nat, window: real, deadline: nat)
    requires Good(s) && Good(OnArrival(s, seqNo, now, stamp, window, deadline))
    ensures TimesMove(s, OnArrival(s, seqNo, now, stamp, window, deadline), stamp)
  {
    var a, t := TakeAnswer(s, seqNo, now), OnArrival(s, seqNo, now, stamp, window, deadline);
    assert forall q :: q in a.table ==> q in s.table && a.table[q] == s.table[q];
    ArrivalShape(s, seqNo, now, stamp, window, deadline);
    InTableBelow(s);
    hide FillWindow, Partition, Counts, TimesMove, OnArrival, Allowed, TakeAnswer;
    FillEntries(a, Allowed(window), stamp);
    TimesMoved(s, t, stamp);
  }

  /** An arrival turn leaves what taking the answer left, or fills that up once. */
  lemma ArrivalShape(s: Session, seqNo: Option<nat>, now: nat, stamp: nat, window: real, deadline: nat)
    ensures var a, t := TakeAnswer(s, seqNo, now), OnArrival(s, seqNo, now, stamp, window, deadline);
            var f := FillWindow(a, Allowed(window), stamp);
            && ((t.table == a.table && t.nextSeq == a.nextSeq && t.sends == a.sends) ||
                (t.table == f.table && t.nextSeq == f.nextSeq && t.sends == f.sends))
            && t.rtts == a.rtts && t.gaveUp == a.gaveUp == f.gaveUp
  {
    var a := TakeAnswer(s, seqNo, now);
    FillAgain(a, Allowed(window), stamp);
    FillWindowExact(a, Allowed(window), stamp);
    hide FillWindow, Allowed, TakeAnswer;
  }

  lemma IdleTimes(s: Session, now: nat, stamp: nat, rto: nat, window: real, order: seq<nat>, deadline: nat)
    requires Good(s) && Good(OnIdle(s, now, stamp, window, order, deadline))
    requires Enumerates(order, StaleSeqs(s, rto, now))
    ensures TimesMove(s, OnIdle(s, now, stamp, window, order, deadline), stamp)
  {
    var p := s.(pastDeadline := s.pastDeadline || now >= deadline);
    var r := Retry(p, order, |order|, stamp);
    Flagged(s, p.pastDeadline, s.ended, s.clock);
    assert NoRepeats(order) && Elems(order) <= p.table.Keys;
    RetryEffect(p, order, |order|, stamp);
    RetryFrame(p, order, |order|, stamp);
    InTableBelow(s);
    FillEntries(r, Allowed(window), stamp);
    hide Retry, Partition, Counts, TimesMove, Enumerates, FillWindow, Elems, NoRepeats, Allowed;
    TimesMoved(s, OnIdle(s, now, stamp, window, order, deadline), stamp);
  }

  lemma StepTimes(s: Session, e: Event, deadline: nat)
    requires Good(s) && Enabled(s, e) && Good(Next(s, e, deadline))
    ensures TimesMove(s, Next(s, e, deadline), StampOf(e))
  {
    hide Good, OnArrival, OnIdle;
    match e {
      case Arrival(seqNo, now, stamp, window) => ArrivalTimes(s, seqNo, now, stamp, window, deadline);
      case Idle(now, stamp, rto, window, order) => IdleTimes(s, now, stamp, rto, window, order, deadline);
      case Disconnect =>
    }
  }

  /** Every outstanding entry carries the stamp of the turn in which its number was last sent. */
  lemma {:induction false} StampsAreSendTimes(ss: seq<Session>, es: seq<Event>, deadline: nat, i: nat)
    requires Run(ss, es, deadline) && i < |ss|
    ensures SentAsStamped(ss, es, i)
  {
    if i > 0 {
      hide Good, Next, Enabled, SentAsStamped;
      StampsAreSendTimes(ss, es, deadline, i - 1);
      RunGood(ss, es, deadline, i - 1);
      RunGood(ss, es, deadline, i);
      assert StepAt(ss, es, deadline, i - 1);
      StepTimes(ss[i - 1], es[i - 1], deadline);
      StampsKept(ss, es, i);
    }
  }

  /** In every run an arrival that matches adds one RTT sample, the time since that number was last sent
      - counted from a reading that is never later - and nothing else touches the samples. */
  lemma SamplesAreRoundTrips(ss: seq<Session>, es: seq<Event>, deadline: nat, i: nat)
    requires Run(ss, es, deadline) && i < |es|
    ensures var s, t := ss[i], ss[i + 1];
            if es[i].Arrival? && es[i].seqNo.Some? && es[i].seqNo.value in s.table then
              var sent := LastSent(ss, es, i, es[i].seqNo.value);
              sent <= es[i].now && t.rtts == s.rtts + [es[i].now - sent]
            else t.rtts == s.rtts
  {
    RunGood(ss, es, deadline, i);
    StampsAreSendTimes(ss, es, deadline, i);
    assert StepAt(ss, es, deadline, i);
    var s := ss[i];
    hide LastSent, Books, Run;
    match es[i] {
      case Arrival(seqNo, now, stamp, window) =>
        ArrivalShape(s, seqNo, now, stamp, window, deadline);
        hide OnArrival;
      case Idle(now, stamp, rto, window, order) =>
        IdleKeepsSamples(s, now, stamp, window, order, deadline);
        hide OnIdle;
      case Disconnect =>
    }
  }

  lemma IdleKeepsSamples(s: Session, now: nat, stamp: nat, window: real, order: seq<nat>, deadline: nat)
    ensures OnIdle(s, now, stamp, window, order, deadline).rtts == s.rtts
  {
    var p := s.(pastDeadline := s.pastDeadline || now >= deadline);
    RetryFrame(p, order, |order|, stamp);
    FillWindowExact(Retry(p, order, |order|, stamp), Allowed(window), stamp);
    hide Retry, FillWindow;
  }

  /** After every event that leaves time before the deadline the window is full - after an arrival as soon
      as its own reading is before the deadline. */
  lemma WindowFilled(ss: seq<Session>, es: seq<Event>, deadline: nat, i: nat)
    requires Run(ss, es, deadline) && i < |es| && !es[i].Disconnect? && !ss[i].pastDeadline
    requires es[i].stamp < deadline || (es[i].Arrival? && es[i].now < deadline)
    ensures ss[i + 1].inFlight >= Allowed(es[i].window)
  {
    assert StepAt(ss, es, deadline, i);
    var s := ss[i];
    match es[i] {
      case Arrival(seqNo, now, stamp, window) =>
        var a := TakeAnswer(s, seqNo, now);
        FillWindowExact(a, Allowed(window), stamp);
        FillWindowExact(FillWindow(a, Allowed(window), stamp), Allowed(window), stamp);
        hide FillWindow;
      case Idle(now, stamp, rto, window, order) =>
        RetryFrame(s, order, |order|, stamp);
        FillWindowExact(Retry(s, order, |order|, stamp), Allowed(window), stamp);
        hide Retry, FillWindow;
    }
  }

  /** The first wait sends the whole window: there is no burst before it. */
  lemma FirstWaitSends(ss: seq<Session>, es: seq<Event>, deadline: nat)
    requires Run(ss, es, deadline) && |es| >= 1 && es[0].Idle? && es[0].stamp < deadline
    ensures ss[0].nextSeq == 0 && ss[1].nextSeq == ss[1].inFlight == Allowed(es[0].window)
    ensures forall q :: q in ss[1].table ==> ss[1].table[q] == Probe(es[0].stamp, 0)
  {
    assert StepAt(ss, es, deadline, 0);
    var s, e := ss[0], es[0];
    assert e.order == [] by {
      assert StaleSeqs(s, e.rto, e.now) == {};
      EnumerationLength(e.order, {});
    }
    assert Retry(s, [], 0, e.stamp) == s;
    FillWindowExact(s, Allowed(e.window), e.stamp);
    hide FillWindow, Retry;
  }

  /** An idle wait of a loop that has not ended re-sends all stale entries with retries left and gives up
      the others; what it may send besides is new. */
  lemma IdleRetries(ss: seq<Session>, es: seq<Event>, deadline: nat, i: nat)
    requires Run(ss, es, deadline) && i < |es| && es[i].Idle? && !ss[i + 1].ended
    ensures var s, t, e := ss[i], ss[i + 1], es[i];
            && (forall q: nat :: q in s.table <==> q in Spent(s, e.rto, e.now) || (q < s.nextSeq && q in t.table))
            && (forall q: nat :: q in t.table && q < s.nextSeq ==>
                  t.table[q] == if q in Live(s, e.rto, e.now) then Probe(e.stamp, s.table[q].retries + 1)
                                else s.table[q])
            && t.retx == s.retx + |Live(s, e.rto, e.now)|
            && Spent(s, e.rto, e.now) !! t.table.Keys
  {
    RunGood(ss, es, deadline, i);
    assert StepAt(ss, es, deadline, i);
    hide Run;
    IdleEffect(ss[i], es[i], deadline);
  }

  lemma IdleEffect(s: Session, e: Event, deadline: nat)
    requires Good(s) && Enabled(s, e) && e.Idle? && !Next(s, e, deadline).ended
    ensures var t := Next(s, e, deadline);
            && (forall q: nat :: q in s.table <==> q in Spent(s, e.rto, e.now) || (q < s.nextSeq && q in t.table))
            && (forall q: nat :: q in t.table && q < s.nextSeq ==>
                  t.table[q] == if q in Live(s, e.rto, e.now) then Probe(e.stamp, s.table[q].retries + 1)
                                else s.table[q])
            && t.retx == s.retx + |Live(s, e.rto, e.now)|
            && Spent(s, e.rto, e.now) !! t.table.Keys
  {
    var p := s.(pastDeadline := s.pastDeadline || e.now >= deadline);
    var r := Retry(p, e.order, |e.order|, e.stamp);
    Flagged(s, p.pastDeadline, s.ended, s.clock);
    SameStale(s, p, e.rto, e.now);
    RetryIsRound(p, e.order, |e.order|, e.rto, e.now, e.stamp);
    AllLive(p, e.order, e.rto, e.now);
    RetryFrame(p, e.order, |e.order|, e.stamp);
    InTableBelow(s);
    SpentInTable(s, e.rto, e.now);
    IdleShape(s, e, deadline, r);
    hide Retry, FillWindow, Kept, Books, Live, Spent, StaleSeqs, Elems, Enumerates, Allowed, Next, Enabled, Good;
    FilledRound(p, r, Live(p, e.rto, e.now), |e.order|, e.rto, e.now, e.stamp, Allowed(e.window));
  }

  lemma IdleShape(s: Session, e: Event, deadline: nat, r: Session)
    requires e.Idle? && !Next(s, e, deadline).ended
    requires r == Retry(s.(pastDeadline := s.pastDeadline || e.now >= deadline), e.order, |e.order|, e.stamp)
    ensures var t, f := Next(s, e, deadline), FillWindow(r, Allowed(e.window), e.stamp);
            (t.table == r.table && t.retx == r.retx) || (t.table == f.table && t.retx == f.retx)
  {
    hide Retry, FillWindow, Allowed;
  }

  lemma SpentInTable(s: Session, rto: nat, now: nat)
    ensures Spent(s, rto, now) <= s.table.Keys && Live(s, rto, now) <= s.table.Keys
  {
  }

  lemma SameStale(s: Session, p: Session, rto: nat, now: nat)
    requires p.table == s.table
    ensures StaleSeqs(p, rto, now) == StaleSeqs(s, rto, now)
    ensures Live(p, rto, now) == Live(s, rto, now) && Spent(p, rto, now) == Spent(s, rto, now)
  {
  }

  lemma FilledRound(s: Session, r: Session, again: set<nat>, limit: nat, rto: nat, now: nat, stamp: nat, allowed: nat)
    requires RetryRound(s, r, again, limit, rto, now, stamp) && r.nextSeq == s.nextSeq
    requires Spent(s, rto, now) <= s.table.Keys && forall q :: q in s.table ==> q < s.nextSeq
    ensures var t := FillWindow(r, allowed, stamp);
            && (forall q: nat :: q in s.table <==> q in Spent(s, rto, now) || (q < s.nextSeq && q in t.table))
            && (forall q: nat :: q in t.table && q < s.nextSeq ==>
                  t.table[q] == if q in again then Probe(stamp, s.table[q].retries + 1) else s.table[q])
            && t.retx == s.retx + |again|
            && Spent(s, rto, now) !! t.table.Keys
    ensures (forall q: nat :: q in s.table <==> q in Spent(s, rto, now) || (q < s.nextSeq && q in r.table))
            && Spent(s, rto, now) !! r.table.Keys
            && r.retx == s.retx + |again|
    ensures forall q: nat :: q in r.table ==>
              r.table[q] == if q in again then Probe(stamp, s.table[q].retries + 1) else s.table[q]
  {
    hide Live, Spent, FillWindow;
    FillEntries(r, allowed, stamp);
    FillKeepsCount(r, allowed, stamp);
  }

  lemma {:induction false} FillKeepsCount(s: Session, allowed: nat, stamp: nat)
    ensures FillWindow(s, allowed, stamp).retx == s.retx
    decreases allowed - s.inFlight
  {
    if s.inFlight < allowed {
      FillKeepsCount(SendNew(s, stamp), allowed, stamp);
    }
  }

  lemma AllLive(s: Session, order: seq<nat>, rto: nat, now: nat)
    requires Enumerates(order, StaleSeqs(s, rto, now))
    ensures Elems(Kept(s, order, |order|)) == Live(s, rto, now)
    ensures |Live(s, rto, now)| == |Elems(Kept(s, order, |order|))|
  {
    SelectedAre(s, order, rto, now);
    KeptFacts(s, order, |order|);
    hide Kept, Select, Live;
  }

  /** The deadline is noticed by the first event at or after it, and not before. */
  lemma DeadlineExactly(ss: seq<Session>, es: seq<Event>, deadline: nat, i: nat)
    requires Run(ss, es, deadline) && i < |es| && !es[i].Disconnect?
    ensures ss[i + 1].pastDeadline <==> ss[i].pastDeadline || es[i].now >= deadline
  {
    assert StepAt(ss, es, deadline, i);
    var s := ss[i];
    match es[i] {
      case Arrival(seqNo, now, stamp, window) =>
        var a := TakeAnswer(s, seqNo, now);
        FillWindowExact(a, Allowed(window), stamp);
        FillWindowExact(FillWindow(a, Allowed(window), stamp), Allowed(window), stamp);
        hide FillWindow;
      case Idle(now, stamp, rto, window, order) =>
        var p := s.(pastDeadline := s.pastDeadline || now >= deadline);
        RetryFrame(p, order, |order|, stamp);
        FillWindowExact(Retry(p, order, |order|, stamp), Allowed(window), stamp);
        hide Retry, FillWindow;
    }
  }

  /** The loop ends on a closed connection, and past the deadline when nothing is outstanding: at once
      after an arrival, and for an idle wait if nothing was outstanding when it elapsed. */
  lemma EndsExactly(ss: seq<Session>, es: seq<Event>, deadline: nat, i: nat)
    requires Run(ss, es, deadline) && i < |es|
    ensures var s, t, e := ss[i], ss[i + 1], es[i];
            t.ended <==> e.Disconnect? || (t.pastDeadline && (if e.Arrival? then t else s).table == map[])
  {
    assert StepAt(ss, es, deadline, i);
    var s := ss[i];
    match es[i] {
      case Arrival(seqNo, now, stamp, window) =>
        var a := TakeAnswer(s, seqNo, now);
        FillWindowExact(a, Allowed(window), stamp);
        FillWindowExact(FillWindow(a, Allowed(window), stamp), Allowed(window), stamp);
        hide FillWindow;
      case Idle(now, stamp, rto, window, order) =>
        var p := s.(pastDeadline := s.pastDeadline || now >= deadline);
        RetryFrame(p, order, |order|, stamp);
        FillWindowExact(Retry(p, order, |order|, stamp), Allowed(window), stamp);
        hide Retry, FillWindow;
      case Disconnect =>
    }
  }

  lemma AnsweredFour(s: Session, seqNo: Option<nat>, now: nat)
    requires FourTries(s)
    ensures FourTries(TakeAnswer(s, seqNo, now))
  {
  }

  lemma ArrivalFour(s: Session, seqNo: Option<nat>, now: nat, stamp: nat, window: real, deadline: nat)
    requires Good(s) && FourTries(s)
    ensures FourTries(OnArrival(s, seqNo, now, stamp, window, deadline))
  {
    var a := TakeAnswer(s, seqNo, now);
    TakeAnswerBooks(s, seqNo, now);
    hide Books, OnArrival, FillWindow, Allowed, TakeAnswer;
    AnsweredFour(s, seqNo, now);
    ArrivalShape(s, seqNo, now, stamp, window, deadline);
    FilledFour(a, Allowed(window), stamp);
  }

  lemma IdleFour(s: Session, now: nat, stamp: nat, rto: nat, window: real, order: seq<nat>, deadline: nat)
    requires Good(s) && FourTries(s) && Enumerates(order, StaleSeqs(s, rto, now))
    ensures FourTries(OnIdle(s, now, stamp, window, order, deadline))
  {
    var p := s.(pastDeadline := s.pastDeadline || now >= deadline);
    var r := Retry(p, order, |order|, stamp);
    Flagged(s, p.pastDeadline, s.ended, s.clock);
    assert NoRepeats(order) && Elems(order) <= p.table.Keys && FourTries(p);
    IdleTries(s, now, stamp, window, order, deadline, p, r);
    hide Books, Elems, NoRepeats, Retry, FillWindow, Allowed, OnIdle, Enumerates, StaleSeqs;
    RetriedFour(p, order, |order|, stamp);
    RetryBooks(p, order, |order|, stamp);
    FilledFour(r, Allowed(window), stamp);
  }

  lemma IdleTries(s: Session, now: nat, stamp: nat, window: real, order: seq<nat>, deadline: nat, p: Session,
                  r: Session)
    requires p == s.(pastDeadline := s.pastDeadline || now >= deadline) && r == Retry(p, order, |order|, stamp)
    ensures var t, f := OnIdle(s, now, stamp, window, order, deadline), FillWindow(r, Allowed(window), stamp);
            || (t.sends == p.sends && t.gaveUp == p.gaveUp)
            || (t.sends == r.sends && t.gaveUp == r.gaveUp)
            || (t.sends == f.sends && t.gaveUp == f.gaveUp)
  {
    hide Retry, FillWindow, Allowed;
  }

  /** A number is given up only after four tries. */
  lemma {:induction false} GivenUpAfterFour(ss: seq<Session>, es: seq<Event>, deadline: nat, i: nat)
    requires Run(ss, es, deadline) && i < |ss|
    ensures forall q :: q in ss[i].gaveUp ==> SendsOf(ss[i], q) == 4
  {
    if i > 0 {
      hide Good, OnArrival, OnIdle;
      GivenUpAfterFour(ss, es, deadline, i - 1);
      RunGood(ss, es, deadline, i - 1);
      assert StepAt(ss, es, deadline, i - 1);
      var s := ss[i - 1];
      assert FourTries(s);
      assert FourTries(ss[i]) by {
        match es[i - 1] {
          case Arrival(seqNo, now, stamp, window) => ArrivalFour(s, seqNo, now, stamp, window, deadline);
          case Idle(now, stamp, rto, window, order) => IdleFour(s, now, stamp, rto, window, order, deadline);
          case Disconnect =>
        }
      }
    }
  }
}
