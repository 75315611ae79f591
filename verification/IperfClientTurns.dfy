/** What each turn of `run_client` does, over whole runs: RTT samples, windows, retries, the deadline. */
module IperfClientTurns {
  import opened Prelude
  import opened Iperf
  import opened IperfClient

  lemma ArrivalTimes(s: Session, seqNo: Option<nat>, now: nat, stamp: nat, window: real, deadline: nat)
    requires Good(s) && Good(OnArrival(s, seqNo, now, stamp, window, deadline))
    ensures TimesMove(s, OnArrival(s, seqNo, now, stamp, window, deadline), stamp)
  {
    var a := TakeAnswer(s, seqNo, now);
    var t := OnArrival(s, seqNo, now, stamp, window, deadline);
    assert forall q :: q in a.table ==> q in s.table && a.table[q] == s.table[q];
    ArrivalShape(s, seqNo, now, stamp, window, deadline);
    InTableBelow(s);
    hide FillWindow, Partition, Counts, TimesMove, OnArrival, Allowed, TakeAnswer;
    FillEntries(a, Allowed(window), stamp);
    TimesMoved(s, t, stamp);
  }

  /** An arrival turn leaves what taking the answer left, or fills that up. */
  lemma ArrivalShape(s: Session, seqNo: Option<nat>, now: nat, stamp: nat, window: real, deadline: nat)
    ensures var a, t := TakeAnswer(s, seqNo, now), OnArrival(s, seqNo, now, stamp, window, deadline);
            var f := FillWindow(a, Allowed(window), stamp);
            && ((t.table == a.table && t.nextSeq == a.nextSeq) || (t.table == f.table && t.nextSeq == f.nextSeq))
            && t.rtts == a.rtts
  {
    FillWindowExact(TakeAnswer(s, seqNo, now), Allowed(window), stamp);
    hide FillWindow, Allowed, TakeAnswer;
  }

  lemma IdleTimes(s: Session, now: nat, stamp: nat, rto: nat, window: real, order: seq<nat>, deadline: nat)
    requires Good(s) && Good(OnIdle(s, now, stamp, window, order, deadline))
    requires !s.pastDeadline && now < deadline ==> Enumerates(order, StaleSeqs(s, rto, now))
    ensures TimesMove(s, OnIdle(s, now, stamp, window, order, deadline), stamp)
  {
    var t := OnIdle(s, now, stamp, window, order, deadline);
    if !s.pastDeadline && now < deadline {
      RetryEffect(s, order, RetryLimit(window), stamp);
      RetryFrame(s, order, RetryLimit(window), stamp);
    }
    hide Retry, Partition, Counts, TimesMove, Enumerates;
    TimesMoved(s, t, stamp);
  }

  lemma StepTimes(s: Session, e: Event, deadline: nat)
    requires Good(s) && Enabled(s, e, deadline) && Good(Next(s, e, deadline))
    ensures TimesMove(s, Next(s, e, deadline), StampOf(e))
  {
    hide Good, OnArrival, OnIdle;
    match e {
      case Arrival(seqNo, now, stamp, window) => ArrivalTimes(s, seqNo, now, stamp, window, deadline);
      case Idle(now, stamp, rto, window, order) => IdleTimes(s, now, stamp, rto, window, order, deadline);
      case Disconnect =>
    }
  }

  lemma StartTimes(ss: seq<Session>, es: seq<Event>, deadline: nat)
    requires Run(ss, es, deadline)
    ensures SentAsStamped(ss, es, 0)
  {
    var initialWindow: nat, window: real, now: nat, stamp: nat :|
      now <= stamp && ss[0] == Start(initialWindow, window, now, stamp);
    FillWindowExact(Fresh(now), if initialWindow < Allowed(window) then initialWindow else Allowed(window), stamp);
    hide FillWindow;
  }

  /** Every outstanding entry carries the stamp of the turn in which its number was last sent. */
  lemma {:induction false} StampsAreSendTimes(ss: seq<Session>, es: seq<Event>, deadline: nat, i: nat)
    requires Run(ss, es, deadline) && i < |ss|
    ensures SentAsStamped(ss, es, i)
  {
    if i == 0 {
      StartTimes(ss, es, deadline);
    } else {
      hide Good, Next, Enabled, SentAsStamped;
      StampsAreSendTimes(ss, es, deadline, i - 1);
      RunGood(ss, es, deadline, i - 1);
      RunGood(ss, es, deadline, i);
      assert StepAt(ss, es, deadline, i - 1);
      StepTimes(ss[i - 1], es[i - 1], deadline);
      StampsKept(ss, es, i);
    }
  }

  /** In every run an arrival that matches adds one RTT sample, the time since that number was last sent
      - counted from a reading that is never later - and nothing else touches the samples. */
  lemma SamplesAreRoundTrips(ss: seq<Session>, es: seq<Event>, deadline: nat, i: nat)
    requires Run(ss, es, deadline) && i < |es|
    ensures var s, t := ss[i], ss[i + 1];
            if es[i].Arrival? && es[i].seqNo.Some? && es[i].seqNo.value in s.table then
              var sent := LastSent(ss, es, i, es[i].seqNo.value);
              sent <= es[i].now && t.rtts == s.rtts + [es[i].now - sent]
            else t.rtts == s.rtts
  {
    RunGood(ss, es, deadline, i);
    StampsAreSendTimes(ss, es, deadline, i);
    assert StepAt(ss, es, deadline, i);
    var s := ss[i];
    hide LastSent, Books, Run;
    match es[i] {
      case Arrival(seqNo, now, stamp, window) =>
        ArrivalShape(s, seqNo, now, stamp, window, deadline);
        hide OnArrival;
      case Idle(now, stamp, rto, window, order) =>
        RetryFrame(s, order, RetryLimit(window), stamp);
        hide Retry;
      case Disconnect =>
    }
  }

  /** The burst sends the smaller of the initial window and the window's floor. */
  lemma BurstFills(initialWindow: nat, window: real, now: nat, stamp: nat)
    ensures var s := Start(initialWindow, window, now, stamp);
            && s.inFlight == s.nextSeq == Least(initialWindow, Allowed(window))
            && (forall q: nat :: q in s.table <==> q < s.nextSeq)
            && (forall q :: q in s.table ==> s.table[q] == Probe(stamp, 0))
  {
    FillWindowExact(Fresh(now), Least(initialWindow, Allowed(window)), stamp);
    hide FillWindow;
  }

  /** After every arrival before the deadline the window is full: what was left in flight is topped up to
      the window's floor. */
  lemma WindowFilled(ss: seq<Session>, es: seq<Event>, deadline: nat, i: nat)
    requires Run(ss, es, deadline) && i < |es|
    requires es[i].Arrival? && !ss[i].pastDeadline && es[i].now < deadline
    ensures var left := ss[i].inFlight - if Unmatched(ss[i], es[i]) then 0 else 1;
            ss[i + 1].inFlight == if left < Allowed(es[i].window) then Allowed(es[i].window) else left
  {
    RunGood(ss, es, deadline, i);
    assert StepAt(ss, es, deadline, i);
    DecrementsAreExact(ss, es, deadline, i);
    var e := es[i];
    FillWindowExact(TakeAnswer(ss[i], e.seqNo, e.now), Allowed(e.window), e.stamp);
    hide FillWindow, Books, Run;
  }

  /** An idle wait before the deadline is a retry round, limited to half the window but at least two. */
  lemma IdleRetries(ss: seq<Session>, es: seq<Event>, deadline: nat, i: nat)
    requires Run(ss, es, deadline) && i < |es| && Retries(ss[i], es[i], deadline)
    ensures var limit, window := RetryLimit(es[i].window), es[i].window;
            && limit >= 2 && (window >= 4.0 ==> limit as real <= window / 2.0 < (limit + 1) as real)
            && (window < 4.0 ==> limit == 2)
    ensures exists again: set<nat> :: RoundAt(ss, es, i, again)
  {
    RunGood(ss, es, deadline, i);
    assert StepAt(ss, es, deadline, i);
    var s, e := ss[i], es[i];
    hide Books, Run;
    LimitIsHalf(e.window);
    var limit := RetryLimit(e.window);
    RetryIsRound(s, e.order, limit, e.rto, e.now, e.stamp);
    var again, r := Elems(Kept(s, e.order, limit)), Retry(s, e.order, limit, e.stamp);
    hide RetryLimit, Retry, Kept;
    RoundClock(s, r, ss[i + 1], again, limit, e.rto, e.now, e.stamp);
    assert RoundAt(ss, es, i, again);
  }

  /** The retry round of an idle event, with the entries it re-sends. */
  ghost predicate RoundAt(ss: seq<Session>, es: seq<Event>, i: nat, again: set<nat>)
    requires i < |es| && |ss| == |es| + 1 && es[i].Idle?
  {
    var e := es[i];
    RetryRound(ss[i], ss[i + 1], again, RetryLimit(e.window), e.rto, e.now, e.stamp)
  }

  lemma LimitIsHalf(window: real)
    ensures RetryLimit(window) >= 2 && (window < 4.0 ==> RetryLimit(window) == 2)
    ensures window >= 4.0 ==> RetryLimit(window) as real <= window / 2.0 < (RetryLimit(window) + 1) as real
  {
  }

  lemma RoundClock(s: Session, r: Session, t: Session, again: set<nat>, limit: nat, rto: nat, now: nat, stamp: nat)
    requires RetryRound(s, r, again, limit, rto, now, stamp) && t == r.(clock := stamp)
    ensures RetryRound(s, t, again, limit, rto, now, stamp)
  {
    hide Live, Spent, RoundTable;
  }

  /** The deadline is noticed by the first event at or after it, and not before. */
  lemma DeadlineExactly(ss: seq<Session>, es: seq<Event>, deadline: nat, i: nat)
    requires Run(ss, es, deadline) && i < |es| && !es[i].Disconnect?
    ensures ss[i + 1].pastDeadline <==> ss[i].pastDeadline || es[i].now >= deadline
  {
    assert StepAt(ss, es, deadline, i);
    var s := ss[i];
    match es[i] {
      case Arrival(seqNo, now, stamp, window) =>
        FillWindowExact(TakeAnswer(s, seqNo, now), Allowed(window), stamp);
        hide FillWindow;
      case Idle(now, stamp, rto, window, order) =>
        RetryFrame(s, order, RetryLimit(window), stamp);
        hide Retry;
    }
  }

  /** The loop ends on a closed connection, and past the deadline as soon as nothing is outstanding
      - except that the idle wait which notices the deadline is followed by another wait. */
  lemma EndsExactly(ss: seq<Session>, es: seq<Event>, deadline: nat, i: nat)
    requires Run(ss, es, deadline) && i < |es|
    ensures var s, t, e := ss[i], ss[i + 1], es[i];
            t.ended <==> e.Disconnect? || (t.pastDeadline && t.table == map[] && (e.Arrival? || s.pastDeadline))
  {
    assert StepAt(ss, es, deadline, i);
    var s := ss[i];
    match es[i] {
      case Arrival(seqNo, now, stamp, window) => hide FillWindow;
      case Idle(now, stamp, rto, window, order) =>
        RetryFrame(s, order, RetryLimit(window), stamp);
        hide Retry;
      case Disconnect =>
    }
  }

  lemma StepFour(s: Session, e: Event, deadline: nat)
    requires Good(s) && FourTries(s) && Enabled(s, e, deadline)
    ensures FourTries(Next(s, e, deadline))
  {
    hide Books;
    match e {
      case Arrival(seqNo, now, stamp, window) =>
        TakeAnswerBooks(s, seqNo, now);
        FilledFour(TakeAnswer(s, seqNo, now), Allowed(window), stamp);
        hide FillWindow;
      case Idle(now, stamp, rto, window, order) =>
        if Retries(s, e, deadline) {
          assert NoRepeats(order) && Elems(order) <= s.table.Keys;
          RetriedFour(s, order, RetryLimit(window), stamp);
        }
        hide Retry;
      case Disconnect =>
    }
  }

  /** A number is given up only after four tries. */
  lemma {:induction false} GivenUpAfterFour(ss: seq<Session>, es: seq<Event>, deadline: nat, i: nat)
    requires Run(ss, es, deadline) && i < |ss|
    ensures forall q :: q in ss[i].gaveUp ==> SendsOf(ss[i], q) == 4
  {
    assert FourTries(ss[i]) by {
      if i == 0 {
        var initialWindow: nat, window: real, now: nat, stamp: nat :|
          now <= stamp && ss[0] == Start(initialWindow, window, now, stamp);
        FillSends(Fresh(now), Least(initialWindow, Allowed(window)), stamp);
        hide FillWindow;
      } else {
        hide Good, Next, Enabled;
        GivenUpAfterFour(ss, es, deadline, i - 1);
        RunGood(ss, es, deadline, i - 1);
        assert StepAt(ss, es, deadline, i - 1);
        StepFour(ss[i - 1], es[i - 1], deadline);
      }
    }
  }
}
