/** The mutable state of the two measurement loops and one turn of each, in place. */
module IperfLoop {
  import opened Prelude
  import opened Iperf
  import IperfClient
  import IperfReverse

  /** The event a turn used is the one that came in, up to the order the table chose. */
  predicate Same(came: Event, used: Event) {
    match came
    case Idle(now, stamp, rto, window, _) => used.Idle? && used == Idle(now, stamp, rto, window, used.order)
    case _ => used == came
  }

  ghost predicate ClientTurn(ss: seq<Session>, es: seq<Event>, inbox: seq<Event>, deadline: nat, i: nat)
    requires |ss| == |es| + 1 && i < |es| <= |inbox|
  {
    !ss[i].ended && Same(inbox[i], es[i]) && (IperfClient.Retries(ss[i], es[i], deadline) ==> OrderOk(ss[i], es[i])) &&
    ss[i + 1] == IperfClient.Next(ss[i], es[i], deadline)
  }

  ghost predicate ReverseTurn(ss: seq<Session>, es: seq<Event>, inbox: seq<Event>, deadline: nat, i: nat)
    requires |ss| == |es| + 1 && i < |es| <= |inbox|
  {
    !ss[i].ended && Same(inbox[i], es[i]) && OrderOk(ss[i], es[i]) &&
    ss[i + 1] == IperfReverse.Next(ss[i], es[i], deadline)
  }

  class Loop {
    var table: map<nat, Probe>
    var nextSeq: nat
    var inFlight: nat
    var received: nat
    var timedOut: nat
    var retx: nat
    var rtts: seq<nat>
    var pastDeadline: bool
    var ended: bool
    ghost var clock: nat
    ghost var answered: set<nat>
    ghost var gaveUp: set<nat>
    ghost var drained: set<nat>
    ghost var sends: map<nat, nat>

    ghost function View(): Session
      reads this
    {
      Session(table, nextSeq, inFlight, received, timedOut, retx, rtts, pastDeadline, ended, clock,
              answered, gaveUp, drained, sends)
    }

    constructor (ghost now: nat)
      ensures View() == Fresh(now)
    {
      table, nextSeq, inFlight, received, timedOut, retx, rtts := map[], 0, 0, 0, 0, 0, [];
      pastDeadline, ended := false, false;
      clock, answered, gaveUp, drained, sends := now, {}, {}, {}, map[];
    }

    method Fill(allowed: nat, stamp: nat)
      modifies this
      ensures View() == FillWindow(old(View()), allowed, stamp)
    {
      hide FillWindow;
      while inFlight < allowed
        invariant FillWindow(View(), allowed, stamp) == FillWindow(old(View()), allowed, stamp)
        decreases allowed - inFlight
      {
        FillStep(View(), allowed, stamp);
        ghost var s := View();
        sends := sends[nextSeq := 1];
        table := table[nextSeq := Probe(stamp, 0)];
        nextSeq := nextSeq + 1;
        inFlight := inFlight + 1;
        assert View() == SendNew(s, stamp);
      }
      FillStep(View(), allowed, stamp);
    }

    method Take(seqNo: Option<nat>, now: nat)
      modifies this
      ensures View() == TakeAnswer(old(View()), seqNo, now)
    {
      received := received + 1;
      if seqNo.Some? && seqNo.value in table {
        var q := seqNo.value;
        rtts := rtts + [SaturatingSub(now, table[q].t0)];
        table := table - {q};
        inFlight := SaturatingSub(inFlight, 1);
        answered := answered + {q};
      }
    }

    /** The stale entries, in whatever order the table yields them. */
    method CollectStale(rto: nat, now: nat) returns (order: seq<nat>)
      ensures Enumerates(order, StaleSeqs(View(), rto, now))
    {
      order := Listed(set q | q in table && now >= table[q].t0 + rto);
      assert (set q | q in table && now >= table[q].t0 + rto) == StaleSeqs(View(), rto, now);
    }

    /** Split the stale entries into those given up and those still worth re-sending. */
    method Split(order: seq<nat>) returns (spent: seq<nat>, live: seq<nat>)
      requires Elems(order) <= table.Keys
      ensures spent == Select(View(), order, true) && live == Select(View(), order, false)
    {
      spent, live := [], [];
      for k := 0 to |order|
        invariant spent == Select(View(), order[..k], true) && live == Select(View(), order[..k], false)
      {
        assert order[..k + 1][..k] == order[..k];
        ElemsIn(order, order[k]);
        if table[order[k]].retries >= MAX_RETRIES {
          spent := spent + [order[k]];
        } else {
          live := live + [order[k]];
        }
      }
      assert order[..|order|] == order;
    }

    method GiveUpAll(spent: seq<nat>)
      modifies this
      ensures View() == GiveUp(old(View()), spent)
    {
      hide GiveUp;
      GiveUpStep(View(), spent, 0);
      for k := 0 to |spent|
        invariant View() == GiveUp(old(View()), spent[..k])
      {
        GiveUpStep(old(View()), spent, k + 1);
        ghost var s := View();
        table := table - {spent[k]};
        inFlight := SaturatingSub(inFlight, 1);
        timedOut := timedOut + 1;
        gaveUp := gaveUp + {spent[k]};
        assert View() == GiveUpOne(s, spent[k]);
      }
      assert spent[..|spent|] == spent;
    }

    method ResendAll(live: seq<nat>, stamp: nat)
      modifies this
      ensures View() == Resend(old(View()), live, stamp)
    {
      hide Resend;
      ResendStep(View(), live, 0, stamp);
      for k := 0 to |live|
        invariant View() == Resend(old(View()), live[..k], stamp)
      {
        ResendStep(old(View()), live, k + 1, stamp);
        ghost var s := View();
        var q := live[k];
        var retries := if q in table then table[q].retries else 0;
        table := table[q := Probe(stamp, retries + 1)];
        retx := retx + 1;
        sends := sends[q := (if q in sends then sends[q] else 0) + 1];
        assert View() == ResendOne(s, q, stamp);
      }
      assert live[..|live|] == live;
    }

    method RetryStale(rto: nat, now: nat, stamp: nat, limit: Option<nat>) returns (order: seq<nat>)
      modifies this
      ensures Enumerates(order, StaleSeqs(old(View()), rto, now))
      ensures View() == Retry(old(View()), order, if limit.Some? then limit.value else |order|, stamp)
    {
      order := CollectStale(rto, now);
      assert StaleSeqs(View(), rto, now) <= table.Keys;
      var spent, live := Split(order);
      SelectLength(View(), order, false);
      GiveUpAll(spent);
      if limit.Some? && |live| > limit.value {
        live := live[..limit.value];
      }
      ResendAll(live, stamp);
    }

    /** One `Ok(Some(data))` turn of `run_client`. */
    method ClientArrival(seqNo: Option<nat>, now: nat, stamp: nat, window: real, deadline: nat)
      modifies this
      ensures View() == IperfClient.OnArrival(old(View()), seqNo, now, stamp, window, deadline)
    {
      Take(seqNo, now);
      if !pastDeadline {
        if now < deadline {
          Fill(Allowed(window), stamp);
        } else {
          pastDeadline := true;
        }
      }
      ended := pastDeadline && table == map[];
      clock := stamp;
    }

    /** One idle turn of `run_client`; `order` is the order in which the stale entries came. */
    method ClientIdle(now: nat, stamp: nat, rto: nat, window: real, deadline: nat) returns (order: seq<nat>)
      modifies this
      ensures !old(pastDeadline) && now < deadline ==> Enumerates(order, StaleSeqs(old(View()), rto, now))
      ensures View() == IperfClient.OnIdle(old(View()), now, stamp, window, order, deadline)
    {
      ghost var start := View();
      hide Retry, Enumerates;
      order := [];
      if pastDeadline {
        if table != map[] {
          var kept := map q | q in table && now < table[q].t0 + DRAIN :: table[q];
          drained := drained + StaleSeqs(View(), DRAIN, now);
          assert kept == table - StaleSeqs(start, DRAIN, now);
          table := kept;
        }
        ended := table == map[];
      } else if now >= deadline {
        pastDeadline := true;
      } else {
        order := RetryStale(rto, now, stamp, Some(IperfClient.RetryLimit(window)));
      }
      clock := stamp;
    }

    /** One `Ok(Some(data))` turn of `run_reverse_consumer`. */
    method ReverseArrival(seqNo: Option<nat>, now: nat, stamp: nat, window: real, deadline: nat)
      modifies this
      ensures View() == IperfReverse.OnArrival(old(View()), seqNo, now, stamp, window, deadline)
    {
      Take(seqNo, now);
      if !pastDeadline {
        if now < deadline {
          Fill(Allowed(window), stamp);
        } else {
          pastDeadline := true;
        }
      }
      if pastDeadline && table == map[] {
        ended := true;
      } else if !pastDeadline && stamp < deadline {
        Fill(Allowed(window), stamp);
      }
      clock := stamp;
    }

    /** One idle turn of `run_reverse_consumer`. */
    method ReverseIdle(now: nat, stamp: nat, rto: nat, window: real, deadline: nat) returns (order: seq<nat>)
      modifies this
      ensures Enumerates(order, StaleSeqs(old(View()), rto, now))
      ensures View() == IperfReverse.OnIdle(old(View()), now, stamp, window, order, deadline)
    {
      hide FillWindow, Retry, Allowed;
      ghost var start := View();
      if now >= deadline {
        pastDeadline := true;
      }
      assert StaleSeqs(View(), rto, now) == StaleSeqs(start, rto, now);
      if pastDeadline && table == map[] {
        order := [];
        assert StaleSeqs(View(), rto, now) == {};
        ended := true;
      } else {
        order := RetryStale(rto, now, stamp, None);
        if !pastDeadline && stamp < deadline {
          Fill(Allowed(window), stamp);
        }
      }
      clock := stamp;
    }

    /** The main loop of `run_client` after its initial burst, on whatever `recv` yields; the states
        it goes through are those of the step system. With a budget, sending fails once that many Interests
        are out, and the turn in which it does ends the loop with an error (None); the last state is then
        what that turn would have left. */
    method RunClient(initialWindow: nat, first: real, now: nat, stamp: nat, inbox: seq<Event>, deadline: nat,
                     budget: Option<nat>)
      returns (sent: Option<nat>, ghost ss: seq<Session>, ghost es: seq<Event>)
      requires View() == Fresh(now) && now <= stamp
      modifies this
      ensures |ss| == |es| + 1 && |es| <= |inbox| && ss[|es|] == View()
      ensures ss[0] == IperfClient.Start(initialWindow, first, now, stamp)
      ensures forall i :: 0 <= i < |es| ==> ClientTurn(ss, es, inbox, deadline, i)
      ensures forall i :: 0 <= i < |es| ==> Within(Sent(ss[i]), budget)
      ensures sent == if Within(Sent(View()), budget) then Some(nextSeq) else None
      ensures sent.Some? && !ended ==> |es| == |inbox|
    {
      hide FillWindow, Enumerates, StaleSeqs, IperfClient.OnArrival, IperfClient.OnIdle;
      Fill(if initialWindow < Allowed(first) then initialWindow else Allowed(first), stamp);
      clock := stamp;
      var k := 0;
      FillKeepsOpen(Fresh(now), if initialWindow < Allowed(first) then initialWindow else Allowed(first), stamp);
      ss, es := [View()], [];
      while k < |inbox| && !ended && Within(nextSeq + retx, budget)
        invariant k == |es| <= |inbox| && |ss| == k + 1 && ss[k] == View()
        invariant ss[0] == IperfClient.Start(initialWindow, first, now, stamp)
        invariant forall i :: 0 <= i < k ==> ClientTurn(ss, es, inbox, deadline, i)
        invariant forall i :: 0 <= i < k ==> Within(Sent(ss[i]), budget)
        decreases |inbox| - k
      {
        ghost var s, used := View(), inbox[k];
        match inbox[k] {
          case Arrival(seqNo, now', stamp', window) => ClientArrival(seqNo, now', stamp', window, deadline);
          case Idle(now', stamp', rto, window, _) =>
            var order := ClientIdle(now', stamp', rto, window, deadline);
            used := Idle(now', stamp', rto, window, order);
          case Disconnect => ended := true;
        }
        assert View() == IperfClient.Next(s, used, deadline);
        ClientExtended(ss, es, inbox, deadline, used, View());
        ss, es := ss + [View()], es + [used];
        k := k + 1;
      }
      sent := if Within(nextSeq + retx, budget) then Some(nextSeq) else None;
    }

    /** The loop of `run_reverse_consumer`, on whatever `recv` yields, with the same kind of budget. */
    method RunReverse(now: nat, inbox: seq<Event>, deadline: nat, budget: Option<nat>)
      returns (sent: Option<nat>, ghost ss: seq<Session>, ghost es: seq<Event>)
      requires View() == Fresh(now)
      modifies this
      ensures |ss| == |es| + 1 && |es| <= |inbox| && ss[|es|] == View()
      ensures ss[0] == Fresh(now)
      ensures forall i :: 0 <= i < |es| ==> ReverseTurn(ss, es, inbox, deadline, i)
      ensures forall i :: 0 <= i < |es| ==> Within(Sent(ss[i]), budget)
      ensures sent == if Within(Sent(View()), budget) then Some(nextSeq) else None
      ensures sent.Some? && !ended ==> |es| == |inbox|
    {
      hide Enumerates, StaleSeqs, IperfReverse.OnArrival, IperfReverse.OnIdle;
      var k := 0;
      ss, es := [View()], [];
      while k < |inbox| && !ended && Within(nextSeq + retx, budget)
        invariant k == |es| <= |inbox| && |ss| == k + 1 && ss[k] == View()
        invariant ss[0] == Fresh(now)
        invariant forall i :: 0 <= i < k ==> ReverseTurn(ss, es, inbox, deadline, i)
        invariant forall i :: 0 <= i < k ==> Within(Sent(ss[i]), budget)
        decreases |inbox| - k
      {
        ghost var s, used := View(), inbox[k];
        match inbox[k] {
          case Arrival(seqNo, now', stamp', window) => ReverseArrival(seqNo, now', stamp', window, deadline);
          case Idle(now', stamp', rto, window, _) =>
            var order := ReverseIdle(now', stamp', rto, window, deadline);
            used := Idle(now', stamp', rto, window, order);
          case Disconnect => ended := true;
        }
        assert View() == IperfReverse.Next(s, used, deadline);
        ReverseExtended(ss, es, inbox, deadline, used, View());
        ss, es := ss + [View()], es + [used];
        k := k + 1;
      }
      sent := if Within(nextSeq + retx, budget) then Some(nextSeq) else None;
    }
  }

  lemma FillStep(s: Session, allowed: nat, stamp: nat)
    ensures FillWindow(s, allowed, stamp) ==
            if s.inFlight < allowed then FillWindow(SendNew(s, stamp), allowed, stamp) else s
  {
    hide SendNew;
  }

  lemma ResendStep(s: Session, live: seq<nat>, k: nat, stamp: nat)
    requires k <= |live|
    ensures Resend(s, live[..k], stamp) ==
            if k == 0 then s else ResendOne(Resend(s, live[..k - 1], stamp), live[k - 1], stamp)
  {
    hide ResendOne;
    assert k > 0 ==> live[..k][..k - 1] == live[..k - 1];
  }

  lemma GiveUpStep(s: Session, spent: seq<nat>, k: nat)
    requires k <= |spent|
    ensures GiveUp(s, spent[..k]) == if k == 0 then s else GiveUpOne(GiveUp(s, spent[..k - 1]), spent[k - 1])
  {
    hide GiveUpOne;
    assert k > 0 ==> spent[..k][..k - 1] == spent[..k - 1];
  }

  lemma FillKeepsOpen(s: Session, allowed: nat, stamp: nat)
    ensures FillWindow(s, allowed, stamp).ended == s.ended
  {
    FillWindowExact(s, allowed, stamp);
  }

  lemma ClientExtended(ss: seq<Session>, es: seq<Event>, inbox: seq<Event>, deadline: nat, e: Event, t: Session)
    requires |ss| == |es| + 1 && |es| < |inbox| && forall i :: 0 <= i < |es| ==> ClientTurn(ss, es, inbox, deadline, i)
    requires !ss[|es|].ended && Same(inbox[|es|], e) &&
             (IperfClient.Retries(ss[|es|], e, deadline) ==> OrderOk(ss[|es|], e)) &&
             t == IperfClient.Next(ss[|es|], e, deadline)
    ensures forall i :: 0 <= i <= |es| ==> ClientTurn(ss + [t], es + [e], inbox, deadline, i)
  {
    forall i | 0 <= i < |es|
      ensures ClientTurn(ss + [t], es + [e], inbox, deadline, i)
    {
      assert ClientTurn(ss, es, inbox, deadline, i);
    }
  }

  lemma ReverseExtended(ss: seq<Session>, es: seq<Event>, inbox: seq<Event>, deadline: nat, e: Event, t: Session)
    requires |ss| == |es| + 1 && |es| < |inbox| && forall i :: 0 <= i < |es| ==> ReverseTurn(ss, es, inbox, deadline, i)
    requires !ss[|es|].ended && Same(inbox[|es|], e) && OrderOk(ss[|es|], e) &&
             t == IperfReverse.Next(ss[|es|], e, deadline)
    ensures forall i :: 0 <= i <= |es| ==> ReverseTurn(ss + [t], es + [e], inbox, deadline, i)
  {
    forall i | 0 <= i < |es|
      ensures ReverseTurn(ss + [t], es + [e], inbox, deadline, i)
    {
      assert ReverseTurn(ss, es, inbox, deadline, i);
    }
  }

  /** What the loops in place go through is a run of the step systems, so all that is proved of runs
      holds of the loops - as long as the clock and the waits behave. */
  lemma LoopsAreRuns(ss: seq<Session>, es: seq<Event>, inbox: seq<Event>, deadline: nat)
    requires |ss| == |es| + 1 && |es| <= |inbox| && forall i :: 0 <= i < |es| ==> Timely(ss[i], es[i])
    ensures (forall i :: 0 <= i < |es| ==> ClientTurn(ss, es, inbox, deadline, i)) &&
            (exists w: nat, first: real, now: nat, stamp: nat ::
               now <= stamp && ss[0] == IperfClient.Start(w, first, now, stamp))
            ==> IperfClient.Run(ss, es, deadline)
    ensures (forall i :: 0 <= i < |es| ==> ReverseTurn(ss, es, inbox, deadline, i)) && ss[0] == Fresh(ss[0].clock)
            ==> IperfReverse.Run(ss, es, deadline)
  {
    hide IperfClient.Start, IperfClient.Next, IperfReverse.Next, Timely, OrderOk, Same;
    if forall i :: 0 <= i < |es| ==> ClientTurn(ss, es, inbox, deadline, i) {
      forall i | 0 <= i < |es|
        ensures IperfClient.StepAt(ss, es, deadline, i)
      {
        assert ClientTurn(ss, es, inbox, deadline, i);
      }
    }
    if forall i :: 0 <= i < |es| ==> ReverseTurn(ss, es, inbox, deadline, i) {
      forall i | 0 <= i < |es|
        ensures IperfReverse.StepAt(ss, es, deadline, i)
      {
        assert ReverseTurn(ss, es, inbox, deadline, i);
      }
    }
  }
}
