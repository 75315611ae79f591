/** `ndn-iperf`: the sliding-window bookkeeping shared by the forward client and the reverse consumer.
    Times are microseconds. */
module Iperf {
  import opened Prelude

  const MAX_RETRIES: nat := 3
  const DRAIN: nat := 500_000
  const CHECK: nat := 100_000
  const MIN_RTO: nat := 200_000

  /** One outstanding sequence number: when it was last sent and how often it was re-sent. */
  datatype Probe = Probe(t0: nat, retries: nat)

  /** The loop's variables, followed by a ledger of what became of every sequence number. */
  datatype Session = Session(
    table: map<nat, Probe>,
    nextSeq: nat,
    inFlight: nat,
    received: nat,
    timedOut: nat,
    retx: nat,
    rtts: seq<nat>,
    pastDeadline: bool,
    ended: bool,
    clock: nat,
    answered: set<nat>,
    gaveUp: set<nat>,
    drained: set<nat>,
    sends: map<nat, nat>)

  /** One turn of either loop: what `recv` yielded and the values read meanwhile. `now` is the reading
      the branch decides on, `stamp` the later one written into the table; `order` is the order in
      which the hash map yields the stale entries. */
  datatype Event =
    | Arrival(seqNo: Option<nat>, now: nat, stamp: nat, window: real)
    | Idle(now: nat, stamp: nat, rto: nat, window: real, order: seq<nat>)
    | Disconnect

  function Fresh(now: nat): Session {
    Session(map[], 0, 0, 0, 0, 0, [], false, false, now, {}, {}, {}, map[])
  }

  /** `window.floor() as usize`. */
  function Allowed(window: real): nat {
    if window < 0.0 then 0 else window.Floor
  }

  function SaturatingSub(a: int, b: int): nat {
    if a <= b then 0 else a - b
  }

  function SendNew(s: Session, stamp: nat): Session {
    s.(table := s.table[s.nextSeq := Probe(stamp, 0)],
       nextSeq := s.nextSeq + 1,
       inFlight := s.inFlight + 1,
       sends := s.sends[s.nextSeq := 1])
  }

  function FillWindow(s: Session, allowed: nat, stamp: nat): Session
    decreases allowed - s.inFlight
  {
    if s.inFlight < allowed then FillWindow(SendNew(s, stamp), allowed, stamp) else s
  }

  /** A received Data; only one that names an outstanding sequence number is an answer. */
  function TakeAnswer(s: Session, seqNo: Option<nat>, now: nat): Session {
    var t := s.(received := s.received + 1);
    if seqNo.Some? && seqNo.value in s.table then
      t.(table := s.table - {seqNo.value},
         inFlight := SaturatingSub(s.inFlight, 1),
         rtts := s.rtts + [SaturatingSub(now, s.table[seqNo.value].t0)],
         answered := s.answered + {seqNo.value})
    else t
  }

  function StaleSeqs(s: Session, rto: nat, now: nat): set<nat> {
    set q | q in s.table && now >= s.table[q].t0 + rto
  }

  /** What the clock and the timeout allow: a wait elapses no earlier than it may. */
  predicate Timely(s: Session, e: Event) {
    match e
    case Arrival(_, now, stamp, _) => s.clock <= now <= stamp
    case Idle(now, stamp, rto, _, _) =>
      s.clock + (if s.pastDeadline then DRAIN else CHECK) <= now <= stamp && MIN_RTO <= rto
    case Disconnect => true
  }

  ghost predicate OrderOk(s: Session, e: Event) {
    e.Idle? ==> Enumerates(e.order, StaleSeqs(s, e.rto, e.now))
  }

  /** An arrival that answers nothing outstanding: it is counted as received, but gives no RTT sample. */
  predicate Unmatched(s: Session, e: Event) {
    e.Arrival? && (e.seqNo.None? || e.seqNo.value !in s.table)
  }

  /** How many of the first `i` events are unmatched arrivals. */
  function Surplus(ss: seq<Session>, es: seq<Event>, i: nat): nat
    requires i <= |es| && |es| <= |ss|
  {
    if i == 0 then 0 else Surplus(ss, es, i - 1) + if Unmatched(ss[i - 1], es[i - 1]) then 1 else 0
  }

  lemma {:induction false} SurplusZero(ss: seq<Session>, es: seq<Event>, i: nat)
    requires i <= |es| && |es| <= |ss|
    ensures Surplus(ss, es, i) == 0 <==> forall k: nat :: k < i ==> !Unmatched(ss[k], es[k])
  {
    if i > 0 {
      SurplusZero(ss, es, i - 1);
    }
  }

  /** Interests sent so far, first tries and re-sendings. */
  function Sent(s: Session): nat {
    s.nextSeq + s.retx
  }

  /** The stale sequence numbers with (`spent`) or without their retries used up, in order. */
  function Select(s: Session, order: seq<nat>, spent: bool): seq<nat> {
    if order == [] then []
    else
      var q := order[|order| - 1];
      Select(s, order[..|order| - 1], spent) +
      if q in s.table && (s.table[q].retries >= MAX_RETRIES) == spent then [q] else []
  }

  function GiveUpOne(s: Session, q: nat): Session {
    s.(table := s.table - {q},
       inFlight := SaturatingSub(s.inFlight, 1),
       timedOut := s.timedOut + 1,
       gaveUp := s.gaveUp + {q})
  }

  function GiveUp(s: Session, qs: seq<nat>): Session {
    if qs == [] then s else GiveUpOne(GiveUp(s, qs[..|qs| - 1]), qs[|qs| - 1])
  }

  function ResendOne(s: Session, q: nat, stamp: nat): Session {
    var retries := if q in s.table then s.table[q].retries else 0;
    var sent := if q in s.sends then s.sends[q] else 0;
    s.(table := s.table[q := Probe(stamp, retries + 1)],
       retx := s.retx + 1,
       sends := s.sends[q := sent + 1])
  }

  function Resend(s: Session, qs: seq<nat>, stamp: nat): Session {
    if qs == [] then s else ResendOne(Resend(s, qs[..|qs| - 1], stamp), qs[|qs| - 1], stamp)
  }

  /** In how many places a sequence number is: outstanding, answered, given up or dropped at the drain. */
  function Places(s: Session, q: nat): nat {
    (if q in s.table then 1 else 0) + (if q in s.answered then 1 else 0) +
    (if q in s.gaveUp then 1 else 0) + (if q in s.drained then 1 else 0)
  }

  /** Every issued sequence number is in exactly one place, and no other is anywhere. */
  ghost predicate Partition(s: Session) {
    forall q: nat {:trigger Places(s, q)} :: Places(s, q) == if q < s.nextSeq then 1 else 0
  }

  /** The counters of the loop count the places. */
  ghost predicate Counts(s: Session) {
    && s.nextSeq == |s.table| + |s.answered| + |s.gaveUp| + |s.drained|
    && s.inFlight == |s.table| + |s.drained|
    && |s.rtts| == |s.answered| <= s.received
    && s.timedOut == |s.gaveUp|
  }

  /** Each sequence number has been sent once plus once per retry, and never more than four times. */
  ghost predicate Tries(s: Session) {
    && (forall q: nat :: q in s.sends <==> q < s.nextSeq)
    && (forall q :: q in s.sends ==> 1 <= s.sends[q] <= MAX_RETRIES + 1)
    && (forall q :: q in s.table ==> q in s.sends && s.sends[q] == s.table[q].retries + 1)
  }

  ghost predicate Books(s: Session) {
    Partition(s) && Counts(s) && Tries(s)
  }

  ghost predicate StampedBy(s: Session, t: nat) {
    forall q :: q in s.table ==> s.table[q].t0 <= t
  }

  lemma FreshBooks(now: nat)
    ensures Books(Fresh(now))
  {
  }

  lemma OnePlace(s: Session, q: nat)
    requires Books(s)
    ensures q in s.table ==> q < s.nextSeq && q !in s.answered && q !in s.gaveUp && q !in s.drained
    ensures q >= s.nextSeq ==> q !in s.table && q !in s.answered && q !in s.gaveUp && q !in s.drained
  {
    assert Places(s, q) == if q < s.nextSeq then 1 else 0;
  }

  /** Moving one sequence number from one place to another keeps the partition. */
  lemma MovedPartition(s: Session, t: Session, q: nat)
    requires Partition(s)
    requires s.nextSeq <= t.nextSeq <= s.nextSeq + 1 && (t.nextSeq > s.nextSeq ==> q == s.nextSeq)
    requires Places(t, q) == 1 && q < t.nextSeq
    requires forall x: nat :: x != q ==> Places(t, x) == Places(s, x)
    ensures Partition(t)
  {
  }

  lemma FlagsKeepBooks(s: Session, past: bool, ended: bool, clock: nat)
    requires Books(s)
    ensures Books(s.(pastDeadline := past, ended := ended, clock := clock))
  {
    assert forall q: nat :: Places(s.(pastDeadline := past, ended := ended, clock := clock), q) == Places(s, q);
  }

  lemma SendNewBooks(s: Session, stamp: nat)
    requires Books(s)
    ensures Books(SendNew(s, stamp))
  {
    SendNewPartition(s, stamp);
    SendNewTries(s, stamp);
    OnePlace(s, s.nextSeq);
    hide Partition, Places, Tries;
    assert |SendNew(s, stamp).table| == |s.table| + 1;
  }

  lemma SendNewTries(s: Session, stamp: nat)
    requires Tries(s)
    ensures Tries(SendNew(s, stamp))
  {
  }

  lemma SendNewPartition(s: Session, stamp: nat)
    requires Books(s)
    ensures Partition(SendNew(s, stamp))
  {
    OnePlace(s, s.nextSeq);
    hide Partition, Counts, Tries;
    MovedPartition(s, SendNew(s, stamp), s.nextSeq);
  }

  lemma {:induction false} FillWindowBooks(s: Session, allowed: nat, stamp: nat)
    requires Books(s)
    ensures Books(FillWindow(s, allowed, stamp))
    decreases allowed - s.inFlight
  {
    hide Books;
    if s.inFlight < allowed {
      SendNewBooks(s, stamp);
      FillWindowBooks(SendNew(s, stamp), allowed, stamp);
    }
  }

  /** New sequence numbers fill the window exactly, and none is sent once it is full. */
  lemma {:induction false} FillWindowExact(s: Session, allowed: nat, stamp: nat)
    ensures var t := FillWindow(s, allowed, stamp);
            && t.inFlight == (if s.inFlight < allowed then allowed else s.inFlight)
            && t.nextSeq - s.nextSeq == t.inFlight - s.inFlight
            && (forall q :: q in t.table <==> q in s.table || s.nextSeq <= q < t.nextSeq)
            && (forall q :: q in t.table ==>
                  (q in s.table && t.table[q] == s.table[q]) || t.table[q] == Probe(stamp, 0))
            && t == s.(table := t.table, nextSeq := t.nextSeq, inFlight := t.inFlight, sends := t.sends)
    decreases allowed - s.inFlight
  {
    if s.inFlight < allowed {
      FillWindowExact(SendNew(s, stamp), allowed, stamp);
    }
  }

  lemma AnsweredOneBooks(s: Session, q: nat, now: nat)
    requires Books(s) && q in s.table
    ensures Books(TakeAnswer(s, Some(q), now)) && s.inFlight >= 1
  {
    AnswerPartition(s, q, now);
    OnePlace(s, q);
    RemovalSize(s.table, q);
    hide Partition, Places;
    assert |s.answered + {q}| == |s.answered| + 1;
  }

  lemma AnswerPartition(s: Session, q: nat, now: nat)
    requires Books(s) && q in s.table
    ensures Partition(TakeAnswer(s, Some(q), now))
  {
    OnePlace(s, q);
    hide Partition, Counts, Tries;
    MovedPartition(s, TakeAnswer(s, Some(q), now), q);
  }

  lemma TakeAnswerBooks(s: Session, seqNo: Option<nat>, now: nat)
    requires Books(s)
    ensures Books(TakeAnswer(s, seqNo, now))
  {
    if seqNo.Some? && seqNo.value in s.table {
      hide Books;
      AnsweredOneBooks(s, seqNo.value, now);
    } else {
      assert forall q: nat :: Places(TakeAnswer(s, seqNo, now), q) == Places(s, q);
    }
  }

  lemma RemovalSize(table: map<nat, Probe>, q: nat)
    requires q in table
    ensures |table - {q}| == |table| - 1
  {
    assert (table - {q}).Keys == table.Keys - {q};
  }

  lemma GiveUpOneBooks(s: Session, q: nat)
    requires Books(s) && q in s.table
    ensures Books(GiveUpOne(s, q)) && s.inFlight >= 1
  {
    GiveUpPartition(s, q);
    OnePlace(s, q);
    RemovalSize(s.table, q);
    hide Partition, Places;
    assert |s.gaveUp + {q}| == |s.gaveUp| + 1;
  }

  lemma GiveUpPartition(s: Session, q: nat)
    requires Books(s) && q in s.table
    ensures Partition(GiveUpOne(s, q))
  {
    OnePlace(s, q);
    hide Partition, Counts, Tries;
    MovedPartition(s, GiveUpOne(s, q), q);
  }

  lemma {:induction false} GiveUpBooks(s: Session, qs: seq<nat>)
    requires Books(s) && NoRepeats(qs) && Elems(qs) <= s.table.Keys
    ensures Books(GiveUp(s, qs))
    ensures GiveUp(s, qs).table == s.table - Elems(qs)
  {
    hide Books;
    if qs == [] {
      assert s.table - Elems(qs) == s.table;
    } else {
      var init, q := qs[..|qs| - 1], qs[|qs| - 1];
      GiveUpBooks(s, init);
      GiveUpOneBooks(GiveUp(s, init), q);
      assert s.table - Elems(init) - {q} == s.table - Elems(qs);
    }
  }

  /** Giving up one entry after the other, each decrement of `in_flight` takes off exactly one. */
  lemma {:induction false} GiveUpDecrements(s: Session, qs: seq<nat>)
    requires Books(s) && NoRepeats(qs) && Elems(qs) <= s.table.Keys
    ensures GiveUp(s, qs).inFlight == s.inFlight - |qs|
  {
    if qs != [] {
      var init, q := qs[..|qs| - 1], qs[|qs| - 1];
      GiveUpDecrements(s, init);
      GiveUpBooks(s, init);
      hide Books;
      GiveUpOneBooks(GiveUp(s, init), q);
    }
  }

  /** The same within a retry round, after any number of its entries. */
  lemma SpentDecrements(s: Session, order: seq<nat>, k: nat)
    requires Books(s) && NoRepeats(order) && Elems(order) <= s.table.Keys
    requires k <= |Select(s, order, true)|
    ensures GiveUp(s, Select(s, order, true)[..k]).inFlight == s.inFlight - k
  {
    SelectSplits(s, order, true);
    hide Books, Select;
    PrefixKeeps(Select(s, order, true), k);
    GiveUpDecrements(s, Select(s, order, true)[..k]);
  }

  lemma ResendOneBooks(s: Session, q: nat, stamp: nat)
    requires Books(s) && q in s.table && s.table[q].retries < MAX_RETRIES
    ensures Books(ResendOne(s, q, stamp))
  {
    var t := ResendOne(s, q, stamp);
    OnePlace(s, q);
    assert t.table.Keys == s.table.Keys;
    assert |t.table| == |s.table|;
    hide Partition;
    MovedPartition(s, t, q);
  }

  lemma {:induction false} ResendBooks(s: Session, qs: seq<nat>, stamp: nat)
    requires Books(s) && NoRepeats(qs) && Elems(qs) <= s.table.Keys
    requires forall q :: q in Elems(qs) ==> s.table[q].retries < MAX_RETRIES
    ensures Books(Resend(s, qs, stamp))
    ensures Resend(s, qs, stamp).table.Keys == s.table.Keys
    ensures forall q :: q in s.table ==>
              Resend(s, qs, stamp).table[q] ==
              (if q in Elems(qs) then Probe(stamp, s.table[q].retries + 1) else s.table[q])
  {
    hide Books;
    if qs != [] {
      var init, q := qs[..|qs| - 1], qs[|qs| - 1];
      ResendBooks(s, init, stamp);
      ResendOneBooks(Resend(s, init, stamp), q, stamp);
    }
  }

  /** The selections split the stale entries by whether their retries are used up. */
  lemma {:induction false} SelectSplits(s: Session, order: seq<nat>, spent: bool)
    requires NoRepeats(order)
    ensures NoRepeats(Select(s, order, spent))
    ensures forall q :: q in Elems(Select(s, order, spent)) <==>
              q in Elems(order) && q in s.table && (s.table[q].retries >= MAX_RETRIES) == spent
  {
    if order != [] {
      var init, q := order[..|order| - 1], order[|order| - 1];
      SelectSplits(s, init, spent);
      ElemsAppend(Select(s, init, spent), q);
      assert Select(s, init, spent) + [] == Select(s, init, spent);
    }
  }

  lemma {:induction false} PrefixKeeps<T>(s: seq<T>, n: nat)
    requires n <= |s| && NoRepeats(s)
    ensures NoRepeats(s[..n]) && Elems(s[..n]) <= Elems(s)
  {
    if n == |s| {
      assert s[..n] == s;
    } else {
      PrefixKeeps(s[..|s| - 1], n);
      assert s[..|s| - 1][..n] == s[..n];
    }
  }

  /** The live stale entries that are re-sent: the first `limit` of them. */
  function Kept(s: Session, order: seq<nat>, limit: nat): seq<nat> {
    var live := Select(s, order, false);
    if |live| <= limit then live else live[..limit]
  }

  /** The idle branch before the deadline: give up the spent stale entries, re-send the first `limit` others. */
  function Retry(s: Session, order: seq<nat>, limit: nat, stamp: nat): Session {
    Resend(GiveUp(s, Select(s, order, true)), Kept(s, order, limit), stamp)
  }

  lemma KeptFacts(s: Session, order: seq<nat>, limit: nat)
    requires NoRepeats(order)
    ensures NoRepeats(Kept(s, order, limit))
    ensures forall q :: q in Elems(Kept(s, order, limit)) ==>
              q in Elems(order) && q in s.table && s.table[q].retries < MAX_RETRIES
    ensures |order| <= limit ==> Kept(s, order, limit) == Select(s, order, false)
  {
    SelectSplits(s, order, false);
    SelectLength(s, order, false);
    if |Select(s, order, false)| > limit {
      PrefixKeeps(Select(s, order, false), limit);
    }
  }

  lemma RetryBooks(s: Session, order: seq<nat>, limit: nat, stamp: nat)
    requires Books(s) && NoRepeats(order) && Elems(order) <= s.table.Keys
    ensures var t := Retry(s, order, limit, stamp);
            && Books(t)
            && (forall q :: q in t.table <==> q in s.table && q !in Elems(Select(s, order, true)))
            && (forall q :: q in t.table ==>
                  t.table[q] == (if q in Elems(Kept(s, order, limit)) then Probe(stamp, s.table[q].retries + 1)
                                 else s.table[q]))
  {
    SelectSplits(s, order, true);
    KeptFacts(s, order, limit);
    assert Retry(s, order, limit, stamp) == Resend(GiveUp(s, Select(s, order, true)), Kept(s, order, limit), stamp);
    hide Books, Select, GiveUp, Resend, Kept, Elems, NoRepeats, Retry;
    GiveUpBooks(s, Select(s, order, true));
    ResendBooks(GiveUp(s, Select(s, order, true)), Kept(s, order, limit), stamp);
  }

  /** What a retry round does to each entry: a stale one is gone, re-sent with one more retry, or -
      only beyond the limit - left alone. */
  lemma RetryEffect(s: Session, order: seq<nat>, limit: nat, stamp: nat)
    requires Books(s) && NoRepeats(order) && Elems(order) <= s.table.Keys
    ensures var t := Retry(s, order, limit, stamp);
            && Books(t)
            && (forall q :: q in t.table ==> q in s.table)
            && (forall q :: q in t.table && q !in Elems(order) ==> t.table[q] == s.table[q])
            && (forall q :: q in t.table && t.table[q] != s.table[q] ==>
                  s.table[q].retries < MAX_RETRIES && t.table[q] == Probe(stamp, s.table[q].retries + 1))
            && (forall q :: q in Elems(order) && s.table[q].retries >= MAX_RETRIES ==> q !in t.table)
            && (|order| <= limit ==> forall q :: q in t.table && q in Elems(order) ==>
                  t.table[q] == Probe(stamp, s.table[q].retries + 1))
  {
    RetryBooks(s, order, limit, stamp);
    SelectSplits(s, order, true);
    SelectSplits(s, order, false);
    KeptFacts(s, order, limit);
    hide Books, Retry, Kept, Select, Elems;
  }

  lemma {:induction false} SelectLength(s: Session, order: seq<nat>, spent: bool)
    ensures |Select(s, order, spent)| <= |order|
  {
    if order != [] {
      SelectLength(s, order[..|order| - 1], spent);
    }
  }

  lemma {:induction false} GiveUpFrame(s: Session, qs: seq<nat>)
    ensures var t := GiveUp(s, qs);
            t.nextSeq == s.nextSeq && t.received == s.received && t.rtts == s.rtts && t.clock == s.clock &&
            t.pastDeadline == s.pastDeadline && t.ended == s.ended && t.drained == s.drained && t.answered == s.answered
  {
    if qs != [] {
      GiveUpFrame(s, qs[..|qs| - 1]);
    }
  }

  lemma {:induction false} ResendFrame(s: Session, qs: seq<nat>, stamp: nat)
    ensures var t := Resend(s, qs, stamp);
            t.nextSeq == s.nextSeq && t.received == s.received && t.rtts == s.rtts && t.clock == s.clock &&
            t.pastDeadline == s.pastDeadline && t.ended == s.ended && t.drained == s.drained &&
            t.answered == s.answered &&
            t.gaveUp == s.gaveUp && t.retx == s.retx + |qs| && t.inFlight == s.inFlight
  {
    if qs != [] {
      ResendFrame(s, qs[..|qs| - 1], stamp);
    }
  }

  lemma RetryFrame(s: Session, order: seq<nat>, limit: nat, stamp: nat)
    ensures var t := Retry(s, order, limit, stamp);
            t.nextSeq == s.nextSeq && t.received == s.received && t.rtts == s.rtts && t.clock == s.clock &&
            t.pastDeadline == s.pastDeadline && t.ended == s.ended && t.drained == s.drained && t.answered == s.answered
  {
    GiveUpFrame(s, Select(s, order, true));
    ResendFrame(GiveUp(s, Select(s, order, true)), Kept(s, order, limit), stamp);
  }

  /** Filling leaves the entries there are alone and adds fresh ones above them. */
  lemma {:induction false} FillEntries(s: Session, allowed: nat, stamp: nat)
    requires forall q :: q in s.table ==> q < s.nextSeq
    ensures var t := FillWindow(s, allowed, stamp);
            && (forall q: nat :: q in t.table ==> if q < s.nextSeq then q in s.table && t.table[q] == s.table[q]
                                                  else q < t.nextSeq && t.table[q] == Probe(stamp, 0))
            && (forall q: nat :: q in s.table ==> q in t.table)
            && s.nextSeq <= t.nextSeq
    decreases allowed - s.inFlight
  {
    if s.inFlight < allowed {
      FillEntries(SendNew(s, stamp), allowed, stamp);
    }
  }

  lemma FillAgain(s: Session, allowed: nat, stamp: nat)
    ensures FillWindow(FillWindow(s, allowed, stamp), allowed, stamp) == FillWindow(s, allowed, stamp)
  {
    FillWindowExact(s, allowed, stamp);
  }

  lemma InTableBelow(s: Session)
    requires Tries(s)
    ensures forall q :: q in s.table ==> q < s.nextSeq
  {
  }

  lemma AllowedIsFloor(window: real)
    ensures window >= 0.0 ==> Allowed(window) as real <= window < (Allowed(window) + 1) as real
    ensures window < 0.0 ==> Allowed(window) == 0
  {
  }

  /** The clock reading written on what a turn sends. */
  function StampOf(e: Event): nat {
    match e
    case Arrival(_, _, stamp, _) => stamp
    case Idle(_, stamp, _, _, _) => stamp
    case Disconnect => 0
  }

  /** How often a sequence number has been sent. */
  function SendsOf(s: Session, q: nat): nat {
    if q in s.sends then s.sends[q] else 0
  }

  /** The stamp of the last event before state `i` in which `q` was sent, or else of the initial burst. */
  function LastSent(ss: seq<Session>, es: seq<Event>, i: nat, q: nat): nat
    requires i <= |es| < |ss|
  {
    if i == 0 then ss[0].clock
    else if SendsOf(ss[i], q) != SendsOf(ss[i - 1], q) then StampOf(es[i - 1])
    else LastSent(ss, es, i - 1, q)
  }

  /** A turn leaves an entry's time alone, or sends the number again and stamps it. */
  ghost predicate TimesMove(s: Session, t: Session, stamp: nat) {
    forall q :: q in t.table ==>
                  (q in s.table && t.table[q].t0 == s.table[q].t0 && SendsOf(t, q) == SendsOf(s, q)) ||
                  (t.table[q].t0 == stamp && SendsOf(t, q) != SendsOf(s, q))
  }

  ghost predicate SentAsStamped(ss: seq<Session>, es: seq<Event>, i: nat)
    requires i <= |es| < |ss|
  {
    forall q :: q in ss[i].table ==> ss[i].table[q].t0 == LastSent(ss, es, i, q)
  }

  lemma TimesMoved(s: Session, t: Session, stamp: nat)
    requires Tries(s) && Tries(t) && s.nextSeq <= t.nextSeq
    requires forall q :: q in t.table ==>
                           (q in s.table && t.table[q] == s.table[q]) ||
                           (q in s.table && t.table[q] == Probe(stamp, s.table[q].retries + 1)) ||
                           (q >= s.nextSeq && t.table[q] == Probe(stamp, 0))
    ensures TimesMove(s, t, stamp)
  {
    hide StampOf;
  }

  lemma StampsKept(ss: seq<Session>, es: seq<Event>, i: nat)
    requires 0 < i <= |es| < |ss| && SentAsStamped(ss, es, i - 1) && TimesMove(ss[i - 1], ss[i], StampOf(es[i - 1]))
    ensures SentAsStamped(ss, es, i)
  {
    hide SendsOf, StampOf;
  }

  lemma {:induction false} ResendCounts(s: Session, qs: seq<nat>, stamp: nat)
    ensures Resend(s, qs, stamp).retx == s.retx + |qs|
  {
    if qs != [] {
      ResendCounts(s, qs[..|qs| - 1], stamp);
    }
  }

  lemma {:induction false} GiveUpKeepsCount(s: Session, qs: seq<nat>)
    ensures GiveUp(s, qs).retx == s.retx
  {
    if qs != [] {
      GiveUpKeepsCount(s, qs[..|qs| - 1]);
    }
  }

  lemma RetryCounts(s: Session, order: seq<nat>, limit: nat, stamp: nat)
    ensures Retry(s, order, limit, stamp).retx == s.retx + |Kept(s, order, limit)|
  {
    GiveUpKeepsCount(s, Select(s, order, true));
    ResendCounts(GiveUp(s, Select(s, order, true)), Kept(s, order, limit), stamp);
    hide Kept, Select, Resend, GiveUp;
  }

  /** Stale entries with retries left, and without. */
  function Live(s: Session, rto: nat, now: nat): set<nat> {
    set q | q in s.table && now >= s.table[q].t0 + rto && s.table[q].retries < MAX_RETRIES
  }

  function Spent(s: Session, rto: nat, now: nat): set<nat> {
    set q | q in s.table && now >= s.table[q].t0 + rto && s.table[q].retries >= MAX_RETRIES
  }

  function Least(a: nat, b: nat): nat {
    if a < b then a else b
  }

  /** A retry round gives up all stale entries without retries left and re-sends `again`, as many of the
      other stale ones as the limit allows; nothing else changes. */
  ghost predicate RetryRound(s: Session, t: Session, again: set<nat>, limit: nat, rto: nat, now: nat, stamp: nat) {
    && again <= Live(s, rto, now) && |again| == Least(|Live(s, rto, now)|, limit)
    && RoundTable(s.table, t.table, Spent(s, rto, now), again, stamp)
    && t.retx == s.retx + |again|
  }

  lemma SelectedAre(s: Session, order: seq<nat>, rto: nat, now: nat)
    requires Enumerates(order, StaleSeqs(s, rto, now))
    ensures Enumerates(Select(s, order, false), Live(s, rto, now))
    ensures Elems(Select(s, order, true)) == Spent(s, rto, now)
  {
    SelectSplits(s, order, false);
    SelectSplits(s, order, true);
    hide Elems, NoRepeats, Select;
  }

  lemma KeptAre(s: Session, order: seq<nat>, limit: nat, rto: nat, now: nat)
    requires Enumerates(order, StaleSeqs(s, rto, now))
    ensures var again := Elems(Kept(s, order, limit));
            && again <= Live(s, rto, now) && |again| == |Kept(s, order, limit)| == Least(|Live(s, rto, now)|, limit)
  {
    var live, kept := Select(s, order, false), Kept(s, order, limit);
    SelectedAre(s, order, rto, now);
    KeptFacts(s, order, limit);
    EnumerationLength(live, Live(s, rto, now));
    EnumerationLength(kept, Elems(kept));
    if |live| > limit {
      PrefixKeeps(live, limit);
    }
    hide Elems, NoRepeats, Select, Live, StaleSeqs;
  }

  /** The effect of a retry round on the table. */
  ghost predicate RoundTable(before: map<nat, Probe>, after: map<nat, Probe>, spent: set<nat>, again: set<nat>,
                             stamp: nat) {
    && after.Keys == before.Keys - spent
    && after.Keys <= before.Keys
    && (forall q :: q in after ==>
          after[q] == if q in again then Probe(stamp, before[q].retries + 1) else before[q])
  }

  lemma RetryTable(s: Session, order: seq<nat>, limit: nat, stamp: nat)
    requires Books(s) && NoRepeats(order) && Elems(order) <= s.table.Keys
    ensures RoundTable(s.table, Retry(s, order, limit, stamp).table, Elems(Select(s, order, true)),
                       Elems(Kept(s, order, limit)), stamp)
  {
    RetryBooks(s, order, limit, stamp);
    hide Books, Retry, Kept, Select, Elems, NoRepeats;
  }

  lemma RetryIsRound(s: Session, order: seq<nat>, limit: nat, rto: nat, now: nat, stamp: nat)
    requires Books(s) && Enumerates(order, StaleSeqs(s, rto, now))
    ensures RetryRound(s, Retry(s, order, limit, stamp), Elems(Kept(s, order, limit)), limit, rto, now, stamp)
  {
    SelectedAre(s, order, rto, now);
    KeptAre(s, order, limit, rto, now);
    RetryCounts(s, order, limit, stamp);
    assert NoRepeats(order) && Elems(order) <= s.table.Keys;
    RetryTable(s, order, limit, stamp);
    hide Books, Retry, Kept, Select, Elems, NoRepeats, Enumerates, Live, Spent, StaleSeqs, RoundTable;
  }

  /** Whatever has been given up was sent four times. */
  ghost predicate FourTries(s: Session) {
    forall q :: q in s.gaveUp ==> SendsOf(s, q) == 4
  }

  lemma {:induction false} GiveUpSets(s: Session, qs: seq<nat>)
    ensures GiveUp(s, qs).gaveUp == s.gaveUp + Elems(qs) && GiveUp(s, qs).sends == s.sends
  {
    if qs != [] {
      GiveUpSets(s, qs[..|qs| - 1]);
    }
  }

  lemma {:induction false} ResendSends(s: Session, qs: seq<nat>, stamp: nat)
    ensures Resend(s, qs, stamp).gaveUp == s.gaveUp
    ensures forall q :: q !in Elems(qs) ==> SendsOf(Resend(s, qs, stamp), q) == SendsOf(s, q)
  {
    if qs != [] {
      ResendSends(s, qs[..|qs| - 1], stamp);
    }
  }

  lemma {:induction false} FillSends(s: Session, allowed: nat, stamp: nat)
    ensures FillWindow(s, allowed, stamp).gaveUp == s.gaveUp
    ensures forall q: nat :: q < s.nextSeq ==> SendsOf(FillWindow(s, allowed, stamp), q) == SendsOf(s, q)
    decreases allowed - s.inFlight
  {
    if s.inFlight < allowed {
      FillSends(SendNew(s, stamp), allowed, stamp);
    }
  }

  lemma FilledFour(s: Session, allowed: nat, stamp: nat)
    requires Books(s) && FourTries(s)
    ensures FourTries(FillWindow(s, allowed, stamp))
  {
    FillSends(s, allowed, stamp);
    forall q | q in s.gaveUp
      ensures q < s.nextSeq
    {
      OnePlace(s, q);
    }
    hide FillWindow, SendsOf, Books;
  }

  lemma SpentFour(s: Session, order: seq<nat>, q: nat)
    requires Books(s) && NoRepeats(order) && q in Elems(Select(s, order, true))
    ensures q in s.table && SendsOf(s, q) == 4
  {
    SelectSplits(s, order, true);
    hide Partition, Counts, Select, Elems;
  }

  lemma RetriedFour(s: Session, order: seq<nat>, limit: nat, stamp: nat)
    requires Books(s) && FourTries(s) && NoRepeats(order) && Elems(order) <= s.table.Keys
    ensures FourTries(Retry(s, order, limit, stamp))
  {
    var spent, kept := Select(s, order, true), Kept(s, order, limit);
    var g := GiveUp(s, spent);
    GiveUpSets(s, spent);
    ResendSends(g, kept, stamp);
    SelectSplits(s, order, true);
    KeptFacts(s, order, limit);
    assert Retry(s, order, limit, stamp) == Resend(g, kept, stamp);
    hide Retry, Resend, GiveUp, Select, Kept, Elems, NoRepeats;
    forall q | q in g.gaveUp
      ensures q !in Elems(kept) && SendsOf(s, q) == 4
    {
      GivenUpIsFour(s, order, limit, q);
    }
    hide Books;
    assert forall q :: SendsOf(g, q) == SendsOf(s, q);
  }

  lemma GivenUpIsFour(s: Session, order: seq<nat>, limit: nat, q: nat)
    requires Books(s) && FourTries(s) && NoRepeats(order)
    requires q in s.gaveUp || q in Elems(Select(s, order, true))
    ensures q !in Elems(Kept(s, order, limit)) && SendsOf(s, q) == 4
  {
    OnePlace(s, q);
    KeptFacts(s, order, limit);
    SelectSplits(s, order, true);
    if q !in s.gaveUp {
      SpentFour(s, order, q);
    }
    hide Books, Kept, Select, Elems, NoRepeats, SendsOf;
  }
}
