/** The OTLP bridge's loop: poll for span identifiers, fetch each span once, batch, POST. */
module SpanBridge {
  import opened Prelude
  import opened SpanIds
  import Protobuf

  /** A fetched span body with the identifier it was fetched for. */
  datatype Entry = Entry(id: Id, body: Bytes)

  /** What a fetch for the identifier on this line would return. */
  datatype Reply = Body(body: Bytes) | NoContent | FetchFailed

  datatype Line = Line(text: Bytes, reply: Reply)

  /** The loop's variables, then a record of everything fetched and of the successful POSTs with their bodies. */
  datatype Bridge = Bridge(
    seen: set<Id>,
    batch: seq<Entry>,
    lastFlush: nat,
    crashed: bool,
    fetched: seq<Entry>,
    posted: seq<seq<Entry>>,
    wires: seq<Bytes>)

  datatype Settings = Settings(batchSize: nat, flushEvery: nat, serviceName: Bytes)

  /** One turn: a poll - None if fetching or decoding the list failed - and whether a POST would succeed. */
  datatype Turn = Turn(recent: Option<seq<Line>>, now: nat, postOk: bool)

  const SLASH: byte := 0x2F

  function SplitOnce(text: Bytes): Option<(Bytes, Bytes)> {
    if text == [] then None
    else if text[0] == SLASH then Some(([], text[1..]))
    else
      match SplitOnce(text[1..])
      case None => None
      case Some((a, b)) => Some(([text[0]] + a, b))
  }

  function LineId(text: Bytes): Pair {
    match SplitOnce(text)
    case None => NoPair
    case Some((traceHex, spanHex)) => DecodedPair(traceHex, spanHex)
  }

  /** One line of the list: an unseen identifier is marked seen first and then fetched. */
  function OnLine(b: Bridge, line: Line): Bridge {
    if b.crashed then b
    else
      match LineId(line.text)
      case PairPanicked => b.(crashed := true)
      case NoPair => b
      case APair(id) =>
        if id in b.seen then b
        else
          var s := b.(seen := b.seen + {id});
          if line.reply.Body? then
            var entry := Entry(id, line.reply.body);
            s.(batch := s.batch + [entry], fetched := s.fetched + [entry])
          else s
  }

  function OnLines(b: Bridge, lines: seq<Line>): Bridge {
    if lines == [] then b else OnLine(OnLines(b, lines[..|lines| - 1]), lines[|lines| - 1])
  }

  function Bodies(entries: seq<Entry>): seq<Bytes> {
    seq(|entries|, i requires 0 <= i < |entries| => entries[i].body)
  }

  function Flush(b: Bridge, serviceName: Bytes, postOk: bool): Bridge {
    if b.batch == [] || !postOk then b
    else b.(batch := [], posted := b.posted + [b.batch],
            wires := b.wires + [Protobuf.ExportRequest(serviceName, Bodies(b.batch))])
  }

  function OnTurn(b: Bridge, c: Settings, t: Turn): Bridge {
    var p := if t.recent.Some? then OnLines(b, t.recent.value) else b;
    if p.crashed then p
    else if |p.batch| >= c.batchSize || (p.batch != [] && t.now >= b.lastFlush + c.flushEvery)
    then Flush(p, c.serviceName, t.postOk).(lastFlush := t.now)
    else p
  }

  function Start(now: nat): Bridge {
    Bridge({}, [], now, false, [], [], [])
  }

  function Run(c: Settings, start: nat, turns: seq<Turn>): Bridge {
    if turns == [] then Start(start)
    else OnTurn(Run(c, start, turns[..|turns| - 1]), c, turns[|turns| - 1])
  }

  function Ids(entries: seq<Entry>): seq<Id> {
    seq(|entries|, i requires 0 <= i < |entries| => entries[i].id)
  }

  /** What was posted, then what is waiting, is exactly what was fetched. */
  ghost predicate Balanced(b: Bridge) {
    Flatten(b.posted) + b.batch == b.fetched
  }

  /** Bodies were fetched for distinct identifiers, all of them marked as seen. */
  ghost predicate FetchedOnce(b: Bridge) {
    NoRepeats(Ids(b.fetched)) && Elems(Ids(b.fetched)) <= b.seen
  }

  /** A protobuf reader on every POST in order: the bodies in each, if all are readable and name this service. */
  function ReadPosts(wires: seq<Bytes>, serviceName: Bytes): Option<seq<seq<Bytes>>> {
    if wires == [] then Some([])
    else
      match (ReadPosts(wires[..|wires| - 1], serviceName), Protobuf.ReadExportRequest(wires[|wires| - 1]))
      case (Some(before), Some((name, bodies))) => if name == serviceName then Some(before + [bodies]) else None
      case _ => None
  }

  function PostBodies(posted: seq<seq<Entry>>): seq<seq<Bytes>> {
    if posted == [] then [] else PostBodies(posted[..|posted| - 1]) + [Bodies(posted[|posted| - 1])]
  }

  ghost predicate WiresReadBack(b: Bridge, serviceName: Bytes) {
    ReadPosts(b.wires, serviceName) == Some(PostBodies(b.posted))
  }

  ghost predicate Conserves(b: Bridge, serviceName: Bytes) {
    Balanced(b) && FetchedOnce(b) && WiresReadBack(b, serviceName)
  }

  lemma IdsAppend(entries: seq<Entry>, entry: Entry)
    ensures Ids(entries + [entry]) == Ids(entries) + [entry.id]
  {
  }

  lemma OnLineConserves(b: Bridge, line: Line, serviceName: Bytes)
    requires Conserves(b, serviceName)
    ensures Conserves(OnLine(b, line), serviceName)
  {
    hide Flatten, Ids, Elems, NoRepeats, ReadPosts, PostBodies, LineId;
    var t := OnLine(b, line);
    if t.fetched != b.fetched {
      FetchConserves(b, t, t.fetched[|b.fetched|], serviceName);
    }
  }

  lemma FetchConserves(b: Bridge, t: Bridge, entry: Entry, serviceName: Bytes)
    requires Conserves(b, serviceName) && entry.id !in b.seen
    requires t.fetched == b.fetched + [entry] && t.batch == b.batch + [entry] && t.seen == b.seen + {entry.id}
    requires t.posted == b.posted && t.wires == b.wires
    ensures Conserves(t, serviceName)
  {
    IdsAppend(b.fetched, entry);
    ElemsAppend(Ids(b.fetched), entry.id);
    hide Ids, Elems, NoRepeats, ReadPosts, PostBodies, Flatten;
    assert Flatten(b.posted) + b.batch + [entry] == Flatten(b.posted) + (b.batch + [entry]);
  }

  lemma {:induction false} OnLinesConserves(b: Bridge, lines: seq<Line>, serviceName: Bytes)
    requires Conserves(b, serviceName)
    ensures Conserves(OnLines(b, lines), serviceName)
  {
    hide Conserves;
    if lines != [] {
      OnLinesConserves(b, lines[..|lines| - 1], serviceName);
      OnLineConserves(OnLines(b, lines[..|lines| - 1]), lines[|lines| - 1], serviceName);
      hide OnLine;
    }
  }

  lemma FlushConserves(b: Bridge, serviceName: Bytes, postOk: bool)
    requires Conserves(b, serviceName)
    ensures Conserves(Flush(b, serviceName, postOk), serviceName)
    ensures !postOk ==> Flush(b, serviceName, postOk) == b
    ensures postOk ==> Flush(b, serviceName, postOk).batch == []
  {
    if b.batch != [] && postOk {
      FlattenAppend(b.posted, b.batch);
      var t := Flush(b, serviceName, postOk);
      WireAppend(b.wires, b.posted, b.batch, serviceName);
      hide Protobuf.ReadExportRequest, Protobuf.ExportRequest, ReadPosts, PostBodies, FetchedOnce, Flatten, Bodies;
      FetchedKeeps(b, t);
    }
  }

  lemma FetchedKeeps(b: Bridge, t: Bridge)
    requires FetchedOnce(b) && t.fetched == b.fetched && t.seen == b.seen
    ensures FetchedOnce(t)
  {
  }

  lemma WireAppend(wires: seq<Bytes>, posted: seq<seq<Entry>>, batch: seq<Entry>, serviceName: Bytes)
    requires ReadPosts(wires, serviceName) == Some(PostBodies(posted))
    ensures ReadPosts(wires + [Protobuf.ExportRequest(serviceName, Bodies(batch))], serviceName) ==
            Some(PostBodies(posted + [batch]))
  {
    Protobuf.ReadsBack(serviceName, Bodies(batch));
    hide Protobuf.ReadExportRequest, Protobuf.ExportRequest, Bodies;
    var wire := Protobuf.ExportRequest(serviceName, Bodies(batch));
    assert (wires + [wire])[..|wires|] == wires && (posted + [batch])[..|posted|] == posted;
  }

  lemma {:induction false} RunConserves(c: Settings, start: nat, turns: seq<Turn>)
    ensures Conserves(Run(c, start, turns), c.serviceName)
  {
    if turns != [] {
      var init, t := turns[..|turns| - 1], turns[|turns| - 1];
      RunConserves(c, start, init);
      TurnConserves(Run(c, start, init), c, t);
      hide Conserves, OnTurn;
    }
  }

  lemma TurnConserves(b: Bridge, c: Settings, t: Turn)
    requires Conserves(b, c.serviceName)
    ensures Conserves(OnTurn(b, c, t), c.serviceName)
  {
    var p := if t.recent.Some? then OnLines(b, t.recent.value) else b;
    if t.recent.Some? {
      OnLinesConserves(b, t.recent.value, c.serviceName);
    }
    FlushConserves(p, c.serviceName, t.postOk);
    LastFlushKeeps(Flush(p, c.serviceName, t.postOk), t.now, c.serviceName);
    hide Conserves, Flush, OnLines;
  }

  lemma LastFlushKeeps(b: Bridge, now: nat, serviceName: Bytes)
    requires Conserves(b, serviceName)
    ensures Conserves(b.(lastFlush := now), serviceName)
  {
    hide Flatten, Ids, Elems, NoRepeats, ReadPosts, PostBodies;
  }

  /** All the lines of the lists that arrived, in order. */
  function Handed(turns: seq<Turn>): seq<Line> {
    if turns == [] then []
    else
      var t := turns[|turns| - 1];
      Handed(turns[..|turns| - 1]) + if t.recent.Some? then t.recent.value else []
  }

  /** The lines before the first one whose decoding panics. */
  function Handled(lines: seq<Line>): (h: seq<Line>)
    ensures h <= lines
  {
    if lines == [] then []
    else
      var n := |lines| - 1;
      var before := Handled(lines[..n]);
      if |before| < n || LineId(lines[n].text) == PairPanicked then before else lines
  }

  ghost predicate Listed(lines: seq<Line>, id: Id) {
    exists l :: l in lines && LineId(l.text) == APair(id)
  }

  /** Line `k` is the first to list `id`. */
  ghost predicate FirstListing(lines: seq<Line>, k: nat, id: Id) {
    k < |lines| && LineId(lines[k].text) == APair(id) && !Listed(lines[..k], id)
  }

  /** The bodies obtained at the first listing of each identifier, in the order of the lines. */
  ghost function FirstBodies(lines: seq<Line>): seq<Entry> {
    if lines == [] then []
    else
      var n := |lines| - 1;
      FirstBodies(lines[..n]) + NewEntry(lines[..n], lines[n])
  }

  ghost function NewEntry(before: seq<Line>, line: Line): seq<Entry> {
    match LineId(line.text)
    case APair(id) => if !Listed(before, id) && line.reply.Body? then [Entry(id, line.reply.body)] else []
    case _ => []
  }

  /** What was fetched and seen follows from the lines handled so far. */
  ghost predicate Ledger(b: Bridge, lines: seq<Line>) {
    && (b.crashed <==> |Handled(lines)| < |lines|)
    && b.fetched == FirstBodies(Handled(lines))
    && forall id: Id :: id in b.seen <==> Listed(Handled(lines), id)
  }

  lemma HandledStep(lines: seq<Line>, line: Line)
    ensures Handled(lines + [line]) ==
            if |Handled(lines)| < |lines| || LineId(line.text) == PairPanicked then Handled(lines) else lines + [line]
  {
    assert (lines + [line])[..|lines|] == lines;
    hide LineId;
  }

  lemma ListedStep(lines: seq<Line>, line: Line, id: Id)
    ensures Listed(lines + [line], id) <==> Listed(lines, id) || LineId(line.text) == APair(id)
  {
    hide LineId;
    assert line in lines + [line];
  }

  lemma FirstBodiesStep(lines: seq<Line>, line: Line)
    ensures FirstBodies(lines + [line]) == FirstBodies(lines) + NewEntry(lines, line)
  {
    assert (lines + [line])[..|lines|] == lines;
    hide NewEntry;
  }

  lemma LineLedger(b: Bridge, lines: seq<Line>, line: Line)
    requires Ledger(b, lines)
    ensures Ledger(OnLine(b, line), lines + [line])
  {
    HandledStep(lines, line);
    hide LineId, Handled, FirstBodies, Listed, NewEntry;
    if b.crashed {
      assert OnLine(b, line) == b;
    } else {
      hide OnLine;
      assert Handled(lines) == lines;
      LineEffect(b, lines, line);
      FirstBodiesStep(lines, line);
      NoNewEntry(lines, line);
      forall id: Id
        ensures Listed(lines + [line], id) <==> Listed(lines, id) || LineId(line.text) == APair(id)
      {
        ListedStep(lines, line, id);
      }
    }
  }

  lemma NoNewEntry(before: seq<Line>, line: Line)
    ensures LineId(line.text) == PairPanicked ==> NewEntry(before, line) == []
  {
  }

  /** One line: marked seen, and its entry added if it is the first listing and the fetch succeeds. */
  lemma LineEffect(b: Bridge, lines: seq<Line>, line: Line)
    requires !b.crashed && (forall id: Id :: id in b.seen <==> Listed(lines, id))
    ensures var t := OnLine(b, line);
            && (t.crashed <==> LineId(line.text) == PairPanicked)
            && t.fetched == b.fetched + NewEntry(lines, line)
            && forall id: Id :: id in t.seen <==> id in b.seen || LineId(line.text) == APair(id)
  {
    hide LineId, Listed;
    assert b.fetched + [] == b.fetched;
  }

  lemma {:induction false} PollLedger(b: Bridge, lines: seq<Line>, more: seq<Line>)
    requires Ledger(b, lines)
    ensures Ledger(OnLines(b, more), lines + more)
  {
    hide Ledger, OnLine;
    if more == [] {
      assert lines + more == lines;
    } else {
      var init, last := more[..|more| - 1], more[|more| - 1];
      PollLedger(b, lines, init);
      LineLedger(OnLines(b, init), lines + init, last);
      LastAppended(lines, more);
    }
  }

  lemma LastAppended<T>(a: seq<T>, b: seq<T>)
    requires b != []
    ensures a + b[..|b| - 1] + [b[|b| - 1]] == a + b
  {
  }

  lemma LedgerFields(b: Bridge, t: Bridge, lines: seq<Line>)
    requires Ledger(b, lines) && t.crashed == b.crashed && t.fetched == b.fetched && t.seen == b.seen
    ensures Ledger(t, lines)
  {
    hide Handled, FirstBodies, Listed;
  }

  lemma {:induction false} RunLedger(c: Settings, start: nat, turns: seq<Turn>)
    ensures Ledger(Run(c, start, turns), Handed(turns))
  {
    if turns != [] {
      var init, t := turns[..|turns| - 1], turns[|turns| - 1];
      RunLedger(c, start, init);
      var b := Run(c, start, init);
      var more := if t.recent.Some? then t.recent.value else [];
      var p := OnLines(b, more);
      PollLedger(b, Handed(init), more);
      LedgerFields(p, OnTurn(b, c, t), Handed(init) + more);
      hide Ledger, OnLines;
    }
  }

  /** Which bodies were fetched and which identifiers seen, in every run, in terms of the lists that
      arrived: the first listing of an identifier decides, up to the first line that panics. */
  lemma FetchedIsFirstListed(c: Settings, start: nat, turns: seq<Turn>)
    ensures var b, lines := Run(c, start, turns), Handled(Handed(turns));
            && b.fetched == FirstBodies(lines)
            && (forall id: Id :: id in b.seen <==> Listed(lines, id))
            && (!b.crashed <==> lines == Handed(turns))
  {
    RunLedger(c, start, turns);
    hide Run, Handed, Handled, FirstBodies, Listed;
  }

  lemma {:induction false} FirstBodiesExactly(lines: seq<Line>, e: Entry)
    ensures e in FirstBodies(lines) <==>
            exists k: nat :: FirstListing(lines, k, e.id) && lines[k].reply == Body(e.body)
  {
    hide LineId, Listed;
    if lines != [] {
      var n := |lines| - 1;
      FirstBodiesExactly(lines[..n], e);
      LastListing(lines, e);
      hide FirstListing, NewEntry;
      forall k: nat | k < n
        ensures FirstListing(lines, k, e.id) <==> FirstListing(lines[..n], k, e.id)
      {
        EarlierListing(lines, n, k, e.id);
      }
    }
  }

  lemma LastListing(lines: seq<Line>, e: Entry)
    requires lines != []
    ensures var n := |lines| - 1;
            e in NewEntry(lines[..n], lines[n]) <==> FirstListing(lines, n, e.id) && lines[n].reply == Body(e.body)
  {
    hide LineId, Listed;
  }

  lemma EarlierListing(lines: seq<Line>, n: nat, k: nat, id: Id)
    requires k < n <= |lines|
    ensures FirstListing(lines, k, id) <==> FirstListing(lines[..n], k, id)
  {
    assert lines[..n][..k] == lines[..k];
    hide LineId, Listed;
  }

  /** An identifier whose one fetch failed is never tried again, however often it is listed later. */
  lemma NeverRetried(c: Settings, start: nat, turns: seq<Turn>, k: nat, id: Id)
    requires FirstListing(Handled(Handed(turns)), k, id) && !Handled(Handed(turns))[k].reply.Body?
    ensures id !in Ids(Run(c, start, turns).fetched)
  {
    var fetched, lines := Run(c, start, turns).fetched, Handled(Handed(turns));
    FetchedIsFirstListed(c, start, turns);
    hide Run, Handed, Handled, LineId, FirstBodies;
    forall x | 0 <= x < |fetched|
      ensures fetched[x].id != id
    {
      FirstBodiesExactly(lines, fetched[x]);
      if fetched[x].id == id {
        var m: nat :| FirstListing(lines, m, id) && lines[m].reply == Body(fetched[x].body);
        OneFirstListing(lines, k, m, id);
      }
    }
  }

  lemma OneFirstListing(lines: seq<Line>, k: nat, m: nat, id: Id)
    requires FirstListing(lines, k, id) && FirstListing(lines, m, id)
    ensures k == m
  {
    ListedBefore(lines, k, m, id);
    ListedBefore(lines, m, k, id);
    hide LineId, Listed;
  }

  lemma ListedBefore(lines: seq<Line>, k: nat, m: nat, id: Id)
    requires k < |lines| && m <= |lines| && LineId(lines[k].text) == APair(id)
    ensures k < m ==> Listed(lines[..m], id)
  {
    hide LineId;
    assert k < m ==> lines[k] in lines[..m];
  }

  /** Over every run: reading the successful POSTs in order and then the waiting batch gives exactly
      the bodies fetched, in order, one per identifier - those of the first listings. */
  lemma EveryBodyOnce(c: Settings, start: nat, turns: seq<Turn>)
    ensures var b := Run(c, start, turns);
            var read := ReadPosts(b.wires, c.serviceName);
            && read.Some? && Flatten(read.value) + Bodies(b.batch) == Bodies(b.fetched)
            && NoRepeats(Ids(b.fetched)) && Elems(Ids(b.fetched)) <= b.seen
            && b.fetched == FirstBodies(Handled(Handed(turns)))
  {
    RunConserves(c, start, turns);
    FetchedIsFirstListed(c, start, turns);
    var b := Run(c, start, turns);
    PostsFlatten(b.posted);
    BodiesAppend(Flatten(b.posted), b.batch);
    hide FirstBodies, Handled, Handed, Run, Flatten, Bodies, Ids, Elems, NoRepeats, ReadPosts, PostBodies;
  }

  /** Stopping with a POST that succeeds leaves nothing behind: the POSTs hold every body fetched. */
  lemma ShutdownDelivers(c: Settings, start: nat, turns: seq<Turn>)
    requires !Run(c, start, turns).crashed
    ensures var b := Flush(Run(c, start, turns), c.serviceName, true);
            var read := ReadPosts(b.wires, c.serviceName);
            && read.Some? && Flatten(read.value) == Bodies(Run(c, start, turns).fetched)
  {
    RunConserves(c, start, turns);
    var r := Run(c, start, turns);
    FlushConserves(r, c.serviceName, true);
    var b := Flush(r, c.serviceName, true);
    assert b.batch == [] && b.fetched == r.fetched;
    PostsFlatten(b.posted);
    hide Run, Flush, Flatten, Bodies, Ids, Elems, NoRepeats, ReadPosts, PostBodies;
    assert Flatten(b.posted) + [] == Flatten(b.posted);
  }

  lemma BodiesAppend(a: seq<Entry>, b: seq<Entry>)
    ensures Bodies(a + b) == Bodies(a) + Bodies(b)
  {
  }

  lemma {:induction false} PostsFlatten(posted: seq<seq<Entry>>)
    ensures Flatten(PostBodies(posted)) == Bodies(Flatten(posted))
  {
    if posted != [] {
      var n := |posted| - 1;
      PostsFlatten(posted[..n]);
      FlattenAppend(PostBodies(posted[..n]), Bodies(posted[n]));
      FlattenAppend(posted[..n], posted[n]);
      assert posted == posted[..n] + [posted[n]];
      BodiesAppend(Flatten(posted[..n]), posted[n]);
    }
  }

  /** No identifier is in two successful POSTs, nor in one and in the batch. */
  lemma PostsAreDisjoint(c: Settings, start: nat, turns: seq<Turn>, i: nat, x: nat, k: nat, y: nat)
    requires var all := Run(c, start, turns).posted + [Run(c, start, turns).batch];
             i < k < |all| && x < |all[i]| && y < |all[k]|
    ensures var all := Run(c, start, turns).posted + [Run(c, start, turns).batch];
            all[i][x].id != all[k][y].id
  {
    RunConserves(c, start, turns);
    var b := Run(c, start, turns);
    var all := b.posted + [b.batch];
    FlattenAppend(b.posted, b.batch);
    hide Run, ReadPosts, PostBodies, WiresReadBack, Flatten;
    DistinctAcross(all, i, x, k, y);
  }

  lemma DistinctAcross(all: seq<seq<Entry>>, i: nat, x: nat, k: nat, y: nat)
    requires i < k < |all| && x < |all[i]| && y < |all[k]|
    requires NoRepeats(Ids(Flatten(all)))
    ensures all[i][x].id != all[k][y].id
  {
    FlattenIndex(all, i, x);
    FlattenIndex(all, k, y);
    OffsetsAscend(all, i, k);
    hide Flatten, Offset, NoRepeats;
    var p, q := Offset(all, i) + x, Offset(all, k) + y;
    NoRepeatsAt(Ids(Flatten(all)), p, q);
  }

  function Offset<T>(parts: seq<seq<T>>, i: nat): nat
    requires i <= |parts|
  {
    if i == 0 then 0 else Offset(parts, i - 1) + |parts[i - 1]|
  }

  lemma {:induction false} OffsetsAscend<T>(parts: seq<seq<T>>, i: nat, k: nat)
    requires i < k <= |parts|
    ensures Offset(parts, i) + |parts[i]| <= Offset(parts, k)
    decreases k - i
  {
    if i + 1 < k {
      OffsetsAscend(parts, i, k - 1);
    }
  }

  lemma {:induction false} FlattenIndex<T>(parts: seq<seq<T>>, i: nat, x: nat)
    requires i < |parts| && x < |parts[i]|
    ensures Offset(parts, i) + x < |Flatten(parts)| && Flatten(parts)[Offset(parts, i) + x] == parts[i][x]
    decreases |parts|
  {
    var n := |parts| - 1;
    var init := parts[..n];
    assert parts == init + [parts[n]];
    FlattenAppend(init, parts[n]);
    OffsetPrefix(parts, n, i);
    if i < n {
      FlattenIndex(init, i, x);
    } else {
      FlattenLength(init);
    }
  }

  lemma {:induction false} OffsetPrefix<T>(parts: seq<seq<T>>, n: nat, i: nat)
    requires i <= n <= |parts|
    ensures Offset(parts[..n], i) == Offset(parts, i)
  {
    if i > 0 {
      OffsetPrefix(parts, n, i - 1);
    }
  }

  lemma {:induction false} FlattenLength<T>(parts: seq<seq<T>>)
    ensures |Flatten(parts)| == Offset(parts, |parts|)
  {
    if parts != [] {
      var n := |parts| - 1;
      assert parts == parts[..n] + [parts[n]];
      FlattenAppend(parts[..n], parts[n]);
      FlattenLength(parts[..n]);
      OffsetPrefix(parts, n, n);
    }
  }

  /** The list contains a line whose decoding panics. */
  predicate HasBadLine(lines: seq<Line>) {
    exists l :: l in lines && LineId(l.text) == PairPanicked
  }

  predicate BadTurn(t: Turn) {
    t.recent.Some? && HasBadLine(t.recent.value)
  }

  lemma {:induction false} PollCrashesExactly(b: Bridge, lines: seq<Line>)
    ensures OnLines(b, lines).crashed <==> b.crashed || HasBadLine(lines)
  {
    if lines != [] {
      var init, last := lines[..|lines| - 1], lines[|lines| - 1];
      PollCrashesExactly(b, init);
      hide LineId;
      assert lines == init + [last];
      assert HasBadLine(lines) <==> HasBadLine(init) || LineId(last.text) == PairPanicked;
    }
  }

  /** The process dies exactly when some list it was handed has a line whose decoding panics. */
  lemma {:induction false} CrashesExactly(c: Settings, start: nat, turns: seq<Turn>)
    ensures Run(c, start, turns).crashed <==> exists t :: t in turns && BadTurn(t)
  {
    if turns != [] {
      var init, t := turns[..|turns| - 1], turns[|turns| - 1];
      var b := Run(c, start, init);
      CrashesExactly(c, start, init);
      if t.recent.Some? {
        PollCrashesExactly(b, t.recent.value);
      }
      hide OnLines, HasBadLine;
      assert turns == init + [t];
      assert OnTurn(b, c, t).crashed <==> b.crashed || BadTurn(t);
    }
  }

  /** A line is decoded from the parts around its first slash. */
  lemma LineParts(a: Bytes, b: Bytes)
    requires SLASH !in a
    ensures LineId(a + [SLASH] + b) == DecodedPair(a, b)
  {
    SplitAtSlash(a, b);
  }

  lemma {:induction false} SplitAtSlash(a: Bytes, b: Bytes)
    requires SLASH !in a
    ensures SplitOnce(a + [SLASH] + b) == Some((a, b))
  {
    var s := a + [SLASH] + b;
    if a == [] {
      assert s[1..] == b;
    } else {
      assert s[1..] == a[1..] + [SLASH] + b;
      SplitAtSlash(a[1..], b);
      assert [a[0]] + a[1..] == a;
    }
  }

  /** After a panic nothing is sent any more, so what the batch then holds is lost: it is exactly what
      was fetched and never posted, whatever turns follow. */
  lemma CrashStrandsBatch(c: Settings, start: nat, turns: seq<Turn>, more: seq<Turn>)
    requires Run(c, start, turns).crashed
    ensures var b, end := Run(c, start, turns), Run(c, start, turns + more);
            end == b && Flatten(b.posted) + b.batch == b.fetched
  {
    assert (turns + more)[..|turns|] == turns;
    StaysCrashed(c, start, turns + more, |turns|);
    RunConserves(c, start, turns);
    hide Run, Flatten, FetchedOnce, WiresReadBack;
  }

  /** A list with a good line before a panicking one: its body has been fetched and never leaves. */
  lemma CrashLosesBody(c: Settings, start: nat, now: nat, id: Id, body: Bytes, more: seq<Turn>)
    requires |id.trace| == 16 && |id.span| == 8
    ensures var good := Line(Hex(id.trace) + [SLASH] + Hex(id.span), Body(body));
            var bad := Line(ACCENTED + [SLASH] + seq(16, _ => 0x61), NoContent);
            var b := Run(c, start, [Turn(Some([good, bad]), now, true)] + more);
            b.crashed && b.posted == [] && b.batch == [Entry(id, body)]
  {
    var good := Line(Hex(id.trace) + [SLASH] + Hex(id.span), Body(body));
    var bad := Line(ACCENTED + [SLASH] + seq(16, _ => 0x61), NoContent);
    NoSlash(id.trace);
    LineParts(Hex(id.trace), Hex(id.span));
    IdRoundTrip(id);
    LineParts(ACCENTED, seq(16, _ => 0x61));
    AccentPanics();
    hide LineId, Hex, ACCENTED;
    var first := [good];
    assert [good, bad][..1] == first && first[..0] == [];
    assert OnLines(Start(start), first) == OnLine(Start(start), good);
    var turn := Turn(Some([good, bad]), now, true);
    assert [turn][..0] == [];
    assert Run(c, start, [turn]) == OnTurn(Start(start), c, turn);
    assert ([turn] + more)[..1] == [turn];
    StaysCrashed(c, start, [turn] + more, 1);
  }

  lemma NoSlash(bytes: Bytes)
    ensures SLASH !in Hex(bytes)
  {
    HexAt(bytes);
    hide Hex;
    forall k | 0 <= k < |Hex(bytes)|
      ensures Hex(bytes)[k] != SLASH
    {
      var i := k / 2;
      assert k == 2 * i || k == 2 * i + 1;
      assert Hex(bytes)[2 * i] == HexDigit(bytes[i] / 16) && Hex(bytes)[2 * i + 1] == HexDigit(bytes[i] % 16);
    }
  }

  /** When the bridge should post, from the lists that arrived and the outcomes of the POSTs alone:
      how many bodies there are to post after each turn, how many have been posted, and when a flush
      was last due. */
  ghost function Total(turns: seq<Turn>): nat {
    |FirstBodies(Handled(Handed(turns)))|
  }

  ghost predicate Due(c: Settings, start: nat, turns: seq<Turn>)
    requires turns != []
    decreases |turns|, 1
  {
    var init, now := turns[..|turns| - 1], turns[|turns| - 1].now;
    var waiting := Total(turns) - Posted(c, start, init);
    waiting >= c.batchSize || (waiting > 0 && now >= LastDue(c, start, init) + c.flushEvery)
  }

  /** How many bodies the POSTs that succeeded have carried. */
  ghost function Posted(c: Settings, start: nat, turns: seq<Turn>): nat
    decreases |turns|, 2
  {
    if turns == [] then 0
    else if Due(c, start, turns) && turns[|turns| - 1].postOk then Total(turns)
    else Posted(c, start, turns[..|turns| - 1])
  }

  /** The time of the last turn in which a flush was due, or else of the start. */
  ghost function LastDue(c: Settings, start: nat, turns: seq<Turn>): nat
    decreases |turns|, 2
  {
    if turns == [] then start
    else if Due(c, start, turns) then turns[|turns| - 1].now
    else LastDue(c, start, turns[..|turns| - 1])
  }

  /** What is posted and when, in every run that has not crashed. */
  lemma {:induction false} PostsWhenDue(c: Settings, start: nat, turns: seq<Turn>)
    requires !Run(c, start, turns).crashed
    ensures var b := Run(c, start, turns);
            && Posted(c, start, turns) + |b.batch| == |b.fetched| == Total(turns)
            && b.lastFlush == LastDue(c, start, turns)
    ensures turns != [] ==>
              var before, b := Run(c, start, turns[..|turns| - 1]), Run(c, start, turns);
              && !before.crashed
              && (if Due(c, start, turns) && turns[|turns| - 1].postOk
                  then b.batch == [] else b.posted == before.posted && before.batch <= b.batch)
  {
    FetchedIsFirstListed(c, start, turns);
    if turns != [] {
      var init, t := turns[..|turns| - 1], turns[|turns| - 1];
      var before := Run(c, start, init);
      CrashIsFinal(before, c, t);
      PostsWhenDue(c, start, init);
      var more := if t.recent.Some? then t.recent.value else [];
      var p := OnLines(before, more);
      PollAddsToBatch(before, more);
      PollKeepsClock(before, more);
      TurnIs(before, c, t);
      hide Run, OnLines, OnTurn, FirstBodies, Handled, Handed, Listed;
    }
  }

  lemma TurnIs(b: Bridge, c: Settings, t: Turn)
    requires !b.crashed
    ensures var p := OnLines(b, if t.recent.Some? then t.recent.value else []);
            OnTurn(b, c, t) ==
              if p.crashed then p
              else if |p.batch| >= c.batchSize || (p.batch != [] && t.now >= b.lastFlush + c.flushEvery)
              then Flush(p, c.serviceName, t.postOk).(lastFlush := t.now) else p
  {
    hide Flush;
  }

  lemma CrashIsFinal(b: Bridge, c: Settings, t: Turn)
    ensures b.crashed ==> OnTurn(b, c, t).crashed
  {
    if b.crashed && t.recent.Some? {
      CrashedPoll(b, t.recent.value);
    }
  }

  /** A poll adds what it fetches to the batch, and posts nothing. */
  lemma {:induction false} PollAddsToBatch(b: Bridge, lines: seq<Line>)
    ensures var p := OnLines(b, lines);
            && p.posted == b.posted && b.batch <= p.batch
            && |p.fetched| - |b.fetched| == |p.batch| - |b.batch|
  {
    if lines != [] {
      PollAddsToBatch(b, lines[..|lines| - 1]);
      hide LineId;
    }
  }

  /** After a turn whose POST would succeed nothing waits that is due: the batch is empty, or it is below
      the batch size and the last flush is less than the interval ago. And only a turn in which a flush
      was due has posted anything. */
  lemma NothingDueWaits(c: Settings, start: nat, turns: seq<Turn>)
    requires turns != [] && !Run(c, start, turns).crashed
    ensures var b, before, t := Run(c, start, turns), Run(c, start, turns[..|turns| - 1]), turns[|turns| - 1];
            && (t.postOk ==> b.batch == [] ||
                             (|b.batch| < c.batchSize && t.now < LastDue(c, start, turns) + c.flushEvery))
            && (b.posted != before.posted ==> Due(c, start, turns) && t.postOk)
  {
    PostsWhenDue(c, start, turns);
    PostsWhenDue(c, start, turns[..|turns| - 1]);
    hide Run;
  }

  /** A POST that failed loses nothing and is tried again as soon as a flush is due again. */
  lemma FailedPostIsRetried(c: Settings, start: nat, turns: seq<Turn>, t: Turn)
    requires turns != [] && Due(c, start, turns) && !turns[|turns| - 1].postOk
    requires !Run(c, start, turns + [t]).crashed && t.postOk
    requires var waiting := Total(turns + [t]) - Posted(c, start, turns);
             waiting >= c.batchSize || (waiting > 0 && t.now >= turns[|turns| - 1].now + c.flushEvery)
    ensures Run(c, start, turns + [t]).batch == []
  {
    assert (turns + [t])[..|turns|] == turns;
    PostsWhenDue(c, start, turns + [t]);
    hide Run;
  }

  /** The bridge in place. */
  class Loop {
    var seen: set<Id>
    var batch: seq<Bytes>
    var lastFlush: nat
    var crashed: bool
    ghost var waiting: seq<Entry>
    ghost var fetched: seq<Entry>
    ghost var posted: seq<seq<Entry>>
    ghost var wires: seq<Bytes>

    ghost predicate Valid()
      reads this
    {
      batch == Bodies(waiting)
    }

    ghost function View(): Bridge
      reads this
    {
      Bridge(seen, waiting, lastFlush, crashed, fetched, posted, wires)
    }

    constructor (now: nat)
      ensures Valid() && View() == Start(now)
    {
      seen, batch, lastFlush, crashed := {}, [], now, false;
      waiting, fetched, posted, wires := [], [], [], [];
    }

    method Poll(lines: seq<Line>)
      requires Valid() && !crashed
      modifies this
      ensures Valid() && View() == OnLines(old(View()), lines)
    {
      hide OnLines, DecodedPair, Bodies;
      OnLinesStep(View(), lines, 0);
      for k := 0 to |lines|
        invariant Valid() && View() == OnLines(old(View()), lines[..k])
      {
        OnLinesStep(old(View()), lines, k + 1);
        if !crashed {
          var split := SplitOnce(lines[k].text);
          if split.Some? {
            var pair := DecodePair(split.value.0, split.value.1);
            match pair {
              case PairPanicked => crashed := true;
              case NoPair =>
              case APair(id) =>
                if id !in seen {
                  seen := seen + {id};
                  match lines[k].reply {
                    case Body(body) =>
                      OneBodyMore(waiting, Entry(id, body));
                      batch := batch + [body];
                      waiting := waiting + [Entry(id, body)];
                      fetched := fetched + [Entry(id, body)];
                    case _ =>
                  }
                }
            }
          }
        }
      }
      assert lines[..|lines|] == lines;
    }

    /** Empties the batch only after a successful POST; the bytes sent are the encoded batch. */
    method FlushBatch(serviceName: Bytes, postOk: bool) returns (sent: Option<Bytes>)
      requires Valid()
      modifies this
      ensures Valid() && View() == Flush(old(View()), serviceName, postOk)
      ensures sent == if old(batch) == [] then None else Some(Protobuf.ExportRequest(serviceName, old(batch)))
    {
      if batch == [] {
        return None;
      }
      var body := Protobuf.EncodeExportRequest(serviceName, batch);
      if postOk {
        wires := wires + [body];
        posted := posted + [waiting];
        batch, waiting := [], [];
      }
      return Some(body);
    }

    method TakeTurn(c: Settings, t: Turn)
      requires Valid() && !crashed
      modifies this
      ensures Valid() && View() == OnTurn(old(View()), c, t)
    {
      match t.recent {
        case Some(lines) => Poll(lines);
        case None =>
      }
      PollKeepsClock(old(View()), if t.recent.Some? then t.recent.value else []);
      if crashed {
        return;
      }
      if |batch| >= c.batchSize || (batch != [] && t.now >= lastFlush + c.flushEvery) {
        var _ := FlushBatch(c.serviceName, t.postOk);
        lastFlush := t.now;
      }
    }

    /** The main loop up to a shutdown, which flushes once more and ends. */
    method Serve(c: Settings, turns: seq<Turn>, lastPostOk: bool)
      requires Valid() && !crashed && View() == Start(lastFlush)
      modifies this
      ensures Valid()
      ensures var end := Run(c, old(lastFlush), turns);
              View() == if end.crashed then end else Flush(end, c.serviceName, lastPostOk)
    {
      hide OnTurn, Flush;
      for k := 0 to |turns|
        invariant Valid() && !crashed && View() == Run(c, old(lastFlush), turns[..k])
      {
        assert turns[..k + 1][..k] == turns[..k];
        TakeTurn(c, turns[k]);
        if crashed {
          StaysCrashed(c, old(lastFlush), turns, k + 1);
          return;
        }
      }
      assert turns[..|turns|] == turns;
      var _ := FlushBatch(c.serviceName, lastPostOk);
    }
  }

  lemma OnLinesStep(b: Bridge, lines: seq<Line>, k: nat)
    requires k <= |lines|
    ensures OnLines(b, lines[..k]) == if k == 0 then b else OnLine(OnLines(b, lines[..k - 1]), lines[k - 1])
  {
    hide OnLine;
    assert k > 0 ==> lines[..k][..k - 1] == lines[..k - 1];
  }

  lemma OneBodyMore(entries: seq<Entry>, entry: Entry)
    ensures Bodies(entries + [entry]) == Bodies(entries) + [entry.body]
  {
  }

  lemma {:induction false} CrashedPoll(b: Bridge, lines: seq<Line>)
    requires b.crashed
    ensures OnLines(b, lines) == b
  {
    if lines != [] {
      CrashedPoll(b, lines[..|lines| - 1]);
    }
  }

  lemma {:induction false} StaysCrashed(c: Settings, start: nat, turns: seq<Turn>, k: nat)
    requires k <= |turns| && Run(c, start, turns[..k]).crashed
    ensures Run(c, start, turns) == Run(c, start, turns[..k])
  {
    if k == |turns| {
      assert turns[..k] == turns;
    } else {
      var init, t := turns[..|turns| - 1], turns[|turns| - 1];
      assert init[..k] == turns[..k];
      StaysCrashed(c, start, init, k);
      if t.recent.Some? {
        CrashedPoll(Run(c, start, init), t.recent.value);
      }
    }
  }

  lemma {:induction false} PollKeepsClock(b: Bridge, lines: seq<Line>)
    ensures OnLines(b, lines).lastFlush == b.lastFlush
  {
    if lines != [] {
      PollKeepsClock(b, lines[..|lines| - 1]);
    }
  }
}
