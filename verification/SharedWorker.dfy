/** The SharedWorker bootstrap: ports that connect early are buffered, then drained, then forwarded live. */
module SharedWorker {
  import opened Prelude

  type Port = nat

  /** What the event loop may run. Between two events nothing else runs: the drain, the clearing of
      the buffer and the new handler are one event, the continuation after `worker_main`. */
  datatype Event =
    | Connect(port: Option<Port>)
    | WasmReady(ok: bool)
    | WorkerMainDone(ok: bool, throwsAt: Option<nat>)

  datatype Phase = LoadingWasm | InWorkerMain | Live | Failed

  /** `passed` are the ports handed to `accept_port_from_js`; `forwarding` tells the two handlers apart. */
  datatype Worker = Worker(phase: Phase, pending: seq<Port>, passed: seq<Port>, forwarding: bool)

  const START := Worker(LoadingWasm, [], [], false)

  /** The number of calls a drain makes before one of them throws. */
  function Calls(pending: seq<Port>, throwsAt: Option<nat>): (n: nat)
    ensures n <= |pending|
  {
    if throwsAt.Some? && throwsAt.value < |pending| then throwsAt.value + 1 else |pending|
  }

  function OnEvent(w: Worker, e: Event): Worker {
    match e
    case Connect(None) => w
    case Connect(Some(port)) =>
      if w.forwarding then w.(passed := w.passed + [port]) else w.(pending := w.pending + [port])
    case WasmReady(ok) =>
      if w.phase != LoadingWasm then w else w.(phase := if ok then InWorkerMain else Failed)
    case WorkerMainDone(ok, throwsAt) =>
      if w.phase != InWorkerMain then w
      else if !ok then w.(phase := Failed)
      else
        var d := w.(passed := w.passed + w.pending[..Calls(w.pending, throwsAt)]);
        if throwsAt.Some? && throwsAt.value < |w.pending| then d.(phase := Failed)
        else Worker(Live, [], d.passed, true)
  }

  function Run(es: seq<Event>): Worker {
    if es == [] then START else OnEvent(Run(es[..|es| - 1]), es[|es| - 1])
  }

  function Connected(es: seq<Event>): seq<Port> {
    if es == [] then []
    else
      var before, e := Connected(es[..|es| - 1]), es[|es| - 1];
      if e.Connect? && e.port.Some? then before + [e.port.value] else before
  }

  /** The worker's globals, updated by the handlers in place. */
  class WorkerScope {
    var phase: Phase
    var pendingPorts: seq<Port>
    var forwarding: bool
    ghost var passed: seq<Port>

    ghost function View(): Worker
      reads this
    {
      Worker(phase, pendingPorts, passed, forwarding)
    }

    constructor ()
      ensures View() == START
    {
      phase, pendingPorts, forwarding, passed := LoadingWasm, [], false, [];
    }

    method AcceptPort(port: Port)
      modifies this`passed
      ensures passed == old(passed) + [port]
    {
      passed := passed + [port];
    }

    method OnConnect(port: Option<Port>)
      modifies this
      ensures View() == OnEvent(old(View()), Connect(port))
    {
      if port.Some? {
        if forwarding {
          AcceptPort(port.value);
        } else {
          pendingPorts := pendingPorts + [port.value];
        }
      }
    }

    method OnWasmReady(ok: bool)
      requires phase == LoadingWasm
      modifies this
      ensures View() == OnEvent(old(View()), WasmReady(ok))
    {
      phase := if ok then InWorkerMain else Failed;
    }

    /** The continuation after `worker_main`; a call in the drain may throw, which ends it there. */
    method OnWorkerMainDone(ok: bool, throwsAt: Option<nat>)
      requires phase == InWorkerMain
      modifies this
      ensures View() == OnEvent(old(View()), WorkerMainDone(ok, throwsAt))
    {
      if !ok {
        phase := Failed;
        return;
      }
      for k := 0 to |pendingPorts|
        invariant pendingPorts == old(pendingPorts)
        invariant View() == old(View()).(passed := old(passed) + pendingPorts[..k])
        invariant throwsAt.Some? ==> k <= throwsAt.value
      {
        assert pendingPorts[..k + 1] == pendingPorts[..k] + [pendingPorts[k]];
        AcceptPort(pendingPorts[k]);
        if throwsAt == Some(k) {
          phase := Failed;
          return;
        }
      }
      pendingPorts := [];
      forwarding := true;
      phase := Live;
    }
  }

  /** Where the connected ports are in each phase. */
  ghost predicate Placed(w: Worker, connected: seq<Port>) {
    && (w.forwarding <==> w.phase == Live)
    && match w.phase
       case LoadingWasm | InWorkerMain => w.passed == [] && w.pending == connected
       case Live => w.passed == connected && w.pending == []
       case Failed => w.pending == connected && w.passed <= connected
  }

  lemma {:induction false} RunPlaces(es: seq<Event>)
    ensures Placed(Run(es), Connected(es))
  {
    if es != [] {
      RunPlaces(es[..|es| - 1]);
    }
  }

  /** In every interleaving the bootstrap that went live has passed on exactly the connected ports,
      in connection order, each once; and at no time is a port passed on twice or out of order. */
  lemma EachPortOnce(es: seq<Event>)
    requires NoRepeats(Connected(es))
    ensures Run(es).phase == Live ==> Run(es).passed == Connected(es) && Run(es).pending == []
    ensures Run(es).passed <= Connected(es) && NoRepeats(Run(es).passed)
  {
    RunPlaces(es);
    var passed, connected := Run(es).passed, Connected(es);
    hide Run, Connected, NoRepeats;
    assert passed == connected[..|passed|];
    PrefixNoRepeats(connected, |passed|);
  }

  lemma {:induction false} PrefixNoRepeats<T>(s: seq<T>, n: nat)
    requires NoRepeats(s) && n <= |s|
    ensures NoRepeats(s[..n])
  {
    if n < |s| {
      PrefixNoRepeats(s[..|s| - 1], n);
      assert s[..|s| - 1][..n] == s[..n];
    } else {
      assert s[..n] == s;
    }
  }

  ghost predicate MainReturned(es: seq<Event>, i: nat, j: nat) {
    i < j < |es| && es[i] == WasmReady(true) && es[j].WorkerMainDone? && es[j].ok
  }

  /** No port is passed on before `worker_main` has returned. */
  lemma {:induction false} NeverEarly(es: seq<Event>)
    ensures Run(es).phase == InWorkerMain ==> exists i: nat :: i < |es| && es[i] == WasmReady(true)
    ensures Run(es).passed != [] || Run(es).phase == Live ==> exists i: nat, j: nat :: MainReturned(es, i, j)
  {
    if es != [] {
      var n := |es| - 1;
      var w, e := Run(es[..n]), es[n];
      NeverEarly(es[..n]);
      RunPlaces(es[..n]);
      if i: nat, j: nat :| MainReturned(es[..n], i, j) {
        assert MainReturned(es, i, j);
      } else if w.phase == InWorkerMain {
        var i: nat :| i < n && es[..n][i] == WasmReady(true);
        assert es[i] == WasmReady(true);
        if e.WorkerMainDone? && e.ok {
          assert MainReturned(es, i, n);
        }
      }
    }
  }

  /** Once live, a worker stays live; once failed, it buffers for ever. */
  lemma {:induction false} Final(es: seq<Event>, more: seq<Event>)
    ensures Run(es).phase in {Live, Failed} ==> Run(es + more).phase == Run(es).phase
  {
    if more == [] {
      assert es + more == es;
    } else {
      var n := |more| - 1;
      Final(es, more[..n]);
      assert (es + more)[..|es + more| - 1] == es + more[..n];
    }
  }

  predicate OnlyConnects(es: seq<Event>) {
    forall k :: 0 <= k < |es| ==> es[k].Connect?
  }

  lemma {:induction false} ConnectsKeepPhase(es: seq<Event>, more: seq<Event>)
    requires OnlyConnects(more)
    ensures Run(es + more).phase == Run(es).phase
  {
    if more == [] {
      assert es + more == es;
    } else {
      var n := |more| - 1;
      ConnectsKeepPhase(es, more[..n]);
      assert (es + more)[..|es + more| - 1] == es + more[..n];
    }
  }

  lemma RunLast(es: seq<Event>, e: Event)
    ensures Run(es + [e]) == OnEvent(Run(es), e)
  {
    assert (es + [e])[..|es|] == es;
  }

  /** However connect events fall around the steps of a bootstrap that completes, every port
      connected before, between or after them is passed on exactly once, in order. */
  lemma CompletedBootstrapDelivers(early: seq<Event>, during: seq<Event>, late: seq<Event>)
    requires OnlyConnects(early) && OnlyConnects(during)
    ensures var es := early + [WasmReady(true)] + during + [WorkerMainDone(true, None)] + late;
            Run(es).phase == Live && Run(es).passed == Connected(es) && Run(es).pending == []
  {
    ConnectsKeepPhase([], early);
    assert [] + early == early;
    RunLast(early, WasmReady(true));
    var loaded := early + [WasmReady(true)];
    ConnectsKeepPhase(loaded, during);
    RunLast(loaded + during, WorkerMainDone(true, None));
    var returned := loaded + during + [WorkerMainDone(true, None)];
    Final(returned, late);
    RunPlaces(returned + late);
  }

  /** A drain passes on all buffered ports, or those up to and including the call that throws. */
  lemma DrainPasses(w: Worker, throwsAt: Option<nat>)
    requires w.phase == InWorkerMain
    ensures var t := OnEvent(w, WorkerMainDone(true, throwsAt));
            if throwsAt.Some? && throwsAt.value < |w.pending|
            then t.phase == Failed && t.passed == w.passed + w.pending[..throwsAt.value + 1] && t.pending == w.pending
            else t.phase == Live && t.passed == w.passed + w.pending && t.pending == []
  {
    assert w.pending[..|w.pending|] == w.pending;
  }
}
