/** Runs of scripts that use ports below 16 and cannot fill the queue: no request ever leaves a port busy for good. */
module EventRoom {
  import opened EventModel
  import opened EventProperties
  import opened EventRuns
  import opened Memory

  /** Ports that a call and its callbacks may ask card information for, all below 16. */
  predicate CallPorts(c: Call)
    decreases CallSize(c), 1
  {
    match c
    case DeliverEvent(_, _, callbacks) => ScriptsPorts(callbacks)
    case DeliverAsyncEvent(batches) => BatchesPorts(batches)
    case CardInfo(channel, _, _) => PortOf(channel) < 16
    case _ => true
  }

  predicate ScriptPorts(s: Script)
    decreases ScriptSize(s), 0
  {
    match s
    case Done => true
    case Do(call, rest) => CallPorts(call) && ScriptPorts(rest)
  }

  predicate ScriptsPorts(s: Scripts)
    decreases ScriptsSize(s), 0
  {
    match s
    case NoScripts => true
    case Callback(first, rest) => ScriptPorts(first) && ScriptsPorts(rest)
  }

  predicate BatchesPorts(b: Batches)
    decreases BatchesSize(b), 0
  {
    match b
    case NoBatches => true
    case Batch(first, rest) => ScriptsPorts(first) && BatchesPorts(rest)
  }

  /** Entries that a call and its callbacks may add to the queue. */
  function CallPosts(c: Call): nat
    decreases CallSize(c), 1
  {
    match c
    case DeliverEvent(_, _, callbacks) => ScriptsPosts(callbacks)
    case DeliverAsyncEvent(batches) => BatchesPosts(batches)
    case PostAsyncEvent(_, _, _, _) => 1
    case CardInfo(_, _, _) => 2
    case _ => 0
  }

  function ScriptPosts(s: Script): nat
    decreases ScriptSize(s), 0
  {
    match s
    case Done => 0
    case Do(call, rest) => CallPosts(call) + ScriptPosts(rest)
  }

  function ScriptsPosts(s: Scripts): nat
    decreases ScriptsSize(s), 0
  {
    match s
    case NoScripts => 0
    case Callback(first, rest) => ScriptPosts(first) + ScriptsPosts(rest)
  }

  function BatchesPosts(b: Batches): nat
    decreases BatchesSize(b), 0
  {
    match b
    case NoBatches => 0
    case Batch(first, rest) => ScriptsPosts(first) + BatchesPosts(rest)
  }

  /** The run from st to r queued at most n entries, and every request in it queued an event that clears its bit. */
  ghost predicate Roomed(st: State, r: State, n: nat) {
    Traced(st, r) && Roomy(Since(st, r)) && |r.core.queue| <= |st.core.queue| + n
  }

  lemma RoomedNow(st: State, n: nat)
    ensures Roomed(st, st, n)
  {
    TracedNow(st);
  }

  lemma RoomedStep(st: State, c: Core, e: Entry, n: nat)
    requires Allowed(st.core, e) && c == Applied(st.core, e) && |c.queue| <= |st.core.queue| + n
    requires e.Registers? ==> Clears(e.infos, e.port)
    ensures Roomed(st, st.With(c, e), n)
  {
    TracedStep(st, c, e);
  }

  lemma RoomedThen(st: State, m: State, r: State, a: nat, b: nat)
    requires Roomed(st, m, a) && Roomed(m, r, b)
    ensures Roomed(st, r, a + b)
  {
    TracedThen(st, m, r);
    hide Traced, Clears;
    var es, fs := Since(st, m), Since(m, r);
    assert forall k :: 0 <= k < |es + fs| ==> (es + fs)[k] == if k < |es| then es[k] else fs[k - |es|];
    hide Since;
  }

  /** Room for n more entries. */
  ghost predicate Room(st: State, n: nat) {
    |st.core.queue| + n <= QUEUE_SIZE
  }

  lemma {:induction false} ScriptRoomed(st: State, depth: nat, s: Script)
    requires Room(st, ScriptPosts(s)) && ScriptPorts(s)
    ensures Roomed(st, RunScript(st, depth, s), ScriptPosts(s))
    decreases ScriptSize(s), 0, 0
  {
    match s
    case Done => RoomedNow(st, 0);
    case Do(call, rest) =>
      var m := RunCall(st, depth, call);
      CallRoomed(st, depth, call);
      assert |m.core.queue| <= |st.core.queue| + CallPosts(call);
      hide Roomed;
      ScriptRoomed(m, depth, rest);
      RoomedThen(st, m, RunScript(st, depth, s), CallPosts(call), ScriptPosts(rest));
  }

  lemma {:induction false} CallRoomed(st: State, depth: nat, c: Call)
    requires Room(st, CallPosts(c)) && CallPorts(c)
    ensures Roomed(st, RunCall(st, depth, c), CallPosts(c))
    decreases CallSize(c), 3, 0
  {
    match c
    case DeliverEvent(ev, spec, callbacks) => DeliverAllRoomed(st, depth, ev, spec, callbacks);
    case DeliverAsyncEvent(batches) => DrainedRoomed(st, depth, batches);
    case UnDeliverEvent(ev, spec) => UnDeliveredRoomed(st, ev, spec, 0);
    case CardInfo(channel, enabled0, enabled1) => CardRoomed(st, channel, enabled0, enabled1);
    case _ => PlainRoomed(st, depth, c);
  }

  lemma PlainRoomed(st: State, depth: nat, c: Call)
    requires Room(st, CallPosts(c))
    requires !c.DeliverEvent? && !c.DeliverAsyncEvent? && !c.UnDeliverEvent? && !c.CardInfo?
    ensures Roomed(st, RunCall(st, depth, c), CallPosts(c))
  {
    CallTraced(st, depth, c);
  }

  lemma CardRoomed(st: State, channel: Channel, enabled0: bool, enabled1: bool)
    requires Room(st, 2) && PortOf(channel) < 16
    ensures Roomed(st, CardRegistered(st, channel, enabled0, enabled1), 2)
  {
    var p := PortOf(channel);
    RoomedNow(st, 2);
    if p !in st.core.busy {
      var infos := CardInfos(QUEUE_SIZE - |st.core.queue|, p, enabled0, enabled1);
      assert infos[0].port == p;
      RoomedStep(st, Applied(st.core, Registers(p, infos)), Registers(p, infos), 2);
    }
  }

  lemma {:induction false} UnDeliveredRoomed(st: State, ev: Word, spec: Word, i: nat)
    ensures Roomed(st, UnDelivered(st, ev, spec, i), 0)
    decreases |st.core.evcb| - i
  {
    RoomedNow(st, 0);
    if i < |st.core.evcb| {
      var b := st.core.evcb[i];
      if b.status == Delivered && b.ev == ev && b.spec == spec && b.mode == MODE_NO_CALLBACK {
        var c := Applied(st.core, Retracts(i));
        RoomedStep(st, c, Retracts(i), 0);
        hide Roomed;
        UnDeliveredRoomed(st.With(c, Retracts(i)), ev, spec, i + 1);
        RoomedThen(st, st.With(c, Retracts(i)), UnDelivered(st, ev, spec, i), 0, 0);
      } else {
        UnDeliveredRoomed(st, ev, spec, i + 1);
      }
    }
  }

  lemma {:induction false} DeliverAllRoomed(st: State, depth: nat, ev: Word, spec: Word, callbacks: Scripts)
    requires Room(st, ScriptsPosts(callbacks)) && ScriptsPorts(callbacks)
    ensures Roomed(st, DeliverAll(st, depth, ev, spec, callbacks), ScriptsPosts(callbacks))
    decreases ScriptsSize(callbacks), 2, 0
  {
    hide Roomed;
    var m := st.With(st.core, Delivers(depth, ev, spec));
    RoomedStep(st, st.core, Delivers(depth, ev, spec), 0);
    DeliverFromRoomed(m, depth, 0, ev, spec, callbacks);
    RoomedThen(st, m, DeliverAll(st, depth, ev, spec, callbacks), 0, ScriptsPosts(callbacks));
  }

  lemma {:induction false} DeliverFromRoomed(st: State, depth: nat, i: nat, ev: Word, spec: Word, callbacks: Scripts)
    requires Room(st, ScriptsPosts(callbacks)) && ScriptsPorts(callbacks)
    ensures Roomed(st, DeliverFrom(st, depth, i, ev, spec, callbacks), ScriptsPosts(callbacks))
    decreases ScriptsSize(callbacks), 1, |st.core.evcb| - i
  {
    hide Roomed;
    var r, n := DeliverFrom(st, depth, i, ev, spec, callbacks), ScriptsPosts(callbacks);
    RoomedNow(st, n);
    if i < |st.core.evcb| {
      var b := st.core.evcb[i];
      if Matches(b, ev, spec) {
        if b.mode == MODE_CALLBACK {
          var called := st.With(st.core, Calls(i, ev, spec));
          RoomedStep(st, st.core, Calls(i, ev, spec), 0);
          match callbacks {
            case NoScripts =>
              DeliverFromRoomed(called, depth, i + 1, ev, spec, NoScripts);
              RoomedThen(st, called, r, 0, n);
            case Callback(first, rest) =>
              var m := RunScript(called, depth + 1, first);
              ScriptRoomed(called, depth + 1, first);
              RoomedThen(st, called, m, 0, ScriptPosts(first));
              RoomedQueue(st, m, ScriptPosts(first));
              DeliverFromRoomed(m, depth, i + 1, ev, spec, rest);
              RoomedThen(st, m, r, ScriptPosts(first), ScriptsPosts(rest));
          }
        } else {
          var c := Applied(st.core, Flips(i, ev, spec));
          RoomedStep(st, c, Flips(i, ev, spec), 0);
          DeliverFromRoomed(st.With(c, Flips(i, ev, spec)), depth, i + 1, ev, spec, callbacks);
          RoomedThen(st, st.With(c, Flips(i, ev, spec)), r, 0, n);
        }
      } else {
        DeliverFromRoomed(st, depth, i + 1, ev, spec, callbacks);
      }
    }
  }

  lemma RoomedQueue(st: State, r: State, n: nat)
    requires Roomed(st, r, n)
    ensures |r.core.queue| <= |st.core.queue| + n
  {
  }

  lemma {:induction false} DrainedRoomed(st: State, depth: nat, batches: Batches)
    requires Room(st, BatchesPosts(batches)) && BatchesPorts(batches)
    ensures Roomed(st, Drained(st, depth, batches), BatchesPosts(batches))
    decreases BatchesSize(batches), 5, 0
  {
    hide Roomed;
    RoomedNow(st, BatchesPosts(batches));
    if st.core.queue != [] {
      var infos := st.core.queue;
      var c := Applied(st.core, Drains(infos));
      RoomedStep(st, c, Drains(infos), 0);
      DrainFromRoomed(st.With(c, Drains(infos)), depth, Deliveries(infos), batches);
      RoomedThen(st, st.With(c, Drains(infos)), Drained(st, depth, batches), 0, BatchesPosts(batches));
    }
  }

  lemma {:induction false} DrainFromRoomed(st: State, depth: nat, due: seq<(Word, Half)>, batches: Batches)
    requires Room(st, BatchesPosts(batches)) && BatchesPorts(batches)
    ensures Roomed(st, DrainFrom(st, depth, due, batches), BatchesPosts(batches))
    decreases BatchesSize(batches), 4, |due|
  {
    hide Roomed;
    RoomedNow(st, BatchesPosts(batches));
    if due != [] {
      var callbacks := match batches case NoBatches => NoScripts case Batch(first, _) => first;
      var rest := match batches case NoBatches => NoBatches case Batch(_, rest) => rest;
      var m := DeliverAll(st, depth + 1, due[0].0, due[0].1, callbacks);
      DeliverAllRoomed(st, depth + 1, due[0].0, due[0].1, callbacks);
      RoomedQueue(st, m, ScriptsPosts(callbacks));
      DrainFromRoomed(m, depth, due[1..], rest);
      RoomedThen(st, m, DrainFrom(st, depth, due, batches), ScriptsPosts(callbacks), BatchesPosts(rest));
    }
  }

  /** Over every run of a script that asks for ports below 16 and that the queue has room for, callbacks included: at
      every point the next drain would make all ports idle, and every drain does before its first delivery. */
  lemma ScriptFreesPorts(st: State, depth: nat, s: Script, k: nat)
    requires Room(st, ScriptPosts(s)) && ScriptPorts(s) && Backed(st.core)
    ensures var r := RunScript(st, depth, s);
            var es := Since(st, r);
            && Chain(st.core, es, r.core)
            && (k <= |es| ==> Backed(After(st.core, es, k, r.core)))
            && (k < |es| && es[k].Drains? ==> After(st.core, es, k + 1, r.core).busy == {})
  {
    ScriptRoomed(st, depth, s);
    var r := RunScript(st, depth, s);
    if k <= |Since(st, r)| {
      BusyPortsBacked(st.core, Since(st, r), k, r.core);
    }
  }
}
