/** Every run of event calls, callbacks in the middle of deliveries included, is a chain of elementary steps. */
module EventRuns {
  import opened EventModel
  import opened Memory

  lemma {:induction false} ChainConcat(c: Core, es: seq<Entry>, m: Core, fs: seq<Entry>, d: Core)
    requires Chain(c, es, m) && Chain(m, fs, d)
    ensures Chain(c, es + fs, d)
    decreases |es|
  {
    if es == [] {
      assert es + fs == fs;
    } else {
      assert (es + fs)[1..] == es[1..] + fs;
      ChainConcat(Applied(c, es[0]), es[1..], m, fs, d);
    }
  }

  /** What the run from st to r added to the log. */
  ghost function Since(st: State, r: State): seq<Entry> {
    if |st.log| <= |r.log| then r.log[|st.log|..] else []
  }

  /** r is reached from st by the steps that were logged, each allowed where it was taken. */
  ghost predicate Traced(st: State, r: State) {
    st.log + Since(st, r) == r.log && Chain(st.core, Since(st, r), r.core)
  }

  lemma TracedNow(st: State)
    ensures Traced(st, st)
  {
  }

  lemma TracedStep(st: State, c: Core, e: Entry)
    requires Allowed(st.core, e) && c == Applied(st.core, e)
    ensures Traced(st, st.With(c, e)) && Since(st, st.With(c, e)) == [e]
  {
  }

  lemma TracedThen(st: State, m: State, r: State)
    requires Traced(st, m) && Traced(m, r)
    ensures Traced(st, r) && Since(st, r) == Since(st, m) + Since(m, r)
  {
    assert Since(st, r) == Since(st, m) + Since(m, r);
    ChainConcat(st.core, Since(st, m), m.core, Since(m, r), r.core);
  }

  // ----- the calls -----

  lemma OpenedTraced(st: State, ev: Word, spec: Word, mode: Word, func: Word)
    ensures Traced(st, Opened(st, ev, spec, mode, func))
  {
  }

  lemma StatusSetTraced(st: State, handle: Word, status: Status)
    requires status != Delivered
    ensures Traced(st, StatusSet(st, handle, status))
  {
  }

  lemma TestedTraced(st: State, handle: Word)
    ensures Traced(st, Tested(st, handle))
  {
  }

  lemma {:induction false} UnDeliveredTraced(st: State, ev: Word, spec: Word, i: nat)
    ensures Traced(st, UnDelivered(st, ev, spec, i))
    decreases |st.core.evcb| - i
  {
    TracedNow(st);
    if i < |st.core.evcb| {
      var b := st.core.evcb[i];
      if b.status == Delivered && b.ev == ev && b.spec == spec && b.mode == MODE_NO_CALLBACK {
        var c := Applied(st.core, Retracts(i));
        TracedStep(st, c, Retracts(i));
        UnDeliveredTraced(st.With(c, Retracts(i)), ev, spec, i + 1);
        TracedThen(st, st.With(c, Retracts(i)), UnDelivered(st, ev, spec, i));
      } else {
        UnDeliveredTraced(st, ev, spec, i + 1);
      }
    }
  }

  lemma PostedTraced(st: State, ev: Word, spec: Half, port: Half, repeat: Repeat)
    ensures Traced(st, Posted(st, ev, spec, port, repeat))
  {
  }

  lemma CardRegisteredTraced(st: State, channel: Channel, enabled0: bool, enabled1: bool)
    ensures Traced(st, CardRegistered(st, channel, enabled0, enabled1)) || |st.core.queue| > QUEUE_SIZE
  {
    var p := PortOf(channel);
    TracedNow(st);
    if p !in st.core.busy && |st.core.queue| <= QUEUE_SIZE {
      var infos := CardInfos(QUEUE_SIZE - |st.core.queue|, p, enabled0, enabled1);
      TracedStep(st, Applied(st.core, Registers(p, infos)), Registers(p, infos));
    }
  }

  // ----- scripts -----

  /** The queue is never longer than its array. */
  ghost predicate Bounded(st: State) {
    |st.core.queue| <= QUEUE_SIZE
  }

  lemma {:induction false} ChainBounded(c: Core, es: seq<Entry>, d: Core)
    requires Chain(c, es, d) && |c.queue| <= QUEUE_SIZE
    ensures |d.queue| <= QUEUE_SIZE && |d.evcb| == |c.evcb|
    decreases |es|
  {
    if es != [] {
      ChainBounded(Applied(c, es[0]), es[1..], d);
    }
  }

  lemma TracedBounded(st: State, r: State)
    requires Traced(st, r) && Bounded(st)
    ensures Bounded(r)
  {
    ChainBounded(st.core, Since(st, r), r.core);
  }

  /** Every run of a script, however its callbacks are nested, is a chain of allowed steps, all logged. */
  lemma {:induction false} RunTraced(st: State, depth: nat, s: Script)
    requires Bounded(st)
    ensures Traced(st, RunScript(st, depth, s))
    decreases ScriptSize(s), 0, 0
  {
    match s
    case Done => TracedNow(st);
    case Do(call, rest) =>
      var m := RunCall(st, depth, call);
      CallTraced(st, depth, call);
      TracedBounded(st, m);
      RunTraced(m, depth, rest);
      TracedThen(st, m, RunScript(st, depth, s));
  }

  lemma {:induction false} CallTraced(st: State, depth: nat, c: Call)
    requires Bounded(st)
    ensures Traced(st, RunCall(st, depth, c))
    decreases CallSize(c), 3, 0
  {
    match c
    case DeliverEvent(ev, spec, callbacks) => DeliverAllTraced(st, depth, ev, spec, callbacks);
    case OpenEvent(ev, spec, mode, func) => OpenedTraced(st, ev, spec, mode, func);
    case CloseEvent(handle) => StatusSetTraced(st, handle, Free);
    case EnableEvent(handle) => StatusSetTraced(st, handle, Enabled);
    case DisableEvent(handle) => StatusSetTraced(st, handle, Disabled);
    case WaitEvent(handle) => TestedTraced(st, handle);
    case TestEvent(handle) => TestedTraced(st, handle);
    case UnDeliverEvent(ev, spec) => UnDeliveredTraced(st, ev, spec, 0);
    case PostAsyncEvent(ev, spec, port, repeat) => PostedTraced(st, ev, spec, port, repeat);
    case CardInfo(channel, enabled0, enabled1) => CardRegisteredTraced(st, channel, enabled0, enabled1);
    case DeliverAsyncEvent(batches) => DrainedTraced(st, depth, batches);
  }

  lemma {:induction false} DeliverAllTraced(st: State, depth: nat, ev: Word, spec: Word, callbacks: Scripts)
    requires Bounded(st)
    ensures Traced(st, DeliverAll(st, depth, ev, spec, callbacks))
    decreases ScriptsSize(callbacks), 2, 0
  {
    var m := st.With(st.core, Delivers(depth, ev, spec));
    TracedStep(st, st.core, Delivers(depth, ev, spec));
    DeliverFromTraced(m, depth, 0, ev, spec, callbacks);
    TracedThen(st, m, DeliverAll(st, depth, ev, spec, callbacks));
  }

  lemma {:induction false} DeliverFromTraced(st: State, depth: nat, i: nat, ev: Word, spec: Word, callbacks: Scripts)
    requires Bounded(st)
    ensures Traced(st, DeliverFrom(st, depth, i, ev, spec, callbacks))
    decreases ScriptsSize(callbacks), 1, |st.core.evcb| - i
  {
    hide Traced;
    var r := DeliverFrom(st, depth, i, ev, spec, callbacks);
    TracedNow(st);
    if i < |st.core.evcb| {
      var b := st.core.evcb[i];
      if b.status == Enabled && b.ev == ev && b.spec == spec {
        if b.mode == MODE_CALLBACK {
          var called := st.With(st.core, Calls(i, ev, spec));
          TracedStep(st, st.core, Calls(i, ev, spec));
          match callbacks {
            case NoScripts =>
              DeliverFromTraced(called, depth, i + 1, ev, spec, NoScripts);
              TracedThen(st, called, r);
            case Callback(first, rest) =>
              var m := RunScript(called, depth + 1, first);
              RunTraced(called, depth + 1, first);
              TracedThen(st, called, m);
              TracedBounded(called, m);
              DeliverFromTraced(m, depth, i + 1, ev, spec, rest);
              TracedThen(st, m, r);
          }
        } else {
          var c := Applied(st.core, Flips(i, ev, spec));
          TracedStep(st, c, Flips(i, ev, spec));
          DeliverFromTraced(st.With(c, Flips(i, ev, spec)), depth, i + 1, ev, spec, callbacks);
          TracedThen(st, st.With(c, Flips(i, ev, spec)), r);
        }
      } else {
        DeliverFromTraced(st, depth, i + 1, ev, spec, callbacks);
      }
    }
  }

  lemma {:induction false} DrainedTraced(st: State, depth: nat, batches: Batches)
    requires Bounded(st)
    ensures Traced(st, Drained(st, depth, batches))
    decreases BatchesSize(batches), 5, 0
  {
    TracedNow(st);
    if st.core.queue != [] {
      var infos := st.core.queue;
      var c := Applied(st.core, Drains(infos));
      TracedStep(st, c, Drains(infos));
      DrainFromTraced(st.With(c, Drains(infos)), depth, Deliveries(infos), batches);
      TracedThen(st, st.With(c, Drains(infos)), Drained(st, depth, batches));
    }
  }

  lemma {:induction false} DrainFromTraced(st: State, depth: nat, due: seq<(Word, Half)>, batches: Batches)
    requires Bounded(st)
    ensures Traced(st, DrainFrom(st, depth, due, batches))
    decreases BatchesSize(batches), 4, |due|
  {
    hide Traced;
    TracedNow(st);
    if due != [] {
      var callbacks := match batches case NoBatches => NoScripts case Batch(first, _) => first;
      var rest := match batches case NoBatches => NoBatches case Batch(_, rest) => rest;
      var m := DeliverAll(st, depth + 1, due[0].0, due[0].1, callbacks);
      DeliverAllTraced(st, depth + 1, due[0].0, due[0].1, callbacks);
      TracedBounded(st, m);
      DrainFromTraced(m, depth, due[1..], rest);
      TracedThen(st, m, DrainFrom(st, depth, due, batches));
    }
  }
}
