/** What the event calls do, said of the log and the table they leave and not of how they are carried out. */
module EventLaws {
  import opened EventModel
  import opened EventProperties
  import opened EventRuns
  import opened Memory

  // ----- a run depends on the table, the queue and the busy bits only -----

  /** The runs from a to ra and from b to rb do the same. */
  ghost predicate Alike(a: State, ra: State, b: State, rb: State) {
    Traced(a, ra) && Traced(b, rb) && ra.core == rb.core && Since(a, ra) == Since(b, rb)
  }

  lemma AlikeNow(a: State, b: State)
    requires a.core == b.core
    ensures Alike(a, a, b, b)
  {
  }

  lemma AlikeStep(a: State, b: State, c: Core, e: Entry)
    requires a.core == b.core && Allowed(a.core, e) && c == Applied(a.core, e)
    ensures Alike(a, a.With(c, e), b, b.With(c, e))
  {
    TracedStep(a, c, e);
    TracedStep(b, c, e);
  }

  lemma AlikeThen(a: State, ma: State, ra: State, b: State, mb: State, rb: State)
    requires Alike(a, ma, b, mb) && Alike(ma, ra, mb, rb)
    ensures Alike(a, ra, b, rb)
  {
    TracedThen(a, ma, ra);
    TracedThen(b, mb, rb);
  }

  lemma AlikeBounded(a: State, ra: State, b: State, rb: State)
    requires Alike(a, ra, b, rb) && Bounded(a)
    ensures Bounded(ra) && ra.core == rb.core
  {
    TracedBounded(a, ra);
  }

  /** What a script does does not depend on what was logged before. */
  lemma {:induction false} ScriptAlike(a: State, b: State, depth: nat, s: Script)
    requires a.core == b.core && Bounded(a)
    ensures Alike(a, RunScript(a, depth, s), b, RunScript(b, depth, s))
    decreases ScriptSize(s), 0, 0
  {
    hide Alike;
    AlikeNow(a, b);
    match s
    case Done =>
    case Do(call, rest) =>
      var ma, mb := RunCall(a, depth, call), RunCall(b, depth, call);
      CallAlike(a, b, depth, call);
      AlikeBounded(a, ma, b, mb);
      ScriptAlike(ma, mb, depth, rest);
      AlikeThen(a, ma, RunScript(a, depth, s), b, mb, RunScript(b, depth, s));
  }

  lemma {:induction false} CallAlike(a: State, b: State, depth: nat, c: Call)
    requires a.core == b.core && Bounded(a)
    ensures Alike(a, RunCall(a, depth, c), b, RunCall(b, depth, c))
    decreases CallSize(c), 3, 0
  {
    match c
    case DeliverEvent(ev, spec, callbacks) => DeliverAllAlike(a, b, depth, ev, spec, callbacks);
    case DeliverAsyncEvent(batches) => DrainedAlike(a, b, depth, batches);
    case UnDeliverEvent(ev, spec) => UnDeliveredAlike(a, b, ev, spec, 0);
    case _ =>
      CallTraced(a, depth, c);
      CallTraced(b, depth, c);
  }

  lemma {:induction false} UnDeliveredAlike(a: State, b: State, ev: Word, spec: Word, i: nat)
    requires a.core == b.core
    ensures Alike(a, UnDelivered(a, ev, spec, i), b, UnDelivered(b, ev, spec, i))
    decreases |a.core.evcb| - i
  {
    hide Alike;
    AlikeNow(a, b);
    if i < |a.core.evcb| {
      var k := a.core.evcb[i];
      if k.status == Delivered && k.ev == ev && k.spec == spec && k.mode == MODE_NO_CALLBACK {
        var c, e := Applied(a.core, Retracts(i)), Retracts(i);
        AlikeStep(a, b, c, e);
        UnDeliveredAlike(a.With(c, e), b.With(c, e), ev, spec, i + 1);
        AlikeThen(a, a.With(c, e), UnDelivered(a, ev, spec, i), b, b.With(c, e), UnDelivered(b, ev, spec, i));
      } else {
        UnDeliveredAlike(a, b, ev, spec, i + 1);
      }
    }
  }

  lemma {:induction false} DeliverAllAlike(a: State, b: State, depth: nat, ev: Word, spec: Word, callbacks: Scripts)
    requires a.core == b.core && Bounded(a)
    ensures Alike(a, DeliverAll(a, depth, ev, spec, callbacks), b, DeliverAll(b, depth, ev, spec, callbacks))
    decreases ScriptsSize(callbacks), 2, 0
  {
    hide Alike;
    var e := Delivers(depth, ev, spec);
    var ma, mb := a.With(a.core, e), b.With(b.core, e);
    AlikeStep(a, b, a.core, e);
    DeliverFromAlike(ma, mb, depth, 0, ev, spec, callbacks);
    AlikeThen(a, ma, DeliverAll(a, depth, ev, spec, callbacks), b, mb, DeliverAll(b, depth, ev, spec, callbacks));
  }

  lemma {:induction false} DeliverFromAlike(a: State, b: State, depth: nat, i: nat, ev: Word, spec: Word,
                                            callbacks: Scripts)
    requires a.core == b.core && Bounded(a)
    ensures Alike(a, DeliverFrom(a, depth, i, ev, spec, callbacks), b, DeliverFrom(b, depth, i, ev, spec, callbacks))
    decreases ScriptsSize(callbacks), 1, |a.core.evcb| - i
  {
    hide Alike;
    AlikeNow(a, b);
    var ra, rb := DeliverFrom(a, depth, i, ev, spec, callbacks), DeliverFrom(b, depth, i, ev, spec, callbacks);
    if i < |a.core.evcb| {
      if !Matches(a.core.evcb[i], ev, spec) {
        DeliverFromAlike(a, b, depth, i + 1, ev, spec, callbacks);
      } else {
        var e := if a.core.evcb[i].mode == MODE_CALLBACK then Calls(i, ev, spec) else Flips(i, ev, spec);
        var c := Applied(a.core, e);
        var ma, mb := a.With(c, e), b.With(c, e);
        AlikeStep(a, b, c, e);
        if e.Calls? && callbacks.Callback? {
          var na, nb := RunScript(ma, depth + 1, callbacks.first), RunScript(mb, depth + 1, callbacks.first);
          ScriptAlike(ma, mb, depth + 1, callbacks.first);
          AlikeThen(a, ma, na, b, mb, nb);
          AlikeBounded(a, na, b, nb);
          DeliverFromAlike(na, nb, depth, i + 1, ev, spec, callbacks.rest);
          AlikeThen(a, na, ra, b, nb, rb);
        } else {
          DeliverFromAlike(ma, mb, depth, i + 1, ev, spec, callbacks);
          AlikeThen(a, ma, ra, b, mb, rb);
        }
      }
    }
  }

  lemma {:induction false} DrainedAlike(a: State, b: State, depth: nat, batches: Batches)
    requires a.core == b.core && Bounded(a)
    ensures Alike(a, Drained(a, depth, batches), b, Drained(b, depth, batches))
    decreases BatchesSize(batches), 5, 0
  {
    hide Alike;
    AlikeNow(a, b);
    if a.core.queue != [] {
      var e := Drains(a.core.queue);
      var c := Applied(a.core, e);
      AlikeStep(a, b, c, e);
      DrainFromAlike(a.With(c, e), b.With(c, e), depth, Deliveries(a.core.queue), batches);
      AlikeThen(a, a.With(c, e), Drained(a, depth, batches), b, b.With(c, e), Drained(b, depth, batches));
    }
  }

  lemma {:induction false} DrainFromAlike(a: State, b: State, depth: nat, due: seq<(Word, Half)>, batches: Batches)
    requires a.core == b.core && Bounded(a)
    ensures Alike(a, DrainFrom(a, depth, due, batches), b, DrainFrom(b, depth, due, batches))
    decreases BatchesSize(batches), 4, |due|
  {
    hide Alike;
    AlikeNow(a, b);
    if due != [] {
      var first, rest := FirstBatch(batches), RestBatches(batches);
      var ma := DeliverAll(a, depth + 1, due[0].0, due[0].1, first);
      var mb := DeliverAll(b, depth + 1, due[0].0, due[0].1, first);
      DeliverAllAlike(a, b, depth + 1, due[0].0, due[0].1, first);
      AlikeBounded(a, ma, b, mb);
      DrainFromAlike(ma, mb, depth, due[1..], rest);
      AlikeThen(a, ma, DrainFrom(a, depth, due, batches), b, mb, DrainFrom(b, depth, due, batches));
    }
  }

  function FirstBatch(batches: Batches): Scripts {
    match batches
    case NoBatches => NoScripts
    case Batch(first, _) => first
  }

  function RestBatches(batches: Batches): (r: Batches)
    ensures batches.Batch? ==> BatchesSize(r) < BatchesSize(batches)
  {
    match batches
    case NoBatches => NoBatches
    case Batch(_, rest) => rest
  }

  // ----- what a delivery logs -----

  /** The entries a script's run adds, and the table, queue and busy bits it leaves. */
  ghost function RunEntries(c: Core, depth: nat, s: Script): seq<Entry> {
    Since(State(c, []), RunScript(State(c, []), depth, s))
  }

  ghost function RunCore(c: Core, depth: nat, s: Script): Core {
    RunScript(State(c, []), depth, s).core
  }

  ghost predicate NoneMatches(c: Core, i: nat, j: nat, ev: Word, spec: Word)
    requires j <= |c.evcb|
  {
    forall k :: i <= k < j ==> !Matches(c.evcb[k], ev, spec)
  }

  /** The log of a delivery from slot i on. Each entry is about the next slot that is enabled for the event and spec
      when the delivery comes to it: a slot with a callback calls it, any other is marked. A call is followed by
      exactly the entries of the next script's run, and the delivery goes on with what that run leaves. */
  ghost predicate DeliveryLog(c: Core, depth: nat, i: nat, ev: Word, spec: Word, callbacks: Scripts, es: seq<Entry>)
    decreases |es|
  {
    if es == [] then NoneMatches(c, i, |c.evcb|, ev, spec)
    else
      var e := es[0];
      && (e.Flips? || e.Calls?) && e.ev == ev && e.spec == spec && Allowed(c, e)
      && i <= e.slot && NoneMatches(c, i, e.slot, ev, spec)
      && if e.Calls? && callbacks.Callback? then
           var run := RunEntries(c, depth + 1, callbacks.first);
           && |run| < |es| && es[1..1 + |run|] == run
           && DeliveryLog(RunCore(c, depth + 1, callbacks.first), depth, e.slot + 1, ev, spec, callbacks.rest,
                          es[1 + |run|..])
         else DeliveryLog(Applied(c, e), depth, e.slot + 1, ev, spec, callbacks, es[1..])
  }

  lemma LogSkips(c: Core, depth: nat, i: nat, ev: Word, spec: Word, callbacks: Scripts, es: seq<Entry>)
    requires i < |c.evcb| && !Matches(c.evcb[i], ev, spec) && DeliveryLog(c, depth, i + 1, ev, spec, callbacks, es)
    ensures DeliveryLog(c, depth, i, ev, spec, callbacks, es)
  {
  }

  lemma LogGoesOn(c: Core, depth: nat, e: Entry, ev: Word, spec: Word, callbacks: Scripts, es: seq<Entry>)
    requires (e.Flips? || (e.Calls? && callbacks == NoScripts)) && e.ev == ev && e.spec == spec
    requires Allowed(c, e) && DeliveryLog(Applied(c, e), depth, e.slot + 1, ev, spec, callbacks, es)
    ensures DeliveryLog(c, depth, e.slot, ev, spec, callbacks, [e] + es)
  {
    assert ([e] + es)[1..] == es;
  }

  lemma LogRuns(c: Core, depth: nat, e: Entry, ev: Word, spec: Word, callbacks: Scripts, run: seq<Entry>, es: seq<Entry>)
    requires e.Calls? && e.ev == ev && e.spec == spec && Allowed(c, e) && callbacks.Callback?
    requires run == RunEntries(c, depth + 1, callbacks.first)
    requires DeliveryLog(RunCore(c, depth + 1, callbacks.first), depth, e.slot + 1, ev, spec, callbacks.rest, es)
    ensures DeliveryLog(c, depth, e.slot, ev, spec, callbacks, [e] + run + es)
  {
    hide RunEntries, RunCore;
    var all := [e] + run + es;
    assert all[1..1 + |run|] == run && all[1 + |run|..] == es;
  }

  /** A script's run from any state adds the same entries and leaves the same table, queue and busy bits. */
  lemma RunFromCore(st: State, depth: nat, s: Script)
    requires Bounded(st)
    ensures Traced(st, RunScript(st, depth, s)) && Bounded(RunScript(st, depth, s))
    ensures Since(st, RunScript(st, depth, s)) == RunEntries(st.core, depth, s)
    ensures RunScript(st, depth, s).core == RunCore(st.core, depth, s)
  {
    ScriptAlike(st, State(st.core, []), depth, s);
    TracedBounded(st, RunScript(st, depth, s));
  }

  lemma {:induction false} DeliverFromLogged(st: State, depth: nat, i: nat, ev: Word, spec: Word, callbacks: Scripts)
    requires Bounded(st)
    ensures var r := DeliverFrom(st, depth, i, ev, spec, callbacks);
            Traced(st, r) && DeliveryLog(st.core, depth, i, ev, spec, callbacks, Since(st, r))
    decreases ScriptsSize(callbacks), 1, |st.core.evcb| - i
  {
    hide Traced, Since, DeliveryLog, RunEntries, RunCore;
    var r := DeliverFrom(st, depth, i, ev, spec, callbacks);
    if i >= |st.core.evcb| {
      NothingLogged(st, depth, i, ev, spec, callbacks);
    } else if !Matches(st.core.evcb[i], ev, spec) {
      DeliverFromLogged(st, depth, i + 1, ev, spec, callbacks);
      LogSkips(st.core, depth, i, ev, spec, callbacks, Since(st, r));
    } else {
      var e := if st.core.evcb[i].mode == MODE_CALLBACK then Calls(i, ev, spec) else Flips(i, ev, spec);
      var m := st.With(Applied(st.core, e), e);
      TracedStep(st, m.core, e);
      if e.Calls? && callbacks.Callback? {
        var n := RunScript(m, depth + 1, callbacks.first);
        RunFromCore(m, depth + 1, callbacks.first);
        DeliverFromLogged(n, depth, i + 1, ev, spec, callbacks.rest);
        TracedThen(m, n, r);
        TracedThen(st, m, r);
        LogRuns(st.core, depth, e, ev, spec, callbacks, Since(m, n), Since(n, r));
        assert [e] + (Since(m, n) + Since(n, r)) == [e] + Since(m, n) + Since(n, r);
      } else {
        DeliverFromLogged(m, depth, i + 1, ev, spec, callbacks);
        TracedThen(st, m, r);
        LogGoesOn(st.core, depth, e, ev, spec, callbacks, Since(m, r));
      }
    }
  }

  lemma NothingLogged(st: State, depth: nat, i: nat, ev: Word, spec: Word, callbacks: Scripts)
    requires i >= |st.core.evcb|
    ensures Traced(st, st) && DeliveryLog(st.core, depth, i, ev, spec, callbacks, Since(st, st))
  {
    TracedNow(st);
  }

  /** DeliverEvent begins with one entry, and the log of the delivery follows. */
  lemma DeliveryLogged(st: State, depth: nat, ev: Word, spec: Word, callbacks: Scripts)
    requires Bounded(st)
    ensures var r := RunCall(st, depth, DeliverEvent(ev, spec, callbacks));
            && r == DeliverAll(st, depth, ev, spec, callbacks) && Traced(st, r) && Since(st, r) != []
            && Since(st, r)[0] == Delivers(depth, ev, spec)
            && DeliveryLog(st.core, depth, 0, ev, spec, callbacks, Since(st, r)[1..])
  {
    var e, r := Delivers(depth, ev, spec), DeliverAll(st, depth, ev, spec, callbacks);
    var m := st.With(st.core, e);
    TracedStep(st, st.core, e);
    DeliverFromLogged(m, depth, 0, ev, spec, callbacks);
    TracedThen(st, m, r);
    assert ([e] + Since(m, r))[1..] == Since(m, r);
  }

  /** A delivery has no other log. */
  lemma {:induction false} DeliveryLogOnly(c: Core, depth: nat, i: nat, ev: Word, spec: Word, callbacks: Scripts,
                                           es: seq<Entry>, fs: seq<Entry>)
    requires DeliveryLog(c, depth, i, ev, spec, callbacks, es) && DeliveryLog(c, depth, i, ev, spec, callbacks, fs)
    ensures es == fs
    decreases |es|
  {
    hide RunEntries, RunCore;
    if es != [] && fs != [] {
      assert es[0] == fs[0];
      var e := es[0];
      if e.Calls? && callbacks.Callback? {
        var run := RunEntries(c, depth + 1, callbacks.first);
        DeliveryLogOnly(RunCore(c, depth + 1, callbacks.first), depth, e.slot + 1, ev, spec, callbacks.rest,
                        es[1 + |run|..], fs[1 + |run|..]);
        assert es == [e] + es[1..1 + |run|] + es[1 + |run|..] && fs == [e] + fs[1..1 + |run|] + fs[1 + |run|..];
      } else {
        DeliveryLogOnly(Applied(c, e), depth, e.slot + 1, ev, spec, callbacks, es[1..], fs[1..]);
        assert es == [e] + es[1..] && fs == [e] + fs[1..];
      }
    }
  }

  lemma {:induction false} ChainOnly(c: Core, es: seq<Entry>, d: Core, g: Core)
    requires Chain(c, es, d) && Chain(c, es, g)
    ensures d == g
    decreases |es|
  {
    if es != [] {
      ChainOnly(Applied(c, es[0]), es[1..], d, g);
    }
  }

  /** When only slot k is enabled for the event, and calls back, a delivery is the run of its callback, unless that
      enables a later slot for the event. */
  lemma OneCallback(st: State, depth: nat, ev: Word, spec: Word, first: Script, rest: Scripts, k: nat)
    requires Bounded(st) && k < |st.core.evcb| && st.core.evcb[k].mode == MODE_CALLBACK
    requires forall j :: 0 <= j < |st.core.evcb| ==>
               var b := st.core.evcb[j];
               (b.status == Enabled && b.ev == ev && b.spec == spec <==> j == k)
    requires var d := RunScript(st, depth + 1, first).core; NoneMatches(d, k + 1, |d.evcb|, ev, spec)
    ensures var r := DeliverAll(st, depth, ev, spec, Callback(first, rest));
            && r.core == RunScript(st, depth + 1, first).core
            && Since(st, r) == [Delivers(depth, ev, spec), Calls(k, ev, spec)] + Since(st, RunScript(st, depth + 1, first))
  {
    var r, m := DeliverAll(st, depth, ev, spec, Callback(first, rest)), RunScript(st, depth + 1, first);
    DeliveryLogged(st, depth, ev, spec, Callback(first, rest));
    RunFromCore(st, depth + 1, first);
    var c, all, run := st.core, Since(st, r), RunEntries(st.core, depth + 1, first);
    hide RunEntries, RunCore, Since;
    OneCallLogged(c, depth, ev, spec, first, rest, k, all[1..]);
    assert all == [all[0]] + all[1..] == [Delivers(depth, ev, spec), Calls(k, ev, spec)] + run;
    assert all[1..][1..] == run;
    assert Chain(c, all[1..], r.core) && Chain(c, all[1..][1..], r.core);
    ChainOnly(c, run, r.core, m.core);
  }

  lemma OneCallLogged(c: Core, depth: nat, ev: Word, spec: Word, first: Script, rest: Scripts, k: nat, es: seq<Entry>)
    requires k < |c.evcb| && c.evcb[k].mode == MODE_CALLBACK
    requires forall j :: 0 <= j < |c.evcb| ==> (Matches(c.evcb[j], ev, spec) <==> j == k)
    requires var d := RunCore(c, depth + 1, first);
             |d.evcb| == |c.evcb| && NoneMatches(d, k + 1, |d.evcb|, ev, spec)
    requires DeliveryLog(c, depth, 0, ev, spec, Callback(first, rest), es)
    ensures es == [Calls(k, ev, spec)] + RunEntries(c, depth + 1, first)
  {
    hide RunEntries, RunCore;
    var run := RunEntries(c, depth + 1, first);
    assert es != [] && es[0] == Calls(k, ev, spec);
    assert es[1 + |run|..] == [];
    assert es == [es[0]] + es[1..1 + |run|] + es[1 + |run|..];
  }

  // ----- scripts and drains -----

  function Joined(s: Script, t: Script): Script {
    match s
    case Done => t
    case Do(call, rest) => Do(call, Joined(rest, t))
  }

  /** A script is run call by call: one made of two runs the first and then the second. */
  lemma {:induction false} ScriptInOrder(st: State, depth: nat, s: Script, t: Script, c: Call)
    ensures RunScript(st, depth, Joined(s, t)) == RunScript(RunScript(st, depth, s), depth, t)
    ensures RunScript(st, depth, Do(c, Done)) == RunCall(st, depth, c) && RunScript(st, depth, Done) == st
    decreases s
  {
    if s.Do? {
      ScriptInOrder(RunCall(st, depth, s.call), depth, s.rest, t, c);
    }
  }

  /** The log of the deliveries due in a drain: one after the other, each with the callbacks of its own batch. */
  ghost predicate DrainLog(c: Core, depth: nat, due: seq<(Word, Half)>, batches: Batches, es: seq<Entry>)
    decreases |due|
  {
    if due == [] then es == []
    else
      var one := Do(DeliverEvent(due[0].0, due[0].1, FirstBatch(batches)), Done);
      var run := RunEntries(c, depth, one);
      && |run| <= |es| && es[..|run|] == run
      && DrainLog(RunCore(c, depth, one), depth, due[1..], RestBatches(batches), es[|run|..])
  }

  lemma {:induction false} DrainFromLogged(st: State, depth: nat, due: seq<(Word, Half)>, batches: Batches)
    requires Bounded(st)
    ensures var r := DrainFrom(st, depth, due, batches);
            Traced(st, r) && DrainLog(st.core, depth + 1, due, batches, Since(st, r))
    decreases |due|
  {
    var r := DrainFrom(st, depth, due, batches);
    TracedNow(st);
    if due != [] {
      hide Traced, Since, RunEntries, RunCore;
      var c := DeliverEvent(due[0].0, due[0].1, FirstBatch(batches));
      var m := RunCall(st, depth + 1, c);
      ScriptInOrder(st, depth + 1, Done, Done, c);
      RunFromCore(st, depth + 1, Do(c, Done));
      assert m == DeliverAll(st, depth + 1, due[0].0, due[0].1, FirstBatch(batches));
      DrainFromLogged(m, depth, due[1..], RestBatches(batches));
      TracedThen(st, m, r);
      var es, run := Since(st, r), Since(st, m);
      assert es[..|run|] == run && es[|run|..] == Since(m, r);
    }
  }

  /** A drain takes the queue, and the log of the deliveries due follows. */
  lemma DrainLogged(st: State, depth: nat, batches: Batches)
    requires Bounded(st)
    ensures var r := RunCall(st, depth, DeliverAsyncEvent(batches));
            && r == Drained(st, depth, batches) && Traced(st, r)
            && if st.core.queue == [] then Since(st, r) == []
               else var e := Drains(st.core.queue);
                    && Since(st, r) != [] && Since(st, r)[0] == e
                    && DrainLog(Applied(st.core, e), depth + 1, Deliveries(st.core.queue), batches, Since(st, r)[1..])
  {
    DrainedTraced(st, depth, batches);
    if st.core.queue != [] {
      var e, r := Drains(st.core.queue), Drained(st, depth, batches);
      var m := st.With(Applied(st.core, e), e);
      TracedStep(st, m.core, e);
      DrainFromLogged(m, depth, Deliveries(st.core.queue), batches);
      TracedThen(st, m, r);
      assert ([e] + Since(m, r))[1..] == Since(m, r);
    }
  }

  // ----- single calls, slot by slot -----

  /** Enable, Disable and Close change the one slot the handle names, if it is open. */
  lemma StatusCalls(st: State, depth: nat, handle: Word, k: nat)
    requires k < |st.core.evcb|
    ensures var b := st.core.evcb[k];
            var open := handle % 0x1_0000 == k && b.status != Free;
            && RunCall(st, depth, EnableEvent(handle)).core.evcb[k] == (if open then b.(status := Enabled) else b)
            && RunCall(st, depth, DisableEvent(handle)).core.evcb[k] == (if open then b.(status := Disabled) else b)
            && RunCall(st, depth, CloseEvent(handle)).core.evcb[k] == (if open then b.(status := Free) else b)
    ensures forall c | c in [EnableEvent(handle), DisableEvent(handle), CloseEvent(handle)] ::
              var d := RunCall(st, depth, c).core; d.queue == st.core.queue && d.busy == st.core.busy
  {
  }

  /** Test and Wait take the delivery of the one slot the handle names. */
  lemma TakingCalls(st: State, depth: nat, handle: Word, k: nat)
    requires k < |st.core.evcb|
    ensures var b := st.core.evcb[k];
            var taken := handle % 0x1_0000 == k && b.status == Delivered && b.mode == MODE_NO_CALLBACK;
            && RunCall(st, depth, TestEvent(handle)).core.evcb[k] == (if taken then b.(status := Enabled) else b)
            && RunCall(st, depth, WaitEvent(handle)).core.evcb[k] == (if taken then b.(status := Enabled) else b)
    ensures forall c | c in [TestEvent(handle), WaitEvent(handle)] ::
              var d := RunCall(st, depth, c).core; d.queue == st.core.queue && d.busy == st.core.busy
  {
  }

  /** UnDeliver takes every delivery of the event that is still there and has no callback. */
  lemma UnDeliverCall(st: State, depth: nat, ev: Word, spec: Word, k: nat)
    requires k < |st.core.evcb|
    ensures var b, d := st.core.evcb[k], RunCall(st, depth, UnDeliverEvent(ev, spec)).core;
            && d.queue == st.core.queue && d.busy == st.core.busy
            && d.evcb[k] == if b.status == Delivered && b.ev == ev && b.spec == spec && b.mode == 0x2000
                            then b.(status := Enabled) else b
  {
    UnDeliverUnmarks(st, ev, spec, 0, k);
  }

  ghost predicate FirstFree(c: Core, s: nat)
    requires s < |c.evcb|
  {
    c.evcb[s].status == Free && forall k :: 0 <= k < s ==> c.evcb[k].status != Free
  }

  /** Open sets up the first free slot with its four arguments, and leaves every other one. */
  lemma OpenCall(st: State, depth: nat, ev: Word, spec: Word, mode: Word, func: Word)
    ensures var c, d := st.core, RunCall(st, depth, OpenEvent(ev, spec, mode, func)).core;
            && d.queue == c.queue && d.busy == c.busy
            && ((forall k :: 0 <= k < |c.evcb| ==> c.evcb[k].status != Free) ==> d.evcb == c.evcb)
            && forall s :: 0 <= s < |c.evcb| && FirstFree(c, s) ==>
                 && d.evcb[s].ev == ev && d.evcb[s].status == Disabled && d.evcb[s].spec == spec
                 && d.evcb[s].mode == mode && d.evcb[s].fhandler == func
                 && forall k :: 0 <= k < |c.evcb| && k != s ==> d.evcb[k] == c.evcb[k]
  {
  }

  /** A post that finds room puts its event at the end of the queue; its port keeps four bits, its repeat twelve. */
  lemma PostCall(st: State, depth: nat, ev: Word, spec: Half, port: Half, repeat: Repeat)
    ensures var c, d := st.core, RunCall(st, depth, PostAsyncEvent(ev, spec, port, repeat)).core;
            && d.evcb == c.evcb && d.busy == c.busy
            && (|c.queue| >= QUEUE_SIZE ==> d.queue == c.queue)
            && (|c.queue| < QUEUE_SIZE ==>
                  && |d.queue| == |c.queue| + 1 && d.queue[..|c.queue|] == c.queue
                  && var info := d.queue[|c.queue|];
                     && info.ev == ev && info.spec == spec
                     && info.port == port % 0x10 && info.repeat == repeat % 0x1000)
  {
  }

  /** The event of a request says that the port has a card (0x4), or none or neither port has one (0x100), or that it
      is no port of a card (0, 1 << 17 in 16 bits). */
  lemma CardCall(st: State, depth: nat, channel: Channel, enabled0: bool, enabled1: bool)
    requires channel / 16 !in st.core.busy && |st.core.queue| + 2 <= QUEUE_SIZE
    ensures var c, d, p := st.core, RunCall(st, depth, CardInfo(channel, enabled0, enabled1)).core, channel / 16;
            && d.evcb == c.evcb && d.busy == c.busy + {p} && |d.queue| == |c.queue| + 2 && d.queue[..|c.queue|] == c.queue
            && var bios, hw := d.queue[|c.queue|], d.queue[|c.queue| + 1];
               && bios.ev == 0xF400_0001 && hw.ev == 0xF000_0011 && hw.spec == 0x4
               && bios.port == hw.port == p % 0x10 && bios.repeat == hw.repeat == 1
               && (bios.spec == 0x4 <==> (p == 0 && enabled0) || (p == 1 && enabled1))
               && (bios.spec == 0x100 <==> (!enabled0 && !enabled1) || (p == 0 && !enabled0) || (p == 1 && !enabled1))
               && (bios.spec == 0 <==> p > 1 && (enabled0 || enabled1))
  {
  }

  // ----- the handle of an event -----

  /** The handle of a slot names that slot exactly when the slot's number has no more than 16 bits. */
  lemma HandleNamesSlotIff(s: nat)
    requires s < 0x100_0000
    ensures SlotOf(0xF100_0000 + s) == s <==> s < 0x1_0000
  {
  }

  /** An event that is opened without callback and enabled through its handle is delivered, found by Test and then
      enabled again, exactly when the handle names its slot. */
  lemma OpenedIsDelivered(st: State, depth: nat, ev: Word, spec: Word, func: Word, s: nat)
    requires s < |st.core.evcb| && FirstFree(st.core, s) && s < 0x100_0000
    ensures var h := 0xF100_0000 + s;
            var m := RunCall(st, depth, OpenEvent(ev, spec, MODE_NO_CALLBACK, func));
            var n := RunCall(RunCall(m, depth, EnableEvent(h)), depth, DeliverEvent(ev, spec, NoScripts));
            && (n.core.evcb[s] == Evcb(ev, Delivered, spec, MODE_NO_CALLBACK, func) <==> s < 0x1_0000)
            && (RunCall(n, depth, TestEvent(h)).core.evcb[s] == Evcb(ev, Enabled, spec, MODE_NO_CALLBACK, func) <==>
                  s < 0x1_0000)
  {
    var h := 0xF100_0000 + s;
    var m := RunCall(st, depth, OpenEvent(ev, spec, MODE_NO_CALLBACK, func));
    var e := RunCall(m, depth, EnableEvent(h));
    HandleNamesSlotIff(s);
    OpenCall(st, depth, ev, spec, MODE_NO_CALLBACK, func);
    StatusCalls(m, depth, h, s);
    DeliveryMarks(e.With(e.core, Delivers(depth, ev, spec)), depth, 0, ev, spec, s);
    TakingCalls(RunCall(e, depth, DeliverEvent(ev, spec, NoScripts)), depth, h, s);
  }
}
