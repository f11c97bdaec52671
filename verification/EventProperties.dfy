/** What holds at every point of every run of event calls. */
module EventProperties {
  import opened EventModel
  import opened EventRuns
  import opened Memory

  /** The state after the first k steps of a chain. */
  ghost function After(c: Core, es: seq<Entry>, k: nat, d: Core): (m: Core)
    requires Chain(c, es, d) && k <= |es|
    ensures |m.evcb| == |c.evcb| && (k == |es| ==> m == d)
    ensures k < |es| ==> Allowed(m, es[k])
    decreases k
  {
    if k == 0 then ChainSize(c, es, d); c else ChainSize(c, es, d); After(Applied(c, es[0]), es[1..], k - 1, d)
  }

  lemma {:induction false} ChainSize(c: Core, es: seq<Entry>, d: Core)
    requires Chain(c, es, d)
    ensures |d.evcb| == |c.evcb|
    decreases |es|
  {
    if es != [] {
      ChainSize(Applied(c, es[0]), es[1..], d);
    }
  }

  lemma {:induction false} AfterNext(c: Core, es: seq<Entry>, k: nat, d: Core)
    requires Chain(c, es, d) && k < |es|
    ensures After(c, es, k + 1, d) == Applied(After(c, es, k, d), es[k])
    decreases k
  {
    if k > 0 {
      AfterNext(Applied(c, es[0]), es[1..], k - 1, d);
    }
  }

  // ----- safety of slots -----

  ghost predicate Clean(evcb: seq<Evcb>) {
    forall s :: 0 <= s < |evcb| && evcb[s].mode == MODE_CALLBACK ==> evcb[s].status != Delivered
  }

  /** At no point of a run, not even inside a callback, is a slot with a callback marked delivered. */
  lemma {:induction false} CallbackNeverDelivered(c: Core, es: seq<Entry>, k: nat, d: Core)
    requires Chain(c, es, d) && k <= |es| && Clean(c.evcb)
    ensures Clean(After(c, es, k, d).evcb)
    decreases k
  {
    if k > 0 {
      CallbackNeverDelivered(Applied(c, es[0]), es[1..], k - 1, d);
    }
  }

  /** A free slot leaves that state only by being opened, and only a free slot is opened. */
  lemma FreeUntilOpened(c: Core, es: seq<Entry>, k: nat, d: Core, s: nat)
    requires Chain(c, es, d) && k < |es| && s < |c.evcb|
    ensures After(c, es, k, d).evcb[s].status == Free && After(c, es, k + 1, d).evcb[s].status != Free <==>
            es[k].Opens? && es[k].slot == s
  {
    AfterNext(c, es, k, d);
  }

  /** An open slot that is not closed stays open. */
  lemma {:induction false} StaysOpen(c: Core, es: seq<Entry>, i: nat, j: nat, d: Core, s: nat)
    requires Chain(c, es, d) && i <= j <= |es| && s < |c.evcb|
    requires After(c, es, i, d).evcb[s].status != Free
    requires forall k :: i <= k < j ==> es[k] != Sets(s, Free)
    ensures After(c, es, j, d).evcb[s].status != Free
    decreases j - i
  {
    if i < j {
      StaysOpen(c, es, i, j - 1, d, s);
      AfterNext(c, es, j - 1, d);
    }
  }

  /** Two openings of the same slot have a close of it in between: OpenEvent never returns the handle of a slot
      that is still open. */
  lemma ReopenedOnlyAfterClose(c: Core, es: seq<Entry>, i: nat, j: nat, d: Core, s: nat) returns (k: nat)
    requires Chain(c, es, d) && i < j < |es|
    requires es[i].Opens? && es[i].slot == s && es[j].Opens? && es[j].slot == s
    ensures i < k < j && es[k] == Sets(s, Free)
  {
    assert Allowed(After(c, es, i, d), es[i]);
    AfterNext(c, es, i, d);
    assert Allowed(After(c, es, j, d), es[j]);
    if forall k :: i + 1 <= k < j ==> es[k] != Sets(s, Free) {
      StaysOpen(c, es, i + 1, j, d, s);
      assert false;
    }
    k :| i + 1 <= k < j && es[k] == Sets(s, Free);
  }

  // ----- conservation of deliveries -----

  ghost function Flipped(es: seq<Entry>, s: nat): nat {
    if es == [] then 0 else (if es[0].Flips? && es[0].slot == s then 1 else 0) + Flipped(es[1..], s)
  }

  ghost function Taken(es: seq<Entry>, s: nat): nat {
    if es == [] then 0 else (if es[0] == Takes(s) then 1 else 0) + Taken(es[1..], s)
  }

  ghost function Retracted(es: seq<Entry>, s: nat): nat {
    if es == [] then 0 else (if es[0] == Retracts(s) then 1 else 0) + Retracted(es[1..], s)
  }

  /** Deliveries that an Enable, Disable or Close throws away. */
  ghost function Discarded(c: Core, es: seq<Entry>, d: Core, s: nat): nat
    requires Chain(c, es, d) && s < |c.evcb|
    decreases |es|
  {
    if es == [] then 0
    else
      (if es[0].Sets? && es[0].slot == s && c.evcb[s].status == Delivered then 1 else 0)
      + Discarded(Applied(c, es[0]), es[1..], d, s)
  }

  function Waiting(c: Core, s: nat): nat
    requires s < |c.evcb|
  {
    if c.evcb[s].status == Delivered then 1 else 0
  }

  /** The slot has mode NO_CALLBACK, and is only reopened with it. */
  ghost predicate Plain(c: Core, es: seq<Entry>, s: nat) {
    && s < |c.evcb| && c.evcb[s].mode == MODE_NO_CALLBACK
    && (forall k :: 0 <= k < |es| && es[k].Opens? && es[k].slot == s ==> es[k].block.mode == MODE_NO_CALLBACK)
  }

  /** No delivery to a slot without callback is lost or consumed twice: each mark is consumed by one successful
      Test or Wait, retracted, discarded by an Enable, Disable or Close, or still there. */
  lemma {:induction false} DeliveriesConserved(c: Core, es: seq<Entry>, d: Core, s: nat)
    requires Chain(c, es, d) && Plain(c, es, s)
    ensures s < |d.evcb|
    ensures Waiting(c, s) + Flipped(es, s) == Taken(es, s) + Retracted(es, s) + Discarded(c, es, d, s) + Waiting(d, s)
    decreases |es|
  {
    if es != [] {
      assert forall k :: 0 <= k < |es[1..]| ==> es[1..][k] == es[k + 1];
      assert Plain(Applied(c, es[0]), es[1..], s);
      DeliveriesConserved(Applied(c, es[0]), es[1..], d, s);
    }
  }

  // ----- the queue -----

  /** The entries one step adds to the queue. */
  ghost function Adds(e: Entry): seq<Info> {
    match e
    case Posts(info) => [info]
    case Registers(_, infos) => infos
    case _ => []
  }

  /** The entries one step takes from it. */
  ghost function Removes(e: Entry): seq<Info> {
    if e.Drains? then e.infos else []
  }

  /** Entries the queue accepted, in order. */
  ghost function Accepted(es: seq<Entry>): seq<Info> {
    if es == [] then [] else Adds(es[0]) + Accepted(es[1..])
  }

  /** Entries drains took, in order. */
  ghost function TakenFromQueue(es: seq<Entry>): seq<Info> {
    if es == [] then [] else Removes(es[0]) + TakenFromQueue(es[1..])
  }

  lemma QueueStep(c: Core, e: Entry)
    requires Allowed(c, e)
    ensures c.queue + Adds(e) == Removes(e) + Applied(c, e).queue
  {
  }

  /** First in, first out, over every run: what was queued and what was accepted since is, in that order, what
      was drained and what is still queued. */
  lemma {:induction false} QueueConserved(c: Core, es: seq<Entry>, d: Core)
    requires Chain(c, es, d)
    ensures c.queue + Accepted(es) == TakenFromQueue(es) + d.queue
    decreases |es|
  {
    if es == [] {
      assert c.queue + Accepted(es) == c.queue == TakenFromQueue(es) + d.queue;
    } else {
      var m := Applied(c, es[0]);
      QueueConserved(m, es[1..], d);
      QueueStep(c, es[0]);
      Regroup(c.queue, Adds(es[0]), Accepted(es[1..]), Removes(es[0]), m.queue, TakenFromQueue(es[1..]), d.queue);
    }
  }

  lemma Regroup(q: seq<Info>, x: seq<Info>, a: seq<Info>, y: seq<Info>, m: seq<Info>, t: seq<Info>, d: seq<Info>)
    requires q + x == y + m && m + a == t + d
    ensures q + (x + a) == (y + t) + d
  {
    assert q + (x + a) == (q + x) + a;
    assert (y + m) + a == y + (m + a);
    assert y + (t + d) == (y + t) + d;
  }

  // ----- order of deliveries -----

  /** The deliveries begun at one depth of nesting. */
  ghost function DeliveredAt(es: seq<Entry>, depth: nat): seq<(Word, Word)> {
    if es == [] then []
    else (if es[0].Delivers? && es[0].depth == depth then [(es[0].ev, es[0].spec)] else []) + DeliveredAt(es[1..], depth)
  }

  lemma {:induction false} DeliveredAtConcat(es: seq<Entry>, fs: seq<Entry>, depth: nat)
    ensures DeliveredAt(es + fs, depth) == DeliveredAt(es, depth) + DeliveredAt(fs, depth)
  {
    if es == [] {
      assert es + fs == fs;
    } else {
      assert (es + fs)[1..] == es[1..] + fs;
      DeliveredAtConcat(es[1..], fs, depth);
    }
  }

  ghost function AsWords(due: seq<(Word, Half)>): (r: seq<(Word, Word)>)
    ensures |r| == |due|
  {
    seq(|due|, k requires 0 <= k < |due| => (due[k].0, due[k].1))
  }

  /** Everything a run logs is at its own depth of nesting or deeper. */
  lemma {:induction false} ScriptDeep(st: State, depth: nat, s: Script, above: nat)
    requires Bounded(st) && above < depth
    ensures Traced(st, RunScript(st, depth, s)) && DeliveredAt(Since(st, RunScript(st, depth, s)), above) == []
    decreases ScriptSize(s), 0, 0
  {
    hide Traced, Since;
    TracedNow(st);
    match s
    case Done => NothingSince(st, above);
    case Do(call, rest) =>
      var m := RunCall(st, depth, call);
      CallDeep(st, depth, call, above);
      TracedBounded(st, m);
      ScriptDeep(m, depth, rest, above);
      ThenAt(st, m, RunScript(st, depth, s), above);
  }

  lemma NothingSince(st: State, depth: nat)
    ensures Since(st, st) == [] && DeliveredAt(Since(st, st), depth) == []
  {
  }

  lemma ThenAt(st: State, m: State, r: State, depth: nat)
    requires Traced(st, m) && Traced(m, r)
    ensures Traced(st, r)
    ensures DeliveredAt(Since(st, r), depth) == DeliveredAt(Since(st, m), depth) + DeliveredAt(Since(m, r), depth)
  {
    TracedThen(st, m, r);
    DeliveredAtConcat(Since(st, m), Since(m, r), depth);
  }

  /** Steps that are no delivery. */
  ghost predicate Quiet(es: seq<Entry>) {
    forall k :: 0 <= k < |es| ==> !es[k].Delivers?
  }

  lemma {:induction false} QuietAt(es: seq<Entry>, depth: nat)
    requires Quiet(es)
    ensures DeliveredAt(es, depth) == []
  {
    if es != [] {
      QuietAt(es[1..], depth);
    }
  }

  lemma {:induction false} CallDeep(st: State, depth: nat, c: Call, above: nat)
    requires Bounded(st) && above < depth
    ensures Traced(st, RunCall(st, depth, c)) && DeliveredAt(Since(st, RunCall(st, depth, c)), above) == []
    decreases CallSize(c), 3, 0
  {
    CallTraced(st, depth, c);
    match c
    case DeliverEvent(ev, spec, callbacks) => DeliverAllAt(st, depth, ev, spec, callbacks, above);
    case DeliverAsyncEvent(batches) => DrainedAt(st, depth, batches, above);
    case UnDeliverEvent(ev, spec) =>
      UnDeliveredQuiet(st, ev, spec, 0);
      QuietAt(Since(st, RunCall(st, depth, c)), above);
    case _ => QuietAt(Since(st, RunCall(st, depth, c)), above);
  }

  lemma {:induction false} UnDeliveredQuiet(st: State, ev: Word, spec: Word, i: nat)
    ensures Traced(st, UnDelivered(st, ev, spec, i)) && Quiet(Since(st, UnDelivered(st, ev, spec, i)))
    decreases |st.core.evcb| - i
  {
    UnDeliveredTraced(st, ev, spec, i);
    if i < |st.core.evcb| {
      var b := st.core.evcb[i];
      if b.status == Delivered && b.ev == ev && b.spec == spec && b.mode == MODE_NO_CALLBACK {
        var m := st.With(Applied(st.core, Retracts(i)), Retracts(i));
        TracedStep(st, m.core, Retracts(i));
        UnDeliveredQuiet(m, ev, spec, i + 1);
        TracedThen(st, m, UnDelivered(st, ev, spec, i));
      } else {
        UnDeliveredQuiet(st, ev, spec, i + 1);
      }
    }
  }

  /** A delivery logs itself at its depth, and whatever its callbacks deliver deeper. */
  lemma {:induction false} DeliverAllAt(st: State, depth: nat, ev: Word, spec: Word, callbacks: Scripts, level: nat)
    requires Bounded(st) && level <= depth
    ensures var r := DeliverAll(st, depth, ev, spec, callbacks);
            Traced(st, r) && DeliveredAt(Since(st, r), level) == if level == depth then [(ev, spec)] else []
    decreases ScriptsSize(callbacks), 2, 0
  {
    var m := st.With(st.core, Delivers(depth, ev, spec));
    TracedStep(st, st.core, Delivers(depth, ev, spec));
    assert Since(st, m)[1..] == [];
    DeliverFromDeep(m, depth, 0, ev, spec, callbacks, level);
    ThenAt(st, m, DeliverAll(st, depth, ev, spec, callbacks), level);
  }

  lemma {:induction false} DeliverFromDeep(st: State, depth: nat, i: nat, ev: Word, spec: Word, callbacks: Scripts,
                                           level: nat)
    requires Bounded(st) && level <= depth
    ensures var r := DeliverFrom(st, depth, i, ev, spec, callbacks);
            Traced(st, r) && DeliveredAt(Since(st, r), level) == []
    decreases ScriptsSize(callbacks), 1, |st.core.evcb| - i
  {
    hide Traced, Since, DeliveredAt;
    var r := DeliverFrom(st, depth, i, ev, spec, callbacks);
    TracedNow(st);
    NothingSince(st, level);
    if i < |st.core.evcb| {
      var b := st.core.evcb[i];
      if b.status == Enabled && b.ev == ev && b.spec == spec {
        if b.mode == MODE_CALLBACK {
          var called := st.With(st.core, Calls(i, ev, spec));
          QuietStep(st, st.core, Calls(i, ev, spec), level);
          match callbacks {
            case NoScripts =>
              DeliverFromDeep(called, depth, i + 1, ev, spec, NoScripts, level);
              ThenAt(st, called, r, level);
            case Callback(first, rest) =>
              var m := RunScript(called, depth + 1, first);
              ScriptDeep(called, depth + 1, first, level);
              ThenAt(st, called, m, level);
              TracedBounded(called, m);
              DeliverFromDeep(m, depth, i + 1, ev, spec, rest, level);
              ThenAt(st, m, r, level);
          }
        } else {
          var c := Applied(st.core, Flips(i, ev, spec));
          QuietStep(st, c, Flips(i, ev, spec), level);
          DeliverFromDeep(st.With(c, Flips(i, ev, spec)), depth, i + 1, ev, spec, callbacks, level);
          ThenAt(st, st.With(c, Flips(i, ev, spec)), r, level);
        }
      } else {
        DeliverFromDeep(st, depth, i + 1, ev, spec, callbacks, level);
      }
    }
  }

  lemma QuietStep(st: State, c: Core, e: Entry, level: nat)
    requires Allowed(st.core, e) && c == Applied(st.core, e) && !e.Delivers?
    ensures Traced(st, st.With(c, e)) && DeliveredAt(Since(st, st.With(c, e)), level) == []
  {
  }

  lemma {:induction false} DrainedAt(st: State, depth: nat, batches: Batches, level: nat)
    requires Bounded(st) && level <= depth + 1
    ensures var r := Drained(st, depth, batches);
            && Traced(st, r)
            && DeliveredAt(Since(st, r), level) == if level == depth + 1 then AsWords(Deliveries(st.core.queue)) else []
    decreases BatchesSize(batches), 5, 0
  {
    TracedNow(st);
    if st.core.queue == [] {
      NothingSince(st, level);
    } else {
      var infos := st.core.queue;
      var c := Applied(st.core, Drains(infos));
      QuietStep(st, c, Drains(infos), level);
      DrainFromAt(st.With(c, Drains(infos)), depth, Deliveries(infos), batches, level);
      ThenAt(st, st.With(c, Drains(infos)), Drained(st, depth, batches), level);
    }
  }

  lemma {:induction false} DrainFromAt(st: State, depth: nat, due: seq<(Word, Half)>, batches: Batches, level: nat)
    requires Bounded(st) && level <= depth + 1
    ensures var r := DrainFrom(st, depth, due, batches);
            && Traced(st, r)
            && DeliveredAt(Since(st, r), level) == if level == depth + 1 then AsWords(due) else []
    decreases BatchesSize(batches), 4, |due|
  {
    hide Traced, Since, DeliveredAt;
    TracedNow(st);
    NothingSince(st, level);
    if due != [] {
      var callbacks := match batches case NoBatches => NoScripts case Batch(first, _) => first;
      var rest := match batches case NoBatches => NoBatches case Batch(_, rest) => rest;
      var m := DeliverAll(st, depth + 1, due[0].0, due[0].1, callbacks);
      DeliverAllAt(st, depth + 1, due[0].0, due[0].1, callbacks, level);
      TracedBounded(st, m);
      DrainFromAt(m, depth, due[1..], rest, level);
      ThenAt(st, m, DrainFrom(st, depth, due, batches), level);
      assert AsWords(due) == [(due[0].0 as Word, due[0].1 as Word)] + AsWords(due[1..]);
    }
  }

  /** Where the copies of entry i start among the deliveries of a drain. */
  ghost function StartOf(infos: seq<Info>, i: nat): nat
    requires i <= |infos|
  {
    if i == 0 then 0 else infos[0].Times() + StartOf(infos[1..], i - 1)
  }

  /** A drain is due to deliver each entry Times() times in a row, in the order of the queue, and nothing else. */
  lemma {:induction false} DeliveriesInOrder(infos: seq<Info>, i: nat, j: nat)
    requires i < |infos| && j < infos[i].Times()
    ensures StartOf(infos, i) + j < |Deliveries(infos)| == StartOf(infos, |infos|)
    ensures Deliveries(infos)[StartOf(infos, i) + j] == (infos[i].ev, infos[i].spec)
  {
    DeliveriesCount(infos);
    DeliveriesCount(infos[1..]);
    if i > 0 {
      DeliveriesInOrder(infos[1..], i - 1, j);
    }
  }

  lemma {:induction false} DeliveriesCount(infos: seq<Info>)
    ensures |Deliveries(infos)| == StartOf(infos, |infos|)
  {
    if infos != [] {
      DeliveriesCount(infos[1..]);
    }
  }

  ghost predicate NoDrains(es: seq<Entry>) {
    forall k :: 0 <= k < |es| ==> !es[k].Drains?
  }

  lemma {:induction false} NoDrainsTakesNothing(es: seq<Entry>)
    requires NoDrains(es)
    ensures TakenFromQueue(es) == []
  {
    if es != [] {
      NoDrainsTakesNothing(es[1..]);
    }
  }

  lemma {:induction false} CopiesAre(ev: Word, spec: Half, n: nat)
    ensures Copies(ev, spec, n) == seq(n, _ => (ev, spec))
  {
  }

  /** A drain delivers a single entry as often as its repeat count says, but at least once, and only once if port and
      repeat mark an older savestate. */
  lemma OneEntryDrained(st: State, depth: nat, batches: Batches, info: Info)
    requires Bounded(st) && st.core.queue == [info]
    ensures var r := Drained(st, depth, batches);
            var n := if info.repeat == 0 || (info.port == 0xF && info.repeat == 0xFFF) then 1 else info.repeat;
            DeliveredAt(Since(st, r), depth + 1) == seq(n, _ => (info.ev, info.spec as Word))
  {
    hide Since, DeliveredAt, Drained;
    DrainDeliversQueue(st, depth, batches);
    assert [info][1..] == [];
    assert Deliveries([info]) == Copies(info.ev, info.spec, info.Times()) + [];
    CopiesAre(info.ev, info.spec, info.Times());
  }

  /** DeliverAsyncEvent delivers exactly the entries queued when it began, in post order, each as often as its
      repeat count says, whatever its callbacks do; unless they drain the queue themselves, what they post is
      left for the next drain, in order and within the queue's size. */
  lemma DrainDeliversQueue(st: State, depth: nat, batches: Batches)
    requires Bounded(st) && st.core.queue != []
    ensures var r := Drained(st, depth, batches);
            && Traced(st, r) && Bounded(r)
            && DeliveredAt(Since(st, r), depth + 1) == AsWords(Deliveries(st.core.queue))
            && Since(st, r) != [] && Since(st, r)[0] == Drains(st.core.queue)
            && (NoDrains(Since(st, r)[1..]) ==> r.core.queue == Accepted(Since(st, r)[1..]))
  {
    var r := Drained(st, depth, batches);
    DrainedAt(st, depth, batches, depth + 1);
    TracedBounded(st, r);
    var infos := st.core.queue;
    var m := st.With(Applied(st.core, Drains(infos)), Drains(infos));
    TracedStep(st, m.core, Drains(infos));
    DrainFromAt(m, depth, Deliveries(infos), batches, depth + 1);
    TracedThen(st, m, r);
    var es := Since(st, r);
    assert es == [Drains(infos)] + Since(m, r) && es[1..] == Since(m, r);
    if NoDrains(es[1..]) {
      QueueConserved(m.core, es[1..], r.core);
      NoDrainsTakesNothing(es[1..]);
      assert m.core.queue + Accepted(es[1..]) == Accepted(es[1..]);
      assert TakenFromQueue(es[1..]) + r.core.queue == r.core.queue;
    }
  }

  // ----- busy ports -----

  ghost predicate QueuedOn(queue: seq<Info>, port: nat) {
    exists k :: 0 <= k < |queue| && queue[k].port == port
  }

  /** A drain of the queue clears the busy bit of the port: an entry without valid port clears them all. */
  ghost predicate Clears(queue: seq<Info>, port: nat) {
    QueuedOn(queue, port) || QueuedOn(queue, INVALID_PORT)
  }

  lemma QueuedFirst(infos: seq<Info>, p: nat)
    requires infos != []
    ensures QueuedOn(infos, p) <==> infos[0].port == p || QueuedOn(infos[1..], p)
  {
    if k :| 0 < k < |infos| && infos[k].port == p {
      assert infos[1..][k - 1].port == p;
    }
    if k :| 0 <= k < |infos[1..]| && infos[1..][k].port == p {
      assert infos[k + 1].port == p;
    }
  }

  /** Exactly the bits of ports on which nothing was queued are left, and none if an entry had no valid port. */
  lemma {:induction false} ClearedIff(busy: set<nat>, infos: seq<Info>, p: nat)
    ensures p in Cleared(busy, infos) <==> p in busy && !Clears(infos, p)
    decreases |infos|
  {
    if infos != [] {
      QueuedFirst(infos, p);
      QueuedFirst(infos, INVALID_PORT);
      ClearedIff(if infos[0].port == INVALID_PORT then {} else busy - {infos[0].port}, infos[1..], p);
    }
  }

  /** The next drain clears every busy bit. */
  ghost predicate Backed(c: Core) {
    forall p :: p in c.busy ==> Clears(c.queue, p)
  }

  /** A drain leaves no port busy, before its first delivery, exactly when each busy port has an event queued on it
      or some queued event has no valid port. */
  lemma DrainFreesPortsIff(c: Core)
    ensures Applied(c, Drains(c.queue)).busy == {} <==> Backed(c)
  {
    var left := Cleared(c.busy, c.queue);
    forall p: nat ensures p in left <==> p in c.busy && !Clears(c.queue, p) {
      ClearedIff(c.busy, c.queue, p);
    }
    if left == {} {
      forall p | p in c.busy ensures Clears(c.queue, p) {
        assert p !in left;
      }
    }
  }

  /** Every accepted request of the run queues an event that clears its bit. */
  ghost predicate Roomy(es: seq<Entry>) {
    forall k :: 0 <= k < |es| && es[k].Registers? ==> Clears(es[k].infos, es[k].port)
  }

  lemma ClearsMore(a: seq<Info>, b: seq<Info>, p: nat)
    ensures Clears(a + b, p) <==> Clears(a, p) || Clears(b, p)
  {
    QueuedMore(a, b, p);
    QueuedMore(a, b, INVALID_PORT);
  }

  lemma QueuedMore(a: seq<Info>, b: seq<Info>, p: nat)
    ensures QueuedOn(a + b, p) <==> QueuedOn(a, p) || QueuedOn(b, p)
  {
    if k :| 0 <= k < |a| && a[k].port == p {
      assert (a + b)[k].port == p;
    }
    if k :| 0 <= k < |b| && b[k].port == p {
      assert (a + b)[|a| + k].port == p;
    }
  }

  lemma BackedStep(c: Core, e: Entry)
    requires Backed(c) && Allowed(c, e) && Roomy([e])
    ensures Backed(Applied(c, e))
  {
    assert [e][0] == e;
    if e.Drains? {
      DrainFreesPortsIff(c);
    } else {
      var d := Applied(c, e);
      assert d.queue == c.queue + Adds(e);
      forall p | p in d.busy ensures Clears(d.queue, p) {
        ClearsMore(c.queue, Adds(e), p);
      }
    }
  }

  /** At every point of such a run the next drain would clear every busy bit, and every drain does: no port is
      refused for longer than the queue is left undrained. */
  lemma {:induction false} BusyPortsBacked(c: Core, es: seq<Entry>, k: nat, d: Core)
    requires Chain(c, es, d) && k <= |es| && Backed(c) && Roomy(es)
    ensures Backed(After(c, es, k, d))
    ensures k < |es| && es[k].Drains? ==> After(c, es, k + 1, d).busy == {}
    decreases k
  {
    if k == 0 {
      if es != [] && es[0].Drains? {
        DrainFreesPortsIff(c);
        AfterNext(c, es, 0, d);
      }
    } else {
      BackedStep(c, es[0]);
      assert forall j :: 0 <= j < |es[1..]| ==> es[1..][j] == es[j + 1];
      BusyPortsBacked(Applied(c, es[0]), es[1..], k - 1, d);
      if k < |es| {
        AfterNext(c, es, k, d);
        DrainStep(c, es, k, d);
      }
    }
  }

  lemma DrainStep(c: Core, es: seq<Entry>, k: nat, d: Core)
    requires Chain(c, es, d) && k < |es| && Backed(After(c, es, k, d))
    ensures es[k].Drains? ==> After(c, es, k + 1, d).busy == {}
  {
    AfterNext(c, es, k, d);
    if es[k].Drains? {
      DrainFreesPortsIff(After(c, es, k, d));
    }
  }

  /** After an accepted request the next drain clears the port's bit exactly when something queued before clears it,
      or the queue had room and the port is below 16, or is 31, whose four stored bits say no valid port. */
  lemma CardInfoClearedIff(st: State, channel: Channel, enabled0: bool, enabled1: bool)
    requires PortOf(channel) !in st.core.busy
    ensures var p := PortOf(channel);
            var c := CardRegistered(st, channel, enabled0, enabled1).core;
            && p in c.busy
            && (p !in Applied(c, Drains(c.queue)).busy <==>
                  Clears(st.core.queue, p) || (|st.core.queue| < QUEUE_SIZE && (p < 16 || p == 31)))
  {
    var p := PortOf(channel);
    var c := CardRegistered(st, channel, enabled0, enabled1).core;
    var room := if |st.core.queue| < QUEUE_SIZE then QUEUE_SIZE - |st.core.queue| else 0;
    var infos := CardInfos(room, p, enabled0, enabled1);
    ClearedIff(c.busy, c.queue, p);
    ClearsMore(st.core.queue, infos, p);
    assert room > 0 ==> infos[0].port == p % 16;
    assert p % 16 == p || p % 16 == INVALID_PORT <==> p < 16 || p == 31;
  }

  /** _card_info on a busy port is refused, with nothing changed; on an idle one it is accepted, and its two events
      go to the end of the queue in order, as far as there is room. */
  lemma CardInfoAccepted(st: State, channel: Channel, enabled0: bool, enabled1: bool)
    requires Bounded(st)
    ensures PortOf(channel) in st.core.busy ==> CardRegistered(st, channel, enabled0, enabled1) == st
    ensures PortOf(channel) !in st.core.busy ==>
      var p, n := PortOf(channel), |st.core.queue|;
      var c := CardRegistered(st, channel, enabled0, enabled1).core;
      && c.busy == st.core.busy + {p} && c.evcb == st.core.evcb
      && |c.queue| == (if n + 2 <= QUEUE_SIZE then n + 2 else QUEUE_SIZE) && c.queue[..n] == st.core.queue
      && (n < |c.queue| ==> c.queue[n] == Info(CLASS_CARD_BIOS, CardSpec(p, enabled0, enabled1), p % 16, 1))
      && (n + 1 < |c.queue| ==> c.queue[n + 1] == Info(CLASS_CARD_HW, SPEC_END_IO, p % 16, 1))
  {
  }

  // ----- which slots a delivery marks -----

  /** At every point of every run, whatever callbacks do, a delivery marks only a slot that is enabled, is for its
      event and spec, and has no callback; and it fires only callbacks of slots that are enabled and for them. */
  lemma MarksMatch(c: Core, es: seq<Entry>, k: nat, d: Core)
    requires Chain(c, es, d) && k < |es|
    ensures es[k].Flips? || es[k].Calls? ==>
      var evcb := After(c, es, k, d).evcb;
      && es[k].slot < |evcb|
      && var b := evcb[es[k].slot];
         && b.status == Enabled && b.ev == es[k].ev && b.spec == es[k].spec
         && (es[k].Calls? <==> b.mode == 0x1000)
    ensures es[k].Flips? ==>
      After(c, es, k + 1, d).evcb[es[k].slot].status == Delivered
  {
    AfterNext(c, es, k, d);
    assert Allowed(After(c, es, k, d), es[k]);
  }

  /** A delivery whose callbacks do nothing marks exactly the enabled slots of that event and spec that have no
      callback, and leaves every other slot alone. */
  lemma {:induction false} DeliveryMarks(st: State, depth: nat, i: nat, ev: Word, spec: Word, s: nat)
    requires s < |st.core.evcb|
    ensures var b, r := st.core.evcb[s], DeliverFrom(st, depth, i, ev, spec, NoScripts);
            && r.core.queue == st.core.queue && r.core.busy == st.core.busy
            && r.core.evcb[s] ==
               if s >= i && b.status == Enabled && b.ev == ev && b.spec == spec && b.mode != 0x1000
               then b.(status := Delivered) else b
    decreases |st.core.evcb| - i
  {
    if i < |st.core.evcb| {
      var b := st.core.evcb[i];
      if !Matches(b, ev, spec) {
        DeliveryMarks(st, depth, i + 1, ev, spec, s);
      } else if b.mode == MODE_CALLBACK {
        DeliveryMarks(st.With(st.core, Calls(i, ev, spec)), depth, i + 1, ev, spec, s);
      } else {
        DeliveryMarks(st.With(Applied(st.core, Flips(i, ev, spec)), Flips(i, ev, spec)), depth, i + 1, ev, spec, s);
      }
    }
  }

  /** UnDeliver takes the mark from exactly the marked slots of that event and spec with mode NO_CALLBACK. */
  lemma {:induction false} UnDeliverUnmarks(st: State, ev: Word, spec: Word, i: nat, s: nat)
    requires s < |st.core.evcb|
    ensures var b, r := st.core.evcb[s], UnDelivered(st, ev, spec, i);
            && r.core.queue == st.core.queue && r.core.busy == st.core.busy
            && r.core.evcb[s] ==
               if s >= i && b.status == Delivered && b.ev == ev && b.spec == spec && b.mode == MODE_NO_CALLBACK
               then b.(status := Enabled) else b
    decreases |st.core.evcb| - i
  {
    if i < |st.core.evcb| {
      var b := st.core.evcb[i];
      if b.status == Delivered && b.ev == ev && b.spec == spec && b.mode == MODE_NO_CALLBACK {
        UnDeliverUnmarks(st.With(Applied(st.core, Retracts(i)), Retracts(i)), ev, spec, i + 1, s);
      } else {
        UnDeliverUnmarks(st, ev, spec, i + 1, s);
      }
    }
  }
}
