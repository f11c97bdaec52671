/** Events and the asynchronous event queue: what each call does, on values, with a log of every elementary step. */
module EventModel {
  import opened Memory

  type Half = x: int | 0 <= x < 0x1_0000

  const MODE_CALLBACK: Word := 0x1000
  const MODE_NO_CALLBACK: Word := 0x2000

  const CLASS_CARD_HW: Word := 0xF000_0011
  const CLASS_CARD_BIOS: Word := 0xF400_0001
  const SPEC_END_IO: Half := 0x0004

  const QUEUE_SIZE := 128
  const INVALID_REPEAT := 0xFFF
  const INVALID_PORT := 0xF

  /** The repeat counts PostAsyncEvent does not stop the emulator for. */
  type Repeat = x: int | 0 <= x < 0x1_0000 && x != 0xFFF

  /** The channels whose port has a bit in busy_card_info. */
  type Channel = x: int | 0 <= x < 0x200

  datatype Status = Free | Disabled | Enabled | Delivered

  /** An event control block. */
  datatype Evcb = Evcb(ev: Word, status: Status, spec: Word, mode: Word, fhandler: Word)

  /** A queued event; the port keeps 4 bits, the repeat count 12. */
  datatype Info = Info(ev: Word, spec: Half, port: nat, repeat: nat) {
    /** How often DeliverAsyncEvent delivers it; a savestate of the older format is delivered once. */
    function Times(): (n: nat)
      ensures n >= 1
    {
      if port == INVALID_PORT && repeat == INVALID_REPEAT then 1 else if repeat == 0 then 1 else repeat
    }
  }

  // ----- callbacks -----

  // A callback is any finite script of calls. Since a callback need not do the same each time, a delivery carries
  // the scripts of the callbacks it fires, in order, and a drain those of each of its deliveries; what is missing
  // does nothing. Every terminating run, whatever its callbacks did, is the run of some such script.

  datatype Call =
    | DeliverEvent(ev: Word, spec: Word, callbacks: Scripts)
    | OpenEvent(ev: Word, spec: Word, mode: Word, func: Word)
    | CloseEvent(handle: Word)
    | EnableEvent(handle: Word)
    | DisableEvent(handle: Word)
    | WaitEvent(handle: Word)
    | TestEvent(handle: Word)
    | UnDeliverEvent(ev: Word, spec: Word)
    | PostAsyncEvent(ev: Word, spec16: Half, port: Half, repeat: Repeat)
    | CardInfo(channel: Channel, enabled0: bool, enabled1: bool)
    | DeliverAsyncEvent(batches: Batches)

  datatype Script = Done | Do(call: Call, rest: Script)
  datatype Scripts = NoScripts | Callback(first: Script, rest: Scripts)
  datatype Batches = NoBatches | Batch(first: Scripts, rest: Batches)

  function CallSize(c: Call): nat {
    match c
    case DeliverEvent(_, _, callbacks) => 1 + ScriptsSize(callbacks)
    case DeliverAsyncEvent(batches) => 1 + BatchesSize(batches)
    case _ => 1
  }

  function ScriptSize(s: Script): nat {
    match s
    case Done => 0
    case Do(call, rest) => 1 + CallSize(call) + ScriptSize(rest)
  }

  function ScriptsSize(s: Scripts): nat {
    match s
    case NoScripts => 0
    case Callback(first, rest) => 1 + ScriptSize(first) + ScriptsSize(rest)
  }

  function BatchesSize(b: Batches): nat {
    match b
    case NoBatches => 0
    case Batch(first, rest) => 1 + ScriptsSize(first) + BatchesSize(rest)
  }

  // ----- state and log -----

  /** One elementary step. */
  datatype Entry =
    | Opens(slot: nat, block: Evcb)          // OpenEvent takes the slot
    | Sets(slot: nat, status: Status)        // Enable, Disable or Close of an open slot
    | Flips(slot: nat, ev: Word, spec: Word) // a delivery of ev and spec marks the slot
    | Calls(slot: nat, ev: Word, spec: Word) // a delivery of ev and spec fires the slot's callback
    | Takes(slot: nat)                       // Test or Wait finds the slot delivered
    | Retracts(slot: nat)                    // UnDeliver
    | Delivers(depth: nat, ev: Word, spec: Word)   // DeliverEvent begins
    | Posts(info: Info)                      // the queue accepts
    | Drops(info: Info)                      // the queue is full
    | Drains(infos: seq<Info>)               // DeliverAsyncEvent takes the queue
    | Registers(port: nat, infos: seq<Info>) // _card_info takes the port and queues its events

  /** The event table, the queue and the busy bits. */
  datatype Core = Core(evcb: seq<Evcb>, queue: seq<Info>, busy: set<nat>)

  datatype State = State(core: Core, log: seq<Entry>) {
    function With(c: Core, e: Entry): State {
      State(c, log + [e])
    }
  }

  /** The busy bits left once the entries have been taken from the queue. */
  function Cleared(busy: set<nat>, infos: seq<Info>): set<nat> {
    if infos == [] then busy
    else Cleared(if infos[0].port == INVALID_PORT then {} else busy - {infos[0].port}, infos[1..])
  }

  /** A delivery of ev and spec is for the slot. */
  predicate Matches(b: Evcb, ev: Word, spec: Word) {
    b.status == Enabled && b.ev == ev && b.spec == spec
  }

  /** May the step be taken, and what does it do? */
  ghost predicate Allowed(c: Core, e: Entry) {
    match e
    case Opens(s, b) => s < |c.evcb| && c.evcb[s].status == Free && b.status == Disabled
    case Sets(s, status) => s < |c.evcb| && c.evcb[s].status != Free && status != Delivered
    case Flips(s, ev, spec) => s < |c.evcb| && Matches(c.evcb[s], ev, spec) && c.evcb[s].mode != MODE_CALLBACK
    case Calls(s, ev, spec) => s < |c.evcb| && Matches(c.evcb[s], ev, spec) && c.evcb[s].mode == MODE_CALLBACK
    case Takes(s) => s < |c.evcb| && c.evcb[s].status == Delivered
    case Retracts(s) => s < |c.evcb| && c.evcb[s].status == Delivered && c.evcb[s].mode == MODE_NO_CALLBACK
    case Delivers(_, _, _) => true
    case Posts(_) => |c.queue| < QUEUE_SIZE
    case Drops(_) => |c.queue| >= QUEUE_SIZE
    case Drains(infos) => infos == c.queue
    case Registers(p, infos) => p !in c.busy && |c.queue| + |infos| <= QUEUE_SIZE && p < 32
  }

  ghost function Applied(c: Core, e: Entry): Core
    requires Allowed(c, e)
  {
    match e
    case Opens(s, b) => c.(evcb := c.evcb[s := b])
    case Sets(s, status) => c.(evcb := c.evcb[s := c.evcb[s].(status := status)])
    case Flips(s, _, _) => c.(evcb := c.evcb[s := c.evcb[s].(status := Delivered)])
    case Calls(_, _, _) => c
    case Takes(s) =>
      if c.evcb[s].mode == MODE_NO_CALLBACK then c.(evcb := c.evcb[s := c.evcb[s].(status := Enabled)]) else c
    case Retracts(s) => c.(evcb := c.evcb[s := c.evcb[s].(status := Enabled)])
    case Delivers(_, _, _) => c
    case Posts(info) => c.(queue := c.queue + [info])
    case Drops(_) => c
    case Drains(infos) => c.(queue := [], busy := Cleared(c.busy, infos))
    case Registers(p, infos) => c.(busy := c.busy + {p}, queue := c.queue + infos)
  }

  /** The steps lead from c to d, each being allowed where it is taken. */
  ghost predicate Chain(c: Core, es: seq<Entry>, d: Core)
    decreases |es|
  {
    if es == [] then c == d else Allowed(c, es[0]) && Chain(Applied(c, es[0]), es[1..], d)
  }

  // ----- the calls -----

  /** isValidSlot and & 0xFFFF. */
  function SlotOf(handle: Word): nat {
    handle % 0x1_0000
  }

  function FreeSlot(evcb: seq<Evcb>, i: nat): (s: nat)
    requires i <= |evcb|
    ensures i <= s <= |evcb|
    ensures s < |evcb| ==> evcb[s].status == Free
    ensures forall k :: i <= k < s ==> evcb[k].status != Free
    decreases |evcb| - i
  {
    if i == |evcb| || evcb[i].status == Free then i else FreeSlot(evcb, i + 1)
  }

  function Opened(st: State, ev: Word, spec: Word, mode: Word, func: Word): State {
    var s := FreeSlot(st.core.evcb, 0);
    if s == |st.core.evcb| then st
    else
      var b := Evcb(ev, Disabled, spec, mode, func);
      st.With(st.core.(evcb := st.core.evcb[s := b]), Opens(s, b))
  }

  /** setOpenEventStatus. */
  function StatusSet(st: State, handle: Word, status: Status): State {
    var s := SlotOf(handle);
    if s >= |st.core.evcb| || st.core.evcb[s].status == Free then st
    else st.With(st.core.(evcb := st.core.evcb[s := st.core.evcb[s].(status := status)]), Sets(s, status))
  }

  /** TestEvent; WaitEvent too, except that on an enabled event it makes the program call it again. */
  function Tested(st: State, handle: Word): State {
    var s := SlotOf(handle);
    if s >= |st.core.evcb| || st.core.evcb[s].status != Delivered then st
    else if st.core.evcb[s].mode == MODE_NO_CALLBACK then
      st.With(st.core.(evcb := st.core.evcb[s := st.core.evcb[s].(status := Enabled)]), Takes(s))
    else st.With(st.core, Takes(s))
  }

  function UnDelivered(st: State, ev: Word, spec: Word, i: nat): (r: State)
    ensures |r.core.evcb| == |st.core.evcb|
    decreases |st.core.evcb| - i
  {
    if i >= |st.core.evcb| then st
    else
      var b := st.core.evcb[i];
      if b.status == Delivered && b.ev == ev && b.spec == spec && b.mode == MODE_NO_CALLBACK then
        UnDelivered(st.With(st.core.(evcb := st.core.evcb[i := b.(status := Enabled)]), Retracts(i)), ev, spec, i + 1)
      else UnDelivered(st, ev, spec, i + 1)
  }

  function Posted(st: State, ev: Word, spec: Half, port: Half, repeat: Repeat): State {
    var info := Info(ev, spec, port % 16, repeat % 4096);
    if |st.core.queue| < QUEUE_SIZE then st.With(st.core.(queue := st.core.queue + [info]), Posts(info))
    else st.With(st.core, Drops(info))
  }

  /** 1 << ret, as a 16-bit event spec. */
  function CardSpec(port: nat, enabled0: bool, enabled1: bool): Half {
    if !enabled0 && !enabled1 then 0x100
    else if port == 0 then (if enabled0 then 0x4 else 0x100)
    else if port == 1 then (if enabled1 then 0x4 else 0x100)
    else 0
  }

  /** The two events of _card_info, as far as the queue has room. */
  function CardInfos(room: nat, port: nat, enabled0: bool, enabled1: bool): (r: seq<Info>)
    ensures |r| <= room && |r| <= 2 && (r == [] <==> room == 0)
    ensures forall k :: 0 <= k < |r| ==> r[k].port == port % 16
  {
    var bios := Info(CLASS_CARD_BIOS, CardSpec(port, enabled0, enabled1), port % 16, 1);
    var hw := Info(CLASS_CARD_HW, SPEC_END_IO, port % 16, 1);
    if room == 0 then [] else if room == 1 then [bios] else [bios, hw]
  }

  function PortOf(channel: Channel): (p: nat)
    ensures p < 32
  {
    channel / 16
  }

  function CardRegistered(st: State, channel: Channel, enabled0: bool, enabled1: bool): State {
    var p := PortOf(channel);
    if p in st.core.busy then st
    else
      var room := if |st.core.queue| < QUEUE_SIZE then QUEUE_SIZE - |st.core.queue| else 0;
      var infos := CardInfos(room, p, enabled0, enabled1);
      st.With(st.core.(busy := st.core.busy + {p}, queue := st.core.queue + infos), Registers(p, infos))
  }

  // ----- deliveries and scripts -----

  function RunScript(st: State, depth: nat, s: Script): (r: State)
    ensures |r.core.evcb| == |st.core.evcb|
    decreases ScriptSize(s), 0, 0
  {
    match s
    case Done => st
    case Do(call, rest) => RunScript(RunCall(st, depth, call), depth, rest)
  }

  function RunCall(st: State, depth: nat, c: Call): (r: State)
    ensures |r.core.evcb| == |st.core.evcb|
    decreases CallSize(c), 3, 0
  {
    match c
    case DeliverEvent(ev, spec, callbacks) => DeliverAll(st, depth, ev, spec, callbacks)
    case OpenEvent(ev, spec, mode, func) => Opened(st, ev, spec, mode, func)
    case CloseEvent(handle) => StatusSet(st, handle, Free)
    case EnableEvent(handle) => StatusSet(st, handle, Enabled)
    case DisableEvent(handle) => StatusSet(st, handle, Disabled)
    case WaitEvent(handle) => Tested(st, handle)
    case TestEvent(handle) => Tested(st, handle)
    case UnDeliverEvent(ev, spec) => UnDelivered(st, ev, spec, 0)
    case PostAsyncEvent(ev, spec, port, repeat) => Posted(st, ev, spec, port, repeat)
    case CardInfo(channel, enabled0, enabled1) => CardRegistered(st, channel, enabled0, enabled1)
    case DeliverAsyncEvent(batches) => Drained(st, depth, batches)
  }

  /** DeliverEvent. */
  function DeliverAll(st: State, depth: nat, ev: Word, spec: Word, callbacks: Scripts): (r: State)
    ensures |r.core.evcb| == |st.core.evcb|
    decreases ScriptsSize(callbacks), 2, 0
  {
    DeliverFrom(st.With(st.core, Delivers(depth, ev, spec)), depth, 0, ev, spec, callbacks)
  }

  /** DeliverEvent from slot i on: a callback runs at once, and the loop goes on with what it left. */
  function DeliverFrom(st: State, depth: nat, i: nat, ev: Word, spec: Word, callbacks: Scripts): (r: State)
    ensures |r.core.evcb| == |st.core.evcb|
    decreases ScriptsSize(callbacks), 1, |st.core.evcb| - i
  {
    if i >= |st.core.evcb| then st
    else
      var b := st.core.evcb[i];
      if b.status == Enabled && b.ev == ev && b.spec == spec then
        if b.mode == MODE_CALLBACK then
          var called := st.With(st.core, Calls(i, ev, spec));
          match callbacks
          case NoScripts => DeliverFrom(called, depth, i + 1, ev, spec, NoScripts)
          case Callback(first, rest) => DeliverFrom(RunScript(called, depth + 1, first), depth, i + 1, ev, spec, rest)
        else
          DeliverFrom(st.With(st.core.(evcb := st.core.evcb[i := b.(status := Delivered)]), Flips(i, ev, spec)),
                      depth, i + 1, ev, spec, callbacks)
      else DeliverFrom(st, depth, i + 1, ev, spec, callbacks)
  }

  /** DeliverAsyncEvent. */
  function Drained(st: State, depth: nat, batches: Batches): (r: State)
    ensures |r.core.evcb| == |st.core.evcb|
    decreases BatchesSize(batches), 5, 0
  {
    if st.core.queue == [] then st
    else
      var infos := st.core.queue;
      DrainFrom(st.With(st.core.(queue := [], busy := Cleared(st.core.busy, infos)), Drains(infos)),
                depth, Deliveries(infos), batches)
  }

  /** The deliveries that are due for entries taken from the queue. */
  function Deliveries(infos: seq<Info>): seq<(Word, Half)> {
    if infos == [] then [] else Copies(infos[0].ev, infos[0].spec, infos[0].Times()) + Deliveries(infos[1..])
  }

  function Copies(ev: Word, spec: Half, n: nat): (r: seq<(Word, Half)>)
    ensures |r| == n && forall k :: 0 <= k < n ==> r[k] == (ev, spec)
  {
    if n == 0 then [] else [(ev, spec)] + Copies(ev, spec, n - 1)
  }

  /** The deliveries of a drain, one after the other, one level deeper. */
  function DrainFrom(st: State, depth: nat, due: seq<(Word, Half)>, batches: Batches): (r: State)
    ensures |r.core.evcb| == |st.core.evcb|
    decreases BatchesSize(batches), 4, |due|
  {
    if due == [] then st
    else
      match batches
      case NoBatches =>
        DrainFrom(DeliverAll(st, depth + 1, due[0].0, due[0].1, NoScripts), depth, due[1..], NoBatches)
      case Batch(first, rest) =>
        DrainFrom(DeliverAll(st, depth + 1, due[0].0, due[0].1, first), depth, due[1..], rest)
  }
}
