/** The event calls on the kernel's tables, each proved to be what EventModel says it is. */
module EventKernel {
  import opened EventLaws
  import opened EventModel
  import opened Memory

  class Kernel {
    const evcb: array<Evcb>
    const asyncEvents: array<Info>
    var asyncEventNb: nat
    var busyCardInfo: set<nat>      // the bits of busy_card_info
    ghost var log: seq<Entry>

    ghost predicate Valid()
      reads this
    {
      evcb.Length < 0x100_0000 && asyncEvents.Length == QUEUE_SIZE && asyncEventNb <= QUEUE_SIZE
    }

    ghost function Now(): State
      requires Valid()
      reads this, evcb, asyncEvents
    {
      State(Core(evcb[..], asyncEvents[..asyncEventNb], busyCardInfo), log)
    }

    /** initEvents: every slot free, nothing queued. */
    constructor (evcbMax: nat)
      requires evcbMax < 0x100_0000
      ensures Valid() && fresh(evcb) && fresh(asyncEvents) && evcb.Length == evcbMax
      ensures Now() == State(Core(seq(evcbMax, _ => Evcb(0, Free, 0, 0, 0)), [], {}), [])
    {
      evcb := new Evcb[evcbMax](_ => Evcb(0, Free, 0, 0, 0));
      asyncEvents := new Info[QUEUE_SIZE](_ => Info(0, 0, 0, 0));
      asyncEventNb := 0;
      busyCardInfo := {};
      log := [];
    }

    // ----- single slots -----

    method GetFreeEventSlot() returns (slot: int)
      requires Valid()
      ensures var s := FreeSlot(evcb[..], 0); slot == if s < evcb.Length then s else -1
    {
      for i := 0 to evcb.Length
        invariant FreeSlot(evcb[..], 0) == FreeSlot(evcb[..], i)
      {
        if evcb[i].status == Free {
          return i;
        }
      }
      return -1;
    }

    /** BIOS call B(08h): the handle of a slot that was free, or -1 when there is none. */
    method OpenEvent(a0: Word, a1: Word, a2: Word, a3: Word) returns (v0: int)
      requires Valid()
      modifies this, evcb
      ensures Valid() && Now() == Opened(old(Now()), a0, a1, a2, a3)
      ensures var s := FreeSlot(old(evcb[..]), 0); v0 == if s < evcb.Length then 0xF100_0000 + s else -1
      ensures v0 != -1 ==>
        var s := v0 - 0xF100_0000;
        && 0 <= s < evcb.Length && old(evcb[..])[s].status == Free
        && evcb[s].ev == a0 && evcb[s].spec == a1 && evcb[s].mode == a2 && evcb[s].fhandler == a3
        && evcb[s].status == Disabled && forall k :: 0 <= k < evcb.Length && k != s ==> evcb[k] == old(evcb[..])[k]
    {
      var slot := GetFreeEventSlot();
      if slot < 0 {
        return slot;
      }
      ghost var b := Evcb(a0, Disabled, a1, a2, a3);
      evcb[slot] := evcb[slot].(status := Disabled);
      evcb[slot] := evcb[slot].(ev := a0);
      evcb[slot] := evcb[slot].(spec := a1);
      evcb[slot] := evcb[slot].(mode := a2);
      evcb[slot] := evcb[slot].(fhandler := a3);
      log := log + [Opens(slot, b)];
      return 0xF100_0000 + slot;
    }

    predicate IsValidSlot(handle: Word) {
      SlotOf(handle) < evcb.Length
    }

    /** setOpenEventStatus. */
    method SetOpenEventStatus(handle: Word, status: Status)
      requires Valid()
      modifies this`log, evcb
      ensures Valid() && Now() == StatusSet(old(Now()), handle, status)
    {
      if !IsValidSlot(handle) {
        return;
      }
      var slot := SlotOf(handle);
      if evcb[slot].status != Free {
        evcb[slot] := evcb[slot].(status := status);
        log := log + [Sets(slot, status)];
      }
    }

    /** BIOS call B(0Bh): 1 exactly when a delivery is taken, or found on a slot of an unknown mode. */
    method TestEvent(a0: Word) returns (v0: Word)
      requires Valid()
      modifies this`log, evcb
      ensures Valid() && Now() == Tested(old(Now()), a0)
      ensures v0 == if a0 % 0x1_0000 < evcb.Length && old(evcb[..])[a0 % 0x1_0000].status == Delivered then 1 else 0
    {
      if !IsValidSlot(a0) {
        return 0;
      }
      var slot := SlotOf(a0);
      if evcb[slot].status == Delivered {
        if evcb[slot].mode == MODE_NO_CALLBACK {
          evcb[slot] := evcb[slot].(status := Enabled);
        }
        log := log + [Takes(slot)];
        return 1;
      } else {
        return 0;
      }
    }

    /** BIOS call B(0Ah); again means that the program is made to call it once more. */
    method WaitEvent(a0: Word) returns (v0: Word, again: bool)
      requires Valid()
      modifies this`log, evcb
      ensures Valid() && Now() == Tested(old(Now()), a0)
      ensures v0 == if a0 % 0x1_0000 < evcb.Length && old(evcb[..])[a0 % 0x1_0000].status == Delivered then 1 else 0
      ensures again <==> a0 % 0x1_0000 < evcb.Length && old(evcb[..])[a0 % 0x1_0000].status == Enabled
    {
      var slot := SlotOf(a0);
      if !IsValidSlot(a0) {
        return 0, false;
      }
      match evcb[slot].status
      case Delivered =>
        if evcb[slot].mode == MODE_NO_CALLBACK {
          evcb[slot] := evcb[slot].(status := Enabled);
        }
        log := log + [Takes(slot)];
        return 1, false;
      case Enabled =>
        return 0, true;
      case _ =>
        return 0, false;
    }

    /** BIOS call B(20h). */
    method UnDeliverEvent(a0: Word, a1: Word)
      requires Valid()
      modifies this`log, evcb
      ensures Valid() && Now() == UnDelivered(old(Now()), a0, a1, 0)
    {
      for i := 0 to evcb.Length
        invariant Valid() && UnDelivered(Now(), a0, a1, i) == UnDelivered(old(Now()), a0, a1, 0)
      {
        if evcb[i].status == Delivered && evcb[i].ev == a0 && evcb[i].spec == a1 {
          if evcb[i].mode == MODE_NO_CALLBACK {
            evcb[i] := evcb[i].(status := Enabled);
            log := log + [Retracts(i)];
          }
        }
      }
    }

    // ----- the queue -----

    /** PostAsyncEvent. */
    method PostAsyncEvent(ev: Word, spec: Half, port: Half, repeat: Repeat)
      requires Valid()
      modifies this, asyncEvents
      ensures Valid() && Now() == Posted(old(Now()), ev, spec, port, repeat)
    {
      ghost var info := Info(ev, spec, port % 16, repeat % 4096);
      if asyncEventNb < QUEUE_SIZE {
        asyncEvents[asyncEventNb] := Info(ev, spec, port % 16, repeat % 4096);
        asyncEventNb := asyncEventNb + 1;
        log := log + [Posts(info)];
      } else {
        log := log + [Drops(info)];
      }
    }

    /** BIOS call A(ABh), given which memory cards are present. */
    method CardInfo(a0: Channel, vmcEnabled0: bool, vmcEnabled1: bool) returns (v0: Word)
      requires Valid()
      modifies this, asyncEvents
      ensures Valid() && Now() == CardRegistered(old(Now()), a0, vmcEnabled0, vmcEnabled1)
      ensures v0 == if a0 / 16 in old(busyCardInfo) then 0 else 1
    {
      var port := PortOf(a0);
      if port in busyCardInfo {
        return 0;
      }
      ghost var before, oldLog := Now(), log;
      busyCardInfo := busyCardInfo + {port};
      var ret := 0x11;
      if port == 0 {
        ret := if vmcEnabled0 then 0x2 else 0x8;
      } else if port == 1 {
        ret := if vmcEnabled1 then 0x2 else 0x8;
      }
      if !vmcEnabled0 && !vmcEnabled1 {
        ret := 0x8;
      }
      ghost var ready := Now();
      PostAsyncEvent(CLASS_CARD_BIOS, ShiftedOne(ret), port, 1);
      PostAsyncEvent(CLASS_CARD_HW, SPEC_END_IO, port, 1);
      ghost var infos := CardInfos(QUEUE_SIZE - |before.core.queue|, port, vmcEnabled0, vmcEnabled1);
      TwoPosts(ready, port, vmcEnabled0, vmcEnabled1);
      log := oldLog + [Registers(port, infos)];
      return 1;
    }

    // ----- deliveries -----

    /** DeliverEvent. */
    method DeliverEvent(ev: Word, spec: Word, callbacks: Scripts, ghost depth: nat)
      requires Valid()
      modifies this, evcb, asyncEvents
      ensures Valid() && Now() == DeliverAll(old(Now()), depth, ev, spec, callbacks)
      decreases ScriptsSize(callbacks), 2
    {
      log := log + [Delivers(depth, ev, spec)];
      ghost var start := Now();
      var todo := callbacks;
      var i := 0;
      while i < evcb.Length
        invariant Valid() && ScriptsSize(todo) <= ScriptsSize(callbacks)
        invariant DeliverFrom(Now(), depth, i, ev, spec, todo) == DeliverFrom(start, depth, 0, ev, spec, callbacks)
        decreases evcb.Length - i
      {
        if evcb[i].status == Enabled && evcb[i].ev == ev && evcb[i].spec == spec {
          if evcb[i].mode == MODE_CALLBACK {
            log := log + [Calls(i, ev, spec)];
            match todo {
              case NoScripts =>
              case Callback(first, rest) =>
                SoftCall(first, depth + 1);
                todo := rest;
            }
          } else {
            evcb[i] := evcb[i].(status := Delivered);
            log := log + [Flips(i, ev, spec)];
          }
        }
        i := i + 1;
      }
    }

    /** softCall of a callback that makes the calls of the script. */
    method SoftCall(script: Script, ghost depth: nat)
      requires Valid()
      modifies this, evcb, asyncEvents
      ensures Valid() && Now() == RunScript(old(Now()), depth, script)
      decreases ScriptSize(script), 0
    {
      match script
      case Done =>
      case Do(call, rest) =>
        Perform(call, depth);
        SoftCall(rest, depth);
    }

    method Perform(call: Call, ghost depth: nat)
      requires Valid()
      modifies this, evcb, asyncEvents
      ensures Valid() && Now() == RunCall(old(Now()), depth, call)
      decreases CallSize(call), 3
    {
      match call {
        case DeliverEvent(ev, spec, callbacks) => DeliverEvent(ev, spec, callbacks, depth);
        case OpenEvent(ev, spec, mode, func) => var _ := OpenEvent(ev, spec, mode, func);
        case CloseEvent(handle) => SetOpenEventStatus(handle, Free);
        case EnableEvent(handle) => SetOpenEventStatus(handle, Enabled);
        case DisableEvent(handle) => SetOpenEventStatus(handle, Disabled);
        case WaitEvent(handle) => var _, _ := WaitEvent(handle);
        case TestEvent(handle) => var _ := TestEvent(handle);
        case UnDeliverEvent(ev, spec) => UnDeliverEvent(ev, spec);
        case PostAsyncEvent(ev, spec, port, repeat) => PostAsyncEvent(ev, spec, port, repeat);
        case CardInfo(channel, enabled0, enabled1) => var _ := CardInfo(channel, enabled0, enabled1);
        case DeliverAsyncEvent(batches) => DeliverAsyncEvent(batches, depth);
      }
    }

    /** DeliverAsyncEvent. */
    method DeliverAsyncEvent(batches: Batches, ghost depth: nat)
      requires Valid()
      modifies this, evcb, asyncEvents
      ensures Valid() && Now() == Drained(old(Now()), depth, batches)
      decreases BatchesSize(batches), 5
    {
      if asyncEventNb == 0 {
        return;
      }
      var events := asyncEvents[..asyncEventNb];
      var nb := asyncEventNb;
      asyncEventNb := 0;
      for i := 0 to nb
        invariant Cleared(busyCardInfo, events[i..]) == Cleared(old(busyCardInfo), events)
        modifies this`busyCardInfo
      {
        assert events[i..][1..] == events[i + 1..];
        if events[i].port == INVALID_PORT {
          busyCardInfo := {};
        } else {
          busyCardInfo := busyCardInfo - {events[i].port};
        }
      }
      assert events[nb..] == [];
      log := log + [Drains(events)];
      assert Now() == old(Now()).With(old(Now()).core.(queue := [], busy := Cleared(old(busyCardInfo), events)), Drains(events));
      ghost var start, due := Now(), Deliveries(events);
      var todo := batches;
      for i := 0 to nb
        invariant Valid() && BatchesSize(todo) <= BatchesSize(batches)
        invariant DrainFrom(Now(), depth, Deliveries(events[i..]), todo) == DrainFrom(start, depth, due, batches)
      {
        assert events[i..][1..] == events[i + 1..];
        var repeat := if events[i].repeat > 1 then events[i].repeat else 1;
        if events[i].port == INVALID_PORT && events[i].repeat == INVALID_REPEAT {
          repeat := 1;
        }
        ghost var later := Deliveries(events[i + 1..]);
        assert repeat == events[i].Times();
        assert Deliveries(events[i..]) == Copies(events[i].ev, events[i].spec, repeat) + later;
        for j := 0 to repeat
          invariant Valid() && BatchesSize(todo) <= BatchesSize(batches)
          invariant DrainFrom(Now(), depth, Copies(events[i].ev, events[i].spec, repeat - j) + later, todo)
                 == DrainFrom(start, depth, due, batches)
        {
          FirstCopy(events[i].ev, events[i].spec, repeat - j, later);
          var callbacks := NoScripts;
          match todo {
            case NoBatches =>
            case Batch(first, rest) => callbacks, todo := first, rest;
          }
          DeliverEvent(events[i].ev, events[i].spec, callbacks, depth + 1);
        }
        assert Copies(events[i].ev, events[i].spec, 0) + later == later;
      }
      assert events[nb..] == [];
    }
  }

  /** A program that opens an event, enables it, has it delivered and polls it: the poll answers 1. */
  method Signal(k: Kernel, ev: Word, spec: Word, func: Word) returns (handle: int, v0: Word)
    requires k.Valid() && k.evcb.Length <= 0x1_0000 && exists s :: 0 <= s < k.evcb.Length && k.evcb[s].status == Free
    modifies k, k.evcb, k.asyncEvents
    ensures k.Valid() && v0 == 1 && 0 <= handle - 0xF100_0000 < k.evcb.Length
    ensures k.evcb[handle - 0xF100_0000] == Evcb(ev, Enabled, spec, MODE_NO_CALLBACK, func)
  {
    ghost var st := k.Now();
    handle := k.OpenEvent(ev, spec, MODE_NO_CALLBACK, func);
    OpenedIsDelivered(st, 0, ev, spec, func, handle - 0xF100_0000);
    k.SetOpenEventStatus(handle, Enabled);
    k.DeliverEvent(ev, spec, NoScripts, 0);
    v0 := k.TestEvent(handle);
  }

  /** The two posts of _card_info, as far as the queue has room. */
  lemma TwoPosts(st: State, port: Half, enabled0: bool, enabled1: bool)
    requires |st.core.queue| <= QUEUE_SIZE
    ensures var m := Posted(st, CLASS_CARD_BIOS, CardSpec(port, enabled0, enabled1), port, 1);
            var r := Posted(m, CLASS_CARD_HW, SPEC_END_IO, port, 1);
            r.core == st.core.(queue := st.core.queue + CardInfos(QUEUE_SIZE - |st.core.queue|, port, enabled0, enabled1))
  {
  }

  lemma FirstCopy(ev: Word, spec: Half, n: nat, later: seq<(Word, Half)>)
    requires n > 0
    ensures (Copies(ev, spec, n) + later)[0] == (ev, spec)
    ensures (Copies(ev, spec, n) + later)[1..] == Copies(ev, spec, n - 1) + later
  {
  }

  /** 1 << ret, passed as a 16-bit spec. */
  function ShiftedOne(ret: nat): Half {
    if ret == 0x2 then 0x4 else if ret == 0x8 then 0x100 else 0
  }
}
