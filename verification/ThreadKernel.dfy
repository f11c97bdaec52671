/** The thread calls on the machine's registers and memory, each proved to be what Threads says it is. */
module ThreadKernel {
  import opened Memory
  import opened Threads

  class Kernel {
    const gpr: array<Word>
    const ram: array<Word>
    var hi: Word
    var lo: Word
    var pc0: Word
    var status: Word
    var cause: Word
    var epc: Word

    ghost function Cpu(): File
      reads this, gpr
    {
      File(gpr[..], hi, lo, pc0, status)
    }

    ghost function State(): Machine
      reads this, gpr, ram
    {
      Machine(Cpu(), cause, ram[..])
    }

    predicate Sized() {
      gpr.Length == 32 && ram.Length == RAM_SIZE / 4 && gpr != ram
    }

    constructor ()
      ensures Sized() && fresh(gpr) && fresh(ram)
    {
      gpr := new Word[32](_ => 0);
      ram := new Word[RAM_SIZE / 4](_ => 0);
      hi, lo, pc0, status, cause, epc := 0, 0, 0, 0, 0, 0;
    }

    /** saveContextR3K, into the block whose first word has index c. */
    method SaveContextR3K(c: nat)
      requires Sized() && c + TCB_WORDS <= ram.Length
      modifies ram
      ensures ram[..] == SavedR3K(old(ram[..]), c, Cpu())
    {
      ghost var w := ram[..];
      for i := 0 to 32
        invariant ram[..] == Overlay(w, c + TCB_REGS_IDX, gpr[..i])
      {
        ram[c + TCB_REGS_IDX + i] := gpr[i];
      }
      assert gpr[..32] == gpr[..];
      ram[c + TCB_HI_IDX] := hi;
      ram[c + TCB_LO_IDX] := lo;
    }

    /** restoreContextR3K. */
    method RestoreContextR3K(c: nat)
      requires Sized() && c + TCB_WORDS <= ram.Length
      modifies gpr, this`hi, this`lo
      ensures gpr[..] == ram[c + TCB_REGS_IDX..c + TCB_REGS_IDX + 32]
      ensures hi == ram[c + TCB_HI_IDX] && lo == ram[c + TCB_LO_IDX]
    {
      for i := 0 to 32
        invariant gpr[..i] == ram[c + TCB_REGS_IDX..c + TCB_REGS_IDX + i]
      {
        gpr[i] := ram[c + TCB_REGS_IDX + i];
      }
      hi := ram[c + TCB_HI_IDX];
      lo := ram[c + TCB_LO_IDX];
    }

    method SaveContextChangeThread(tcb: Word)
      requires Sized() && WordAt(tcb) + TCB_WORDS <= ram.Length
      modifies ram, this`status
      ensures ram[..] == SavedContext(old(ram[..]), WordAt(tcb), old(Cpu()), gpr[RA], EnterException(old(status)), cause)
      ensures status == EnterException(old(status))
    {
      var c := WordAt(tcb);
      SaveContextR3K(c);
      ram[c + TCB_PC_IDX] := gpr[RA];
      status := EnterException(status);
      ram[c + TCB_STATUS_IDX] := status;
      ram[c + TCB_CAUSE_IDX] := cause;
    }

    method RestoreContextChangeThread(tcb: Word)
      requires Sized() && WordAt(tcb) + TCB_WORDS <= ram.Length
      modifies gpr, this`hi, this`lo, this`pc0, this`status
      ensures Cpu() == Resumed(ram[..], WordAt(tcb))
    {
      var c := WordAt(tcb);
      RestoreContextR3K(c);
      pc0 := ram[c + TCB_PC_IDX];
      status := Rfe(ram[c + TCB_STATUS_IDX]);
      gpr[K0] := pc0;
    }

    /** BIOS call B(10h). */
    method ChangeTh(a0: Word, ghost t: Tables, ghost cur: nat)
      requires Sized() && t.Set(ram[..], cur) && a0 % 0x100 < t.n
      modifies this, gpr, ram
      ensures State() == Changed(t, old(State()), cur, a0 % 0x100)
    {
      hide SavedContext, Resumed, EnterException, WordAt;
      var th := a0 % 0x100;
      ghost var m := State();
      SlotAddress(t, cur);
      SlotAddress(t, th);
      SlotInTable(t, th);
      gpr[V0] := 1;
      var pcb := ram[G_PROCESS / 4];
      var current := ram[WordAt(pcb)];
      ghost var f := Cpu();
      assert f == m.cpu.(gpr := m.cpu.gpr[V0 := 1]);
      SaveContextChangeThread(current);
      ghost var w := ram[..];
      SaveRunning(t, m.ram, cur, f, f.gpr[RA], EnterException(f.sr), m.cause);
      var tcb: Word := (ram[G_THREADS / 4] + th * SIZEOF_TCB) % WORD;
      RestoreContextChangeThread(tcb);
      ram[WordAt(pcb)] := InKernelSegment(tcb);
    }

    /** BIOS call B(0Eh). */
    method OpenTh(a0: Word, a1: Word, a2: Word, ghost t: Tables, ghost cur: nat)
      requires Sized() && t.Set(ram[..], cur) && t.n < 0x100_0000
      modifies this, gpr, ram
      ensures State() == Opened(t, old(State()), cur, a0, a1, a2)
    {
      hide WordAt;
      ghost var m := State();
      var tcbMax := ram[G_THREADS_SIZE / 4] / SIZEOF_TCB;
      assert tcbMax == t.n;
      var tcb := ram[G_THREADS / 4];
      var th := 0;
      while th < tcbMax
        invariant th <= tcbMax && tcb == KSEG0 + t.tcb + SIZEOF_TCB * th
        invariant FirstFree(t, m.ram, 0) == FirstFree(t, m.ram, th)
        invariant State() == m
      {
        SlotAddress(t, th);
        if ram[WordAt(tcb)] == TCB_THREAD_FREE {
          break;
        }
        th := th + 1;
        tcb := tcb + SIZEOF_TCB;
      }
      if th == tcbMax {
        gpr[V0] := 0xFFFF_FFFF;
        pc0 := gpr[RA];
        return;
      }
      var c := WordAt(tcb);
      ram[c] := TCB_THREAD_RESERVED;
      ram[c + 2 + 28] := a2;
      ram[c + 2 + 29] := a1;
      ram[c + 2 + 30] := a1;
      ram[c + 2 + 32] := a0;
      gpr[V0] := 0xFF00_0000 + th;
      pc0 := gpr[RA];
    }

    /** BIOS call B(0Fh). */
    method CloseTh(a0: Word, ghost t: Tables, ghost cur: nat)
      requires Sized() && t.Set(ram[..], cur) && a0 % 0x100 < t.n
      modifies this, gpr, ram
      ensures State() == Closed(t, old(State()), cur, a0 % 0x100)
      ensures gpr[V0] == 1 && pc0 == old(gpr[RA]) && ram[t.Slot(a0 % 0x100)] == TCB_THREAD_FREE
    {
      var th := a0 % 0x100;
      SlotAddress(t, th);
      var tcb: Word := (ram[G_THREADS / 4] + th * SIZEOF_TCB) % WORD;
      ram[WordAt(tcb)] := TCB_THREAD_FREE;
      gpr[V0] := 1;
      pc0 := gpr[RA];
    }

    /** saveContextException. */
    method SaveContextException(ghost t: Tables, ghost cur: nat)
      requires Sized() && t.Set(ram[..], cur)
      modifies ram
      ensures ram[..] == SavedContext(old(ram[..]), t.Slot(cur), Cpu(), epc, status, cause)
      ensures t.Set(ram[..], cur)
    {
      hide WordAt, Resumed;
      SlotAddress(t, cur);
      SaveRunning(t, ram[..], cur, Cpu(), epc, status, cause);
      var pcb := ram[G_PROCESS / 4];
      var tcb := ram[WordAt(pcb)];
      var c := WordAt(tcb);
      SaveContextR3K(c);
      ram[c + TCB_PC_IDX] := epc;
      ram[c + TCB_STATUS_IDX] := status;
      ram[c + TCB_CAUSE_IDX] := cause;
    }

    /** BIOS call B(17h): restoreContextException and CP0_RFE. Whatever registers the handler left, the current
        thread's block decides what is loaded. */
    method ReturnFromException(ghost t: Tables, ghost cur: nat)
      requires Sized() && t.Set(ram[..], cur)
      modifies gpr, this`hi, this`lo, this`pc0, this`status
      ensures Cpu() == Resumed(ram[..], t.Slot(cur))
    {
      SlotAddress(t, cur);
      var pcb := ram[G_PROCESS / 4];
      var tcb := ram[WordAt(pcb)];
      var c := WordAt(tcb);
      RestoreContextR3K(c);
      pc0 := ram[c + TCB_PC_IDX];
      status := ram[c + TCB_STATUS_IDX];
      gpr[K0] := pc0;
      status := Rfe(status);
    }

    /** An interrupt of the running thread, taken at pc0, around a handler that leaves any other register values. The
        processor saves the address and enters the exception before the BIOS runs. */
    method InterruptRoundTrip(handler: seq<Word>, hi': Word, lo': Word, pc': Word, status': Word,
                              ghost t: Tables, ghost cur: nat)
      requires Sized() && t.Set(ram[..], cur) && |handler| == 32
      modifies this, gpr, ram
      ensures State() == Interrupted(t, old(State()), cur)
    {
      hide EnterException, Rfe, WordAt, Resumed, SavedContext;
      epc := pc0;
      status := EnterException(status);
      assert Cpu() == old(Cpu()).(sr := EnterException(old(status)));
      SaveContextException(t, cur);
      ghost var w := ram[..];
      forall i | 0 <= i < 32 {
        gpr[i] := handler[i];
      }
      hi, lo, pc0, status := hi', lo', pc', status';
      ReturnFromException(t, cur);
      assert ram[..] == w;
    }
  }
}
