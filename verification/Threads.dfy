/** Kernel threads: one register file, and a table of saved contexts in kernel memory. */
module Threads {
  import opened Memory

  const TCB_WORDS := 48
  const TCB_THREAD_FREE: Word := 0x1000
  const TCB_THREAD_RESERVED: Word := 0x4000

  // Word indices inside a thread control block.
  const TCB_REGS_IDX := 2
  const TCB_PC_IDX := 34
  const TCB_HI_IDX := 35
  const TCB_LO_IDX := 36
  const TCB_STATUS_IDX := 37
  const TCB_CAUSE_IDX := 38

  // Register numbers.
  const V0 := 2
  const K0 := 26
  const GP := 28
  const SP := 29
  const FP := 30
  const RA := 31

  // ----- CP0 status -----

  /** CP0_ENTER_EXCEPTION: (s & ~0x3f) | ((s << 2) & 0x3f). */
  function EnterException(s: Word): Word {
    s - s % 64 + 4 * (s % 16)
  }

  lemma EnterBits(s: Word)
    ensures var r := EnterException(s); r / 64 == s / 64 && r % 64 == 4 * (s % 16)
  {
  }

  /** CP0_RFE: (s & ~0x0f) | ((s >> 2) & 0x0f). */
  function Rfe(s: Word): Word {
    s - s % 16 + (s / 4) % 16
  }

  lemma RfeBits(s: Word)
    ensures var r := Rfe(s); r / 16 == s / 16 && r % 16 == (s / 4) % 16
  {
  }

  lemma EnterDigits(a: nat, b: nat, q: nat)
    requires b < 4 && q < 16 && 64 * a + 16 * b + q < WORD
    ensures EnterException(64 * a + 16 * b + q) == 64 * a + 4 * q
  {
    Quotient64(a, 16 * b + q);
    Quotient16(4 * a + b, q);
    assert 64 * a + (16 * b + q) == 16 * (4 * a + b) + q;
  }

  lemma Quotient64(q: nat, r: nat)
    requires r < 64
    ensures (64 * q + r) % 64 == r
  {
  }

  lemma Quotient16(q: nat, r: nat)
    requires r < 16
    ensures (16 * q + r) % 16 == r
  {
  }

  lemma Quotient4(q: nat)
    ensures (4 * q) / 4 == q
  {
  }

  lemma RfeDigits(a: nat, b: nat, p: nat)
    requires b < 4 && p < 4 && 64 * a + 4 * (4 * b + p) < WORD
    ensures Rfe(64 * a + 4 * (4 * b + p)) == 64 * a + 16 * b + 4 * b + p
  {
    var e := 64 * a + 4 * (4 * b + p);
    Quotient16(4 * a + b, 4 * p);
    assert e == 16 * (4 * a + b) + 4 * p;
    Quotient4(16 * a + 4 * b + p);
    assert e == 4 * (16 * a + 4 * b + p);
    Quotient16(a, 4 * b + p);
    assert 16 * a + 4 * b + p == 16 * a + (4 * b + p);
  }

  /** The status after a switch away and back: bits 4-5 become copies of bits 2-3, every other bit is kept. */
  lemma StatusRoundTrip(s: Word, a: nat, x: nat, b: nat, p: nat)
    requires s == 64 * a + 16 * x + 4 * b + p && x < 4 && b < 4 && p < 4
    ensures Rfe(EnterException(s)) == 64 * a + 16 * b + 4 * b + p
  {
    EnterDigits(a, x, 4 * b + p);
    RfeDigits(a, b, p);
  }

  // ----- machine state -----

  /** The registers a thread owns. */
  datatype File = File(gpr: seq<Word>, hi: Word, lo: Word, pc: Word, sr: Word) {
    predicate Valid() {
      |gpr| == 32
    }
  }

  /** The machine: the registers of the running thread, CP0 cause, and the words of main memory. */
  datatype Machine = Machine(cpu: File, cause: Word, ram: seq<Word>)

  /** address | PS1_KernelSegment. */
  function InKernelSegment(address: Word): Word {
    if address >= KSEG0 then address else address + KSEG0
  }

  /** w with vals stored from index at on. */
  ghost function Overlay(w: seq<Word>, at: nat, vals: seq<Word>): (r: seq<Word>)
    requires at + |vals| <= |w|
    ensures |r| == |w|
  {
    w[..at] + vals + w[at + |vals|..]
  }

  // ----- contexts -----

  ghost function SavedR3K(w: seq<Word>, c: nat, f: File): (r: seq<Word>)
    requires f.Valid() && c + TCB_WORDS <= |w|
    ensures |r| == |w|
  {
    Overlay(w, c + TCB_REGS_IDX, f.gpr)[c + TCB_HI_IDX := f.hi][c + TCB_LO_IDX := f.lo]
  }

  /** saveContextChangeThread and the first part of saveContextException: the context at c resumes at pc with
      status sr. */
  ghost function SavedContext(w: seq<Word>, c: nat, f: File, pc: Word, sr: Word, cause: Word): (r: seq<Word>)
    requires f.Valid() && c + TCB_WORDS <= |w|
    ensures |r| == |w|
  {
    SavedR3K(w, c, f)[c + TCB_PC_IDX := pc][c + TCB_STATUS_IDX := sr][c + TCB_CAUSE_IDX := cause]
  }

  /** The registers in the context at c, as restoring it loads them, with status sr: k0 gets the jump target. */
  ghost function Restored(w: seq<Word>, c: nat, sr: Word): (f: File)
    requires c + TCB_WORDS <= |w|
    ensures f.Valid()
  {
    var pc := w[c + TCB_PC_IDX];
    File(w[c + TCB_REGS_IDX..c + TCB_REGS_IDX + 32][K0 := pc], w[c + TCB_HI_IDX], w[c + TCB_LO_IDX], pc, sr)
  }

  /** What a thread finds when it is switched to. */
  ghost function Resumed(w: seq<Word>, c: nat): (f: File)
    requires c + TCB_WORDS <= |w|
    ensures f.Valid()
  {
    Restored(w, c, Rfe(w[c + TCB_STATUS_IDX]))
  }

  /** Saving and resuming returns the registers, except that k0 and pc are the resumption address. */
  lemma SaveResume(w: seq<Word>, c: nat, f: File, pc: Word, sr: Word, cause: Word)
    requires f.Valid() && c + TCB_WORDS <= |w|
    ensures Resumed(SavedContext(w, c, f, pc, sr, cause), c) == File(f.gpr[K0 := pc], f.hi, f.lo, pc, Rfe(sr))
  {
  }

  /** Where the context keeps what. */
  lemma SavedWords(w: seq<Word>, c: nat, f: File, pc: Word, sr: Word, cause: Word)
    requires f.Valid() && c + TCB_WORDS <= |w|
    ensures var r := SavedContext(w, c, f, pc, sr, cause);
            && (forall i :: 0 <= i < 32 ==> r[c + 2 + i] == f.gpr[i])
            && r[c + 34] == pc && r[c + 35] == f.hi && r[c + 36] == f.lo && r[c + 37] == sr && r[c + 38] == cause
  {
  }

  /** Saving a context leaves every other word alone. */
  lemma SaveOutside(w: seq<Word>, c: nat, f: File, pc: Word, sr: Word, cause: Word, i: nat)
    requires f.Valid() && c + TCB_WORDS <= |w| && i < |w|
    requires i < c + TCB_REGS_IDX || c + TCB_WORDS <= i
    ensures SavedContext(w, c, f, pc, sr, cause)[i] == w[i]
  {
  }

  /** A context depends on its own words only. */
  lemma ResumeSame(w: seq<Word>, r: seq<Word>, c: nat)
    requires c + TCB_WORDS <= |w| == |r|
    requires forall i :: c <= i < c + TCB_WORDS ==> r[i] == w[i]
    ensures Resumed(r, c) == Resumed(w, c)
  {
  }

  // ----- kernel tables -----

  /** The process control block at offset pcb and the n thread control blocks from offset tcb. */
  datatype Tables = Tables(pcb: nat, tcb: nat, n: nat) {
    predicate Fits() {
      && pcb % 4 == 0 && tcb % 4 == 0 && 0 < n
      && G_THREADS_SIZE < pcb && G_THREADS_SIZE < tcb
      && pcb + 8 <= RAM_SIZE && tcb + SIZEOF_TCB * n <= RAM_SIZE
      && (pcb + 8 <= tcb || tcb + SIZEOF_TCB * n <= pcb)
    }

    /** Index of the first word of control block k. */
    function Slot(k: nat): (c: nat)
      requires Fits()
      ensures k < n ==> c + TCB_WORDS <= RAM_SIZE / 4
    {
      tcb / 4 + TCB_WORDS * k
    }

    /** A word that leads the kernel to its tables. */
    predicate Pointer(i: int) {
      i == G_PROCESS / 4 || i == G_THREADS / 4 || i == G_THREADS_SIZE / 4 || i == pcb / 4
    }

    /** A word the kernel keeps for threads. */
    predicate Kernel(i: int)
      requires Fits()
    {
      Pointer(i) || Slot(0) <= i < Slot(n)
    }

    /** Memory names these tables, and thread cur as the running one. */
    ghost predicate Set(w: seq<Word>, cur: nat) {
      && Fits() && |w| == RAM_SIZE / 4 && cur < n
      && w[G_PROCESS / 4] == KSEG0 + pcb && w[G_THREADS / 4] == KSEG0 + tcb
      && w[G_THREADS_SIZE / 4] == SIZEOF_TCB * n
      && w[pcb / 4] == KSEG0 + tcb + SIZEOF_TCB * cur
    }
  }

  /** ChangeTh and CloseTh take the low byte of a handle: the handle of a slot names that slot exactly when the slot is
      one of the first 256. */
  lemma HandleNamesThreadIff(k: nat)
    requires k < 0x100_0000
    ensures (0xFF00_0000 + k) % 0x100 == k <==> k < 0x100
  {
  }

  lemma SlotsApart(t: Tables, j: nat, k: nat)
    requires t.Fits() && j < t.n && k < t.n && j != k
    ensures t.Slot(j) + TCB_WORDS <= t.Slot(k) || t.Slot(k) + TCB_WORDS <= t.Slot(j)
  {
  }

  /** The other kernel words lie outside every control block. */
  lemma SlotInTable(t: Tables, k: nat)
    requires t.Fits() && k < t.n
    ensures t.Slot(0) <= t.Slot(k) && t.Slot(k) + TCB_WORDS <= t.Slot(t.n) <= RAM_SIZE / 4
    ensures forall i :: t.Pointer(i) ==> 0 <= i < RAM_SIZE / 4 && !(t.Slot(k) <= i < t.Slot(k) + TCB_WORDS)
    ensures t.pcb / 4 != G_PROCESS / 4 && t.pcb / 4 != G_THREADS / 4 && t.pcb / 4 != G_THREADS_SIZE / 4
  {
    assert t.Slot(k) + TCB_WORDS <= t.Slot(t.n);
  }

  /** The word PSXM finds for the address of control block k. */
  lemma SlotAddress(t: Tables, k: nat)
    requires t.Fits() && k < t.n
    ensures WordAt(KSEG0 + t.tcb + SIZEOF_TCB * k) == t.Slot(k)
    ensures WordAt(KSEG0 + t.pcb) == t.pcb / 4
    ensures KSEG0 + t.tcb + SIZEOF_TCB * k < WORD
    ensures t.Slot(k) + TCB_WORDS <= RAM_SIZE / 4
  {
    var a := t.tcb + SIZEOF_TCB * k;
    assert a < RAM_SIZE;
    assert (KSEG0 + a) % RAM_SIZE == a;
    assert a / 4 == t.tcb / 4 + TCB_WORDS * k;
    assert (KSEG0 + t.pcb) % RAM_SIZE == t.pcb;
  }

  /** Index of the first free control block, from k on, or the number of blocks. */
  ghost function FirstFree(t: Tables, w: seq<Word>, k: nat): (r: nat)
    requires t.Fits() && |w| == RAM_SIZE / 4 && k <= t.n
    ensures k <= r <= t.n
    ensures r < t.n ==> w[t.Slot(r)] == TCB_THREAD_FREE
    ensures forall j :: k <= j < r ==> w[t.Slot(j)] != TCB_THREAD_FREE
    decreases t.n - k
  {
    if k == t.n || w[t.Slot(k)] == TCB_THREAD_FREE then k else FirstFree(t, w, k + 1)
  }

  // ----- calls on the machine -----

  /** A call that returns r to its caller. */
  function Returned(f: File, r: Word): File
    requires f.Valid()
  {
    f.(gpr := f.gpr[V0 := r], pc := f.gpr[RA])
  }

  /** ChangeTh. */
  ghost function Changed(t: Tables, m: Machine, cur: nat, th: nat): Machine
    requires t.Set(m.ram, cur) && m.cpu.Valid() && th < t.n
  {
    var f := m.cpu.(gpr := m.cpu.gpr[V0 := 1]);
    var w := SavedContext(m.ram, t.Slot(cur), f, f.gpr[RA], EnterException(f.sr), m.cause);
    SlotInTable(t, th);
    Machine(Resumed(w, t.Slot(th)), m.cause, w[t.pcb / 4 := KSEG0 + t.tcb + SIZEOF_TCB * th])
  }

  ghost function Prepared(w: seq<Word>, c: nat, func: Word, sp: Word, gp: Word): (r: seq<Word>)
    requires c + TCB_WORDS <= |w|
    ensures |r| == |w|
  {
    w[c := TCB_THREAD_RESERVED][c + TCB_REGS_IDX + GP := gp][c + TCB_REGS_IDX + SP := sp]
     [c + TCB_REGS_IDX + FP := sp][c + TCB_PC_IDX := func]
  }

  /** OpenTh. */
  ghost function Opened(t: Tables, m: Machine, cur: nat, func: Word, sp: Word, gp: Word): Machine
    requires t.Set(m.ram, cur) && m.cpu.Valid() && t.n < 0x100_0000
  {
    var k := FirstFree(t, m.ram, 0);
    if k == t.n then m.(cpu := Returned(m.cpu, 0xFFFF_FFFF))
    else m.(cpu := Returned(m.cpu, 0xFF00_0000 + k), ram := Prepared(m.ram, t.Slot(k), func, sp, gp))
  }

  /** What the caller of OpenTh gets, and what the new thread's control block holds. */
  lemma OpenedAnswers(t: Tables, m: Machine, cur: nat, func: Word, sp: Word, gp: Word)
    requires t.Set(m.ram, cur) && m.cpu.Valid() && t.n < 0x100_0000
    ensures var r, k := Opened(t, m, cur, func, sp, gp), FirstFree(t, m.ram, 0);
            && r.cpu.pc == m.cpu.gpr[31] && |r.ram| == |m.ram|
            && r.cpu.gpr == m.cpu.gpr[2 := if k < t.n then 0xFF00_0000 + k else 0xFFFF_FFFF]
            && (k == t.n ==> r.ram == m.ram)
            && (k < t.n ==>
                  var c := t.Slot(k);
                  && r.ram[c] == TCB_THREAD_RESERVED && r.ram[c + 2 + 28] == gp
                  && r.ram[c + 2 + 29] == r.ram[c + 2 + 30] == sp && r.ram[c + 2 + 32] == func
                  && forall i :: 0 <= i < |m.ram| && i !in {c, c + 30, c + 31, c + 32, c + 34} ==> r.ram[i] == m.ram[i])
  {
  }

  /** CloseTh. */
  ghost function Closed(t: Tables, m: Machine, cur: nat, th: nat): Machine
    requires t.Set(m.ram, cur) && m.cpu.Valid() && th < t.n
  {
    m.(cpu := Returned(m.cpu, 1), ram := m.ram[t.Slot(th) := TCB_THREAD_FREE])
  }

  /** An interrupt: the processor enters the exception, saveContextException with pc as EPC, a handler that leaves
      other register values, and ReturnFromException. */
  ghost function Interrupted(t: Tables, m: Machine, cur: nat): Machine
    requires t.Set(m.ram, cur) && m.cpu.Valid()
  {
    var f := m.cpu.(sr := EnterException(m.cpu.sr));
    var w := SavedContext(m.ram, t.Slot(cur), f, f.pc, f.sr, m.cause);
    Machine(Resumed(w, t.Slot(cur)), m.cause, w)
  }

  // ----- independent threads -----

  /** The same threads as a programmer thinks of them: each with a register file of its own. */
  datatype Fleet = Fleet(files: seq<File>, status: seq<Word>, cur: nat) {
    ghost predicate Valid() {
      && |files| == |status| && cur < |files|
      && forall k :: 0 <= k < |files| ==> files[k].Valid()
    }
  }

  /** A thread's own registers once it has called ChangeTh. */
  ghost function Yielded(f: File): (r: File)
    requires f.Valid()
    ensures r.Valid()
  {
    File(f.gpr[V0 := 1][K0 := f.gpr[RA]], f.hi, f.lo, f.gpr[RA], Rfe(EnterException(f.sr)))
  }

  /** A thread's own registers once it has been opened to run func. */
  ghost function Started(f: File, func: Word, sp: Word, gp: Word): (r: File)
    requires f.Valid()
    ensures r.Valid()
  {
    f.(gpr := f.gpr[GP := gp][SP := sp][FP := sp][K0 := func], pc := func)
  }

  /** A thread's own registers once it has been interrupted. */
  ghost function Resumes(f: File): (r: File)
    requires f.Valid()
    ensures r.Valid()
  {
    f.(gpr := f.gpr[K0 := f.pc], sr := Rfe(EnterException(f.sr)))
  }

  ghost function FirstUnused(status: seq<Word>, k: nat): (r: nat)
    requires k <= |status|
    ensures k <= r <= |status|
    ensures r < |status| ==> status[r] == TCB_THREAD_FREE
    decreases |status| - k
  {
    if k == |status| || status[k] == TCB_THREAD_FREE then k else FirstUnused(status, k + 1)
  }

  datatype Step =
    | Compute(cpu: File, ram: seq<Word>)           // the running thread runs, kernel words apart
    | ChangeTh(th: nat)
    | OpenTh(func: Word, sp: Word, gp: Word)
    | CloseTh(th: nat)
    | Interrupt

  /** One step of independent threads. The slot of the running thread can be handed to a new thread only after
      the running thread closed itself; the new thread's start is then lost, see OpenedThreadStarts. */
  ghost function FleetStep(f: Fleet, s: Step): Fleet
    requires f.Valid()
  {
    var me := f.files[f.cur];
    match s
    case Compute(cpu, _) => f.(files := f.files[f.cur := cpu])
    case ChangeTh(th) => f.(files := f.files[f.cur := Yielded(me)], cur := th)
    case OpenTh(func, sp, gp) =>
      var k := FirstUnused(f.status, 0);
      if k == |f.status| then f.(files := f.files[f.cur := Returned(me, 0xFFFF_FFFF)])
      else
        f.(files := f.files[k := Started(f.files[k], func, sp, gp)][f.cur := Returned(me, (0xFF00_0000 + k) % WORD)],
           status := f.status[k := TCB_THREAD_RESERVED])
    case CloseTh(th) =>
      if th < |f.status| then
        f.(files := f.files[f.cur := Returned(me, 1)], status := f.status[th := TCB_THREAD_FREE])
      else f
    case Interrupt => f.(files := f.files[f.cur := Resumes(me)])
  }

  ghost predicate Legal(t: Tables, m: Machine, s: Step)
    requires t.Fits()
  {
    match s
    case Compute(cpu, ram) =>
      cpu.Valid() && |ram| == |m.ram| && forall i :: 0 <= i < |ram| && t.Kernel(i) ==> ram[i] == m.ram[i]
    case ChangeTh(th) => th < t.n
    case OpenTh(_, _, _) => true
    case CloseTh(th) => th < t.n
    case Interrupt => true
  }

  ghost function MachineStep(t: Tables, m: Machine, cur: nat, s: Step): Machine
    requires t.Set(m.ram, cur) && m.cpu.Valid() && t.n < 0x100_0000 && Legal(t, m, s)
  {
    match s
    case Compute(cpu, ram) => m.(cpu := cpu, ram := ram)
    case ChangeTh(th) => Changed(t, m, cur, th)
    case OpenTh(func, sp, gp) => Opened(t, m, cur, func, sp, gp)
    case CloseTh(th) => Closed(t, m, cur, th)
    case Interrupt => Interrupted(t, m, cur)
  }

  /** The machine holds the fleet: the running thread in the CPU, every other one in its control block. */
  ghost predicate Holds(t: Tables, m: Machine, f: Fleet) {
    && f.Valid() && t.Set(m.ram, f.cur) && |f.files| == t.n < 0x100_0000
    && f.files[f.cur] == m.cpu
    && (forall k :: 0 <= k < t.n && k != f.cur ==> f.files[k] == Resumed(m.ram, t.Slot(k)))
    && (forall k :: 0 <= k < t.n ==> f.status[k] == m.ram[t.Slot(k)])
  }

  /** Any machine whose memory names its tables is such a fleet. */
  lemma HoldsSomeFleet(t: Tables, m: Machine, cur: nat) returns (f: Fleet)
    requires t.Set(m.ram, cur) && m.cpu.Valid() && t.n < 0x100_0000
    ensures Holds(t, m, f) && f.cur == cur
  {
    f := Fleet(seq(t.n, k requires 0 <= k < t.n => if k == cur then m.cpu else Resumed(m.ram, t.Slot(k))),
               seq(t.n, k requires 0 <= k < t.n => m.ram[t.Slot(k)]), cur);
  }

  // ----- the machine holds the fleet, step by step -----

  /** The running thread saves itself: its block then resumes it, and nothing else changes. */
  lemma SaveRunning(t: Tables, w: seq<Word>, cur: nat, f: File, pc: Word, sr: Word, cause: Word)
    requires t.Set(w, cur) && f.Valid()
    ensures var r := SavedContext(w, t.Slot(cur), f, pc, sr, cause);
            && t.Set(r, cur)
            && Resumed(r, t.Slot(cur)) == File(f.gpr[K0 := pc], f.hi, f.lo, pc, Rfe(sr))
            && (forall k :: 0 <= k < t.n && k != cur ==> Resumed(r, t.Slot(k)) == Resumed(w, t.Slot(k)))
            && (forall k :: 0 <= k < t.n ==> r[t.Slot(k)] == w[t.Slot(k)])
  {
    var r := SavedContext(w, t.Slot(cur), f, pc, sr, cause);
    SlotInTable(t, cur);
    SaveResume(w, t.Slot(cur), f, pc, sr, cause);
    forall i: nat | i < |w| && (i < t.Slot(cur) + TCB_REGS_IDX || t.Slot(cur) + TCB_WORDS <= i) ensures r[i] == w[i] {
      SaveOutside(w, t.Slot(cur), f, pc, sr, cause, i);
    }
    forall k | 0 <= k < t.n
      ensures r[t.Slot(k)] == w[t.Slot(k)]
      ensures k != cur ==> Resumed(r, t.Slot(k)) == Resumed(w, t.Slot(k))
    {
      if k != cur {
        SlotsApart(t, k, cur);
        ResumeSame(w, r, t.Slot(k));
      }
    }
  }

  /** Naming another thread as the running one leaves every control block as it is. */
  lemma NameRunning(t: Tables, w: seq<Word>, cur: nat, th: nat, r: seq<Word>)
    requires t.Set(w, cur) && th < t.n && r == w[t.pcb / 4 := KSEG0 + t.tcb + SIZEOF_TCB * th]
    ensures t.Set(r, th)
    ensures forall k :: 0 <= k < t.n ==> r[t.Slot(k)] == w[t.Slot(k)] && Resumed(r, t.Slot(k)) == Resumed(w, t.Slot(k))
  {
  }

  lemma ChangeHolds(t: Tables, m: Machine, f: Fleet, th: nat)
    requires Holds(t, m, f) && th < t.n
    ensures Holds(t, Changed(t, m, f.cur, th), FleetStep(f, ChangeTh(th)))
  {
    hide SavedContext, Resumed, Rfe, EnterException;
    var me := m.cpu.(gpr := m.cpu.gpr[V0 := 1]);
    var w := SavedContext(m.ram, t.Slot(f.cur), me, me.gpr[RA], EnterException(me.sr), m.cause);
    SaveRunning(t, m.ram, f.cur, me, me.gpr[RA], EnterException(me.sr), m.cause);
    NameRunning(t, w, f.cur, th, w[t.pcb / 4 := KSEG0 + t.tcb + SIZEOF_TCB * th]);
  }

  lemma InterruptHolds(t: Tables, m: Machine, f: Fleet)
    requires Holds(t, m, f)
    ensures Holds(t, Interrupted(t, m, f.cur), FleetStep(f, Interrupt))
  {
    hide EnterException, Rfe, WordAt, Resumed, SavedContext;
    var me := m.cpu.(sr := EnterException(m.cpu.sr));
    SaveRunning(t, m.ram, f.cur, me, me.pc, me.sr, m.cause);
  }

  /** An interrupted thread goes on where it was taken, with its registers, but for k0 and the status. */
  lemma InterruptReturns(t: Tables, m: Machine, cur: nat)
    requires t.Set(m.ram, cur) && m.cpu.Valid()
    ensures var r, cpu := Interrupted(t, m, cur), m.cpu;
            && r.cpu == File(cpu.gpr[26 := cpu.pc], cpu.hi, cpu.lo, cpu.pc, Rfe(EnterException(cpu.sr)))
            && |r.ram| == |m.ram|
            && forall i :: 0 <= i < |m.ram| && !(t.Slot(cur) <= i < t.Slot(cur) + TCB_WORDS) ==> r.ram[i] == m.ram[i]
  {
    hide EnterException, Rfe;
    var f := m.cpu.(sr := EnterException(m.cpu.sr));
    SaveResume(m.ram, t.Slot(cur), f, f.pc, f.sr, m.cause);
  }

  lemma FirstFreeIsUnused(t: Tables, w: seq<Word>, status: seq<Word>, k: nat)
    requires t.Fits() && |w| == RAM_SIZE / 4 && |status| == t.n && k <= t.n
    requires forall j :: 0 <= j < t.n ==> status[j] == w[t.Slot(j)]
    ensures FirstFree(t, w, k) == FirstUnused(status, k)
    decreases t.n - k
  {
  }

  lemma PreparedBlock(w: seq<Word>, c: nat, func: Word, sp: Word, gp: Word)
    requires c + TCB_WORDS <= |w|
    ensures Resumed(Prepared(w, c, func, sp, gp), c) == Started(Resumed(w, c), func, sp, gp)
  {
  }

  lemma PreparedOnly(w: seq<Word>, c: nat, func: Word, sp: Word, gp: Word)
    requires c + TCB_WORDS <= |w|
    ensures var r := Prepared(w, c, func, sp, gp);
            r[c] == TCB_THREAD_RESERVED && forall i :: 0 <= i < |w| && !(c <= i < c + TCB_WORDS) ==> r[i] == w[i]
  {
  }

  /** Preparing block k changes nothing else of the tables. */
  lemma PrepareBlock(t: Tables, w: seq<Word>, cur: nat, k: nat, func: Word, sp: Word, gp: Word)
    requires t.Set(w, cur) && k < t.n
    ensures var r := Prepared(w, t.Slot(k), func, sp, gp);
            && t.Set(r, cur) && r[t.Slot(k)] == TCB_THREAD_RESERVED
            && Resumed(r, t.Slot(k)) == Started(Resumed(w, t.Slot(k)), func, sp, gp)
            && forall j :: 0 <= j < t.n && j != k ==>
                 r[t.Slot(j)] == w[t.Slot(j)] && Resumed(r, t.Slot(j)) == Resumed(w, t.Slot(j))
  {
    var r := Prepared(w, t.Slot(k), func, sp, gp);
    SlotInTable(t, k);
    PreparedBlock(w, t.Slot(k), func, sp, gp);
    PreparedOnly(w, t.Slot(k), func, sp, gp);
    hide Resumed, Started, Prepared;
    forall j | 0 <= j < t.n && j != k
      ensures r[t.Slot(j)] == w[t.Slot(j)] && Resumed(r, t.Slot(j)) == Resumed(w, t.Slot(j))
    {
      SlotsApart(t, j, k);
      ResumeSame(w, r, t.Slot(j));
    }
  }

  lemma OpenHolds(t: Tables, m: Machine, f: Fleet, func: Word, sp: Word, gp: Word)
    requires Holds(t, m, f)
    ensures Holds(t, Opened(t, m, f.cur, func, sp, gp), FleetStep(f, OpenTh(func, sp, gp)))
  {
    hide Resumed, Prepared, Started;
    var k := FirstFree(t, m.ram, 0);
    FirstFreeIsUnused(t, m.ram, f.status, 0);
    hide FirstFree, FirstUnused;
    if k < t.n {
      PrepareBlock(t, m.ram, f.cur, k, func, sp, gp);
    }
  }

  lemma CloseHolds(t: Tables, m: Machine, f: Fleet, th: nat)
    requires Holds(t, m, f) && th < t.n
    ensures Holds(t, Closed(t, m, f.cur, th), FleetStep(f, CloseTh(th)))
  {
    var r: seq<Word> := m.ram[t.Slot(th) := TCB_THREAD_FREE];
    SlotInTable(t, th);
    forall j | 0 <= j < t.n
      ensures j != th ==> r[t.Slot(j)] == m.ram[t.Slot(j)]
      ensures Resumed(r, t.Slot(j)) == Resumed(m.ram, t.Slot(j))
    {
      if j != th {
        SlotsApart(t, j, th);
        ResumeSame(m.ram, r, t.Slot(j));
      } else {
        var c := t.Slot(th);
        assert r[c + TCB_REGS_IDX..c + TCB_REGS_IDX + 32] == m.ram[c + TCB_REGS_IDX..c + TCB_REGS_IDX + 32];
      }
    }
  }

  lemma ComputeHolds(t: Tables, m: Machine, f: Fleet, cpu: File, ram: seq<Word>)
    requires Holds(t, m, f) && Legal(t, m, Compute(cpu, ram))
    ensures Holds(t, m.(cpu := cpu, ram := ram), FleetStep(f, Compute(cpu, ram)))
  {
    forall k | 0 <= k < t.n
      ensures ram[t.Slot(k)] == m.ram[t.Slot(k)] && Resumed(ram, t.Slot(k)) == Resumed(m.ram, t.Slot(k))
    {
      SlotInTable(t, k);
      ResumeSame(m.ram, ram, t.Slot(k));
    }
    assert forall i :: t.Pointer(i) ==> t.Kernel(i) && 0 <= i < |ram| by {
      SlotInTable(t, 0);
    }
  }

  /** One register file and saved contexts behave as n independent register files: whatever the step, the
      machine goes on holding the fleet. */
  lemma StepHolds(t: Tables, m: Machine, f: Fleet, s: Step)
    requires Holds(t, m, f) && Legal(t, m, s)
    ensures Holds(t, MachineStep(t, m, f.cur, s), FleetStep(f, s))
  {
    hide Holds;
    match s
    case Compute(cpu, ram) => ComputeHolds(t, m, f, cpu, ram);
    case ChangeTh(th) => ChangeHolds(t, m, f, th);
    case OpenTh(func, sp, gp) => OpenHolds(t, m, f, func, sp, gp);
    case CloseTh(th) => CloseHolds(t, m, f, th);
    case Interrupt => InterruptHolds(t, m, f);
  }

  // ----- runs -----

  function NextCurrent(cur: nat, s: Step): nat {
    match s
    case ChangeTh(th) => th
    case _ => cur
  }

  /** Every step of the run is legal where it is taken. */
  ghost predicate LegalRun(t: Tables, m: Machine, cur: nat, steps: seq<Step>)
    decreases |steps|
  {
    steps == [] ||
    (&& t.Set(m.ram, cur) && m.cpu.Valid() && t.n < 0x100_0000 && Legal(t, m, steps[0])
     && LegalRun(t, MachineStep(t, m, cur, steps[0]), NextCurrent(cur, steps[0]), steps[1..]))
  }

  ghost function MachineRun(t: Tables, m: Machine, cur: nat, steps: seq<Step>): Machine
    requires LegalRun(t, m, cur, steps)
    decreases |steps|
  {
    if steps == [] then m
    else MachineRun(t, MachineStep(t, m, cur, steps[0]), NextCurrent(cur, steps[0]), steps[1..])
  }

  /** The fleet steps taken while it stays a fleet. */
  ghost function FleetRun(f: Fleet, steps: seq<Step>): Fleet
    requires f.Valid()
    decreases |steps|
  {
    if steps == [] || !FleetStep(f, steps[0]).Valid() then f
    else FleetRun(FleetStep(f, steps[0]), steps[1..])
  }

  /** Over every run, whatever the interleaving, the machine is the n independent register files. */
  lemma {:induction false} RunHolds(t: Tables, m: Machine, f: Fleet, steps: seq<Step>)
    requires Holds(t, m, f) && LegalRun(t, m, f.cur, steps)
    ensures Holds(t, MachineRun(t, m, f.cur, steps), FleetRun(f, steps))
    decreases |steps|
  {
    if steps != [] {
      StepHolds(t, m, f, steps[0]);
      var g := FleetStep(f, steps[0]);
      assert g.cur == NextCurrent(f.cur, steps[0]);
      RunHolds(t, MachineStep(t, m, f.cur, steps[0]), g, steps[1..]);
    }
  }

  /** The steps neither run thread a nor close it. */
  ghost predicate Spares(a: nat, steps: seq<Step>) {
    forall i :: 0 <= i < |steps| ==> steps[i] != ChangeTh(a) && steps[i] != CloseTh(a)
  }

  lemma {:induction false} FileFrozen(f: Fleet, a: nat, steps: seq<Step>)
    requires f.Valid() && a < |f.files| && a != f.cur && f.status[a] != TCB_THREAD_FREE && Spares(a, steps)
    ensures var g := FleetRun(f, steps);
            g.Valid() && |g.files| == |f.files| && g.cur != a && g.files[a] == f.files[a]
    decreases |steps|
  {
    if steps != [] && FleetStep(f, steps[0]).Valid() {
      assert steps[0] != ChangeTh(a) && steps[0] != CloseTh(a);
      assert Spares(a, steps[1..]) by {
        forall i | 0 <= i < |steps[1..]| ensures steps[1..][i] != ChangeTh(a) && steps[1..][i] != CloseTh(a) {
          assert steps[1..][i] == steps[i + 1];
        }
      }
      FileFrozen(FleetStep(f, steps[0]), a, steps[1..]);
    }
  }

  /** A thread that calls ChangeTh and is later switched back to finds exactly the registers it had, except that
      v0 is 1, k0 and pc are its return address, and the status went through an exception and back: whatever the
      other threads did in between, and however often they were switched, opened and interrupted. */
  lemma SwitchedBackToOwnRegisters(t: Tables, m: Machine, f: Fleet, th: nat, steps: seq<Step>)
    requires Holds(t, m, f) && th < t.n && th != f.cur && f.status[f.cur] != TCB_THREAD_FREE
    requires Spares(f.cur, steps)
    requires var m1 := Changed(t, m, f.cur, th); LegalRun(t, m1, th, steps)
    ensures var m1 := Changed(t, m, f.cur, th);
            var m2 := MachineRun(t, m1, th, steps);
            var cur := FleetRun(FleetStep(f, ChangeTh(th)), steps).cur;
            && t.Set(m2.ram, cur) && m2.cpu.Valid()
            && var cpu := m.cpu;
               Changed(t, m2, cur, f.cur).cpu ==
               File(cpu.gpr[2 := 1][26 := cpu.gpr[31]], cpu.hi, cpu.lo, cpu.gpr[31], Rfe(EnterException(cpu.sr)))
  {
    var g := FleetStep(f, ChangeTh(th));
    var m1 := Changed(t, m, f.cur, th);
    ChangeHolds(t, m, f, th);
    RunHolds(t, m1, g, steps);
    FileFrozen(g, f.cur, steps);
    var h := FleetRun(g, steps);
    ChangeHolds(t, MachineRun(t, m1, th, steps), h, f.cur);
  }

  /** The thread starts at its function, with its stack and its global pointer. */
  ghost predicate Starts(cpu: File, func: Word, sp: Word, gp: Word)
    requires cpu.Valid()
  {
    cpu.pc == func == cpu.gpr[K0] && cpu.gpr[SP] == cpu.gpr[FP] == sp && cpu.gpr[GP] == gp
  }

  /** Switching to the slot that OpenTh handed out starts the new thread exactly when that slot is not the running
      thread's own, or the running thread would return to just that function, stack and global pointer anyway. (The
      slot can be its own only after it closed itself: its registers are then saved over the new thread's.) */
  lemma OpenedThreadStarts(t: Tables, m: Machine, f: Fleet, func: Word, sp: Word, gp: Word)
    requires Holds(t, m, f) && FirstFree(t, m.ram, 0) < t.n
    ensures var k := FirstFree(t, m.ram, 0);
            var m1 := Opened(t, m, f.cur, func, sp, gp);
            && t.Set(m1.ram, f.cur) && m1.cpu.Valid()
            && var cpu := Changed(t, m1, f.cur, k).cpu;
               && cpu.Valid()
               && (Starts(cpu, func, sp, gp) <==>
                     k != f.cur || Starts(m.cpu.(pc := m.cpu.gpr[RA], gpr := m.cpu.gpr[K0 := m.cpu.gpr[RA]]), func, sp, gp))
               && m.ram[t.Slot(k)] == TCB_THREAD_FREE && m1.ram[t.Slot(k)] == TCB_THREAD_RESERVED
  {
    hide Resumed, Prepared, SavedContext;
    var k := FirstFree(t, m.ram, 0);
    var m1 := Opened(t, m, f.cur, func, sp, gp);
    var g := FleetStep(f, OpenTh(func, sp, gp));
    FirstFreeIsUnused(t, m.ram, f.status, 0);
    OpenHolds(t, m, f, func, sp, gp);
    ChangeHolds(t, m1, g, k);
  }

  /** The running thread's slot is handed out when that thread has closed itself and no lower slot is free; switching
      to it then goes on where the closed thread called ChangeTh, not at the new function. */
  lemma ReopenedOverSelf(t: Tables, m: Machine, f: Fleet, func: Word, sp: Word, gp: Word)
    requires Holds(t, m, f) && forall j :: 0 <= j < f.cur ==> f.status[j] != TCB_THREAD_FREE
    ensures var m1 := Closed(t, m, f.cur, f.cur);
            && t.Set(m1.ram, f.cur) && m1.cpu.Valid() && FirstFree(t, m1.ram, 0) == f.cur
            && var m2 := Opened(t, m1, f.cur, func, sp, gp);
               && t.Set(m2.ram, f.cur) && m2.cpu.Valid() && m2.cpu.gpr[V0] == 0xFF00_0000 + f.cur
               && var cpu := Changed(t, m2, f.cur, f.cur).cpu;
                  cpu.Valid() && cpu.pc == m.cpu.gpr[RA] && cpu.gpr[SP] == m.cpu.gpr[SP]
  {
    hide Resumed, Prepared, SavedContext, FirstFree, FirstUnused;
    var m1, g := Closed(t, m, f.cur, f.cur), FleetStep(f, CloseTh(f.cur));
    CloseHolds(t, m, f, f.cur);
    assert forall j :: 0 <= j < f.cur ==> m1.ram[t.Slot(j)] == f.status[j];
    assert FirstFree(t, m1.ram, 0) == f.cur;
    FirstFreeIsUnused(t, m1.ram, g.status, 0);
    var m2, h := Opened(t, m1, f.cur, func, sp, gp), FleetStep(g, OpenTh(func, sp, gp));
    OpenHolds(t, m1, g, func, sp, gp);
    ChangeHolds(t, m2, h, f.cur);
  }
}
