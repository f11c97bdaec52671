/** Kernel initialisation: the four tables are carved out of the kernel heap and filled in. */
module KernelInit {
  import IrqChains
  import opened KernelHeap
  import opened Memory
  import opened Threads

  // ----- the four allocations -----

  /** Allocating ns from a is allocating blocks and then ms from b. */
  ghost predicate Placed(a: Arena, ns: seq<Word>, blocks: seq<Block>, b: Arena, ms: seq<Word>) {
    && a.Valid() && b.Valid()
    && AllocAll(a, ns) == match AllocAll(b, ms)
                          case None => None
                          case Some((c, more)) => Some((c, blocks + more))
  }

  lemma PlacedNow(a: Arena, ns: seq<Word>)
    requires a.Valid()
    ensures Placed(a, ns, [], a, ns)
  {
    match AllocAll(a, ns)
    case None =>
    case Some((_, more)) => assert [] + more == more;
  }

  lemma PlacedNext(a: Arena, ns: seq<Word>, blocks: seq<Block>, b: Arena, ms: seq<Word>)
    requires Placed(a, ns, blocks, b, ms) && ms != []
    ensures SysMalloc(b, ms[0]) == None ==> AllocAll(a, ns) == None
    ensures SysMalloc(b, ms[0]).Some? ==>
      var (c, block) := SysMalloc(b, ms[0]).value; Placed(a, ns, blocks + [block], c, ms[1..])
  {
    if SysMalloc(b, ms[0]).Some? {
      SysMallocConserves(b, ms[0]);
      var (c, block) := SysMalloc(b, ms[0]).value;
      match AllocAll(c, ms[1..])
      case None =>
      case Some((_, more)) => assert blocks + ([block] + more) == (blocks + [block]) + more;
    }
  }

  lemma PlacedAll(a: Arena, ns: seq<Word>, blocks: seq<Block>, b: Arena)
    requires Placed(a, ns, blocks, b, [])
    ensures AllocAll(a, ns) == Some((b, blocks))
  {
    assert blocks + [] == blocks;
  }

  /** The kernel heap set up and the next table allocated, if there is room: v0 is its address. */
  method AllocTable(k: KernelMemory, a0: Word, ghost c: Counts, ghost blocks: seq<Block>, ghost ms: seq<Word>)
    returns (v0: Option<Word>, ghost block: Block)
    requires k.Valid() && ms != [] && a0 == ms[0]
    requires Placed(KERNEL_ARENA, Requests(c), blocks, Arena(k.kheapAddr, k.kheapSize), ms)
    modifies k, k.ram
    ensures k.Valid()
    ensures v0 == None ==> KernelTables(c) == None
    ensures v0.Some? ==>
      && v0.value == KSEG0 + block.start
      && Placed(KERNEL_ARENA, Requests(c), blocks + [block], Arena(k.kheapAddr, k.kheapSize), ms[1..])
  {
    hide Placed, AllocAll;
    PlacedNext(KERNEL_ARENA, Requests(c), blocks, Arena(k.kheapAddr, k.kheapSize), ms);
    ghost var r := SysMalloc(Arena(k.kheapAddr, k.kheapSize), ms[0]);
    if r.Some? {
      SysMallocConserves(Arena(k.kheapAddr, k.kheapSize), ms[0]);
    }
    block := if r.Some? then r.value.1 else Block(0, 0);
    v0 := k.Malloc(a0);
  }

  /** The four tables, in the kernel heap of fixed size. */
  method AllocTables(k: KernelMemory, c: Counts)
    returns (ok: bool, pcb: Word, tcb: Word, handler: Word, evcb: Word)
    requires k.ram.Length == RAM_SIZE / 4
    modifies k, k.ram
    ensures ok <==> KernelTables(c).Some?
    ensures ok ==> var blocks := KernelTables(c).value;
      && |blocks| == 4
      && pcb == KSEG0 + blocks[0].start && tcb == KSEG0 + blocks[1].start
      && handler == KSEG0 + blocks[2].start && evcb == KSEG0 + blocks[3].start
  {
    ok, pcb, tcb, handler, evcb := false, 0, 0, 0, 0;
    assert KERNEL_ARENA.Valid();
    k.SysInitMemory(KERNEL_HEAP, KERNEL_HEAP_END - KERNEL_HEAP);
    ghost var ns := Requests(c);
    PlacedNow(KERNEL_ARENA, ns);
    hide Placed, AllocAll;
    var v0;
    ghost var a, b, d, e;
    v0, a := AllocTable(k, SIZEOF_PCB * c.pcb % WORD, c, [], ns);
    if v0 == None {
      return;
    }
    pcb := v0.value;
    v0, b := AllocTable(k, SIZEOF_TCB * c.tcb % WORD, c, [] + [a], ns[1..]);
    if v0 == None {
      return;
    }
    tcb := v0.value;
    v0, d := AllocTable(k, SIZEOF_HANDLER * c.handler % WORD, c, [] + [a] + [b], ns[1..][1..]);
    if v0 == None {
      return;
    }
    handler := v0.value;
    v0, e := AllocTable(k, SIZEOF_EVCB * c.evcb % WORD, c, [] + [a] + [b] + [d], ns[1..][1..][1..]);
    if v0 == None {
      return;
    }
    evcb := v0.value;
    assert ns[1..][1..][1..][1..] == [];
    PlacedAll(KERNEL_ARENA, ns, [] + [a] + [b] + [d] + [e], Arena(k.kheapAddr, k.kheapSize));
    ok := true;
  }

  // ----- the tables filled in -----

  /** What clearing words from index from and writing the pointer and the size of the table leaves. */
  ghost predicate TableNamed(w: seq<Word>, r: seq<Word>, g: nat, pointer: int, size: int, from: nat, words: nat) {
    && |w| == |r| && g + 1 < from
    && forall i :: 0 <= i < |r| ==>
         r[i] == if from <= i < from + words then 0 else if i == g then pointer else if i == g + 1 then size else w[i]
  }

  /** initHandlers, and the part of initEvents that is the same: pointer and size, and the table cleared. */
  method NameTable(ram: array<Word>, g: nat, address: Word, size: Word, ghost start: nat)
    requires ram.Length == RAM_SIZE / 4 && address == KSEG0 + start && start % 4 == 0 && size % 4 == 0
    requires g + 1 < start / 4 && start < RAM_SIZE && start + size <= RAM_SIZE
    modifies ram
    ensures TableNamed(old(ram[..]), ram[..], g, KSEG0 + start, size, start / 4, size / 4)
  {
    ram[g] := InKernelSegment(address);
    ram[g + 1] := size;
    OffsetInRam(start);
    ghost var w := ram[..];
    var from := WordAt(address);
    for i := from to from + size / 4
      invariant forall j :: 0 <= j < ram.Length ==> ram[j] == if from <= j < i then 0 else w[j]
    {
      ram[i] := 0;
    }
  }

  /** Where a table starts, and how many words it has. */
  lemma BlockWords(blocks: seq<Block>, c: Counts, i: nat)
    requires KernelTables(c) == Some(blocks) && |blocks| == 4 && i < 4 && Extents(c)[i] < WORD
    ensures blocks[i].start % 4 == 0 && KERNEL_HEAP <= blocks[i].start
    ensures Requests(c)[i] == Extents(c)[i] && blocks[i].start + Requests(c)[i] <= blocks[i].end <= KERNEL_HEAP_END
  {
    SmallRequest(c, i);
    hide AllocAll, Extents, Requests;
    BlocksInOrder(KERNEL_ARENA, Requests(c));
  }

  lemma SmallRequest(c: Counts, i: nat)
    requires i < 4 && Extents(c)[i] < WORD
    ensures |Requests(c)| == 4 && Requests(c)[i] == Extents(c)[i]
  {
  }

  /** psxBiosInitKernelDataStructure. Initialisation stops exactly when a table does not fit in what is left of the
      kernel heap; otherwise memory names the four tables, thread 0 runs and all others are free, the handler chains
      are empty and sound, and no event is open. */
  method InitKernelDataStructure(k: KernelMemory, c: Counts) returns (ok: bool)
    requires k.ram.Length == RAM_SIZE / 4 && c.pcb > 0 && c.tcb > 0 && c.handler == IrqChains.HANDLER_MAX
    requires forall i :: 0 <= i < 4 ==> Extents(c)[i] < WORD
    modifies k, k.ram
    ensures ok <==> KernelTables(c).Some?
    ensures ok ==> |KernelTables(c).value| == 4 && Initialised(k.ram[..], c, KernelTables(c).value)
  {
    var pcb, tcb, handler, evcb;
    ok, pcb, tcb, handler, evcb := AllocTables(k, c);
    if ok {
      ghost var blocks := KernelTables(c).value;
      ghost var t := Tables(blocks[0].start, blocks[1].start, c.tcb);
      ThreadTablesFit(c);
      TablesApartIffNoWrap(c);
      BlockWords(blocks, c, 0);
      BlockWords(blocks, c, 1);
      BlockWords(blocks, c, 2);
      BlockWords(blocks, c, 3);
      hide KernelTables, Tables.Fits, Tables.Set;
      k.InitProcessAndThread(pcb, tcb, c.pcb, c.tcb, t);
      ghost var w := k.ram[..];
      NameTable(k.ram, G_EVENTS / 4, evcb, SIZEOF_EVCB * c.evcb, blocks[3].start);
      ghost var w1 := k.ram[..];
      NameTable(k.ram, G_HANDLERS / 4, handler, SIZEOF_HANDLER * c.handler, blocks[2].start);
      TablesInitialised(w, w1, k.ram[..], c, blocks);
    }
  }

  ghost predicate Initialised(w: seq<Word>, c: Counts, blocks: seq<Block>)
    requires |blocks| == 4 && |w| == RAM_SIZE / 4
  {
    var t := Tables(blocks[0].start, blocks[1].start, c.tcb);
    && t.Set(w, 0) && w[G_PROCESS_SIZE / 4] == SIZEOF_PCB * c.pcb
    && (forall k :: 0 <= k < t.n ==> BlockReady(t, w, k))
    && IrqChains.Holds(IrqChains.Table(blocks[2].start), w, [[], [], [], []])
    && w[G_HANDLERS_SIZE / 4] == SIZEOF_HANDLER * c.handler
    && w[G_EVENTS / 4] == KSEG0 + blocks[3].start && w[G_EVENTS_SIZE / 4] == SIZEOF_EVCB * c.evcb
    && forall i :: blocks[3].start <= 4 * i < blocks[3].start + SIZEOF_EVCB * c.evcb && i < |w| ==> w[i] == 0
  }

  lemma BlockKept(t: Tables, w: seq<Word>, r: seq<Word>, k: nat)
    requires t.Fits() && |w| == |r| == RAM_SIZE / 4 && k < t.n && BlockReady(t, w, k)
    requires forall i :: t.Slot(k) <= i < t.Slot(k) + TCB_WORDS ==> r[i] == w[i]
    ensures BlockReady(t, r, k)
  {
  }

  lemma TablesInitialised(w: seq<Word>, w1: seq<Word>, r: seq<Word>, c: Counts, blocks: seq<Block>)
    requires |blocks| == 4 && |w| == |r| == RAM_SIZE / 4 && c.handler == IrqChains.HANDLER_MAX
    requires forall i :: 0 <= i < 4 ==> blocks[i].start % 4 == 0 && KERNEL_HEAP <= blocks[i].start
    requires forall i :: 0 <= i < 4 ==> blocks[i].start + Extents(c)[i] <= blocks[i].end <= KERNEL_HEAP_END
    requires forall i, j :: 0 <= i < j < 4 ==> blocks[i].end <= blocks[j].start
    requires var t := Tables(blocks[0].start, blocks[1].start, c.tcb);
             && t.Set(w, 0) && w[G_PROCESS_SIZE / 4] == SIZEOF_PCB * c.pcb
             && forall k :: 0 <= k < t.n ==> BlockReady(t, w, k)
    requires SIZEOF_EVCB * c.evcb < WORD
    requires TableNamed(w, w1, G_EVENTS / 4, KSEG0 + blocks[3].start, SIZEOF_EVCB * c.evcb,
                        blocks[3].start / 4, SIZEOF_EVCB * c.evcb / 4)
    requires TableNamed(w1, r, G_HANDLERS / 4, KSEG0 + blocks[2].start, SIZEOF_HANDLER * c.handler,
                        blocks[2].start / 4, SIZEOF_HANDLER * c.handler / 4)
    ensures Initialised(r, c, blocks)
  {
    hide BlockReady;
    var t := Tables(blocks[0].start, blocks[1].start, c.tcb);
    var h := IrqChains.Table(blocks[2].start);
    SlotInTable(t, 0);
    forall k | 0 <= k < t.n ensures t.Slot(k) + TCB_WORDS <= blocks[2].start / 4 && BlockReady(t, r, k) {
      SlotInTable(t, k);
      BlockKept(t, w, r, k);
    }
    assert IrqChains.Apart(h, [[], [], [], []]);
    assert forall i :: 0 <= i < 4 ==> r[h.HeadAt(i)] == 0;
    assert IrqChains.Holds(h, r, [[], [], [], []]);
  }
}
