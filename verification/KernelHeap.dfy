/** The kernel's bump allocator, and the tables that initialisation carves out of it. */
module KernelHeap {
  import opened Memory
  import opened Threads

  const KERNEL_HEAP := 0xE100
  const KERNEL_HEAP_END := 0xF800

  /** kheap_addr and kheap_size. */
  datatype Arena = Arena(addr: Word, size: Word) {
    ghost predicate Valid() {
      addr % 4 == 0 && size % 4 == 0 && addr + size <= RAM_SIZE
    }
  }

  /** A block as [start, end). */
  datatype Block = Block(start: nat, end: nat)

  /** (a0 + 3) & ~3, in 32 bits. */
  function Aligned(n: Word): (r: Word) {
    (n + 3) % WORD - (n + 3) % WORD % 4
  }

  /** SysMalloc; None is the failed check, which stops the emulator. The check compares the size before it is
      rounded up. */
  function SysMalloc(a: Arena, n: Word): Option<(Arena, Block)>
    requires a.Valid()
  {
    if a.size <= n then None
    else
      RoundingFits(a.size, n);
      Some((Arena(a.addr + Aligned(n), a.size - Aligned(n)), Block(a.addr, a.addr + Aligned(n))))
  }

  /** Checking the size before rounding is enough, because what is left is a multiple of four. */
  lemma RoundingFits(size: Word, n: Word)
    requires size % 4 == 0 && n < size
    ensures n <= Aligned(n) <= size && Aligned(n) % 4 == 0
  {
    var s := size / 4;
    assert size == 4 * s && size <= WORD - 4;
    assert (n + 3) / 4 <= s;
  }

  lemma SysMallocConserves(a: Arena, n: Word)
    requires a.Valid() && SysMalloc(a, n).Some?
    ensures var (b, block) := SysMalloc(a, n).value;
            && b.Valid() && b.addr + b.size == a.addr + a.size
            && block.start == a.addr && block.end == b.addr && n <= block.end - block.start <= a.size
  {
    RoundingFits(a.size, n);
    var r := Aligned(n);
    assert (a.addr + r) % 4 == 0 && (a.size - r) % 4 == 0 by {
      assert a.addr % 4 == 0 && r % 4 == 0 && a.size % 4 == 0;
    }
  }

  /** Blocks from a run of allocations. */
  function AllocAll(a: Arena, ns: seq<Word>): Option<(Arena, seq<Block>)>
    requires a.Valid()
    decreases |ns|
  {
    if ns == [] then Some((a, []))
    else
      match SysMalloc(a, ns[0])
      case None => None
      case Some((b, block)) =>
        SysMallocConserves(a, ns[0]);
        match AllocAll(b, ns[1..])
        case None => None
        case Some((c, blocks)) => Some((c, [block] + blocks))
  }

  /** Over any run of allocations that succeeds, addr + size stays the same and the blocks are aligned, large
      enough, inside the arena, in order, and therefore disjoint. */
  lemma {:induction false} BlocksInOrder(a: Arena, ns: seq<Word>)
    requires a.Valid() && AllocAll(a, ns).Some?
    ensures var (c, blocks) := AllocAll(a, ns).value;
            && c.Valid() && c.addr + c.size == a.addr + a.size && a.addr <= c.addr && |blocks| == |ns|
            && (forall i :: 0 <= i < |ns| ==> blocks[i].start % 4 == 0 && blocks[i].start + ns[i] <= blocks[i].end)
            && (forall i :: 0 <= i < |ns| ==> a.addr <= blocks[i].start && blocks[i].end <= c.addr)
            && (forall i, j :: 0 <= i < j < |ns| ==> blocks[i].end <= blocks[j].start)
    decreases |ns|
  {
    if ns != [] {
      SysMallocConserves(a, ns[0]);
      BlocksInOrder(SysMalloc(a, ns[0]).value.0, ns[1..]);
    }
  }

  // ----- kernel tables -----

  /** Entries of the four kernel tables. */
  datatype Counts = Counts(pcb: Word, tcb: Word, handler: Word, evcb: Word)

  /** Bytes the tables need, entry by entry. */
  function Extents(c: Counts): seq<nat> {
    [SIZEOF_PCB * c.pcb, SIZEOF_TCB * c.tcb, SIZEOF_HANDLER * c.handler, SIZEOF_EVCB * c.evcb]
  }

  /** Bytes the kernel asks for: the same products in 32 bits. */
  function Requests(c: Counts): seq<Word> {
    [SIZEOF_PCB * c.pcb % WORD, SIZEOF_TCB * c.tcb % WORD, SIZEOF_HANDLER * c.handler % WORD, SIZEOF_EVCB * c.evcb % WORD]
  }

  const KERNEL_ARENA := Arena(KERNEL_HEAP, KERNEL_HEAP_END - KERNEL_HEAP)

  /** The tables, if initialisation succeeds. */
  function KernelTables(c: Counts): Option<seq<Block>> {
    match AllocAll(KERNEL_ARENA, Requests(c))
    case None => None
    case Some((_, blocks)) => Some(blocks)
  }

  /** When initialisation succeeds, every table fits in its block of the kernel heap, apart from the others,
      exactly when none of the four products wraps. */
  lemma TablesApartIffNoWrap(c: Counts)
    requires KernelTables(c).Some?
    ensures var blocks := KernelTables(c).value;
            && |blocks| == 4
            && ((forall i :: 0 <= i < 4 ==> blocks[i].start + Extents(c)[i] <= blocks[i].end) <==>
                (forall i :: 0 <= i < 4 ==> Extents(c)[i] < WORD))
            && (forall i :: 0 <= i < 4 ==>
                  blocks[i].start % 4 == 0 && KERNEL_HEAP <= blocks[i].start && blocks[i].end <= KERNEL_HEAP_END)
            && (forall i, j :: 0 <= i < j < 4 ==> blocks[i].end <= blocks[j].start)
  {
    BlocksInOrder(KERNEL_ARENA, Requests(c));
    var blocks := KernelTables(c).value;
    forall i | 0 <= i < 4 ensures blocks[i].start + Extents(c)[i] <= blocks[i].end <==> Extents(c)[i] < WORD {
      ProductFits(Extents(c)[i], blocks[i], Requests(c)[i]);
    }
  }

  lemma ProductFits(extent: nat, block: Block, request: Word)
    requires request == extent % WORD && block.start + request <= block.end <= KERNEL_HEAP_END
    ensures block.start + extent <= block.end <==> extent < WORD
  {
  }

  /** The process and thread tables of a successful initialisation are the ones thread switching needs. */
  lemma ThreadTablesFit(c: Counts)
    requires KernelTables(c).Some? && c.pcb > 0 && c.tcb > 0
    requires forall i :: 0 <= i < 4 ==> Extents(c)[i] < WORD
    ensures var blocks := KernelTables(c).value;
            |blocks| == 4 && Tables(blocks[0].start, blocks[1].start, c.tcb).Fits()
  {
    TablesApartIffNoWrap(c);
    var blocks := KernelTables(c).value;
    assert blocks[0].start + Extents(c)[0] <= blocks[0].end <= blocks[1].start;
    assert blocks[1].start + Extents(c)[1] <= blocks[1].end;
  }

  lemma AllocOne(a: Arena, n: Word, ns: seq<Word>)
    requires a.Valid() && n % 4 == 0 && n < a.size
    ensures var b := Arena(a.addr + n, a.size - n);
            && b.Valid() && SysMalloc(a, n) == Some((b, Block(a.addr, a.addr + n)))
            && AllocAll(a, [n] + ns) == match AllocAll(b, ns)
                                        case None => None
                                        case Some((c, blocks)) => Some((c, [Block(a.addr, a.addr + n)] + blocks))
  {
    RoundingFits(a.size, n);
    var q := n / 4;
    assert (n + 3) % 4 == 3 by {
      assert n + 3 == 4 * q + 3;
    }
    assert ([n] + ns)[0] == n && ([n] + ns)[1..] == ns;
  }

  /** For instance, SetConf with 0x1555556 threads: initialisation succeeds with a thread table of 128 bytes, in which
      not even the first thread's registers fit. */
  lemma WrappedThreadTable()
    ensures var c := Counts(1, 0x155_5556, 4, 32);
            && Extents(c)[1] == 0x1_0000_0080 && Requests(c)[1] == 0x80
            && KernelTables(c).Some? && |KernelTables(c).value| == 4
            && var blocks := KernelTables(c).value;
               blocks[1].start + SIZEOF_TCB > blocks[2].start
  {
    var a := KERNEL_ARENA;
    assert Requests(Counts(1, 0x155_5556, 4, 32)) == [0x8] + ([0x80] + ([0x20] + ([0x380] + [])));
    AllocOne(a, 0x8, [0x80] + ([0x20] + ([0x380] + [])));
    AllocOne(Arena(a.addr + 0x8, a.size - 0x8), 0x80, [0x20] + ([0x380] + []));
    AllocOne(Arena(a.addr + 0x88, a.size - 0x88), 0x20, [0x380] + []);
    AllocOne(Arena(a.addr + 0xA8, a.size - 0xA8), 0x380, []);
  }

  /** Writes inside the thread table keep the kernel's pointers. */
  lemma SetKept(t: Tables, w: seq<Word>, r: seq<Word>)
    requires t.Set(w, 0) && |r| == |w|
    requires forall k :: 0 <= k < |w| && !(t.Slot(0) <= k < t.Slot(t.n)) ==> r[k] == w[k]
    ensures t.Set(r, 0)
  {
  }

  /** Control block k as initialisation leaves it: reserved for thread 0, otherwise free, and zero but for that. */
  ghost predicate BlockReady(t: Tables, w: seq<Word>, k: nat)
    requires t.Fits() && |w| == RAM_SIZE / 4 && k < t.n
  {
    && w[t.Slot(k)] == (if k == 0 then TCB_THREAD_RESERVED else TCB_THREAD_FREE)
    && forall i :: t.Slot(k) < i < t.Slot(k) + TCB_WORDS ==> w[i] == 0
  }

  /** The first n blocks are ready, and the others are still zero. */
  ghost predicate ReadyTo(t: Tables, w: seq<Word>, n: nat)
    requires t.Fits() && |w| == RAM_SIZE / 4 && n <= t.n
  {
    && (forall k :: 0 <= k < n ==> BlockReady(t, w, k))
    && forall i :: t.Slot(n) <= i < t.Slot(t.n) && i < |w| ==> w[i] == 0
  }

  lemma ReadyNext(t: Tables, w: seq<Word>, n: nat)
    requires t.Fits() && |w| == RAM_SIZE / 4 && n < t.n && ReadyTo(t, w, n)
    ensures t.Slot(n) < |w|
    ensures ReadyTo(t, w[t.Slot(n) := if n == 0 then TCB_THREAD_RESERVED else TCB_THREAD_FREE], n + 1)
  {
    SlotInTable(t, n);
    var r: seq<Word> := w[t.Slot(n) := if n == 0 then TCB_THREAD_RESERVED else TCB_THREAD_FREE];
    assert t.Slot(n + 1) == t.Slot(n) + TCB_WORDS;
    forall k | 0 <= k < n + 1 ensures BlockReady(t, r, k) {
      SlotInTable(t, k);
      if k < n {
        SlotsApart(t, k, n);
        assert BlockReady(t, w, k);
      }
    }
  }

  class KernelMemory {
    const ram: array<Word>
    var kheapAddr: Word
    var kheapSize: Word

    ghost predicate Valid()
      reads this
    {
      ram.Length == RAM_SIZE / 4 && Arena(kheapAddr, kheapSize).Valid()
    }

    constructor ()
      ensures Valid() && fresh(ram)
    {
      ram := new Word[RAM_SIZE / 4](_ => 0);
      kheapAddr, kheapSize := 0, 0;
    }

    /** BIOS call C(08h), for a word-aligned area of main memory. */
    method SysInitMemory(a0: Word, a1: Word)
      requires ram.Length == RAM_SIZE / 4 && Arena(a0, a1).Valid()
      modifies this
      ensures Valid() && kheapAddr == a0 && kheapSize == a1
    {
      kheapAddr := a0;
      kheapSize := a1;
    }

    /** BIOS call B(00h): the block is cleared and nothing else written. */
    method Malloc(a0: Word) returns (v0: Option<Word>)
      requires Valid()
      modifies ram, this
      ensures Valid()
      ensures match SysMalloc(old(Arena(kheapAddr, kheapSize)), a0)
              case None => v0 == None && unchanged(this) && unchanged(ram)
              case Some((a, block)) =>
                && v0 == Some(InKernelSegment(old(kheapAddr))) && Arena(kheapAddr, kheapSize) == a
                && forall i :: 0 <= i < ram.Length ==>
                     ram[i] == if block.start <= 4 * i < block.end then 0 else old(ram[i])
    {
      if !(kheapSize > a0) {
        return None;
      }
      SysMallocConserves(Arena(kheapAddr, kheapSize), a0);
      var alignedSize := Aligned(a0);
      var block := kheapAddr;
      v0 := Some(InKernelSegment(kheapAddr));
      kheapAddr := kheapAddr + alignedSize;
      kheapSize := kheapSize - alignedSize;
      for i := block / 4 to kheapAddr / 4
        invariant forall k :: 0 <= k < ram.Length ==>
                    ram[k] == if block / 4 <= k < i then 0 else old(ram[k])
        modifies ram
      {
        ram[i] := 0;
      }
    }

    /** initProcessAndThread: memory then names the tables, with thread 0 running and every other block free. */
    method InitProcessAndThread(kernelPcb: Word, kernelTcb: Word, pcbMax: Word, tcbMax: Word, ghost t: Tables)
      requires ram.Length == RAM_SIZE / 4 && t.Fits() && t.n == tcbMax
      requires kernelPcb == KSEG0 + t.pcb && kernelTcb == KSEG0 + t.tcb
      modifies ram
      ensures t.Set(ram[..], 0) && ram[G_PROCESS_SIZE / 4] == SIZEOF_PCB * pcbMax % WORD
      ensures forall k :: 0 <= k < t.n ==> BlockReady(t, ram[..], k)
    {
      SlotInTable(t, 0);
      SlotAddress(t, 0);
      ram[G_PROCESS / 4] := InKernelSegment(kernelPcb);
      ram[G_PROCESS_SIZE / 4] := SIZEOF_PCB * pcbMax % WORD;
      ram[G_THREADS / 4] := InKernelSegment(kernelTcb);
      ram[G_THREADS_SIZE / 4] := SIZEOF_TCB * tcbMax % WORD;
      ram[WordAt(kernelPcb)] := InKernelSegment(kernelTcb);
      assert t.Set(ram[..], 0);
      ghost var w := ram[..];
      InitThreads(kernelTcb, tcbMax, t);
      SetKept(t, w, ram[..]);
    }

    /** The thread table cleared, its first block reserved and the others free. */
    method InitThreads(kernelTcb: Word, tcbMax: Word, ghost t: Tables)
      requires ram.Length == RAM_SIZE / 4 && t.Fits() && t.n == tcbMax && kernelTcb == KSEG0 + t.tcb
      modifies ram
      ensures forall k :: 0 <= k < ram.Length && !(t.Slot(0) <= k < t.Slot(t.n)) ==> ram[k] == old(ram[k])
      ensures forall k :: 0 <= k < t.n ==> BlockReady(t, ram[..], k)
    {
      SlotInTable(t, 0);
      SlotAddress(t, 0);
      hide Tables.Fits, WordAt, BlockReady;
      var first := WordAt(kernelTcb);
      for i := first to first + TCB_WORDS * tcbMax
        invariant forall k :: 0 <= k < ram.Length && !(t.Slot(0) <= k < t.Slot(t.n)) ==> ram[k] == old(ram[k])
        invariant forall k :: first <= k < i ==> ram[k] == 0
      {
        ram[i] := 0;
      }
      ReadyNext(t, ram[..], 0);
      ram[WordAt(kernelTcb)] := TCB_THREAD_RESERVED;
      for i := 1 to tcbMax
        invariant forall k :: 0 <= k < ram.Length && !(t.Slot(0) <= k < t.Slot(t.n)) ==> ram[k] == old(ram[k])
        invariant ReadyTo(t, ram[..], i)
      {
        SlotAddress(t, i);
        SlotInTable(t, i);
        ReadyNext(t, ram[..], i);
        ghost var w := ram[..];
        ram[WordAt(kernelTcb + SIZEOF_TCB * i)] := TCB_THREAD_FREE;
        assert ram[..] == w[t.Slot(i) := TCB_THREAD_FREE];
      }
    }
  }
}
