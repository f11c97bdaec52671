/** InitHeap, malloc and free on the words of main memory. */
module UserHeap {
  import opened Chunks
  import opened HeapModel
  import opened Memory
  import opened Tiling

  const MIRROR_SIZE := 0x80_0000

  /** The heap size InitHeap records: cut off at the end of the mirrored region, a multiple of four. */
  function ClampedSize(a0: Word, a1: Word): (size: Word)
    ensures size % 4 == 0
  {
    var start := a0 % MIRROR_SIZE;
    var size := if (start + a1) % WORD >= MIRROR_SIZE then (MIRROR_SIZE - 4 - start) % WORD else a1;
    size - size % 4
  }

  /** The heap has the size it is given, rounded down, or ends right before the last word of the mirrored region. */
  lemma ClampedSizeMeans(a0: Word, a1: Word)
    ensures var start, size := a0 % 0x80_0000, ClampedSize(a0, a1);
            && (start + a1 < 0x80_0000 || start + a1 >= 0x1_0000_0000 ==> size <= a1 < size + 4)
            && (0x80_0000 <= start + a1 < 0x1_0000_0000 && start <= 0x7F_FFFC ==>
                  start + size <= 0x7F_FFFC < start + size + 4)
    ensures Offset(a0) % 4 == 0 ==> a0 % 0x80_0000 <= 0x7F_FFFC
  {
    AlignedStart(a0);
    hide Offset;
  }

  lemma AlignedStart(a0: Word)
    ensures Offset(a0) % 4 == 0 ==> a0 % 0x80_0000 <= 0x7F_FFFC
  {
    var q, p, start := a0 / RAM_SIZE, a0 / 0x80_0000, a0 % 0x80_0000;
    assert a0 == RAM_SIZE * q + Offset(a0) && a0 == 0x80_0000 * p + start;
    if Offset(a0) % 4 == 0 {
      assert start == 4 * (RAM_SIZE / 4 * q + Offset(a0) / 4 - 0x20_0000 * p);
    }
  }

  /** A zero first header, whether malloc has not run yet or the first block is empty. */
  lemma FirstIsZero(w: seq<Word>, base: nat, end: nat, cs: seq<Chunk>, size: nat)
    requires base % 4 == 0 && base / 4 < |w| && w[base / 4] == 0 && base + size + 4 == end && Total(cs) == size + 4
    requires Tiles(w, base, end, cs) || cs == [Chunk(size, true)]
    ensures Coalesced([], cs) == [Chunk(size, true)]
    ensures Coalesced([], [Chunk(size, true)]) == [Chunk(size, true)]
    ensures NoZero(cs) ==> cs == [Chunk(size, true)]
    ensures Total([Chunk(size, true)]) == size + 4
  {
    var c := Chunk(size, true);
    assert [c][1..] == [] && [] + [c] == [c];
    assert Coalesced([], [c]) == Coalesced([c], []);
    if cs != [c] {
      HeaderBits(cs[0]);
      assert [] + [Chunk(Total(cs) - 4, true)] == [c];
    }
  }

  /** The header of the whole heap, written where the first header was zero. */
  lemma WholeHeap(w: seq<Word>, base: nat, end: nat, cs: seq<Chunk>, size: nat, v: Word)
    requires base % 4 == 0 && base / 4 < |w| && w[base / 4] == 0 && base + size + 4 == end && Total(cs) == size + 4
    requires Tiles(w, base, end, cs) || cs == [Chunk(size, true)]
    requires size % 4 == 0 && v == size + 1
    ensures var c := Chunk(size, true);
            && Total([c]) == Total(cs) && (NoZero(cs) ==> cs == [c])
            && Coalesced([], [c]) == Coalesced([], cs)
            && Tiles(w[base / 4 := v], base, end, [c])
            && OnlyFreeWritten(w, w[base / 4 := v], base, cs)
  {
    var c := Chunk(size, true);
    FirstIsZero(w, base, end, cs, size);
    assert [c][1..] == [];
    if NoZero(cs) {
      assert Live(base, [c]) == {};
    }
  }

  /** SetUp and JoinFree together. */
  lemma CoalescedFacts(w0: seq<Word>, job: Job, cs: seq<Chunk>, w: seq<Word>)
    requires Total(job.cs) == Total(cs) && Aligned(cs) && (NoZero(cs) ==> job.cs == cs)
    requires Coalesced([], job.cs) == Coalesced([], cs)
    requires OnlyFreeWritten(w0, job.w0, job.base, cs) && Scanned(job, w)
    requires job.base + Total(cs) == job.end && cs != []
    ensures var m := Coalesced([], cs);
            && Tiles(w, job.base, job.end, m) && Total(m) == Total(cs) && Aligned(m) && m != []
            && OnlyFreeWritten(w0, w, job.base, cs)
  {
    CoalescedTotal([], cs);
    CoalescedAligned([], cs);
    FreeWritesCompose(w0, job.w0, w, job.base, cs, job.cs);
  }

  /** Writes to the free chunks of the coalesced heap are writes to the free chunks of the heap. */
  lemma TakenWrites(w0: seq<Word>, w1: seq<Word>, w2: seq<Word>, base: nat, cs: seq<Chunk>)
    requires OnlyFreeWritten(w0, w1, base, cs) && OnlyFreeWritten(w1, w2, base, Coalesced([], cs))
    ensures OnlyFreeWritten(w0, w2, base, cs)
  {
    CoalescedTotal([], cs);
    if NoZero(cs) {
      CoalescedSeparates([], cs);
      CoalescedKeepsLive(base, [], cs);
    }
    FreeWritesCompose(w0, w1, w2, base, cs, Coalesced([], cs));
  }

  lemma HeaderBelow(base: nat, m: seq<Chunk>, k: nat)
    requires k < |m|
    ensures HeaderAt(base, m, k) + m[k].Span() <= base + Total(m)
  {
    assert m == m[..k] + [m[k]] + m[k + 1..];
    AroundPieces(base, m[..k], [m[k]], m[k + 1..]);
    assert [m[k]][1..] == [];
  }

  lemma TakenSlot(base: nat, m: seq<Chunk>, k: nat, d: nat)
    requires k < |m| && d <= m[k].size && (d == m[k].size || d + 4 <= m[k].size)
    ensures k < |Taken(m, k, d)| && HeaderAt(base, Taken(m, k, d), k) == HeaderAt(base, m, k)
  {
    assert Taken(m, k, d)[..k] == m[..k];
  }

  lemma WholeSize(size: nat)
    requires size >= 4 && size % 4 == 0
    ensures Total(Fresh(size).chunks) == size && Aligned(Fresh(size).chunks)
  {
    assert Fresh(size).chunks[1..] == [];
  }

  lemma FirstHeader(at: nat, cs: seq<Chunk>)
    ensures HeaderAt(at, cs, 0) == at
  {
    assert cs[..0] == [];
  }

  lemma SomeChunk(cs: seq<Chunk>)
    requires Total(cs) > 0
    ensures cs != []
  {
  }

  class Heap {
    const ram: array<Word>
    var heapAddr: Word
    var heapSize: Word
    ghost var chunks: seq<Chunk>

    predicate Started()
      reads this`heapAddr, this`heapSize
    {
      heapAddr != 0 && heapSize != 0
    }

    ghost function Base(): nat
      reads this`heapAddr
    {
      Offset(heapAddr)
    }

    ghost function End(): nat
      reads this`heapAddr, this`heapSize
    {
      Offset(heapAddr) + heapSize
    }

    /** The heap lies in main memory without wrapping, and is tiled by its chunks, or has not been set up yet. */
    ghost predicate Valid()
      reads this, ram
    {
      && ram.Length == RAM_SIZE / 4
      && (Started() ==>
            && Base() % 4 == 0 && heapSize % 4 == 0 && End() <= RAM_SIZE
            && Total(chunks) == heapSize && Aligned(chunks)
            && (Tiles(ram[..], Base(), End(), chunks) || (ram[Base() / 4] == 0 && chunks == Fresh(heapSize).chunks)))
    }

    constructor ()
      ensures Valid() && fresh(ram) && !Started()
    {
      ram := new Word[RAM_SIZE / 4](_ => 0);
      heapAddr, heapSize := 0, 0;
      chunks := [];
    }

    /** BIOS call A(39h). The heap is one free chunk; its header is only written by the first malloc. */
    method InitHeap(a0: Word, a1: Word)
      requires ram.Length == RAM_SIZE / 4
      requires Offset(a0) % 4 == 0 && Offset(a0) + ClampedSize(a0, a1) <= RAM_SIZE
      modifies this, ram
      ensures Valid()
      ensures heapAddr == a0 && heapSize == ClampedSize(a0, a1) && heapSize % 4 == 0
      ensures var start := a0 % 0x80_0000;
              && (start + a1 < 0x80_0000 || start + a1 >= 0x1_0000_0000 ==> heapSize <= a1 < heapSize + 4)
              && (0x80_0000 <= start + a1 < 0x1_0000_0000 ==>
                    start <= 0x7F_FFFC && start + heapSize <= 0x7F_FFFC < start + heapSize + 4)
      ensures Started() ==> chunks == Fresh(heapSize).chunks
      ensures ram[..] == old(ram[..])[Offset(a0) / 4 := 0]
    {
      var start := a0 % MIRROR_SIZE;
      var size;
      if (start + a1) % WORD >= MIRROR_SIZE {
        size := (MIRROR_SIZE - 4 - start) % WORD;
      } else {
        size := a1;
      }
      size := size - size % 4;
      ClampedSizeMeans(a0, a1);
      assert size == ClampedSize(a0, a1) && Offset(a0) < RAM_SIZE;
      if size >= 4 {
        WholeSize(size);
      }
      hide Offset, ClampedSize, Total, Aligned, Tiles;
      heapAddr := a0;
      heapSize := size;
      ram[Offset(heapAddr) / 4] := 0;
      chunks := if size >= 4 then Fresh(size).chunks else [];
    }

    /** The start of malloc: on the first call after InitHeap the whole heap becomes one free chunk. */
    method SetUp(base: nat, heapEnd: nat)
      requires Valid() && Started() && base == Base() && heapEnd == End()
      modifies ram, this`chunks
      ensures Valid() && Tiles(ram[..], base, heapEnd, chunks)
      ensures NoZero(old(chunks)) ==> chunks == old(chunks)
      ensures Coalesced([], chunks) == Coalesced([], old(chunks))
      ensures OnlyFreeWritten(old(ram[..]), ram[..], base, old(chunks))
    {
      hide Offset, Tiles, Coalesced, OnlyFreeWritten, NoZero, SetFreeBit;
      NothingWritten(ram[..], base, chunks);
      var chunk := base;
      if ram[chunk / 4] == 0 {
        var size := heapEnd - chunk - 4;
        FreeHeader(size, heapEnd - chunk);
        WholeHeap(ram[..], base, heapEnd, chunks, size, SetFreeBit(size));
        ram[chunk / 4] := SetFreeBit(size);
        chunks := [Chunk(size, true)];
      }
    }

    /** write_mem. */
    method WriteHeader(address: nat, v: Word)
      requires address / 4 < ram.Length
      modifies ram
      ensures ram[..] == old(ram[..])[address / 4 := v]
    {
      ram[address / 4] := v;
    }

    /** One round of the scan, over a chunk with a header that is not zero. */
    method ScanChunk(chunk: nat, colflag: bool, newchunk: nat, dsize: nat, ghost job: Job, ghost a: Account)
      returns (next: nat, colflag': bool, newchunk': nat, dsize': nat, ghost b: Account)
      requires job.end <= RAM_SIZE && chunk < job.end
      requires Scanning(job, ram[..], a, chunk, colflag, newchunk, dsize) && (a.rest != [] ==> !a.rest[0].Zero())
      modifies ram
      ensures Scanning(job, ram[..], b, next, colflag', newchunk', dsize')
      ensures chunk < next <= job.end
    {
      ScanningHead(job, ram[..], a, chunk, colflag, newchunk, dsize);
      hide Scanning, Tiles, SizeBits, FreeBit, SetFreeBit;
      var value := ram[chunk / 4];
      var csize, cstat := SizeBits(value), FreeBit(value);
      next, colflag', newchunk', dsize', b := chunk + csize + 4, colflag, newchunk, dsize, a;
      if cstat == 1 {
        b := ScanningFree(job, ram[..], a, chunk, colflag, newchunk, dsize, csize);
        if !colflag {
          newchunk' := chunk;
          dsize' := csize;
          colflag' := true;
        } else {
          dsize' := dsize + csize + 4;
        }
      } else {
        if colflag {
          colflag' := false;
          b := ScanningClose(job, ram[..], a, chunk, newchunk, dsize, SetFreeBit(dsize));
          WriteHeader(newchunk, SetFreeBit(dsize));
        }
        b := ScanningUsed(job, ram[..], b, chunk, newchunk, dsize, csize);
      }
    }

    /** Joins each run of adjacent free chunks. */
    method JoinFree(base: nat, heapEnd: nat, ghost job: Job)
      requires job.w0 == ram[..] && job.base == base && job.end == heapEnd <= RAM_SIZE
      requires Tiles(ram[..], base, heapEnd, job.cs)
      modifies ram
      ensures Scanned(job, ram[..])
    {
      var chunk: nat, newchunk: nat, dsize: nat, colflag := base, 0, 0, false;
      ghost var broken := false;
      ghost var a := ScanningStarts(job, ram[..]);
      hide Scanning, Scanned, Tiles, SizeBits, FreeBit, SetFreeBit;
      while chunk < heapEnd
        invariant Scanning(job, ram[..], a, chunk, colflag, newchunk, dsize)
        decreases heapEnd - chunk
      {
        ScanningHead(job, ram[..], a, chunk, colflag, newchunk, dsize);
        if ram[chunk / 4] == 0 {
          ScanningBreaks(job, ram[..], a, chunk, colflag, newchunk, dsize, heapEnd - chunk - 3);
          newchunk, dsize, colflag := chunk, heapEnd - chunk - 4, true;
          broken := true;
          break;
        }
        chunk, colflag, newchunk, dsize, a := ScanChunk(chunk, colflag, newchunk, dsize, job, a);
      }
      if colflag {
        if !broken {
          ScanningHead(job, ram[..], a, chunk, colflag, newchunk, dsize);
          a := ScanningClose(job, ram[..], a, chunk, newchunk, dsize, SetFreeBit(dsize));
        }
        WriteHeader(newchunk, SetFreeBit(dsize));
      }
      if !broken {
        ScanningEnds(job, ram[..], a, chunk, newchunk, dsize);
      }
    }

    /** Looks for the first free chunk of at least dsize bytes. */
    method Search(base: nat, heapEnd: nat, dsize: nat, ghost m: seq<Chunk>)
      returns (found: bool, chunk: nat, csize: nat)
      requires Tiles(ram[..], base, heapEnd, m) && m != []
      ensures found <==> FirstFit(m, dsize) < |m|
      ensures found ==> var k := FirstFit(m, dsize); chunk == HeaderAt(base, m, k) && csize == m[k].size
    {
      ghost var k := 0;
      assert m[..0] == [] && m[0..] == m;
      HeaderWord(ram[..], base, heapEnd, m, 0);
      chunk := base;
      var value := ram[chunk / 4];
      csize := SizeBits(value);
      var cstat := FreeBit(value);
      found := true;
      while (dsize > csize || cstat == 0) && chunk < heapEnd
        invariant k < |m| && chunk == HeaderAt(base, m, k) < heapEnd && found
        invariant csize == m[k].size && (cstat != 0 <==> m[k].free)
        invariant FirstFit(m, dsize) == k + FirstFit(m[k..], dsize)
        decreases |m| - k
      {
        HeaderWord(ram[..], base, heapEnd, m, k);
        FirstFitSkips(m, dsize, k);
        chunk := chunk + csize + 4;
        if chunk >= heapEnd {
          return false, chunk, csize;
        }
        k := k + 1;
        HeaderWord(ram[..], base, heapEnd, m, k);
        value := ram[chunk / 4];
        csize := SizeBits(value);
        cstat := FreeBit(value);
      }
      FirstFitSkips(m, dsize, k);
    }

    /** Takes the chunk, whole if it has exactly dsize bytes, and splits it otherwise. */
    method Take(chunk: nat, csize: nat, dsize: nat, ghost base: nat, ghost heapEnd: nat, ghost m: seq<Chunk>, ghost k: nat)
      requires Tiles(ram[..], base, heapEnd, m) && heapEnd <= RAM_SIZE && ram.Length == RAM_SIZE / 4
      requires k < |m| && m[k].free && chunk == HeaderAt(base, m, k) && csize == m[k].size
      requires dsize % 4 == 0 && dsize <= csize
      modifies ram
      ensures dsize == csize || dsize + 4 <= csize
      ensures Tiles(ram[..], base, heapEnd, Taken(m, k, dsize))
      ensures OnlyFreeWritten(old(ram[..]), ram[..], base, m)
    {
      hide Tiles, OnlyFreeWritten, SizeBits, FreeBit, SetFreeBit, Taken;
      HeaderWord(ram[..], base, heapEnd, m, k);
      ghost var w := ram[..];
      if dsize == csize {
        var value := ram[chunk / 4];
        TakeWhole(w, base, heapEnd, m, k, chunk / 4, SizeBits(value));
        WriteHeader(chunk, SizeBits(value));
      } else {
        SplitBits(chunk, csize, dsize);
        var newchunk := chunk + dsize + 4;
        var rest: Word := csize - dsize - 4;
        SplitFree(w, base, heapEnd, m, k, dsize, chunk / 4, newchunk / 4, dsize, SetFreeBit(SizeBits(rest)));
        WriteHeader(chunk, dsize);
        WriteHeader(newchunk, SetFreeBit(SizeBits(rest)));
      }
    }

    /** BIOS call A(33h): what HeapModel.Malloc says of the chunks, with the result as an address. */
    method Alloc(a0: Word) returns (v0: Word)
      requires Valid()
      modifies ram, this`chunks
      ensures Valid()
      ensures a0 == 0 || !Started() ==> v0 == 0 && chunks == old(chunks) && ram[..] == old(ram[..])
      ensures Started() ==>
                var r := Malloc(old(chunks), a0);
                && chunks == r.chunks
                && (r.block == None ==> v0 == 0)
                && (r.block != None ==> r.block.value < |chunks|
                                        && v0 == KSEG0 + HeaderAt(Base(), chunks, r.block.value) + 4)
      ensures Started() ==> OnlyFreeWritten(old(ram[..]), ram[..], Base(), old(chunks))
    {
      hide Offset, Tiles, OnlyFreeWritten, Coalesced, Taken, Total, Scanned, NoZero, FirstFit;
      if a0 == 0 || !Started() {
        NothingWritten(ram[..], Base(), chunks);
        return 0;
      }
      var base := Offset(heapAddr);
      var heapEnd := base + heapSize;
      ghost var cs, w0 := chunks, ram[..];
      SetUp(base, heapEnd);
      ghost var job := Job(ram[..], base, heapEnd, chunks);
      JoinFree(base, heapEnd, job);
      ghost var m := Coalesced([], cs);
      SomeChunk(cs);
      CoalescedFacts(w0, job, cs, ram[..]);
      var dsize := Rounded(a0);
      var found, chunk, csize := Search(base, heapEnd, dsize, m);
      chunks := m;
      if !found {
        return 0;
      }
      ghost var k, w2 := FirstFit(m, dsize), ram[..];
      Take(chunk, csize, dsize, base, heapEnd, m, k);
      TakenFacts(base, m, k, dsize);
      TakenWrites(w0, w2, ram[..], base, cs);
      chunks := Taken(m, k, dsize);
      TilesTotal(ram[..], base, heapEnd, chunks);
      TakenSlot(base, m, k, dsize);
      HeaderBelow(base, m, k);
      return KSEG0 + chunk + 4;
    }

    /** BIOS call A(34h), for null or a pointer that malloc returned and that is still held. */
    method Free(a0: Word, ghost k: nat)
      requires Valid()
      requires a0 != 0 ==> Started() && k < |chunks| && !chunks[k].free
      requires a0 != 0 ==> a0 == KSEG0 + HeaderAt(Base(), chunks, k) + 4 < KSEG0 + RAM_SIZE
      modifies ram, this`chunks
      ensures Valid()
      ensures a0 == 0 ==> chunks == old(chunks) && ram[..] == old(ram[..])
      ensures a0 != 0 ==> chunks == Freed(old(chunks), k)
      ensures a0 != 0 ==>
        forall i :: 0 <= i < ram.Length && 4 * i != HeaderAt(Base(), old(chunks), k) ==> ram[i] == old(ram[i])
    {
      if a0 != 0 {
        HeaderBelow(Base(), chunks, k);
        HeaderWord(ram[..], Base(), End(), chunks, k);
        FreeTiles(ram[..], Base(), End(), chunks, k, HeaderAt(Base(), chunks, k) / 4);
        OffsetInRam(HeaderAt(Base(), chunks, k) + 4);
        var header := Offset(a0) - 4;
        ram[header / 4] := SetFreeBit(ram[header / 4]);
        chunks := Freed(chunks, k);
        TilesTotal(ram[..], Base(), End(), chunks);
      }
    }
  }

  /** A program that sets up a heap and then asks for all of it but one header: it gets the whole heap. */
  method WholeHeapBlock(h: Heap, a0: Word, a1: Word) returns (v0: Word)
    requires h.ram.Length == RAM_SIZE / 4 && a0 != 0
    requires Offset(a0) % 4 == 0 && Offset(a0) + ClampedSize(a0, a1) <= RAM_SIZE && ClampedSize(a0, a1) > 4
    modifies h, h.ram
    ensures h.Valid() && v0 == KSEG0 + Offset(a0) + 4
    ensures h.heapSize > 4 && h.chunks == [Chunk(h.heapSize - 4, false)]
    ensures a1 % 4 == 0 && a0 % 0x80_0000 + a1 < 0x80_0000 ==> h.heapSize == a1
  {
    hide Offset, ClampedSize, Tiles, Total, OnlyFreeWritten, Coalesced, FirstFit, Taken, Aligned, NoZero;
    h.InitHeap(a0, a1);
    WholeSize(h.heapSize);
    assert AllFree(Fresh(h.heapSize).chunks);
    FreeHeapGivesAll(Fresh(h.heapSize).chunks, h.heapSize);
    v0 := h.Alloc(h.heapSize - 4);
    FirstHeader(Offset(a0), h.chunks);
  }
}
