/** Chunk lists as they lie in memory: one header word per chunk, one chunk right after the other. */
module Tiling {
  import opened Chunks
  import opened HeapModel
  import opened Memory

  /** v | 1. */
  function SetFreeBit(v: Word): (r: Word) {
    if v % 2 == 0 then v + 1 else v
  }

  /** v & 0xfffffffc. */
  function SizeBits(v: Word): (r: Word) {
    v - v % 4
  }

  /** v & 1. */
  function FreeBit(v: Word): (r: nat) {
    v % 2
  }

  lemma SetFreeBitAdds(v: Word)
    requires v % 4 == 0
    ensures SetFreeBit(v) == v + 1
  {
    QuadrupleEven(v / 4);
  }

  /** The header of a free chunk that covers t bytes. */
  lemma FreeHeader(v: Word, t: nat)
    requires v + 4 == t && t % 4 == 0
    ensures SetFreeBit(v) == v + 1
  {
    hide SetFreeBit;
    QuadrupleRest(t / 4 - 1, 0);
    SetFreeBitAdds(v);
  }

  /** Where a split leaves the second header, and what is in it. */
  lemma SplitBits(chunk: nat, csize: nat, dsize: nat)
    requires chunk % 4 == 0 && csize % 4 == 0 && dsize % 4 == 0 && dsize < csize < WORD
    ensures dsize + 4 <= csize && (chunk + dsize + 4) % 4 == 0
    ensures var rest := csize - dsize - 4; SizeBits(rest) == rest && SetFreeBit(rest) == rest + 1
  {
    hide SetFreeBit;
    QuadrupleRest(csize / 4 - dsize / 4 - 1, 0);
    QuadrupleRest(chunk / 4 + dsize / 4 + 1, 0);
    SetFreeBitAdds(csize - dsize - 4);
  }

  /** The words at byte addresses [at, end) hold exactly the chunks cs. */
  ghost predicate Tiles(w: seq<Word>, at: nat, end: nat, cs: seq<Chunk>)
    decreases |cs|
  {
    if cs == [] then at == end
    else
      && at % 4 == 0 && at / 4 < |w|
      && cs[0].size % 4 == 0 && w[at / 4] == cs[0].Header()
      && Tiles(w, at + cs[0].Span(), end, cs[1..])
  }

  lemma {:induction false} TilesTotal(w: seq<Word>, at: nat, end: nat, cs: seq<Chunk>)
    requires Tiles(w, at, end, cs)
    ensures end == at + Total(cs) && Aligned(cs)
    ensures at % 4 == 0 ==> end % 4 == 0
    decreases |cs|
  {
    if cs != [] {
      SpanAligned(cs[0].size, at);
      TilesTotal(w, at + cs[0].Span(), end, cs[1..]);
    }
  }

  lemma {:induction false} TilesConcat(w: seq<Word>, at: nat, mid: nat, end: nat, a: seq<Chunk>, b: seq<Chunk>)
    requires Tiles(w, at, mid, a) && Tiles(w, mid, end, b)
    ensures Tiles(w, at, end, a + b)
    decreases |a|
  {
    if a == [] {
      assert a + b == b;
    } else {
      assert (a + b)[1..] == a[1..] + b;
      TilesConcat(w, at + a[0].Span(), mid, end, a[1..], b);
    }
  }

  lemma {:induction false} TilesSplit(w: seq<Word>, at: nat, end: nat, cs: seq<Chunk>, k: nat)
    requires Tiles(w, at, end, cs) && k <= |cs|
    ensures Tiles(w, at, HeaderAt(at, cs, k), cs[..k]) && Tiles(w, HeaderAt(at, cs, k), end, cs[k..])
    decreases |cs|
  {
    if k == 0 {
      assert cs[..0] == [] && cs[0..] == cs;
    } else {
      TilesSplit(w, at + cs[0].Span(), end, cs[1..], k - 1);
      assert cs[..k] == [cs[0]] + cs[1..][..k - 1] && cs[k..] == cs[1..][k - 1..];
    }
  }

  /** A word outside the tiled range can change. */
  lemma {:induction false} TilesFrame(w: seq<Word>, at: nat, end: nat, cs: seq<Chunk>, i: nat, v: Word)
    requires Tiles(w, at, end, cs) && i < |w| && (4 * i < at || end <= 4 * i)
    ensures Tiles(w[i := v], at, end, cs)
    decreases |cs|
  {
    if cs != [] {
      TilesTotal(w, at + cs[0].Span(), end, cs[1..]);
      TilesFrame(w, at + cs[0].Span(), end, cs[1..], i, v);
    }
  }

  /** Writing the header of a run turns it into one chunk. */
  lemma TilesJoin(w: seq<Word>, at: nat, p: nat, q: nat, end: nat,
                  a: seq<Chunk>, b: seq<Chunk>, z: seq<Chunk>, c: Chunk)
    requires Tiles(w, at, p, a) && Tiles(w, p, q, b) && Tiles(w, q, end, z)
    requires b != [] && c.Span() == Total(b) && c.Header() < WORD
    ensures p % 4 == 0 && p / 4 < |w|
    ensures Tiles(w[p / 4 := c.Header()], at, q, a + [c]) && Tiles(w[p / 4 := c.Header()], q, end, z)
  {
    TilesTotal(w, p, q, b);
    TilesTotal(w, q, end, z);
    var w' := w[p / 4 := c.Header()];
    TilesFrame(w, at, p, a, p / 4, c.Header());
    TilesFrame(w, q, end, z, p / 4, c.Header());
    assert [c][1..] == [];
    TilesConcat(w', at, p, q, a, [c]);
  }

  /** What a call may have written: only heap words, and of a sound heap none of a block in use. */
  ghost predicate OnlyFreeWritten(w0: seq<Word>, w: seq<Word>, at: nat, cs: seq<Chunk>) {
    && |w0| == |w|
    && (forall i :: 0 <= i < |w| && w[i] != w0[i] ==> at <= 4 * i < at + Total(cs))
    && (NoZero(cs) ==> forall i, b :: 0 <= i < |w| && b in Live(at, cs) && b.0 <= 4 * i < b.0 + 4 + b.1 ==> w[i] == w0[i])
  }

  lemma NothingWritten(w: seq<Word>, at: nat, cs: seq<Chunk>)
    ensures OnlyFreeWritten(w, w, at, cs)
  {
  }

  lemma FreeWrite(w0: seq<Word>, w: seq<Word>, at: nat, a: seq<Chunk>, c: Chunk, z: seq<Chunk>, i: nat, v: Word)
    requires OnlyFreeWritten(w0, w, at, a + [c] + z) && c.free && i < |w|
    requires at + Total(a) <= 4 * i < at + Total(a) + c.Span()
    ensures OnlyFreeWritten(w0, w[i := v], at, a + [c] + z)
  {
    FreeApart(at, a, c, z, 4 * i);
  }

  lemma FreeApart(at: nat, a: seq<Chunk>, c: Chunk, z: seq<Chunk>, x: nat)
    requires c.free && at + Total(a) <= x < at + Total(a) + c.Span()
    ensures x < at + Total(a + [c] + z)
    ensures forall b :: b in Live(at, a + [c] + z) ==> !(b.0 <= x < b.0 + 4 + b.1)
  {
    var p := at + Total(a);
    AroundPieces(at, a, [c], z);
    LiveBounds(at, a);
    LiveBounds(p + c.Span(), z);
    assert Live(p, [c]) == {};
  }

  lemma FreeWritesCompose(w0: seq<Word>, w1: seq<Word>, w2: seq<Word>, at: nat, cs0: seq<Chunk>, cs1: seq<Chunk>)
    requires OnlyFreeWritten(w0, w1, at, cs0) && OnlyFreeWritten(w1, w2, at, cs1)
    requires Total(cs1) == Total(cs0)
    requires NoZero(cs0) ==> NoZero(cs1) && Live(at, cs1) == Live(at, cs0)
    ensures OnlyFreeWritten(w0, w2, at, cs0)
  {
  }

  /** A header word in front, read as malloc reads it. */
  lemma HeaderBits(c: Chunk)
    requires c.size % 4 == 0
    ensures c.Header() - c.Header() % 4 == c.size
    ensures c.Header() % 2 == if c.free then 1 else 0
    ensures c.Header() == 0 <==> c.Zero()
  {
    var q := c.size / 4;
    if c.free {
      QuadrupleRest(q, 1);
    }
    QuadrupleEven(q);
  }

  // ----- the scan -----

  /** The state of the scan: out is finished, run is the collection of free chunks under way, rest is to come;
      prefix is what out was made of. */
  ghost predicate Collected(cs: seq<Chunk>, prefix: seq<Chunk>, out: seq<Chunk>, run: seq<Chunk>, rest: seq<Chunk>) {
    && cs == prefix + run + rest
    && Coalesced([], cs) == out + Coalesced(run, rest)
    && AllFree(run) && Total(out) == Total(prefix)
  }

  /** out, run and rest lie in memory one after the other; run starts at head and rest at chunk. */
  ghost predicate Lined(w: seq<Word>, base: nat, head: nat, chunk: nat, end: nat,
                        out: seq<Chunk>, run: seq<Chunk>, rest: seq<Chunk>)
  {
    Tiles(w, base, head, out) && Tiles(w, head, chunk, run) && Tiles(w, chunk, end, rest)
  }

  lemma ScanStarts(w: seq<Word>, base: nat, end: nat, cs: seq<Chunk>)
    requires Tiles(w, base, end, cs)
    ensures Collected(cs, [], [], [], cs) && Lined(w, base, base, base, end, [], [], cs)
  {
  }

  lemma LinedHead(w: seq<Word>, base: nat, head: nat, chunk: nat, end: nat,
                  out: seq<Chunk>, run: seq<Chunk>, rest: seq<Chunk>)
    requires Lined(w, base, head, chunk, end, out, run, rest)
    ensures head == base + Total(out) && chunk == head + Total(run) && end == chunk + Total(rest)
    ensures run != [] ==> head % 4 == 0 && head / 4 < |w|
    ensures rest != [] ==> chunk % 4 == 0 && chunk / 4 < |w| && w[chunk / 4] == rest[0].Header()
    ensures rest != [] ==> rest[0].size % 4 == 0
    ensures Total(run) % 4 == 0 && Total(rest) % 4 == 0
    ensures chunk <= end && (chunk < end <==> rest != [])
    ensures rest != [] ==> chunk + rest[0].Span() <= end
  {
    TilesTotal(w, base, head, out);
    TilesTotal(w, head, chunk, run);
    TilesTotal(w, chunk, end, rest);
    TotalAligned(run);
    TotalAligned(rest);
  }

  lemma ScanFree(w: seq<Word>, base: nat, head: nat, chunk: nat, end: nat, cs: seq<Chunk>, prefix: seq<Chunk>,
                 out: seq<Chunk>, run: seq<Chunk>, rest: seq<Chunk>)
    requires Collected(cs, prefix, out, run, rest) && Lined(w, base, head, chunk, end, out, run, rest)
    requires rest != [] && rest[0].free
    ensures Collected(cs, prefix, out, run + [rest[0]], rest[1..])
    ensures Lined(w, base, head, chunk + rest[0].Span(), end, out, run + [rest[0]], rest[1..])
  {
    assert prefix + (run + [rest[0]]) + rest[1..] == prefix + run + rest;
    assert [rest[0]][1..] == [];
    TilesConcat(w, head, chunk, chunk + rest[0].Span(), run, [rest[0]]);
  }

  /** A chunk in use, once no collection is under way. */
  lemma ScanUsed(w: seq<Word>, base: nat, chunk: nat, end: nat, cs: seq<Chunk>, prefix: seq<Chunk>,
                 out: seq<Chunk>, rest: seq<Chunk>)
    requires Collected(cs, prefix, out, [], rest) && Lined(w, base, chunk, chunk, end, out, [], rest)
    requires rest != [] && !rest[0].free && !rest[0].Zero()
    ensures Collected(cs, prefix + [rest[0]], out + [rest[0]], [], rest[1..])
    ensures var next := chunk + rest[0].Span(); Lined(w, base, next, next, end, out + [rest[0]], [], rest[1..])
  {
    assert prefix + [rest[0]] + [] + rest[1..] == prefix + [] + rest;
    TotalConcat(out, [rest[0]]);
    TotalConcat(prefix, [rest[0]]);
    assert [rest[0]][1..] == [];
    TilesConcat(w, base, chunk, chunk + rest[0].Span(), out, [rest[0]]);
    assert out + Coalesced([], rest) == out + [rest[0]] + Coalesced([], rest[1..]);
  }

  /** The write that closes a collection. */
  lemma JoinLined(w: seq<Word>, base: nat, head: nat, chunk: nat, end: nat,
                  out: seq<Chunk>, run: seq<Chunk>, rest: seq<Chunk>, i: nat)
    requires Lined(w, base, head, chunk, end, out, run, rest)
    requires run != [] && Total(run) - 3 < WORD && i < |w| && 4 * i == head
    ensures Lined(w[i := Total(run) - 3], base, chunk, chunk, end, out + Joined(run), [], rest)
  {
    TilesJoin(w, base, head, chunk, end, out, run, rest, Joined(run)[0]);
  }

  lemma JoinCollected(cs: seq<Chunk>, prefix: seq<Chunk>, out: seq<Chunk>, run: seq<Chunk>, rest: seq<Chunk>)
    requires Collected(cs, prefix, out, run, rest)
    requires run != [] && (rest == [] || (!rest[0].free && !rest[0].Zero()))
    ensures Collected(cs, prefix + run, out + Joined(run), [], rest)
  {
    JoinedTotal(run);
    TotalConcat(out, Joined(run));
    TotalConcat(prefix, run);
    assert prefix + run + [] + rest == prefix + run + rest;
    assert Coalesced(run, rest) == Joined(run) + Coalesced([], rest);
    assert out + (Joined(run) + Coalesced([], rest)) == out + Joined(run) + Coalesced([], rest);
  }

  lemma ScanEnds(w: seq<Word>, base: nat, head: nat, end: nat, cs: seq<Chunk>, prefix: seq<Chunk>, out: seq<Chunk>)
    requires Collected(cs, prefix, out, [], []) && Lined(w, base, head, end, end, out, [], [])
    ensures Tiles(w, base, end, Coalesced([], cs))
  {
    assert Coalesced([], cs) == out;
  }

  /** A zero header: everything from it on becomes one free chunk, and the collection under way is left as it is. */
  lemma BrokenLined(w: seq<Word>, base: nat, head: nat, chunk: nat, end: nat, cs: seq<Chunk>, prefix: seq<Chunk>,
                    out: seq<Chunk>, run: seq<Chunk>, rest: seq<Chunk>, i: nat)
    requires Collected(cs, prefix, out, run, rest) && Lined(w, base, head, chunk, end, out, run, rest)
    requires rest != [] && rest[0].Zero() && Total(rest) - 3 < WORD && i < |w| && 4 * i == chunk
    ensures Tiles(w[i := Total(rest) - 3], base, end, Coalesced([], cs))
  {
    var c := Chunk(Total(rest) - 4, true);
    TilesConcat(w, base, head, chunk, out, run);
    TilesJoin(w, base, chunk, end, end, out + run, rest, [], c);
    assert out + (run + [c]) == out + run + [c];
  }

  lemma RunWrite(w0: seq<Word>, w: seq<Word>, base: nat, cs: seq<Chunk>, prefix: seq<Chunk>,
                 run: seq<Chunk>, rest: seq<Chunk>, i: nat, v: Word)
    requires cs == prefix + run + rest && run != [] && AllFree(run)
    requires OnlyFreeWritten(w0, w, base, cs) && i < |w| && 4 * i == base + Total(prefix)
    ensures OnlyFreeWritten(w0, w[i := v], base, cs)
  {
    assert cs == prefix + [run[0]] + (run[1..] + rest);
    FreeWrite(w0, w, base, prefix, run[0], run[1..] + rest, i, v);
  }

  lemma RangeWrite(w0: seq<Word>, w: seq<Word>, base: nat, cs: seq<Chunk>, i: nat, v: Word)
    requires OnlyFreeWritten(w0, w, base, cs) && !NoZero(cs) && i < |w| && base <= 4 * i < base + Total(cs)
    ensures OnlyFreeWritten(w0, w[i := v], base, cs)
  {
  }

  /** Writing dsize | 1 at the start of the collection closes it. */
  lemma ClosesRun(w0: seq<Word>, w: seq<Word>, base: nat, head: nat, chunk: nat, end: nat, cs: seq<Chunk>,
                  prefix: seq<Chunk>, out: seq<Chunk>, run: seq<Chunk>, rest: seq<Chunk>, v: Word)
    requires Collected(cs, prefix, out, run, rest) && Lined(w, base, head, chunk, end, out, run, rest)
    requires run != [] && v == Total(run) - 3 && OnlyFreeWritten(w0, w, base, cs)
    requires rest == [] || (!rest[0].free && !rest[0].Zero())
    ensures head % 4 == 0 && head / 4 < |w|
    ensures Collected(cs, prefix + run, out + Joined(run), [], rest)
    ensures Lined(w[head / 4 := v], base, chunk, chunk, end, out + Joined(run), [], rest)
    ensures OnlyFreeWritten(w0, w[head / 4 := v], base, cs)
  {
    LinedHead(w, base, head, chunk, end, out, run, rest);
    JoinLined(w, base, head, chunk, end, out, run, rest, head / 4);
    JoinCollected(cs, prefix, out, run, rest);
    RunWrite(w0, w, base, cs, prefix, run, rest, head / 4, v);
  }

  /** Writing the size of the rest of the heap at a zero header makes that rest one free chunk. */
  lemma ClosesBroken(w0: seq<Word>, w: seq<Word>, base: nat, head: nat, chunk: nat, end: nat, cs: seq<Chunk>,
                     prefix: seq<Chunk>, out: seq<Chunk>, run: seq<Chunk>, rest: seq<Chunk>, v: Word)
    requires Collected(cs, prefix, out, run, rest) && Lined(w, base, head, chunk, end, out, run, rest)
    requires rest != [] && rest[0].Zero() && v == Total(rest) - 3 && OnlyFreeWritten(w0, w, base, cs)
    ensures chunk % 4 == 0 && chunk / 4 < |w|
    ensures Tiles(w[chunk / 4 := v], base, end, Coalesced([], cs))
    ensures OnlyFreeWritten(w0, w[chunk / 4 := v], base, cs)
  {
    LinedHead(w, base, head, chunk, end, out, run, rest);
    BrokenLined(w, base, head, chunk, end, cs, prefix, out, run, rest, chunk / 4);
    TotalConcat(prefix + run, rest);
    TotalConcat(prefix, run);
    assert cs[|prefix + run|].Zero();
    RangeWrite(w0, w, base, cs, chunk / 4, v);
  }

  /** What a scan works on: the memory w0 it found, and the heap [base, end) of chunks cs. */
  datatype Job = Job(w0: seq<Word>, base: nat, end: nat, cs: seq<Chunk>)

  /** Ghost account of the scan, beside its variables. */
  datatype Account = Account(prefix: seq<Chunk>, out: seq<Chunk>, run: seq<Chunk>, rest: seq<Chunk>, head: nat)

  /** The variables of the scan agree with the account. */
  ghost predicate Scanning(job: Job, w: seq<Word>, a: Account, chunk: nat, colflag: bool, newchunk: nat, dsize: nat) {
    && Collected(job.cs, a.prefix, a.out, a.run, a.rest)
    && Lined(w, job.base, a.head, chunk, job.end, a.out, a.run, a.rest)
    && OnlyFreeWritten(job.w0, w, job.base, job.cs)
    && (colflag <==> a.run != [])
    && (colflag ==> newchunk == a.head && dsize == Total(a.run) - 4)
  }

  /** What the scan is for. */
  ghost predicate Scanned(job: Job, w: seq<Word>) {
    Tiles(w, job.base, job.end, Coalesced([], job.cs)) && OnlyFreeWritten(job.w0, w, job.base, job.cs)
  }

  lemma ScanningStarts(job: Job, w: seq<Word>) returns (a: Account)
    requires w == job.w0 && Tiles(w, job.base, job.end, job.cs)
    ensures Scanning(job, w, a, job.base, false, 0, 0)
  {
    ScanStarts(w, job.base, job.end, job.cs);
    a := Account([], [], [], job.cs, job.base);
  }

  /** What the scan reads at chunk, and where it is. */
  lemma ScanningHead(job: Job, w: seq<Word>, a: Account, chunk: nat, colflag: bool, newchunk: nat, dsize: nat)
    requires Scanning(job, w, a, chunk, colflag, newchunk, dsize)
    ensures chunk <= job.end && (chunk < job.end <==> a.rest != [])
    ensures a.rest != [] ==>
      && chunk / 4 < |w| && a.rest[0].size % 4 == 0 && chunk + a.rest[0].Span() <= job.end
      && SizeBits(w[chunk / 4]) == a.rest[0].size
      && (FreeBit(w[chunk / 4]) == 1 <==> a.rest[0].free) && (w[chunk / 4] == 0 <==> a.rest[0].Zero())
    ensures a.rest != [] && job.end - chunk - 4 < WORD ==> SetFreeBit(job.end - chunk - 4) == job.end - chunk - 3
    ensures colflag ==> newchunk / 4 < |w| && newchunk + dsize + 4 == chunk
    ensures colflag && dsize < WORD ==> SetFreeBit(dsize) == dsize + 1
  {
    hide Scanned, Tiles, Coalesced, SetFreeBit;
    LinedHead(w, job.base, a.head, chunk, job.end, a.out, a.run, a.rest);
    if a.rest != [] {
      HeaderBits(a.rest[0]);
      if job.end - chunk - 4 < WORD {
        FreeHeader(job.end - chunk - 4, Total(a.rest));
      }
    }
    if colflag && dsize < WORD {
      FreeHeader(dsize, Total(a.run));
    }
  }

  lemma ScanningFree(job: Job, w: seq<Word>, a: Account, chunk: nat, colflag: bool, newchunk: nat, dsize: nat,
                     csize: nat) returns (b: Account)
    requires Scanning(job, w, a, chunk, colflag, newchunk, dsize)
    requires a.rest != [] && a.rest[0].free && a.rest[0].size == csize
    ensures Scanning(job, w, b, chunk + csize + 4, true,
                     if colflag then newchunk else chunk, if colflag then dsize + csize + 4 else csize)
  {
    LinedHead(w, job.base, a.head, chunk, job.end, a.out, a.run, a.rest);
    ScanFree(w, job.base, a.head, chunk, job.end, job.cs, a.prefix, a.out, a.run, a.rest);
    TotalConcat(a.run, [a.rest[0]]);
    assert [a.rest[0]][1..] == [];
    b := a.(run := a.run + [a.rest[0]], rest := a.rest[1..]);
  }

  lemma ScanningUsed(job: Job, w: seq<Word>, a: Account, chunk: nat, newchunk: nat, dsize: nat, csize: nat)
    returns (b: Account)
    requires Scanning(job, w, a, chunk, false, newchunk, dsize)
    requires a.rest != [] && !a.rest[0].free && !a.rest[0].Zero() && a.rest[0].size == csize
    ensures Scanning(job, w, b, chunk + csize + 4, false, newchunk, dsize)
  {
    hide Tiles, Coalesced, OnlyFreeWritten;
    LinedHead(w, job.base, a.head, chunk, job.end, a.out, a.run, a.rest);
    ScanUsed(w, job.base, chunk, job.end, job.cs, a.prefix, a.out, a.rest);
    b := Account(a.prefix + [a.rest[0]], a.out + [a.rest[0]], [], a.rest[1..], chunk + csize + 4);
  }

  lemma ScanningClose(job: Job, w: seq<Word>, a: Account, chunk: nat, newchunk: nat, dsize: nat, v: Word)
    returns (b: Account)
    requires Scanning(job, w, a, chunk, true, newchunk, dsize) && v == dsize + 1
    requires a.rest == [] || (!a.rest[0].free && !a.rest[0].Zero())
    ensures newchunk / 4 < |w| && b.rest == a.rest
    ensures Scanning(job, w[newchunk / 4 := v], b, chunk, false, newchunk, dsize)
  {
    ClosesRun(job.w0, w, job.base, a.head, chunk, job.end, job.cs, a.prefix, a.out, a.run, a.rest, v);
    b := Account(a.prefix + a.run, a.out + Joined(a.run), [], a.rest, chunk);
  }

  lemma ScanningBreaks(job: Job, w: seq<Word>, a: Account, chunk: nat, colflag: bool, newchunk: nat, dsize: nat, v: Word)
    requires Scanning(job, w, a, chunk, colflag, newchunk, dsize)
    requires a.rest != [] && a.rest[0].Zero() && v == job.end - chunk - 3
    ensures chunk / 4 < |w| && Scanned(job, w[chunk / 4 := v])
  {
    LinedHead(w, job.base, a.head, chunk, job.end, a.out, a.run, a.rest);
    ClosesBroken(job.w0, w, job.base, a.head, chunk, job.end, job.cs, a.prefix, a.out, a.run, a.rest, v);
  }

  lemma ScanningEnds(job: Job, w: seq<Word>, a: Account, chunk: nat, newchunk: nat, dsize: nat)
    requires Scanning(job, w, a, chunk, false, newchunk, dsize) && chunk >= job.end
    ensures Scanned(job, w)
  {
    LinedHead(w, job.base, a.head, chunk, job.end, a.out, a.run, a.rest);
    ScanEnds(w, job.base, a.head, job.end, job.cs, a.prefix, a.out);
  }

  // ----- search and split -----

  lemma HeaderWord(w: seq<Word>, at: nat, end: nat, m: seq<Chunk>, k: nat)
    requires Tiles(w, at, end, m) && k < |m|
    ensures HeaderAt(at, m, k) % 4 == 0 && HeaderAt(at, m, k) / 4 < |w|
    ensures var v := w[HeaderAt(at, m, k) / 4];
            && v == m[k].Header() && SizeBits(v) == m[k].size && (FreeBit(v) == 1 <==> m[k].free)
    ensures HeaderAt(at, m, k + 1) == HeaderAt(at, m, k) + m[k].Span() <= end
    ensures HeaderAt(at, m, k + 1) == end <==> k + 1 == |m|
    ensures m[k].size % 4 == 0
  {
    TilesSplit(w, at, end, m, k);
    TilesTotal(w, HeaderAt(at, m, k), end, m[k..]);
    HeaderBits(m[k]);
    assert m[..k + 1] == m[..k] + [m[k]] && m[k..][1..] == m[k + 1..];
    TotalConcat(m[..k], [m[k]]);
    assert [m[k]][1..] == [];
  }

  lemma FirstFitSkips(m: seq<Chunk>, d: nat, k: nat)
    requires k < |m| && FirstFit(m, d) == k + FirstFit(m[k..], d)
    ensures m[k].free && m[k].size >= d ==> FirstFit(m, d) == k
    ensures !(m[k].free && m[k].size >= d) ==> FirstFit(m, d) == k + 1 + FirstFit(m[k + 1..], d)
  {
  }

  /** Memory once chunk k is taken whole. */
  lemma TakeWhole(w: seq<Word>, at: nat, end: nat, m: seq<Chunk>, k: nat, i: nat, v: Word)
    requires Tiles(w, at, end, m) && k < |m| && m[k].free && v == m[k].size
    requires i < |w| && 4 * i == HeaderAt(at, m, k)
    ensures Tiles(w[i := v], at, end, Taken(m, k, v))
    ensures OnlyFreeWritten(w, w[i := v], at, m)
  {
    var c := Chunk(v, false);
    var p, q := HeaderAt(at, m, k), HeaderAt(at, m, k + 1);
    HeaderWord(w, at, end, m, k);
    TilesSplit(w, at, end, m, k);
    TilesFrame(w, at, p, m[..k], i, v);
    assert m[k..][1..] == m[k + 1..];
    TilesTotal(w, q, end, m[k + 1..]);
    TilesFrame(w, q, end, m[k + 1..], i, v);
    assert [c][1..] == [];
    TilesConcat(w[i := v], at, p, q, m[..k], [c]);
    TilesConcat(w[i := v], at, q, end, m[..k] + [c], m[k + 1..]);
    assert m == m[..k] + [m[k]] + m[k + 1..];
    FreeWrite(w, w, at, m[..k], m[k], m[k + 1..], i, v);
  }

  /** A free chunk in which a second header is written becomes two free chunks. */
  lemma SplitFree(w: seq<Word>, at: nat, end: nat, m: seq<Chunk>, k: nat, d: nat, i: nat, j: nat, u: Word, v: Word)
    requires Tiles(w, at, end, m) && k < |m| && m[k].free && d % 4 == 0 && d + 4 <= m[k].size
    requires i < |w| && 4 * i == HeaderAt(at, m, k) && j < |w| && 4 * j == HeaderAt(at, m, k) + 4 + d
    requires u == d && v == m[k].size - d - 3
    ensures Tiles(w[i := u][j := v], at, end, Taken(m, k, d))
    ensures OnlyFreeWritten(w, w[i := u][j := v], at, m)
  {
    hide Tiles, SizeBits, FreeBit, OnlyFreeWritten;
    var b, c := Chunk(d, false), Chunk(m[k].size - d - 4, true);
    var p, q := HeaderAt(at, m, k), HeaderAt(at, m, k + 1);
    HeaderWord(w, at, end, m, k);
    TilesSplit(w, at, end, m, k);
    assert m[k..][1..] == m[k + 1..];
    TilesTotal(w, q, end, m[k + 1..]);
    TilesFrame(w, at, p, m[..k], i, u);
    TilesFrame(w, q, end, m[k + 1..], i, u);
    TilesFrame(w[i := u], at, p, m[..k], j, v);
    TilesFrame(w[i := u], q, end, m[k + 1..], j, v);
    SplitTiles(w[i := u][j := v], p, q, b, c);
    TilesConcat(w[i := u][j := v], at, p, q, m[..k], [b, c]);
    TilesConcat(w[i := u][j := v], at, q, end, m[..k] + [b, c], m[k + 1..]);
    assert m == m[..k] + [m[k]] + m[k + 1..];
    NothingWritten(w, at, m);
    FreeWrite(w, w, at, m[..k], m[k], m[k + 1..], i, u);
    FreeWrite(w, w[i := u], at, m[..k], m[k], m[k + 1..], j, v);
  }

  lemma SplitTiles(w: seq<Word>, p: nat, q: nat, b: Chunk, c: Chunk)
    requires p % 4 == 0 && b.size % 4 == 0 && c.size % 4 == 0 && q == p + b.Span() + c.Span()
    requires p / 4 < |w| && w[p / 4] == b.Header()
    requires (p + b.Span()) / 4 < |w| && w[(p + b.Span()) / 4] == c.Header()
    ensures Tiles(w, p, q, [b, c])
  {
  }

  /** Memory once the free bit of chunk k is set. */
  lemma FreeTiles(w: seq<Word>, at: nat, end: nat, cs: seq<Chunk>, k: nat, i: nat)
    requires Tiles(w, at, end, cs) && k < |cs| && !cs[k].free && i < |w| && 4 * i == HeaderAt(at, cs, k)
    ensures Tiles(w[i := SetFreeBit(w[i])], at, end, Freed(cs, k))
  {
    var c := Chunk(cs[k].size, true);
    var v := SetFreeBit(w[i]);
    var p, q := HeaderAt(at, cs, k), HeaderAt(at, cs, k + 1);
    HeaderWord(w, at, end, cs, k);
    TilesSplit(w, at, end, cs, k);
    TilesFrame(w, at, p, cs[..k], i, v);
    assert cs[k..][1..] == cs[k + 1..];
    TilesTotal(w, q, end, cs[k + 1..]);
    TilesFrame(w, q, end, cs[k + 1..], i, v);
    assert [c][1..] == [];
    TilesConcat(w[i := v], at, p, q, cs[..k], [c]);
    TilesConcat(w[i := v], at, q, end, cs[..k] + [c], cs[k + 1..]);
    assert Freed(cs, k) == cs[..k] + [c] + cs[k + 1..];
  }
}
