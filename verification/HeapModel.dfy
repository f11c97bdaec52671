/** malloc and free on chunk lists, and what every run of them keeps. */
module HeapModel {
  import opened Chunks
  import opened Memory

  /** (a0 + 3) & 0xfffffffc, in 32 bits. */
  function Rounded(request: Word): (d: nat)
    ensures d % 4 == 0
    ensures request <= WORD - 4 ==> request <= d <= request + 3
    ensures request > WORD - 4 ==> d == 0
  {
    var r := (request + 3) % WORD;
    r - r % 4
  }

  ghost predicate Aligned(cs: seq<Chunk>) {
    forall k :: 0 <= k < |cs| ==> cs[k].size % 4 == 0
  }

  // ----- malloc -----

  /** The chunks that replace a free chunk when it gives d bytes: it is taken whole, or split. */
  function Pieces(c: Chunk, d: nat): seq<Chunk>
    requires d <= c.size && (d == c.size || d + 4 <= c.size)
  {
    if d == c.size then [Chunk(d, false)] else [Chunk(d, false), Chunk(c.size - d - 4, true)]
  }

  function Taken(m: seq<Chunk>, k: nat, d: nat): seq<Chunk>
    requires k < |m| && d <= m[k].size && (d == m[k].size || d + 4 <= m[k].size)
  {
    m[..k] + Pieces(m[k], d) + m[k + 1..]
  }

  /** What malloc leaves, and the index of the chunk it hands out. */
  datatype Reply = Reply(chunks: seq<Chunk>, block: Option<nat>)

  function Malloc(cs: seq<Chunk>, request: Word): Reply
    requires Aligned(cs)
  {
    if request == 0 then Reply(cs, None)
    else
      var m, d := Coalesced([], cs), Rounded(request);
      var k := FirstFit(m, d);
      if k == |m| then Reply(m, None)
      else
        CoalescedAligned([], cs);
        Reply(Taken(m, k, d), Some(k))
  }

  lemma TwiceEven(h: nat)
    ensures 2 * h % 2 == 0 && (2 * h + 1) % 2 == 1
  {
  }

  lemma QuadrupleEven(q: nat)
    ensures 4 * q % 2 == 0 && (4 * q + 1) % 2 == 1
  {
    TwiceEven(2 * q);
  }

  lemma QuadrupleRest(q: nat, r: nat)
    requires r < 4
    ensures (4 * q + r) % 4 == r
  {
  }

  lemma SpanAligned(size: nat, t: nat)
    requires size % 4 == 0 && t % 4 == 0
    ensures (size + 4 + t) % 4 == 0
  {
    QuadrupleRest(size / 4 + 1 + t / 4, 0);
  }

  lemma LessHeader(t: nat)
    requires t % 4 == 0 && t >= 4
    ensures (t - 4) % 4 == 0
  {
    QuadrupleRest(t / 4 - 1, 0);
  }

  lemma RoundedAligned(n: Word)
    requires n % 4 == 0 && n <= WORD - 4
    ensures Rounded(n) == n
  {
    QuadrupleRest(n / 4, 3);
  }

  lemma {:induction false} TotalAligned(cs: seq<Chunk>)
    requires Aligned(cs)
    ensures Total(cs) % 4 == 0
  {
    if cs != [] {
      TotalAligned(cs[1..]);
      SpanAligned(cs[0].size, Total(cs[1..]));
    }
  }

  lemma {:induction false} CoalescedAligned(run: seq<Chunk>, cs: seq<Chunk>)
    requires Aligned(run) && Aligned(cs)
    ensures Aligned(Coalesced(run, cs))
    decreases |cs|
  {
    if cs == [] {
      JoinedAligned(run);
    } else if cs[0].Zero() {
      TotalAligned(cs);
      LessHeader(Total(cs));
    } else if cs[0].free {
      CoalescedAligned(run + [cs[0]], cs[1..]);
    } else {
      JoinedAligned(run);
      CoalescedAligned([], cs[1..]);
    }
  }

  lemma JoinedAligned(run: seq<Chunk>)
    requires Aligned(run)
    ensures Aligned(Joined(run))
  {
    if run != [] {
      TotalAligned(run);
      LessHeader(Total(run));
      assert Joined(run)[0].size == Total(run) - 4;
    }
  }

  lemma PiecesFacts(at: nat, c: Chunk, d: nat)
    requires c.free && d <= c.size && (d == c.size || d + 4 <= c.size)
    ensures Total(Pieces(c, d)) == c.Span()
    ensures Live(at, Pieces(c, d)) == {(at, d)}
  {
    if d < c.size {
      var rest := Chunk(c.size - d - 4, true);
      assert Pieces(c, d) == [Chunk(d, false)] + [rest];
      TotalConcat([Chunk(d, false)], [rest]);
      LiveConcat(at, [Chunk(d, false)], [rest]);
    }
  }

  /** Replacing chunk k by pieces of the same total changes the total and the live chunks there only. */
  lemma Replaced(at: nat, m: seq<Chunk>, k: nat, p: seq<Chunk>)
    requires k < |m| && Total(p) == m[k].Span()
    ensures Total(m[..k] + p + m[k + 1..]) == Total(m)
    ensures var before, after := Live(at, m[..k]), Live(HeaderAt(at, m, k) + m[k].Span(), m[k + 1..]);
            && Live(at, m[..k] + p + m[k + 1..]) == before + Live(HeaderAt(at, m, k), p) + after
            && Live(at, m) == before + Live(HeaderAt(at, m, k), [m[k]]) + after
  {
    hide Total, Live;
    var a, z := m[..k], m[k + 1..];
    assert m == a + [m[k]] + z;
    TotalOne(m[k]);
    AroundPieces(at, a, p, z);
    AroundPieces(at, a, [m[k]], z);
  }

  lemma TotalOne(c: Chunk)
    ensures Total([c]) == c.Span()
  {
  }

  lemma AroundPieces(at: nat, a: seq<Chunk>, p: seq<Chunk>, z: seq<Chunk>)
    ensures Total(a + p + z) == Total(a) + Total(p) + Total(z)
    ensures Live(at, a + p + z) == Live(at, a) + Live(at + Total(a), p) + Live(at + Total(a) + Total(p), z)
  {
    TotalConcat(a + p, z);
    TotalConcat(a, p);
    LiveConcat(at, a + p, z);
    LiveConcat(at, a, p);
  }

  /** Taking chunk k keeps the tiling and the other chunks in use, and adds one of exactly d bytes. */
  lemma TakenFacts(at: nat, m: seq<Chunk>, k: nat, d: nat)
    requires k < |m| && m[k].free && d <= m[k].size && (d == m[k].size || d + 4 <= m[k].size)
    ensures Total(Taken(m, k, d)) == Total(m)
    ensures Live(at, Taken(m, k, d)) == Live(at, m) + {(HeaderAt(at, m, k), d)}
    ensures Taken(m, k, d)[..k] == m[..k]
  {
    PiecesFacts(HeaderAt(at, m, k), m[k], d);
    Replaced(at, m, k, Pieces(m[k], d));
    assert Live(HeaderAt(at, m, k), [m[k]]) == {};
  }

  ghost predicate Sound(cs: seq<Chunk>) {
    Aligned(cs) && NoZero(cs)
  }

  /** malloc is complete and first fit: it fails exactly when no maximal run of adjacent free chunks, headers
      included, reaches the rounded request, and otherwise hands out the start of the lowest run that does.
      It keeps the tiling and every chunk in use, and the new chunk has exactly the rounded size. The heap
      stays sound unless the rounding wrapped to nothing. */
  lemma MallocIsFirstFit(at: nat, cs: seq<Chunk>, request: Word) returns (i: nat, j: nat)
    requires Sound(cs) && request != 0
    ensures var r, d := Malloc(cs, request), Rounded(request);
            && (r.block == None <==> NoFit(cs, d))
            && Total(r.chunks) == Total(cs) && Aligned(r.chunks)
            && (NoZero(r.chunks) <==> r.block == None || d > 0)
            && (r.block == None ==> Live(at, r.chunks) == Live(at, cs))
            && (r.block != None ==>
                  && LowestFit(cs, d, i, j)
                  && r.block.value < |r.chunks| && r.chunks[r.block.value] == Chunk(d, false)
                  && i < j <= |cs| && HeaderAt(at, r.chunks, r.block.value) == HeaderAt(at, cs, i)
                  && Live(at, r.chunks) == Live(at, cs) + {(HeaderAt(at, cs, i), d)})
  {
    hide LowestFit, NoFit;
    var m, d, r := Coalesced([], cs), Rounded(request), Malloc(cs, request);
    var k := FirstFit(m, d);
    i, j := FirstFitIsLowestRun([], cs, d);
    assert [] + cs == cs;
    CoalescedTotal([], cs);
    CoalescedSeparates([], cs);
    CoalescedKeepsLive(at, [], cs);
    CoalescedAligned([], cs);
    if k < |m| {
      TakenFacts(at, m, k, d);
      TakenSound(m, k, d);
      LowestFitBounds(cs, d, i, j);
    }
  }

  lemma TakenSound(m: seq<Chunk>, k: nat, d: nat)
    requires Sound(m) && k < |m| && d <= m[k].size && d % 4 == 0
    ensures Aligned(Taken(m, k, d)) && (NoZero(Taken(m, k, d)) <==> d > 0)
    ensures Taken(m, k, d)[k] == Chunk(d, false)
  {
    assert Taken(m, k, d)[k] == Chunk(d, false);
  }

  lemma LowestFitBounds(cs: seq<Chunk>, d: nat, i: nat, j: nat)
    requires LowestFit(cs, d, i, j)
    ensures i < j <= |cs|
  {
  }

  // ----- free -----

  /** The chunk list after free of chunk k; freeing it again changes nothing. */
  function Freed(cs: seq<Chunk>, k: nat): seq<Chunk>
    requires k < |cs|
  {
    cs[k := Chunk(cs[k].size, true)]
  }

  lemma FreedFacts(at: nat, cs: seq<Chunk>, k: nat)
    requires Sound(cs) && k < |cs|
    ensures Sound(Freed(cs, k)) && Total(Freed(cs, k)) == Total(cs)
    ensures Live(at, Freed(cs, k)) == Live(at, cs) - {(HeaderAt(at, cs, k), cs[k].size)}
  {
    var c := Chunk(cs[k].size, true);
    assert Freed(cs, k) == cs[..k] + [c] + cs[k + 1..];
    Replaced(at, cs, k, [c]);
    var here := HeaderAt(at, cs, k);
    LiveBounds(at, cs[..k]);
    LiveBounds(here + c.Span(), cs[k + 1..]);
    assert Live(here, [c]) == {};
    assert Live(here, [cs[k]]) == if cs[k].free then {} else {(here, cs[k].size)};
    if cs[k].free {
      LiveBounds(here, [cs[k]]);
    }
  }

  /** Every chunk in use lies between the start and the end of the list. */
  lemma {:induction false} LiveBounds(at: nat, cs: seq<Chunk>)
    ensures forall b :: b in Live(at, cs) ==> at <= b.0 && b.0 + 4 + b.1 <= at + Total(cs)
    decreases |cs|
  {
    if cs != [] {
      LiveBounds(at + cs[0].Span(), cs[1..]);
    }
  }

  /** Header and payload of two chunks in use never meet. */
  lemma {:induction false} LiveApart(at: nat, cs: seq<Chunk>, b: (nat, nat), c: (nat, nat))
    requires b in Live(at, cs) && c in Live(at, cs) && b != c
    ensures b.0 + 4 + b.1 <= c.0 || c.0 + 4 + c.1 <= b.0
    decreases |cs|
  {
    LiveBounds(at + cs[0].Span(), cs[1..]);
    if b in Live(at + cs[0].Span(), cs[1..]) && c in Live(at + cs[0].Span(), cs[1..]) {
      LiveApart(at + cs[0].Span(), cs[1..], b, c);
    }
  }

  lemma {:induction false} LiveIndex(at: nat, cs: seq<Chunk>, b: (nat, nat)) returns (k: nat)
    requires b in Live(at, cs)
    ensures k < |cs| && !cs[k].free && b == (HeaderAt(at, cs, k), cs[k].size)
    decreases |cs|
  {
    if !cs[0].free && b == (at, cs[0].size) {
      k := 0;
      assert cs[..0] == [];
    } else {
      k := LiveIndex(at + cs[0].Span(), cs[1..], b);
      assert cs[..k + 1] == [cs[0]] + cs[1..][..k];
      k := k + 1;
    }
  }

  // ----- runs -----

  /** One call: malloc of some bytes, or free of the block whose header is at an address. */
  datatype Call = AllocCall(request: Word) | FreeCall(header: nat)

  /** The heap and, for each block handed out and not freed, the bytes that were asked for. */
  datatype State = State(chunks: seq<Chunk>, owed: map<nat, Word>)

  /** The heap of n bytes as the first malloc after InitHeap sets it up. */
  function Fresh(n: nat): State
    requires n >= 4
  {
    State([Chunk(n - 4, true)], map[])
  }

  /** Every chunk in use was handed out, is at least as large as what was asked for, and nothing else was. */
  ghost predicate Owes(at: nat, st: State, size: nat) {
    && Sound(st.chunks) && Total(st.chunks) == size
    && (forall b :: b in Live(at, st.chunks) ==> b.0 in st.owed && st.owed[b.0] <= b.1)
    && (forall h :: h in st.owed ==> HeaderIsLive(at, st.chunks, h))
  }

  ghost predicate HeaderIsLive(at: nat, cs: seq<Chunk>, h: nat) {
    exists s :: (h, s) in Live(at, cs)
  }

  /** Index of the chunk whose header is at address h, or the length of the list. */
  function IndexAt(at: nat, cs: seq<Chunk>, h: nat): (k: nat)
    ensures k <= |cs|
    decreases |cs|
  {
    if cs == [] || at == h then 0 else 1 + IndexAt(at + cs[0].Span(), cs[1..], h)
  }

  lemma {:induction false} IndexOfLive(at: nat, cs: seq<Chunk>, b: (nat, nat))
    requires b in Live(at, cs)
    ensures var k := IndexAt(at, cs, b.0);
            k < |cs| && !cs[k].free && b == (HeaderAt(at, cs, k), cs[k].size)
    decreases |cs|
  {
    LiveBounds(at + cs[0].Span(), cs[1..]);
    if at == b.0 {
      assert cs[..0] == [];
    } else {
      IndexOfLive(at + cs[0].Span(), cs[1..], b);
      var k := IndexAt(at + cs[0].Span(), cs[1..], b.0);
      assert cs[..k + 1] == [cs[0]] + cs[1..][..k];
    }
  }

  /** A caller frees only blocks it holds. */
  ghost predicate Legal(st: State, call: Call) {
    call.FreeCall? ==> call.header in st.owed
  }

  ghost function Step(at: nat, st: State, call: Call): State
    requires Aligned(st.chunks)
  {
    match call
    case AllocCall(request) =>
      var r := Malloc(st.chunks, request);
      if r.block == None then State(r.chunks, st.owed)
      else State(r.chunks, st.owed[HeaderAt(at, r.chunks, r.block.value) := request])
    case FreeCall(h) =>
      var k := IndexAt(at, st.chunks, h);
      if k < |st.chunks| then State(Freed(st.chunks, k), st.owed - {h}) else st
  }

  lemma MallocOwes(at: nat, st: State, size: nat, request: Word)
    requires Owes(at, st, size) && request <= WORD - 4
    ensures Owes(at, Step(at, st, AllocCall(request)), size)
  {
    hide NoFit, LowestFit, Coalesced;
    if request != 0 {
      var i, j := MallocIsFirstFit(at, st.chunks, request);
      var r := Malloc(st.chunks, request);
      var st' := Step(at, st, AllocCall(request));
      if r.block != None {
        var h, d := HeaderAt(at, st.chunks, i), Rounded(request);
        assert (h, d) in Live(at, r.chunks);
        forall b | b in Live(at, r.chunks) ensures b.0 in st'.owed && st'.owed[b.0] <= b.1 {
          if b != (h, d) {
            LiveApart(at, r.chunks, b, (h, d));
          }
        }
      }
      forall g | g in st'.owed ensures HeaderIsLive(at, r.chunks, g) {
        if g in st.owed {
          var s :| (g, s) in Live(at, st.chunks);
          assert (g, s) in Live(at, r.chunks);
        }
      }
    }
  }

  lemma FreeOwes(at: nat, st: State, size: nat, h: nat)
    requires Owes(at, st, size) && h in st.owed
    ensures Owes(at, Step(at, st, FreeCall(h)), size)
  {
    var s :| (h, s) in Live(at, st.chunks);
    IndexOfLive(at, st.chunks, (h, s));
    var k := IndexAt(at, st.chunks, h);
    FreedFacts(at, st.chunks, k);
    var cs := Freed(st.chunks, k);
    forall b | b in Live(at, cs) ensures b.0 != h {
      if b.0 == h {
        LiveApart(at, st.chunks, b, (h, s));
      }
    }
    forall g | g in st.owed && g != h ensures HeaderIsLive(at, cs, g) {
      var t :| (g, t) in Live(at, st.chunks);
      assert (g, t) in Live(at, cs);
    }
  }

  /** A run in which every free is of a block then held, and every request fits the rounding. */
  ghost predicate LegalRun(at: nat, st: State, calls: seq<Call>)
    decreases |calls|
  {
    calls == [] ||
    (&& Aligned(st.chunks) && Legal(st, calls[0])
     && (calls[0].AllocCall? ==> calls[0].request <= WORD - 4)
     && LegalRun(at, Step(at, st, calls[0]), calls[1..]))
  }

  ghost function Run(at: nat, st: State, calls: seq<Call>): State
    requires LegalRun(at, st, calls)
    decreases |calls|
  {
    if calls == [] then st else Run(at, Step(at, st, calls[0]), calls[1..])
  }

  lemma {:induction false} RunOwes(at: nat, st: State, size: nat, calls: seq<Call>)
    requires Owes(at, st, size) && LegalRun(at, st, calls)
    ensures Owes(at, Run(at, st, calls), size)
    decreases |calls|
  {
    if calls != [] {
      match calls[0] {
        case AllocCall(request) => MallocOwes(at, st, size, request);
        case FreeCall(h) => FreeOwes(at, st, size, h);
      }
      RunOwes(at, Step(at, st, calls[0]), size, calls[1..]);
    }
  }

  /** After any legal run from a fresh heap: the chunks tile the heap exactly, no header is zero, and the
      blocks held lie inside the heap, apart from each other, headers included, each at least as large as
      was asked for. */
  lemma RunKeepsBlocksApart(at: nat, n: nat, calls: seq<Call>, g: nat, h: nat)
    returns (s: nat, t: nat)
    requires n >= 4 && n % 4 == 0 && LegalRun(at, Fresh(n), calls)
    requires var st := Run(at, Fresh(n), calls); g in st.owed && h in st.owed
    ensures var st := Run(at, Fresh(n), calls);
            && Total(st.chunks) == n && NoZero(st.chunks)
            && (g, s) in Live(at, st.chunks) && (h, t) in Live(at, st.chunks)
            && st.owed[g] <= s && at <= g && g + 4 + s <= at + n
            && (g != h ==> g + 4 + s <= h || h + 4 + t <= g)
  {
    assert Live(at, Fresh(n).chunks) == {};
    RunOwes(at, Fresh(n), n, calls);
    var st := Run(at, Fresh(n), calls);
    s :| (g, s) in Live(at, st.chunks);
    t :| (h, t) in Live(at, st.chunks);
    LiveBounds(at, st.chunks);
    if g != h {
      LiveApart(at, st.chunks, (g, s), (h, t));
    }
  }

  /** Once everything is freed, the whole heap but one header can be had in one piece. */
  lemma AllFreedGivesAll(at: nat, n: nat, calls: seq<Call>)
    requires 4 < n < WORD && n % 4 == 0 && LegalRun(at, Fresh(n), calls)
    requires Run(at, Fresh(n), calls).owed == map[]
    ensures var cs := Run(at, Fresh(n), calls).chunks;
            Aligned(cs) && Malloc(cs, n - 4) == Reply([Chunk(n - 4, false)], Some(0))
  {
    assert Live(at, Fresh(n).chunks) == {};
    RunOwes(at, Fresh(n), n, calls);
    var cs := Run(at, Fresh(n), calls).chunks;
    assert forall b :: b !in Live(at, cs);
    NothingLive(at, cs);
    FreeHeapGivesAll(cs, n);
  }

  lemma FreeHeapGivesAll(cs: seq<Chunk>, n: nat)
    requires AllFree(cs) && Aligned(cs) && Total(cs) == n && 4 < n < WORD && n % 4 == 0
    ensures Malloc(cs, n - 4) == Reply([Chunk(n - 4, false)], Some(0))
  {
    FreeCoalesces([], cs);
    assert [] + cs == cs;
    var m := [Chunk(n - 4, true)];
    assert Coalesced([], cs) == m;
    LessHeader(n);
    RoundedAligned(n - 4);
    assert Taken(m, 0, n - 4) == [Chunk(n - 4, false)];
  }

  lemma {:induction false} NothingLive(at: nat, cs: seq<Chunk>)
    requires Live(at, cs) == {}
    ensures AllFree(cs)
    decreases |cs|
  {
    if cs != [] {
      var c := cs[0];
      assert !c.free ==> (at, c.size) in Live(at, cs);
      NothingLive(at + cs[0].Span(), cs[1..]);
    }
  }

  lemma {:induction false} FreeCoalesces(run: seq<Chunk>, cs: seq<Chunk>)
    requires AllFree(run) && AllFree(cs)
    ensures Coalesced(run, cs) == Joined(run + cs)
    decreases |cs|
  {
    if cs == [] {
      assert run + cs == run;
    } else {
      FreeCoalesces(run + [cs[0]], cs[1..]);
      assert run + [cs[0]] + cs[1..] == run + cs;
    }
  }

  // ----- what a wrapped request breaks -----

  /** The scan leaves the chunks in use alone exactly when no header is zero. */
  lemma {:induction false} ScanSafeIffNoZero(at: nat, run: seq<Chunk>, cs: seq<Chunk>)
    requires AllFree(run)
    ensures Live(at, Coalesced(run, cs)) == Live(at + Total(run), cs) <==> NoZero(cs)
    decreases |cs|
  {
    if NoZero(cs) {
      CoalescedKeepsLive(at, run, cs);
    } else {
      var b := LostBlock(at, run, cs);
    }
  }

  lemma {:induction false} LostBlock(at: nat, run: seq<Chunk>, cs: seq<Chunk>) returns (b: (nat, nat))
    requires AllFree(run) && !NoZero(cs)
    ensures b in Live(at + Total(run), cs) && b !in Live(at, Coalesced(run, cs))
    decreases |cs|
  {
    FreeHasNoLive(at, run);
    if cs[0].Zero() {
      b := (at + Total(run), 0);
      FreeHasNoLive(at, run + [Chunk(Total(cs) - 4, true)]);
    } else if cs[0].free {
      TotalConcat(run, [cs[0]]);
      b := LostBlock(at, run + [cs[0]], cs[1..]);
    } else {
      var next := at + Total(run) + cs[0].Span();
      b := LostBlock(next, [], cs[1..]);
      LiveBounds(next, cs[1..]);
      AfterUsed(at, run, cs, b);
    }
  }

  /** What is in use past the first chunk in use, before and after coalescing. */
  lemma AfterUsed(at: nat, run: seq<Chunk>, cs: seq<Chunk>, b: (nat, nat))
    requires AllFree(run) && cs != [] && !cs[0].free && !cs[0].Zero()
    ensures var next := at + Total(run) + cs[0].Span();
            && (b in Live(next, cs[1..]) ==> b in Live(at + Total(run), cs))
            && (b !in Live(next, Coalesced([], cs[1..])) && b.0 >= next ==> b !in Live(at, Coalesced(run, cs)))
  {
  }

  /** malloc hands out fewer bytes than asked for exactly on the three requests whose rounding wraps. */
  lemma ShortBlockIffWrapped(at: nat, cs: seq<Chunk>, request: Word)
    requires Sound(cs) && Malloc(cs, request).block != None
    ensures var r := Malloc(cs, request);
            && r.block.value < |r.chunks|
            && (r.chunks[r.block.value].size < request <==> request > WORD - 4)
            && (NoZero(r.chunks) <==> request <= WORD - 4)
  {
    var i, j := MallocIsFirstFit(at, cs, request);
  }

  /** For instance, on a fresh heap of 64 bytes a request of 0xfffffffd succeeds with an empty block, and the
      scan of the next malloc takes the whole heap back, that block included. */
  lemma WrappedRequestIsLost()
    ensures var r := Malloc(Fresh(64).chunks, WORD - 3);
            && r == Reply([Chunk(0, false), Chunk(56, true)], Some(0))
            && Coalesced([], r.chunks) == [Chunk(60, true)]
  {
  }
}
