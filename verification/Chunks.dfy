/** The heap as malloc sees it: a list of chunks, each a four-byte header followed by its payload. */
module Chunks {
  datatype Chunk = Chunk(size: nat, free: bool) {
    /** The header word: the payload size with the free bit in bit 0. */
    function Header(): nat {
      size + if free then 1 else 0
    }

    function Span(): nat {
      size + 4
    }

    /** An empty chunk in use has a zero header, which malloc takes for a broken heap. */
    predicate Zero() {
      !free && size == 0
    }
  }

  ghost predicate NoZero(cs: seq<Chunk>) {
    forall k :: 0 <= k < |cs| ==> !cs[k].Zero()
  }

  ghost predicate AllFree(cs: seq<Chunk>) {
    forall k :: 0 <= k < |cs| ==> cs[k].free
  }

  /** Bytes covered, headers included. */
  function Total(cs: seq<Chunk>): nat {
    if cs == [] then 0 else cs[0].Span() + Total(cs[1..])
  }

  lemma {:induction false} TotalConcat(a: seq<Chunk>, b: seq<Chunk>)
    ensures Total(a + b) == Total(a) + Total(b)
  {
    if a == [] {
      assert a + b == b;
    } else {
      assert (a + b)[1..] == a[1..] + b;
      TotalConcat(a[1..], b);
    }
  }

  // ----- coalescing -----

  /** A run of adjacent free chunks as one chunk, which takes in all headers but the first. */
  function Joined(run: seq<Chunk>): (r: seq<Chunk>)
  {
    if run == [] then [] else [Chunk(run[0].size + Total(run[1..]), true)]
  }

  lemma JoinedTotal(run: seq<Chunk>)
    ensures Total(Joined(run)) == Total(run)
  {
  }

  /** What the scan makes of the chunks cs, having seen the free chunks in run just before them. A zero
      header ends the scan: the run stays as it is and the rest of the heap becomes one free chunk. */
  function Coalesced(run: seq<Chunk>, cs: seq<Chunk>): seq<Chunk>
    decreases |cs|
  {
    if cs == [] then Joined(run)
    else if cs[0].Zero() then run + [Chunk(Total(cs) - 4, true)]
    else if cs[0].free then Coalesced(run + [cs[0]], cs[1..])
    else Joined(run) + [cs[0]] + Coalesced([], cs[1..])
  }

  /** The scan keeps the exact tiling: no byte of the heap is gained or lost, even on a broken heap. */
  lemma {:induction false} CoalescedTotal(run: seq<Chunk>, cs: seq<Chunk>)
    ensures Total(Coalesced(run, cs)) == Total(run) + Total(cs)
    decreases |cs|
  {
    if cs == [] {
      JoinedTotal(run);
    } else if cs[0].Zero() {
      TotalConcat(run, [Chunk(Total(cs) - 4, true)]);
    } else if cs[0].free {
      CoalescedTotal(run + [cs[0]], cs[1..]);
      TotalConcat(run, [cs[0]]);
    } else {
      CoalescedTotal([], cs[1..]);
      JoinedTotal(run);
      TotalConcat(Joined(run) + [cs[0]], Coalesced([], cs[1..]));
      TotalConcat(Joined(run), [cs[0]]);
    }
  }

  ghost predicate NoAdjacentFree(cs: seq<Chunk>) {
    forall k :: 0 <= k < |cs| - 1 ==> !(cs[k].free && cs[k + 1].free)
  }

  /** Index of the first zero header, or the length of the list. */
  function FirstZero(cs: seq<Chunk>): (k: nat)
    ensures k <= |cs| && (k < |cs| ==> cs[k].Zero())
    ensures forall j :: 0 <= j < k ==> !cs[j].Zero()
  {
    if cs == [] || cs[0].Zero() then 0 else 1 + FirstZero(cs[1..])
  }

  lemma SeparatedAround(run: seq<Chunk>, c: Chunk, m: seq<Chunk>)
    requires !c.free
    ensures NoAdjacentFree(Joined(run) + [c] + m) <==> NoAdjacentFree(m)
  {
    var j, all := |Joined(run)| + 1, Joined(run) + [c] + m;
    assert forall k :: 0 <= k < |m| ==> m[k] == all[j + k];
    assert forall k :: j <= k < |all| ==> all[k] == m[k - j];
  }

  /** The scan leaves no two adjacent free chunks exactly when it meets no zero header right after a free chunk, and
      never makes a zero header. */
  lemma {:induction false} CoalescedSeparatesIff(run: seq<Chunk>, cs: seq<Chunk>)
    requires AllFree(run)
    ensures var k := FirstZero(cs);
            NoAdjacentFree(Coalesced(run, cs)) <==> k == |cs| || (if k == 0 then run == [] else !cs[k - 1].free)
    ensures NoZero(Coalesced(run, cs))
    decreases |cs|
  {
    if cs == [] {
    } else if cs[0].Zero() {
      var c := Chunk(Total(cs) - 4, true);
      if run != [] {
        assert (run + [c])[|run| - 1].free && (run + [c])[|run|].free;
      }
    } else if cs[0].free {
      CoalescedSeparatesIff(run + [cs[0]], cs[1..]);
    } else {
      CoalescedSeparatesIff([], cs[1..]);
      SeparatedAround(run, cs[0], Coalesced([], cs[1..]));
    }
  }

  /** The scan leaves no two adjacent free chunks and creates no zero header. */
  lemma CoalescedSeparates(run: seq<Chunk>, cs: seq<Chunk>)
    requires NoZero(cs) && AllFree(run)
    ensures NoAdjacentFree(Coalesced(run, cs)) && NoZero(Coalesced(run, cs))
  {
    CoalescedSeparatesIff(run, cs);
  }

  // ----- live chunks -----

  /** Byte address of the header of chunk k, when the list starts at address at. */
  function HeaderAt(at: nat, cs: seq<Chunk>, k: nat): nat
    requires k <= |cs|
  {
    at + Total(cs[..k])
  }

  /** The chunks in use, as (header address, size). */
  ghost function Live(at: nat, cs: seq<Chunk>): set<(nat, nat)>
    decreases |cs|
  {
    if cs == [] then {}
    else (if cs[0].free then {} else {(at, cs[0].size)}) + Live(at + cs[0].Span(), cs[1..])
  }

  lemma {:induction false} LiveConcat(at: nat, a: seq<Chunk>, b: seq<Chunk>)
    ensures Live(at, a + b) == Live(at, a) + Live(at + Total(a), b)
    decreases |a|
  {
    if a == [] {
      assert a + b == b;
    } else {
      assert (a + b)[1..] == a[1..] + b;
      LiveConcat(at + a[0].Span(), a[1..], b);
    }
  }

  lemma {:induction false} FreeHasNoLive(at: nat, run: seq<Chunk>)
    requires AllFree(run)
    ensures Live(at, run) == {} == Live(at, Joined(run))
    decreases |run|
  {
    if run != [] {
      FreeHasNoLive(at + run[0].Span(), run[1..]);
    }
  }

  /** The scan leaves every chunk in use where it is and as large as it is. */
  lemma {:induction false} CoalescedKeepsLive(at: nat, run: seq<Chunk>, cs: seq<Chunk>)
    requires NoZero(cs) && AllFree(run)
    ensures Live(at, Coalesced(run, cs)) == Live(at + Total(run), cs)
    decreases |cs|
  {
    FreeHasNoLive(at, run);
    if cs == [] {
    } else if cs[0].free {
      TotalConcat(run, [cs[0]]);
      CoalescedKeepsLive(at, run + [cs[0]], cs[1..]);
    } else {
      CoalescedKeepsLive(at + Total(run) + cs[0].Span(), [], cs[1..]);
      JoinedTotal(run);
      LiveConcat(at, Joined(run), [cs[0]] + Coalesced([], cs[1..]));
      LiveConcat(at + Total(run), [cs[0]], Coalesced([], cs[1..]));
      assert Joined(run) + [cs[0]] + Coalesced([], cs[1..]) == Joined(run) + ([cs[0]] + Coalesced([], cs[1..]));
    }
  }

  // ----- first fit -----

  /** Index of the first free chunk of at least d bytes, or the length of the list. */
  function FirstFit(cs: seq<Chunk>, d: nat): (k: nat)
    ensures k <= |cs|
    ensures k < |cs| ==> cs[k].free && cs[k].size >= d
  {
    if cs == [] then 0 else if cs[0].free && cs[0].size >= d then 0 else 1 + FirstFit(cs[1..], d)
  }

  /** Chunks i to j are free and their neighbours are not. */
  ghost predicate MaximalRun(cs: seq<Chunk>, i: nat, j: nat) {
    && i < j <= |cs|
    && AllFree(cs[i..j])
    && (i == 0 || !cs[i - 1].free)
    && (j == |cs| || !cs[j].free)
  }

  /** Bytes a run offers: its payloads and all its headers but the first. */
  ghost function RunCapacity(cs: seq<Chunk>, i: nat, j: nat): int
    requires i <= j <= |cs|
  {
    Total(cs[i..j]) - 4
  }

  ghost predicate LargeRun(cs: seq<Chunk>, d: nat, i: nat, j: nat) {
    MaximalRun(cs, i, j) && RunCapacity(cs, i, j) >= d
  }

  /** The run from i to j is large enough, and no run before it is. */
  ghost predicate LowestFit(cs: seq<Chunk>, d: nat, i: nat, j: nat) {
    LargeRun(cs, d, i, j) && forall p, q :: LargeRun(cs, d, p, q) ==> i <= p
  }

  ghost predicate NoFit(cs: seq<Chunk>, d: nat) {
    forall p, q :: !LargeRun(cs, d, p, q)
  }

  /** First fit in the list m finds what the runs of cs have to offer: the lowest run that is large enough,
      from i to j, at its address and with its capacity, or nothing because there is no such run. */
  ghost predicate FitsLike(m: seq<Chunk>, cs: seq<Chunk>, d: nat, i: nat, j: nat) {
    var k := FirstFit(m, d);
    && (k == |m| <==> NoFit(cs, d))
    && (k < |m| ==> LowestFit(cs, d, i, j)
                    && Total(m[..k]) == Total(cs[..i])
                    && m[k].size == RunCapacity(cs, i, j))
  }

  lemma {:induction false} FirstFitConcat(a: seq<Chunk>, b: seq<Chunk>, d: nat)
    ensures FirstFit(a + b, d) == if FirstFit(a, d) < |a| then FirstFit(a, d) else |a| + FirstFit(b, d)
  {
    if a == [] {
      assert a + b == b;
    } else {
      assert (a + b)[1..] == a[1..] + b;
      FirstFitConcat(a[1..], b, d);
    }
  }

  lemma SliceAfter(a: seq<Chunk>, b: seq<Chunk>, p: nat, q: nat)
    requires |a| <= p <= q <= |a| + |b|
    ensures (a + b)[p..q] == b[p - |a|..q - |a|]
  {
  }

  /** Around a chunk in use, the maximal runs are the free chunks before it and the runs after it. */
  lemma RunsAround(run: seq<Chunk>, c: Chunk, rest: seq<Chunk>, p: nat, q: nat)
    requires AllFree(run) && !c.free
    ensures MaximalRun(run + [c] + rest, p, q) <==>
            || (p == 0 && q == |run| && run != [])
            || (p > |run| && q > |run| && MaximalRun(rest, p - |run| - 1, q - |run| - 1))
    ensures MaximalRun(run + [c] + rest, p, q) ==> p < q <= |run| + 1 + |rest|
  {
    var all, n := run + [c] + rest, |run|;
    assert forall k :: 0 <= k < n ==> all[k].free;
    assert !all[n].free;
    if p < q <= |all| {
      if p > n {
        SliceAfter(run + [c], rest, p, q);
      } else if n < q {
        assert !all[p..q][n - p].free;
      } else {
        assert all[p..q] == run[p..q];
      }
    }
  }

  /** First fit on the coalesced heap is the lowest maximal run of free chunks that is large enough, and
      fails only when there is none. */
  lemma {:induction false} FirstFitIsLowestRun(run: seq<Chunk>, cs: seq<Chunk>, d: nat) returns (i: nat, j: nat)
    requires NoZero(cs) && AllFree(run)
    ensures FitsLike(Coalesced(run, cs), run + cs, d, i, j)
    decreases |cs|
  {
    if cs == [] {
      i, j := 0, |run|;
      FitOfRun(run, d);
    } else if cs[0].free {
      assert run + [cs[0]] + cs[1..] == run + cs;
      i, j := FirstFitIsLowestRun(run + [cs[0]], cs[1..], d);
    } else {
      i, j := FirstFitIsLowestRun([], cs[1..], d);
      assert [] + cs[1..] == cs[1..] && run + [cs[0]] + cs[1..] == run + cs;
      i, j := FitAround(run, cs[0], cs[1..], Coalesced([], cs[1..]), d, i, j);
    }
  }

  lemma FitOfRun(run: seq<Chunk>, d: nat)
    requires AllFree(run)
    ensures FitsLike(Joined(run), run + [], d, 0, |run|)
  {
    assert run + [] == run && run[0..|run|] == run;
    forall p, q | MaximalRun(run, p, q) ensures p == 0 && q == |run| {
    }
    assert run != [] ==> MaximalRun(run, 0, |run|);
    assert run != [] && Total(run) - 4 >= d ==> LargeRun(run, d, 0, |run|);
  }

  /** A large enough run of run + [c] + rest is run itself, or a large enough run of rest. */
  lemma FitSource(run: seq<Chunk>, c: Chunk, rest: seq<Chunk>, d: nat, p: nat, q: nat)
    requires AllFree(run) && !c.free && LargeRun(run + [c] + rest, d, p, q)
    ensures || (p == 0 && q == |run| && run != [] && Total(run) - 4 >= d)
            || (p > |run| && q > |run| && LargeRun(rest, d, p - |run| - 1, q - |run| - 1))
  {
    hide MaximalRun, AllFree, RunCapacity;
    RunsAround(run, c, rest, p, q);
    if p > |run| {
      CapacityInRest(run, c, rest, p - |run| - 1, q - |run| - 1);
    } else {
      CapacityOfRun(run, c, rest);
    }
  }

  lemma CapacityInRest(run: seq<Chunk>, c: Chunk, rest: seq<Chunk>, i: nat, j: nat)
    requires i <= j <= |rest|
    ensures RunCapacity(run + [c] + rest, i + |run| + 1, j + |run| + 1) == RunCapacity(rest, i, j)
  {
    assert (run + [c] + rest)[i + |run| + 1..j + |run| + 1] == rest[i..j];
  }

  lemma CapacityOfRun(run: seq<Chunk>, c: Chunk, rest: seq<Chunk>)
    ensures RunCapacity(run + [c] + rest, 0, |run|) == Total(run) - 4
  {
    assert (run + [c] + rest)[0..|run|] == run;
  }

  lemma FitInRun(run: seq<Chunk>, c: Chunk, rest: seq<Chunk>, d: nat)
    requires AllFree(run) && !c.free && run != [] && Total(run) - 4 >= d
    ensures LowestFit(run + [c] + rest, d, 0, |run|)
  {
    RunsAround(run, c, rest, 0, |run|);
    CapacityOfRun(run, c, rest);
  }

  lemma LargeInRest(run: seq<Chunk>, c: Chunk, rest: seq<Chunk>, d: nat, i: nat, j: nat)
    requires AllFree(run) && !c.free && LargeRun(rest, d, i, j)
    ensures i < j <= |rest|
    ensures LargeRun(run + [c] + rest, d, i + |run| + 1, j + |run| + 1)
    ensures RunCapacity(run + [c] + rest, i + |run| + 1, j + |run| + 1) == RunCapacity(rest, i, j)
  {
    RunsAround(run, c, rest, i + |run| + 1, j + |run| + 1);
    CapacityInRest(run, c, rest, i, j);
  }

  lemma FitInRest(run: seq<Chunk>, c: Chunk, rest: seq<Chunk>, d: nat, i: nat, j: nat)
    requires AllFree(run) && !c.free && !(run != [] && Total(run) - 4 >= d) && LowestFit(rest, d, i, j)
    ensures LowestFit(run + [c] + rest, d, i + |run| + 1, j + |run| + 1)
  {
    hide LargeRun;
    LargeInRest(run, c, rest, d, i, j);
    forall p, q | LargeRun(run + [c] + rest, d, p, q) ensures i + |run| + 1 <= p {
      FitSource(run, c, rest, d, p, q);
    }
  }

  lemma FitNowhere(run: seq<Chunk>, c: Chunk, rest: seq<Chunk>, d: nat)
    requires AllFree(run) && !c.free && !(run != [] && Total(run) - 4 >= d) && NoFit(rest, d)
    ensures NoFit(run + [c] + rest, d)
  {
    hide LargeRun;
    forall p, q ensures !LargeRun(run + [c] + rest, d, p, q) {
      if LargeRun(run + [c] + rest, d, p, q) {
        FitSource(run, c, rest, d, p, q);
      }
    }
  }

  lemma FitAround(run: seq<Chunk>, c: Chunk, rest: seq<Chunk>, m: seq<Chunk>, d: nat, i0: nat, j0: nat)
    returns (i: nat, j: nat)
    requires AllFree(run) && !c.free
    requires FitsLike(m, rest, d, i0, j0)
    ensures FitsLike(Joined(run) + [c] + m, run + [c] + rest, d, i, j)
  {
    hide LargeRun;
    var all, ms, n := run + [c] + rest, Joined(run) + [c] + m, |run|;
    FirstFitConcat(Joined(run) + [c], m, d);
    FirstFitConcat(Joined(run), [c], d);
    i, j := 0, n;
    if run != [] && Total(run) - 4 >= d {
      FitInRun(run, c, rest, d);
      assert ms[..0] == [] && all[0..n] == run;
    } else if FirstFit(m, d) < |m| {
      i, j := i0 + n + 1, j0 + n + 1;
      LargeInRest(run, c, rest, d, i0, j0);
      FitInRest(run, c, rest, d, i0, j0);
      OffsetAround(run, c, rest, m, FirstFit(m, d), i0);
      assert ms[FirstFit(ms, d)] == m[FirstFit(m, d)];
    } else {
      FitNowhere(run, c, rest, d);
    }
  }

  lemma OffsetAround(run: seq<Chunk>, c: Chunk, rest: seq<Chunk>, m: seq<Chunk>, k: nat, i: nat)
    requires k <= |m| && i <= |rest| && Total(m[..k]) == Total(rest[..i])
    ensures Total((Joined(run) + [c] + m)[..|Joined(run)| + 1 + k]) == Total((run + [c] + rest)[..|run| + 1 + i])
  {
    assert (Joined(run) + [c] + m)[..|Joined(run)| + 1 + k] == Joined(run) + [c] + m[..k];
    assert (run + [c] + rest)[..|run| + 1 + i] == run + [c] + rest[..i];
    TotalConcat(Joined(run) + [c], m[..k]);
    TotalConcat(Joined(run), [c]);
    TotalConcat(run + [c], rest[..i]);
    TotalConcat(run, [c]);
    JoinedTotal(run);
  }
}
