/** The BIOS qsort: passes of Partition, recursing on the side that is not larger and looping on the other. */
module QSort {
  import opened Elements
  import opened Exchange
  import opened Partition

  /** s is in order, except perhaps among the elements of [a, l). */
  ghost predicate SortedBut(cmp: Comparator, s: seq<Elem>, lo: nat, hi: nat, a: nat, l: nat)
    requires lo <= hi <= |s|
  {
    forall p, q :: lo <= p < q < hi && (p < a || l <= q) ==> cmp(0, s[p], s[q]) <= 0
  }

  lemma SortedButKept(cmp: Comparator, s: seq<Elem>, r: seq<Elem>, lo: nat, hi: nat, a: nat, l: nat)
    requires lo <= a <= l <= hi <= |s| && Permutes(s, r, a, l) && SortedBut(cmp, s, lo, hi, a, l)
    ensures SortedBut(cmp, r, lo, hi, a, l)
  {
    forall p, q | lo <= p < q < hi && (p < a || l <= q) ensures cmp(0, r[p], r[q]) <= 0 {
      var p', q' := p, q;
      if a <= p < l {
        p' := PermutesSource(s, r, a, l, p);
      } else {
        PermutesOutside(s, r, a, l, p);
      }
      if a <= q < l {
        q' := PermutesSource(s, r, a, l, q);
      } else {
        PermutesOutside(s, r, a, l, q);
      }
    }
  }

  /** Rearranging one side of the pivot zone keeps the zones. */
  lemma ZonesKept(cmp: Comparator, s: seq<Elem>, r: seq<Elem>, c: Cursor, pivot: Elem, a: nat, l: nat)
    requires c.Valid() && c.l <= |s| && c.i == c.lp && c.j == c.hp && Zones(cmp, s, c, pivot)
    requires (a == c.a && l == c.lp) || (a == c.hp + 1 && l == c.l)
    requires Permutes(s, r, a, l)
    ensures Zones(cmp, r, c, pivot)
  {
    forall k | c.a <= k < c.l
      ensures k < c.i ==> cmp(0, r[k], pivot) < 0
      ensures c.lp <= k <= c.hp ==> cmp(0, r[k], pivot) == 0
      ensures c.j < k ==> cmp(0, r[k], pivot) > 0
    {
      if a <= k < l {
        var k' := PermutesSource(s, r, a, l, k);
      } else {
        PermutesOutside(s, r, a, l, k);
      }
    }
  }

  /** Once one side is sorted, what may still be out of order is the other side. */
  lemma SideDone(cmp: Comparator, s: seq<Elem>, lo: nat, hi: nat, c: Cursor, pivot: Elem, right: bool)
    requires lo <= c.a && c.Valid() && c.i == c.lp && c.j == c.hp && c.l <= hi <= |s|
    requires IsTotalPreorder(cmp, s) && pivot in s && Zones(cmp, s, c, pivot) && SortedBut(cmp, s, lo, hi, c.a, c.l)
    requires if right then SortedBy(cmp, s, c.hp + 1, c.l) else SortedBy(cmp, s, c.a, c.lp)
    ensures if right then SortedBut(cmp, s, lo, hi, c.a, c.lp) else SortedBut(cmp, s, lo, hi, c.hp + 1, c.l)
  {
  }

  lemma ProductOrder(m: nat, n: nat, w: nat)
    requires w > 0
    ensures m * w >= n * w <==> m >= n
  {
    if m < n {
      MultipleAtLeast(n - m, w);
      assert n * w - m * w == (n - m) * w;
    } else {
      assert m * w - n * w == (m - n) * w;
    }
  }

  /** Byte distances compare as element counts do. */
  lemma DistanceOrder(base: nat, w: nat, i: nat, j: nat, k: nat, l: nat)
    requires w > 0 && i <= j && k <= l
    ensures Addr(base, w, j) - Addr(base, w, i) >= Addr(base, w, l) - Addr(base, w, k) <==> j - i >= l - k
  {
    hide Addr;
    Distance(base, w, i, j - i);
    Distance(base, w, k, l - k);
    ProductOrder(j - i, l - k, w);
  }

  lemma AtMostOne(base: nat, w: nat, i: nat, j: nat)
    requires w > 0 && i <= j
    ensures Addr(base, w, j) - Addr(base, w, i) <= w <==> j - i <= 1
  {
  }

  /** The part the code recurses into after the pass. */
  ghost function RecurseLo(c: Cursor, right: bool): nat {
    if right then c.hp + 1 else c.a
  }

  ghost function RecurseHi(c: Cursor, right: bool): nat {
    if right then c.l else c.lp
  }

  /** The part it goes on with. */
  ghost function RestLo(c: Cursor, right: bool): nat {
    if right then c.a else c.hp + 1
  }

  ghost function RestHi(c: Cursor, right: bool): nat {
    if right then c.lp else c.l
  }

  lemma RestSmaller(c: Cursor, right: bool)
    requires c.Valid()
    ensures c.a <= RestLo(c, right) <= RestHi(c, right) <= c.l
    ensures RestHi(c, right) - RestLo(c, right) < c.l - c.a
  {
  }

  /** Recursion depth d suits n elements: d is at most the base-2 logarithm of n, rounded down, plus one. */
  ghost predicate DepthFits(d: nat, n: nat) {
    d >= 1 && (n <= 1 ==> d == 1) && (n >= 1 ==> Pow2(d - 1) <= n)
  }

  lemma DepthStep(d: nat, sub: nat, m: nat, n: nat)
    requires DepthFits(d, n) && m <= n && 2 <= n && DepthFits(sub, m) && 2 * m < n
    ensures DepthFits(if d <= sub then sub + 1 else d, n)
  {
  }

  /** What sorting slots [lo, hi) of b gave: c, after that many calls of the comparator, with recursion that deep. */
  ghost predicate SortDone(cmp: Comparator, y: Layout, b: seq<byte>, c: seq<byte>, lo: nat, hi: nat,
                           calls: int, depth: nat)
  {
    && y.Fits(b) && y.Fits(c) && lo <= hi <= y.count
    && y.SameOutside(b, c)
    && Permutes(y.Of(b), y.Of(c), lo, hi)
    && (IsTotalPreorder(cmp, y.Of(b)) ==> SortedBy(cmp, y.Of(c), lo, hi))
    && 0 <= calls <= Pairs(hi - lo)
    && DepthFits(depth, hi - lo)
  }

  /** The same while slots [a, l) are still to be sorted. */
  ghost predicate Sorting(cmp: Comparator, y: Layout, b: seq<byte>, c: seq<byte>, lo: nat, hi: nat, a: nat, l: nat,
                          calls: int, depth: nat)
  {
    && y.Fits(b) && y.Fits(c) && lo <= a <= l <= hi <= y.count
    && y.SameOutside(b, c)
    && Permutes(y.Of(b), y.Of(c), lo, hi)
    && (IsTotalPreorder(cmp, y.Of(b)) ==> SortedBut(cmp, y.Of(c), lo, hi, a, l))
    && 0 <= calls && calls + Pairs(l - a) <= Pairs(hi - lo)
    && DepthFits(depth, hi - lo)
  }

  lemma SortStarts(cmp: Comparator, y: Layout, b: seq<byte>, lo: nat, hi: nat)
    requires y.Fits(b) && lo <= hi <= y.count
    ensures Sorting(cmp, y, b, b, lo, hi, lo, hi, 0, 1)
  {
  }

  lemma SortEnds(cmp: Comparator, y: Layout, b: seq<byte>, c: seq<byte>, lo: nat, hi: nat, a: nat, l: nat,
                 calls: int, depth: nat)
    requires Sorting(cmp, y, b, c, lo, hi, a, l, calls, depth) && l <= a + 1
    ensures SortDone(cmp, y, b, c, lo, hi, calls, depth)
  {
  }

  /** One round of the sort: a pass takes the buffer from b to b1, sorting one side takes it to b2. */
  lemma RoundRearranges(cmp: Comparator, s0: seq<Elem>, s: seq<Elem>, s1: seq<Elem>, s2: seq<Elem>,
                        lo: nat, hi: nat, c: Cursor, pivot: Elem, right: bool)
    requires Permutes(s0, s, lo, hi) && lo <= c.a && c.l <= hi
    requires Pass(cmp, s, s1, c, pivot) && c.i == c.lp && c.j == c.hp
    requires Permutes(s1, s2, RecurseLo(c, right), RecurseHi(c, right))
    ensures Permutes(s0, s2, lo, hi) && Permutes(s, s2, c.a, c.l)
  {
    hide IsTotalPreorder, Zones;
    PermutesWiden(s1, s2, RecurseLo(c, right), RecurseHi(c, right), c.a, c.l);
    PermutesTransitive(s, s1, s2, c.a, c.l);
    PermutesWiden(s, s2, c.a, c.l, lo, hi);
    PermutesTransitive(s0, s, s2, lo, hi);
  }

  /** The pivot is still among the elements. */
  lemma PivotKept(cmp: Comparator, s: seq<Elem>, s1: seq<Elem>, s2: seq<Elem>, c: Cursor, pivot: Elem)
    requires Pass(cmp, s, s1, c, pivot) && Permutes(s, s2, c.a, c.l)
    ensures pivot in s2
  {
    var k :| 0 <= k < |s| && s[k] == pivot;
    PermutesBack(s, s2, c.a, c.l);
    PermutesFrom(s2, s, c.a, c.l, k);
  }

  lemma PermutesBack(s: seq<Elem>, r: seq<Elem>, lo: nat, hi: nat)
    requires Permutes(s, r, lo, hi)
    ensures Permutes(r, s, lo, hi)
  {
  }

  lemma RoundOrders(cmp: Comparator, s: seq<Elem>, s1: seq<Elem>, s2: seq<Elem>,
                    lo: nat, hi: nat, c: Cursor, pivot: Elem, right: bool)
    requires IsTotalPreorder(cmp, s) && lo <= c.a && c.l <= hi
    requires Pass(cmp, s, s1, c, pivot) && c.i == c.lp && c.j == c.hp
    requires Permutes(s, s2, c.a, c.l) && Permutes(s1, s2, RecurseLo(c, right), RecurseHi(c, right))
    requires hi <= |s| && SortedBut(cmp, s, lo, hi, c.a, c.l)
    requires SortedBy(cmp, s2, RecurseLo(c, right), RecurseHi(c, right))
    ensures hi <= |s2| && SortedBut(cmp, s2, lo, hi, RestLo(c, right), RestHi(c, right))
  {
    hide IsTotalPreorder, Zones, SortedBut, SortedBy;
    SortedButKept(cmp, s, s2, lo, hi, c.a, c.l);
    PreorderKept(cmp, s, s2, c.a, c.l);
    PivotKept(cmp, s, s1, s2, c, pivot);
    ZonesKept(cmp, s1, s2, c, pivot, RecurseLo(c, right), RecurseHi(c, right));
    SideDone(cmp, s2, lo, hi, c, pivot, right);
  }

  lemma PassValid(cmp: Comparator, s0: seq<Elem>, s: seq<Elem>, c: Cursor, pivot: Elem)
    requires Pass(cmp, s0, s, c, pivot)
    ensures c.Valid() && c.l <= |s|
  {
  }

  lemma RoundDone(cmp: Comparator, y: Layout, b0: seq<byte>, b: seq<byte>, b1: seq<byte>, b2: seq<byte>,
                  lo: nat, hi: nat, c: Cursor, pivot: Elem, right: bool, calls: int, depth: nat, sub: int, deep: nat)
    requires Sorting(cmp, y, b0, b, lo, hi, c.a, c.l, calls, depth) && c.l - c.a >= 2
    requires y.Fits(b1) && y.SameOutside(b, b1)
    requires Pass(cmp, y.Of(b), y.Of(b1), c, pivot) && c.i == c.lp && c.j == c.hp
    requires right <==> c.lp - c.a >= c.l - c.hp
    requires SortDone(cmp, y, b1, b2, RecurseLo(c, right), RecurseHi(c, right), sub, deep)
    ensures Sorting(cmp, y, b0, b2, lo, hi, RestLo(c, right), RestHi(c, right),
                    calls + (c.l - c.a - 1) + sub, if depth <= deep then deep + 1 else depth)
  {
    hide Permutes, IsTotalPreorder, SortedBut, SortedBy, Zones, Elems, DepthFits;
    OutsideTransitive(y, b0, b, b1);
    OutsideTransitive(y, b0, b1, b2);
    RoundRearranges(cmp, y.Of(b0), y.Of(b), y.Of(b1), y.Of(b2), lo, hi, c, pivot, right);
    if IsTotalPreorder(cmp, y.Of(b0)) {
      PreorderKept(cmp, y.Of(b0), y.Of(b), lo, hi);
      PreorderKept(cmp, y.Of(b), y.Of(b1), c.a, c.l);
      RoundOrders(cmp, y.Of(b), y.Of(b1), y.Of(b2), lo, hi, c, pivot, right);
    }
    PairsSplit(c.lp - c.a, c.hp - c.lp + 1, c.l - c.hp - 1);
    DepthStep(depth, deep, RecurseHi(c, right) - RecurseLo(c, right), hi - lo);
  }

  /** qsort_main on [a0, l0). */
  method QSortMain(buf: array<byte>, a0: nat, l0: nat, qswidth: nat, cmp: Comparator, t0: nat,
                   ghost y: Layout, ghost ka0: nat, ghost kl0: nat)
    returns (t: nat, ghost depth: nat)
    requires y.Fits(buf[..]) && y.w == qswidth && ka0 <= kl0 <= y.count
    requires a0 == Addr(y.base, y.w, ka0) && l0 == Addr(y.base, y.w, kl0)
    modifies buf
    ensures SortDone(cmp, y, old(buf[..]), buf[..], ka0, kl0, t - t0, depth)
    decreases kl0 - ka0, 1
  {
    hide Pass, SortDone, Sorting, Addr, RestLo, RestHi, Layout.SameOutside, Layout.Of;
    var a, l := a0, l0;
    ghost var ka: nat, kl: nat, b0 := ka0, kl0, buf[..];
    t, depth := t0, 1;
    SortStarts(cmp, y, b0, ka0, kl0);
    while true
      invariant ka <= kl <= y.count && a == Addr(y.base, y.w, ka) && l == Addr(y.base, y.w, kl)
      invariant Sorting(cmp, y, b0, buf[..], ka0, kl0, ka, kl, t - t0, depth)
      decreases kl - ka
    {
      AtMostOne(y.base, y.w, ka, kl);
      if l - a <= qswidth {
        SortEnds(cmp, y, b0, buf[..], ka0, kl0, ka, kl, t - t0, depth);
        break;
      }
      ghost var b, calls := buf[..], t - t0;
      var lp, hp;
      ghost var c, pivot, right, deep;
      lp, hp, t, c, pivot := PartitionPass(buf, a, l, qswidth, cmp, t, y, ka, kl);
      PassValid(cmp, y.Of(b), y.Of(buf[..]), c, pivot);
      ghost var b1, t1 := buf[..], t;
      a, l, t, right, deep := SmallerSide(buf, a, l, lp, hp, qswidth, cmp, t, y, c);
      RestSmaller(c, right);
      ka, kl := RestLo(c, right), RestHi(c, right);
      RoundDone(cmp, y, b0, b, b1, buf[..], ka0, kl0, c, pivot, right, calls, depth, t - t1, deep);
      depth := if depth <= deep then deep + 1 else depth;
    }
  }

  /** The end of a round: the side that is no larger is sorted recursively, the other one is left. */
  method SmallerSide(buf: array<byte>, a: nat, l: nat, lp: nat, hp: nat, qswidth: nat, cmp: Comparator, t0: nat,
                     ghost y: Layout, ghost c: Cursor)
    returns (a': nat, l': nat, t: nat, ghost right: bool, ghost deep: nat)
    requires y.Fits(buf[..]) && y.w == qswidth && c.Valid() && c.l <= y.count
    requires a == Addr(y.base, y.w, c.a) && lp == Addr(y.base, y.w, c.lp)
    requires hp == Addr(y.base, y.w, c.hp) && l == Addr(y.base, y.w, c.l)
    modifies buf
    ensures right <==> c.lp - c.a >= c.l - c.hp
    ensures a' == Addr(y.base, y.w, RestLo(c, right)) && l' == Addr(y.base, y.w, RestHi(c, right))
    ensures SortDone(cmp, y, old(buf[..]), buf[..], RecurseLo(c, right), RecurseHi(c, right), t - t0, deep)
    decreases c.l - c.a, 0
  {
    hide SortDone, Addr;
    DistanceOrder(y.base, y.w, c.a, c.lp, c.hp, c.l);
    SlotNext(y, c.hp);
    a', l' := a, l;
    if lp - a >= l - hp {
      right := true;
      t, deep := QSortMain(buf, hp + qswidth, l, qswidth, cmp, t0, y, c.hp + 1, c.l);
      l' := lp;
    } else {
      right := false;
      t, deep := QSortMain(buf, a, lp, qswidth, cmp, t0, y, c.a, c.lp);
      a' := hp + qswidth;
    }
  }

  /** The elements of an array of n elements of width w at base. */
  ghost function ArrayAt(b: seq<byte>, base: nat, n: nat, w: nat): (es: seq<Elem>)
    requires base + n * w <= |b|
  {
    AddrIsLinear(base, w, n);
    Elems(b, base, w, n)
  }

  /** BIOS call A(31h). Whatever the comparator answers, the call ends, touches nothing outside the array and
      only rearranges it, within n(n-1)/2 comparisons and logarithmic depth; if the comparator is a total
      preorder the array ends up in order. With width zero the array has no bytes and nothing happens. */
  method QSortCall(buf: array<byte>, base: nat, n: nat, w: nat, cmp: Comparator)
    returns (calls: nat, ghost depth: nat)
    requires base + n * w <= buf.Length
    modifies buf
    ensures forall q :: 0 <= q < buf.Length && (q < base || base + n * w <= q) ==> buf[q] == old(buf[q])
    ensures multiset(ArrayAt(buf[..], base, n, w)) == multiset(old(ArrayAt(buf[..], base, n, w)))
    ensures w > 0 && IsTotalPreorder(cmp, old(ArrayAt(buf[..], base, n, w))) ==> SortedBy(cmp, ArrayAt(buf[..], base, n, w), 0, n)
    ensures 2 * calls <= n * (n - 1)
    ensures depth >= 1 && (n <= 1 ==> depth == 1)
    ensures n >= 1 ==> Pow2(depth - 1) <= n
  {
    AddrIsLinear(base, w, n);
    PairsIsHalfSquare(n);
    calls, depth := 0, 1;
    if w > 0 {
      ghost var y := Layout(base, w, n);
      ghost var es := y.Of(buf[..]);
      calls, depth := QSortMain(buf, base, base + n * w, w, cmp, 0, y, 0, n);
      assert es[0..n] == es && y.Of(buf[..])[0..n] == y.Of(buf[..]);
    }
  }
}
