/** qsort_main, from the choice of the pivot to the point where a side is sorted recursively: one pass that
    grows a pivot zone [lp, hp] from the middle and moves smaller elements below it and larger ones above. */
module Partition {
  import opened Elements
  import opened Exchange

  /** The four pointers of the pass, in elements: [a, i) is below the pivot, [lp, hp] ties with it,
      (j, l) is above it, [i, lp) and (hp, j] are still to be classified. */
  datatype Cursor = Cursor(a: nat, i: nat, lp: nat, hp: nat, j: nat, l: nat) {
    predicate Valid() {
      a <= i <= lp <= hp <= j < l
    }

    function Unclassified(): (n: nat)
      requires Valid()
    {
      (lp - i) + (j - hp)
    }
  }

  ghost predicate Zones(cmp: Comparator, s: seq<Elem>, c: Cursor, pivot: Elem)
    requires c.Valid() && c.l <= |s|
  {
    && (forall k :: c.a <= k < c.i ==> cmp(0, s[k], pivot) < 0)
    && (forall k :: c.lp <= k <= c.hp ==> cmp(0, s[k], pivot) == 0)
    && (forall k :: c.j < k < c.l ==> cmp(0, s[k], pivot) > 0)
  }

  // Each lemma below is one branch of the pass: the exchange it makes and the cursor it leaves keep the zones.

  lemma TieBelow(cmp: Comparator, s: seq<Elem>, c: Cursor, pivot: Elem)
    requires c.Valid() && c.l <= |s| && Zones(cmp, s, c, pivot)
    requires c.i < c.lp && cmp(0, s[c.i], pivot) == 0
    ensures Zones(cmp, Swap(s, c.i, c.lp - 1), c.(lp := c.lp - 1), pivot)
  {
  }

  lemma TieAbove(cmp: Comparator, s: seq<Elem>, c: Cursor, pivot: Elem)
    requires c.Valid() && c.l <= |s| && Zones(cmp, s, c, pivot)
    requires c.hp < c.j && cmp(0, s[c.j], pivot) == 0
    ensures Zones(cmp, Swap(s, c.hp + 1, c.j), c.(hp := c.hp + 1), pivot)
  {
  }

  /** The left side is full: a smaller element from the right moves the whole pivot zone one up. */
  lemma ShiftUp(cmp: Comparator, s: seq<Elem>, c: Cursor, pivot: Elem)
    requires c.Valid() && c.l <= |s| && Zones(cmp, s, c, pivot)
    requires c.i == c.lp && c.hp < c.j && cmp(0, s[c.j], pivot) < 0
    ensures Zones(cmp, Rotate(s, c.i, c.hp + 1, c.j), c.(i := c.lp + 1, lp := c.lp + 1, hp := c.hp + 1), pivot)
  {
  }

  /** Both sides hold a misplaced element. */
  lemma Trade(cmp: Comparator, s: seq<Elem>, c: Cursor, pivot: Elem)
    requires c.Valid() && c.l <= |s| && Zones(cmp, s, c, pivot)
    requires c.i < c.lp && c.hp < c.j && cmp(0, s[c.i], pivot) > 0 && cmp(0, s[c.j], pivot) < 0
    ensures Zones(cmp, Swap(s, c.i, c.j), c.(i := c.i + 1, j := c.j - 1), pivot)
  {
  }

  /** The right side is full: a larger element from the left moves the whole pivot zone one down. */
  lemma ShiftDown(cmp: Comparator, s: seq<Elem>, c: Cursor, pivot: Elem)
    requires c.Valid() && c.l <= |s| && Zones(cmp, s, c, pivot)
    requires c.i < c.lp && c.hp == c.j && cmp(0, s[c.i], pivot) > 0
    ensures Zones(cmp, Rotate(s, c.j, c.lp - 1, c.i), c.(lp := c.lp - 1, hp := c.hp - 1, j := c.hp - 1), pivot)
  {
  }

  /** What a pass keeps: it has only rearranged [a, l) and, for a consistent comparator, its zones are right. */
  ghost predicate Pass(cmp: Comparator, s0: seq<Elem>, s: seq<Elem>, c: Cursor, pivot: Elem) {
    && c.Valid() && c.l <= |s|
    && Permutes(s0, s, c.a, c.l)
    && pivot in s0 && (IsTotalPreorder(cmp, s0) ==> Zones(cmp, s, c, pivot))
  }

  /** The element at i is known to be above the pivot. */
  ghost predicate Pending(cmp: Comparator, s0: seq<Elem>, s: seq<Elem>, c: Cursor, pivot: Elem) {
    c.i < c.lp && c.i < |s| && (IsTotalPreorder(cmp, s0) ==> cmp(0, s[c.i], pivot) > 0)
  }

  /** The answer about the element at i, compared with the one at lp. */
  lemma LeftAnswer(cmp: Comparator, s0: seq<Elem>, s: seq<Elem>, c: Cursor, pivot: Elem, t: nat)
    requires Pass(cmp, s0, s, c, pivot) && c.i < c.lp && IsTotalPreorder(cmp, s0)
    ensures Sgn(cmp(t, s[c.i], s[c.lp])) == Sgn(cmp(0, s[c.i], pivot))
  {
    hide IsTotalPreorder, Permutes;
    PermutesFrom(s0, s, c.a, c.l, c.i);
    PermutesFrom(s0, s, c.a, c.l, c.lp);
    PivotSign(cmp, s0, t, s[c.i], s[c.lp], pivot);
  }

  /** The answer about the element at j, compared the other way round with the one at hp. */
  lemma RightAnswer(cmp: Comparator, s0: seq<Elem>, s: seq<Elem>, c: Cursor, pivot: Elem, t: nat)
    requires Pass(cmp, s0, s, c, pivot) && c.hp < c.j && IsTotalPreorder(cmp, s0)
    ensures Sgn(cmp(t, s[c.hp], s[c.j])) == -Sgn(cmp(0, s[c.j], pivot))
  {
    hide IsTotalPreorder, Permutes;
    PermutesFrom(s0, s, c.a, c.l, c.hp);
    PermutesFrom(s0, s, c.a, c.l, c.j);
    PivotSign(cmp, s0, t, s[c.j], s[c.hp], pivot);
  }

  lemma StepSwap(s0: seq<Elem>, s: seq<Elem>, i: nat, j: nat, lo: nat, hi: nat)
    requires Permutes(s0, s, lo, hi) && lo <= i < hi && lo <= j < hi
    ensures Permutes(s0, Swap(s, i, j), lo, hi)
  {
  }

  lemma StepRotate(s0: seq<Elem>, s: seq<Elem>, i: nat, j: nat, k: nat, lo: nat, hi: nat)
    requires Permutes(s0, s, lo, hi) && lo <= i < hi && lo <= j < hi && lo <= k < hi
    ensures Permutes(s0, Rotate(s, i, j, k), lo, hi)
  {
    RotatePermutes(s, i, j, k, lo, hi);
    PermutesTransitive(s0, s, Rotate(s, i, j, k), lo, hi);
  }

  // The branches again, as the pass takes them on the comparator's answer at call t.

  lemma PassTieBelow(cmp: Comparator, s0: seq<Elem>, s: seq<Elem>, c: Cursor, pivot: Elem, t: nat)
    requires Pass(cmp, s0, s, c, pivot) && c.i < c.lp && cmp(t, s[c.i], s[c.lp]) == 0
    ensures Pass(cmp, s0, Swap(s, c.i, c.lp - 1), c.(lp := c.lp - 1), pivot)
  {
    hide Permutes, IsTotalPreorder, Swap, Rotate;
    StepSwap(s0, s, c.i, c.lp - 1, c.a, c.l);
    if IsTotalPreorder(cmp, s0) {
      LeftAnswer(cmp, s0, s, c, pivot, t);
      TieBelow(cmp, s, c, pivot);
    }
  }

  lemma PassBelow(cmp: Comparator, s0: seq<Elem>, s: seq<Elem>, c: Cursor, pivot: Elem, t: nat)
    requires Pass(cmp, s0, s, c, pivot) && c.i < c.lp && cmp(t, s[c.i], s[c.lp]) < 0
    ensures Pass(cmp, s0, s, c.(i := c.i + 1), pivot)
  {
    hide IsTotalPreorder, Permutes;
    if IsTotalPreorder(cmp, s0) {
      LeftAnswer(cmp, s0, s, c, pivot, t);
    }
  }

  lemma PassAboveLeft(cmp: Comparator, s0: seq<Elem>, s: seq<Elem>, c: Cursor, pivot: Elem, t: nat)
    requires Pass(cmp, s0, s, c, pivot) && c.i < c.lp && cmp(t, s[c.i], s[c.lp]) > 0
    ensures Pending(cmp, s0, s, c, pivot)
  {
    hide IsTotalPreorder, Permutes;
    if IsTotalPreorder(cmp, s0) {
      LeftAnswer(cmp, s0, s, c, pivot, t);
    }
  }

  lemma PassTieAbove(cmp: Comparator, s0: seq<Elem>, s: seq<Elem>, c: Cursor, pivot: Elem, t: nat)
    requires Pass(cmp, s0, s, c, pivot) && c.hp < c.j && cmp(t, s[c.hp], s[c.j]) == 0
    ensures var s' := Swap(s, c.hp + 1, c.j);
            && Pass(cmp, s0, s', c.(hp := c.hp + 1), pivot)
            && (Pending(cmp, s0, s, c, pivot) ==> Pending(cmp, s0, s', c.(hp := c.hp + 1), pivot))
  {
    hide Permutes, IsTotalPreorder, Swap, Rotate;
    StepSwap(s0, s, c.hp + 1, c.j, c.a, c.l);
    if IsTotalPreorder(cmp, s0) {
      RightAnswer(cmp, s0, s, c, pivot, t);
      TieAbove(cmp, s, c, pivot);
    }
    SwapAt(s, c.hp + 1, c.j, c.i);
  }

  lemma PassAbove(cmp: Comparator, s0: seq<Elem>, s: seq<Elem>, c: Cursor, pivot: Elem, t: nat)
    requires Pass(cmp, s0, s, c, pivot) && c.hp < c.j && cmp(t, s[c.hp], s[c.j]) < 0
    ensures Pass(cmp, s0, s, c.(j := c.j - 1), pivot)
    ensures Pending(cmp, s0, s, c, pivot) ==> Pending(cmp, s0, s, c.(j := c.j - 1), pivot)
  {
    hide IsTotalPreorder, Permutes;
    if IsTotalPreorder(cmp, s0) {
      RightAnswer(cmp, s0, s, c, pivot, t);
    }
  }

  lemma PassShiftUp(cmp: Comparator, s0: seq<Elem>, s: seq<Elem>, c: Cursor, pivot: Elem, t: nat)
    requires Pass(cmp, s0, s, c, pivot) && c.i == c.lp && c.hp < c.j && cmp(t, s[c.hp], s[c.j]) > 0
    ensures Pass(cmp, s0, Rotate(s, c.i, c.hp + 1, c.j), c.(i := c.lp + 1, lp := c.lp + 1, hp := c.hp + 1), pivot)
  {
    hide Permutes, IsTotalPreorder, Swap, Rotate;
    StepRotate(s0, s, c.i, c.hp + 1, c.j, c.a, c.l);
    if IsTotalPreorder(cmp, s0) {
      RightAnswer(cmp, s0, s, c, pivot, t);
      ShiftUp(cmp, s, c, pivot);
    }
  }

  lemma PassTrade(cmp: Comparator, s0: seq<Elem>, s: seq<Elem>, c: Cursor, pivot: Elem, t: nat)
    requires Pass(cmp, s0, s, c, pivot) && Pending(cmp, s0, s, c, pivot)
    requires c.hp < c.j && cmp(t, s[c.hp], s[c.j]) > 0
    ensures Pass(cmp, s0, Swap(s, c.i, c.j), c.(i := c.i + 1, j := c.j - 1), pivot)
  {
    hide Permutes, IsTotalPreorder, Swap, Rotate;
    StepSwap(s0, s, c.i, c.j, c.a, c.l);
    if IsTotalPreorder(cmp, s0) {
      RightAnswer(cmp, s0, s, c, pivot, t);
      Trade(cmp, s, c, pivot);
    }
  }

  lemma PassShiftDown(cmp: Comparator, s0: seq<Elem>, s: seq<Elem>, c: Cursor, pivot: Elem)
    requires Pass(cmp, s0, s, c, pivot) && Pending(cmp, s0, s, c, pivot) && c.hp == c.j
    ensures Pass(cmp, s0, Rotate(s, c.j, c.lp - 1, c.i), c.(lp := c.lp - 1, hp := c.hp - 1, j := c.hp - 1), pivot)
  {
    hide Permutes, IsTotalPreorder, Swap, Rotate;
    StepRotate(s0, s, c.j, c.lp - 1, c.i, c.a, c.l);
    if IsTotalPreorder(cmp, s0) {
      ShiftDown(cmp, s, c, pivot);
    }
  }

  // ----- the pass on memory -----

  /** The pointers of the pass, as addresses. */
  ghost predicate Points(y: Layout, c: Cursor, i: nat, lp: nat, hp: nat, j: nat) {
    c.Valid() && y.Slot(i, c.i) && y.Slot(lp, c.lp) && y.Slot(hp, c.hp) && y.Slot(j, c.j)
  }

  lemma PointersOrder(y: Layout, c: Cursor, i: nat, lp: nat, hp: nat, j: nat)
    requires y.w > 0 && Points(y, c, i, lp, hp, j)
    ensures i < lp <==> c.i < c.lp
    ensures i == lp <==> c.i == c.lp
    ensures j > hp <==> c.j > c.hp
  {
    AddrOrder(y.base, y.w, c.i, c.lp);
    AddrOrder(y.base, y.w, c.hp, c.j);
  }

  lemma SlotNext(y: Layout, k: nat)
    ensures Addr(y.base, y.w, k + 1) == Addr(y.base, y.w, k) + y.w
  {
  }

  lemma Distance(base: nat, w: nat, a: nat, m: nat)
    ensures Addr(base, w, a + m) - Addr(base, w, a) == m * w
  {
    AddrIsLinear(base, w, a);
    AddrIsLinear(base, w, a + m);
    assert (a + m) * w == a * w + m * w;
  }

  /** The middle slot, from the byte distance as the code computes it. */
  lemma MiddleSlot(base: nat, w: nat, a: nat, m: nat)
    requires w > 0
    ensures w * ((Addr(base, w, a + m) - Addr(base, w, a)) / (2 * w)) == Addr(base, w, a + m / 2) - Addr(base, w, a)
  {
    Distance(base, w, a, m);
    Distance(base, w, a, m / 2);
    hide Addr;
    HalfBytes(Addr(base, w, a + m) - Addr(base, w, a), m, w);
  }

  lemma HalfBytes(x: nat, m: nat, w: nat)
    requires w > 0 && x == m * w
    ensures w * (x / (2 * w)) == m / 2 * w
  {
    HalfQuotient(m, w);
  }

  lemma HalfQuotient(m: nat, w: nat)
    requires w > 0
    ensures (m * w) / (2 * w) == m / 2
  {
    var q, r := m / 2, m % 2;
    assert m * w == q * (2 * w) + r * w;
    assert 0 <= r * w < 2 * w;
    QuotientUnique(m * w, 2 * w, q, r * w);
  }

  lemma MultipleAtLeast(k: int, d: nat)
    requires k >= 1
    ensures k * d >= d
  {
    assert (k - 1) * d >= 0;
  }

  lemma QuotientUnique(x: nat, d: nat, q: nat, r: nat)
    requires d > 0 && x == q * d + r && r < d
    ensures x / d == q
  {
    QuotientGap(d, q, r, x / d, x % d);
  }

  lemma QuotientGap(d: nat, q: nat, r: nat, q': nat, r': nat)
    requires r < d && r' < d && q * d + r == q' * d + r'
    ensures q == q'
  {
    assert (q - q') * d == q * d - q' * d;
    assert (q' - q) * d == q' * d - q * d;
    if q > q' {
      MultipleAtLeast(q - q', d);
    } else if q' > q {
      MultipleAtLeast(q' - q, d);
    }
  }

  /** The start of the pivot zone. */
  method MiddleAddress(a: nat, l: nat, qswidth: nat, ghost y: Layout, ghost ka: nat, ghost kl: nat) returns (lp: nat)
    requires qswidth > 0 && y.w == qswidth && ka <= kl
    requires a == Addr(y.base, y.w, ka) && l == Addr(y.base, y.w, kl)
    ensures lp == Addr(y.base, y.w, ka + (kl - ka) / 2)
  {
    MiddleSlot(y.base, y.w, ka, kl - ka);
    var n := qswidth * ((l - a) / (2 * qswidth));
    lp := a + n;
  }

  method QsCmp(buf: array<byte>, p: nat, q: nat, qswidth: nat, cmp: Comparator, t: nat,
               ghost y: Layout, ghost i: nat, ghost j: nat) returns (c: int)
    requires y.Fits(buf[..]) && y.w == qswidth && y.Slot(p, i) && y.Slot(q, j)
    ensures c == cmp(t, y.Of(buf[..])[i], y.Of(buf[..])[j])
  {
    ElemsAt(buf[..], y.base, y.w, y.count, i);
    ElemsAt(buf[..], y.base, y.w, y.count, j);
    assert buf[..][p..p + qswidth] == buf[p..p + qswidth];
    assert buf[..][q..q + qswidth] == buf[q..q + qswidth];
    c := cmp(t, buf[p..p + qswidth], buf[q..q + qswidth]);
  }

  /** Comparisons made once all but the elements still to be classified have been compared with the pivot. */
  function CallsMade(c: Cursor): int
    requires c.Valid()
  {
    c.l - c.a - 1 - c.Unclassified()
  }

  lemma StartsRight(cmp: Comparator, s: seq<Elem>, c: Cursor)
    requires c.Valid() && c.l <= |s| && c.i == c.a && c.lp == c.hp && c.j == c.l - 1
    ensures Pass(cmp, s, s, c, s[c.lp])
  {
  }

  /** The cycle at label loop: classifies the elements above hp until a larger element waiting at i can be
      traded for a smaller one at j (again), or none is left. */
  method RightSide(buf: array<byte>, i0: nat, lp0: nat, hp0: nat, j0: nat, qswidth: nat, cmp: Comparator, t0: nat,
                   ghost y: Layout, ghost c0: Cursor, ghost s0: seq<Elem>, ghost pivot: Elem)
    returns (i: nat, lp: nat, hp: nat, j: nat, t: nat, again: bool, ghost c: Cursor)
    requires y.Fits(buf[..]) && y.w == qswidth && Points(y, c0, i0, lp0, hp0, j0)
    requires Pass(cmp, s0, y.Of(buf[..]), c0, pivot)
    requires c0.i < c0.lp ==> Pending(cmp, s0, y.Of(buf[..]), c0, pivot)
    modifies buf
    ensures y.Fits(buf[..]) && y.SameOutside(old(buf[..]), buf[..])
    ensures Points(y, c, i, lp, hp, j) && c.a == c0.a && c.l == c0.l
    ensures Pass(cmp, s0, y.Of(buf[..]), c, pivot)
    ensures t - t0 == CallsMade(c) - CallsMade(c0) - (if again then 1 else 0)
    ensures again ==> c0.i < c0.lp && c.Unclassified() < c0.Unclassified()
    ensures !again ==> c.j == c.hp && c.lp - c.i == c0.lp - c0.i
    ensures !again && c.i < c.lp ==> Pending(cmp, s0, y.Of(buf[..]), c, pivot)
  {
    hide Zones, IsTotalPreorder, Permutes, Pass, Pending, Disjoint, Elems;
    i, lp, hp, j, t, again, c := i0, lp0, hp0, j0, t0, false, c0;
    while true
      invariant y.Fits(buf[..]) && y.SameOutside(old(buf[..]), buf[..])
      invariant Points(y, c, i, lp, hp, j) && c.a == c0.a && c.l == c0.l && c.lp - c.i == c0.lp - c0.i
      invariant Pass(cmp, s0, y.Of(buf[..]), c, pivot)
      invariant c.i < c.lp ==> Pending(cmp, s0, y.Of(buf[..]), c, pivot)
      invariant !again && c.j - c.hp <= c0.j - c0.hp && t - t0 == CallsMade(c) - CallsMade(c0)
      decreases c.j - c.hp
    {
      PointersOrder(y, c, i, lp, hp, j);
      if !(j > hp) {
        break;
      }
      var answer := QsCmp(buf, hp, j, qswidth, cmp, t, y, c.hp, c.j);
      ghost var s := y.Of(buf[..]);
      t := t + 1;
      if answer == 0 {
        PassTieAbove(cmp, s0, s, c, pivot, t - 1);
        hp := hp + qswidth;
        QExchange(buf, hp, j, qswidth, y, c.hp + 1, c.j);
        c := c.(hp := c.hp + 1);
        continue;
      }
      if answer > 0 {
        if i == lp {
          PassShiftUp(cmp, s0, s, c, pivot, t - 1);
          hp := hp + qswidth;
          Q3Exchange(buf, i, hp, j, qswidth, y, c.i, c.hp + 1, c.j);
          lp := lp + qswidth;
          i := lp;
          c := c.(i := c.lp + 1, lp := c.lp + 1, hp := c.hp + 1);
          continue;
        }
        PassTrade(cmp, s0, s, c, pivot, t - 1);
        QExchange(buf, i, j, qswidth, y, c.i, c.j);
        j := j - qswidth;
        i := i + qswidth;
        c := c.(i := c.i + 1, j := c.j - 1);
        again := true;
        break;
      }
      PassAbove(cmp, s0, s, c, pivot, t - 1);
      j := j - qswidth;
      c := c.(j := c.j - 1);
    }
  }

  /** The comparison of the element at i with the pivot zone: it joins the zone or is passed over (settled), or it
      is above the pivot and waits at i. */
  method LeftStep(buf: array<byte>, i0: nat, lp0: nat, hp: nat, j: nat, qswidth: nat, cmp: Comparator, t: nat,
                  ghost y: Layout, ghost c0: Cursor, ghost s0: seq<Elem>, ghost pivot: Elem)
    returns (i: nat, lp: nat, settled: bool, ghost c: Cursor)
    requires y.Fits(buf[..]) && y.w == qswidth && Points(y, c0, i0, lp0, hp, j)
    requires Pass(cmp, s0, y.Of(buf[..]), c0, pivot) && c0.i < c0.lp
    modifies buf
    ensures y.Fits(buf[..]) && y.SameOutside(old(buf[..]), buf[..])
    ensures Points(y, c, i, lp, hp, j) && c.a == c0.a && c.l == c0.l
    ensures Pass(cmp, s0, y.Of(buf[..]), c, pivot)
    ensures settled ==> c.Unclassified() == c0.Unclassified() - 1
    ensures !settled ==> c == c0 && Pending(cmp, s0, y.Of(buf[..]), c, pivot)
  {
    hide Zones, IsTotalPreorder, Permutes, Pass, Pending, Disjoint, Elems, Layout.SameOutside, Addr;
    ghost var s := y.Of(buf[..]);
    NothingOutside(y, buf[..]);
    i, lp, settled, c := i0, lp0, true, c0;
    var answer := QsCmp(buf, i, lp, qswidth, cmp, t, y, c.i, c.lp);
    if answer == 0 {
      SlotNext(y, c.lp - 1);
      PassTieBelow(cmp, s0, s, c, pivot, t);
      lp := lp - qswidth;
      QExchange(buf, i, lp, qswidth, y, c.i, c.lp - 1);
      c := c.(lp := c.lp - 1);
    } else if answer < 0 {
      SlotNext(y, c.i);
      PassBelow(cmp, s0, s, c, pivot, t);
      i := i + qswidth;
      c := c.(i := c.i + 1);
    } else {
      PassAboveLeft(cmp, s0, s, c, pivot, t);
      settled := false;
    }
  }

  /** One pass over [a, l): whatever the comparator answers, it ends, stays inside the array, loses no
      element and makes one comparison per element but one; a consistent comparator gets its zones. */
  method PartitionPass(buf: array<byte>, a: nat, l: nat, qswidth: nat, cmp: Comparator, t0: nat,
                       ghost y: Layout, ghost ka: nat, ghost kl: nat)
    returns (lp: nat, hp: nat, t: nat, ghost c: Cursor, ghost pivot: Elem)
    requires y.Fits(buf[..]) && y.w == qswidth && ka + 1 < kl <= y.count
    requires a == Addr(y.base, y.w, ka) && l == Addr(y.base, y.w, kl)
    modifies buf
    ensures y.Fits(buf[..]) && y.SameOutside(old(buf[..]), buf[..])
    ensures Pass(cmp, old(y.Of(buf[..])), y.Of(buf[..]), c, pivot)
    ensures c.a == ka && c.l == kl && c.i == c.lp && c.j == c.hp
    ensures lp == Addr(y.base, y.w, c.lp) && hp == Addr(y.base, y.w, c.hp)
    ensures t == t0 + (kl - ka - 1)
  {
    hide Zones, IsTotalPreorder, Permutes, Pass, Pending, Disjoint, Elems, Layout.SameOutside, Addr;
    ghost var b0 := buf[..];
    NothingOutside(y, b0);
    SlotNext(y, kl - 1);
    lp := MiddleAddress(a, l, qswidth, y, ka, kl);
    hp := lp;
    var i: nat := a;
    var j: nat := l - qswidth;
    t := t0;
    c := Cursor(ka, ka, ka + (kl - ka) / 2, ka + (kl - ka) / 2, kl - 1, kl);
    pivot := y.Of(buf[..])[c.lp];
    ghost var s0 := y.Of(buf[..]);
    StartsRight(cmp, s0, c);

    while true
      invariant y.Fits(buf[..]) && y.SameOutside(b0, buf[..])
      invariant Points(y, c, i, lp, hp, j) && c.a == ka && c.l == kl
      invariant Pass(cmp, s0, y.Of(buf[..]), c, pivot)
      invariant t == t0 + CallsMade(c)
      decreases c.Unclassified()
    {
      ghost var b := buf[..];
      PointersOrder(y, c, i, lp, hp, j);
      if i < lp {
        var settled;
        i, lp, settled, c := LeftStep(buf, i, lp, hp, j, qswidth, cmp, t, y, c, s0, pivot);
        OutsideTransitive(y, b0, b, buf[..]);
        t := t + 1;
        if settled {
          continue;
        }
        b := buf[..];
      }
      var again;
      i, lp, hp, j, t, again, c := RightSide(buf, i, lp, hp, j, qswidth, cmp, t, y, c, s0, pivot);
      OutsideTransitive(y, b0, b, buf[..]);
      if again {
        continue;
      }
      PointersOrder(y, c, i, lp, hp, j);
      if i == lp {
        break;
      }
      b := buf[..];
      SlotNext(y, c.lp - 1);
      SlotNext(y, c.hp - 1);
      PassShiftDown(cmp, s0, y.Of(b), c, pivot);
      lp := lp - qswidth;
      Q3Exchange(buf, j, lp, i, qswidth, y, c.j, c.lp - 1, c.i);
      OutsideTransitive(y, b0, b, buf[..]);
      hp := hp - qswidth;
      j := hp;
      c := c.(lp := c.lp - 1, hp := c.hp - 1, j := c.hp - 1);
    }
  }
}
