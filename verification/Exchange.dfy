/** qexchange and q3exchange: byte-wise loops that exchange two or three slots of an array in memory. */
module Exchange {
  import opened Elements

  /** The array being sorted: count elements of width w, one after the other from base. */
  datatype Layout = Layout(base: nat, w: nat, count: nat) {
    ghost predicate Fits(b: seq<byte>) {
      w > 0 && Addr(base, w, count) <= |b|
    }

    ghost function Of(b: seq<byte>): (es: seq<Elem>)
      requires Fits(b)
      ensures |es| == count
    {
      Elems(b, base, w, count)
    }

    /** p is the address of slot k. */
    ghost predicate Slot(p: nat, k: nat) {
      k < count && p == Addr(base, w, k)
    }

    /** b and c agree outside the array. */
    ghost predicate SameOutside(b: seq<byte>, c: seq<byte>)
    {
      |b| == |c| && forall q :: 0 <= q < |b| && (q < base || Addr(base, w, count) <= q) ==> b[q] == c[q]
    }
  }

  lemma NothingOutside(y: Layout, b: seq<byte>)
    ensures y.SameOutside(b, b)
  {
  }

  lemma OutsideTransitive(y: Layout, b: seq<byte>, c: seq<byte>, d: seq<byte>)
    requires y.SameOutside(b, c) && y.SameOutside(c, d)
    ensures y.SameOutside(b, d)
  {
  }

  // ----- byte-wise exchanges -----

  ghost predicate In(q: int, p: nat, w: nat) {
    p <= q < p + w
  }

  ghost predicate SameOrDisjoint(i: nat, j: nat, w: nat) {
    i == j || Disjoint(i, j, w)
  }

  /** The buffer after the first d iterations of qexchange. */
  ghost function Exchanged(b: seq<byte>, i: nat, j: nat, d: nat): (c: seq<byte>)
    requires i + d <= |b| && j + d <= |b|
    ensures |c| == |b|
  {
    if d == 0 then b else Swap(Exchanged(b, i, j, d - 1), i + d - 1, j + d - 1)
  }

  /** The buffer after the first d iterations of q3exchange. */
  ghost function Rotated(b: seq<byte>, i: nat, j: nat, k: nat, d: nat): (c: seq<byte>)
    requires i + d <= |b| && j + d <= |b| && k + d <= |b|
    ensures |c| == |b|
  {
    if d == 0 then b else Rotate(Rotated(b, i, j, k, d - 1), i + d - 1, j + d - 1, k + d - 1)
  }

  lemma SwapSourceShift(i: nat, j: nat, p: nat, w: nat, o: nat, e: nat)
    requires o < w && e < w && SameOrDisjoint(p, i, w) && SameOrDisjoint(p, j, w)
    ensures SwapSource(i + e, j + e, p + o) == if o == e then SwapSource(i, j, p) + o else p + o
  {
  }

  lemma RotateSourceShift(i: nat, j: nat, k: nat, p: nat, w: nat, o: nat, e: nat)
    requires o < w && e < w
    requires SameOrDisjoint(p, i, w) && SameOrDisjoint(p, j, w) && SameOrDisjoint(p, k, w)
    ensures RotateSource(i + e, j + e, k + e, p + o) == if o == e then RotateSource(i, j, k, p) + o else p + o
  {
  }

  lemma RotateSourceApart(i: nat, j: nat, k: nat, p: nat, w: nat)
    requires SameOrDisjoint(i, j, w) && SameOrDisjoint(j, k, w) && SameOrDisjoint(i, k, w)
    requires SameOrDisjoint(p, i, w) && SameOrDisjoint(p, j, w) && SameOrDisjoint(p, k, w)
    ensures SameOrDisjoint(RotateSource(i, j, k, p), i, w)
    ensures SameOrDisjoint(RotateSource(i, j, k, p), j, w)
    ensures SameOrDisjoint(RotateSource(i, j, k, p), k, w)
  {
  }

  /** Iterations yet to come leave their bytes alone. */
  lemma {:induction false} ExchangedLater(b: seq<byte>, i: nat, j: nat, w: nat, d: nat, p: nat, o: nat)
    requires d <= o < w && i + w <= |b| && j + w <= |b| && p + w <= |b|
    requires SameOrDisjoint(p, i, w) && SameOrDisjoint(p, j, w)
    ensures Exchanged(b, i, j, d)[p + o] == b[p + o]
  {
    if d > 0 {
      var e := d - 1;
      SwapSourceShift(i, j, p, w, o, e);
      SwapAt(Exchanged(b, i, j, e), i + e, j + e, p + o);
      ExchangedLater(b, i, j, w, e, p, o);
    }
  }

  lemma {:induction false} ExchangedByte(b: seq<byte>, i: nat, j: nat, w: nat, d: nat, p: nat, o: nat)
    requires o < d <= w && i + w <= |b| && j + w <= |b| && p + w <= |b|
    requires SameOrDisjoint(i, j, w) && SameOrDisjoint(p, i, w) && SameOrDisjoint(p, j, w)
    ensures Exchanged(b, i, j, d)[p + o] == b[SwapSource(i, j, p) + o]
  {
    var e := d - 1;
    SwapSourceShift(i, j, p, w, o, e);
    SwapAt(Exchanged(b, i, j, e), i + e, j + e, p + o);
    if o < e {
      ExchangedByte(b, i, j, w, e, p, o);
    } else {
      ExchangedLater(b, i, j, w, e, SwapSource(i, j, p), o);
    }
  }

  /** Iteration e leaves the bytes at other offsets alone. */
  lemma RotatedOther(b: seq<byte>, i: nat, j: nat, k: nat, w: nat, e: nat, p: nat, o: nat)
    requires e < w && o < w && o != e && i + w <= |b| && j + w <= |b| && k + w <= |b| && p + w <= |b|
    requires SameOrDisjoint(p, i, w) && SameOrDisjoint(p, j, w) && SameOrDisjoint(p, k, w)
    ensures Rotate(Rotated(b, i, j, k, e), i + e, j + e, k + e)[p + o] == Rotated(b, i, j, k, e)[p + o]
  {
  }

  lemma {:induction false} RotatedLater(b: seq<byte>, i: nat, j: nat, k: nat, w: nat, d: nat, p: nat, o: nat)
    requires d <= o < w && i + w <= |b| && j + w <= |b| && k + w <= |b| && p + w <= |b|
    requires SameOrDisjoint(p, i, w) && SameOrDisjoint(p, j, w) && SameOrDisjoint(p, k, w)
    ensures Rotated(b, i, j, k, d)[p + o] == b[p + o]
  {
    if d > 0 {
      var e := d - 1;
      RotatedOther(b, i, j, k, w, e, p, o);
      RotatedLater(b, i, j, k, w, e, p, o);
    }
  }

  /** Iteration e moves the bytes at offset e. */
  lemma RotatedNow(b: seq<byte>, i: nat, j: nat, k: nat, w: nat, e: nat, p: nat)
    requires e < w && i + w <= |b| && j + w <= |b| && k + w <= |b| && p + w <= |b|
    requires SameOrDisjoint(i, j, w) && SameOrDisjoint(j, k, w) && SameOrDisjoint(i, k, w)
    requires SameOrDisjoint(p, i, w) && SameOrDisjoint(p, j, w) && SameOrDisjoint(p, k, w)
    ensures Rotate(Rotated(b, i, j, k, e), i + e, j + e, k + e)[p + e] == b[RotateSource(i, j, k, p) + e]
  {
    hide SameOrDisjoint, RotateSource, Rotate, Rotated;
    RotateSourceShift(i, j, k, p, w, e, e);
    RotateAt(Rotated(b, i, j, k, e), i + e, j + e, k + e, p + e);
    RotateSourceApart(i, j, k, p, w);
    RotateSourceOneOf(i, j, k, p);
    RotatedLater(b, i, j, k, w, e, RotateSource(i, j, k, p), e);
  }

  lemma {:induction false} RotatedByte(b: seq<byte>, i: nat, j: nat, k: nat, w: nat, d: nat, p: nat, o: nat)
    requires o < d <= w && i + w <= |b| && j + w <= |b| && k + w <= |b| && p + w <= |b|
    requires SameOrDisjoint(i, j, w) && SameOrDisjoint(j, k, w) && SameOrDisjoint(i, k, w)
    requires SameOrDisjoint(p, i, w) && SameOrDisjoint(p, j, w) && SameOrDisjoint(p, k, w)
    ensures Rotated(b, i, j, k, d)[p + o] == b[RotateSource(i, j, k, p) + o]
  {
    hide SameOrDisjoint, RotateSource, Rotate;
    var e := d - 1;
    if o < e {
      RotatedOther(b, i, j, k, w, e, p, o);
      RotatedByte(b, i, j, k, w, e, p, o);
    } else {
      RotatedNow(b, i, j, k, w, e, p);
    }
  }

  lemma {:induction false} ExchangedOutside(b: seq<byte>, i: nat, j: nat, d: nat, q: nat)
    requires i + d <= |b| && j + d <= |b| && q < |b| && !In(q, i, d) && !In(q, j, d)
    ensures Exchanged(b, i, j, d)[q] == b[q]
  {
    if d > 0 {
      ExchangedOutside(b, i, j, d - 1, q);
    }
  }

  lemma {:induction false} RotatedOutside(b: seq<byte>, i: nat, j: nat, k: nat, d: nat, q: nat)
    requires i + d <= |b| && j + d <= |b| && k + d <= |b| && q < |b|
    requires !In(q, i, d) && !In(q, j, d) && !In(q, k, d)
    ensures Rotated(b, i, j, k, d)[q] == b[q]
  {
    if d > 0 {
      RotatedOutside(b, i, j, k, d - 1, q);
    }
  }

  method ExchangeBytes(buf: array<byte>, i: nat, j: nat, qswidth: nat)
    requires qswidth > 0 && i + qswidth <= buf.Length && j + qswidth <= buf.Length
    modifies buf
    ensures buf[..] == Exchanged(old(buf[..]), i, j, qswidth)
  {
    var n, p, q := qswidth, i, j;
    while true
      invariant 1 <= n <= qswidth && p == i + (qswidth - n) && q == j + (qswidth - n)
      invariant buf[..] == Exchanged(old(buf[..]), i, j, qswidth - n)
      decreases n
    {
      var t := buf[p];
      buf[p] := buf[q];
      p := p + 1;
      buf[q] := t;
      q := q + 1;
      n := n - 1;
      if n == 0 {
        break;
      }
    }
  }

  method RotateBytes(buf: array<byte>, i: nat, j: nat, k: nat, qswidth: nat)
    requires qswidth > 0
    requires i + qswidth <= buf.Length && j + qswidth <= buf.Length && k + qswidth <= buf.Length
    modifies buf
    ensures buf[..] == Rotated(old(buf[..]), i, j, k, qswidth)
  {
    var n, p, q, r := qswidth, i, j, k;
    while true
      invariant 1 <= n <= qswidth
      invariant p == i + (qswidth - n) && q == j + (qswidth - n) && r == k + (qswidth - n)
      invariant buf[..] == Rotated(old(buf[..]), i, j, k, qswidth - n)
      decreases n
    {
      var t := buf[p];
      buf[p] := buf[r];
      p := p + 1;
      buf[r] := buf[q];
      r := r + 1;
      buf[q] := t;
      q := q + 1;
      n := n - 1;
      if n == 0 {
        break;
      }
    }
  }

  lemma SlotInside(y: Layout, k: nat)
    requires k < y.count
    ensures y.base <= Addr(y.base, y.w, k) && Addr(y.base, y.w, k) + y.w <= Addr(y.base, y.w, y.count)
  {
    AddrGap(y.base, y.w, k, y.count);
    AddrIsLinear(y.base, y.w, k);
  }

  ghost predicate SameByte(b: seq<byte>, c: seq<byte>, p: nat, q: nat, o: int) {
    o >= 0 && p + o < |c| && q + o < |b| && c[p + o] == b[q + o]
  }

  lemma SliceEq(b: seq<byte>, c: seq<byte>, p: nat, q: nat, w: nat)
    requires p + w <= |c| && q + w <= |b|
    requires forall o :: 0 <= o < w ==> SameByte(b, c, p, q, o)
    ensures c[p..p + w] == b[q..q + w]
  {
    var l, r := c[p..p + w], b[q..q + w];
    forall o | 0 <= o < w ensures l[o] == r[o] {
      assert SameByte(b, c, p, q, o);
    }
  }

  lemma ExchangedFrom(b: seq<byte>, i: nat, j: nat, w: nat, p: nat, from: nat)
    requires i + w <= |b| && j + w <= |b| && p + w <= |b| && from == SwapSource(i, j, p)
    requires SameOrDisjoint(i, j, w) && SameOrDisjoint(p, i, w) && SameOrDisjoint(p, j, w)
    ensures Exchanged(b, i, j, w)[p..p + w] == b[from..from + w]
  {
    forall o | 0 <= o < w ensures SameByte(b, Exchanged(b, i, j, w), p, from, o) {
      ExchangedByte(b, i, j, w, w, p, o);
    }
    SliceEq(b, Exchanged(b, i, j, w), p, from, w);
  }

  lemma RotatedFrom(b: seq<byte>, i: nat, j: nat, k: nat, w: nat, p: nat, from: nat)
    requires i + w <= |b| && j + w <= |b| && k + w <= |b| && p + w <= |b| && from == RotateSource(i, j, k, p)
    requires SameOrDisjoint(i, j, w) && SameOrDisjoint(j, k, w) && SameOrDisjoint(i, k, w)
    requires SameOrDisjoint(p, i, w) && SameOrDisjoint(p, j, w) && SameOrDisjoint(p, k, w)
    ensures Rotated(b, i, j, k, w)[p..p + w] == b[from..from + w]
  {
    forall o | 0 <= o < w ensures SameByte(b, Rotated(b, i, j, k, w), p, from, o) {
      RotatedByte(b, i, j, k, w, w, p, o);
    }
    SliceEq(b, Rotated(b, i, j, k, w), p, from, w);
  }

  lemma SlotsApart(y: Layout, i: nat, j: nat)
    requires y.w > 0
    ensures SameOrDisjoint(Addr(y.base, y.w, i), Addr(y.base, y.w, j), y.w)
    ensures i == j <==> Addr(y.base, y.w, i) == Addr(y.base, y.w, j)
  {
    AddrOrder(y.base, y.w, i, j);
  }

  /** Slot m of c has the bytes that slot k of b has. */
  lemma SlotCopied(y: Layout, b: seq<byte>, c: seq<byte>, m: nat, pm: nat, k: nat, pk: nat)
    requires y.Fits(b) && y.Fits(c) && y.Slot(pm, m) && y.Slot(pk, k)
    requires pm + y.w <= |c| && pk + y.w <= |b| && c[pm..pm + y.w] == b[pk..pk + y.w]
    ensures y.Of(c)[m] == y.Of(b)[k]
  {
    ElemsAt(c, y.base, y.w, y.count, m);
    ElemsAt(b, y.base, y.w, y.count, k);
  }

  lemma SwapSourceSlot(y: Layout, i: nat, pi: nat, j: nat, pj: nat, m: nat, pm: nat)
    requires y.w > 0 && y.Slot(pi, i) && y.Slot(pj, j) && y.Slot(pm, m)
    ensures SameOrDisjoint(pi, pj, y.w) && SameOrDisjoint(pm, pi, y.w) && SameOrDisjoint(pm, pj, y.w)
    ensures y.Slot(SwapSource(pi, pj, pm), SwapSource(i, j, m))
  {
    SlotsApart(y, i, j);
    SlotsApart(y, m, i);
    SlotsApart(y, m, j);
  }

  lemma RotateSourceSlot(y: Layout, i: nat, pi: nat, j: nat, pj: nat, k: nat, pk: nat, m: nat, pm: nat)
    requires y.w > 0 && y.Slot(pi, i) && y.Slot(pj, j) && y.Slot(pk, k) && y.Slot(pm, m)
    ensures SameOrDisjoint(pi, pj, y.w) && SameOrDisjoint(pj, pk, y.w) && SameOrDisjoint(pi, pk, y.w)
    ensures SameOrDisjoint(pm, pi, y.w) && SameOrDisjoint(pm, pj, y.w) && SameOrDisjoint(pm, pk, y.w)
    ensures y.Slot(RotateSource(pi, pj, pk, pm), RotateSource(i, j, k, m))
  {
    SlotsApart(y, i, j);
    SlotsApart(y, j, k);
    SlotsApart(y, i, k);
    SlotsApart(y, m, i);
    SlotsApart(y, m, j);
    SlotsApart(y, m, k);
  }

  lemma ExchangedSlot(y: Layout, b: seq<byte>, i: nat, pi: nat, j: nat, pj: nat, m: nat)
    requires y.Fits(b) && y.Slot(pi, i) && y.Slot(pj, j) && m < y.count
    requires pi + y.w <= |b| && pj + y.w <= |b|
    ensures y.Of(Exchanged(b, pi, pj, y.w))[m] == y.Of(b)[SwapSource(i, j, m)]
  {
    hide SameOrDisjoint, Addr, Elems;
    var pm := Addr(y.base, y.w, m);
    var pn := SwapSource(pi, pj, pm);
    SlotInside(y, m);
    SwapSourceSlot(y, i, pi, j, pj, m, pm);
    ExchangedFrom(b, pi, pj, y.w, pm, pn);
    SlotCopied(y, b, Exchanged(b, pi, pj, y.w), m, pm, SwapSource(i, j, m), pn);
  }

  lemma RotatedSlot(y: Layout, b: seq<byte>, i: nat, pi: nat, j: nat, pj: nat, k: nat, pk: nat, m: nat)
    requires y.Fits(b) && y.Slot(pi, i) && y.Slot(pj, j) && y.Slot(pk, k) && m < y.count
    requires pi + y.w <= |b| && pj + y.w <= |b| && pk + y.w <= |b|
    ensures y.Of(Rotated(b, pi, pj, pk, y.w))[m] == y.Of(b)[RotateSource(i, j, k, m)]
  {
    hide SameOrDisjoint, Addr, Elems, RotateSource, Rotated;
    var pm := Addr(y.base, y.w, m);
    var pn := RotateSource(pi, pj, pk, pm);
    SlotInside(y, m);
    RotateSourceSlot(y, i, pi, j, pj, k, pk, m, pm);
    RotateSourceOneOf(pi, pj, pk, pm);
    RotatedFrom(b, pi, pj, pk, y.w, pm, pn);
    SlotCopied(y, b, Rotated(b, pi, pj, pk, y.w), m, pm, RotateSource(i, j, k, m), pn);
  }

  /** The byte-wise qexchange of two slots swaps two elements and touches nothing outside the array. */
  lemma ExchangeIsSwap(y: Layout, b: seq<byte>, i: nat, j: nat)
    requires y.Fits(b) && i < y.count && j < y.count
    requires Addr(y.base, y.w, i) + y.w <= |b| && Addr(y.base, y.w, j) + y.w <= |b|
    ensures var c := Exchanged(b, Addr(y.base, y.w, i), Addr(y.base, y.w, j), y.w);
            y.Of(c) == Swap(y.Of(b), i, j) && y.SameOutside(b, c)
  {
    var pi, pj := Addr(y.base, y.w, i), Addr(y.base, y.w, j);
    var c := Exchanged(b, pi, pj, y.w);
    forall m | 0 <= m < y.count ensures y.Of(c)[m] == Swap(y.Of(b), i, j)[m] {
      ExchangedSlot(y, b, i, pi, j, pj, m);
      SwapAt(y.Of(b), i, j, m);
    }
    SlotInside(y, i);
    SlotInside(y, j);
    AddrOrder(y.base, y.w, i, j);
    forall q | 0 <= q < |b| && (q < y.base || Addr(y.base, y.w, y.count) <= q) ensures b[q] == c[q] {
      ExchangedOutside(b, pi, pj, y.w, q);
    }
  }

  /** The byte-wise q3exchange of three slots, whichever of them coincide, is the element rotation. */
  lemma RotationIsRotate(y: Layout, b: seq<byte>, i: nat, j: nat, k: nat)
    requires y.Fits(b) && i < y.count && j < y.count && k < y.count
    requires Addr(y.base, y.w, i) + y.w <= |b| && Addr(y.base, y.w, j) + y.w <= |b|
    requires Addr(y.base, y.w, k) + y.w <= |b|
    ensures var c := Rotated(b, Addr(y.base, y.w, i), Addr(y.base, y.w, j), Addr(y.base, y.w, k), y.w);
            y.Of(c) == Rotate(y.Of(b), i, j, k) && y.SameOutside(b, c)
  {
    var pi, pj, pk := Addr(y.base, y.w, i), Addr(y.base, y.w, j), Addr(y.base, y.w, k);
    var c := Rotated(b, pi, pj, pk, y.w);
    forall m | 0 <= m < y.count ensures y.Of(c)[m] == Rotate(y.Of(b), i, j, k)[m] {
      RotatedSlot(y, b, i, pi, j, pj, k, pk, m);
      RotateAt(y.Of(b), i, j, k, m);
    }
    SlotInside(y, i);
    SlotInside(y, j);
    SlotInside(y, k);
    AddrOrder(y.base, y.w, i, j);
    AddrOrder(y.base, y.w, j, k);
    AddrOrder(y.base, y.w, i, k);
    forall q | 0 <= q < |b| && (q < y.base || Addr(y.base, y.w, y.count) <= q) ensures b[q] == c[q] {
      RotatedOutside(b, pi, pj, pk, y.w, q);
    }
  }

  /** qexchange: swaps the elements at two slots, given by their addresses p and q. */
  method QExchange(buf: array<byte>, p: nat, q: nat, qswidth: nat, ghost y: Layout, ghost i: nat, ghost j: nat)
    requires y.Fits(buf[..]) && y.w == qswidth && y.Slot(p, i) && y.Slot(q, j)
    modifies buf
    ensures y.Of(buf[..]) == Swap(old(y.Of(buf[..])), i, j)
    ensures y.SameOutside(old(buf[..]), buf[..])
  {
    SlotInside(y, i);
    SlotInside(y, j);
    ExchangeIsSwap(y, buf[..], i, j);
    ExchangeBytes(buf, p, q, qswidth);
  }

  /** q3exchange: rotates the elements at three slots, of which some may be the same slot. */
  method Q3Exchange(buf: array<byte>, p: nat, q: nat, r: nat, qswidth: nat,
                    ghost y: Layout, ghost i: nat, ghost j: nat, ghost k: nat)
    requires y.Fits(buf[..]) && y.w == qswidth && y.Slot(p, i) && y.Slot(q, j) && y.Slot(r, k)
    modifies buf
    ensures y.Of(buf[..]) == Rotate(old(y.Of(buf[..])), i, j, k)
    ensures y.SameOutside(old(buf[..]), buf[..])
  {
    SlotInside(y, i);
    SlotInside(y, j);
    SlotInside(y, k);
    RotationIsRotate(y, buf[..], i, j, k);
    RotateBytes(buf, p, q, r, qswidth);
  }
}
