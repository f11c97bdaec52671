/** Sequences of array elements: slots of a byte buffer, their exchanges, permutations and orderings. */
module Elements {
  newtype byte = x: int | 0 <= x < 256

  type Elem = seq<byte>

  /** A comparison callback. The first argument numbers the call, so that one function stands for a
      callback whose answers depend on its own state as well as on the two elements it is shown. */
  type Comparator = (nat, Elem, Elem) -> int

  // ----- slots -----

  /** Address of the k-th slot of width w from base; it equals base + k * w, see AddrIsLinear. */
  function Addr(base: nat, w: nat, k: nat): nat {
    if k == 0 then base else Addr(base, w, k - 1) + w
  }

  lemma {:induction false} AddrIsLinear(base: nat, w: nat, k: nat)
    ensures Addr(base, w, k) == base + k * w
  {
    if k > 0 {
      AddrIsLinear(base, w, k - 1);
      assert (k - 1) * w + w == k * w;
    }
  }

  lemma {:induction false} AddrGap(base: nat, w: nat, i: nat, j: nat)
    requires i < j
    ensures Addr(base, w, i) + w <= Addr(base, w, j)
    decreases j
  {
    if i < j - 1 {
      AddrGap(base, w, i, j - 1);
    }
  }

  /** With a nonzero width, addresses are ordered exactly as the slot numbers are. */
  lemma AddrOrder(base: nat, w: nat, i: nat, j: nat)
    requires w > 0
    ensures i < j <==> Addr(base, w, i) < Addr(base, w, j)
    ensures i == j <==> Addr(base, w, i) == Addr(base, w, j)
    ensures i != j ==> Disjoint(Addr(base, w, i), Addr(base, w, j), w)
  {
  }

  predicate Disjoint(p: nat, q: nat, w: nat) {
    p + w <= q || q + w <= p
  }

  /** The first n slots of the buffer, as a sequence of elements. */
  ghost function Elems(b: seq<byte>, base: nat, w: nat, n: nat): (es: seq<Elem>)
    requires Addr(base, w, n) <= |b|
    ensures |es| == n
  {
    if n == 0 then [] else Elems(b, base, w, n - 1) + [b[Addr(base, w, n - 1)..Addr(base, w, n)]]
  }

  lemma {:induction false} ElemsAt(b: seq<byte>, base: nat, w: nat, n: nat, k: nat)
    requires Addr(base, w, n) <= |b| && k < n
    ensures Addr(base, w, k) + w <= Addr(base, w, n)
    ensures Elems(b, base, w, n)[k] == b[Addr(base, w, k)..Addr(base, w, k) + w]
  {
    if k < n - 1 {
      ElemsAt(b, base, w, n - 1, k);
    }
  }

  // ----- exchanges -----

  /** qexchange on elements, or on single bytes. */
  ghost function Swap<T>(s: seq<T>, i: nat, j: nat): (r: seq<T>)
    requires i < |s| && j < |s|
    ensures |r| == |s|
  {
    s[i := s[j]][j := s[i]]
  }

  /** q3exchange on elements, or on single bytes: the three assignments in program order, so that i, j
      and k may coincide. */
  ghost function Rotate<T>(s: seq<T>, i: nat, j: nat, k: nat): (r: seq<T>)
    requires i < |s| && j < |s| && k < |s|
    ensures |r| == |s|
  {
    var s1 := s[i := s[k]];
    var s2 := s1[k := s1[j]];
    s2[j := s[i]]
  }

  /** Where position m takes its value from in Swap. */
  ghost function SwapSource(i: nat, j: nat, m: nat): nat {
    if m == i then j else if m == j then i else m
  }

  /** Where position m takes its value from in Rotate. */
  ghost function RotateSource(i: nat, j: nat, k: nat, m: nat): nat {
    if m == j then i else if m == k then (if i == j then k else j) else if m == i then k else m
  }

  lemma RotateSourceOneOf(i: nat, j: nat, k: nat, m: nat)
    ensures RotateSource(i, j, k, m) in {i, j, k, m}
  {
  }

  lemma SwapAt<T>(s: seq<T>, i: nat, j: nat, m: nat)
    requires i < |s| && j < |s| && m < |s|
    ensures Swap(s, i, j)[m] == s[SwapSource(i, j, m)]
  {
  }

  lemma RotateAt<T>(s: seq<T>, i: nat, j: nat, k: nat, m: nat)
    requires i < |s| && j < |s| && k < |s| && m < |s|
    ensures Rotate(s, i, j, k)[m] == s[RotateSource(i, j, k, m)]
  {
  }

  /** r rearranges s[lo..hi] and keeps everything else. */
  ghost predicate Permutes(s: seq<Elem>, r: seq<Elem>, lo: nat, hi: nat) {
    && lo <= hi <= |s| == |r|
    && r[..lo] == s[..lo]
    && r[hi..] == s[hi..]
    && multiset(r[lo..hi]) == multiset(s[lo..hi])
  }

  lemma PermutesOutside(s: seq<Elem>, r: seq<Elem>, lo: nat, hi: nat, k: nat)
    requires Permutes(s, r, lo, hi) && k < |s| && (k < lo || hi <= k)
    ensures r[k] == s[k]
  {
  }

  lemma UpdateMultiset(s: seq<Elem>, k: nat, x: Elem)
    requires k < |s|
    ensures multiset(s[k := x]) == multiset(s) - multiset{s[k]} + multiset{x}
  {
  }

  lemma SwapPermutes(s: seq<Elem>, i: nat, j: nat, lo: nat, hi: nat)
    requires lo <= i < hi <= |s| && lo <= j < hi
    ensures Permutes(s, Swap(s, i, j), lo, hi)
  {
    var t := s[lo..hi];
    var t1 := t[i - lo := t[j - lo]];
    UpdateMultiset(t, i - lo, t[j - lo]);
    UpdateMultiset(t1, j - lo, t[i - lo]);
    assert Swap(s, i, j)[lo..hi] == t1[j - lo := t[i - lo]];
  }

  /** Whatever slots coincide, the three-way exchange loses no element. */
  lemma RotatePermutes(s: seq<Elem>, i: nat, j: nat, k: nat, lo: nat, hi: nat)
    requires lo <= i < hi <= |s| && lo <= j < hi && lo <= k < hi
    ensures Permutes(s, Rotate(s, i, j, k), lo, hi)
  {
    assert Rotate(s, i, j, k) == Swap(Swap(s, i, k), k, j);
    SwapPermutes(s, i, k, lo, hi);
    SwapPermutes(Swap(s, i, k), k, j, lo, hi);
  }

  lemma PermutesTransitive(s: seq<Elem>, r: seq<Elem>, q: seq<Elem>, lo: nat, hi: nat)
    requires Permutes(s, r, lo, hi) && Permutes(r, q, lo, hi)
    ensures Permutes(s, q, lo, hi)
  {
  }

  lemma PermutesWiden(s: seq<Elem>, r: seq<Elem>, lo: nat, hi: nat, lo': nat, hi': nat)
    requires Permutes(s, r, lo, hi) && lo' <= lo && hi <= hi' <= |s|
    ensures Permutes(s, r, lo', hi')
  {
    forall k | 0 <= k < |s| && (k < lo || hi <= k) ensures r[k] == s[k] {
      PermutesOutside(s, r, lo, hi, k);
    }
    assert r[lo'..hi'] == r[lo'..lo] + r[lo..hi] + r[hi..hi'];
    assert s[lo'..hi'] == s[lo'..lo] + s[lo..hi] + s[hi..hi'];
    assert r[lo'..lo] == s[lo'..lo] && r[hi..hi'] == s[hi..hi'];
  }

  /** Every element of the rearranged part was in that part before. */
  lemma PermutesSource(s: seq<Elem>, r: seq<Elem>, lo: nat, hi: nat, k: nat) returns (k': nat)
    requires Permutes(s, r, lo, hi) && lo <= k < hi
    ensures lo <= k' < hi && s[k'] == r[k]
  {
    assert r[k] == r[lo..hi][k - lo];
    assert r[k] in multiset(s[lo..hi]);
    var m :| 0 <= m < hi - lo && s[lo..hi][m] == r[k];
    k' := lo + m;
  }

  lemma PermutesFrom(s: seq<Elem>, r: seq<Elem>, lo: nat, hi: nat, k: nat)
    requires Permutes(s, r, lo, hi) && k < |r|
    ensures r[k] in s
  {
    if lo <= k < hi {
      var k' := PermutesSource(s, r, lo, hi, k);
    } else {
      PermutesOutside(s, r, lo, hi, k);
    }
  }

  // ----- orderings -----

  function Sgn(x: int): int {
    if x < 0 then -1 else if x == 0 then 0 else 1
  }

  /** Among these elements, the callback answers by the sign of one total preorder, whenever it is asked. */
  ghost predicate IsTotalPreorder(cmp: Comparator, on: seq<Elem>) {
    && (forall t, x, y :: x in on && y in on ==> Sgn(cmp(t, x, y)) == Sgn(cmp(0, x, y)))
    && (forall x, y :: x in on && y in on ==> Sgn(cmp(0, x, y)) == -Sgn(cmp(0, y, x)))
    && (forall x, y, z :: x in on && y in on && z in on && cmp(0, x, y) <= 0 && cmp(0, y, z) <= 0 ==> cmp(0, x, z) <= 0)
  }

  lemma PreorderKept(cmp: Comparator, s: seq<Elem>, r: seq<Elem>, lo: nat, hi: nat)
    requires Permutes(s, r, lo, hi) && IsTotalPreorder(cmp, s)
    ensures IsTotalPreorder(cmp, r)
  {
    forall x | x in r ensures x in s {
      var k :| 0 <= k < |r| && r[k] == x;
      PermutesFrom(s, r, lo, hi, k);
    }
  }

  ghost predicate SortedBy(cmp: Comparator, s: seq<Elem>, lo: nat, hi: nat)
    requires lo <= hi <= |s|
  {
    forall i, j :: lo <= i < j < hi ==> cmp(0, s[i], s[j]) <= 0
  }

  /** Comparing with an element that ties with the pivot tells how the pivot compares. */
  lemma PivotSign(cmp: Comparator, on: seq<Elem>, t: nat, x: Elem, y: Elem, pivot: Elem)
    requires IsTotalPreorder(cmp, on) && x in on && y in on && pivot in on && cmp(0, y, pivot) == 0
    ensures Sgn(cmp(t, x, y)) == Sgn(cmp(0, x, pivot))
    ensures Sgn(cmp(t, y, x)) == -Sgn(cmp(0, x, pivot))
  {
  }

  // ----- counting -----

  /** Number of unordered pairs out of n, that is n * (n - 1) / 2. */
  function Pairs(n: nat): nat {
    if n == 0 then 0 else Pairs(n - 1) + n - 1
  }

  lemma {:induction false} PairsIsHalfSquare(n: nat)
    ensures 2 * Pairs(n) == n * (n - 1)
  {
    if n > 0 {
      PairsIsHalfSquare(n - 1);
      assert (n - 1) * (n - 2) + 2 * (n - 1) == n * (n - 1);
    }
  }

  /** Splitting n elements around a nonempty middle pays for one comparison per element but one. */
  lemma {:induction false} PairsSplit(p: nat, mid: nat, q: nat)
    requires mid > 0
    ensures Pairs(p) + Pairs(q) + (p + mid + q - 1) <= Pairs(p + mid + q)
  {
    if p > 0 {
      PairsSplit(p - 1, mid, q);
    } else if q > 0 {
      PairsSplit(p, mid, q - 1);
    } else if mid > 1 {
      PairsSplit(p, mid - 1, q);
    }
  }

  function Pow2(k: nat): nat {
    if k == 0 then 1 else 2 * Pow2(k - 1)
  }
}
