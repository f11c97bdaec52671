/** The four priority chains of interrupt handlers: singly linked lists whose nodes the games provide. */
module IrqChains {
  import opened Memory

  const HANDLER_MAX := 4

  // Word indices inside a node: link, handler, verifier.
  const NODE_WORDS := 3

  /** Following links from head visits exactly ns and ends. */
  ghost predicate Links(w: seq<Word>, head: Word, ns: seq<Word>)
    decreases |ns|
  {
    if ns == [] then head == 0
    else head == ns[0] && head != 0 && WordAt(head) + NODE_WORDS <= |w| && Links(w, w[WordAt(head)], ns[1..])
  }

  /** The four chains, by priority. */
  type Chains = ls: seq<seq<Word>> | |ls| == HANDLER_MAX witness [[], [], [], []]

  /** Two nodes share no word. */
  predicate Separate(a: Word, b: Word) {
    WordAt(a) + NODE_WORDS <= WordAt(b) || WordAt(b) + NODE_WORDS <= WordAt(a)
  }

  /** The table of chain heads at offset handlers. */
  datatype Table = Table(handlers: nat) {
    predicate Fits() {
      handlers % 4 == 0 && G_HANDLERS < handlers && handlers + SIZEOF_HANDLER * HANDLER_MAX <= RAM_SIZE
    }

    function HeadAt(i: nat): nat {
      handlers / 4 + 2 * i
    }

    /** The node lies in memory, away from the table and its pointer. */
    predicate Outside(n: Word) {
      && WordAt(n) + NODE_WORDS <= RAM_SIZE / 4
      && (WordAt(n) + NODE_WORDS <= G_HANDLERS / 4 || G_HANDLERS / 4 < WordAt(n))
      && (WordAt(n) + NODE_WORDS <= HeadAt(0) || HeadAt(HANDLER_MAX) <= WordAt(n))
    }
  }

  ghost predicate Apart(t: Table, ls: Chains) {
    && (forall i, p :: 0 <= i < HANDLER_MAX && 0 <= p < |ls[i]| ==> t.Outside(ls[i][p]))
    && (forall i, p, j, q :: 0 <= i < HANDLER_MAX && 0 <= p < |ls[i]| && 0 <= j < HANDLER_MAX && 0 <= q < |ls[j]| ==>
          (i == j && p == q) || Separate(ls[i][p], ls[j][q]))
  }

  /** Memory holds the chains ls: acyclic, disjoint, one per head. */
  ghost predicate Holds(t: Table, w: seq<Word>, ls: Chains) {
    && t.Fits() && |w| == RAM_SIZE / 4 && w[G_HANDLERS / 4] == KSEG0 + t.handlers
    && (forall i :: 0 <= i < HANDLER_MAX ==> Links(w, w[t.HeadAt(i)], ls[i]))
    && Apart(t, ls)
  }

  /** A node that can be enqueued: not null, and not overlapping what is there. */
  ghost predicate Fresh(t: Table, ls: Chains, n: Word) {
    n != 0 && t.Outside(n) && forall i, p :: 0 <= i < HANDLER_MAX && 0 <= p < |ls[i]| ==> Separate(n, ls[i][p])
  }

  lemma {:induction false} LinksFrame(w: seq<Word>, head: Word, ns: seq<Word>, x: nat, v: Word)
    requires Links(w, head, ns) && x < |w| && forall p :: 0 <= p < |ns| ==> WordAt(ns[p]) != x
    ensures Links(w[x := v], head, ns)
    decreases |ns|
  {
    if ns != [] {
      assert forall p :: 0 <= p < |ns[1..]| ==> ns[1..][p] == ns[p + 1];
      LinksFrame(w, w[WordAt(head)], ns[1..], x, v);
    }
  }

  // ----- enqueue -----

  ghost function Enqueued(ls: Chains, i: nat, n: Word): Chains
    requires i < HANDLER_MAX
  {
    ls[i := [n] + ls[i]]
  }

  ghost function EnqueuedRam(t: Table, w: seq<Word>, i: nat, n: Word): (r: seq<Word>)
    requires t.Fits() && |w| == RAM_SIZE / 4 && i < HANDLER_MAX
    ensures |r| == |w|
  {
    WordInRam(n);
    w[t.HeadAt(i) := n][WordAt(n) := w[t.HeadAt(i)]]
  }

  /** Enqueueing a fresh node puts it in front of its chain and changes no other chain. */
  lemma EnqueueHolds(t: Table, w: seq<Word>, ls: Chains, i: nat, n: Word)
    requires Holds(t, w, ls) && i < HANDLER_MAX && Fresh(t, ls, n)
    ensures Holds(t, EnqueuedRam(t, w, i, n), Enqueued(ls, i, n))
  {
    var w1: seq<Word> := w[t.HeadAt(i) := n];
    var r := EnqueuedRam(t, w, i, n);
    forall j | 0 <= j < HANDLER_MAX ensures Links(r, r[t.HeadAt(j)], Enqueued(ls, i, n)[j]) {
      assert forall p :: 0 <= p < |ls[j]| ==> t.Outside(ls[j][p]) && Separate(n, ls[j][p]);
      LinksFrame(w, w[t.HeadAt(j)], ls[j], t.HeadAt(i), n);
      LinksFrame(w1, w[t.HeadAt(j)], ls[j], WordAt(n), w[t.HeadAt(i)]);
      if j == i {
        assert Enqueued(ls, i, n)[j][1..] == ls[j];
      }
    }
    EnqueueApart(t, ls, i, n);
  }

  lemma EnqueueApart(t: Table, ls: Chains, i: nat, n: Word)
    requires Apart(t, ls) && i < HANDLER_MAX && Fresh(t, ls, n)
    ensures Apart(t, Enqueued(ls, i, n))
  {
    var es := Enqueued(ls, i, n);
    forall j, p | 0 <= j < HANDLER_MAX && 0 <= p < |es[j]| ensures t.Outside(es[j][p]) {
      assert es[j][p] == if j != i then ls[j][p] else if p == 0 then n else ls[i][p - 1];
    }
    forall j, p, k, q | 0 <= j < HANDLER_MAX && 0 <= p < |es[j]| && 0 <= k < HANDLER_MAX && 0 <= q < |es[k]|
      && (j != k || p != q)
      ensures Separate(es[j][p], es[k][q])
    {
      assert es[j][p] == if j != i then ls[j][p] else if p == 0 then n else ls[i][p - 1];
      assert es[k][q] == if k != i then ls[k][q] else if q == 0 then n else ls[i][q - 1];
    }
  }

  /** Enqueueing leaves sound chains, with the node in front of its own, exactly when the node is fresh. */
  lemma EnqueueHoldsIff(t: Table, w: seq<Word>, ls: Chains, i: nat, n: Word)
    requires Holds(t, w, ls) && i < HANDLER_MAX
    ensures Holds(t, EnqueuedRam(t, w, i, n), Enqueued(ls, i, n)) <==> Fresh(t, ls, n)
  {
    var r, es := EnqueuedRam(t, w, i, n), Enqueued(ls, i, n);
    if Fresh(t, ls, n) {
      EnqueueHolds(t, w, ls, i, n);
    }
    if Holds(t, r, es) {
      assert es[i][0] == n && Links(r, r[t.HeadAt(i)], es[i]);
      forall j, p | 0 <= j < HANDLER_MAX && 0 <= p < |ls[j]| ensures Separate(n, ls[j][p]) {
        assert ls[j][p] == es[j][if j == i then p + 1 else p];
        assert Separate(es[i][0], es[j][if j == i then p + 1 else p]);
      }
    }
  }

  /** Following links from head comes to an end. */
  ghost predicate Ends(w: seq<Word>, head: Word) {
    exists ns :: Links(w, head, ns)
  }

  /** Following links from head through the nodes ns arrives at to. */
  ghost predicate Leads(w: seq<Word>, head: Word, ns: seq<Word>, to: Word)
    decreases |ns|
  {
    if ns == [] then head == to
    else head == ns[0] && head != 0 && WordAt(head) < |w| && Leads(w, w[WordAt(head)], ns[1..], to)
  }

  lemma {:induction false} LeadsOn(w: seq<Word>, head: Word, ns: seq<Word>, to: Word, ms: seq<Word>)
    requires Leads(w, head, ns, to) && Links(w, head, ms)
    ensures |ns| <= |ms| && Links(w, to, ms[|ns|..])
    decreases |ns|
  {
    if ns == [] {
      assert ms[0..] == ms;
    } else {
      LeadsOn(w, w[WordAt(head)], ns[1..], to, ms[1..]);
      assert ms[1..][|ns| - 1..] == ms[|ns|..];
    }
  }

  lemma {:induction false} CycleNeverEnds(w: seq<Word>, head: Word, ns: seq<Word>, ms: seq<Word>)
    requires ns != [] && Leads(w, head, ns, head)
    ensures !Links(w, head, ms)
    decreases |ms|
  {
    if Links(w, head, ms) {
      LeadsOn(w, head, ns, head, ms);
      CycleNeverEnds(w, head, ns, ms[|ns|..]);
    }
  }

  /** Writing the link of node p leads from the head, through that node, to what is written. */
  lemma {:induction false} LinksLead(w: seq<Word>, head: Word, ns: seq<Word>, p: nat, v: Word)
    requires Links(w, head, ns) && p < |ns| && WordAt(ns[p]) < |w|
    requires forall k :: 0 <= k < |ns| && k != p ==> WordAt(ns[k]) != WordAt(ns[p])
    ensures Leads(w[WordAt(ns[p]) := v], head, ns[..p + 1], v)
    decreases |ns|
  {
    assert ns[..p + 1][1..] == ns[1..p + 1];
    if p == 0 {
      assert ns[1..1] == [];
    } else {
      assert ns[1..][..p] == ns[1..p + 1];
      assert forall k :: 0 <= k < |ns[1..]| ==> ns[1..][k] == ns[k + 1];
      LinksLead(w, w[WordAt(head)], ns[1..], p - 1, v);
    }
  }

  /** Whatever node is enqueued, all chains still end exactly when no node of its own chain has its link word. */
  lemma EnqueueEndsIff(t: Table, w: seq<Word>, ls: Chains, i: nat, n: Word)
    requires Holds(t, w, ls) && i < HANDLER_MAX && n != 0 && t.Outside(n)
    ensures var r := EnqueuedRam(t, w, i, n);
            (forall j :: 0 <= j < HANDLER_MAX ==> Ends(r, r[t.HeadAt(j)])) <==>
            (forall p :: 0 <= p < |ls[i]| ==> WordAt(ls[i][p]) != WordAt(n))
  {
    var r := EnqueuedRam(t, w, i, n);
    if forall p :: 0 <= p < |ls[i]| ==> WordAt(ls[i][p]) != WordAt(n) {
      forall j | 0 <= j < HANDLER_MAX ensures Ends(r, r[t.HeadAt(j)]) {
        EnqueuedEnds(t, w, ls, i, n, j);
      }
    } else {
      var p :| 0 <= p < |ls[i]| && WordAt(ls[i][p]) == WordAt(n);
      EnqueuedCycle(t, w, ls, i, n, p);
      assert !Ends(r, r[t.HeadAt(i)]);
    }
  }

  lemma EnqueuedEnds(t: Table, w: seq<Word>, ls: Chains, i: nat, n: Word, j: nat)
    requires Holds(t, w, ls) && i < HANDLER_MAX && n != 0 && t.Outside(n) && j < HANDLER_MAX
    requires forall p :: 0 <= p < |ls[i]| ==> WordAt(ls[i][p]) != WordAt(n)
    ensures var r := EnqueuedRam(t, w, i, n); Ends(r, r[t.HeadAt(j)])
  {
    hide WordAt;
    var r, v := EnqueuedRam(t, w, i, n), w[t.HeadAt(i)];
    var w1: seq<Word> := w[t.HeadAt(i) := n];
    assert forall k, p :: 0 <= k < HANDLER_MAX && 0 <= p < |ls[k]| ==> t.Outside(ls[k][p]);
    LinksFrame(w, v, ls[i], t.HeadAt(i), n);
    LinksFrame(w1, v, ls[i], WordAt(n), v);
    if j == i {
      assert ([n] + ls[i])[1..] == ls[i];
      assert Links(r, n, [n] + ls[i]);
    } else {
      LinksFrame(w, w[t.HeadAt(j)], ls[j], t.HeadAt(i), n);
      if p :| 0 <= p < |ls[j]| && WordAt(ls[j][p]) == WordAt(n) {
        assert forall k :: 0 <= k < |ls[j]| && k != p ==> Separate(ls[j][k], ls[j][p]);
        LinksJoin(w1, w1[t.HeadAt(j)], ls[j], p, v, ls[i]);
      } else {
        LinksFrame(w1, w1[t.HeadAt(j)], ls[j], WordAt(n), v);
      }
    }
  }

  lemma EnqueuedCycle(t: Table, w: seq<Word>, ls: Chains, i: nat, n: Word, p: nat)
    requires Holds(t, w, ls) && i < HANDLER_MAX && n != 0 && t.Outside(n)
    requires p < |ls[i]| && WordAt(ls[i][p]) == WordAt(n)
    ensures var r := EnqueuedRam(t, w, i, n); !Ends(r, r[t.HeadAt(i)])
  {
    var r, v := EnqueuedRam(t, w, i, n), w[t.HeadAt(i)];
    var w1: seq<Word> := w[t.HeadAt(i) := n];
    assert forall k :: 0 <= k < |ls[i]| ==> t.Outside(ls[i][k]);
    assert forall k :: 0 <= k < |ls[i]| && k != p ==> Separate(ls[i][k], ls[i][p]);
    LinksFrame(w, v, ls[i], t.HeadAt(i), n);
    LinksLead(w1, v, ls[i], p, v);
    forall ms ensures !Links(r, n, ms) {
      if Links(r, n, ms) {
        CycleNeverEnds(r, v, ls[i][..p + 1], ms[1..]);
      }
    }
  }

  // ----- dequeue -----

  /** Index of the node in the chain, or the chain's length. */
  function IndexOf(ns: seq<Word>, n: Word): (p: nat)
    ensures p <= |ns| && (p < |ns| <==> n in ns)
    ensures p < |ns| ==> ns[p] == n
    ensures forall k :: 0 <= k < p ==> ns[k] != n
  {
    if ns == [] || ns[0] == n then 0 else 1 + IndexOf(ns[1..], n)
  }

  lemma IndexIs(ns: seq<Word>, n: Word, p: nat)
    requires p <= |ns| && forall k :: 0 <= k < p ==> ns[k] != n
    ensures p == |ns| || ns[p] == n ==> IndexOf(ns, n) == p
  {
  }

  function Without(ns: seq<Word>, n: Word): seq<Word> {
    var p := IndexOf(ns, n);
    if p == |ns| then ns else ns[..p] + ns[p + 1..]
  }

  ghost function Dequeued(ls: Chains, i: nat, n: Word): Chains
    requires i < HANDLER_MAX
  {
    ls[i := Without(ls[i], n)]
  }

  /** The word that points to node p of chain i. */
  ghost function PointerTo(t: Table, ls: Chains, i: nat, p: nat): nat
    requires i < HANDLER_MAX && p <= |ls[i]|
  {
    if p == 0 then t.HeadAt(i) else WordAt(ls[i][p - 1])
  }

  ghost function DequeuedRam(t: Table, w: seq<Word>, ls: Chains, i: nat, n: Word): (r: seq<Word>)
    requires t.Fits() && |w| == RAM_SIZE / 4 && i < HANDLER_MAX
    ensures |r| == |w|
  {
    var p := IndexOf(ls[i], n);
    if p == |ls[i]| then w
    else
      WordInRam(n);
      WordInRam(if p == 0 then 0 else ls[i][p - 1]);
      w[PointerTo(t, ls, i, p) := w[WordAt(n)]]
  }

  lemma PointerInRam(t: Table, w: seq<Word>, ls: Chains, i: nat, p: nat)
    requires i < HANDLER_MAX && Holds(t, w, ls) && p <= |ls[i]|
    ensures PointerTo(t, ls, i, p) < |w| && (p < |ls[i]| ==> WordAt(ls[i][p]) + NODE_WORDS <= |w|)
  {
    if p > 0 {
      assert t.Outside(ls[i][p - 1]);
    }
    if p < |ls[i]| {
      assert t.Outside(ls[i][p]);
    }
  }

  lemma {:induction false} LinksAt(w: seq<Word>, head: Word, ns: seq<Word>, p: nat)
    requires Links(w, head, ns) && p < |ns|
    ensures ns[p] != 0 && WordAt(ns[p]) + NODE_WORDS <= |w|
    ensures w[WordAt(ns[p])] == if p + 1 < |ns| then ns[p + 1] else 0
    ensures Links(w, ns[p], ns[p..]) && Links(w, w[WordAt(ns[p])], ns[p + 1..])
    decreases |ns|
  {
    if p > 0 {
      LinksAt(w, w[WordAt(head)], ns[1..], p - 1);
      assert ns[1..][p - 1..] == ns[p..] && ns[1..][p..] == ns[p + 1..];
    } else {
      assert ns[0..] == ns;
    }
  }

  lemma LinksHead(w: seq<Word>, head: Word, ns: seq<Word>)
    requires Links(w, head, ns)
    ensures head == if ns == [] then 0 else ns[0]
    ensures head == 0 <==> ns == []
  {
  }

  /** Writing the link of node p joins what is before it to another chain. */
  lemma {:induction false} LinksJoin(w: seq<Word>, head: Word, ns: seq<Word>, p: nat, v: Word, ms: seq<Word>)
    requires Links(w, head, ns) && p < |ns| && Links(w, v, ms)
    requires forall k :: 0 <= k < |ns| && k != p ==> WordAt(ns[k]) != WordAt(ns[p])
    requires forall k :: 0 <= k < |ms| ==> WordAt(ms[k]) != WordAt(ns[p])
    requires WordAt(ns[p]) < |w|
    ensures Links(w[WordAt(ns[p]) := v], head, ns[..p + 1] + ms)
    decreases |ns|
  {
    var r: seq<Word> := w[WordAt(ns[p]) := v];
    assert (ns[..p + 1] + ms)[1..] == ns[1..p + 1] + ms;
    if p == 0 {
      LinksFrame(w, v, ms, WordAt(ns[0]), v);
      assert ns[1..1] + ms == ms;
    } else {
      assert ns[1..][..p] == ns[1..p + 1];
      assert forall k :: 0 <= k < |ns[1..]| ==> ns[1..][k] == ns[k + 1];
      LinksJoin(w, w[WordAt(head)], ns[1..], p - 1, v, ms);
    }
  }

  lemma DequeueApart(t: Table, ls: Chains, i: nat, n: Word)
    requires Apart(t, ls) && i < HANDLER_MAX
    ensures Apart(t, Dequeued(ls, i, n))
  {
    var ds, m := Dequeued(ls, i, n), IndexOf(ls[i], n);
    forall j, p | 0 <= j < HANDLER_MAX && 0 <= p < |ds[j]| ensures t.Outside(ds[j][p]) {
      assert ds[j][p] == if j != i || p < m then ls[j][p] else ls[i][p + 1];
    }
    forall j, p, k, q | 0 <= j < HANDLER_MAX && 0 <= p < |ds[j]| && 0 <= k < HANDLER_MAX && 0 <= q < |ds[k]|
      && (j != k || p != q)
      ensures Separate(ds[j][p], ds[k][q])
    {
      assert ds[j][p] == if j != i || p < m then ls[j][p] else ls[i][p + 1];
      assert ds[k][q] == if k != i || q < m then ls[k][q] else ls[i][q + 1];
    }
  }

  /** Dequeueing takes exactly that node out of its chain, or changes nothing, and leaves every other chain. */
  lemma DequeueHolds(t: Table, w: seq<Word>, ls: Chains, i: nat, n: Word)
    requires Holds(t, w, ls) && i < HANDLER_MAX
    ensures Holds(t, DequeuedRam(t, w, ls, i, n), Dequeued(ls, i, n))
  {
    hide WordAt;
    var p := IndexOf(ls[i], n);
    DequeueApart(t, ls, i, n);
    if p == |ls[i]| {
      assert Dequeued(ls, i, n) == ls;
    } else {
      var x, v := PointerTo(t, ls, i, p), w[WordAt(n)];
      PointerInRam(t, w, ls, i, p);
      var r: seq<Word> := w[x := v];
      LinksAt(w, w[t.HeadAt(i)], ls[i], p);
      forall j | 0 <= j < HANDLER_MAX ensures Links(r, r[t.HeadAt(j)], Dequeued(ls, i, n)[j]) {
        PointerSeparate(t, ls, i, p, j);
        if j != i {
          LinksFrame(w, w[t.HeadAt(j)], ls[j], x, v);
        } else if p == 0 {
          LinksFrame(w, v, ls[i][1..], x, v);
          assert Dequeued(ls, i, n)[i] == ls[i][1..];
        } else {
          LinksJoin(w, w[t.HeadAt(i)], ls[i], p - 1, v, ls[i][p + 1..]);
        }
      }
    }
  }

  lemma PointerSeparate(t: Table, ls: Chains, i: nat, p: nat, j: nat)
    requires t.Fits() && Apart(t, ls) && i < HANDLER_MAX && j < HANDLER_MAX && p < |ls[i]|
    ensures PointerTo(t, ls, i, p) != G_HANDLERS / 4
    ensures j != i ==> PointerTo(t, ls, i, p) != t.HeadAt(j)
    ensures p > 0 ==> PointerTo(t, ls, i, p) != t.HeadAt(i)
    ensures forall k :: 0 <= k < |ls[j]| && (j != i || k != p - 1) ==> WordAt(ls[j][k]) != PointerTo(t, ls, i, p)
  {
    if p > 0 {
      assert t.Outside(ls[i][p - 1]);
    }
    forall k | 0 <= k < |ls[j]| && (j != i || k != p - 1) ensures WordAt(ls[j][k]) != PointerTo(t, ls, i, p) {
      assert t.Outside(ls[j][k]);
      assert p > 0 ==> Separate(ls[j][k], ls[i][p - 1]);
    }
  }

  /** Taking a node out right after putting it in restores the chains, and every word but the node's link. */
  lemma EnqueueDequeue(t: Table, w: seq<Word>, ls: Chains, i: nat, n: Word)
    requires Holds(t, w, ls) && i < HANDLER_MAX && Fresh(t, ls, n)
    ensures var w1, ls1 := EnqueuedRam(t, w, i, n), Enqueued(ls, i, n);
            && Holds(t, w1, ls1) && Dequeued(ls1, i, n) == ls
            && DequeuedRam(t, w1, ls1, i, n) == w[WordAt(n) := w[t.HeadAt(i)]]
  {
    hide WordAt, Links, Apart, Table.HeadAt, Table.Outside, Table.Fits;
    EnqueueHolds(t, w, ls, i, n);
    NodeNotHead(t, i, n);
    WordInRam(n);
    var ls1, x := Enqueued(ls, i, n), WordAt(n);
    assert ls1[i][0] == n && IndexOf(ls1[i], n) == 0;
    assert ls1[i][1..] == ls[i];
    assert Without(ls1[i], n) == ls[i];
    UpdatedBack(w, t.HeadAt(i), x, n);
  }

  lemma NodeNotHead(t: Table, i: nat, n: Word)
    requires t.Fits() && i < HANDLER_MAX && t.Outside(n)
    ensures WordAt(n) != t.HeadAt(i) && t.HeadAt(i) < RAM_SIZE / 4
  {
  }

  lemma UpdatedBack(w: seq<Word>, h: nat, x: nat, n: Word)
    requires h < |w| && x < |w| && h != x
    ensures w[h := n][x := w[h]][h := w[h]] == w[x := w[h]]
  {
  }

  /** Memory after a dequeue of the null node from the chain ns. */
  ghost function NullDequeuedRam(w: seq<Word>, ns: seq<Word>): (r: seq<Word>)
    requires |w| == RAM_SIZE / 4
    ensures |r| == |w|
  {
    if ns == [] then w else WordInRam(ns[|ns| - 1]); w[WordAt(ns[|ns| - 1]) := w[0]]
  }

  /** A dequeue leaves memory as it should, and the chains sound, exactly when the node is not null, or the chain is
      empty, or the word at address zero is zero. */
  lemma NullDequeueHoldsIff(t: Table, w: seq<Word>, ls: Chains, i: nat)
    requires Holds(t, w, ls) && i < HANDLER_MAX
    ensures var r := NullDequeuedRam(w, ls[i]);
            && (r == DequeuedRam(t, w, ls, i, 0) <==> ls[i] == [] || w[0] == 0)
            && (Holds(t, r, ls) <==> ls[i] == [] || w[0] == 0)
  {
    var ns, r := ls[i], NullDequeuedRam(w, ls[i]);
    NoNullNode(w, w[t.HeadAt(i)], ns);
    if ns != [] {
      var last := |ns| - 1;
      LinksAt(w, w[t.HeadAt(i)], ns, last);
      assert w[0] == 0 ==> r == w;
      assert t.Outside(ns[last]);
      NodeNotHead(t, i, ns[last]);
      if Holds(t, r, ls) {
        LinksAt(r, r[t.HeadAt(i)], ns, last);
      }
    }
  }

  lemma {:induction false} NoNullNode(w: seq<Word>, head: Word, ns: seq<Word>)
    requires Links(w, head, ns)
    ensures 0 !in ns && IndexOf(ns, 0) == |ns| && Without(ns, 0) == ns
    decreases |ns|
  {
    if ns != [] {
      NoNullNode(w, w[WordAt(head)], ns[1..]);
      assert ns == [ns[0]] + ns[1..];
    }
  }

  /** For instance, with the table at 0x200, one node at 0x8000 in chain 0 and a one at address zero, dequeueing the
      null node leaves a chain that no longer ends at its node. */
  lemma NullDequeueDamages()
    ensures var t, n := Table(0x200), KSEG0 + 0x8000;
            var w: seq<Word> := seq(RAM_SIZE / 4, k => if k == 0 then 1 else if k == 0x40 then KSEG0 + 0x200 else if k == 0x80 then n else 0);
            && Holds(t, w, [[n], [], [], []])
            && NullDequeuedRam(w, [n])[WordAt(n)] == 1 && !Holds(t, NullDequeuedRam(w, [n]), [[n], [], [], []])
  {
    var t, n: Word := Table(0x200), KSEG0 + 0x8000;
    var w: seq<Word> := seq(RAM_SIZE / 4, k => if k == 0 then 1 else if k == 0x40 then KSEG0 + 0x200 else if k == 0x80 then n else 0);
    var ls: Chains := [[n], [], [], []];
    assert WordAt(n) == 0x2000;
    assert [n][1..] == [] && Links(w, w[WordAt(n)], []);
    assert Links(w, n, [n]);
    assert Holds(t, w, ls);
    NullDequeueHoldsIff(t, w, ls, 0);
  }
}
