/** The walk over the chains when an interrupt is taken, on values: its callbacks may enqueue and dequeue nodes,
    the ones still to be visited included. */
module IrqWalk {
  import opened IrqChains
  import opened Memory

  // ----- where the walk stands -----

  /** A call a verifier or handler makes. */
  datatype Action = Enq(i: nat, n: Word) | Deq(i: nat, n: Word)

  /** What the callbacks of one node do: the verifier's result, and the calls of the verifier and the handler. */
  datatype Reaction = Reaction(verdict: Word, verifier: seq<Action>, handler: seq<Action>)

  /** Memory, the chains in it, and the nodes the walk still comes to: first the loose ones, which were taken out of
      the chains when the walk held the link to them already, and then rest, the end of chain at. */
  datatype Scene = Scene(ram: seq<Word>, ls: Chains, at: nat, loose: seq<Word>, rest: seq<Word>) {
    ghost function Path(): seq<Word> {
      loose + rest
    }

    /** The link the walk holds. */
    ghost function Head(): Word {
      if Path() == [] then 0 else Path()[0]
    }

    /** The next node is reached, and its link read. */
    ghost function Popped(): (p: Scene)
      requires Path() != []
      ensures p.Path() == Path()[1..] && p.ram == ram && p.ls == ls && p.at == at
    {
      if loose != [] then
        assert loose[1..] + rest == (loose + rest)[1..];
        this.(loose := loose[1..])
      else
        assert loose + rest[1..] == (loose + rest)[1..];
        this.(rest := rest[1..])
    }
  }

  ghost predicate Suffix(ns: seq<Word>, rest: seq<Word>) {
    |rest| <= |ns| && ns[|ns| - |rest|..] == rest
  }

  /** The loose nodes lie in memory, apart from each other and from the chains. */
  ghost predicate LooseApart(t: Table, ls: Chains, loose: seq<Word>) {
    && (forall k :: 0 <= k < |loose| ==> t.Outside(loose[k]))
    && (forall k, m :: 0 <= k < m < |loose| ==> Separate(loose[k], loose[m]))
    && (forall k, i, p :: 0 <= k < |loose| && 0 <= i < HANDLER_MAX && 0 <= p < |ls[i]| ==> Separate(loose[k], ls[i][p]))
  }

  ghost predicate Sound(t: Table, s: Scene) {
    && Holds(t, s.ram, s.ls) && s.at < HANDLER_MAX && Suffix(s.ls[s.at], s.rest)
    && LooseApart(t, s.ls, s.loose) && Links(s.ram, s.Head(), s.Path())
  }

  // ----- what callbacks may do -----

  /** Any node can be dequeued, and any node enqueued that is in no chain; it may overlap no other node. */
  ghost predicate Legal(t: Table, s: Scene, a: Action) {
    match a
    case Enq(i, n) =>
      i < HANDLER_MAX && Fresh(t, s.ls, n) && forall k :: 0 <= k < |s.loose| ==> s.loose[k] == n || Separate(n, s.loose[k])
    case Deq(i, n) => i < HANDLER_MAX && n != 0
  }

  /** Where the walk stands after a call. Enqueueing a loose node links it to the old front of a chain: the walk will
      go through that whole chain once it comes to the node. */
  ghost function Acted(t: Table, s: Scene, a: Action): (r: Scene)
    requires t.Fits() && |s.ram| == RAM_SIZE / 4
    ensures |r.ram| == |s.ram|
  {
    if a.i >= HANDLER_MAX then s
    else
      match a
      case Enq(i, n) =>
        var r := s.(ram := EnqueuedRam(t, s.ram, i, n), ls := Enqueued(s.ls, i, n));
        if n in s.loose then r.(at := i, loose := s.loose[..IndexOf(s.loose, n)], rest := r.ls[i]) else r
      case Deq(i, n) =>
        var r := s.(ram := DequeuedRam(t, s.ram, s.ls, i, n), ls := Dequeued(s.ls, i, n));
        if i != s.at || n !in s.rest then r
        else if n == s.rest[0] then r.(loose := s.loose + [n], rest := s.rest[1..])
        else r.(rest := Without(s.rest, n))
  }

  ghost predicate LegalAll(t: Table, s: Scene, acts: seq<Action>)
    requires t.Fits() && |s.ram| == RAM_SIZE / 4
    decreases |acts|
  {
    acts == [] || (Legal(t, s, acts[0]) && LegalAll(t, Acted(t, s, acts[0]), acts[1..]))
  }

  ghost function ActedAll(t: Table, s: Scene, acts: seq<Action>): (r: Scene)
    requires t.Fits() && |s.ram| == RAM_SIZE / 4
    ensures |r.ram| == |s.ram|
    decreases |acts|
  {
    if acts == [] then s else ActedAll(t, Acted(t, s, acts[0]), acts[1..])
  }

  // ----- the walk -----

  /** The reaction of the next node that has a verifier; once the list is used up, callbacks do nothing. */
  function Next(env: seq<Reaction>): Reaction {
    if env == [] then Reaction(0, [], []) else env[0]
  }

  function Later(env: seq<Reaction>): seq<Reaction> {
    if env == [] then [] else env[1..]
  }

  /** The calls made for one node: the handler's only if the verifier's result is not zero. */
  function Made(r: Reaction): seq<Action> {
    r.verifier + if r.verdict != 0 then r.handler else []
  }

  function HandlerOf(w: seq<Word>, n: Word): Word {
    if WordAt(n) + NODE_WORDS <= |w| then w[WordAt(n) + 1] else 0
  }

  function VerifierOf(w: seq<Word>, n: Word): Word {
    if WordAt(n) + NODE_WORDS <= |w| then w[WordAt(n) + 2] else 0
  }

  /** A call a callback makes, and where the walk stands then. */
  datatype Called = Called(scene: Scene, action: Action)

  /** The nodes visited, the handlers run with their arguments, the calls made, and what is left at the end. */
  datatype Trace = Trace(visited: seq<Word>, handled: seq<(Word, Word)>, calls: seq<Called>,
                         end: Scene, env: seq<Reaction>)

  ghost function CalledAll(t: Table, s: Scene, acts: seq<Action>): (r: seq<Called>)
    requires t.Fits() && |s.ram| == RAM_SIZE / 4
    decreases |acts|
  {
    if acts == [] then [] else [Called(s, acts[0])] + CalledAll(t, Acted(t, s, acts[0]), acts[1..])
  }

  /** The handler runs if the verifier's result is not zero, with that result. */
  function Answer(handler: Word, r: Reaction): seq<(Word, Word)> {
    if r.verdict == 0 then [] else [(handler, r.verdict)]
  }

  ghost function Then(visited: seq<Word>, handled: seq<(Word, Word)>, calls: seq<Called>, tr: Trace): Trace {
    tr.(visited := visited + tr.visited, handled := handled + tr.handled, calls := calls + tr.calls)
  }

  /** One round: the next node is reached, its link read, and its callbacks make their calls. */
  ghost function Round(t: Table, s: Scene, r: Reaction): (q: Scene)
    requires t.Fits() && |s.ram| == RAM_SIZE / 4
    ensures |q.ram| == |s.ram|
  {
    if s.Path() == [] then s
    else if VerifierOf(s.ram, s.Path()[0]) == 0 then s.Popped()
    else ActedAll(t, s.Popped(), Made(r))
  }

  /** The walk from s to the end of the links. */
  ghost function Walked(t: Table, s: Scene, env: seq<Reaction>): (tr: Trace)
    requires t.Fits() && |s.ram| == RAM_SIZE / 4
    ensures |tr.end.ram| == |s.ram|
    decreases |env|, |s.Path()|
  {
    if s.Path() == [] then Trace([], [], [], s, env)
    else
      var n, p := s.Path()[0], s.Popped();
      if VerifierOf(s.ram, n) == 0 then Then([n], [], [], Walked(t, p, env))
      else
        var r := Next(env);
        Then([n], Answer(HandlerOf(s.ram, n), r), CalledAll(t, p, Made(r)),
             Walked(t, ActedAll(t, p, Made(r)), Later(env)))
  }

  ghost predicate LegalWalk(t: Table, s: Scene, env: seq<Reaction>)
    requires t.Fits() && |s.ram| == RAM_SIZE / 4
    decreases |env|, |s.Path()|
  {
    if s.Path() == [] then true
    else
      var n, p := s.Path()[0], s.Popped();
      if VerifierOf(s.ram, n) == 0 then LegalWalk(t, p, env)
      else
        var acts := Made(Next(env));
        LegalAll(t, p, acts) && LegalWalk(t, ActedAll(t, p, acts), Later(env))
  }

  /** The walk at the start of chain i. */
  ghost function Begun(w: seq<Word>, ls: Chains, i: nat): Scene
    requires i <= HANDLER_MAX
  {
    Scene(w, ls, i, [], if i < HANDLER_MAX then ls[i] else [])
  }

  /** The walks of chain i and the later ones. */
  ghost function Dispatched(t: Table, w: seq<Word>, ls: Chains, i: nat, env: seq<Reaction>): (tr: Trace)
    requires t.Fits() && |w| == RAM_SIZE / 4 && i <= HANDLER_MAX
    ensures |tr.end.ram| == |w|
    decreases HANDLER_MAX - i
  {
    if i == HANDLER_MAX then Trace([], [], [], Begun(w, ls, i), env)
    else
      var tr := Walked(t, Begun(w, ls, i), env);
      Then(tr.visited, tr.handled, tr.calls, Dispatched(t, tr.end.ram, tr.end.ls, i + 1, tr.env))
  }

  ghost predicate LegalDispatch(t: Table, w: seq<Word>, ls: Chains, i: nat, env: seq<Reaction>)
    requires t.Fits() && |w| == RAM_SIZE / 4 && i <= HANDLER_MAX
    decreases HANDLER_MAX - i
  {
    i == HANDLER_MAX ||
    (var s := Begun(w, ls, i);
     var tr := Walked(t, s, env);
     LegalWalk(t, s, env) && LegalDispatch(t, tr.end.ram, tr.end.ls, i + 1, tr.env))
  }

  /** The walk of chain i, and then the others. */
  lemma DispatchedNext(t: Table, w: seq<Word>, ls: Chains, i: nat, env: seq<Reaction>)
    requires t.Fits() && |w| == RAM_SIZE / 4 && i < HANDLER_MAX && LegalDispatch(t, w, ls, i, env)
    ensures LegalWalk(t, Begun(w, ls, i), env)
    ensures var tr := Walked(t, Begun(w, ls, i), env);
            && LegalDispatch(t, tr.end.ram, tr.end.ls, i + 1, tr.env)
            && Dispatched(t, w, ls, i, env) ==
               Then(tr.visited, tr.handled, tr.calls, Dispatched(t, tr.end.ram, tr.end.ls, i + 1, tr.env))
  {
  }


  // ----- every legal call keeps the walk sound -----

  lemma IndexConcat(a: seq<Word>, b: seq<Word>, n: Word)
    ensures IndexOf(a + b, n) == if n in a then IndexOf(a, n) else |a| + IndexOf(b, n)
  {
    var p := if n in a then IndexOf(a, n) else |a| + IndexOf(b, n);
    assert forall k :: 0 <= k < p ==> (a + b)[k] != n;
    IndexIs(a + b, n, p);
  }

  lemma WithoutConcat(a: seq<Word>, b: seq<Word>, n: Word)
    ensures n in a ==> Without(a + b, n) == Without(a, n) + b
    ensures n !in a ==> Without(a + b, n) == a + Without(b, n)
  {
    IndexConcat(a, b, n);
    hide IndexOf;
    var p := IndexOf(a + b, n);
    if n in a {
      assert (a + b)[..p] + (a + b)[p + 1..] == (a[..p] + a[p + 1..]) + b;
    } else if n in b {
      var q := IndexOf(b, n);
      assert (a + b)[..p] + (a + b)[p + 1..] == a + (b[..q] + b[q + 1..]);
    }
  }

  lemma WithoutSuffix(ns: seq<Word>, rest: seq<Word>, n: Word)
    requires Suffix(ns, rest) && forall k, m :: 0 <= k < m < |ns| ==> ns[k] != ns[m]
    ensures n !in rest ==> Suffix(Without(ns, n), rest)
    ensures n in rest ==> Suffix(Without(ns, n), Without(rest, n)) && IndexOf(ns, n) == |ns| - |rest| + IndexOf(rest, n)
  {
    var gone := ns[..|ns| - |rest|];
    assert ns == gone + rest;
    IndexConcat(gone, rest, n);
    WithoutConcat(gone, rest, n);
    hide IndexOf;
    if n in rest {
      assert rest[IndexOf(rest, n)] == ns[|gone| + IndexOf(rest, n)];
      assert n !in gone;
    } else if n !in gone {
      assert Without(rest, n) == rest;
    }
  }

  /** Two nodes of the chains are the same only if they are in the same place. */
  lemma Distinct(t: Table, ls: Chains, i: nat, p: nat, j: nat, q: nat)
    requires Apart(t, ls) && i < HANDLER_MAX && j < HANDLER_MAX && p < |ls[i]| && q < |ls[j]| && ls[i][p] == ls[j][q]
    ensures i == j && p == q
  {
    assert (i == j && p == q) || Separate(ls[i][p], ls[j][q]);
  }

  lemma AloneInChain(t: Table, ls: Chains, i: nat)
    requires Apart(t, ls) && i < HANDLER_MAX
    ensures forall k, m :: 0 <= k < m < |ls[i]| ==> ls[i][k] != ls[i][m]
  {
    forall k, m | 0 <= k < m < |ls[i]| ensures ls[i][k] != ls[i][m] {
      if ls[i][k] == ls[i][m] {
        Distinct(t, ls, i, k, i, m);
      }
    }
  }

  /** The nodes of the path are apart, and away from the table and its pointer. */
  lemma PathApart(t: Table, s: Scene)
    requires Sound(t, s)
    ensures forall k :: 0 <= k < |s.Path()| ==> t.Outside(s.Path()[k])
    ensures forall k, m :: 0 <= k < m < |s.Path()| ==> Separate(s.Path()[k], s.Path()[m])
    ensures forall k :: 0 <= k < |s.rest| ==> s.rest[k] == s.ls[s.at][|s.ls[s.at]| - |s.rest| + k]
  {
    hide WordAt, Links;
    var ns, gone, d := s.ls[s.at], |s.ls[s.at]| - |s.rest|, |s.loose|;
    assert forall k :: 0 <= k < |s.rest| ==> s.rest[k] == ns[gone + k];
    forall k, m | 0 <= k < m < |s.Path()| ensures Separate(s.Path()[k], s.Path()[m]) {
      if k < d <= m {
        assert Separate(s.loose[k], ns[gone + m - d]);
      } else if d <= k {
        assert Separate(ns[gone + k - d], ns[gone + m - d]);
      }
    }
  }

  lemma EnqSound(t: Table, s: Scene, i: nat, n: Word)
    requires Sound(t, s) && Legal(t, s, Enq(i, n)) && n !in s.loose
    ensures Sound(t, Acted(t, s, Enq(i, n)))
  {
    hide WordAt, Links, Apart, LooseApart;
    assert t.Fits() && |s.ram| == RAM_SIZE / 4;
    EnqueueHolds(t, s.ram, s.ls, i, n);
    EnqFrame(t, s, i, n);
    EnqLooseApart(t, s, i, n);
    assert Suffix(Enqueued(s.ls, i, n)[s.at], s.rest);
  }

  lemma EnqFrame(t: Table, s: Scene, i: nat, n: Word)
    requires Sound(t, s) && Legal(t, s, Enq(i, n)) && n !in s.loose
    ensures t.Fits() && |s.ram| == RAM_SIZE / 4 && Links(EnqueuedRam(t, s.ram, i, n), s.Head(), s.Path())
  {
    hide WordAt, Links, Apart, LooseApart;
    var w1: seq<Word> := s.ram[t.HeadAt(i) := n];
    PathApart(t, s);
    EnqPath(t, s, i, n);
    assert forall k :: 0 <= k < |s.Path()| ==> s.Path()[k] in s.Path();
    assert forall x :: x in s.Path() ==> x in s.loose || x in s.rest;
    WordInRam(n);
    LinksFrame(s.ram, s.Head(), s.Path(), t.HeadAt(i), n);
    LinksFrame(w1, s.Head(), s.Path(), WordAt(n), s.ram[t.HeadAt(i)]);
  }

  lemma EnqLooseApart(t: Table, s: Scene, i: nat, n: Word)
    requires LooseApart(t, s.ls, s.loose) && Legal(t, s, Enq(i, n)) && n !in s.loose
    ensures LooseApart(t, Enqueued(s.ls, i, n), s.loose)
  {
    hide WordAt;
    var es := Enqueued(s.ls, i, n);
    forall k, j, p | 0 <= k < |s.loose| && 0 <= j < HANDLER_MAX && 0 <= p < |es[j]| ensures Separate(s.loose[k], es[j][p]) {
      assert es[j][p] == if j != i then s.ls[j][p] else if p == 0 then n else s.ls[i][p - 1];
      assert s.loose[k] in s.loose;
    }
  }

  /** A fresh node is apart from the path, but for the loose node that it is. */
  lemma EnqPath(t: Table, s: Scene, i: nat, n: Word)
    requires Sound(t, s) && Legal(t, s, Enq(i, n))
    ensures forall k :: 0 <= k < |s.Path()| ==> s.Path()[k] == n || Separate(n, s.Path()[k])
    ensures forall k :: 0 <= k < |s.rest| ==> s.rest[k] != n
  {
    hide WordAt, Links;
    PathApart(t, s);
    forall k | 0 <= k < |s.rest| ensures Separate(n, s.rest[k]) {
      assert Separate(n, s.ls[s.at][|s.ls[s.at]| - |s.rest| + k]);
    }
  }

  /** Enqueueing a loose node sends the walk through the whole chain it is put in front of. */
  lemma EnqLooseSound(t: Table, s: Scene, i: nat, n: Word)
    requires Sound(t, s) && Legal(t, s, Enq(i, n)) && n in s.loose
    ensures Sound(t, Acted(t, s, Enq(i, n)))
  {
    hide WordAt, Links, Apart, LooseApart;
    assert t.Fits() && |s.ram| == RAM_SIZE / 4;
    EnqueueHolds(t, s.ram, s.ls, i, n);
    EnqLooseFrame(t, s, i, n);
    LooseKept(t, s, i, n, IndexOf(s.loose, n));
  }

  lemma EnqLooseFrame(t: Table, s: Scene, i: nat, n: Word)
    requires Sound(t, s) && Legal(t, s, Enq(i, n)) && n in s.loose
    ensures t.Fits() && |s.ram| == RAM_SIZE / 4
    ensures Links(EnqueuedRam(t, s.ram, i, n), s.Head(), s.loose[..IndexOf(s.loose, n)] + ([n] + s.ls[i]))
  {
    hide WordAt, Links, Apart, LooseApart;
    var k, v := IndexOf(s.loose, n), s.ram[t.HeadAt(i)];
    var w1: seq<Word> := s.ram[t.HeadAt(i) := n];
    PathApart(t, s);
    WordInRam(n);
    assert s.Path()[k] == n;
    LinksFrame(s.ram, s.Head(), s.Path(), t.HeadAt(i), n);
    ChainFrame(t, s.ram, s.ls, i, n);
    forall m | 0 <= m < |s.Path()| && m != k ensures WordAt(s.Path()[m]) != WordAt(n) {
      assert Separate(s.Path()[if m < k then m else k], s.Path()[if m < k then k else m]);
    }
    assert forall m :: 0 <= m < |s.ls[i]| ==> Separate(n, s.ls[i][m]);
    LinksJoin(w1, s.Head(), s.Path(), k, v, s.ls[i]);
    assert s.Path()[..k + 1] + s.ls[i] == s.loose[..k] + ([n] + s.ls[i]);
  }

  /** Writing the head of a chain leaves the links of its nodes. */
  lemma ChainFrame(t: Table, w: seq<Word>, ls: Chains, i: nat, v: Word)
    requires Holds(t, w, ls) && i < HANDLER_MAX
    ensures Links(w[t.HeadAt(i) := v], w[t.HeadAt(i)], ls[i])
  {
    hide WordAt;
    assert forall p :: 0 <= p < |ls[i]| ==> t.Outside(ls[i][p]);
    LinksFrame(w, w[t.HeadAt(i)], ls[i], t.HeadAt(i), v);
  }

  lemma LooseKept(t: Table, s: Scene, i: nat, n: Word, k: nat)
    requires LooseApart(t, s.ls, s.loose) && Legal(t, s, Enq(i, n)) && k <= |s.loose|
    requires forall m :: 0 <= m < k ==> s.loose[m] != n
    ensures LooseApart(t, Enqueued(s.ls, i, n), s.loose[..k])
  {
    hide WordAt;
    var es, loose := Enqueued(s.ls, i, n), s.loose[..k];
    forall m, j, p | 0 <= m < |loose| && 0 <= j < HANDLER_MAX && 0 <= p < |es[j]| ensures Separate(loose[m], es[j][p]) {
      assert es[j][p] == if j != i then s.ls[j][p] else if p == 0 then n else s.ls[i][p - 1];
    }
  }

  /** A dequeue that the walk does not meet, because the link it rewrites is not ahead. */
  lemma DeqBehind(t: Table, s: Scene, i: nat, n: Word)
    requires Sound(t, s) && Legal(t, s, Deq(i, n))
    requires var p := IndexOf(s.ls[i], n); p == |s.ls[i]| || p == 0 || s.ls[i][p - 1] !in s.rest
    ensures var ram := DequeuedRam(t, s.ram, s.ls, i, n); |ram| == |s.ram| && Links(ram, s.Head(), s.Path())
  {
    hide WordAt, Links;
    var p := IndexOf(s.ls[i], n);
    if p < |s.ls[i]| {
      PathApart(t, s);
      PointerInRam(t, s.ram, s.ls, i, p);
      var x := PointerTo(t, s.ls, i, p);
      forall k | 0 <= k < |s.Path()| ensures WordAt(s.Path()[k]) != x {
        if p > 0 {
          if k < |s.loose| {
            assert Separate(s.loose[k], s.ls[i][p - 1]);
          } else {
            var m := |s.ls[s.at]| - |s.rest| + (k - |s.loose|);
            assert s.Path()[k] == s.rest[k - |s.loose|] == s.ls[s.at][m];
            assert Separate(s.ls[s.at][m], s.ls[i][p - 1]);
          }
        } else {
          assert t.Outside(s.Path()[k]);
        }
      }
      LinksFrame(s.ram, s.Head(), s.Path(), x, s.ram[WordAt(n)]);
    }
  }

  lemma PathAt(a: seq<Word>, b: seq<Word>, q: nat)
    requires q < |b|
    ensures (a + b)[|a| + q] == b[q] && (a + b)[|a| + q + 1..] == b[q + 1..]
  {
  }

  lemma PathCut(a: seq<Word>, b: seq<Word>, q: nat, c: seq<Word>)
    requires q <= |b|
    ensures (a + b)[..|a| + q] + c == a + (b[..q] + c)
  {
  }

  lemma PathHead(a: seq<Word>, b: seq<Word>)
    requires b != []
    ensures (a + [b[0]]) + b[1..] == a + b
  {
  }

  lemma JoinAhead(w: seq<Word>, head: Word, path: seq<Word>, c: nat, v: Word, ms: seq<Word>)
    requires Links(w, head, path) && c + 1 < |path| && Links(w, v, ms) && ms == path[c + 2..]
    requires forall k, m :: 0 <= k < m < |path| ==> Separate(path[k], path[m])
    ensures WordAt(path[c]) < |w| && Links(w[WordAt(path[c]) := v], head, path[..c + 1] + ms)
  {
    hide WordAt;
    assert forall k :: 0 <= k < |ms| ==> ms[k] == path[c + 2 + k];
    LinksAt(w, head, path, c);
    hide Links;
    forall k | 0 <= k < |path| && k != c ensures WordAt(path[k]) != WordAt(path[c]) {
      assert Separate(path[if k < c then k else c], path[if k < c then c else k]);
    }
    LinksJoin(w, head, path, c, v, ms);
  }

  lemma UnlinkAhead(w: seq<Word>, head: Word, loose: seq<Word>, rest: seq<Word>, q: nat)
    requires Links(w, head, loose + rest) && q + 1 < |rest|
    requires forall k, m :: 0 <= k < m < |loose + rest| ==> Separate((loose + rest)[k], (loose + rest)[m])
    ensures WordAt(rest[q]) < |w| && WordAt(rest[q + 1]) < |w|
    ensures Links(w[WordAt(rest[q]) := w[WordAt(rest[q + 1])]], head, loose + (rest[..q + 1] + rest[q + 2..]))
  {
    hide WordAt, Links, Separate;
    var path, c := loose + rest, |loose| + q;
    PathAt(loose, rest, q);
    PathAt(loose, rest, q + 1);
    LinksAt(w, head, path, c + 1);
    JoinAhead(w, head, path, c, w[WordAt(rest[q + 1])], rest[q + 2..]);
    PathCut(loose, rest, q + 1, rest[q + 2..]);
  }

  /** A dequeue of a node ahead that has another one before it in its chain: the walk loses it. */
  lemma DeqAhead(t: Table, s: Scene, n: Word, q: nat)
    requires Sound(t, s) && Legal(t, s, Deq(s.at, n)) && q + 1 < |s.rest| && s.rest[q + 1] == n
    requires IndexOf(s.ls[s.at], n) == |s.ls[s.at]| - |s.rest| + q + 1
    ensures var ram := DequeuedRam(t, s.ram, s.ls, s.at, n);
            |ram| == |s.ram| && Links(ram, s.Head(), s.loose + (s.rest[..q + 1] + s.rest[q + 2..]))
  {
    hide WordAt, Links, Apart, LooseApart, IndexOf;
    assert t.Fits() && |s.ram| == RAM_SIZE / 4;
    hide Holds;
    PathApart(t, s);
    UnlinkAhead(s.ram, s.Head(), s.loose, s.rest, q);
    hide Separate, Scene.Head;
    assert s.rest[q] == s.ls[s.at][IndexOf(s.ls[s.at], n) - 1];
  }

  lemma DeqSound(t: Table, s: Scene, i: nat, n: Word)
    requires Sound(t, s) && Legal(t, s, Deq(i, n))
    ensures Sound(t, Acted(t, s, Deq(i, n)))
  {
    hide WordAt, Links, Apart, LooseApart, IndexOf, Without, Suffix;
    assert t.Fits() && |s.ram| == RAM_SIZE / 4;
    DequeueHolds(t, s.ram, s.ls, i, n);
    ActedHead(t, s, Deq(i, n));
    hide Holds, DequeuedRam;
    DeqLinks(t, s, i, n);
    DeqRest(t, s, i, n);
    DeqLooseApart(t, s, i, n);
  }

  lemma DeqRest(t: Table, s: Scene, i: nat, n: Word)
    requires Sound(t, s) && Legal(t, s, Deq(i, n))
    ensures t.Fits() && |s.ram| == RAM_SIZE / 4
    ensures var r := Acted(t, s, Deq(i, n)); r.at == s.at && Suffix(r.ls[r.at], r.rest)
  {
    hide WordAt, Links, Apart, LooseApart, DequeuedRam;
    AloneInChain(t, s.ls, s.at);
    WithoutSuffix(s.ls[s.at], s.rest, n);
    hide Suffix, Holds;
    if i == s.at && n in s.rest && n == s.rest[0] {
      WithoutFirst(s.rest);
    }
  }

  lemma WithoutFirst(ns: seq<Word>)
    requires ns != []
    ensures Without(ns, ns[0]) == ns[1..]
  {
    IndexIs(ns, ns[0], 0);
  }

  lemma DeqLinks(t: Table, s: Scene, i: nat, n: Word)
    requires Sound(t, s) && Legal(t, s, Deq(i, n))
    ensures t.Fits() && |s.ram| == RAM_SIZE / 4
    ensures var r := Acted(t, s, Deq(i, n)); Links(r.ram, s.Head(), r.Path())
  {
    hide WordAt, Links, Apart, LooseApart, IndexOf, Suffix, Scene.Head, DequeuedRam;
    AloneInChain(t, s.ls, s.at);
    WithoutSuffix(s.ls[s.at], s.rest, n);
    var p := IndexOf(s.ls[i], n);
    if 0 < p < |s.ls[i]| && s.ls[i][p - 1] in s.rest {
      DeqMeets(t, s, i, n);
      DeqAhead(t, s, n, IndexOf(s.rest, n) - 1);
    } else {
      DeqBehind(t, s, i, n);
      if i == s.at && n in s.rest {
        DeqFirst(t, s, n);
        PathHead(s.loose, s.rest);
      }
    }
  }

  /** The link that a dequeue rewrites is ahead: then the node is, right after it. */
  lemma DeqMeets(t: Table, s: Scene, i: nat, n: Word)
    requires Sound(t, s) && i < HANDLER_MAX
    requires var p := IndexOf(s.ls[i], n); 0 < p < |s.ls[i]| && s.ls[i][p - 1] in s.rest
    ensures i == s.at && n in s.rest && IndexOf(s.rest, n) > 0 && n != s.rest[0]
  {
    hide WordAt, Links;
    var p, gone := IndexOf(s.ls[i], n), |s.ls[s.at]| - |s.rest|;
    PathApart(t, s);
    var q :| 0 <= q < |s.rest| && s.rest[q] == s.ls[i][p - 1];
    Distinct(t, s.ls, i, p - 1, s.at, gone + q);
    assert s.rest[q + 1] == n;
    AloneInChain(t, s.ls, s.at);
    WithoutSuffix(s.ls[s.at], s.rest, n);
  }

  lemma RestBefore(ns: seq<Word>, rest: seq<Word>, q: nat)
    requires Suffix(ns, rest) && q < |rest|
    ensures q > 0 ==> ns[|ns| - |rest| + q - 1] in rest
  {
    assert q > 0 ==> ns[|ns| - |rest| + q - 1] == rest[q - 1];
  }

  /** Otherwise a node ahead is the next one. */
  lemma DeqFirst(t: Table, s: Scene, n: Word)
    requires Sound(t, s) && n in s.rest
    requires var p := IndexOf(s.ls[s.at], n); p == 0 || p == |s.ls[s.at]| || s.ls[s.at][p - 1] !in s.rest
    ensures n == s.rest[0]
  {
    hide WordAt, Links;
    PathApart(t, s);
    AloneInChain(t, s.ls, s.at);
    WithoutSuffix(s.ls[s.at], s.rest, n);
    RestBefore(s.ls[s.at], s.rest, IndexOf(s.rest, n));
  }

  lemma DeqLooseApart(t: Table, s: Scene, i: nat, n: Word)
    requires Sound(t, s) && i < HANDLER_MAX
    ensures LooseApart(t, Dequeued(s.ls, i, n), s.loose)
    ensures i == s.at && s.rest != [] && n == s.rest[0] ==> LooseApart(t, Dequeued(s.ls, i, n), s.loose + [n])
  {
    hide WordAt, Links, Separate, IndexOf;
    var ds, m := Dequeued(s.ls, i, n), IndexOf(s.ls[i], n);
    assert forall j, p :: 0 <= j < HANDLER_MAX && 0 <= p < |ds[j]| ==>
      ds[j][p] == if j != i || p < m then s.ls[j][p] else s.ls[i][p + 1];
    if i == s.at && s.rest != [] && n == s.rest[0] {
      assert n == s.ls[i][|s.ls[i]| - |s.rest|];
      TakenApart(t, s.ls, i, n);
      hide Dequeued;
      assert forall k :: 0 <= k < |s.loose| ==> Separate(s.loose[k], s.ls[i][m]);
    }
  }

  /** A node that is taken out is apart from the chains that are left. */
  lemma TakenApart(t: Table, ls: Chains, i: nat, n: Word)
    requires Apart(t, ls) && i < HANDLER_MAX && n in ls[i]
    ensures t.Outside(n) && IndexOf(ls[i], n) < |ls[i]|
    ensures forall j, p :: 0 <= j < HANDLER_MAX && 0 <= p < |Dequeued(ls, i, n)[j]| ==> Separate(n, Dequeued(ls, i, n)[j][p])
  {
    hide WordAt, Separate, IndexOf;
    var ds, m := Dequeued(ls, i, n), IndexOf(ls[i], n);
    assert t.Outside(ls[i][m]);
    forall j, p | 0 <= j < HANDLER_MAX && 0 <= p < |ds[j]| ensures Separate(n, ds[j][p]) {
      assert ds[j][p] == if j != i || p < m then ls[j][p] else ls[i][p + 1];
      assert Separate(ls[i][m], if j != i || p < m then ls[j][p] else ls[i][p + 1]);
    }
  }

  /** Every legal call keeps the chains and the walk sound. */
  lemma ActedSound(t: Table, s: Scene, a: Action)
    requires Sound(t, s) && Legal(t, s, a)
    ensures Sound(t, Acted(t, s, a))
  {
    match a
    case Enq(i, n) =>
      if n in s.loose {
        EnqLooseSound(t, s, i, n);
      } else {
        EnqSound(t, s, i, n);
      }
    case Deq(i, n) => DeqSound(t, s, i, n);
  }

  /** No call changes the link that the walk holds. */
  lemma ActedHead(t: Table, s: Scene, a: Action)
    requires t.Fits() && |s.ram| == RAM_SIZE / 4
    ensures Acted(t, s, a).Head() == s.Head()
  {
    hide EnqueuedRam, DequeuedRam;
  }

  lemma {:induction false} ActedAllHead(t: Table, s: Scene, acts: seq<Action>)
    requires t.Fits() && |s.ram| == RAM_SIZE / 4
    ensures ActedAll(t, s, acts).Head() == s.Head()
    decreases |acts|
  {
    if acts != [] {
      ActedHead(t, s, acts[0]);
      hide Acted;
      ActedAllHead(t, Acted(t, s, acts[0]), acts[1..]);
    }
  }

  lemma {:induction false} ActedAllSound(t: Table, s: Scene, acts: seq<Action>)
    requires Sound(t, s) && LegalAll(t, s, acts)
    ensures Sound(t, ActedAll(t, s, acts))
    decreases |acts|
  {
    if acts != [] {
      ActedSound(t, s, acts[0]);
      ActedAllSound(t, Acted(t, s, acts[0]), acts[1..]);
    }
  }

  lemma LooseTail(t: Table, ls: Chains, loose: seq<Word>)
    requires LooseApart(t, ls, loose) && loose != []
    ensures LooseApart(t, ls, loose[1..])
  {
    hide WordAt;
    assert forall k :: 0 <= k < |loose[1..]| ==> loose[1..][k] == loose[k + 1];
  }

  /** The node the walk is at, and the link it reads before calling anything. */
  lemma PoppedSound(t: Table, s: Scene)
    requires Sound(t, s) && s.Path() != []
    ensures Sound(t, s.Popped())
    ensures var n := s.Path()[0];
            n != 0 && n == s.Head() && WordAt(n) + NODE_WORDS <= |s.ram| && s.ram[WordAt(n)] == s.Popped().Head()
  {
    hide WordAt, Holds, LooseApart, Links, Suffix;
    var path, p := s.Path(), s.Popped();
    LinksAt(s.ram, s.Head(), path, 0);
    hide Scene.Path;
    if s.loose != [] {
      LooseTail(t, s.ls, s.loose);
    } else {
      SuffixTail(s.ls[s.at], s.rest);
    }
  }

  lemma SuffixTail(ns: seq<Word>, rest: seq<Word>)
    requires Suffix(ns, rest) && rest != []
    ensures Suffix(ns, rest[1..])
  {
    assert ns[|ns| - |rest[1..]|..] == rest[1..];
  }

  /** The walk of a chain ends with sound chains, however the callbacks rearrange them. */
  lemma {:induction false} WalkedSound(t: Table, s: Scene, env: seq<Reaction>)
    requires Sound(t, s) && LegalWalk(t, s, env)
    ensures var tr := Walked(t, s, env); Sound(t, tr.end) && tr.end.Path() == []
    decreases |env|, |s.Path()|
  {
    assert t.Fits() && |s.ram| == RAM_SIZE / 4;
    hide Sound;
    if s.Path() != [] {
      PoppedSound(t, s);
      var p, acts := s.Popped(), Made(Next(env));
      if VerifierOf(s.ram, s.Path()[0]) == 0 {
        WalkedSound(t, p, env);
      } else {
        ActedAllSound(t, p, acts);
        WalkedSound(t, ActedAll(t, p, acts), Later(env));
      }
    }
  }

  lemma BegunSound(t: Table, w: seq<Word>, ls: Chains, i: nat)
    requires Holds(t, w, ls) && i < HANDLER_MAX
    ensures Sound(t, Begun(w, ls, i)) && Begun(w, ls, i).Head() == w[t.HeadAt(i)]
  {
    hide WordAt, Apart, Table.Outside, Separate;
    LinksHead(w, w[t.HeadAt(i)], ls[i]);
    assert [] + ls[i] == ls[i];
  }

  lemma {:induction false} DispatchedSound(t: Table, w: seq<Word>, ls: Chains, i: nat, env: seq<Reaction>)
    requires Holds(t, w, ls) && i <= HANDLER_MAX && LegalDispatch(t, w, ls, i, env)
    ensures var tr := Dispatched(t, w, ls, i, env); Holds(t, tr.end.ram, tr.end.ls)
    decreases HANDLER_MAX - i
  {
    if i < HANDLER_MAX {
      BegunSound(t, w, ls, i);
      WalkedSound(t, Begun(w, ls, i), env);
      var tr := Walked(t, Begun(w, ls, i), env);
      DispatchedSound(t, tr.end.ram, tr.end.ls, i + 1, tr.env);
    }
  }
}
