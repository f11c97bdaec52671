/** Which nodes the walk visits, which handlers it runs, and when it ends. */
module IrqVisits {
  import opened IrqChains
  import opened IrqWalk
  import opened Memory

  // ----- every registered node once, unless a callback makes the walk miss it -----

  /** The walk still comes to the node as things stand: in this chain, or in one not begun. */
  ghost predicate Pending(s: Scene, n: Word) {
    n in s.Path() || Waits(s, n)
  }

  ghost predicate Waits(s: Scene, n: Word) {
    exists j :: s.at < j < HANDLER_MAX && n in s.ls[j]
  }

  /** The call dequeues the node before its chain is begun, or while another node of it is still to come before. */
  ghost predicate Misses(c: Called, n: Word) {
    && c.action.Deq? && c.action.n == n && c.action.i < HANDLER_MAX && n in c.scene.ls[c.action.i]
    && (c.action.i > c.scene.at || (c.action.i == c.scene.at && n in c.scene.rest && n != c.scene.rest[0]))
  }

  /** The call enqueues neither the node nor one that is loose. */
  ghost predicate Spares(c: Called, n: Word) {
    c.action.Enq? ==> c.action.n != n && c.action.n !in c.scene.loose
  }

  ghost predicate AllSpare(calls: seq<Called>, n: Word) {
    forall c :: c in calls ==> Spares(c, n)
  }

  function Bit(b: bool): nat {
    if b then 1 else 0
  }

  /** How many of the calls make the walk miss the node. */
  ghost function Missed(calls: seq<Called>, n: Word): nat {
    if calls == [] then 0 else Bit(Misses(calls[0], n)) + Missed(calls[1..], n)
  }

  lemma {:induction false} MissedConcat(a: seq<Called>, b: seq<Called>, n: Word)
    ensures Missed(a + b, n) == Missed(a, n) + Missed(b, n)
    decreases |a|
  {
    if a == [] {
      assert a + b == b;
    } else {
      assert (a + b)[1..] == a[1..] + b;
      MissedConcat(a[1..], b, n);
    }
  }

  lemma {:induction false} MissedNone(calls: seq<Called>, n: Word)
    ensures Missed(calls, n) == 0 <==> forall c :: c in calls ==> !Misses(c, n)
    decreases |calls|
  {
    if calls != [] {
      assert calls == [calls[0]] + calls[1..];
      MissedNone(calls[1..], n);
    }
  }

  lemma WithoutMember(ns: seq<Word>, m: Word, n: Word)
    requires forall k, l :: 0 <= k < l < |ns| ==> ns[k] != ns[l]
    ensures n in Without(ns, m) <==> n in ns && n != m
  {
    var p := IndexOf(ns, m);
    if p < |ns| {
      assert ns == ns[..p] + [ns[p]] + ns[p + 1..];
      assert Without(ns, m) == ns[..p] + ns[p + 1..];
      var tail := ns[p + 1..];
      assert forall k :: 0 <= k < |tail| ==> tail[k] == ns[p + 1 + k];
    }
  }

  /** A node ahead is in no other chain, and a loose one in no chain at all. */
  lemma PendingPlace(t: Table, s: Scene, n: Word)
    requires Sound(t, s)
    ensures forall k, m :: 0 <= k < m < |s.Path()| ==> s.Path()[k] != s.Path()[m]
    ensures n in s.loose ==> n !in s.rest && forall j :: 0 <= j < HANDLER_MAX ==> n !in s.ls[j]
    ensures n in s.rest ==> n in s.ls[s.at]
    ensures forall i, j :: 0 <= i < j < HANDLER_MAX ==> !(n in s.ls[i] && n in s.ls[j])
  {
    hide WordAt, Links;
    PathApart(t, s);
    forall k, m | 0 <= k < m < |s.Path()| ensures s.Path()[k] != s.Path()[m] {
      assert Separate(s.Path()[k], s.Path()[m]);
    }
    if n in s.loose {
      var k :| 0 <= k < |s.loose| && s.loose[k] == n;
      forall j, p | 0 <= j < HANDLER_MAX && 0 <= p < |s.ls[j]| ensures s.ls[j][p] != n {
        assert Separate(s.loose[k], s.ls[j][p]);
      }
      assert forall m :: 0 <= m < |s.rest| ==> s.rest[m] in s.ls[s.at];
    }
    forall i, j | 0 <= i < j < HANDLER_MAX ensures !(n in s.ls[i] && n in s.ls[j]) {
      if n in s.ls[i] && n in s.ls[j] {
        var p :| 0 <= p < |s.ls[i]| && s.ls[i][p] == n;
        var q :| 0 <= q < |s.ls[j]| && s.ls[j][q] == n;
        Distinct(t, s.ls, i, p, j, q);
      }
    }
  }

  lemma EnqPending(t: Table, s: Scene, i: nat, m: Word, n: Word)
    requires Sound(t, s) && Legal(t, s, Enq(i, m)) && m != n && m !in s.loose
    ensures var r := Acted(t, s, Enq(i, m)); r.at == s.at && (Pending(r, n) <==> Pending(s, n))
  {
    var r := Acted(t, s, Enq(i, m));
    hide EnqueuedRam;
    assert r.Path() == s.Path();
    assert forall j :: 0 <= j < HANDLER_MAX ==> (n in r.ls[j] <==> n in s.ls[j]);
  }

  lemma RestAlone(t: Table, s: Scene)
    requires Sound(t, s)
    ensures forall k, m :: 0 <= k < m < |s.rest| ==> s.rest[k] != s.rest[m]
  {
    AloneInChain(t, s.ls, s.at);
    PathApart(t, s);
  }

  /** A dequeue takes its node out of its chain, and off the path unless the node is loose or next in line. */
  lemma DeqMembers(t: Table, s: Scene, i: nat, m: Word, n: Word)
    requires Sound(t, s) && Legal(t, s, Deq(i, m))
    ensures var r := Acted(t, s, Deq(i, m));
            && r.at == s.at
            && (n in r.Path() <==> n in s.Path() && !(n == m && i == s.at && n in s.rest && n != s.rest[0]))
            && forall j :: 0 <= j < HANDLER_MAX ==> (n in r.ls[j] <==> n in s.ls[j] && !(j == i && n == m))
  {
    AloneInChain(t, s.ls, i);
    WithoutMember(s.ls[i], m, n);
    RestAlone(t, s);
    WithoutMember(s.rest, m, n);
    PendingPlace(t, s, n);
    assert t.Fits() && |s.ram| == RAM_SIZE / 4;
    hide DequeuedRam, Without, Sound;
    if s.rest != [] {
      PathHead(s.loose, s.rest);
    }
  }

  lemma DeqPending(t: Table, s: Scene, i: nat, m: Word, n: Word)
    requires Sound(t, s) && Legal(t, s, Deq(i, m))
    ensures var r := Acted(t, s, Deq(i, m));
            r.at == s.at && Bit(Pending(r, n)) + Bit(Misses(Called(s, Deq(i, m)), n)) == Bit(Pending(s, n))
  {
    DeqMembers(t, s, i, m, n);
    PendingPlace(t, s, n);
    hide Acted, Sound;
    assert n in s.Path() <==> n in s.loose || n in s.rest;
    hide Scene.Path;
  }

  /** A call that spares the node takes it off what the walk still comes to exactly when the call makes the walk
      miss it. */
  lemma ActedPending(t: Table, s: Scene, a: Action, n: Word)
    requires Sound(t, s) && Legal(t, s, a) && Spares(Called(s, a), n)
    ensures var r := Acted(t, s, a);
            r.at == s.at && Bit(Pending(r, n)) + Bit(Misses(Called(s, a), n)) == Bit(Pending(s, n))
  {
    match a
    case Enq(i, m) => EnqPending(t, s, i, m, n);
    case Deq(i, m) => DeqPending(t, s, i, m, n);
  }

  lemma {:induction false} ActedAllPending(t: Table, s: Scene, acts: seq<Action>, n: Word)
    requires Sound(t, s) && LegalAll(t, s, acts) && AllSpare(CalledAll(t, s, acts), n)
    ensures var r := ActedAll(t, s, acts);
            && Sound(t, r) && r.at == s.at
            && Bit(Pending(r, n)) + Missed(CalledAll(t, s, acts), n) == Bit(Pending(s, n))
    decreases |acts|
  {
    assert t.Fits() && |s.ram| == RAM_SIZE / 4;
    hide Sound, Pending, Misses;
    if acts != [] {
      var first, calls := Called(s, acts[0]), CalledAll(t, s, acts);
      assert calls[0] == first && calls[1..] == CalledAll(t, Acted(t, s, acts[0]), acts[1..]);
      assert Spares(first, n);
      ActedSound(t, s, acts[0]);
      ActedPending(t, s, acts[0], n);
      ActedAllPending(t, Acted(t, s, acts[0]), acts[1..], n);
    }
  }

  /** Reaching a node is a visit of it, and takes no other node off. */
  lemma PoppedPending(t: Table, s: Scene, n: Word)
    requires Sound(t, s) && s.Path() != []
    ensures Bit(s.Path()[0] == n) + Bit(Pending(s.Popped(), n)) == Bit(Pending(s, n))
  {
    PendingPlace(t, s, n);
    hide Sound;
    assert s.Path() == [s.Path()[0]] + s.Path()[1..];
    if s.Path()[0] == n {
      assert forall k :: 0 <= k < |s.Path()[1..]| ==> s.Path()[1..][k] == s.Path()[k + 1];
    }
  }

  /** Over the walk of a chain, a node that was to come is visited, or missed, or still to come in a later chain. */
  lemma {:induction false} WalkedOnce(t: Table, s: Scene, env: seq<Reaction>, n: Word)
    requires Sound(t, s) && LegalWalk(t, s, env) && AllSpare(Walked(t, s, env).calls, n)
    ensures var tr := Walked(t, s, env);
            && tr.end.at == s.at
            && multiset(tr.visited)[n] + Missed(tr.calls, n) + Bit(Pending(tr.end, n)) == Bit(Pending(s, n))
    decreases |env|, |s.Path()|
  {
    assert t.Fits() && |s.ram| == RAM_SIZE / 4;
    hide Sound, Pending, Missed;
    if s.Path() == [] {
      MissedNone([], n);
    } else {
      PoppedSound(t, s);
      PoppedPending(t, s, n);
      var p, acts, tr := s.Popped(), Made(Next(env)), Walked(t, s, env);
      if VerifierOf(s.ram, s.Path()[0]) == 0 {
        var tail := Walked(t, p, env);
        assert tr.calls == tail.calls;
        WalkedOnce(t, p, env, n);
      } else {
        var q, calls := ActedAll(t, p, acts), CalledAll(t, p, acts);
        var tail := Walked(t, q, Later(env));
        assert tr.calls == calls + tail.calls && tr.visited == [s.Path()[0]] + tail.visited;
        assert AllSpare(calls, n) && AllSpare(tail.calls, n);
        ActedAllPending(t, p, acts, n);
        WalkedOnce(t, q, Later(env), n);
        MissedConcat(calls, tail.calls, n);
      }
    }
  }

  /** The node is in chain i or a later one. */
  ghost predicate Ahead(ls: Chains, i: nat, n: Word) {
    exists j :: i <= j < HANDLER_MAX && n in ls[j]
  }

  lemma PendingBegun(w: seq<Word>, ls: Chains, i: nat, n: Word)
    requires i < HANDLER_MAX
    ensures Pending(Begun(w, ls, i), n) <==> Ahead(ls, i, n)
  {
    assert [] + ls[i] == ls[i];
  }

  lemma PendingEnded(s: Scene, n: Word)
    requires s.at < HANDLER_MAX && s.Path() == []
    ensures Pending(s, n) <==> Ahead(s.ls, s.at + 1, n)
  {
  }

  lemma {:induction false} DispatchedOnce(t: Table, w: seq<Word>, ls: Chains, i: nat, env: seq<Reaction>, n: Word)
    requires Holds(t, w, ls) && i <= HANDLER_MAX && LegalDispatch(t, w, ls, i, env)
    requires AllSpare(Dispatched(t, w, ls, i, env).calls, n)
    ensures var tr := Dispatched(t, w, ls, i, env);
            multiset(tr.visited)[n] + Missed(tr.calls, n) == Bit(Ahead(ls, i, n))
    decreases HANDLER_MAX - i
  {
    if i < HANDLER_MAX {
      var s := Begun(w, ls, i);
      BegunSound(t, w, ls, i);
      WalkedSound(t, s, env);
      var tr := Walked(t, s, env);
      var later := Dispatched(t, tr.end.ram, tr.end.ls, i + 1, tr.env);
      assert Dispatched(t, w, ls, i, env).calls == tr.calls + later.calls;
      hide Dispatched, Walked, Links, Pending, Ahead, Missed;
      assert AllSpare(tr.calls, n) && AllSpare(later.calls, n);
      WalkedOnce(t, s, env, n);
      DispatchedOnce(t, tr.end.ram, tr.end.ls, i + 1, tr.env, n);
      MissedConcat(tr.calls, later.calls, n);
      PendingBegun(w, ls, i, n);
      PendingEnded(tr.end, n);
    } else {
      MissedNone([], n);
    }
  }

  /** A registered node is visited at most once; and it is visited exactly when no callback dequeues it before its
      chain is begun or while another node of the chain is still to come before it. */
  lemma VisitedIffNotMissed(t: Table, w: seq<Word>, ls: Chains, env: seq<Reaction>, j: nat, n: Word)
    requires Holds(t, w, ls) && LegalDispatch(t, w, ls, 0, env) && j < HANDLER_MAX && n in ls[j]
    requires AllSpare(Dispatched(t, w, ls, 0, env).calls, n)
    ensures var tr := Dispatched(t, w, ls, 0, env);
            && multiset(tr.visited)[n] <= 1
            && (n in tr.visited <==> forall c :: c in tr.calls ==> !Misses(c, n))
  {
    var tr := Dispatched(t, w, ls, 0, env);
    DispatchedOnce(t, w, ls, 0, env, n);
    MissedNone(tr.calls, n);
    assert n in tr.visited <==> multiset(tr.visited)[n] > 0;
  }

  // ----- handlers run, when no callback touches what is still to come -----

  /** The call leaves what the walk still comes to as it is. */
  ghost predicate Keeps(c: Called) {
    match c.action
    case Enq(i, n) => i <= c.scene.at && n !in c.scene.loose
    case Deq(i, n) => !Misses(c, n)
  }

  ghost predicate AllKeep(calls: seq<Called>) {
    forall c :: c in calls ==> Keeps(c)
  }

  /** The handler and verifier words of the nodes ns are as they were. */
  ghost predicate WordsKept(w: seq<Word>, r: seq<Word>, ns: seq<Word>) {
    forall k :: 0 <= k < |ns| ==> HandlerOf(r, ns[k]) == HandlerOf(w, ns[k]) && VerifierOf(r, ns[k]) == VerifierOf(w, ns[k])
  }

  /** What the walk still comes to is the same in both scenes, and so are its handlers and verifiers. */
  ghost predicate Unmoved(s: Scene, r: Scene) {
    && r.at == s.at < HANDLER_MAX && r.Path() == s.Path() && WordsKept(s.ram, r.ram, s.Path())
    && forall j :: s.at < j < HANDLER_MAX ==> r.ls[j] == s.ls[j] && WordsKept(s.ram, r.ram, s.ls[j])
  }

  /** A word that is neither handler nor verifier of the node. */
  predicate Beside(x: nat, n: Word) {
    x <= WordAt(n) || WordAt(n) + NODE_WORDS <= x
  }

  lemma WriteBeside(w: seq<Word>, x: nat, v: Word, n: Word)
    requires x < |w| && Beside(x, n)
    ensures HandlerOf(w[x := v], n) == HandlerOf(w, n) && VerifierOf(w[x := v], n) == VerifierOf(w, n)
  {
  }

  lemma HeadBeside(t: Table, i: nat, n: Word)
    requires t.Fits() && i < HANDLER_MAX && t.Outside(n)
    ensures t.HeadAt(i) < RAM_SIZE / 4 && Beside(t.HeadAt(i), n)
  {
  }

  lemma NodeOutside(t: Table, s: Scene, n: Word)
    requires Sound(t, s)
    requires n in s.Path() || exists j :: 0 <= j < HANDLER_MAX && n in s.ls[j]
    ensures t.Fits() && t.Outside(n)
  {
    PathApart(t, s);
    hide WordAt, Links;
  }

  /** No call writes a handler or verifier word of a node to come. */
  lemma ActedWords(t: Table, s: Scene, a: Action, n: Word)
    requires Sound(t, s) && Legal(t, s, a)
    requires n in s.Path() || exists j :: 0 <= j < HANDLER_MAX && n in s.ls[j]
    ensures var r := Acted(t, s, a); HandlerOf(r.ram, n) == HandlerOf(s.ram, n) && VerifierOf(r.ram, n) == VerifierOf(s.ram, n)
  {
    hide WordAt, Links, Apart, LooseApart, HandlerOf, VerifierOf, EnqueuedRam, DequeuedRam;
    NodeOutside(t, s, n);
    HeadBeside(t, a.i, n);
    match a
    case Enq(i, m) =>
      EnqPath(t, s, i, m);
      assert m == n || Separate(m, n);
      EnqWords(t, s.ram, i, m, n);
    case Deq(i, m) =>
      var p := IndexOf(s.ls[i], m);
      if 0 < p < |s.ls[i]| {
        ChainNodeApart(t, s, i, p - 1, n);
      }
      DeqWords(t, s.ram, s.ls, i, m, n);
  }

  lemma EnqWords(t: Table, w: seq<Word>, i: nat, m: Word, n: Word)
    requires t.Fits() && |w| == RAM_SIZE / 4 && i < HANDLER_MAX
    requires t.HeadAt(i) < |w| && Beside(t.HeadAt(i), n) && (m == n || Separate(m, n))
    ensures var r := EnqueuedRam(t, w, i, m); HandlerOf(r, n) == HandlerOf(w, n) && VerifierOf(r, n) == VerifierOf(w, n)
  {
    assert Beside(WordAt(m), n);
    hide Beside, HandlerOf, VerifierOf, Table.HeadAt, Table.Fits, WordAt, Separate;
    WriteBeside(w, t.HeadAt(i), m, n);
    WriteBeside(w[t.HeadAt(i) := m], WordAt(m), w[t.HeadAt(i)], n);
  }

  lemma DeqWords(t: Table, w: seq<Word>, ls: Chains, i: nat, m: Word, n: Word)
    requires t.Fits() && |w| == RAM_SIZE / 4 && i < HANDLER_MAX
    requires t.HeadAt(i) < |w| && Beside(t.HeadAt(i), n)
    requires var p := IndexOf(ls[i], m); 0 < p < |ls[i]| ==> ls[i][p - 1] == n || Separate(ls[i][p - 1], n)
    ensures var r := DequeuedRam(t, w, ls, i, m); HandlerOf(r, n) == HandlerOf(w, n) && VerifierOf(r, n) == VerifierOf(w, n)
  {
    var p := IndexOf(ls[i], m);
    if p < |ls[i]| {
      var x := PointerTo(t, ls, i, p);
      assert x < |w| && Beside(x, n);
      hide Beside, HandlerOf, VerifierOf, Table.HeadAt, Table.Fits, WordAt, Separate, PointerTo;
      WriteBeside(w, x, w[WordAt(m)], n);
    }
  }

  lemma ChainNodeApart(t: Table, s: Scene, i: nat, p: nat, n: Word)
    requires Sound(t, s) && i < HANDLER_MAX && p < |s.ls[i]|
    requires n in s.Path() || exists j :: 0 <= j < HANDLER_MAX && n in s.ls[j]
    ensures s.ls[i][p] == n || Separate(s.ls[i][p], n)
  {
    hide WordAt, Links;
    PendingPlace(t, s, n);
    if n in s.loose {
      var k :| 0 <= k < |s.loose| && s.loose[k] == n;
      assert Separate(s.loose[k], s.ls[i][p]);
    } else {
      var j :| 0 <= j < HANDLER_MAX && n in s.ls[j];
      var q :| 0 <= q < |s.ls[j]| && s.ls[j][q] == n;
      assert (i == j && p == q) || Separate(s.ls[i][p], s.ls[j][q]);
    }
  }

  lemma ActedUnmoved(t: Table, s: Scene, a: Action)
    requires Sound(t, s) && Legal(t, s, a) && Keeps(Called(s, a))
    ensures Unmoved(s, Acted(t, s, a))
  {
    var r := Acted(t, s, a);
    forall n | n in s.Path() || exists j :: 0 <= j < HANDLER_MAX && n in s.ls[j]
      ensures HandlerOf(r.ram, n) == HandlerOf(s.ram, n) && VerifierOf(r.ram, n) == VerifierOf(s.ram, n)
    {
      ActedWords(t, s, a, n);
    }
    hide HandlerOf, VerifierOf, EnqueuedRam, DequeuedRam;
    PathUnmoved(t, s, a);
    hide Acted;
    forall j | s.at < j < HANDLER_MAX ensures WordsKept(s.ram, r.ram, s.ls[j]) {
      assert forall k :: 0 <= k < |s.ls[j]| ==> s.ls[j][k] in s.ls[j];
    }
    assert forall k :: 0 <= k < |s.Path()| ==> s.Path()[k] in s.Path();
  }

  lemma PathUnmoved(t: Table, s: Scene, a: Action)
    requires Sound(t, s) && Legal(t, s, a) && Keeps(Called(s, a))
    ensures var r := Acted(t, s, a);
            && r.at == s.at && r.Path() == s.Path()
            && forall j :: s.at < j < HANDLER_MAX ==> r.ls[j] == s.ls[j]
  {
    hide EnqueuedRam, DequeuedRam;
    match a
    case Enq(i, m) =>
    case Deq(i, m) =>
      PendingPlace(t, s, m);
      if i == s.at && s.rest != [] && m == s.rest[0] {
        PathHead(s.loose, s.rest);
      }
  }

  lemma UnmovedThen(s: Scene, q: Scene, r: Scene)
    requires Unmoved(s, q) && Unmoved(q, r)
    ensures Unmoved(s, r)
  {
    hide HandlerOf, VerifierOf;
  }

  lemma {:induction false} ActedAllUnmoved(t: Table, s: Scene, acts: seq<Action>)
    requires Sound(t, s) && LegalAll(t, s, acts) && AllKeep(CalledAll(t, s, acts))
    ensures Sound(t, ActedAll(t, s, acts)) && Unmoved(s, ActedAll(t, s, acts))
    decreases |acts|
  {
    assert t.Fits() && |s.ram| == RAM_SIZE / 4 && s.at < HANDLER_MAX;
    if acts == [] {
      hide HandlerOf, VerifierOf;
      assert Unmoved(s, s);
    } else {
      hide Sound, Unmoved;
      var first, calls := Called(s, acts[0]), CalledAll(t, s, acts);
      assert calls[0] == first && calls[1..] == CalledAll(t, Acted(t, s, acts[0]), acts[1..]);
      assert Keeps(first);
      var r := Acted(t, s, acts[0]);
      ActedSound(t, s, acts[0]);
      ActedUnmoved(t, s, acts[0]);
      ActedAllUnmoved(t, r, acts[1..]);
      UnmovedThen(s, r, ActedAll(t, r, acts[1..]));
    }
  }

  /** The handlers that must run for the nodes ns, each with its verifier's result. */
  ghost function Handled(w: seq<Word>, ns: seq<Word>, env: seq<Reaction>): seq<(Word, Word)>
    decreases |ns|
  {
    if ns == [] then []
    else if VerifierOf(w, ns[0]) == 0 then Handled(w, ns[1..], env)
    else Answer(HandlerOf(w, ns[0]), Next(env)) + Handled(w, ns[1..], Later(env))
  }

  /** The reactions left after the nodes ns. */
  ghost function ReactionsAfter(w: seq<Word>, ns: seq<Word>, env: seq<Reaction>): seq<Reaction>
    decreases |ns|
  {
    if ns == [] then env
    else ReactionsAfter(w, ns[1..], if VerifierOf(w, ns[0]) == 0 then env else Later(env))
  }

  lemma {:induction false} SameWords(w: seq<Word>, r: seq<Word>, ns: seq<Word>, env: seq<Reaction>)
    requires WordsKept(w, r, ns)
    ensures Handled(w, ns, env) == Handled(r, ns, env) && ReactionsAfter(w, ns, env) == ReactionsAfter(r, ns, env)
    decreases |ns|
  {
    if ns != [] {
      assert HandlerOf(r, ns[0]) == HandlerOf(w, ns[0]) && VerifierOf(r, ns[0]) == VerifierOf(w, ns[0]);
      hide HandlerOf, VerifierOf;
      assert forall k :: 0 <= k < |ns[1..]| ==> ns[1..][k] == ns[k + 1];
      SameWords(w, r, ns[1..], env);
      SameWords(w, r, ns[1..], Later(env));
    }
  }

  lemma {:induction false} HandledConcat(w: seq<Word>, a: seq<Word>, b: seq<Word>, env: seq<Reaction>)
    ensures Handled(w, a + b, env) == Handled(w, a, env) + Handled(w, b, ReactionsAfter(w, a, env))
    decreases |a|
  {
    hide HandlerOf, VerifierOf;
    if a == [] {
      assert a + b == b;
    } else {
      assert (a + b)[1..] == a[1..] + b;
      HandledConcat(w, a[1..], b, env);
      HandledConcat(w, a[1..], b, Later(env));
    }
  }

  /** What the walk of a chain gives when its calls leave what is to come as it is. */
  ghost predicate Plainly(s: Scene, env: seq<Reaction>, tr: Trace) {
    && tr.visited == s.Path() && tr.handled == Handled(s.ram, s.Path(), env) && tr.env == ReactionsAfter(s.ram, s.Path(), env)
    && tr.end.at == s.at
    && forall j :: s.at < j < HANDLER_MAX ==> tr.end.ls[j] == s.ls[j] && WordsKept(s.ram, tr.end.ram, s.ls[j])
  }

  lemma {:induction false} WalkedPlainly(t: Table, s: Scene, env: seq<Reaction>)
    requires Sound(t, s) && LegalWalk(t, s, env) && AllKeep(Walked(t, s, env).calls)
    ensures Plainly(s, env, Walked(t, s, env))
    decreases |env|, |s.Path()|
  {
    assert t.Fits() && |s.ram| == RAM_SIZE / 4;
    hide HandlerOf, VerifierOf;
    if s.Path() != [] {
      PoppedSound(t, s);
      hide Sound;
      var n, p, acts, tr := s.Path()[0], s.Popped(), Made(Next(env)), Walked(t, s, env);
      assert s.Path() == [n] + p.Path();
      if VerifierOf(s.ram, n) == 0 {
        assert tr.calls == Walked(t, p, env).calls;
        WalkedPlainly(t, p, env);
      } else {
        var q, calls := ActedAll(t, p, acts), CalledAll(t, p, acts);
        var tail := Walked(t, q, Later(env));
        assert tr.calls == calls + tail.calls;
        assert AllKeep(calls) && AllKeep(tail.calls);
        ActedAllUnmoved(t, p, acts);
        WalkedPlainly(t, q, Later(env));
        SameWords(s.ram, q.ram, p.Path(), Later(env));
      }
    }
  }

  /** The nodes registered from chain i on, in the order of priority, the most recently enqueued first. */
  ghost function Registered(ls: Chains, i: nat): seq<Word>
    decreases HANDLER_MAX - i
  {
    if i >= HANDLER_MAX then [] else ls[i] + Registered(ls, i + 1)
  }

  lemma {:induction false} RegisteredSame(ls: Chains, ms: Chains, i: nat)
    requires forall j :: i <= j < HANDLER_MAX ==> ms[j] == ls[j]
    ensures Registered(ms, i) == Registered(ls, i)
    decreases HANDLER_MAX - i
  {
    if i < HANDLER_MAX {
      RegisteredSame(ls, ms, i + 1);
    }
  }

  lemma {:induction false} RegisteredWords(ls: Chains, i: nat, w: seq<Word>, r: seq<Word>)
    requires forall j :: i <= j < HANDLER_MAX ==> WordsKept(w, r, ls[j])
    ensures WordsKept(w, r, Registered(ls, i))
    decreases HANDLER_MAX - i
  {
    hide HandlerOf, VerifierOf;
    if i < HANDLER_MAX {
      RegisteredWords(ls, i + 1, w, r);
    }
  }

  lemma PlainlyNext(w: seq<Word>, ls: Chains, i: nat, env: seq<Reaction>, tr: Trace, later: Trace)
    requires i < HANDLER_MAX && Plainly(Begun(w, ls, i), env, tr)
    requires later.visited == Registered(tr.end.ls, i + 1)
    requires later.handled == Handled(tr.end.ram, Registered(tr.end.ls, i + 1), tr.env)
    ensures tr.visited + later.visited == Registered(ls, i)
    ensures tr.handled + later.handled == Handled(w, Registered(ls, i), env)
  {
    hide HandlerOf, VerifierOf;
    assert Begun(w, ls, i).Path() == ls[i];
    RegisteredSame(ls, tr.end.ls, i + 1);
    RegisteredWords(ls, i + 1, w, tr.end.ram);
    SameWords(w, tr.end.ram, Registered(ls, i + 1), tr.env);
    HandledConcat(w, ls[i], Registered(ls, i + 1), env);
  }

  lemma {:induction false} DispatchedInOrder(t: Table, w: seq<Word>, ls: Chains, i: nat, env: seq<Reaction>)
    requires Holds(t, w, ls) && i <= HANDLER_MAX && LegalDispatch(t, w, ls, i, env)
    requires AllKeep(Dispatched(t, w, ls, i, env).calls)
    ensures var tr := Dispatched(t, w, ls, i, env);
            tr.visited == Registered(ls, i) && tr.handled == Handled(w, Registered(ls, i), env)
    decreases HANDLER_MAX - i
  {
    if i < HANDLER_MAX {
      hide Dispatched, Walked, LegalDispatch, LegalWalk, Links, Apart, WordAt, Registered, Handled, Plainly, LooseApart;
      assert t.Fits() && |w| == RAM_SIZE / 4;
      var s := Begun(w, ls, i);
      DispatchedNext(t, w, ls, i, env);
      BegunSound(t, w, ls, i);
      WalkedSound(t, s, env);
      var tr := Walked(t, s, env);
      var later := Dispatched(t, tr.end.ram, tr.end.ls, i + 1, tr.env);
      assert Dispatched(t, w, ls, i, env).calls == tr.calls + later.calls;
      KeepSplit(tr.calls, later.calls);
      WalkedPlainly(t, s, env);
      DispatchedInOrder(t, tr.end.ram, tr.end.ls, i + 1, tr.env);
      PlainlyNext(w, ls, i, env, tr, later);
    }
  }

  lemma KeepSplit(a: seq<Called>, b: seq<Called>)
    requires AllKeep(a + b)
    ensures AllKeep(a) && AllKeep(b)
  {
    hide Keeps;
    assert forall c :: c in a || c in b ==> c in a + b;
  }

  // ----- the handlers that run, by the words and results themselves -----

  ghost predicate InRam(w: seq<Word>, ns: seq<Word>) {
    forall k :: 0 <= k < |ns| ==> WordAt(ns[k]) + 2 < |w|
  }

  /** The nodes whose third word, the verifier, is not zero. */
  ghost function Verified(w: seq<Word>, ns: seq<Word>): (r: seq<Word>)
    requires InRam(w, ns)
    ensures InRam(w, r)
    decreases |ns|
  {
    if ns == [] then [] else (if w[WordAt(ns[0]) + 2] != 0 then [ns[0]] else []) + Verified(w, ns[1..])
  }

  function Verdict(env: seq<Reaction>, k: nat): Word {
    if k < |env| then env[k].verdict else 0
  }

  /** The second word of every node from the k-th on whose verifier, the k-th to run, gave a result other than zero,
      with that result. */
  ghost function Fired(w: seq<Word>, ns: seq<Word>, env: seq<Reaction>, k: nat): seq<(Word, Word)>
    requires InRam(w, ns) && k <= |ns|
    decreases |ns| - k
  {
    if k == |ns| then []
    else
      (if Verdict(env, k) != 0 then [(w[WordAt(ns[k]) + 1], Verdict(env, k))] else []) + Fired(w, ns, env, k + 1)
  }

  lemma VerdictLater(env: seq<Reaction>, k: nat)
    ensures Verdict(env, k + 1) == Verdict(Later(env), k)
  {
  }

  lemma {:induction false} FiredLater(w: seq<Word>, n: Word, ns: seq<Word>, env: seq<Reaction>, k: nat)
    requires InRam(w, [n] + ns) && k <= |ns|
    ensures InRam(w, ns)
    ensures Fired(w, [n] + ns, env, k + 1) == Fired(w, ns, Later(env), k)
    decreases |ns| - k
  {
    hide WordAt, Verdict, Later;
    assert forall j :: 0 <= j < |ns| ==> ns[j] == ([n] + ns)[j + 1];
    if k < |ns| {
      assert ([n] + ns)[k + 1] == ns[k];
      VerdictLater(env, k);
      FiredLater(w, n, ns, env, k + 1);
    }
  }

  lemma FiredNone(w: seq<Word>, env: seq<Reaction>)
    ensures Fired(w, [], env, 0) == []
  {
  }

  lemma FiredFirst(w: seq<Word>, ns: seq<Word>, env: seq<Reaction>)
    requires InRam(w, ns) && ns != []
    ensures Fired(w, ns, env, 0) == Answer(HandlerOf(w, ns[0]), Next(env)) + Fired(w, ns, env, 1)
  {
    assert HandlerOf(w, ns[0]) == w[WordAt(ns[0]) + 1];
  }

  lemma HandledNext(w: seq<Word>, ns: seq<Word>, env: seq<Reaction>)
    requires InRam(w, ns) && ns != []
    ensures InRam(w, ns[1..]) && WordAt(ns[0]) + 2 < |w|
    ensures w[WordAt(ns[0]) + 2] == 0 ==>
      Handled(w, ns, env) == Handled(w, ns[1..], env) && Verified(w, ns) == Verified(w, ns[1..])
    ensures w[WordAt(ns[0]) + 2] != 0 ==>
      && Handled(w, ns, env) == Answer(HandlerOf(w, ns[0]), Next(env)) + Handled(w, ns[1..], Later(env))
      && Verified(w, ns) == [ns[0]] + Verified(w, ns[1..])
  {
    assert WordAt(ns[0]) + 2 < |w| && forall j :: 0 <= j < |ns[1..]| ==> ns[1..][j] == ns[j + 1];
    assert VerifierOf(w, ns[0]) == w[WordAt(ns[0]) + 2];
    hide VerifierOf, HandlerOf, WordAt, Answer, Next, Later;
    assert [] + Verified(w, ns[1..]) == Verified(w, ns[1..]);
  }

  lemma {:induction false} HandledIsFired(w: seq<Word>, ns: seq<Word>, env: seq<Reaction>)
    requires InRam(w, ns)
    ensures Handled(w, ns, env) == Fired(w, Verified(w, ns), env, 0)
    decreases |ns|
  {
    if ns == [] {
      FiredNone(w, env);
    } else {
      hide InRam, WordAt, VerifierOf, HandlerOf, Fired, Verdict, Handled, Verified, Answer, Next, Later;
      HandledNext(w, ns, env);
      if w[WordAt(ns[0]) + 2] == 0 {
        HandledIsFired(w, ns[1..], env);
      } else {
        HandledIsFired(w, ns[1..], Later(env));
        FiredLater(w, ns[0], Verified(w, ns[1..]), env, 0);
        FiredFirst(w, Verified(w, ns), env);
      }
    }
  }

  lemma NodesInRam(t: Table, w: seq<Word>, ls: Chains, i: nat)
    requires Holds(t, w, ls) && i < HANDLER_MAX
    ensures InRam(w, ls[i])
  {
    hide WordAt, Links, Separate;
    forall k | 0 <= k < |ls[i]| ensures WordAt(ls[i][k]) + 2 < |w| {
      assert t.Outside(ls[i][k]);
    }
  }

  lemma InRamConcat(w: seq<Word>, a: seq<Word>, b: seq<Word>)
    requires InRam(w, a) && InRam(w, b)
    ensures InRam(w, a + b)
  {
    hide WordAt;
  }

  lemma RegisteredInRam(t: Table, w: seq<Word>, ls: Chains)
    requires Holds(t, w, ls)
    ensures Registered(ls, 0) == ls[0] + ls[1] + ls[2] + ls[3] && InRam(w, ls[0] + ls[1] + ls[2] + ls[3])
  {
    hide Holds, InRam;
    NodesInRam(t, w, ls, 0);
    NodesInRam(t, w, ls, 1);
    NodesInRam(t, w, ls, 2);
    NodesInRam(t, w, ls, 3);
    InRamConcat(w, ls[0], ls[1]);
    InRamConcat(w, ls[0] + ls[1], ls[2]);
    InRamConcat(w, ls[0] + ls[1] + ls[2], ls[3]);
    assert Registered(ls, 4) == [];
    assert Registered(ls, 3) == ls[3] + Registered(ls, 4) && Registered(ls, 2) == ls[2] + Registered(ls, 3);
    assert Registered(ls, 1) == ls[1] + Registered(ls, 2);
  }

  /** When no call moves what is still to come, the walk visits exactly the nodes registered when it begins, in
      order of priority and the most recently enqueued first, and runs exactly the handlers whose verifier did not
      return zero, each with its verifier's result. */
  lemma DispatchedPlainly(t: Table, w: seq<Word>, ls: Chains, env: seq<Reaction>)
    requires Holds(t, w, ls) && LegalDispatch(t, w, ls, 0, env) && AllKeep(Dispatched(t, w, ls, 0, env).calls)
    ensures var tr, ns := Dispatched(t, w, ls, 0, env), ls[0] + ls[1] + ls[2] + ls[3];
            tr.visited == ns && InRam(w, ns) && tr.handled == Fired(w, Verified(w, ns), env, 0)
  {
    RegisteredInRam(t, w, ls);
    hide Holds, Dispatched, LegalDispatch, AllKeep, Handled, Fired, Verified, Registered;
    DispatchedInOrder(t, w, ls, 0, env);
    HandledIsFired(w, ls[0] + ls[1] + ls[2] + ls[3], env);
  }

  ghost predicate NoneZero(handled: seq<(Word, Word)>) {
    forall k :: 0 <= k < |handled| ==> handled[k].1 != 0
  }

  lemma {:induction false} WalkedNoneZero(t: Table, s: Scene, env: seq<Reaction>)
    requires t.Fits() && |s.ram| == RAM_SIZE / 4
    ensures NoneZero(Walked(t, s, env).handled)
    decreases |env|, |s.Path()|
  {
    hide Acted, HandlerOf, VerifierOf, Table.Fits, CalledAll;
    if s.Path() != [] {
      if VerifierOf(s.ram, s.Path()[0]) == 0 {
        WalkedNoneZero(t, s.Popped(), env);
      } else {
        WalkedNoneZero(t, ActedAll(t, s.Popped(), Made(Next(env))), Later(env));
      }
    }
  }

  /** Whatever callbacks do, no handler runs after a verifier that returned zero. */
  lemma {:induction false} HandlersAnswer(t: Table, w: seq<Word>, ls: Chains, i: nat, env: seq<Reaction>)
    requires t.Fits() && |w| == RAM_SIZE / 4 && i <= HANDLER_MAX
    ensures forall k :: 0 <= k < |Dispatched(t, w, ls, i, env).handled| ==> Dispatched(t, w, ls, i, env).handled[k].1 != 0
    decreases HANDLER_MAX - i
  {
    hide Table.Fits, Walked;
    if i < HANDLER_MAX {
      WalkedNoneZero(t, Begun(w, ls, i), env);
      var tr := Walked(t, Begun(w, ls, i), env);
      HandlersAnswer(t, tr.end.ram, tr.end.ls, i + 1, tr.env);
    }
  }

  /** The calls of a verifier are made whatever it returns, those of the handler after them unless that is zero; who
      makes them is no matter. */
  lemma RoundCalls(t: Table, s: Scene, v: Word, a: seq<Action>, b: seq<Action>)
    requires t.Fits() && |s.ram| == RAM_SIZE / 4
    ensures v != 0 ==> Round(t, s, Reaction(v, a, b)) == Round(t, s, Reaction(1, [], a + b))
    ensures Round(t, s, Reaction(0, a, b)) == Round(t, s, Reaction(1, [], a))
  {
    assert [] + (a + b) == a + b && [] + a == a && a + [] == a;
  }
}
