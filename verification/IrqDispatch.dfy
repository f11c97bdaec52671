/** SysEnqIntRP, SysDeqIntRP and the walk over the chains, on the words of main memory. */
module IrqDispatch {
  import opened IrqChains
  import opened IrqWalk
  import opened Memory

  class Handlers {
    const ram: array<Word>

    constructor ()
      ensures fresh(ram) && ram.Length == RAM_SIZE / 4
    {
      ram := new Word[RAM_SIZE / 4](_ => 0);
    }

    /** BIOS call C(02h), for any node: the chains stay sound exactly when it is a fresh one. */
    method SysEnqIntRP(a0: nat, a1: Word, ghost t: Table, ghost ls: Chains)
      requires Holds(t, ram[..], ls) && a0 < HANDLER_MAX
      modifies ram
      ensures ram[..] == EnqueuedRam(t, old(ram[..]), a0, a1)
      ensures Holds(t, ram[..], Enqueued(ls, a0, a1)) <==> Fresh(t, ls, a1)
      ensures Fresh(t, ls, a1) ==>
        var head := (t.handlers + 8 * a0) / 4;
        head < ram.Length && ram[head] == a1 && ram[WordAt(a1)] == old(ram[..])[head]
    {
      EnqueueHoldsIff(t, ram[..], ls, a0, a1);
      WordInRam(a1);
      HeadAddress(t, a0);
      hide HandlerPtr;
      var handlers := ram[G_HANDLERS / 4];
      var handlerPtr := HandlerPtr(handlers, a0);
      var head := ram[WordAt(handlerPtr)];
      ram[WordAt(handlerPtr)] := a1;
      ram[WordAt(a1)] := head;
    }

    /** BIOS call C(03h). The node is taken out of its chain, or nothing changes, unless the node is null: the code
        then takes the end of a nonempty chain for it, and the last link receives the word at address zero. */
    method SysDeqIntRP(a0: nat, a1: Word, ghost t: Table, ghost ls: Chains)
      requires Holds(t, ram[..], ls) && a0 < HANDLER_MAX
      modifies ram
      ensures a1 != 0 ==> ram[..] == DequeuedRam(t, old(ram[..]), ls, a0, a1)
      ensures a1 != 0 ==> Holds(t, ram[..], Dequeued(ls, a0, a1))
      ensures a1 == 0 ==> ram[..] == NullDequeuedRam(old(ram[..]), ls[a0])
    {
      hide WordAt, Holds, Links, Dequeued, Without, IndexOf, Apart, Table.Fits, Table.HeadAt, HandlerPtr;
      ghost var w, ns := ram[..], ls[a0];
      DequeueFacts(t, w, ls, a0, a1);
      HeadAddress(t, a0);
      var handlers := ram[G_HANDLERS / 4];
      var handlerPtr := HandlerPtr(handlers, a0);
      var head := ram[WordAt(handlerPtr)];
      if head == 0 {
      } else if head == a1 {
        LinksAt(w, head, ns, 0);
        var next := ram[WordAt(head)];
        ram[WordAt(handlerPtr)] := next;
      } else {
        var prev, next, k := SearchLink(head, a1, ns);
        IndexIs(ns, a1, k + 1);
        if next == a1 {
          LinksAt(w, head, ns, k);
          if a1 != 0 {
            LinksAt(w, head, ns, k + 1);
          }
          var nextNext := ram[WordAt(next)];
          ram[WordAt(prev)] := nextNext;
        }
      }
    }

    /** The search of SysDeqIntRP: it ends at the link to the node, or at the end of the chain. */
    method SearchLink(head: Word, a1: Word, ghost ns: seq<Word>) returns (prev: Word, next: Word, ghost k: nat)
      requires Links(ram[..], head, ns) && head != 0 && head != a1
      ensures k < |ns| && prev == ns[k] && next == if k + 1 < |ns| then ns[k + 1] else 0
      ensures next == 0 || next == a1
      ensures next == 0 <==> k + 1 == |ns|
      ensures forall j :: 0 <= j <= k ==> ns[j] != a1
    {
      hide WordAt;
      ghost var w := ram[..];
      LinksHead(w, head, ns);
      LinksAt(w, head, ns, 0);
      hide Links;
      prev := head;
      next := ram[WordAt(prev)];
      k := 0;
      while next != 0 && next != a1
        invariant k < |ns| && prev == ns[k]
        invariant next == if k + 1 < |ns| then ns[k + 1] else 0
        invariant forall j :: 0 <= j <= k ==> ns[j] != a1
        decreases |ns| - k
      {
        LinksAt(w, head, ns, k + 1);
        prev := next;
        next := ram[WordAt(prev)];
        k := k + 1;
      }
      if k + 1 < |ns| {
        LinksAt(w, head, ns, k + 1);
      }
    }

    /** The calls of a callback. */
    method Perform(acts: seq<Action>, ghost t: Table, ghost s: Scene)
      requires Sound(t, s) && s.ram == ram[..] && LegalAll(t, s, acts)
      modifies ram
      ensures ram[..] == ActedAll(t, s, acts).ram && Sound(t, ActedAll(t, s, acts))
    {
      ghost var q := s;
      assert acts[0..] == acts;
      for i := 0 to |acts|
        invariant Sound(t, q) && q.ram == ram[..] && LegalAll(t, q, acts[i..])
        invariant ActedAll(t, q, acts[i..]) == ActedAll(t, s, acts)
      {
        ghost var next := Acted(t, q, acts[i]);
        assert acts[i..][1..] == acts[i + 1..];
        ActedSound(t, q, acts[i]);
        CallSound(t, q, acts[i]);
        hide Sound, Acted, Legal, Links, WordAt;
        match acts[i] {
          case Enq(j, n) => SysEnqIntRP(j, n, t, q.ls);
          case Deq(j, n) => SysDeqIntRP(j, n, t, q.ls);
        }
        q := next;
      }
      assert acts[|acts|..] == [];
    }

    /** The verifier of a node, and its handler if the verifier's result is not zero. */
    method React(handler: Word, reaction: Reaction, ghost t: Table, ghost s: Scene) returns (handled: seq<(Word, Word)>)
      requires Sound(t, s) && s.ram == ram[..] && LegalAll(t, s, Made(reaction))
      modifies ram
      ensures var made := if reaction.verdict == 0 then reaction.verifier else reaction.verifier + reaction.handler;
              made == Made(reaction) && ram[..] == ActedAll(t, s, made).ram && Sound(t, ActedAll(t, s, made))
      ensures handled == if reaction.verdict == 0 then [] else [(handler, reaction.verdict)]
    {
      assert t.Fits() && |s.ram| == RAM_SIZE / 4;
      hide Sound;
      var v0 := reaction.verdict;
      if v0 == 0 {
        assert Made(reaction) == reaction.verifier;
        Perform(reaction.verifier, t, s);
        return [];
      }
      LegalSplit(t, s, reaction.verifier, reaction.handler);
      Perform(reaction.verifier, t, s);
      Perform(reaction.handler, t, ActedAll(t, s, reaction.verifier));
      return [(handler, v0)];
    }

    /** One round of the walk: the next link is read before the verifier and the handler are called. */
    method Visit(queue: Word, env: seq<Reaction>, ghost t: Table, ghost s: Scene)
      returns (head: Word, handled: seq<(Word, Word)>, later: seq<Reaction>, ghost q: Scene)
      requires Sound(t, s) && s.ram == ram[..] && s.Path() != [] && queue == s.Head() && LegalWalk(t, s, env)
      modifies ram
      ensures Sound(t, q) && q == Round(t, s, Next(env)) && q.ram == ram[..] && head == q.Head()
      ensures LegalWalk(t, q, later) && Walked(t, s, env) == VisitThen(t, s, env, handled, Walked(t, q, later))
      ensures |later| < |env| || (later == env && |q.Path()| < |s.Path()|)
    {
      assert t.Fits() && |s.ram| == RAM_SIZE / 4;
      PoppedSound(t, s);
      WalkedNext(t, s, env);
      ghost var p := s.Popped();
      head := ram[WordAt(queue)];
      var handler := ram[WordAt(queue) + 1];
      var verifier := ram[WordAt(queue) + 2];
      assert handler == HandlerOf(s.ram, queue) && verifier == VerifierOf(s.ram, queue);
      hide Sound, WordAt, HandlerOf, VerifierOf, Walked, LegalWalk, Made;
      if verifier == 0 {
        return head, [], env, p;
      }
      var reaction := Next(env);
      handled := React(handler, reaction, t, p);
      q := ActedAll(t, p, Made(reaction));
      ActedAllHead(t, p, Made(reaction));
      later := Later(env);
    }

    /** The walk over one chain. */
    method WalkChain(i: nat, handlerPtr: int, env0: seq<Reaction>, ghost t: Table, ghost ls0: Chains)
      returns (visited: seq<Word>, handled: seq<(Word, Word)>, env: seq<Reaction>, ghost ls: Chains)
      requires Holds(t, ram[..], ls0) && i < HANDLER_MAX && handlerPtr == HandlerPtr(KSEG0 + t.handlers, i)
      requires LegalWalk(t, Begun(ram[..], ls0, i), env0)
      modifies ram
      ensures Holds(t, ram[..], ls)
      ensures var tr := Walked(t, Begun(old(ram[..]), ls0, i), env0);
              visited == tr.visited && handled == tr.handled && env == tr.env && ram[..] == tr.end.ram && ls == tr.end.ls
    {
      ghost var s0 := Begun(ram[..], ls0, i);
      ghost var tr, s := Walked(t, s0, env0), s0;
      visited, handled, env := [], [], env0;
      SoFarStarts(tr);
      HeadAddress(t, i);
      BegunSound(t, ram[..], ls0, i);
      var head := ram[WordAt(handlerPtr)];
      assert t.Fits() && ram.Length == RAM_SIZE / 4;
      hide Sound, Walked, LegalWalk, WordAt, Round, VisitThen, SoFar, Holds, Table.Fits, Table.HeadAt, HandlerPtr;
      while head != 0
        invariant Sound(t, s) && s.ram == ram[..] && head == s.Head() && LegalWalk(t, s, env)
        invariant SoFar(visited, handled, Walked(t, s, env), tr)
        decreases |env|, |s.Path()|
      {
        ghost var done, before, r, left := visited, handled, s, env;
        var queue, more := head, [];
        head, more, env, s := Visit(queue, env, t, s);
        visited := visited + [queue];
        handled := handled + more;
        SoFarNext(t, r, left, done, before, more, Walked(t, s, env), tr);
      }
      if s.Path() != [] {
        PoppedSound(t, s);
      }
      WalkedAll(t, s, env, visited, handled, tr);
      SoundHolds(t, s);
      ls := s.ls;
    }

    /** The walk of psxBiosException80. It always ends, whatever legal calls the callbacks make, with sound chains;
        the nodes visited and the handlers run are those of IrqWalk.Dispatched. */
    method Dispatch(env0: seq<Reaction>, ghost t: Table, ghost ls0: Chains)
      returns (visited: seq<Word>, handled: seq<(Word, Word)>, ghost ls: Chains)
      requires Holds(t, ram[..], ls0) && LegalDispatch(t, ram[..], ls0, 0, env0)
      modifies ram
      ensures Holds(t, ram[..], ls)
      ensures var tr := Dispatched(t, old(ram[..]), ls0, 0, env0);
              visited == tr.visited && handled == tr.handled && ram[..] == tr.end.ram && ls == tr.end.ls
    {
      hide Dispatched, LegalDispatch, Walked, LegalWalk, SoFar, HandlerPtr, Links, Apart, WordAt, Begun;
      assert t.Fits() && ram.Length == RAM_SIZE / 4;
      hide Holds, Table.Fits;
      ghost var tr := Dispatched(t, ram[..], ls0, 0, env0);
      var env := env0;
      visited, handled, ls := [], [], ls0;
      var handlerPtr: int := ram[G_HANDLERS / 4];
      SoFarStarts(tr);
      TableAt(t, ram[..], ls0);
      HandlerPtrNext(handlerPtr, 0);
      for i := 0 to HANDLER_MAX
        invariant Holds(t, ram[..], ls) && LegalDispatch(t, ram[..], ls, i, env)
        invariant handlerPtr == HandlerPtr(KSEG0 + t.handlers, i)
        invariant SoFar(visited, handled, Dispatched(t, ram[..], ls, i, env), tr)
      {
        visited, handled, env, ls := OneChain(i, handlerPtr, visited, handled, env, t, ls, tr);
        HandlerPtrNext(KSEG0 + t.handlers, i);
        handlerPtr := handlerPtr + SIZEOF_HANDLER;
      }
      DispatchedAll(t, ram[..], ls, env, visited, handled, tr);
    }

    /** One chain more of the walk. */
    method OneChain(i: nat, handlerPtr: int, visited0: seq<Word>, handled0: seq<(Word, Word)>, env0: seq<Reaction>,
                    ghost t: Table, ghost ls0: Chains, ghost tr: Trace)
      returns (visited: seq<Word>, handled: seq<(Word, Word)>, env: seq<Reaction>, ghost ls: Chains)
      requires Holds(t, ram[..], ls0) && i < HANDLER_MAX && handlerPtr == HandlerPtr(KSEG0 + t.handlers, i)
      requires LegalDispatch(t, ram[..], ls0, i, env0)
      requires SoFar(visited0, handled0, Dispatched(t, ram[..], ls0, i, env0), tr)
      modifies ram
      ensures Holds(t, ram[..], ls) && LegalDispatch(t, ram[..], ls, i + 1, env)
      ensures SoFar(visited, handled, Dispatched(t, ram[..], ls, i + 1, env), tr)
    {
      assert t.Fits() && ram.Length == RAM_SIZE / 4;
      DispatchedNext(t, ram[..], ls0, i, env0);
      SoFarChain(t, ram[..], ls0, i, env0, visited0, handled0, tr);
      hide Holds, Walked, LegalWalk, Dispatched, LegalDispatch, SoFar, Table.Fits, HandlerPtr, Begun;
      var nodes, calls;
      nodes, calls, env, ls := WalkChain(i, handlerPtr, env0, t, ls0);
      visited := visited0 + nodes;
      handled := handled0 + calls;
    }
  }

  lemma DequeueFacts(t: Table, w: seq<Word>, ls: Chains, i: nat, n: Word)
    requires Holds(t, w, ls) && i < HANDLER_MAX
    ensures t.Fits() && |w| == RAM_SIZE / 4 && w[G_HANDLERS / 4] == KSEG0 + t.handlers && WordAt(0) == 0
    ensures t.HeadAt(i) < |w| && Links(w, w[t.HeadAt(i)], ls[i])
    ensures w[t.HeadAt(i)] == if ls[i] == [] then 0 else ls[i][0]
    ensures w[t.HeadAt(i)] == 0 <==> ls[i] == []
    ensures n != 0 ==> Holds(t, DequeuedRam(t, w, ls, i, n), Dequeued(ls, i, n))
  {
    LinksHead(w, w[t.HeadAt(i)], ls[i]);
    if n != 0 {
      DequeueHolds(t, w, ls, i, n);
    }
  }

  // ----- the trace so far -----

  /** What is done and what the rest of the walk gives, against the whole walk. */
  ghost predicate SoFar(visited: seq<Word>, handled: seq<(Word, Word)>, rest: Trace, tr: Trace) {
    visited + rest.visited == tr.visited && handled + rest.handled == tr.handled && rest.end == tr.end && rest.env == tr.env
  }

  lemma SoFarStarts(tr: Trace)
    ensures SoFar([], [], tr, tr)
  {
    assert [] + tr.visited == tr.visited && [] + tr.handled == tr.handled;
  }

  lemma TableAt(t: Table, w: seq<Word>, ls: Chains)
    requires Holds(t, w, ls)
    ensures G_HANDLERS / 4 < |w| && w[G_HANDLERS / 4] == KSEG0 + t.handlers
  {
  }

  lemma SoundHolds(t: Table, s: Scene)
    requires Sound(t, s)
    ensures Holds(t, s.ram, s.ls)
  {
  }

  lemma SoFarThen(visited: seq<Word>, handled: seq<(Word, Word)>, ns: seq<Word>, more: seq<(Word, Word)>,
                  calls: seq<Called>, rest: Trace, tr: Trace)
    requires SoFar(visited, handled, Then(ns, more, calls, rest), tr)
    ensures SoFar(visited + ns, handled + more, rest, tr)
  {
    assert visited + (ns + rest.visited) == (visited + ns) + rest.visited;
    assert handled + (more + rest.handled) == (handled + more) + rest.handled;
  }

  ghost function VisitThen(t: Table, s: Scene, env: seq<Reaction>, handled: seq<(Word, Word)>, rest: Trace): Trace
    requires t.Fits() && |s.ram| == RAM_SIZE / 4 && s.Path() != []
  {
    Then([s.Head()], handled,
         if VerifierOf(s.ram, s.Head()) == 0 then [] else CalledAll(t, s.Popped(), Made(Next(env))), rest)
  }

  lemma SoFarNext(t: Table, s: Scene, env: seq<Reaction>, visited: seq<Word>, handled: seq<(Word, Word)>,
                  more: seq<(Word, Word)>, rest: Trace, tr: Trace)
    requires t.Fits() && |s.ram| == RAM_SIZE / 4 && s.Path() != []
    requires SoFar(visited, handled, Walked(t, s, env), tr) && Walked(t, s, env) == VisitThen(t, s, env, more, rest)
    ensures SoFar(visited + [s.Head()], handled + more, rest, tr)
  {
    hide Walked, SoFar;
    SoFarThen(visited, handled, [s.Head()], more,
              if VerifierOf(s.ram, s.Head()) == 0 then [] else CalledAll(t, s.Popped(), Made(Next(env))), rest, tr);
  }

  lemma WalkedNext(t: Table, s: Scene, env: seq<Reaction>)
    requires t.Fits() && |s.ram| == RAM_SIZE / 4 && s.Path() != [] && LegalWalk(t, s, env)
    ensures var n, p, q := s.Path()[0], s.Popped(), Round(t, s, Next(env));
            && n == s.Head()
            && (VerifierOf(s.ram, n) == 0 ==>
                  && q == p && LegalWalk(t, p, env)
                  && Walked(t, s, env) == VisitThen(t, s, env, [], Walked(t, p, env)))
            && (VerifierOf(s.ram, n) != 0 ==>
                  && LegalAll(t, p, Made(Next(env))) && LegalWalk(t, q, Later(env))
                  && q == ActedAll(t, p, Made(Next(env))) && (env == [] ==> q == p)
                  && Walked(t, s, env) ==
                     VisitThen(t, s, env, Answer(HandlerOf(s.ram, n), Next(env)), Walked(t, q, Later(env))))
  {
  }

  lemma WalkedAll(t: Table, s: Scene, env: seq<Reaction>, visited: seq<Word>, handled: seq<(Word, Word)>, tr: Trace)
    requires t.Fits() && |s.ram| == RAM_SIZE / 4 && s.Path() == [] && SoFar(visited, handled, Walked(t, s, env), tr)
    ensures visited == tr.visited && handled == tr.handled && s == tr.end && env == tr.env
  {
    assert visited + [] == visited && handled + [] == handled;
  }

  lemma DispatchedAll(t: Table, w: seq<Word>, ls: Chains, env: seq<Reaction>, visited: seq<Word>,
                      handled: seq<(Word, Word)>, tr: Trace)
    requires t.Fits() && |w| == RAM_SIZE / 4 && SoFar(visited, handled, Dispatched(t, w, ls, HANDLER_MAX, env), tr)
    ensures visited == tr.visited && handled == tr.handled && w == tr.end.ram && ls == tr.end.ls
  {
    assert visited + [] == visited && handled + [] == handled;
  }

  lemma SoFarChain(t: Table, w: seq<Word>, ls: Chains, i: nat, env: seq<Reaction>, visited: seq<Word>,
                   handled: seq<(Word, Word)>, all: Trace)
    requires t.Fits() && |w| == RAM_SIZE / 4 && i < HANDLER_MAX
    requires SoFar(visited, handled, Dispatched(t, w, ls, i, env), all)
    ensures var tr := Walked(t, Begun(w, ls, i), env);
            SoFar(visited + tr.visited, handled + tr.handled, Dispatched(t, tr.end.ram, tr.end.ls, i + 1, tr.env), all)
  {
    hide SoFar, Walked;
    var tr := Walked(t, Begun(w, ls, i), env);
    SoFarThen(visited, handled, tr.visited, tr.handled, tr.calls, Dispatched(t, tr.end.ram, tr.end.ls, i + 1, tr.env), all);
  }

  lemma {:induction false} LegalSplit(t: Table, s: Scene, a: seq<Action>, b: seq<Action>)
    requires t.Fits() && |s.ram| == RAM_SIZE / 4 && LegalAll(t, s, a + b)
    ensures LegalAll(t, s, a) && LegalAll(t, ActedAll(t, s, a), b)
    ensures ActedAll(t, s, a + b) == ActedAll(t, ActedAll(t, s, a), b)
    decreases |a|
  {
    hide Acted, Legal;
    if a == [] {
      assert a + b == b;
    } else {
      assert (a + b)[1..] == a[1..] + b;
      LegalSplit(t, Acted(t, s, a[0]), a[1..], b);
    }
  }

  /** What SysEnqIntRP and SysDeqIntRP need of a legal call, and what they write. */
  lemma CallSound(t: Table, s: Scene, a: Action)
    requires Sound(t, s) && Legal(t, s, a)
    ensures Holds(t, s.ram, s.ls) && a.i < HANDLER_MAX
    ensures a.Enq? ==> Fresh(t, s.ls, a.n) && Acted(t, s, a).ram == EnqueuedRam(t, s.ram, a.i, a.n)
    ensures a.Deq? ==> a.n != 0 && Acted(t, s, a).ram == DequeuedRam(t, s.ram, s.ls, a.i, a.n)
  {
  }

  /** The address of chain head i, in the table at handlers. */
  function HandlerPtr(handlers: int, i: int): int {
    handlers + i * SIZEOF_HANDLER
  }

  lemma HandlerPtrNext(handlers: int, i: int)
    ensures HandlerPtr(handlers, 0) == handlers
    ensures HandlerPtr(handlers, i) + SIZEOF_HANDLER == HandlerPtr(handlers, i + 1)
  {
  }

  /** The word PSXM finds there. */
  lemma HeadAddress(t: Table, i: nat)
    requires t.Fits() && i < HANDLER_MAX
    ensures WordAt(HandlerPtr(KSEG0 + t.handlers, i)) == t.HeadAt(i) < RAM_SIZE / 4
  {
    assert HandlerPtr(KSEG0 + t.handlers, i) % RAM_SIZE == t.handlers + i * SIZEOF_HANDLER;
  }
}
