/** When the walk of a chain ends, whatever its callbacks do round after round. */
module IrqRestarts {
  import opened IrqChains
  import opened IrqVisits
  import opened IrqWalk
  import opened Memory

  /** The first k rounds, with callbacks that may react differently in every one. */
  ghost function Rounds(t: Table, s: Scene, env: nat -> Reaction, k: nat): (q: Scene)
    requires t.Fits() && |s.ram| == RAM_SIZE / 4
    ensures |q.ram| == |s.ram|
  {
    if k == 0 then s else Round(t, Rounds(t, s, env, k - 1), env(k - 1))
  }

  // ----- a walk that never ends -----

  /** A handler that moves the node to the front of chain 0. */
  function ToFront(n: Word): Reaction {
    Reaction(1, [], [Deq(0, n), Enq(0, n)])
  }

  /** The walk is at the first of the two nodes of chain 0. */
  ghost predicate AtFirst(t: Table, s: Scene, a: Word, b: Word) {
    && Sound(t, s) && s.at == 0 && s.loose == [] && s.rest == [a, b] == s.ls[0]
    && VerifierOf(s.ram, a) != 0 && VerifierOf(s.ram, b) != 0
  }

  /** Memory with the two nodes the other way round. */
  ghost function Turned(t: Table, w: seq<Word>, a: Word, b: Word): seq<Word>
    requires t.Fits() && |w| == RAM_SIZE / 4
  {
    WordInRam(a);
    WordInRam(b);
    w[WordAt(a) := 0][t.HeadAt(0) := b][WordAt(b) := a]
  }

  lemma FirstFacts(t: Table, s: Scene, a: Word, b: Word)
    requires AtFirst(t, s, a, b)
    ensures s.ram[t.HeadAt(0)] == a && s.ram[WordAt(a)] == b && s.ram[WordAt(b)] == 0
    ensures a != b && a != 0 && b != 0 && Separate(a, b) && WordAt(a) != WordAt(b)
    ensures WordAt(a) != t.HeadAt(0) && WordAt(b) != t.HeadAt(0) && t.HeadAt(0) < RAM_SIZE / 4
  {
    assert Separate(s.ls[0][0], s.ls[0][1]) && t.Outside(s.ls[0][0]) && t.Outside(s.ls[0][1]);
    NodeNotHead(t, 0, a);
    NodeNotHead(t, 0, b);
    hide WordAt;
    LinksAt(s.ram, s.ram[t.HeadAt(0)], s.ls[0], 0);
    LinksAt(s.ram, s.ram[t.HeadAt(0)], s.ls[0], 1);
    LinksHead(s.ram, s.ram[t.HeadAt(0)], s.ls[0]);
  }

  lemma PairFacts(a: Word, b: Word)
    requires a != b
    ensures IndexOf([a, b], b) == 1 && Without([a, b], b) == [a] && IndexOf([b], b) == 0
    ensures [b] + [a] == [b, a] && [a, b][1..] == [b] && [b][1..] == []
  {
    IndexIs([a, b], b, 1);
    assert [a, b][..1] + [a, b][2..] == [a];
  }

  /** The walk once it has reached the first node, and once the second one is dequeued. */
  ghost function Reached(s: Scene, b: Word): Scene {
    Scene(s.ram, s.ls, 0, [], [b])
  }

  ghost function Unlinked(s: Scene, a: Word, b: Word): Scene
    requires WordAt(a) < |s.ram|
  {
    Scene(s.ram[WordAt(a) := 0], s.ls[0 := [a]], 0, [b], [])
  }

  lemma FrontReached(t: Table, s: Scene, a: Word, b: Word)
    requires AtFirst(t, s, a, b)
    ensures s.Path() != [] && s.Path()[0] == a && s.Popped() == Reached(s, b) && Sound(t, Reached(s, b))
  {
    PoppedSound(t, s);
    hide Sound;
    assert s.Path() == [a, b] && [a, b][1..] == [b];
  }

  lemma FrontUnlinked(t: Table, s: Scene, a: Word, b: Word)
    requires AtFirst(t, s, a, b)
    ensures |s.ram| == RAM_SIZE / 4 && t.Fits() && Legal(t, Reached(s, b), Deq(0, b))
    ensures Acted(t, Reached(s, b), Deq(0, b)) == Unlinked(s, a, b)
  {
    FirstFacts(t, s, a, b);
    PairFacts(a, b);
    assert t.Fits() && |s.ram| == RAM_SIZE / 4;
    hide Sound, WordAt, IndexOf, Without, Table.Fits, Table.HeadAt;
    var p := Reached(s, b);
    assert b in p.rest && b == p.rest[0] && p.rest[1..] == [];
  }

  lemma FrontLinked(t: Table, s: Scene, a: Word, b: Word)
    requires AtFirst(t, s, a, b)
    ensures |s.ram| == RAM_SIZE / 4 && t.Fits() && Legal(t, Unlinked(s, a, b), Enq(0, b))
    ensures Acted(t, Unlinked(s, a, b), Enq(0, b)) == Scene(Turned(t, s.ram, a, b), s.ls[0 := [b, a]], 0, [], [b, a])
  {
    FirstFacts(t, s, a, b);
    PairFacts(a, b);
    FreshAgain(t, s.ls, a, b);
    assert t.Fits() && |s.ram| == RAM_SIZE / 4;
    hide Sound, WordAt, IndexOf, Table.Fits, Table.HeadAt, Fresh;
    var p := Unlinked(s, a, b);
    assert b in p.loose && p.loose[..0] == [];
    assert Enqueued(p.ls, 0, b) == s.ls[0 := [b, a]];
  }

  lemma FrontWords(t: Table, s: Scene, a: Word, b: Word, n: Word)
    requires AtFirst(t, s, a, b) && n in [a, b]
    ensures |s.ram| == RAM_SIZE / 4 && t.Fits() && VerifierOf(Turned(t, s.ram, a, b), n) == VerifierOf(s.ram, n)
    ensures Sound(t, Scene(Turned(t, s.ram, a, b), s.ls[0 := [b, a]], 0, [], [b, a]))
  {
    FrontReached(t, s, a, b);
    FrontUnlinked(t, s, a, b);
    FrontLinked(t, s, a, b);
    assert n in s.ls[0];
    var p, p1 := Reached(s, b), Unlinked(s, a, b);
    assert n in p1.loose || n in p1.ls[0];
    hide Sound, VerifierOf, HandlerOf, Acted, Legal, Turned, Unlinked;
    ActedSound(t, p, Deq(0, b));
    ActedSound(t, p1, Enq(0, b));
    ActedWords(t, p, Deq(0, b), n);
    assert n in p1.Path() || exists j :: 0 <= j < HANDLER_MAX && n in p1.ls[j];
    ActedWords(t, p1, Enq(0, b), n);
  }

  /** The handler of the first node moves the second to the front: the walk comes to that one next, and then to
      the first again. */
  lemma FrontRound(t: Table, s: Scene, a: Word, b: Word)
    requires AtFirst(t, s, a, b)
    ensures |s.ram| == RAM_SIZE / 4 && t.Fits() && s.Path() != [] && LegalAll(t, s.Popped(), Made(ToFront(b)))
    ensures var q := Round(t, s, ToFront(b));
            && q == Scene(Turned(t, s.ram, a, b), s.ls[0 := [b, a]], 0, [], [b, a])
            && AtFirst(t, q, b, a)
  {
    FrontReached(t, s, a, b);
    FrontUnlinked(t, s, a, b);
    FrontLinked(t, s, a, b);
    FrontWords(t, s, a, b, a);
    FrontWords(t, s, a, b, b);
    hide Sound, Acted, Legal, Turned, Unlinked;
    assert Made(ToFront(b)) == [Deq(0, b), Enq(0, b)];
    ActedTwo(t, Reached(s, b), Deq(0, b), Enq(0, b));
  }

  lemma ActedTwo(t: Table, s: Scene, x: Action, y: Action)
    requires t.Fits() && |s.ram| == RAM_SIZE / 4
    ensures ActedAll(t, s, [x, y]) == Acted(t, Acted(t, s, x), y)
    ensures LegalAll(t, s, [x, y]) <==> Legal(t, s, x) && Legal(t, Acted(t, s, x), y)
  {
    assert [x, y][1..] == [y] && [y][1..] == [];
    assert ActedAll(t, Acted(t, s, x), [y]) == ActedAll(t, Acted(t, Acted(t, s, x), y), []);
    assert LegalAll(t, Acted(t, Acted(t, s, x), y), []);
  }

  lemma FreshAgain(t: Table, ls: Chains, a: Word, b: Word)
    requires Apart(t, ls) && ls[0] == [a, b] && b != 0
    ensures Fresh(t, ls[0 := [a]], b)
  {
    assert b == ls[0][1] && a == ls[0][0];
    var ms := ls[0 := [a]];
    forall i, p | 0 <= i < HANDLER_MAX && 0 <= p < |ms[i]| ensures Separate(b, ms[i][p]) {
      assert ms[i][p] == ls[i][p];
      assert Separate(ls[0][1], ls[i][p]);
    }
  }

  lemma WrittenBack(w: seq<Word>, x: nat, h: nat, y: nat, a: Word, b: Word)
    requires x < |w| && h < |w| && y < |w| && x != h && x != y && h != y && w[x] == b && w[h] == a && w[y] == 0
    ensures w[x := 0][h := b][y := a][y := 0][h := a][x := b] == w
  {
  }

  /** After two such rounds memory and the link the walk holds are what they were. */
  lemma TwoRoundsRepeat(t: Table, s: Scene, a: Word, b: Word)
    requires AtFirst(t, s, a, b)
    ensures |s.ram| == RAM_SIZE / 4 && t.Fits() && Round(t, Round(t, s, ToFront(b)), ToFront(a)) == s
  {
    hide Sound, Round, WordAt, Table.HeadAt, Table.Fits, ToFront, VerifierOf, LegalAll, Made;
    FrontRound(t, s, a, b);
    FirstFacts(t, s, a, b);
    FrontRound(t, Round(t, s, ToFront(b)), b, a);
    WordInRam(a);
    WordInRam(b);
    WrittenBack(s.ram, WordAt(a), t.HeadAt(0), WordAt(b), a, b);
    assert s.ls[0 := [b, a]][0 := [a, b]] == s.ls;
  }

  predicate Even(k: nat) {
    k == 0 || !Even(k - 1)
  }

  /** The handlers take turns. */
  ghost function Turns(a: Word, b: Word): nat -> Reaction {
    (k: nat) => if Even(k) then ToFront(b) else ToFront(a)
  }

  lemma RoundsStart(t: Table, s: Scene, env: nat -> Reaction)
    requires t.Fits() && |s.ram| == RAM_SIZE / 4
    ensures Rounds(t, s, env, 0) == s
  {
  }

  lemma RoundsNext(t: Table, s: Scene, env: nat -> Reaction, k: nat)
    requires t.Fits() && |s.ram| == RAM_SIZE / 4
    ensures Rounds(t, s, env, k + 1) == Round(t, Rounds(t, s, env, k), env(k))
  {
  }

  /** Two handlers that each move the other one's node to the front keep the walk from ever ending. */
  lemma {:induction false} NeverEnds(t: Table, s: Scene, a: Word, b: Word, k: nat)
    requires AtFirst(t, s, a, b)
    ensures |s.ram| == RAM_SIZE / 4 && t.Fits()
    ensures Rounds(t, s, Turns(a, b), k) == if Even(k) then s else Round(t, s, ToFront(b))
    ensures Rounds(t, s, Turns(a, b), k).Path() != []
  {
    hide Sound, Round, Turned, ToFront, AtFirst, Table.Fits, Rounds;
    FrontRound(t, s, a, b);
    TwoRoundsRepeat(t, s, a, b);
    if k == 0 {
      RoundsStart(t, s, Turns(a, b));
    } else {
      NeverEnds(t, s, a, b, k - 1);
      RoundsNext(t, s, Turns(a, b), k - 1);
    }
  }

  // ----- when it ends -----

  /** In this round a callback enqueues a loose node, which sends the walk through a whole chain. */
  ghost predicate Restarts(t: Table, s: Scene, r: Reaction)
    requires t.Fits() && |s.ram| == RAM_SIZE / 4
  {
    && s.Path() != [] && VerifierOf(s.ram, s.Path()[0]) != 0
    && exists c :: c in CalledAll(t, s.Popped(), Made(r)) && c.action.Enq? && c.action.n in c.scene.loose
  }

  lemma ActedShrinks(t: Table, s: Scene, a: Action)
    requires t.Fits() && |s.ram| == RAM_SIZE / 4 && !(a.Enq? && a.n in s.loose)
    ensures |Acted(t, s, a).Path()| <= |s.Path()|
  {
  }

  lemma {:induction false} ActedAllShrinks(t: Table, s: Scene, acts: seq<Action>)
    requires t.Fits() && |s.ram| == RAM_SIZE / 4
    requires forall c :: c in CalledAll(t, s, acts) ==> !(c.action.Enq? && c.action.n in c.scene.loose)
    ensures |ActedAll(t, s, acts).Path()| <= |s.Path()|
    decreases |acts|
  {
    if acts != [] {
      var first, calls := Called(s, acts[0]), CalledAll(t, s, acts);
      assert calls[0] == first && calls[1..] == CalledAll(t, Acted(t, s, acts[0]), acts[1..]);
      assert first in calls;
      ActedShrinks(t, s, acts[0]);
      ActedAllShrinks(t, Acted(t, s, acts[0]), acts[1..]);
    }
  }

  lemma RoundShrinks(t: Table, s: Scene, r: Reaction)
    requires t.Fits() && |s.ram| == RAM_SIZE / 4 && !Restarts(t, s, r)
    ensures |Round(t, s, r).Path()| <= if s.Path() == [] then 0 else |s.Path()| - 1
  {
    if s.Path() != [] && VerifierOf(s.ram, s.Path()[0]) != 0 {
      ActedAllShrinks(t, s.Popped(), Made(r));
    }
  }

  ghost predicate RestartsAt(t: Table, s: Scene, env: nat -> Reaction, k: nat)
    requires t.Fits() && |s.ram| == RAM_SIZE / 4
  {
    Restarts(t, Rounds(t, s, env, k), env(k))
  }

  /** No round from m on restarts the walk. */
  ghost predicate CalmFrom(t: Table, s: Scene, env: nat -> Reaction, m: nat)
    requires t.Fits() && |s.ram| == RAM_SIZE / 4
  {
    forall k :: k >= m ==> !RestartsAt(t, s, env, k)
  }

  lemma {:induction false} RoundsShrink(t: Table, s: Scene, env: nat -> Reaction, m: nat, i: nat)
    requires t.Fits() && |s.ram| == RAM_SIZE / 4 && CalmFrom(t, s, env, m)
    ensures var l := |Rounds(t, s, env, m).Path()|; |Rounds(t, s, env, m + i).Path()| <= if i <= l then l - i else 0
  {
    if i > 0 {
      RoundsShrink(t, s, env, m, i - 1);
      assert !RestartsAt(t, s, env, m + i - 1);
      RoundsNext(t, s, env, m + i - 1);
      RoundShrinks(t, Rounds(t, s, env, m + i - 1), env(m + i - 1));
      hide Restarts, Rounds, Round;
    }
  }

  lemma {:induction false} RoundsStay(t: Table, s: Scene, env: nat -> Reaction, m: nat, k: nat)
    requires t.Fits() && |s.ram| == RAM_SIZE / 4 && m <= k && Rounds(t, s, env, m).Path() == []
    ensures Rounds(t, s, env, k).Path() == [] && !RestartsAt(t, s, env, k)
  {
    if m < k {
      RoundsStay(t, s, env, m, k - 1);
      RoundsNext(t, s, env, k - 1);
    }
  }

  /** The walk ends exactly when callbacks at some point stop enqueueing loose nodes. */
  lemma EndsIffRestartsStop(t: Table, s: Scene, env: nat -> Reaction)
    requires t.Fits() && |s.ram| == RAM_SIZE / 4
    ensures (exists k: nat :: Rounds(t, s, env, k).Path() == []) <==> (exists m: nat :: CalmFrom(t, s, env, m))
  {
    hide Rounds, RestartsAt;
    if k: nat :| Rounds(t, s, env, k).Path() == [] {
      forall i | i >= k ensures !RestartsAt(t, s, env, i) {
        RoundsStay(t, s, env, k, i);
      }
      assert CalmFrom(t, s, env, k);
    }
    if m: nat :| CalmFrom(t, s, env, m) {
      var l := |Rounds(t, s, env, m).Path()|;
      RoundsShrink(t, s, env, m, l);
      assert Rounds(t, s, env, m + l).Path() == [];
    }
  }
}
