/** Which action a completed search returns. The tie rule compares a fail-soft bound with
    an exact score, so the action is optimal exactly when the root actions are searched in
    ascending key order. */
module TieBreak {
  import opened Rules
  import opened Minimax
  import opened AlphaBeta
  import opened Counting

  /** `a` has the best minimax value among `acts`, and the smallest key among those that do. */
  ghost predicate LeastKeyOptimal<P>(c: Config<P>, p: P, depth: nat, acts: seq<Action>, a: Action, fault: int)
    requires depth > 0
  {
    var v := Child(c.game, c.root, p, depth, c.quiet, 0, a, fault);
    && a in acts
    && forall b :: b in acts ==>
         var w := Child(c.game, c.root, p, depth, c.quiet, 0, b, fault);
         NoBetter(Maximizing(c.game, p, c.root), w, v) && (w == v ==> !KeyLess(b, a))
  }

  ghost predicate BestSoFar<P>(c: Config<P>, p: P, depth: nat, done: seq<Action>, f: Frontier, fault: int)
    requires depth > 0
  {
    match f.best
    case None => done == [] && f == Frontier(NEG_INFINITY, POS_INFINITY, None)
    case Some(best) =>
      var s := best.node.score;
      && best.node.pv != [] && best.node.pv[0] == best.key
      && LeastKeyOptimal(c, p, depth, done, best.key, fault)
      && s == Child(c.game, c.root, p, depth, c.quiet, 0, best.key, fault)
      && -MATE_SCORE <= s <= MATE_SCORE
      && f.alpha == (if Maximizing(c.game, p, c.root) then s else NEG_INFINITY)
      && f.beta == (if Maximizing(c.game, p, c.root) then POS_INFINITY else s)
  }

  lemma {:induction false} ExpandLeastKey<P(!new)>(c: Config<P>, p: P, depth: nat, done: seq<Action>, acts: seq<Action>,
                                                   prior: seq<Action>, f: Frontier, fault: int)
    requires Contract(c) && depth > 0
    requires Ascending(done + acts)
    requires BestSoFar(c, p, depth, done, f, fault)
    requires Expand(c, p, depth, 0, acts, prior, f).Done?
    ensures var node := Expand(c, p, depth, 0, acts, prior, f).node;
            node.pv != [] && LeastKeyOptimal(c, p, depth, done + acts, node.pv[0], fault)
    decreases |acts|
  {
    if acts == [] {
      assert done + acts == done;
    } else {
      var a := acts[0];
      var next := c.game.apply(p, a).value;
      var rest := ChildPrior(prior, a);
      ExploreExact(c, next, depth - 1, NextPly(0), f.alpha, f.beta, rest, fault);
      ExploreWitness(c, next, depth - 1, NextPly(0), f.alpha, f.beta, rest);
      var child := Explore(c, next, depth - 1, NextPly(0), f.alpha, f.beta, rest).node;
      WitnessInRange(c, next, NextPly(0), child);
      forall b | b in done
        ensures !KeyLess(a, b)
      {
        var i :| 0 <= i < |done| && done[i] == b;
        assert (done + acts)[i] == b && (done + acts)[|done|] == a;
      }
      KeysOrderActions(a, a, a);
      assert forall b :: b in done + [a] <==> b in done || b == a;
      assert (done + [a]) + acts[1..] == done + acts;
      var f' := Absorb(Maximizing(c.game, p, c.root), f, a, child);
      AbsorbKeepsBest(c, p, depth, done, f, a, child, fault);
      ExpandLeastKey(c, p, depth, done + [a], acts[1..], prior, f', fault);
    }
  }

  lemma AbsorbKeepsBest<P(!new)>(c: Config<P>, p: P, depth: nat, done: seq<Action>, f: Frontier, a: Action,
                                 child: Node, fault: int)
    requires depth > 0 && BestSoFar(c, p, depth, done, f, fault)
    requires !KeyLess(a, a) && forall b :: b in done ==> !KeyLess(a, b)
    requires FailSoft(child.score, Child(c.game, c.root, p, depth, c.quiet, 0, a, fault), f.alpha, f.beta)
    requires -MATE_SCORE <= child.score <= MATE_SCORE
    ensures BestSoFar(c, p, depth, done + [a], Absorb(Maximizing(c.game, p, c.root), f, a, child), fault)
  {
    assert forall b :: b in done + [a] <==> b in done || b == a;
  }

  /** If the orderer lists the root actions in ascending key order, the action of every
      completed iteration is the least-key action of optimal minimax value, however the
      orderer treats the rest of the tree. */
  lemma AscendingRootIsOptimal<P(!new)>(c: Config<P>, p: P, depth: nat, prior: seq<Action>, fault: int)
    requires Contract(c) && depth > 0
    requires Root(c, p, depth, prior).Done?
    requires Ascending(Ordered(c, p, First(prior)).value)
    ensures var node := Root(c, p, depth, prior).node;
            node.pv != [] && LeastKeyOptimal(c, p, depth, c.game.legal(p).value, node.pv[0], fault)
  {
    var acts := c.game.legal(p).value;
    var ordered := c.order(p, acts, First(prior));
    SameElements(acts, ordered);
    assert [] + ordered == ordered;
    ExpandLeastKey(c, p, depth, [], ordered, prior, Frontier(NEG_INFINITY, POS_INFINITY, None), fault);
  }

  /** In particular an orderer that keeps the enumeration's order returns the least-key optimal action. */
  lemma KeptEnumerationIsOptimal<P(!new)>(c: Config<P>, rules: MoveRules<P>, p: P, depth: nat, prior: seq<Action>, fault: int)
    requires Contract(c) && depth > 0
    requires c.game.legal(p) == LegalActions(c.game, rules, p)
    requires Root(c, p, depth, prior).Done?
    requires c.order(p, c.game.legal(p).value, First(prior)) == c.game.legal(p).value
    ensures var node := Root(c, p, depth, prior).node;
            node.pv != [] && LeastKeyOptimal(c, p, depth, c.game.legal(p).value, node.pv[0], fault)
  {
    LegalActionsExact(c.game, rules, p, Hold(North));
    AscendingRootIsOptimal(c, p, depth, prior, fault);
  }

  // ----- the condition is necessary -----

  /** A two-ply game: one move is worth 5, a second leads to replies worth 5 and 3, the rest are worth 0. */
  datatype Toy = Start | Fork | Leaf(score: int)

  const REPLY_FIVE: Action := Move(North, 0, Coord(0, 0))
  const REPLY_THREE: Action := Move(North, 1, Coord(0, 0))

  function ToyApply(acts: seq<Action>, five: Action, fork: Action, p: Toy, a: Action): Option<Toy> {
    match p
    case Start =>
      if a == five then Some(Leaf(5)) else if a == fork then Some(Fork)
      else if a in acts then Some(Leaf(0)) else None
    case Fork => if a == REPLY_FIVE then Some(Leaf(5)) else if a == REPLY_THREE then Some(Leaf(3)) else None
    case Leaf(_) => None
  }

  function ToyGame(acts: seq<Action>, five: Action, fork: Action): Game<Toy> {
    Game((p: Toy) => None,
         (p: Toy) => if p.Fork? then North else South,
         (p: Toy) => false,
         (p: Toy) => Some(false),
         (p: Toy) => Some(if p.Start? then acts else if p.Fork? then [REPLY_FIVE, REPLY_THREE] else []),
         (p: Toy, a: Action) => ToyApply(acts, five, fork, p, a),
         (p: Toy, a: Action) => if p.Start? && a == five then Capture else Silent,
         (p: Toy, player: Player) => Some(if p.Leaf? then p.score else 0))
  }

  ghost predicate PlaysToy(g: Game<Toy>, acts: seq<Action>, five: Action, fork: Action) {
    && (forall p :: g.outcome(p) == None)
    && (forall p :: g.active(p) == if p.Fork? then North else South)
    && (forall p, a :: g.apply(p, a) == ToyApply(acts, five, fork, p, a))
    && (forall p, player :: g.evaluate(p, player) == Some(if p.Leaf? then p.score else 0))
    && (forall p: Toy :: p.Leaf? ==> g.legal(p) == Some([]))
    && g.legal(Start).Some? && (forall a :: a in g.legal(Start).value <==> a in acts)
    && g.legal(Fork).Some? && (forall a :: a in g.legal(Fork).value <==> a == REPLY_FIVE || a == REPLY_THREE)
  }

  lemma ToyGamePlaysToy(acts: seq<Action>, five: Action, fork: Action)
    ensures PlaysToy(ToyGame(acts, five, fork), acts, five, fork)
  {
    assert forall a :: a in [REPLY_FIVE, REPLY_THREE] <==> a == REPLY_FIVE || a == REPLY_THREE;
  }

  /** A configuration that searches the toy game with the root actions in the order `acts`. */
  ghost predicate SearchesToy(c: Config<Toy>, acts: seq<Action>, i: nat) {
    && Distinct(acts) && i + 1 < |acts|
    && c.root == South && c.quiet == 0
    && PlaysToy(c.game, acts, acts[i], acts[i + 1])
    && c.order(Start, c.game.legal(Start).value, None) == acts
    && c.order(Start, c.game.legal(Start).value, Some(acts[i])) == acts
    && c.order(Fork, c.game.legal(Fork).value, None) == [REPLY_FIVE, REPLY_THREE]
  }

  lemma ToyLeaf(c: Config<Toy>, acts: seq<Action>, i: nat, depth: nat, ply: nat, v: int, alpha: int, beta: int, prior: seq<Action>)
    requires SearchesToy(c, acts, i) && -10 <= v <= 10
    ensures Explore(c, Leaf(v), depth, ply, alpha, beta, prior) == Done(Node(v, []))
  {
  }

  /** With 5 already in hand, the fork is cut off after its first reply and scores 5, its value being 3. */
  lemma ToyFork(c: Config<Toy>, acts: seq<Action>, i: nat, ply: nat)
    requires SearchesToy(c, acts, i)
    ensures Explore(c, Fork, 1, ply, 5, POS_INFINITY, []) == Done(Node(5, [REPLY_FIVE]))
  {
    var replies := [REPLY_FIVE, REPLY_THREE];
    var f := Frontier(5, POS_INFINITY, None);
    assert REPLY_FIVE in c.game.legal(Fork).value;
    ToyLeaf(c, acts, i, 0, NextPly(ply), 5, 5, POS_INFINITY, []);
    assert c.order(Fork, c.game.legal(Fork).value, First([])) == replies;
    assert c.game.apply(Fork, replies[0]) == Some(Leaf(5));
    assert ChildPrior([], replies[0]) == [];
    assert [REPLY_FIVE] + [] == [REPLY_FIVE];
    assert Absorb(false, f, REPLY_FIVE, Node(5, [])) == Frontier(5, 5, Some(Scored(REPLY_FIVE, Node(5, [REPLY_FIVE]))));
    assert Expand(c, Fork, 1, ply, replies, [], f) == Done(Node(5, [REPLY_FIVE]));
  }

  lemma ToyForkValue(c: Config<Toy>, acts: seq<Action>, i: nat, fault: int)
    requires SearchesToy(c, acts, i)
    ensures Child(c.game, South, Start, 2, 0, 0, acts[i + 1], fault) == 3
    ensures Child(c.game, South, Start, 2, 0, 0, acts[i], fault) == 5
  {
    var legal := c.game.legal(Fork).value;
    BestIsExtreme(c.game, South, Fork, 1, 0, 1, None, legal, fault);
    assert REPLY_THREE in legal;
    assert Child(c.game, South, Fork, 1, 0, 1, REPLY_FIVE, fault) == 5;
    assert Child(c.game, South, Fork, 1, 0, 1, REPLY_THREE, fault) == 3;
    assert Best(c.game, South, Fork, 1, 0, 1, None, legal, fault) == Some(3);
    assert Value(c.game, South, Fork, 1, 0, 1, fault) == 3;
    assert c.game.apply(Start, acts[i + 1]) == Some(Fork);
    assert c.game.apply(Start, acts[i]) == Some(Leaf(5));
  }

  /** The frontier just before root action `k` of the toy game. */
  predicate ToyProgress(acts: seq<Action>, i: nat, depth: nat, k: nat, f: Frontier)
    requires i + 1 < |acts|
  {
    && f.beta == POS_INFINITY
    && if k <= i then
         if f.best.None? then f.alpha == NEG_INFINITY else f.alpha == 0 && f.best.value.node.score == 0
       else
         && f.alpha == 5
         && f.best == Some(if depth == 1 || k == i + 1 then Scored(acts[i], Node(5, [acts[i]]))
                           else Scored(acts[i + 1], Node(5, [acts[i + 1], REPLY_FIVE])))
  }

  function ToyNode(i: nat, depth: nat, k: nat): Node {
    if k == i then Node(5, [])
    else if k == i + 1 && depth == 2 then Node(5, [REPLY_FIVE])
    else Node(0, [])
  }

  lemma ToyAbsorb(acts: seq<Action>, i: nat, depth: nat, k: nat, f: Frontier)
    requires i + 1 < |acts| && k < |acts| && 1 <= depth <= 2
    requires KeyLess(acts[i + 1], acts[i])
    requires ToyProgress(acts, i, depth, k, f)
    ensures var f' := Absorb(true, f, acts[k], ToyNode(i, depth, k));
            !f'.Cut() && ToyProgress(acts, i, depth, k + 1, f')
  {
    assert [acts[k]] + [] == [acts[k]];
    assert [acts[k]] + [REPLY_FIVE] == [acts[k], REPLY_FIVE];
  }

  lemma ToyChild(c: Config<Toy>, acts: seq<Action>, i: nat, depth: nat, k: nat, f: Frontier, prior: seq<Action>)
    requires SearchesToy(c, acts, i) && k < |acts| && 1 <= depth <= 2
    requires ToyProgress(acts, i, depth, k, f)
    requires prior == if depth == 1 then [] else [acts[i]]
    ensures c.game.apply(Start, acts[k]).Some?
    ensures Explore(c, c.game.apply(Start, acts[k]).value, depth - 1, NextPly(0), f.alpha, f.beta, ChildPrior(prior, acts[k]))
         == Done(ToyNode(i, depth, k))
  {
    assert c.game.apply(Start, acts[k]) == Some(if k == i then Leaf(5) else if k == i + 1 then Fork else Leaf(0));
    assert ChildPrior(prior, acts[k]) == [];
    if k == i + 1 {
      if depth == 2 {
        ToyFork(c, acts, i, 1);
      }
    } else {
      ToyLeaf(c, acts, i, depth - 1, 1, if k == i then 5 else 0, f.alpha, f.beta, []);
    }
  }

  lemma {:induction false} ToyExpand(c: Config<Toy>, acts: seq<Action>, i: nat, depth: nat, k: nat, prior: seq<Action>, f: Frontier)
    requires SearchesToy(c, acts, i) && 1 <= depth <= 2 && k <= |acts|
    requires KeyLess(acts[i + 1], acts[i])
    requires prior == if depth == 1 then [] else [acts[i]]
    requires ToyProgress(acts, i, depth, k, f)
    ensures Expand(c, Start, depth, 0, acts[k..], prior, f)
         == Done(Node(5, if depth == 1 then [acts[i]] else [acts[i + 1], REPLY_FIVE]))
    decreases |acts| - k
  {
    if k < |acts| {
      ToyChild(c, acts, i, depth, k, f, prior);
      ToyAbsorb(acts, i, depth, k, f);
      ToyExpand(c, acts, i, depth, k + 1, prior, Absorb(true, f, acts[k], ToyNode(i, depth, k)));
    }
  }

  /** Whenever two adjacent root actions are out of key order, some game makes a completed
      search return an action that is worth strictly less than another. */
  lemma OutOfOrderMisleads(c: Config<Toy>, acts: seq<Action>, i: nat, fault: int)
    requires SearchesToy(c, acts, i)
    requires KeyLess(acts[i + 1], acts[i])
    ensures Deepen(c, Start, 2) == Done(Node(5, [acts[i + 1], REPLY_FIVE]))
    ensures Child(c.game, South, Start, 2, 0, 0, acts[i + 1], fault) == 3
    ensures Child(c.game, South, Start, 2, 0, 0, acts[i], fault) == 5
    ensures !LeastKeyOptimal(c, Start, 2, c.game.legal(Start).value, acts[i + 1], fault)
  {
    assert acts[0..] == acts;
    var window := Frontier(NEG_INFINITY, POS_INFINITY, None);
    ToyExpand(c, acts, i, 1, 0, [], window);
    assert Deepen(c, Start, 1) == Done(Node(5, [acts[i]]));
    ToyExpand(c, acts, i, 2, 0, [acts[i]], window);
    ToyForkValue(c, acts, i, fault);
    assert acts[i] in c.game.legal(Start).value;
  }

  lemma {:induction false} DescentExists(acts: seq<Action>, i: nat, j: nat) returns (k: nat)
    requires i < j < |acts| && KeyLess(acts[j], acts[i])
    ensures k + 1 < |acts| && KeyLess(acts[k + 1], acts[k])
    decreases j - i
  {
    if j == i + 1 || KeyLess(acts[j], acts[j - 1]) {
      k := j - 1;
    } else {
      KeysOrderActions(acts[j - 1], acts[j], acts[i]);
      k := DescentExists(acts, i, j - 1);
    }
  }

  /** The root is searched in the order `acts` whatever the prior variation. */
  ghost predicate RootOrder<P(!new)>(c: Config<P>, p: P, acts: seq<Action>) {
    c.game.legal(p).Some? && forall prior :: c.order(p, c.game.legal(p).value, prior) == acts
  }

  /** In every toy game searched in this root order, the action of the second iteration is least-key optimal. */
  ghost predicate AlwaysOptimal(acts: seq<Action>) {
    forall c: Config<Toy>, i: nat ::
      SearchesToy(c, acts, i) && Contract(c) && RootOrder(c, Start, acts) && Deepen(c, Start, 2).Done? ==>
        var pv := Deepen(c, Start, 2).node.pv;
        pv != [] && LeastKeyOptimal(c, Start, 2, c.game.legal(Start).value, pv[0], 0)
  }

  function KeepOrder(acts: seq<Action>): (Toy, seq<Action>, Option<Action>) -> seq<Action> {
    (p: Toy, given: seq<Action>, prior: Option<Action>) =>
      if p.Start? && multiset(given) == multiset(acts) then acts
      else if p.Fork? && multiset(given) == multiset([REPLY_FIVE, REPLY_THREE]) then [REPLY_FIVE, REPLY_THREE]
      else given
  }

  /** The exact condition: a root order of distinct actions always yields a least-key optimal
      action if and only if it is ascending by key. */
  lemma RootOrderCondition(acts: seq<Action>)
    requires Distinct(acts)
    ensures AlwaysOptimal(acts) <==> Ascending(acts)
  {
    if Ascending(acts) {
      forall c: Config<Toy>, i: nat
        | SearchesToy(c, acts, i) && Contract(c) && RootOrder(c, Start, acts) && Deepen(c, Start, 2).Done?
        ensures var pv := Deepen(c, Start, 2).node.pv;
                pv != [] && LeastKeyOptimal(c, Start, 2, c.game.legal(Start).value, pv[0], 0)
      {
        AscendingRootIsOptimal(c, Start, 2, Deepen(c, Start, 1).node.pv, 0);
      }
    } else {
      var i, j :| 0 <= i < j < |acts| && KeyLess(acts[j], acts[i]);
      var k := DescentExists(acts, i, j);
      OrderMisleads(acts, k);
    }
  }

  lemma OrderMisleads(acts: seq<Action>, k: nat)
    requires Distinct(acts) && k + 1 < |acts| && KeyLess(acts[k + 1], acts[k])
    ensures !AlwaysOptimal(acts)
  {
    var c := Config(ToyGame(acts, acts[k], acts[k + 1]), South, KeepOrder(acts), 0);
    ToyGamePlaysToy(acts, acts[k], acts[k + 1]);
    assert SearchesToy(c, acts, k);
    OutOfOrderMisleads(c, acts, k, 0);
    assert RootOrder(c, Start, acts);
  }

  // ----- the shipped orderer -----

  /** Principal variation first, then finishing moves, forced choices, promotions, captures, checks and realm events. */
  function Priority<P>(g: Game<P>, p: P, a: Action, prior: Option<Action>): nat {
    if prior == Some(a) then 0
    else
      match g.apply(p, a)
      case None => 255
      case Some(next) =>
        if g.outcome(next).Some? then 1
        else if g.resolving(p) then 2
        else if a.ChoosePromotion? then 3
        else
          match g.signal(p, a)
          case Capture => 4
          case Check => 5
          case Realm => 6
          case Silent => 7
  }

  function StableRank<P>(g: Game<P>, p: P, prior: Option<Action>): Action -> seq<nat> {
    (a: Action) => [Priority(g, p, a, prior)] + Key(a)
  }

  function StableOrder<P>(g: Game<P>): (P, seq<Action>, Option<Action>) -> seq<Action> {
    (p: P, acts: seq<Action>, prior: Option<Action>) => SortBy(StableRank(g, p, prior), acts)
  }

  lemma RankLess<P>(g: Game<P>, p: P, prior: Option<Action>, a: Action, b: Action)
    ensures LexLess(StableRank(g, p, prior)(a), StableRank(g, p, prior)(b))
            <==> Priority(g, p, a, prior) < Priority(g, p, b, prior)
                 || (Priority(g, p, a, prior) == Priority(g, p, b, prior) && KeyLess(a, b))
  {
    assert ([Priority(g, p, a, prior)] + Key(a))[1..] == Key(a);
    assert ([Priority(g, p, b, prior)] + Key(b))[1..] == Key(b);
  }

  /** The shipped orderer meets the orderer's contract, and lists the actions in ascending
      key order exactly when no larger key has a more urgent priority. */
  lemma StableOrderAscends<P(!new)>(g: Game<P>, p: P, acts: seq<Action>, prior: Option<Action>)
    ensures multiset(StableOrder(g)(p, acts, prior)) == multiset(acts)
    ensures Ascending(StableOrder(g)(p, acts, prior))
            <==> forall a, b :: a in acts && b in acts && KeyLess(a, b) ==>
                   Priority(g, p, a, prior) <= Priority(g, p, b, prior)
  {
    var sorted := StableOrder(g)(p, acts, prior);
    SortBySorted(StableRank(g, p, prior), acts);
    SameElements(sorted, acts);
    if Ascending(sorted) {
      forall a, b | a in acts && b in acts && KeyLess(a, b)
        ensures Priority(g, p, a, prior) <= Priority(g, p, b, prior)
      {
        var i :| 0 <= i < |sorted| && sorted[i] == a;
        var j :| 0 <= j < |sorted| && sorted[j] == b;
        KeysOrderActions(a, b, a);
        RankLess(g, p, prior, b, a);
      }
    }
    if forall a, b :: a in acts && b in acts && KeyLess(a, b) ==> Priority(g, p, a, prior) <= Priority(g, p, b, prior) {
      forall i, j | 0 <= i < j < |sorted|
        ensures !KeyLess(sorted[j], sorted[i])
      {
        assert sorted[i] in acts && sorted[j] in acts;
        RankLess(g, p, prior, sorted[j], sorted[i]);
      }
    }
  }

  /** Every occurrence of `a` comes before every occurrence of `b`. */
  ghost predicate Precedes(acts: seq<Action>, a: Action, b: Action) {
    forall i, j :: 0 <= i < |acts| && 0 <= j < |acts| && acts[i] == a && acts[j] == b ==> i < j
  }

  lemma RankPrecedes<P>(g: Game<P>, p: P, acts: seq<Action>, prior: Option<Action>, a: Action, b: Action)
    requires a != b
    requires Priority(g, p, a, prior) < Priority(g, p, b, prior)
             || (Priority(g, p, a, prior) == Priority(g, p, b, prior) && KeyLess(a, b))
    ensures Precedes(StableOrder(g)(p, acts, prior), a, b)
  {
    SortBySorted(StableRank(g, p, prior), acts);
    RankLess(g, p, prior, a, b);
  }

  predicate Finishes<P>(g: Game<P>, p: P, a: Action) {
    g.apply(p, a).Some? && g.outcome(g.apply(p, a).value).Some?
  }

  /** Neither the prior action, nor refused, nor finishing. */
  predicate Plain<P>(g: Game<P>, p: P, prior: Option<Action>, a: Action) {
    prior != Some(a) && g.apply(p, a).Some? && !Finishes(g, p, a)
  }

  predicate MoreUrgent(a: Signal, b: Signal) {
    match a
    case Capture => b != Capture
    case Check => b == Realm || b == Silent
    case Realm => b == Silent
    case Silent => false
  }

  /** The shipped order in words: the prior best action first; refused actions last; actions that finish the match
      before the rest; then, unless a choice is pending, promotions, captures, checks, realm events and silent
      actions; keys decide among equals. */
  predicate Sooner<P>(g: Game<P>, p: P, prior: Option<Action>, a: Action, b: Action) {
    || prior == Some(a)
    || (prior != Some(a) && prior != Some(b) && g.apply(p, a).Some? && g.apply(p, b).None?)
    || (prior != Some(a) && Finishes(g, p, a) && Plain(g, p, prior, b))
    || (Plain(g, p, prior, a) && Plain(g, p, prior, b)
        && if g.resolving(p) then KeyLess(a, b)
           else if a.ChoosePromotion? || b.ChoosePromotion? then a.ChoosePromotion? && (!b.ChoosePromotion? || KeyLess(a, b))
           else MoreUrgent(g.signal(p, a), g.signal(p, b)) || (g.signal(p, a) == g.signal(p, b) && KeyLess(a, b)))
  }

  lemma ShippedOrder<P>(g: Game<P>, p: P, acts: seq<Action>, prior: Option<Action>, a: Action, b: Action)
    requires a != b && Sooner(g, p, prior, a, b)
    ensures Precedes(StableOrder(g)(p, acts, prior), a, b)
  {
    RankPrecedes(g, p, acts, prior, a, b);
  }

  /** With the shipped orderer a completed search can return the worse of two moves: a capture
      worth 5 is searched before any quiet action of smaller key, here worth only 3. */
  lemma ShippedOrdererMisleads(quiet: Action, capture: Action, fault: int)
    requires KeyLess(quiet, capture) && !quiet.ChoosePromotion? && !capture.ChoosePromotion?
    ensures var g := ToyGame([capture, quiet], capture, quiet);
            var c := Config(g, South, StableOrder(g), 0);
            && Contract(c)
            && Deepen(c, Start, 2) == Done(Node(5, [quiet, REPLY_FIVE]))
            && Child(g, South, Start, 2, 0, 0, quiet, fault) == 3
            && Child(g, South, Start, 2, 0, 0, capture, fault) == 5
  {
    var acts := [capture, quiet];
    var g := ToyGame(acts, capture, quiet);
    var c := Config(g, South, StableOrder(g), 0);
    KeysOrderActions(quiet, capture, capture);
    ToySearchedStably(c, capture, quiet);
    OutOfOrderMisleads(c, acts, 0, fault);
  }

  lemma ToySearchedStably(c: Config<Toy>, capture: Action, quiet: Action)
    requires quiet != capture && !quiet.ChoosePromotion? && !capture.ChoosePromotion?
    requires var g := ToyGame([capture, quiet], capture, quiet); c == Config(g, South, StableOrder(g), 0)
    ensures SearchesToy(c, [capture, quiet], 0)
  {
    var g := c.game;
    MoveKeys(North, 0, 1);
    ToyGamePlaysToy([capture, quiet], capture, quiet);
    ToyPriorities(capture, quiet);
    StableOrderOfTwo(g, Start, capture, quiet, None);
    StableOrderOfTwo(g, Start, capture, quiet, Some(capture));
    StableOrderOfTwo(g, Fork, REPLY_FIVE, REPLY_THREE, None);
  }

  lemma ToyPriorities(capture: Action, quiet: Action)
    requires quiet != capture && !quiet.ChoosePromotion? && !capture.ChoosePromotion?
    ensures var g := ToyGame([capture, quiet], capture, quiet);
            && Priority(g, Start, capture, None) == 4 && Priority(g, Start, quiet, None) == 7
            && Priority(g, Start, capture, Some(capture)) == 0 && Priority(g, Start, quiet, Some(capture)) == 7
            && Priority(g, Fork, REPLY_FIVE, None) == 7 == Priority(g, Fork, REPLY_THREE, None)
  {
  }

  lemma MoveKeys(player: Player, piece: nat, other: nat)
    requires piece < other
    ensures KeyLess(Move(player, piece, Coord(0, 0)), Move(player, other, Coord(0, 0)))
  {
    var a, b := Key(Move(player, piece, Coord(0, 0))), Key(Move(player, other, Coord(0, 0)));
    assert a[1..][1..][0] == piece && b[1..][1..][0] == other;
    assert LexLess(a[1..][1..], b[1..][1..]);
    assert LexLess(a[1..], b[1..]);
  }

  lemma StableOrderOfTwo<P>(g: Game<P>, p: P, first: Action, second: Action, prior: Option<Action>)
    requires Priority(g, p, first, prior) < Priority(g, p, second, prior)
             || (Priority(g, p, first, prior) == Priority(g, p, second, prior) && KeyLess(first, second))
    ensures StableOrder(g)(p, [first, second], prior) == [first, second]
  {
    var rank := StableRank(g, p, prior);
    RankLess(g, p, prior, first, second);
    RankLess(g, p, prior, second, first);
    KeysOrderActions(first, second, first);
    assert [first, second][1..] == [second] && [second][1..] == [];
    assert SortBy(rank, [second]) == [second];
    assert SortBy(rank, [first, second]) == Insert(rank, first, [second]);
  }
}
