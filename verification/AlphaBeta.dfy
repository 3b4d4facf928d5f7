/** Fail-soft alpha-beta with quiescence, as a pure function: what an exploration that
    is never stopped computes. The lemmas relate it to plain minimax. */
module AlphaBeta {
  import opened Rules
  import opened Minimax

  const NEG_INFINITY: int := -MATE_SCORE - 1
  const POS_INFINITY: int := MATE_SCORE + 1

  datatype Node = Node(score: int, pv: seq<Action>)

  datatype SearchError = InvalidLimits | RulesFailed | EvaluatorFailed | OutOfRange(score: int) | NoChild

  datatype StopReason = DepthLimit | NodeLimit | QuiescenceNodeLimit | Deadline | Cancelled | NoLegalAction

  datatype Explored = Done(node: Node) | Stopped(reason: StopReason) | Fatal(error: SearchError)

  /** The collaborators of a search: the game, the player it is scored for, the move
      orderer (given the position, the legal actions and the prior best action) and
      the quiescence depth. */
  datatype Config<!P> = Config(
    game: Game<P>,
    root: Player,
    order: (P, seq<Action>, Option<Action>) -> seq<Action>,
    quiet: nat
  )

  /** The collaborators' contracts: the orderer permutes the actions it is given, and a
      finished match has no legal action. */
  ghost predicate Contract<P(!new)>(c: Config<P>) {
    && (forall p, acts, prior :: multiset(c.order(p, acts, prior)) == multiset(acts))
    && (forall p :: c.game.outcome(p).Some? ==> c.game.legal(p) == Some([]))
  }

  datatype Scored = Scored(key: Action, node: Node)

  /** The mutable part of a node's loop: the window and the best child so far. */
  datatype Frontier = Frontier(alpha: int, beta: int, best: Option<Scored>) {
    predicate Cut() {
      alpha >= beta
    }
  }

  /** One loop iteration: keep the better child, ties to the smaller key, and narrow the window. */
  function Absorb(maximizing: bool, f: Frontier, a: Action, child: Node): Frontier {
    var replace := match f.best
      case None => true
      case Some(best) =>
        (if maximizing then child.score > best.node.score else child.score < best.node.score)
        || (child.score == best.node.score && KeyLess(a, best.key));
    var best := if replace then Some(Scored(a, Node(child.score, [a] + child.pv))) else f.best;
    if maximizing then Frontier(if child.score > f.alpha then child.score else f.alpha, f.beta, best)
    else Frontier(f.alpha, if child.score < f.beta then child.score else f.beta, best)
  }

  function Evaluate<P>(c: Config<P>, p: P): Explored {
    match c.game.evaluate(p, c.root)
    case None => Fatal(EvaluatorFailed)
    case Some(score) =>
      if -MAX_HEURISTIC_SCORE <= score <= MAX_HEURISTIC_SCORE then Done(Node(score, []))
      else Fatal(OutOfRange(score))
  }

  /** The window after standing pat. */
  function StandPat(maximizing: bool, alpha: int, beta: int, player: Player, pat: Node): Frontier {
    if maximizing then Frontier(if pat.score > alpha then pat.score else alpha, beta, Some(Scored(Hold(player), pat)))
    else Frontier(alpha, if pat.score < beta then pat.score else beta, Some(Scored(Hold(player), pat)))
  }

  function Ordered<P>(c: Config<P>, p: P, prior: Option<Action>): Option<seq<Action>> {
    match c.game.legal(p)
    case None => None
    case Some(acts) => Some(c.order(p, acts, prior))
  }

  function First(prior: seq<Action>): Option<Action> {
    if prior == [] then None else Some(prior[0])
  }

  /** The rest of the prior variation, while the search follows it. */
  function ChildPrior(prior: seq<Action>, a: Action): seq<Action> {
    if prior != [] && prior[0] == a then prior[1..] else []
  }

  /** The search is guided by a variation along that variation only. */
  lemma PriorIsFollowed(prior: seq<Action>, a: Action, b: Action)
    ensures ChildPrior([a] + prior, a) == prior && First([a] + prior) == Some(a)
    ensures a != b ==> ChildPrior([a] + prior, b) == []
    ensures ChildPrior([], b) == [] && First([]) == None
  {
  }

  function Quiescence<P>(c: Config<P>, p: P, ply: nat, depth: nat, alpha: int, beta: int): Explored
    decreases depth, 1, 0
  {
    var g := c.game;
    match g.outcome(p)
    case Some(winner) => Done(Node(TerminalScore(winner, c.root, ply), []))
    case None =>
      match Forced(g, p)
      case None => Fatal(RulesFailed)
      case Some(forced) =>
        var maximizing := Maximizing(g, p, c.root);
        if !forced || depth == 0 then
          var pat := Evaluate(c, p);
          if depth == 0 || !pat.Done? then pat
          else
            var player := if maximizing then c.root else c.root.Opponent();
            var f := StandPat(maximizing, alpha, beta, player, pat.node);
            if f.Cut() then pat
            else
              match Ordered(c, p, None)
              case None => Fatal(RulesFailed)
              case Some(acts) => QuietLoop(c, p, ply, depth, forced, acts, f)
        else
          match Ordered(c, p, None)
          case None => Fatal(RulesFailed)
          case Some(acts) => QuietLoop(c, p, ply, depth, forced, acts, Frontier(alpha, beta, None))
  }

  function QuietLoop<P>(c: Config<P>, p: P, ply: nat, depth: nat, forced: bool, acts: seq<Action>, f: Frontier): Explored
    requires depth > 0
    decreases depth, 0, |acts|
  {
    if acts == [] then
      match f.best
      case None => Evaluate(c, p)
      case Some(best) => Done(best.node)
    else
      match c.game.apply(p, acts[0])
      case None => Fatal(RulesFailed)
      case Some(next) =>
        if !forced && !Noisy(c.game, p, acts[0], next) then
          QuietLoop(c, p, ply, depth, forced, acts[1..], f)
        else
          var child := Quiescence(c, next, NextPly(ply), depth - 1, f.alpha, f.beta);
          if !child.Done? then child
          else
            var f' := Absorb(Maximizing(c.game, p, c.root), f, acts[0], child.node);
            if f'.Cut() then Done(f'.best.value.node)
            else QuietLoop(c, p, ply, depth, forced, acts[1..], f')
  }

  function Explore<P>(c: Config<P>, p: P, depth: nat, ply: nat, alpha: int, beta: int, prior: seq<Action>): Explored
    decreases depth, 1, 0
  {
    match c.game.outcome(p)
    case Some(winner) => Done(Node(TerminalScore(winner, c.root, ply), []))
    case None =>
      if depth == 0 then
        if c.quiet == 0 then Evaluate(c, p) else Quiescence(c, p, ply, c.quiet, alpha, beta)
      else
        match c.game.legal(p)
        case None => Fatal(RulesFailed)
        case Some(acts) =>
          if acts == [] then Evaluate(c, p)
          else Expand(c, p, depth, ply, c.order(p, acts, First(prior)), prior, Frontier(alpha, beta, None))
  }

  function Expand<P>(c: Config<P>, p: P, depth: nat, ply: nat, acts: seq<Action>, prior: seq<Action>, f: Frontier): Explored
    requires depth > 0
    decreases depth, 0, |acts|
  {
    if acts == [] then
      match f.best
      case None => Fatal(NoChild)
      case Some(best) => Done(best.node)
    else
      match c.game.apply(p, acts[0])
      case None => Fatal(RulesFailed)
      case Some(next) =>
        var child := Explore(c, next, depth - 1, NextPly(ply), f.alpha, f.beta, ChildPrior(prior, acts[0]));
        if !child.Done? then child
        else
          var f' := Absorb(Maximizing(c.game, p, c.root), f, acts[0], child.node);
          if f'.Cut() then Done(f'.best.value.node)
          else Expand(c, p, depth, ply, acts[1..], prior, f')
  }

  /** One action of the loop of `Expand`. */
  function ExpandOne<P>(c: Config<P>, p: P, depth: nat, ply: nat, a: Action, prior: seq<Action>, f: Frontier): Explored
    requires depth > 0
  {
    match c.game.apply(p, a)
    case None => Fatal(RulesFailed)
    case Some(next) => Explore(c, next, depth - 1, NextPly(ply), f.alpha, f.beta, ChildPrior(prior, a))
  }

  /** One action of the loop of `Quiescence`; no result if it is passed over. */
  function QuietOne<P>(c: Config<P>, p: P, ply: nat, depth: nat, forced: bool, a: Action, f: Frontier): Option<Explored>
    requires depth > 0
  {
    match c.game.apply(p, a)
    case None => Some(Fatal(RulesFailed))
    case Some(next) =>
      if !forced && !Noisy(c.game, p, a, next) then None
      else Some(Quiescence(c, next, NextPly(ply), depth - 1, f.alpha, f.beta))
  }

  /** One iteration at full window, guided by the previous principal variation. */
  function Root<P>(c: Config<P>, p: P, depth: nat, prior: seq<Action>): Explored
    requires depth > 0
  {
    match Ordered(c, p, First(prior))
    case None => Fatal(RulesFailed)
    case Some(acts) => Expand(c, p, depth, 0, acts, prior, Frontier(NEG_INFINITY, POS_INFINITY, None))
  }

  /** Iteration `depth` of iterative deepening. */
  function Deepen<P>(c: Config<P>, p: P, depth: nat): Explored
    requires depth > 0
  {
    if depth == 1 then Root(c, p, 1, [])
    else
      var previous := Deepen(c, p, depth - 1);
      if !previous.Done? then previous else Root(c, p, depth, previous.node.pv)
  }

  // ----- exactness -----

  /** What a fail-soft score says about the true value: a bound outside the window, the value inside it. */
  predicate FailSoft(score: int, v: int, alpha: int, beta: int) {
    && (score <= alpha ==> v <= score)
    && (score >= beta ==> v >= score)
    && (alpha < score < beta ==> v == score)
  }

  /** The loop invariant: the frontier of a window (a0, b0), against the true value `m` of the children so far. */
  predicate Tracks(maximizing: bool, f: Frontier, m: Option<int>, a0: int, b0: int) {
    && f.alpha < f.beta
    && (f.best.None? <==> m.None?)
    && (m.None? ==> f.alpha == a0 && f.beta == b0)
    && (m.Some? ==>
          var s := f.best.value.node.score;
          && FailSoft(s, m.value, a0, b0)
          && (maximizing ==> f.beta == b0 && s < b0 && f.alpha == if s > a0 then s else a0)
          && (!maximizing ==> f.alpha == a0 && s > a0 && f.beta == if s < b0 then s else b0))
  }

  lemma AbsorbTracks(maximizing: bool, f: Frontier, m: Option<int>, a0: int, b0: int, a: Action, child: Node, v: int)
    requires Tracks(maximizing, f, m, a0, b0)
    requires FailSoft(child.score, v, f.alpha, f.beta)
    ensures var f' := Absorb(maximizing, f, a, child);
            var m' := Merge(maximizing, m, v);
            && f'.best.Some?
            && (!f'.Cut() ==> Tracks(maximizing, f', Some(m'), a0, b0))
            && (f'.Cut() ==> forall w :: NoBetter(maximizing, m', w) ==> FailSoft(f'.best.value.node.score, w, a0, b0))
  {
  }

  lemma {:induction false} QuiescenceExact<P(!new)>(c: Config<P>, p: P, ply: nat, depth: nat, alpha: int, beta: int, fault: int)
    requires Contract(c) && alpha < beta
    requires Quiescence(c, p, ply, depth, alpha, beta).Done?
    ensures FailSoft(Quiescence(c, p, ply, depth, alpha, beta).node.score,
                     Quiet(c.game, c.root, p, ply, depth, fault), alpha, beta)
    decreases depth, 1, 0
  {
    var g := c.game;
    if g.outcome(p).None? && depth > 0 {
      var forced := Forced(g, p).value;
      var maximizing := Maximizing(g, p, c.root);
      var f := Frontier(alpha, beta, None);
      var start := None;
      if !forced {
        var pat := Evaluate(c, p).node;
        f := StandPat(maximizing, alpha, beta, if maximizing then c.root else c.root.Opponent(), pat);
        start := Some(EvalOr(g, c.root, p, fault));
        assert start == Some(pat.score);
      }
      var acts := g.legal(p);
      if acts.Some? {
        QuietBestIsExtreme(g, c.root, p, ply, depth, forced, start, acts.value, fault);
      }
      if !f.Cut() {
        var ordered := c.order(p, acts.value, None);
        QuietLoopExact(c, p, ply, depth, forced, ordered, f, start, alpha, beta, fault);
        QuietBestOrderFree(g, c.root, p, ply, depth, forced, start, acts.value, ordered, fault);
      }
    }
  }

  lemma {:induction false} QuietLoopExact<P(!new)>(c: Config<P>, p: P, ply: nat, depth: nat, forced: bool, acts: seq<Action>,
                                                   f: Frontier, m: Option<int>, a0: int, b0: int, fault: int)
    requires Contract(c) && depth > 0
    requires Tracks(Maximizing(c.game, p, c.root), f, m, a0, b0)
    requires QuietLoop(c, p, ply, depth, forced, acts, f).Done?
    ensures var best := QuietBest(c.game, c.root, p, ply, depth, forced, m, acts, fault);
            FailSoft(QuietLoop(c, p, ply, depth, forced, acts, f).node.score,
                     if best.Some? then best.value else EvalOr(c.game, c.root, p, fault), a0, b0)
    decreases depth, 0, |acts|
  {
    if acts != [] {
      var next := c.game.apply(p, acts[0]).value;
      if !forced && !Noisy(c.game, p, acts[0], next) {
        QuietLoopExact(c, p, ply, depth, forced, acts[1..], f, m, a0, b0, fault);
      } else {
        var maximizing := Maximizing(c.game, p, c.root);
        QuiescenceExact(c, next, NextPly(ply), depth - 1, f.alpha, f.beta, fault);
        var child := Quiescence(c, next, NextPly(ply), depth - 1, f.alpha, f.beta).node;
        var v := QuietChild(c.game, c.root, p, ply, depth, acts[0], fault);
        AbsorbTracks(maximizing, f, m, a0, b0, acts[0], child, v);
        var f' := Absorb(maximizing, f, acts[0], child);
        var m' := Some(Merge(maximizing, m, v));
        if f'.Cut() {
          QuietBestIsExtreme(c.game, c.root, p, ply, depth, forced, m', acts[1..], fault);
        } else {
          QuietLoopExact(c, p, ply, depth, forced, acts[1..], f', m', a0, b0, fault);
        }
      }
    }
  }

  /** Fail-soft exactness: whatever the orderer and the prior variation, a completed
      exploration bounds the minimax value outside its window and equals it inside.
      It holds for every value a failing node might be given, so a completed result
      never rests on a node where the rules or the evaluator failed. */
  lemma {:induction false} ExploreExact<P(!new)>(c: Config<P>, p: P, depth: nat, ply: nat, alpha: int, beta: int,
                                                 prior: seq<Action>, fault: int)
    requires Contract(c) && alpha < beta
    requires Explore(c, p, depth, ply, alpha, beta, prior).Done?
    ensures FailSoft(Explore(c, p, depth, ply, alpha, beta, prior).node.score,
                     Value(c.game, c.root, p, depth, c.quiet, ply, fault), alpha, beta)
    decreases depth, 1, 0
  {
    var g := c.game;
    if g.outcome(p).None? {
      if depth == 0 {
        if c.quiet > 0 {
          QuiescenceExact(c, p, ply, c.quiet, alpha, beta, fault);
        }
      } else {
        var acts := g.legal(p).value;
        if acts != [] {
          var ordered := c.order(p, acts, First(prior));
          SameElements(acts, ordered);
          ExpandExact(c, p, depth, ply, ordered, prior, Frontier(alpha, beta, None), None, alpha, beta, fault);
          BestOrderFree(g, c.root, p, depth, c.quiet, ply, acts, ordered, fault);
          BestIsExtreme(g, c.root, p, depth, c.quiet, ply, None, acts, fault);
        }
      }
    }
  }

  lemma {:induction false} ExpandExact<P(!new)>(c: Config<P>, p: P, depth: nat, ply: nat, acts: seq<Action>, prior: seq<Action>,
                                                f: Frontier, m: Option<int>, a0: int, b0: int, fault: int)
    requires Contract(c) && depth > 0
    requires Tracks(Maximizing(c.game, p, c.root), f, m, a0, b0)
    requires Expand(c, p, depth, ply, acts, prior, f).Done?
    ensures var best := Best(c.game, c.root, p, depth, c.quiet, ply, m, acts, fault);
            best.Some? && FailSoft(Expand(c, p, depth, ply, acts, prior, f).node.score, best.value, a0, b0)
    decreases depth, 0, |acts|
  {
    if acts != [] {
      var maximizing := Maximizing(c.game, p, c.root);
      var next := c.game.apply(p, acts[0]).value;
      var rest := ChildPrior(prior, acts[0]);
      ExploreExact(c, next, depth - 1, NextPly(ply), f.alpha, f.beta, rest, fault);
      var child := Explore(c, next, depth - 1, NextPly(ply), f.alpha, f.beta, rest).node;
      var v := Child(c.game, c.root, p, depth, c.quiet, ply, acts[0], fault);
      AbsorbTracks(maximizing, f, m, a0, b0, acts[0], child, v);
      var f' := Absorb(maximizing, f, acts[0], child);
      var m' := Some(Merge(maximizing, m, v));
      if f'.Cut() {
        BestIsExtreme(c.game, c.root, p, depth, c.quiet, ply, m', acts[1..], fault);
      } else {
        ExpandExact(c, p, depth, ply, acts[1..], prior, f', m', a0, b0, fault);
      }
    }
  }

  // ----- principal variations -----

  /** Replaying the variation uses legal actions only and ends in a position whose
      terminal score at that ply, or evaluation, is the reported score. */
  predicate Witness<P>(c: Config<P>, p: P, ply: nat, node: Node)
    decreases |node.pv|
  {
    if node.pv == [] then
      match c.game.outcome(p)
      case Some(winner) => node.score == TerminalScore(winner, c.root, ply)
      case None => Heuristic(c.game, c.root, p) == Some(node.score)
    else
      && c.game.legal(p).Some?
      && node.pv[0] in c.game.legal(p).value
      && c.game.apply(p, node.pv[0]).Some?
      && Witness(c, c.game.apply(p, node.pv[0]).value, NextPly(ply), Node(node.score, node.pv[1..]))
  }

  predicate BestWitness<P>(c: Config<P>, p: P, ply: nat, f: Frontier) {
    f.best.Some? ==> Witness(c, p, ply, f.best.value.node)
  }

  predicate AllLegal<P>(c: Config<P>, p: P, acts: seq<Action>) {
    c.game.legal(p).Some? && forall a :: a in acts ==> a in c.game.legal(p).value
  }

  lemma AbsorbWitness<P>(c: Config<P>, p: P, ply: nat, f: Frontier, a: Action, child: Node, maximizing: bool)
    requires BestWitness(c, p, ply, f)
    requires c.game.legal(p).Some? && a in c.game.legal(p).value && c.game.apply(p, a).Some?
    requires Witness(c, c.game.apply(p, a).value, NextPly(ply), child)
    ensures BestWitness(c, p, ply, Absorb(maximizing, f, a, child))
  {
    var extended := Node(child.score, [a] + child.pv);
    assert extended.pv[1..] == child.pv;
    assert Node(extended.score, extended.pv[1..]) == child;
    assert Witness(c, p, ply, extended);
  }

  lemma {:induction false} QuiescenceWitness<P(!new)>(c: Config<P>, p: P, ply: nat, depth: nat, alpha: int, beta: int)
    requires Contract(c)
    requires Quiescence(c, p, ply, depth, alpha, beta).Done?
    ensures Witness(c, p, ply, Quiescence(c, p, ply, depth, alpha, beta).node)
    decreases depth, 1, 0
  {
    var g := c.game;
    if g.outcome(p).None? && depth > 0 {
      var forced := Forced(g, p).value;
      var maximizing := Maximizing(g, p, c.root);
      var f := Frontier(alpha, beta, None);
      if !forced {
        f := StandPat(maximizing, alpha, beta, if maximizing then c.root else c.root.Opponent(), Evaluate(c, p).node);
      }
      if forced || !f.Cut() {
        var acts := g.legal(p).value;
        SameElements(acts, c.order(p, acts, None));
        QuietLoopWitness(c, p, ply, depth, forced, c.order(p, acts, None), f);
      }
    }
  }

  lemma {:induction false} QuietLoopWitness<P(!new)>(c: Config<P>, p: P, ply: nat, depth: nat, forced: bool,
                                                     acts: seq<Action>, f: Frontier)
    requires Contract(c) && depth > 0
    requires c.game.outcome(p).None? && BestWitness(c, p, ply, f) && AllLegal(c, p, acts)
    requires QuietLoop(c, p, ply, depth, forced, acts, f).Done?
    ensures Witness(c, p, ply, QuietLoop(c, p, ply, depth, forced, acts, f).node)
    decreases depth, 0, |acts|
  {
    if acts != [] {
      var next := c.game.apply(p, acts[0]).value;
      if !forced && !Noisy(c.game, p, acts[0], next) {
        QuietLoopWitness(c, p, ply, depth, forced, acts[1..], f);
      } else {
        QuiescenceWitness(c, next, NextPly(ply), depth - 1, f.alpha, f.beta);
        var child := Quiescence(c, next, NextPly(ply), depth - 1, f.alpha, f.beta).node;
        AbsorbWitness(c, p, ply, f, acts[0], child, Maximizing(c.game, p, c.root));
        var f' := Absorb(Maximizing(c.game, p, c.root), f, acts[0], child);
        if !f'.Cut() {
          QuietLoopWitness(c, p, ply, depth, forced, acts[1..], f');
        }
      }
    }
  }

  lemma {:induction false} ExploreWitness<P(!new)>(c: Config<P>, p: P, depth: nat, ply: nat, alpha: int, beta: int,
                                                   prior: seq<Action>)
    requires Contract(c)
    requires Explore(c, p, depth, ply, alpha, beta, prior).Done?
    ensures Witness(c, p, ply, Explore(c, p, depth, ply, alpha, beta, prior).node)
    decreases depth, 1, 0
  {
    if c.game.outcome(p).None? {
      if depth == 0 {
        if c.quiet > 0 {
          QuiescenceWitness(c, p, ply, c.quiet, alpha, beta);
        }
      } else {
        var acts := c.game.legal(p).value;
        if acts != [] {
          var ordered := c.order(p, acts, First(prior));
          SameElements(acts, ordered);
          ExpandWitness(c, p, depth, ply, ordered, prior, Frontier(alpha, beta, None));
        }
      }
    }
  }

  lemma {:induction false} ExpandWitness<P(!new)>(c: Config<P>, p: P, depth: nat, ply: nat, acts: seq<Action>,
                                                  prior: seq<Action>, f: Frontier)
    requires Contract(c) && depth > 0
    requires BestWitness(c, p, ply, f) && AllLegal(c, p, acts)
    requires f.best.Some? ==> f.best.value.node.pv != []
    requires Expand(c, p, depth, ply, acts, prior, f).Done?
    ensures var node := Expand(c, p, depth, ply, acts, prior, f).node;
            node.pv != [] && Witness(c, p, ply, node)
    decreases depth, 0, |acts|
  {
    if acts != [] {
      var maximizing := Maximizing(c.game, p, c.root);
      var next := c.game.apply(p, acts[0]).value;
      var rest := ChildPrior(prior, acts[0]);
      ExploreWitness(c, next, depth - 1, NextPly(ply), f.alpha, f.beta, rest);
      var child := Explore(c, next, depth - 1, NextPly(ply), f.alpha, f.beta, rest).node;
      AbsorbWitness(c, p, ply, f, acts[0], child, maximizing);
      var f' := Absorb(maximizing, f, acts[0], child);
      if !f'.Cut() {
        ExpandWitness(c, p, depth, ply, acts[1..], prior, f');
      }
    }
  }

  lemma {:induction false} WitnessInRange<P>(c: Config<P>, p: P, ply: nat, node: Node)
    requires ply <= MAX_PLY && Witness(c, p, ply, node)
    ensures -MATE_SCORE <= node.score <= MATE_SCORE
    decreases |node.pv|
  {
    if node.pv != [] {
      WitnessInRange(c, c.game.apply(p, node.pv[0]).value, NextPly(ply), Node(node.score, node.pv[1..]));
    }
  }

  // ----- the root -----

  /** Every completed iteration reports exactly the minimax value of its depth, with a
      non-empty variation of legal actions that reaches it. */
  lemma RootExact<P(!new)>(c: Config<P>, p: P, depth: nat, prior: seq<Action>, fault: int)
    requires Contract(c) && depth > 0
    requires Root(c, p, depth, prior).Done?
    ensures var node := Root(c, p, depth, prior).node;
            && node.score == Value(c.game, c.root, p, depth, c.quiet, 0, fault)
            && node.pv != []
            && Witness(c, p, 0, node)
            && -MATE_SCORE <= node.score <= MATE_SCORE
  {
    var acts := c.game.legal(p).value;
    var ordered := c.order(p, acts, First(prior));
    SameElements(acts, ordered);
    var window := Frontier(NEG_INFINITY, POS_INFINITY, None);
    ExpandWitness(c, p, depth, 0, ordered, prior, window);
    var node := Expand(c, p, depth, 0, ordered, prior, window).node;
    WitnessInRange(c, p, 0, node);
    ExpandExact(c, p, depth, 0, ordered, prior, window, None, NEG_INFINITY, POS_INFINITY, fault);
    BestOrderFree(c.game, c.root, p, depth, c.quiet, 0, acts, ordered, fault);
    assert c.game.outcome(p).None?;
  }

  lemma DeepenExact<P(!new)>(c: Config<P>, p: P, depth: nat, fault: int)
    requires Contract(c) && depth > 0
    requires Deepen(c, p, depth).Done?
    ensures var node := Deepen(c, p, depth).node;
            && node.score == Value(c.game, c.root, p, depth, c.quiet, 0, fault)
            && node.pv != []
            && Witness(c, p, 0, node)
            && -MATE_SCORE <= node.score <= MATE_SCORE
  {
    RootExact(c, p, depth, if depth == 1 then [] else Deepen(c, p, depth - 1).node.pv, fault);
  }

  /** Move ordering changes the work, never the score. */
  lemma OrderIndependence<P(!new)>(c: Config<P>, other: Config<P>, p: P, depth: nat)
    requires Contract(c) && Contract(other) && depth > 0
    requires other == c.(order := other.order)
    requires Deepen(c, p, depth).Done? && Deepen(other, p, depth).Done?
    ensures Deepen(c, p, depth).node.score == Deepen(other, p, depth).node.score
  {
    DeepenExact(c, p, depth, 0);
    DeepenExact(other, p, depth, 0);
  }

  // ----- completion -----

  /** The rules and the evaluator never fail where the search may ask. */
  ghost predicate Faultless<P(!new)>(c: Config<P>) {
    forall p :: c.game.outcome(p).None? ==>
      && Heuristic(c.game, c.root, p).Some?
      && c.game.inCheck(p).Some?
      && c.game.legal(p).Some?
      && forall a :: a in c.game.legal(p).value ==> c.game.apply(p, a).Some?
  }

  lemma {:induction false} QuiescenceCompletes<P(!new)>(c: Config<P>, p: P, ply: nat, depth: nat, alpha: int, beta: int)
    requires Contract(c) && Faultless(c)
    ensures Quiescence(c, p, ply, depth, alpha, beta).Done?
    decreases depth, 1, 0
  {
    if c.game.outcome(p).None? && depth > 0 {
      var forced := Forced(c.game, p).value;
      var maximizing := Maximizing(c.game, p, c.root);
      var ordered := c.order(p, c.game.legal(p).value, None);
      SameElements(c.game.legal(p).value, ordered);
      var f := if forced then Frontier(alpha, beta, None)
               else StandPat(maximizing, alpha, beta, if maximizing then c.root else c.root.Opponent(), Evaluate(c, p).node);
      QuietLoopCompletes(c, p, ply, depth, forced, ordered, f);
    }
  }

  lemma {:induction false} QuietLoopCompletes<P(!new)>(c: Config<P>, p: P, ply: nat, depth: nat, forced: bool,
                                                       acts: seq<Action>, f: Frontier)
    requires Contract(c) && Faultless(c) && depth > 0
    requires c.game.outcome(p).None? && forall a :: a in acts ==> a in c.game.legal(p).value
    ensures QuietLoop(c, p, ply, depth, forced, acts, f).Done?
    decreases depth, 0, |acts|
  {
    if acts != [] {
      assert acts[0] in acts;
      var next := c.game.apply(p, acts[0]).value;
      if !forced && !Noisy(c.game, p, acts[0], next) {
        QuietLoopCompletes(c, p, ply, depth, forced, acts[1..], f);
      } else {
        QuiescenceCompletes(c, next, NextPly(ply), depth - 1, f.alpha, f.beta);
        var child := Quiescence(c, next, NextPly(ply), depth - 1, f.alpha, f.beta).node;
        QuietLoopCompletes(c, p, ply, depth, forced, acts[1..], Absorb(Maximizing(c.game, p, c.root), f, acts[0], child));
      }
    }
  }

  /** An exploration fails only if the rules or the evaluator do. */
  lemma {:induction false} ExploreCompletes<P(!new)>(c: Config<P>, p: P, depth: nat, ply: nat, alpha: int, beta: int,
                                                     prior: seq<Action>)
    requires Contract(c) && Faultless(c)
    ensures Explore(c, p, depth, ply, alpha, beta, prior).Done?
    decreases depth, 1, 0
  {
    if c.game.outcome(p).None? {
      if depth == 0 {
        QuiescenceCompletes(c, p, ply, c.quiet, alpha, beta);
      } else {
        var acts := c.game.legal(p).value;
        if acts != [] {
          var ordered := c.order(p, acts, First(prior));
          SameElements(acts, ordered);
          ExpandCompletes(c, p, depth, ply, ordered, prior, Frontier(alpha, beta, None));
        }
      }
    }
  }

  lemma {:induction false} ExpandCompletes<P(!new)>(c: Config<P>, p: P, depth: nat, ply: nat, acts: seq<Action>,
                                                    prior: seq<Action>, f: Frontier)
    requires Contract(c) && Faultless(c) && depth > 0
    requires c.game.outcome(p).None? && forall a :: a in acts ==> a in c.game.legal(p).value
    requires acts == [] ==> f.best.Some?
    ensures Expand(c, p, depth, ply, acts, prior, f).Done?
    decreases depth, 0, |acts|
  {
    if acts != [] {
      assert acts[0] in acts;
      var next := c.game.apply(p, acts[0]).value;
      var rest := ChildPrior(prior, acts[0]);
      ExploreCompletes(c, next, depth - 1, NextPly(ply), f.alpha, f.beta, rest);
      var child := Explore(c, next, depth - 1, NextPly(ply), f.alpha, f.beta, rest).node;
      ExpandCompletes(c, p, depth, ply, acts[1..], prior, Absorb(Maximizing(c.game, p, c.root), f, acts[0], child));
    }
  }

  lemma {:induction false} DeepenCompletes<P(!new)>(c: Config<P>, p: P, depth: nat)
    requires Contract(c) && Faultless(c) && depth > 0
    requires c.game.legal(p).Some? && c.game.legal(p).value != []
    ensures Deepen(c, p, depth).Done?
  {
    var prior := [];
    if depth > 1 {
      DeepenCompletes(c, p, depth - 1);
      prior := Deepen(c, p, depth - 1).node.pv;
    }
    var ordered := c.order(p, c.game.legal(p).value, First(prior));
    SameElements(c.game.legal(p).value, ordered);
    ExpandCompletes(c, p, depth, 0, ordered, prior, Frontier(NEG_INFINITY, POS_INFINITY, None));
  }
}
