/** What a search costs: how many nodes and quiescence nodes the unstopped search visits, and how often it asks
    whether to stop. Counted over the tree and the windows of the pure search. */
module Effort {
  import opened Rules
  import opened Minimax
  import opened AlphaBeta

  /** The stop checks and the visits to nodes and to quiescence nodes so far. */
  datatype Meter = Meter(polls: nat, nodes: nat, quiet: nat) {
    function Check(): Meter {
      Meter(polls + 1, nodes, quiet)
    }

    function Visit(): Meter {
      Meter(polls + 1, nodes + 1, quiet)
    }

    function VisitQuietly(): Meter {
      Meter(polls + 1, nodes, quiet + 1)
    }

    predicate UpTo(later: Meter) {
      polls <= later.polls && nodes <= later.nodes && quiet <= later.quiet
    }
  }

  // ----- the meter after an exploration that is never stopped -----

  function AfterQuiescence<P>(c: Config<P>, p: P, ply: nat, depth: nat, alpha: int, beta: int, m: Meter): Meter
    decreases depth, 1, 0
  {
    var g := c.game;
    var m' := m.VisitQuietly();
    if g.outcome(p).Some? || g.inCheck(p).None? then m'
    else
      var forced := g.resolving(p) || g.inCheck(p).value;
      var maximizing := g.active(p) == c.root;
      var pat := Evaluate(c, p);
      if depth == 0 || (!forced && !pat.Done?) then m'
      else
        var f := if forced then Frontier(alpha, beta, None)
                 else StandPat(maximizing, alpha, beta, if maximizing then c.root else c.root.Opponent(), pat.node);
        if (!forced && f.Cut()) || g.legal(p).None? then m'
        else AfterQuietLoop(c, p, ply, depth, forced, c.order(p, g.legal(p).value, None), f, m')
  }

  function AfterQuietLoop<P>(c: Config<P>, p: P, ply: nat, depth: nat, forced: bool, acts: seq<Action>, f: Frontier,
                             m: Meter): Meter
    requires depth > 0
    decreases depth, 0, |acts|
  {
    if acts == [] then m
    else
      match c.game.apply(p, acts[0])
      case None => m.Check()
      case Some(next) =>
        if !forced && !Noisy(c.game, p, acts[0], next) then AfterQuietLoop(c, p, ply, depth, forced, acts[1..], f, m.Check())
        else
          var child := Quiescence(c, next, NextPly(ply), depth - 1, f.alpha, f.beta);
          var m' := AfterQuiescence(c, next, NextPly(ply), depth - 1, f.alpha, f.beta, m.Check());
          if !child.Done? then m'
          else
            var f' := Absorb(Maximizing(c.game, p, c.root), f, acts[0], child.node);
            if f'.Cut() then m' else AfterQuietLoop(c, p, ply, depth, forced, acts[1..], f', m')
  }

  function AfterExplore<P>(c: Config<P>, p: P, depth: nat, ply: nat, alpha: int, beta: int, prior: seq<Action>, m: Meter): Meter
    decreases depth, 1, 0
  {
    var m' := m.Visit();
    if c.game.outcome(p).Some? then m'
    else if depth == 0 then
      if c.quiet == 0 then m' else AfterQuiescence(c, p, ply, c.quiet, alpha, beta, m')
    else
      match c.game.legal(p)
      case None => m'
      case Some(acts) =>
        if acts == [] then m'
        else AfterExpand(c, p, depth, ply, c.order(p, acts, First(prior)), prior, Frontier(alpha, beta, None), m')
  }

  /** The check before an action wants one more node to be left. An action that can be applied goes on to take that
      node; one that cannot ends the search, and the node it wanted is counted all the same. */
  function AfterExpand<P>(c: Config<P>, p: P, depth: nat, ply: nat, acts: seq<Action>, prior: seq<Action>, f: Frontier,
                          m: Meter): Meter
    requires depth > 0
    decreases depth, 0, |acts|
  {
    if acts == [] then m
    else
      match c.game.apply(p, acts[0])
      case None => m.Visit()
      case Some(next) =>
        var child := Explore(c, next, depth - 1, NextPly(ply), f.alpha, f.beta, ChildPrior(prior, acts[0]));
        var m' := AfterExplore(c, next, depth - 1, NextPly(ply), f.alpha, f.beta, ChildPrior(prior, acts[0]), m.Check());
        if !child.Done? then m'
        else
          var f' := Absorb(Maximizing(c.game, p, c.root), f, acts[0], child.node);
          if f'.Cut() then m' else AfterExpand(c, p, depth, ply, acts[1..], prior, f', m')
  }

  /** The meter after one action of the loop of `Expand`, from the check before it. */
  function AfterExpandOne<P>(c: Config<P>, p: P, depth: nat, ply: nat, a: Action, prior: seq<Action>, f: Frontier,
                             m: Meter): Meter
    requires depth > 0
  {
    match c.game.apply(p, a)
    case None => m.Visit()
    case Some(next) => AfterExplore(c, next, depth - 1, NextPly(ply), f.alpha, f.beta, ChildPrior(prior, a), m.Check())
  }

  /** The meter after one action of the loop of `Quiescence`, from the check before it. */
  function AfterQuietOne<P>(c: Config<P>, p: P, ply: nat, depth: nat, forced: bool, a: Action, f: Frontier, m: Meter): Meter
    requires depth > 0
  {
    match c.game.apply(p, a)
    case None => m.Check()
    case Some(next) =>
      if !forced && !Noisy(c.game, p, a, next) then m.Check()
      else AfterQuiescence(c, next, NextPly(ply), depth - 1, f.alpha, f.beta, m.Check())
  }

  function AfterRoot<P>(c: Config<P>, p: P, depth: nat, prior: seq<Action>, m: Meter): Meter
    requires depth > 0
  {
    match c.game.legal(p)
    case None => m.Visit()
    case Some(acts) =>
      AfterExpand(c, p, depth, 0, c.order(p, acts, First(prior)), prior, Frontier(NEG_INFINITY, POS_INFINITY, None), m.Visit())
  }

  /** The meter after iterations 1 to `depth`, or after the first that fails. */
  function AfterDeepen<P>(c: Config<P>, p: P, depth: nat, m: Meter): Meter {
    if depth == 0 then m
    else if depth == 1 then AfterRoot(c, p, 1, [], m)
    else
      var previous := Deepen(c, p, depth - 1);
      var m' := AfterDeepen(c, p, depth - 1, m);
      if previous.Done? then AfterRoot(c, p, depth, previous.node.pv, m') else m'
  }

  // ----- no count is ever taken back -----

  /** Quiescence visits no full-width node. */
  lemma {:induction false} QuiescenceGrows<P>(c: Config<P>, p: P, ply: nat, depth: nat, alpha: int, beta: int, m: Meter)
    ensures var end := AfterQuiescence(c, p, ply, depth, alpha, beta, m); m.VisitQuietly().UpTo(end) && end.nodes == m.nodes
    decreases depth, 1, 0
  {
    var g := c.game;
    if g.outcome(p).None? && g.inCheck(p).Some? && depth > 0 && g.legal(p).Some? {
      var forced := g.resolving(p) || g.inCheck(p).value;
      var acts := c.order(p, g.legal(p).value, None);
      if forced {
        QuietLoopGrows(c, p, ply, depth, forced, acts, Frontier(alpha, beta, None), m.VisitQuietly());
      } else if Evaluate(c, p).Done? {
        var maximizing := g.active(p) == c.root;
        var f := StandPat(maximizing, alpha, beta, if maximizing then c.root else c.root.Opponent(), Evaluate(c, p).node);
        QuietLoopGrows(c, p, ply, depth, forced, acts, f, m.VisitQuietly());
      }
    }
  }

  lemma {:induction false} QuietLoopGrows<P>(c: Config<P>, p: P, ply: nat, depth: nat, forced: bool, acts: seq<Action>,
                                                   f: Frontier, m: Meter)
    requires depth > 0
    ensures var end := AfterQuietLoop(c, p, ply, depth, forced, acts, f, m); m.UpTo(end) && end.nodes == m.nodes
    ensures acts != [] ==> m.Check().UpTo(AfterQuietLoop(c, p, ply, depth, forced, acts, f, m))
    decreases depth, 0, |acts|
  {
    if acts != [] && c.game.apply(p, acts[0]).Some? {
      var next := c.game.apply(p, acts[0]).value;
      if !forced && !Noisy(c.game, p, acts[0], next) {
        QuietLoopGrows(c, p, ply, depth, forced, acts[1..], f, m.Check());
      } else {
        QuiescenceGrows(c, next, NextPly(ply), depth - 1, f.alpha, f.beta, m.Check());
        var child := Quiescence(c, next, NextPly(ply), depth - 1, f.alpha, f.beta);
        var m' := AfterQuiescence(c, next, NextPly(ply), depth - 1, f.alpha, f.beta, m.Check());
        if child.Done? {
          QuietLoopGrows(c, p, ply, depth, forced, acts[1..], Absorb(Maximizing(c.game, p, c.root), f, acts[0], child.node), m');
        }
      }
    }
  }

  /** The loop of `Quiescence`, one action at a time. */
  lemma QuietLoopGoesOn<P>(c: Config<P>, p: P, ply: nat, depth: nat, forced: bool, acts: seq<Action>, i: nat,
                           f: Frontier, m: Meter)
    requires depth > 0 && i < |acts|
    ensures var child := QuietOne(c, p, ply, depth, forced, acts[i], f);
            var m' := AfterQuietOne(c, p, ply, depth, forced, acts[i], f, m);
            var loop := QuietLoop(c, p, ply, depth, forced, acts[i..], f);
            var end := AfterQuietLoop(c, p, ply, depth, forced, acts[i..], f, m);
            && m'.UpTo(end)
            && match child {
                 case None =>
                   && loop == QuietLoop(c, p, ply, depth, forced, acts[i + 1..], f)
                   && end == AfterQuietLoop(c, p, ply, depth, forced, acts[i + 1..], f, m')
                 case Some(r) =>
                   if !r.Done? then loop == r && end == m'
                   else
                     var f' := Absorb(Maximizing(c.game, p, c.root), f, acts[i], r.node);
                     if f'.Cut() then loop == Done(f'.best.value.node) && end == m'
                     else
                       && loop == QuietLoop(c, p, ply, depth, forced, acts[i + 1..], f')
                       && end == AfterQuietLoop(c, p, ply, depth, forced, acts[i + 1..], f', m')
               }
  {
    assert acts[i..][0] == acts[i] && acts[i..][1..] == acts[i + 1..];
    var child := QuietOne(c, p, ply, depth, forced, acts[i], f);
    var m' := AfterQuietOne(c, p, ply, depth, forced, acts[i], f, m);
    if child.None? {
      QuietLoopGrows(c, p, ply, depth, forced, acts[i + 1..], f, m');
    } else if child.value.Done? {
      var f' := Absorb(Maximizing(c.game, p, c.root), f, acts[i], child.value.node);
      QuietLoopGrows(c, p, ply, depth, forced, acts[i + 1..], f', m');
    }
  }

  lemma QuietLoopWhole<P>(c: Config<P>, p: P, ply: nat, depth: nat, forced: bool, acts: seq<Action>, f: Frontier, m: Meter)
    requires depth > 0
    ensures QuietLoop(c, p, ply, depth, forced, acts[0..], f) == QuietLoop(c, p, ply, depth, forced, acts, f)
    ensures AfterQuietLoop(c, p, ply, depth, forced, acts[0..], f, m) == AfterQuietLoop(c, p, ply, depth, forced, acts, f, m)
  {
    assert acts[0..] == acts;
  }

  lemma {:induction false} ExploreGrows<P>(c: Config<P>, p: P, depth: nat, ply: nat, alpha: int, beta: int,
                                                 prior: seq<Action>, m: Meter)
    ensures m.Visit().UpTo(AfterExplore(c, p, depth, ply, alpha, beta, prior, m))
    decreases depth, 1, 0
  {
    if c.game.outcome(p).None? {
      if depth == 0 {
        QuiescenceGrows(c, p, ply, c.quiet, alpha, beta, m.Visit());
      } else if c.game.legal(p).Some? {
        var acts := c.order(p, c.game.legal(p).value, First(prior));
        ExpandGrows(c, p, depth, ply, acts, prior, Frontier(alpha, beta, None), m.Visit());
      }
    }
  }

  /** The loop comes to at least one node if it comes to an action. */
  lemma {:induction false} ExpandGrows<P>(c: Config<P>, p: P, depth: nat, ply: nat, acts: seq<Action>, prior: seq<Action>,
                                                f: Frontier, m: Meter)
    requires depth > 0
    ensures var end := AfterExpand(c, p, depth, ply, acts, prior, f, m);
            m.UpTo(end) && (acts != [] ==> m.Visit().UpTo(end))
    decreases depth, 0, |acts|
  {
    if acts != [] && c.game.apply(p, acts[0]).Some? {
      var next := c.game.apply(p, acts[0]).value;
      var rest := ChildPrior(prior, acts[0]);
      ExploreGrows(c, next, depth - 1, NextPly(ply), f.alpha, f.beta, rest, m.Check());
      var child := Explore(c, next, depth - 1, NextPly(ply), f.alpha, f.beta, rest);
      var m' := AfterExplore(c, next, depth - 1, NextPly(ply), f.alpha, f.beta, rest, m.Check());
      if child.Done? {
        ExpandGrows(c, p, depth, ply, acts[1..], prior, Absorb(Maximizing(c.game, p, c.root), f, acts[0], child.node), m');
      }
    }
  }

  /** The loop of `Expand`, one action at a time. */
  lemma ExpandGoesOn<P>(c: Config<P>, p: P, depth: nat, ply: nat, acts: seq<Action>, i: nat, prior: seq<Action>,
                        f: Frontier, m: Meter)
    requires depth > 0 && i < |acts|
    ensures var child := ExpandOne(c, p, depth, ply, acts[i], prior, f);
            var m' := AfterExpandOne(c, p, depth, ply, acts[i], prior, f, m);
            var loop, end := Expand(c, p, depth, ply, acts[i..], prior, f), AfterExpand(c, p, depth, ply, acts[i..], prior, f, m);
            && m'.UpTo(end)
            && if !child.Done? then loop == child && end == m'
               else
                 var f' := Absorb(Maximizing(c.game, p, c.root), f, acts[i], child.node);
                 if f'.Cut() then loop == Done(f'.best.value.node) && end == m'
                 else
                   && loop == Expand(c, p, depth, ply, acts[i + 1..], prior, f')
                   && end == AfterExpand(c, p, depth, ply, acts[i + 1..], prior, f', m')
  {
    assert acts[i..][0] == acts[i] && acts[i..][1..] == acts[i + 1..];
    var child := ExpandOne(c, p, depth, ply, acts[i], prior, f);
    if child.Done? {
      ExpandGrows(c, p, depth, ply, acts[i + 1..], prior, Absorb(Maximizing(c.game, p, c.root), f, acts[i], child.node),
                  AfterExpandOne(c, p, depth, ply, acts[i], prior, f, m));
    }
  }

  lemma ExpandWhole<P>(c: Config<P>, p: P, depth: nat, ply: nat, acts: seq<Action>, prior: seq<Action>, f: Frontier, m: Meter)
    requires depth > 0
    ensures Expand(c, p, depth, ply, acts[0..], prior, f) == Expand(c, p, depth, ply, acts, prior, f)
    ensures AfterExpand(c, p, depth, ply, acts[0..], prior, f, m) == AfterExpand(c, p, depth, ply, acts, prior, f, m)
  {
    assert acts[0..] == acts;
  }

  lemma RootGrows<P>(c: Config<P>, p: P, depth: nat, prior: seq<Action>, m: Meter)
    requires depth > 0
    ensures m.Visit().UpTo(AfterRoot(c, p, depth, prior, m))
  {
    if c.game.legal(p).Some? {
      var acts := c.order(p, c.game.legal(p).value, First(prior));
      ExpandGrows(c, p, depth, 0, acts, prior, Frontier(NEG_INFINITY, POS_INFINITY, None), m.Visit());
    }
  }

  lemma {:induction false} DeepenGrows<P>(c: Config<P>, p: P, less: nat, depth: nat, m: Meter)
    requires less <= depth
    ensures AfterDeepen(c, p, less, m).UpTo(AfterDeepen(c, p, depth, m))
  {
    if less < depth {
      DeepenGrows(c, p, less, depth - 1, m);
      if depth == 1 {
        RootGrows(c, p, 1, [], m);
      } else if Deepen(c, p, depth - 1).Done? {
        RootGrows(c, p, depth, Deepen(c, p, depth - 1).node.pv, AfterDeepen(c, p, depth - 1, m));
      }
    }
  }

  /** One more iteration, guided by the variation of the last. */
  lemma DeepenGoesOn<P>(c: Config<P>, p: P, depth: nat, prior: seq<Action>, m: Meter)
    requires if depth == 0 then prior == [] else Deepen(c, p, depth).Done? && prior == Deepen(c, p, depth).node.pv
    ensures Deepen(c, p, depth + 1) == Root(c, p, depth + 1, prior)
    ensures AfterDeepen(c, p, depth + 1, m) == AfterRoot(c, p, depth + 1, prior, AfterDeepen(c, p, depth, m))
  {
  }

  // ----- what is visited, counted by hand -----

  lemma {:induction false} FirstActions<P(!new)>(c: Config<P>, p: P, acts: seq<Action>, f: Frontier, m: Meter)
    requires Contract(c) && Faultless(c) && c.game.outcome(p).None? && forall a :: a in acts ==> a in c.game.legal(p).value
    requires if Maximizing(c.game, p, c.root) then f.beta == POS_INFINITY && f.alpha <= MATE_SCORE
             else f.alpha == NEG_INFINITY && f.beta >= -MATE_SCORE
    ensures var end := AfterExpand(c, p, 1, 0, acts, [], f, m);
            end.nodes == m.nodes + |acts| && (c.quiet == 0 ==> end.quiet == m.quiet && end.polls == m.polls + 2 * |acts|)
  {
    if acts != [] {
      assert acts[0] in acts;
      var next := c.game.apply(p, acts[0]).value;
      ExploreCompletes(c, next, 0, NextPly(0), f.alpha, f.beta, []);
      ExploreWitness(c, next, 0, NextPly(0), f.alpha, f.beta, []);
      var child := Explore(c, next, 0, NextPly(0), f.alpha, f.beta, []).node;
      WitnessInRange(c, next, NextPly(0), child);
      QuiescenceGrows(c, next, NextPly(0), c.quiet, f.alpha, f.beta, m.Check().Visit());
      var m' := AfterExplore(c, next, 0, NextPly(0), f.alpha, f.beta, [], m.Check());
      assert m'.nodes == m.nodes + 1;
      FirstActions(c, p, acts[1..], Absorb(Maximizing(c.game, p, c.root), f, acts[0], child), m');
    }
  }

  /** The first iteration is never cut short: it visits the root and every child once, and without quiescence asks
      once for the root and twice for every action. */
  lemma FirstIterationVisits<P(!new)>(c: Config<P>, p: P, m: Meter)
    requires Contract(c) && Faultless(c) && c.game.outcome(p).None?
    ensures var end, n := AfterDeepen(c, p, 1, m), |c.game.legal(p).value|;
            end.nodes == m.nodes + 1 + n && (c.quiet == 0 ==> end.quiet == m.quiet && end.polls == m.polls + 1 + 2 * n)
  {
    var acts := c.order(p, c.game.legal(p).value, None);
    SameElements(c.game.legal(p).value, acts);
    FirstActions(c, p, acts, Frontier(NEG_INFINITY, POS_INFINITY, None), m.Visit());
  }

  lemma {:induction false} SilentActions<P>(c: Config<P>, p: P, ply: nat, depth: nat, acts: seq<Action>, f: Frontier, m: Meter)
    requires depth > 0 && !c.game.resolving(p)
    requires forall a :: a in acts ==>
               c.game.apply(p, a).Some? && c.game.signal(p, a) == Silent && !a.ChoosePromotion?
               && c.game.outcome(c.game.apply(p, a).value).None?
    ensures AfterQuietLoop(c, p, ply, depth, false, acts, f, m) == Meter(m.polls + |acts|, m.nodes, m.quiet)
  {
    if acts != [] {
      assert acts[0] in acts;
      SilentActions(c, p, ply, depth, acts[1..], f, m.Check());
    }
  }

  /** Quiescence in a silent position visits that position alone, and asks once for it and once for every action it
      passes over. */
  lemma SilentQuiescenceVisits<P(!new)>(c: Config<P>, p: P, ply: nat, depth: nat, alpha: int, beta: int, eval: int, m: Meter)
    requires Contract(c) && depth > 0 && c.game.outcome(p).None? && !c.game.resolving(p) && c.game.inCheck(p) == Some(false)
    requires c.game.evaluate(p, c.root) == Some(eval) && -500_000 <= eval <= 500_000 && alpha < eval < beta
    requires c.game.legal(p).Some?
    requires forall a :: a in c.game.legal(p).value ==>
               c.game.apply(p, a).Some? && c.game.signal(p, a) == Silent && !a.ChoosePromotion?
               && c.game.outcome(c.game.apply(p, a).value).None?
    ensures AfterQuiescence(c, p, ply, depth, alpha, beta, m) == Meter(m.polls + 1 + |c.game.legal(p).value|, m.nodes, m.quiet + 1)
  {
    var acts := c.order(p, c.game.legal(p).value, None);
    SameElements(c.game.legal(p).value, acts);
    var maximizing := c.game.active(p) == c.root;
    var f := StandPat(maximizing, alpha, beta, if maximizing then c.root else c.root.Opponent(), Node(eval, []));
    SilentActions(c, p, ply, depth, acts, f, m.VisitQuietly());
  }
}
