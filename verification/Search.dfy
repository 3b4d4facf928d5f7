/** The search as it runs: a context that counts nodes against budgets and may be stopped at
    any check, and iterative deepening over it. */
module Search {
  import opened Rules
  import opened Minimax
  import AB = AlphaBeta
  import opened Effort

  const MAX_SEARCH_DEPTH: nat := 64
  const U64_MAX: nat := 0xFFFF_FFFF_FFFF_FFFF

  /** What one check of the cancellation token and the deadline finds. */
  datatype Poll = Go | CancelRequested | DeadlinePassed

  datatype Limits = Limits(maxDepth: nat, maxNodes: nat, maxQuiescenceDepth: nat, maxQuiescenceNodes: nat) {
    /** The widths of the fields: two 16-bit depths and two 64-bit budgets. */
    predicate Representable() {
      maxDepth <= MAX_PLY && maxQuiescenceDepth <= MAX_PLY && maxNodes <= U64_MAX && maxQuiescenceNodes <= U64_MAX
    }

    predicate Invalid() {
      maxDepth == 0 || maxDepth > MAX_SEARCH_DEPTH || maxNodes == 0 || (maxQuiescenceDepth > 0 && maxQuiescenceNodes == 0)
    }
  }

  /** Checks `0 .. polls` found no reason to stop. */
  ghost predicate AllGo(oracle: nat -> Poll, polls: nat) {
    forall i: nat :: i < polls ==> oracle(i) == Go
  }

  const START: Meter := Meter(0, 0, 0)

  /** A search that ends with the meter here has stayed within its budgets and was never asked to stop. */
  ghost predicate Within(limits: Limits, oracle: nat -> Poll, end: Meter) {
    end.nodes <= limits.maxNodes && end.quiet <= limits.maxQuiescenceNodes && AllGo(oracle, end.polls)
  }

  /** The stop reason is the true one: the last check asked to stop, or a budget is exhausted,
      and no earlier check asked to stop. */
  ghost predicate Justified(reason: AB.StopReason, limits: Limits, oracle: nat -> Poll, polls: nat,
                            nodes: nat, quiescenceNodes: nat)
  {
    match reason
    case Cancelled => polls > 0 && AllGo(oracle, polls - 1) && oracle(polls - 1) == CancelRequested
    case Deadline => polls > 0 && AllGo(oracle, polls - 1) && oracle(polls - 1) == DeadlinePassed
    case NodeLimit => AllGo(oracle, polls) && nodes == limits.maxNodes
    case QuiescenceNodeLimit => AllGo(oracle, polls) && quiescenceNodes == limits.maxQuiescenceNodes
    case DepthLimit => false
    case NoLegalAction => false
  }

  class SearchContext<P> {
    const config: AB.Config<P>
    const limits: Limits
    const oracle: nat -> Poll
    var polls: nat
    var nodes: nat
    var quiescenceNodes: nat
    var cutoffs: nat

    ghost predicate Bounded()
      reads this
    {
      && config.quiet == limits.maxQuiescenceDepth
      && nodes <= limits.maxNodes && quiescenceNodes <= limits.maxQuiescenceNodes && cutoffs <= U64_MAX
    }

    /** Within budget and not asked to stop so far. */
    ghost predicate Running()
      reads this
    {
      Bounded() && AllGo(oracle, polls)
    }

    ghost predicate StoppedFor(reason: AB.StopReason)
      reads this
    {
      Bounded() && Justified(reason, limits, oracle, polls, nodes, quiescenceNodes)
    }

    constructor (config: AB.Config<P>, limits: Limits, oracle: nat -> Poll)
      requires config.quiet == limits.maxQuiescenceDepth
      ensures this.config == config && this.limits == limits && this.oracle == oracle
      ensures Running() && Now() == START
    {
      this.config, this.limits, this.oracle := config, limits, oracle;
      polls, nodes, quiescenceNodes, cutoffs := 0, 0, 0, 0;
    }

    ghost function Now(): Meter
      reads this
    {
      Meter(polls, nodes, quiescenceNodes)
    }

    ghost predicate Allows(end: Meter) {
      Within(limits, oracle, end)
    }

    method CheckExternalStop() returns (stop: Option<AB.StopReason>)
      requires Running()
      modifies `polls
      ensures stop.None? <==> Allows(old(Now()).Check())
      ensures polls == old(polls) + 1
      ensures if stop.None? then Running() else StoppedFor(stop.value)
    {
      var answer := oracle(polls);
      polls := polls + 1;
      match answer
      case Go => stop := None;
      case CancelRequested => stop := Some(AB.Cancelled);
      case DeadlinePassed => stop := Some(AB.Deadline);
    }

    method CheckStop() returns (stop: Option<AB.StopReason>)
      requires Running()
      modifies `polls
      ensures stop.None? <==> Allows(old(Now()).Visit())
      ensures polls == old(polls) + 1
      ensures if stop.None? then Running() && nodes < limits.maxNodes else StoppedFor(stop.value)
    {
      stop := CheckExternalStop();
      if stop.None? && nodes >= limits.maxNodes {
        stop := Some(AB.NodeLimit);
      }
    }

    method VisitNode() returns (stop: Option<AB.StopReason>)
      requires Running()
      modifies `polls, `nodes
      ensures stop.None? <==> Allows(old(Now()).Visit())
      ensures if stop.None? then Running() && Now() == old(Now()).Visit() else StoppedFor(stop.value)
    {
      stop := CheckExternalStop();
      if stop.None? {
        if nodes >= limits.maxNodes {
          stop := Some(AB.NodeLimit);
        } else {
          nodes := nodes + 1;
        }
      }
    }

    method VisitQuiescenceNode() returns (stop: Option<AB.StopReason>)
      requires Running()
      modifies `polls, `quiescenceNodes
      ensures stop.None? <==> Allows(old(Now()).VisitQuietly())
      ensures if stop.None? then Running() && Now() == old(Now()).VisitQuietly() else StoppedFor(stop.value)
    {
      stop := CheckExternalStop();
      if stop.None? {
        if quiescenceNodes >= limits.maxQuiescenceNodes {
          stop := Some(AB.QuiescenceNodeLimit);
        } else {
          quiescenceNodes := quiescenceNodes + 1;
        }
      }
    }

    method CountCutoff()
      requires Running()
      modifies `cutoffs
      ensures Running()
    {
      if cutoffs < U64_MAX {
        cutoffs := cutoffs + 1;
      }
    }

    /** Every exploration stops, for a true reason, exactly when the unstopped exploration would go over a budget or be
        asked to stop. Otherwise it computes exactly what the unstopped one does, and counts what that visits. */
    method Root(p: P, depth: nat, prior: seq<Action>) returns (r: AB.Explored)
      requires Running() && depth > 0
      modifies this
      ensures var end := AfterRoot(config, p, depth, prior, old(Now()));
              && (r.Stopped? <==> !Allows(end))
              && (r.Stopped? ==> StoppedFor(r.reason))
              && (!r.Stopped? ==> Running() && r == AB.Root(config, p, depth, prior))
              && (r.Done? ==> Now() == end)
    {
      RootGrows(config, p, depth, prior, Now());
      var stop := VisitNode();
      if stop.Some? {
        return AB.Stopped(stop.value);
      }
      var legal := config.game.legal(p);
      if legal.None? {
        return AB.Fatal(AB.RulesFailed);
      }
      var acts := config.order(p, legal.value, AB.First(prior));
      r := Expand(p, depth, 0, acts, prior, AB.NEG_INFINITY, AB.POS_INFINITY);
    }

    method AlphaBeta(p: P, depth: nat, ply: nat, alpha: int, beta: int, prior: seq<Action>) returns (r: AB.Explored)
      requires Running()
      modifies this
      ensures var end := AfterExplore(config, p, depth, ply, alpha, beta, prior, old(Now()));
              && (r.Stopped? <==> !Allows(end))
              && (r.Stopped? ==> StoppedFor(r.reason))
              && (!r.Stopped? ==> Running() && r == AB.Explore(config, p, depth, ply, alpha, beta, prior))
              && (r.Done? ==> Now() == end)
      decreases depth, 1
    {
      ExploreGrows(config, p, depth, ply, alpha, beta, prior, Now());
      var stop := VisitNode();
      if stop.Some? {
        return AB.Stopped(stop.value);
      }
      var outcome := config.game.outcome(p);
      if outcome.Some? {
        return AB.Done(AB.Node(TerminalScore(outcome.value, config.root, ply), []));
      }
      if depth == 0 {
        if limits.maxQuiescenceDepth == 0 {
          return AB.Evaluate(config, p);
        }
        r := Quiescence(p, ply, limits.maxQuiescenceDepth, alpha, beta);
        return;
      }
      var legal := config.game.legal(p);
      if legal.None? {
        return AB.Fatal(AB.RulesFailed);
      }
      if legal.value == [] {
        return AB.Evaluate(config, p);
      }
      var acts := config.order(p, legal.value, AB.First(prior));
      r := Expand(p, depth, ply, acts, prior, alpha, beta);
    }

    method Expand(p: P, depth: nat, ply: nat, acts: seq<Action>, prior: seq<Action>, alpha0: int, beta0: int)
      returns (r: AB.Explored)
      requires Running() && depth > 0
      modifies this
      ensures var end := AfterExpand(config, p, depth, ply, acts, prior, AB.Frontier(alpha0, beta0, None), old(Now()));
              && (r.Stopped? <==> !Allows(end))
              && (r.Stopped? ==> StoppedFor(r.reason))
              && (!r.Stopped? ==> Running() && r == AB.Expand(config, p, depth, ply, acts, prior, AB.Frontier(alpha0, beta0, None)))
              && (r.Done? ==> Now() == end)
      decreases depth, 0, 1
    {
      var maximizing := Maximizing(config.game, p, config.root);
      var frontier := AB.Frontier(alpha0, beta0, None);
      ghost var end := AfterExpand(config, p, depth, ply, acts, prior, frontier, Now());
      ghost var goal := AB.Expand(config, p, depth, ply, acts, prior, frontier);
      ExpandWhole(config, p, depth, ply, acts, prior, frontier, Now());
      var i := 0;
      while i < |acts|
        invariant 0 <= i <= |acts| && Running()
        invariant goal == AB.Expand(config, p, depth, ply, acts[i..], prior, frontier)
        invariant end == AfterExpand(config, p, depth, ply, acts[i..], prior, frontier, Now())
      {
        ExpandGoesOn(config, p, depth, ply, acts, i, prior, frontier, Now());
        r := ExpandOne(p, depth, ply, acts[i], prior, frontier);
        if !r.Done? {
          return;
        }
        frontier := AB.Absorb(maximizing, frontier, acts[i], r.node);
        if frontier.Cut() {
          CountCutoff();
          return AB.Done(frontier.best.value.node);
        }
        i := i + 1;
      }
      r := if frontier.best.None? then AB.Fatal(AB.NoChild) else AB.Done(frontier.best.value.node);
    }

    /** One action of the loop of `Expand`. */
    method ExpandOne(p: P, depth: nat, ply: nat, a: Action, prior: seq<Action>, window: AB.Frontier) returns (r: AB.Explored)
      requires Running() && depth > 0
      modifies this
      ensures var end := AfterExpandOne(config, p, depth, ply, a, prior, window, old(Now()));
              && (r.Stopped? <==> !Allows(end))
              && (r.Stopped? ==> StoppedFor(r.reason))
              && (!r.Stopped? ==> Running() && r == AB.ExpandOne(config, p, depth, ply, a, prior, window))
              && (r.Done? ==> Now() == end)
      decreases depth, 0, 0
    {
      if config.game.apply(p, a).Some? {
        ExploreGrows(config, config.game.apply(p, a).value, depth - 1, NextPly(ply), window.alpha, window.beta,
                     AB.ChildPrior(prior, a), Now().Check());
      }
      var stop := CheckStop();
      if stop.Some? {
        return AB.Stopped(stop.value);
      }
      var next := config.game.apply(p, a);
      if next.None? {
        return AB.Fatal(AB.RulesFailed);
      }
      r := AlphaBeta(next.value, depth - 1, NextPly(ply), window.alpha, window.beta, AB.ChildPrior(prior, a));
    }

    method Quiescence(p: P, ply: nat, depth: nat, alpha: int, beta: int) returns (r: AB.Explored)
      requires Running()
      modifies this
      ensures var end := AfterQuiescence(config, p, ply, depth, alpha, beta, old(Now()));
              && (r.Stopped? <==> !Allows(end))
              && (r.Stopped? ==> StoppedFor(r.reason))
              && (!r.Stopped? ==> Running() && r == AB.Quiescence(config, p, ply, depth, alpha, beta))
              && (r.Done? ==> Now() == end)
      decreases depth, 1
    {
      QuiescenceGrows(config, p, ply, depth, alpha, beta, Now());
      var stop := VisitQuiescenceNode();
      if stop.Some? {
        return AB.Stopped(stop.value);
      }
      var outcome := config.game.outcome(p);
      if outcome.Some? {
        return AB.Done(AB.Node(TerminalScore(outcome.value, config.root, ply), []));
      }
      var checked := config.game.inCheck(p);
      if checked.None? {
        return AB.Fatal(AB.RulesFailed);
      }
      var forced := config.game.resolving(p) || checked.value;
      var maximizing := Maximizing(config.game, p, config.root);
      var frontier := AB.Frontier(alpha, beta, None);
      if !forced || depth == 0 {
        r := AB.Evaluate(config, p);
        if !r.Done? || depth == 0 {
          return;
        }
        frontier := AB.StandPat(maximizing, alpha, beta, if maximizing then config.root else config.root.Opponent(), r.node);
        if frontier.Cut() {
          CountCutoff();
          return;
        }
      }
      var legal := config.game.legal(p);
      if legal.None? {
        return AB.Fatal(AB.RulesFailed);
      }
      var acts := config.order(p, legal.value, None);
      r := QuietMoves(p, ply, depth, forced, acts, frontier);
    }

    /** The loop of `Quiescence` over the ordered actions. */
    method QuietMoves(p: P, ply: nat, depth: nat, forced: bool, acts: seq<Action>, window: AB.Frontier)
      returns (r: AB.Explored)
      requires Running() && depth > 0
      modifies this
      ensures var end := AfterQuietLoop(config, p, ply, depth, forced, acts, window, old(Now()));
              && (r.Stopped? <==> !Allows(end))
              && (r.Stopped? ==> StoppedFor(r.reason))
              && (!r.Stopped? ==> Running() && r == AB.QuietLoop(config, p, ply, depth, forced, acts, window))
              && (r.Done? ==> Now() == end)
      decreases depth, 0, 1
    {
      var maximizing := Maximizing(config.game, p, config.root);
      var frontier := window;
      ghost var end := AfterQuietLoop(config, p, ply, depth, forced, acts, window, Now());
      ghost var goal := AB.QuietLoop(config, p, ply, depth, forced, acts, window);
      QuietLoopWhole(config, p, ply, depth, forced, acts, frontier, Now());
      var i := 0;
      while i < |acts|
        invariant 0 <= i <= |acts| && Running()
        invariant goal == AB.QuietLoop(config, p, ply, depth, forced, acts[i..], frontier)
        invariant end == AfterQuietLoop(config, p, ply, depth, forced, acts[i..], frontier, Now())
      {
        QuietLoopGoesOn(config, p, ply, depth, forced, acts, i, frontier, Now());
        var searched := QuietOne(p, ply, depth, forced, acts[i], frontier);
        if searched.Some? {
          if !searched.value.Done? {
            return searched.value;
          }
          frontier := AB.Absorb(maximizing, frontier, acts[i], searched.value.node);
          if frontier.Cut() {
            CountCutoff();
            return AB.Done(frontier.best.value.node);
          }
        }
        i := i + 1;
      }
      r := if frontier.best.None? then AB.Evaluate(config, p) else AB.Done(frontier.best.value.node);
    }

    /** One action of the loop of `Quiescence`; no result if it is passed over. */
    method QuietOne(p: P, ply: nat, depth: nat, forced: bool, a: Action, window: AB.Frontier) returns (r: Option<AB.Explored>)
      requires Running() && depth > 0
      modifies this
      ensures var end := AfterQuietOne(config, p, ply, depth, forced, a, window, old(Now()));
              && (r.Some? && r.value.Stopped? <==> !Allows(end))
              && (r.Some? && r.value.Stopped? ==> StoppedFor(r.value.reason))
              && (r.None? || !r.value.Stopped? ==> Running() && r == AB.QuietOne(config, p, ply, depth, forced, a, window))
              && (r.None? || r.value.Done? ==> Now() == end)
      decreases depth, 0, 0
    {
      if config.game.apply(p, a).Some? {
        QuiescenceGrows(config, config.game.apply(p, a).value, NextPly(ply), depth - 1, window.alpha, window.beta, Now().Check());
      }
      var stop := CheckExternalStop();
      if stop.Some? {
        return Some(AB.Stopped(stop.value));
      }
      var next := config.game.apply(p, a);
      if next.None? {
        return Some(AB.Fatal(AB.RulesFailed));
      }
      if !forced && !Noisy(config.game, p, a, next.value) {
        return None;
      }
      var child := Quiescence(next.value, NextPly(ply), depth - 1, window.alpha, window.beta);
      r := Some(child);
    }

    /** Deepens one ply at a time until the depth limit, a stop or a failure. One more iteration is completed exactly
        when the meter at its end stays within the limits. */
    method Iterate(p: P) returns (completed: Option<AB.Node>, depth: nat, reason: AB.StopReason, failure: Option<AB.SearchError>)
      requires Running()
      modifies this
      ensures depth <= limits.maxDepth && Bounded()
      ensures if failure.Some? then depth < limits.maxDepth && AB.Deepen(config, p, depth + 1) == AB.Fatal(failure.value)
              else if reason == AB.DepthLimit then depth == limits.maxDepth
              else depth < limits.maxDepth && StoppedFor(reason)
      ensures if depth == 0 then completed == None
              else completed.Some? && AB.Deepen(config, p, depth) == AB.Done(completed.value)
      ensures Allows(AfterDeepen(config, p, depth, old(Now())))
      ensures failure.None? && reason == AB.DepthLimit ==> Now() == AfterDeepen(config, p, depth, old(Now()))
      ensures !(failure.None? && reason == AB.DepthLimit) ==>
                (failure.None? <==> !Allows(AfterDeepen(config, p, depth + 1, old(Now()))))
    {
      ghost var start := Now();
      completed, depth, reason, failure := None, 0, AB.DepthLimit, None;
      while depth < limits.maxDepth
        invariant depth <= limits.maxDepth && Running() && failure == None && reason == AB.DepthLimit
        invariant if depth == 0 then completed == None
                  else completed.Some? && AB.Deepen(config, p, depth) == AB.Done(completed.value)
        invariant Now() == AfterDeepen(config, p, depth, start)
      {
        var prior := if completed.None? then [] else completed.value.pv;
        DeepenGoesOn(config, p, depth, prior, start);
        var explored := Root(p, depth + 1, prior);
        match explored
        case Done(node) =>
          completed := Some(node);
          depth := depth + 1;
        case Stopped(why) =>
          reason := why;
          return;
        case Fatal(error) =>
          failure := Some(error);
          return;
      }
    }
  }

  datatype SearchResult = SearchResult(
    action: Option<Action>,
    score: int,
    completedDepth: nat,
    principalVariation: seq<Action>,
    nodes: nat,
    quiescenceNodes: nat,
    stopReason: AB.StopReason,
    tieBreak: Option<seq<nat>>
  )

  /** The search ends at the depth limit, or for a true reason, within its budgets. */
  ghost predicate StopsTruly(limits: Limits, oracle: nat -> Poll, result: SearchResult) {
    && result.completedDepth <= limits.maxDepth
    && result.nodes <= limits.maxNodes && result.quiescenceNodes <= limits.maxQuiescenceNodes
    && (result.stopReason == AB.DepthLimit <==> result.completedDepth == limits.maxDepth)
    && (result.stopReason != AB.DepthLimit ==>
          exists polls: nat :: Justified(result.stopReason, limits, oracle, polls, result.nodes, result.quiescenceNodes))
  }

  /** The result of the deepest completed iteration: its exact minimax score, and a legal
      first action of a variation that reaches it. */
  ghost predicate Sound<P(!new)>(c: AB.Config<P>, p: P, result: SearchResult) {
    if result.completedDepth == 0 then
      result.action == None && result.score == 0 && result.principalVariation == []
    else
      && AB.Deepen(c, p, result.completedDepth) == AB.Done(AB.Node(result.score, result.principalVariation))
      && (AB.Contract(c) ==>
            && result.action.Some?
            && result.action.value in c.game.legal(p).value
            && result.tieBreak == Some(Key(result.action.value))
            && AB.First(result.principalVariation) == result.action
            && AB.Witness(c, p, 0, AB.Node(result.score, result.principalVariation))
            && forall fault :: result.score == Value(c.game, c.root, p, result.completedDepth, c.quiet, 0, fault))
  }

  predicate FitsBudgets(limits: Limits, end: Meter) {
    end.nodes <= limits.maxNodes && end.quiet <= limits.maxQuiescenceNodes
  }

  /** An iteration is completed exactly when the meter at its end stays within the limits; if nothing ever asks to
      stop, the depth limit is reached exactly when all the iterations fit the budgets. The reported counts are then
      those of all the iterations together. */
  ghost predicate Counted<P>(c: AB.Config<P>, p: P, limits: Limits, oracle: nat -> Poll, result: SearchResult) {
    var end := AfterDeepen(c, p, limits.maxDepth, START);
    && (forall depth: nat | 0 < depth <= limits.maxDepth ::
          depth <= result.completedDepth <==> Within(limits, oracle, AfterDeepen(c, p, depth, START)))
    && (result.stopReason == AB.DepthLimit ==> result.nodes == end.nodes && result.quiescenceNodes == end.quiet)
    && ((forall i :: oracle(i) == Go) ==> (result.stopReason == AB.DepthLimit <==> FitsBudgets(limits, end)))
  }

  lemma IterationsCounted<P>(c: AB.Config<P>, p: P, limits: Limits, oracle: nat -> Poll, polls: nat, result: SearchResult)
    requires result.completedDepth <= limits.maxDepth
    requires result.nodes <= limits.maxNodes && result.quiescenceNodes <= limits.maxQuiescenceNodes
    requires result.stopReason == AB.DepthLimit <==> result.completedDepth == limits.maxDepth
    requires result.stopReason != AB.DepthLimit ==>
               Justified(result.stopReason, limits, oracle, polls, result.nodes, result.quiescenceNodes)
    requires Within(limits, oracle, AfterDeepen(c, p, result.completedDepth, START))
    requires result.completedDepth < limits.maxDepth ==>
               !Within(limits, oracle, AfterDeepen(c, p, result.completedDepth + 1, START))
    requires result.stopReason == AB.DepthLimit ==>
               var end := AfterDeepen(c, p, limits.maxDepth, START);
               result.nodes == end.nodes && result.quiescenceNodes == end.quiet
    ensures StopsTruly(limits, oracle, result) && Counted(c, p, limits, oracle, result)
  {
    var completed := result.completedDepth;
    forall depth: nat | 0 < depth <= limits.maxDepth
      ensures depth <= completed <==> Within(limits, oracle, AfterDeepen(c, p, depth, START))
    {
      if depth <= completed {
        DeepenGrows(c, p, depth, completed, START);
      } else {
        DeepenGrows(c, p, completed + 1, depth, START);
      }
    }
  }

  /** Iterative deepening. For every behaviour of the cancellation token and the deadline, the
      result is that of the deepest completed iteration, or no action if none completed. */
  method AlphaBetaSearch<P(!new)>(game: Game<P>, root: Player, order: (P, seq<Action>, Option<Action>) -> seq<Action>,
                                  limits: Limits, oracle: nat -> Poll, p: P)
    returns (result: Result<SearchResult, AB.SearchError>)
    requires limits.Representable()
    ensures (limits.maxDepth == 0 || limits.maxDepth > 64 || limits.maxNodes == 0
             || (limits.maxQuiescenceDepth > 0 && limits.maxQuiescenceNodes == 0)) ==> result == Err(AB.InvalidLimits)
    ensures !limits.Invalid() && game.legal(p).None? ==> result == Err(AB.RulesFailed)
    ensures !limits.Invalid() && game.legal(p) == Some([]) ==>
              var score := if game.outcome(p).Some? then TerminalScore(game.outcome(p).value, root, 0) else 0;
              result == Ok(SearchResult(None, score, 0, [], 0, 0, AB.NoLegalAction, None))
    ensures var c := AB.Config(game, root, order, limits.maxQuiescenceDepth);
            && (result.Ok? && game.legal(p) != Some([]) ==> StopsTruly(limits, oracle, result.value) && Sound(c, p, result.value))
            && (result.Ok? && game.legal(p) != Some([]) ==> Counted(c, p, limits, oracle, result.value))
            && (result.Err? && !limits.Invalid() && game.legal(p).Some? ==>
                  exists depth | 0 < depth <= limits.maxDepth :: AB.Deepen(c, p, depth) == AB.Fatal(result.error))
            && ((0 < limits.maxDepth <= 64 && limits.maxNodes > 0
                 && (limits.maxQuiescenceDepth > 0 ==> limits.maxQuiescenceNodes > 0)
                 && AB.Contract(c) && AB.Faultless(c) && game.legal(p).Some?) ==> result.Ok?)
  {
    if limits.Invalid() {
      return Err(AB.InvalidLimits);
    }
    var legal := game.legal(p);
    if legal.None? {
      return Err(AB.RulesFailed);
    }
    if legal.value == [] {
      var outcome := game.outcome(p);
      var score := if outcome.Some? then TerminalScore(outcome.value, root, 0) else 0;
      return Ok(SearchResult(None, score, 0, [], 0, 0, AB.NoLegalAction, None));
    }
    var c := AB.Config(game, root, order, limits.maxQuiescenceDepth);
    result := DeepeningSearch(c, limits, oracle, p);
  }

  /** The search of a position that has a legal action, once its limits are accepted. */
  method DeepeningSearch<P(!new)>(c: AB.Config<P>, limits: Limits, oracle: nat -> Poll, p: P)
    returns (result: Result<SearchResult, AB.SearchError>)
    requires !limits.Invalid() && c.quiet == limits.maxQuiescenceDepth && c.game.legal(p).Some? && c.game.legal(p).value != []
    ensures result.Ok? ==> StopsTruly(limits, oracle, result.value) && Sound(c, p, result.value)
                           && Counted(c, p, limits, oracle, result.value)
    ensures result.Err? ==> !(AB.Contract(c) && AB.Faultless(c))
                            && exists depth | 0 < depth <= limits.maxDepth :: AB.Deepen(c, p, depth) == AB.Fatal(result.error)
  {
    var context := new SearchContext(c, limits, oracle);
    var completed, depth, reason, failure := context.Iterate(p);
    if failure.Some? {
      IterationFailed(c, p, depth + 1);
      return Err(failure.value);
    }
    var action := if completed.None? then None else AB.First(completed.value.pv);
    var node := if completed.None? then AB.Node(0, []) else completed.value;
    result := Ok(SearchResult(action, node.score, depth, node.pv, context.nodes, context.quiescenceNodes, reason,
                              if action.None? then None else Some(Key(action.value))));
    IterationsCounted(c, p, limits, oracle, context.polls, result.value);
    IterationSound(c, p, result.value);
  }

  lemma IterationFailed<P(!new)>(c: AB.Config<P>, p: P, depth: nat)
    requires depth > 0 && c.game.legal(p).Some? && c.game.legal(p).value != []
    requires !AB.Deepen(c, p, depth).Done?
    ensures !(AB.Contract(c) && AB.Faultless(c))
  {
    if AB.Contract(c) && AB.Faultless(c) {
      AB.DeepenCompletes(c, p, depth);
    }
  }

  lemma IterationSound<P(!new)>(c: AB.Config<P>, p: P, result: SearchResult)
    requires if result.completedDepth == 0 then result.score == 0 && result.principalVariation == []
             else AB.Deepen(c, p, result.completedDepth) == AB.Done(AB.Node(result.score, result.principalVariation))
    requires result.action == AB.First(result.principalVariation)
    requires result.tieBreak == if result.action.None? then None else Some(Key(result.action.value))
    ensures Sound(c, p, result)
  {
    if AB.Contract(c) && result.completedDepth > 0 {
      forall fault
        ensures result.score == Value(c.game, c.root, p, result.completedDepth, c.quiet, 0, fault)
      {
        AB.DeepenExact(c, p, result.completedDepth, fault);
      }
      AB.DeepenExact(c, p, result.completedDepth, 0);
    }
  }
}
