/** What decisive scores certify: a score beyond the heuristic range is a forced win, with its distance. */
module Mate {
  import opened Rules
  import opened Minimax
  import opened AlphaBeta

  /** `player` can force a win within `plies` further actions, whatever the opponent does. */
  predicate CanForce<P>(g: Game<P>, player: Player, p: P, plies: nat)
    decreases plies
  {
    match g.outcome(p)
    case Some(winner) => winner == Some(player)
    case None =>
      && plies > 0
      && g.legal(p).Some?
      && g.legal(p).value != []
      && if g.active(p) == player
         then exists a :: a in g.legal(p).value && g.apply(p, a).Some? && CanForce(g, player, g.apply(p, a).value, plies - 1)
         else forall a :: a in g.legal(p).value ==> g.apply(p, a).Some? && CanForce(g, player, g.apply(p, a).value, plies - 1)
  }

  lemma {:induction false} CanForceLonger<P>(g: Game<P>, player: Player, p: P, plies: nat, more: nat)
    requires CanForce(g, player, p, plies) && plies <= more
    ensures CanForce(g, player, p, more)
    decreases plies
  {
    if g.outcome(p).None? {
      if Maximizing(g, p, player) {
        var a :| a in g.legal(p).value && g.apply(p, a).Some? && CanForce(g, player, g.apply(p, a).value, plies - 1);
        CanForceLonger(g, player, g.apply(p, a).value, plies - 1, more - 1);
      } else {
        forall a | a in g.legal(p).value
          ensures g.apply(p, a).Some? && CanForce(g, player, g.apply(p, a).value, more - 1)
        {
          CanForceLonger(g, player, g.apply(p, a).value, plies - 1, more - 1);
        }
      }
    }
  }

  /** The plies left to a win that scores `v` from a node at `ply`. */
  function Distance(v: int, ply: nat): (plies: int) {
    MATE_SCORE - v - ply
  }

  lemma {:induction false} QuietMate<P>(g: Game<P>, root: Player, p: P, ply: nat, depth: nat)
    requires ply + depth <= MAX_PLY
    requires Quiet(g, root, p, ply, depth, -MATE_SCORE) > MAX_HEURISTIC_SCORE
    ensures var v := Quiet(g, root, p, ply, depth, -MATE_SCORE);
            Distance(v, ply) >= 0 && CanForce(g, root, p, Distance(v, ply))
    decreases depth, 1
  {
    var fault := -MATE_SCORE;
    if g.outcome(p).None? {
      var v := Quiet(g, root, p, ply, depth, fault);
      var forced := Forced(g, p).value;
      var start := if forced then None else Some(EvalOr(g, root, p, fault));
      var acts := g.legal(p).value;
      QuietBestIsExtreme(g, root, p, ply, depth, forced, start, acts, fault);
      if Maximizing(g, p, root) {
        var a :| a in acts && Tried(g, p, forced, a) && QuietChild(g, root, p, ply, depth, a, fault) == v;
        QuietMate(g, root, g.apply(p, a).value, ply + 1, depth - 1);
        assert Distance(v, ply) - 1 == Distance(v, ply + 1);
      } else {
        assert forced;
        var some: Action :| some in acts && Tried(g, p, forced, some);
        forall a | a in acts
          ensures g.apply(p, a).Some? && Distance(v, ply) >= 1 && CanForce(g, root, g.apply(p, a).value, Distance(v, ply) - 1)
        {
          assert Tried(g, p, forced, a);
          assert NoBetter(false, QuietChild(g, root, p, ply, depth, a, fault), v);
          QuietReply(g, root, p, ply, depth, a, v);
        }
        assert Distance(v, ply) >= 1;
      }
    }
  }

  /** A forced reply that still scores at least `v` leaves a win within one ply fewer than `v` promises. */
  lemma {:induction false} QuietReply<P>(g: Game<P>, root: Player, p: P, ply: nat, depth: nat, a: Action, v: int)
    requires depth > 0 && ply + depth <= MAX_PLY
    requires QuietChild(g, root, p, ply, depth, a, -MATE_SCORE) >= v > MAX_HEURISTIC_SCORE
    ensures g.apply(p, a).Some? && Distance(v, ply) >= 1 && CanForce(g, root, g.apply(p, a).value, Distance(v, ply) - 1)
    decreases depth, 0
  {
    var w := QuietChild(g, root, p, ply, depth, a, -MATE_SCORE);
    QuietMate(g, root, g.apply(p, a).value, ply + 1, depth - 1);
    CanForceLonger(g, root, g.apply(p, a).value, Distance(w, ply + 1), Distance(v, ply) - 1);
  }

  lemma {:induction false} ValueMate<P>(g: Game<P>, root: Player, p: P, depth: nat, quiet: nat, ply: nat)
    requires ply + depth + quiet <= MAX_PLY
    requires Value(g, root, p, depth, quiet, ply, -MATE_SCORE) > MAX_HEURISTIC_SCORE
    ensures var v := Value(g, root, p, depth, quiet, ply, -MATE_SCORE);
            Distance(v, ply) >= 0 && CanForce(g, root, p, Distance(v, ply))
    decreases depth
  {
    var fault := -MATE_SCORE;
    if g.outcome(p).None? {
      if depth == 0 {
        if quiet > 0 {
          QuietMate(g, root, p, ply, quiet);
        }
      } else {
        var v := Value(g, root, p, depth, quiet, ply, fault);
        var acts := g.legal(p).value;
        BestIsExtreme(g, root, p, depth, quiet, ply, None, acts, fault);
        if Maximizing(g, p, root) {
          var a :| a in acts && Child(g, root, p, depth, quiet, ply, a, fault) == v;
          ValueMate(g, root, g.apply(p, a).value, depth - 1, quiet, ply + 1);
          assert Distance(v, ply) - 1 == Distance(v, ply + 1);
        } else {
          forall a | a in acts
            ensures g.apply(p, a).Some? && Distance(v, ply) >= 1 && CanForce(g, root, g.apply(p, a).value, Distance(v, ply) - 1)
          {
            var w := Child(g, root, p, depth, quiet, ply, a, fault);
            assert NoBetter(false, w, v);
            ValueMate(g, root, g.apply(p, a).value, depth - 1, quiet, ply + 1);
            CanForceLonger(g, root, g.apply(p, a).value, Distance(w, ply + 1), Distance(v, ply) - 1);
          }
          assert acts[0] in acts;
        }
      }
    }
  }

  /** Within the full-width horizon the search misses no forced win. */
  lemma {:induction false} ForcedWinIsSeen<P>(g: Game<P>, root: Player, p: P, depth: nat, quiet: nat, ply: nat,
                                              plies: nat, fault: int)
    requires ply + depth <= MAX_PLY && plies <= depth
    requires CanForce(g, root, p, plies)
    ensures Value(g, root, p, depth, quiet, ply, fault) >= MATE_SCORE - ply - plies
    decreases depth
  {
    if g.outcome(p).None? {
      var acts := g.legal(p).value;
      BestIsExtreme(g, root, p, depth, quiet, ply, None, acts, fault);
      if Maximizing(g, p, root) {
        var a :| a in acts && g.apply(p, a).Some? && CanForce(g, root, g.apply(p, a).value, plies - 1);
        ForcedWinIsSeen(g, root, g.apply(p, a).value, depth - 1, quiet, ply + 1, plies - 1, fault);
        assert NoBetter(true, Child(g, root, p, depth, quiet, ply, a, fault), Value(g, root, p, depth, quiet, ply, fault));
      } else {
        var v := Value(g, root, p, depth, quiet, ply, fault);
        var a :| a in acts && Child(g, root, p, depth, quiet, ply, a, fault) == v;
        ForcedWinIsSeen(g, root, g.apply(p, a).value, depth - 1, quiet, ply + 1, plies - 1, fault);
      }
    }
  }

  /** Mate certificate: a completed iteration that scores above the heuristic range has found a
      win the root player can force within MATE_SCORE minus the score plies. */
  lemma MateCertificate<P(!new)>(c: Config<P>, p: P, depth: nat)
    requires Contract(c) && depth > 0 && depth + c.quiet <= MAX_PLY
    requires Deepen(c, p, depth).Done?
    requires Deepen(c, p, depth).node.score > MAX_HEURISTIC_SCORE
    ensures var score := Deepen(c, p, depth).node.score;
            score <= MATE_SCORE && CanForce(c.game, c.root, p, MATE_SCORE - score)
  {
    DeepenExact(c, p, depth, -MATE_SCORE);
    ValueMate(c.game, c.root, p, depth, c.quiet, 0);
  }

  /** Up to the iteration's depth the certificate is exact: the score reports a win within
      `plies` if and only if one can be forced. */
  lemma MateDistanceExact<P(!new)>(c: Config<P>, p: P, depth: nat, plies: nat)
    requires Contract(c) && depth > 0 && depth + c.quiet <= MAX_PLY && plies <= depth
    requires Deepen(c, p, depth).Done?
    ensures Deepen(c, p, depth).node.score >= MATE_SCORE - plies <==> CanForce(c.game, c.root, p, plies)
  {
    DeepenExact(c, p, depth, 0);
    if CanForce(c.game, c.root, p, plies) {
      ForcedWinIsSeen(c.game, c.root, p, depth, c.quiet, 0, plies, 0);
    }
    var score := Deepen(c, p, depth).node.score;
    if score >= MATE_SCORE - plies {
      MateCertificate(c, p, depth);
      CanForceLonger(c.game, c.root, p, MATE_SCORE - score, plies);
    }
  }

  // ----- the two players' views are mirror images -----

  function Negated(m: Option<int>): Option<int> {
    match m
    case None => None
    case Some(v) => Some(-v)
  }

  ghost predicate ZeroSum<P(!new)>(g: Game<P>) {
    forall p, player: Player :: g.evaluate(p, player.Opponent()) == Negated(g.evaluate(p, player))
  }

  /** The same game, evaluated for either player as the negation of what `root` sees. */
  function Mirror<P>(g: Game<P>, root: Player): Game<P> {
    g.(evaluate := (p, player) => Negated(g.evaluate(p, root)))
  }

  /** `h` is `g` but for the evaluator, which for the opponent negates what `g` says for `root`. */
  ghost predicate Mirrors<P(!new)>(g: Game<P>, h: Game<P>, root: Player) {
    h == g.(evaluate := h.evaluate) && forall p :: h.evaluate(p, root.Opponent()) == Negated(g.evaluate(p, root))
  }

  lemma {:induction false} QuietMirror<P(!new)>(g: Game<P>, h: Game<P>, root: Player, p: P, ply: nat, depth: nat, fault: int)
    requires Mirrors(g, h, root)
    ensures Quiet(h, root.Opponent(), p, ply, depth, -fault) == -Quiet(g, root, p, ply, depth, fault)
    decreases depth, 1, 0
  {
    assert h.evaluate(p, root.Opponent()) == Negated(g.evaluate(p, root));
    if g.outcome(p).None? && Forced(g, p).Some? && depth > 0 && g.legal(p).Some? {
      var forced := Forced(g, p).value;
      var start := if forced then None else Some(EvalOr(g, root, p, fault));
      QuietBestMirror(g, h, root, p, ply, depth, forced, start, g.legal(p).value, fault);
    }
  }

  lemma {:induction false} QuietBestMirror<P(!new)>(g: Game<P>, h: Game<P>, root: Player, p: P, ply: nat, depth: nat, forced: bool,
                                                    m: Option<int>, acts: seq<Action>, fault: int)
    requires Mirrors(g, h, root) && depth > 0
    ensures QuietBest(h, root.Opponent(), p, ply, depth, forced, Negated(m), acts, -fault)
         == Negated(QuietBest(g, root, p, ply, depth, forced, m, acts, fault))
    decreases depth, 0, |acts|
  {
    if acts != [] {
      if g.apply(p, acts[0]).Some? {
        QuietMirror(g, h, root, g.apply(p, acts[0]).value, NextPly(ply), depth - 1, fault);
      }
      var v := QuietChild(g, root, p, ply, depth, acts[0], fault);
      var m' := if Tried(g, p, forced, acts[0]) then Some(Merge(Maximizing(g, p, root), m, v)) else m;
      QuietBestMirror(g, h, root, p, ply, depth, forced, m', acts[1..], fault);
    }
  }

  /** The opponent's minimax value in the mirrored game is the negation of the root player's. */
  lemma {:induction false} MirrorValue<P(!new)>(g: Game<P>, h: Game<P>, root: Player, p: P, depth: nat, quiet: nat,
                                                ply: nat, fault: int)
    requires Mirrors(g, h, root)
    ensures Value(h, root.Opponent(), p, depth, quiet, ply, -fault) == -Value(g, root, p, depth, quiet, ply, fault)
    decreases depth, 1, 0
  {
    assert h.evaluate(p, root.Opponent()) == Negated(g.evaluate(p, root));
    if g.outcome(p).None? {
      if depth == 0 {
        if quiet > 0 {
          QuietMirror(g, h, root, p, ply, quiet, fault);
        }
      } else if g.legal(p).Some? {
        BestMirror(g, h, root, p, depth, quiet, ply, None, g.legal(p).value, fault);
      }
    }
  }

  lemma {:induction false} BestMirror<P(!new)>(g: Game<P>, h: Game<P>, root: Player, p: P, depth: nat, quiet: nat, ply: nat,
                                               m: Option<int>, acts: seq<Action>, fault: int)
    requires Mirrors(g, h, root) && depth > 0
    ensures Best(h, root.Opponent(), p, depth, quiet, ply, Negated(m), acts, -fault)
         == Negated(Best(g, root, p, depth, quiet, ply, m, acts, fault))
    decreases depth, 0, |acts|
  {
    if acts != [] {
      if g.apply(p, acts[0]).Some? {
        MirrorValue(g, h, root, g.apply(p, acts[0]).value, depth - 1, quiet, NextPly(ply), fault);
      }
      var v := Child(g, root, p, depth, quiet, ply, acts[0], fault);
      BestMirror(g, h, root, p, depth, quiet, ply, Some(Merge(Maximizing(g, p, root), m, v)), acts[1..], fault);
    }
  }

  /** With a zero-sum evaluator the minimax value for one player is the negation of the other's. */
  lemma ValueMirror<P(!new)>(g: Game<P>, root: Player, p: P, depth: nat, quiet: nat, ply: nat, fault: int)
    requires ZeroSum(g)
    ensures Value(g, root.Opponent(), p, depth, quiet, ply, -fault) == -Value(g, root, p, depth, quiet, ply, fault)
  {
    MirrorValue(g, g, root, p, depth, quiet, ply, fault);
  }

  /** Who can force a win is a matter of the rules alone. */
  lemma {:induction false} MirrorForces<P(!new)>(g: Game<P>, h: Game<P>, root: Player, player: Player, p: P, plies: nat)
    requires Mirrors(g, h, root)
    ensures CanForce(h, player, p, plies) <==> CanForce(g, player, p, plies)
    decreases plies
  {
    if g.outcome(p).None? && plies > 0 && g.legal(p).Some? {
      forall a | a in g.legal(p).value && g.apply(p, a).Some?
        ensures CanForce(h, player, g.apply(p, a).value, plies - 1) <==> CanForce(g, player, g.apply(p, a).value, plies - 1)
      {
        MirrorForces(g, h, root, player, g.apply(p, a).value, plies - 1);
      }
    }
  }

  lemma MirrorIsMirror<P(!new)>(g: Game<P>, root: Player)
    ensures Mirrors(g, Mirror(g, root), root)
  {
  }

  /** A score below the heuristic range certifies that the opponent can force a win, whatever the evaluator. */
  lemma LossCertificate<P(!new)>(c: Config<P>, p: P, depth: nat)
    requires Contract(c) && depth > 0 && depth + c.quiet <= MAX_PLY
    requires Deepen(c, p, depth).Done?
    requires Deepen(c, p, depth).node.score < -MAX_HEURISTIC_SCORE
    ensures var score := Deepen(c, p, depth).node.score;
            score >= -MATE_SCORE && CanForce(c.game, c.root.Opponent(), p, MATE_SCORE + score)
  {
    var h, opponent := Mirror(c.game, c.root), c.root.Opponent();
    MirrorIsMirror(c.game, c.root);
    DeepenExact(c, p, depth, MATE_SCORE);
    MirrorValue(c.game, h, c.root, p, depth, c.quiet, 0, MATE_SCORE);
    ValueMate(h, opponent, p, depth, c.quiet, 0);
    MirrorForces(c.game, h, c.root, opponent, p, MATE_SCORE + Deepen(c, p, depth).node.score);
  }

  /** Up to the iteration's depth the losing certificate is exact too: the score reports a loss within `plies`
      if and only if the opponent can force one. */
  lemma LossDistanceExact<P(!new)>(c: Config<P>, p: P, depth: nat, plies: nat)
    requires Contract(c) && depth > 0 && depth + c.quiet <= MAX_PLY && plies <= depth
    requires Deepen(c, p, depth).Done?
    ensures Deepen(c, p, depth).node.score <= -MATE_SCORE + plies <==> CanForce(c.game, c.root.Opponent(), p, plies)
  {
    var h, opponent := Mirror(c.game, c.root), c.root.Opponent();
    MirrorIsMirror(c.game, c.root);
    DeepenExact(c, p, depth, 0);
    MirrorValue(c.game, h, c.root, p, depth, c.quiet, 0, 0);
    if CanForce(c.game, opponent, p, plies) {
      MirrorForces(c.game, h, c.root, opponent, p, plies);
      ForcedWinIsSeen(h, opponent, p, depth, c.quiet, 0, plies, 0);
    }
    var score := Deepen(c, p, depth).node.score;
    if score <= -MATE_SCORE + plies {
      LossCertificate(c, p, depth);
      CanForceLonger(c.game, opponent, p, MATE_SCORE + score, plies);
    }
  }
}
