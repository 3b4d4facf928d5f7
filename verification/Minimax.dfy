/** The reference the search is measured against: plain minimax over the full tree,
    with the same horizon and quiescence rules and no pruning, no move ordering, no
    budgets and no state. A node whose rules or evaluator fail counts as `fault`. */
module Minimax {
  import opened Rules

  /** The better of an optional running value and a new one, for the side to move. */
  function Merge(maximizing: bool, m: Option<int>, v: int): (r: int)
    ensures if maximizing then r >= v && (m.Some? ==> r >= m.value)
            else r <= v && (m.Some? ==> r <= m.value)
    ensures r == v || m == Some(r)
  {
    match m
    case None => v
    case Some(w) => if maximizing then (if v > w then v else w) else (if v < w then v else w)
  }

  function EvalOr<P>(g: Game<P>, root: Player, p: P, fault: int): int {
    match Heuristic(g, root, p)
    case None => fault
    case Some(score) => score
  }

  function Forced<P>(g: Game<P>, p: P): Option<bool> {
    match g.inCheck(p)
    case None => None
    case Some(checked) => Some(g.resolving(p) || checked)
  }

  // ----- quiescence -----

  /** Minimax over the bounded quiescence tree: a forced node (a mandatory choice or a
      check) tries every action; any other node may stand pat or try a noisy action.
      When the actions cannot be enumerated, the unknown continuation counts as `fault`. */
  function Quiet<P>(g: Game<P>, root: Player, p: P, ply: nat, depth: nat, fault: int): int
    decreases depth, 1, 0
  {
    match g.outcome(p)
    case Some(winner) => TerminalScore(winner, root, ply)
    case None =>
      match Forced(g, p)
      case None => fault
      case Some(forced) =>
        if depth == 0 then EvalOr(g, root, p, fault)
        else
          var start := if forced then None else Some(EvalOr(g, root, p, fault));
          match g.legal(p)
          case None => Merge(Maximizing(g, p, root), start, fault)
          case Some(acts) =>
            match QuietBest(g, root, p, ply, depth, forced, start, acts, fault)
            case None => EvalOr(g, root, p, fault)
            case Some(v) => v
  }

  function QuietChild<P>(g: Game<P>, root: Player, p: P, ply: nat, depth: nat, a: Action, fault: int): int
    requires depth > 0
    decreases depth, 0, 0
  {
    match g.apply(p, a)
    case None => fault
    case Some(child) => Quiet(g, root, child, NextPly(ply), depth - 1, fault)
  }

  /** Whether a quiescence node tries an action; one the reducer refuses is tried, and counts as `fault`. */
  predicate Tried<P>(g: Game<P>, p: P, forced: bool, a: Action) {
    match g.apply(p, a)
    case None => true
    case Some(child) => forced || Noisy(g, p, a, child)
  }

  function QuietBest<P>(g: Game<P>, root: Player, p: P, ply: nat, depth: nat, forced: bool,
                        m: Option<int>, acts: seq<Action>, fault: int): Option<int>
    requires depth > 0
    decreases depth, 0, |acts| + 1
  {
    if acts == [] then m
    else
      var m' := if Tried(g, p, forced, acts[0])
                then Some(Merge(Maximizing(g, p, root), m, QuietChild(g, root, p, ply, depth, acts[0], fault)))
                else m;
      QuietBest(g, root, p, ply, depth, forced, m', acts[1..], fault)
  }

  // ----- full-width search -----

  /** Minimax to `depth` plies from `p`, then quiescence of depth `quiet`. */
  function Value<P>(g: Game<P>, root: Player, p: P, depth: nat, quiet: nat, ply: nat, fault: int): int
    decreases depth, 1, 0
  {
    match g.outcome(p)
    case Some(winner) => TerminalScore(winner, root, ply)
    case None =>
      if depth == 0 then
        if quiet == 0 then EvalOr(g, root, p, fault) else Quiet(g, root, p, ply, quiet, fault)
      else
        match g.legal(p)
        case None => fault
        case Some(acts) =>
          match Best(g, root, p, depth, quiet, ply, None, acts, fault)
          case None => EvalOr(g, root, p, fault)
          case Some(v) => v
  }

  function Child<P>(g: Game<P>, root: Player, p: P, depth: nat, quiet: nat, ply: nat, a: Action, fault: int): int
    requires depth > 0
    decreases depth, 0, 0
  {
    match g.apply(p, a)
    case None => fault
    case Some(child) => Value(g, root, child, depth - 1, quiet, NextPly(ply), fault)
  }

  function Best<P>(g: Game<P>, root: Player, p: P, depth: nat, quiet: nat, ply: nat,
                   m: Option<int>, acts: seq<Action>, fault: int): Option<int>
    requires depth > 0
    decreases depth, 0, |acts| + 1
  {
    if acts == [] then m
    else
      var v := Child(g, root, p, depth, quiet, ply, acts[0], fault);
      Best(g, root, p, depth, quiet, ply, Some(Merge(Maximizing(g, p, root), m, v)), acts[1..], fault)
  }

  // ----- what the folds mean, and that order is irrelevant -----

  predicate NoBetter(maximizing: bool, v: int, best: int) {
    if maximizing then v <= best else v >= best
  }

  /** The fold is the extreme of the running value and every child: attained, and never beaten. */
  lemma {:induction false} BestIsExtreme<P>(g: Game<P>, root: Player, p: P, depth: nat, quiet: nat, ply: nat,
                                            m: Option<int>, acts: seq<Action>, fault: int)
    requires depth > 0
    ensures Best(g, root, p, depth, quiet, ply, m, acts, fault).None? <==> m.None? && acts == []
    ensures var r := Best(g, root, p, depth, quiet, ply, m, acts, fault);
            r.Some? ==>
              && (m == r || exists a :: a in acts && Child(g, root, p, depth, quiet, ply, a, fault) == r.value)
              && (m.Some? ==> NoBetter(Maximizing(g, p, root), m.value, r.value))
              && forall a :: a in acts ==>
                   NoBetter(Maximizing(g, p, root), Child(g, root, p, depth, quiet, ply, a, fault), r.value)
    decreases |acts|
  {
    if acts != [] {
      var v := Child(g, root, p, depth, quiet, ply, acts[0], fault);
      BestIsExtreme(g, root, p, depth, quiet, ply, Some(Merge(Maximizing(g, p, root), m, v)), acts[1..], fault);
      assert forall a :: a in acts <==> a == acts[0] || a in acts[1..];
      assert acts[0] in acts && Child(g, root, p, depth, quiet, ply, acts[0], fault) == v;
    }
  }

  lemma BestOrderFree<P>(g: Game<P>, root: Player, p: P, depth: nat, quiet: nat, ply: nat,
                         acts: seq<Action>, ordered: seq<Action>, fault: int)
    requires depth > 0
    requires multiset(acts) == multiset(ordered)
    ensures Best(g, root, p, depth, quiet, ply, None, acts, fault)
         == Best(g, root, p, depth, quiet, ply, None, ordered, fault)
  {
    SameElements(acts, ordered);
    BestIsExtreme(g, root, p, depth, quiet, ply, None, acts, fault);
    BestIsExtreme(g, root, p, depth, quiet, ply, None, ordered, fault);
  }

  lemma {:induction false} QuietBestIsExtreme<P>(g: Game<P>, root: Player, p: P, ply: nat, depth: nat, forced: bool,
                                                 m: Option<int>, acts: seq<Action>, fault: int)
    requires depth > 0
    ensures QuietBest(g, root, p, ply, depth, forced, m, acts, fault).None?
            <==> m.None? && forall a :: a in acts ==> !Tried(g, p, forced, a)
    ensures var r := QuietBest(g, root, p, ply, depth, forced, m, acts, fault);
            r.Some? ==>
              && (m == r || exists a :: a in acts && Tried(g, p, forced, a)
                                        && QuietChild(g, root, p, ply, depth, a, fault) == r.value)
              && (m.Some? ==> NoBetter(Maximizing(g, p, root), m.value, r.value))
              && forall a :: a in acts && Tried(g, p, forced, a) ==>
                   NoBetter(Maximizing(g, p, root), QuietChild(g, root, p, ply, depth, a, fault), r.value)
    decreases |acts|
  {
    if acts != [] {
      var v := QuietChild(g, root, p, ply, depth, acts[0], fault);
      var m' := if Tried(g, p, forced, acts[0]) then Some(Merge(Maximizing(g, p, root), m, v)) else m;
      QuietBestIsExtreme(g, root, p, ply, depth, forced, m', acts[1..], fault);
      assert forall a :: a in acts <==> a == acts[0] || a in acts[1..];
    }
  }

  lemma QuietBestOrderFree<P>(g: Game<P>, root: Player, p: P, ply: nat, depth: nat, forced: bool,
                              m: Option<int>, acts: seq<Action>, ordered: seq<Action>, fault: int)
    requires depth > 0
    requires multiset(acts) == multiset(ordered)
    ensures QuietBest(g, root, p, ply, depth, forced, m, acts, fault)
         == QuietBest(g, root, p, ply, depth, forced, m, ordered, fault)
  {
    SameElements(acts, ordered);
    QuietBestIsExtreme(g, root, p, ply, depth, forced, m, acts, fault);
    QuietBestIsExtreme(g, root, p, ply, depth, forced, m, ordered, fault);
  }

  // ----- what the reference searches, in the terms of the game alone -----

  /** `better` is at least as good as `worse` for the side to move at `p`. */
  predicate AtLeast<P>(g: Game<P>, root: Player, p: P, better: int, worse: int) {
    if g.active(p) == root then better >= worse else better <= worse
  }

  /** The actions quiescence has to look at: all of them when a choice is pending or the side to move is in check;
      otherwise promotions, captures, checks, realm events and whatever ends the match. */
  predicate MustTry<P>(g: Game<P>, p: P, a: Action, next: P) {
    || g.resolving(p)
    || g.inCheck(p) == Some(true)
    || a.ChoosePromotion?
    || g.signal(p, a) == Capture
    || g.signal(p, a) == Check
    || g.signal(p, a) == Realm
    || g.outcome(next).Some?
  }

  /** Nothing is overlooked: no such action leads to a position that is better for the mover than the node's value. */
  lemma QuietOverlooksNothing<P>(g: Game<P>, root: Player, p: P, ply: nat, depth: nat, fault: int, a: Action)
    requires g.outcome(p).None? && g.inCheck(p).Some? && depth > 0 && g.legal(p).Some? && a in g.legal(p).value
    requires g.apply(p, a).Some? && MustTry(g, p, a, g.apply(p, a).value)
    ensures AtLeast(g, root, p, Quiet(g, root, p, ply, depth, fault),
                    Quiet(g, root, g.apply(p, a).value, NextPly(ply), depth - 1, fault))
  {
    var forced := Forced(g, p).value;
    var start := if forced then None else Some(EvalOr(g, root, p, fault));
    QuietBestIsExtreme(g, root, p, ply, depth, forced, start, g.legal(p).value, fault);
    assert Tried(g, p, forced, a);
  }

  /** Outside check and pending choices the mover may stand pat. */
  lemma QuietMayStandPat<P>(g: Game<P>, root: Player, p: P, ply: nat, depth: nat, fault: int, eval: int)
    requires g.outcome(p).None? && g.inCheck(p) == Some(false) && !g.resolving(p) && g.legal(p).Some?
    requires g.evaluate(p, root) == Some(eval) && -500_000 <= eval <= 500_000
    ensures AtLeast(g, root, p, Quiet(g, root, p, ply, depth, fault), eval)
  {
    if depth > 0 {
      QuietBestIsExtreme(g, root, p, ply, depth, false, Some(eval), g.legal(p).value, fault);
    }
  }

  /** A position with nothing but silent actions into open positions, not in check and with no choice pending, is
      worth its static evaluation; so is every open position at depth 0. */
  lemma QuietIsStatic<P>(g: Game<P>, root: Player, p: P, ply: nat, depth: nat, fault: int, eval: int)
    requires g.outcome(p).None? && g.inCheck(p).Some?
    requires g.evaluate(p, root) == Some(eval) && -500_000 <= eval <= 500_000
    requires depth > 0 ==>
               && !g.resolving(p) && g.inCheck(p) == Some(false) && g.legal(p).Some?
               && forall a :: a in g.legal(p).value ==>
                    g.apply(p, a).Some? && g.signal(p, a) == Silent && !a.ChoosePromotion? && g.outcome(g.apply(p, a).value).None?
    ensures Quiet(g, root, p, ply, depth, fault) == eval
  {
    if depth > 0 {
      QuietBestIsExtreme(g, root, p, ply, depth, false, Some(eval), g.legal(p).value, fault);
    }
  }

  /** In check, or with a choice pending, standing pat is no option: the value is that of some legal action. */
  lemma QuietMustMove<P>(g: Game<P>, root: Player, p: P, ply: nat, depth: nat, fault: int) returns (a: Action)
    requires g.outcome(p).None? && g.inCheck(p).Some? && depth > 0 && g.legal(p).Some? && g.legal(p).value != []
    requires g.resolving(p) || g.inCheck(p) == Some(true)
    requires forall b :: b in g.legal(p).value ==> g.apply(p, b).Some?
    ensures a in g.legal(p).value
    ensures Quiet(g, root, p, ply, depth, fault) == Quiet(g, root, g.apply(p, a).value, NextPly(ply), depth - 1, fault)
  {
    QuietBestIsExtreme(g, root, p, ply, depth, true, None, g.legal(p).value, fault);
    assert Tried(g, p, true, g.legal(p).value[0]);
    a :| a in g.legal(p).value && Tried(g, p, true, a)
         && QuietChild(g, root, p, ply, depth, a, fault) == Quiet(g, root, p, ply, depth, fault);
  }

  /** What quiescence does search is worth it: the value is the static one, or that of some legal action it had to
      try. */
  lemma QuietIsAttained<P>(g: Game<P>, root: Player, p: P, ply: nat, depth: nat, fault: int, eval: int)
    requires g.outcome(p).None? && g.inCheck(p).Some? && g.legal(p).Some?
    requires g.evaluate(p, root) == Some(eval) && -500_000 <= eval <= 500_000
    requires forall b :: b in g.legal(p).value ==> g.apply(p, b).Some?
    ensures || Quiet(g, root, p, ply, depth, fault) == eval
            || (depth > 0
                && exists a ::
                     && a in g.legal(p).value && MustTry(g, p, a, g.apply(p, a).value)
                     && Quiet(g, root, p, ply, depth, fault) == Quiet(g, root, g.apply(p, a).value, NextPly(ply), depth - 1, fault))
  {
    if depth > 0 {
      var forced := Forced(g, p).value;
      var start := if forced then None else Some(eval);
      QuietBestIsExtreme(g, root, p, ply, depth, forced, start, g.legal(p).value, fault);
    }
  }

  /** Full width overlooks nothing either: a node is worth its best legal action to the side to move. */
  lemma ValueIsBestChild<P>(g: Game<P>, root: Player, p: P, depth: nat, quiet: nat, ply: nat, fault: int) returns (a: Action)
    requires g.outcome(p).None? && depth > 0 && g.legal(p).Some? && g.legal(p).value != []
    requires forall b :: b in g.legal(p).value ==> g.apply(p, b).Some?
    ensures a in g.legal(p).value
    ensures Value(g, root, p, depth, quiet, ply, fault)
         == Value(g, root, g.apply(p, a).value, depth - 1, quiet, NextPly(ply), fault)
    ensures forall b :: b in g.legal(p).value ==>
              AtLeast(g, root, p, Value(g, root, p, depth, quiet, ply, fault),
                      Value(g, root, g.apply(p, b).value, depth - 1, quiet, NextPly(ply), fault))
  {
    var acts := g.legal(p).value;
    BestIsExtreme(g, root, p, depth, quiet, ply, None, acts, fault);
    forall b | b in acts
      ensures AtLeast(g, root, p, Value(g, root, p, depth, quiet, ply, fault),
                      Value(g, root, g.apply(p, b).value, depth - 1, quiet, NextPly(ply), fault))
    {
      assert NoBetter(Maximizing(g, p, root), Child(g, root, p, depth, quiet, ply, b, fault),
                      Value(g, root, p, depth, quiet, ply, fault));
    }
    a :| a in acts && Child(g, root, p, depth, quiet, ply, a, fault) == Value(g, root, p, depth, quiet, ply, fault);
  }

  /** The leaves: a finished match is worth a mate less the plies played, or nothing; an open position at the horizon
      is worth its quiescence value, or its evaluation when there is no quiescence. */
  lemma ValueAtLeaf<P>(g: Game<P>, root: Player, p: P, depth: nat, quiet: nat, ply: nat, fault: int)
    ensures g.outcome(p) == Some(Some(root)) ==> Value(g, root, p, depth, quiet, ply, fault) == 1_000_000 - ply
    ensures g.outcome(p) == Some(Some(root.Opponent())) ==> Value(g, root, p, depth, quiet, ply, fault) == -1_000_000 + ply
    ensures g.outcome(p) == Some(None) ==> Value(g, root, p, depth, quiet, ply, fault) == 0
    ensures g.outcome(p).Some? ==> Quiet(g, root, p, ply, quiet, fault) == Value(g, root, p, depth, quiet, ply, fault)
    ensures g.outcome(p).None? && depth == 0 && quiet > 0 ==>
              Value(g, root, p, depth, quiet, ply, fault) == Quiet(g, root, p, ply, quiet, fault)
    ensures g.outcome(p).None? && g.evaluate(p, root).Some? && -500_000 <= g.evaluate(p, root).value <= 500_000
            && ((depth == 0 && quiet == 0) || (depth > 0 && g.legal(p) == Some([]))) ==>
              Value(g, root, p, depth, quiet, ply, fault) == g.evaluate(p, root).value
  {
    if g.outcome(p).None? && depth > 0 && g.legal(p) == Some([]) {
      BestIsExtreme(g, root, p, depth, quiet, ply, None, [], fault);
    }
  }
}
