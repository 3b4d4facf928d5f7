/** The rules of the game as the search sees them: players, actions and their
    stable keys, and an opaque position type described by a record of functions. */
module Rules {

  datatype Option<+T> = None | Some(value: T)

  datatype Result<+T, +E> = Ok(value: T) | Err(error: E)

  datatype Player = North | South {
    function Opponent(): Player {
      if this == North then South else North
    }
  }

  const MATE_SCORE: int := 1_000_000
  const MAX_HEURISTIC_SCORE: int := MATE_SCORE / 2
  const DRAW_SCORE: int := 0
  const MAX_PLY: nat := 65_535

  datatype Coord = Coord(x: nat, y: nat)

  datatype PromotionKind = Queen | Rook | Bishop | Knight

  /** The actions a search may expand. Resignation and draw actions never reach it. */
  datatype Action =
    | Move(player: Player, piece: nat, to: Coord)
    | Hold(player: Player)
    | ChoosePromotion(player: Player, pawn: nat, promoteTo: PromotionKind)
    | PlacePawn(player: Player, settlement: nat, at: Coord)

  function PlayerRank(player: Player): nat {
    if player == North then 0 else 1
  }

  function KindRank(kind: PromotionKind): nat {
    match kind
    case Queen => 0
    case Rook => 1
    case Bishop => 2
    case Knight => 3
  }

  /** The key of an action: its variant, then its fields, compared left to right. */
  function Key(action: Action): seq<nat> {
    match action
    case Move(player, piece, to) => [0, PlayerRank(player), piece, to.x, to.y]
    case Hold(player) => [1, PlayerRank(player)]
    case ChoosePromotion(player, pawn, kind) => [2, PlayerRank(player), pawn, KindRank(kind)]
    case PlacePawn(player, settlement, at) => [3, PlayerRank(player), settlement, at.x, at.y]
  }

  predicate LexLess(a: seq<nat>, b: seq<nat>) {
    b != [] && (a == [] || a[0] < b[0] || (a[0] == b[0] && LexLess(a[1..], b[1..])))
  }

  predicate KeyLess(a: Action, b: Action) {
    LexLess(Key(a), Key(b))
  }

  lemma {:induction false} LexTotal(a: seq<nat>, b: seq<nat>)
    ensures !LexLess(a, a)
    ensures a == b || LexLess(a, b) || LexLess(b, a)
  {
    if a != [] {
      LexTotal(a[1..], if b == [] then [] else b[1..]);
      if b != [] && a[0] == b[0] && a[1..] == b[1..] {
        assert a == [a[0]] + a[1..] == [b[0]] + b[1..] == b;
      }
    }
  }

  lemma {:induction false} LexTransitive(a: seq<nat>, b: seq<nat>, c: seq<nat>)
    requires LexLess(a, b) && LexLess(b, c)
    ensures LexLess(a, c)
  {
    if a != [] && a[0] == b[0] == c[0] {
      LexTransitive(a[1..], b[1..], c[1..]);
    }
  }

  /** Distinct actions have distinct keys, and the keys order actions strictly and totally. */
  lemma KeysOrderActions(a: Action, b: Action, c: Action)
    ensures Key(a) == Key(b) ==> a == b
    ensures !KeyLess(a, a)
    ensures a == b || KeyLess(a, b) || KeyLess(b, a)
    ensures KeyLess(a, b) && KeyLess(b, c) ==> KeyLess(a, c)
  {
    if Key(a) == Key(b) {
      var i := Key(a);
      assert Key(a)[0] == Key(b)[0] && Key(a)[1] == Key(b)[1];
      if !a.Hold? {
        assert Key(a)[2] == Key(b)[2] && Key(a)[3] == Key(b)[3];
      }
      if a.Move? || a.PlacePawn? {
        assert Key(a)[4] == Key(b)[4];
      }
    }
    LexTotal(Key(a), Key(b));
    if KeyLess(a, b) && KeyLess(b, c) {
      LexTransitive(Key(a), Key(b), Key(c));
    }
  }

  predicate CoordBefore(a: Coord, b: Coord) {
    a.x < b.x || (a.x == b.x && a.y < b.y)
  }

  /** The order of the keys, field by field: moves, then holds, then promotions, then placements; North before South;
      smaller ids first; then squares column by column, and kinds from queen to knight. */
  lemma KeyOrderByFields(a: Action, b: Action)
    ensures a.Move? && !b.Move? ==> KeyLess(a, b)
    ensures a.Hold? && (b.ChoosePromotion? || b.PlacePawn?) ==> KeyLess(a, b)
    ensures a.ChoosePromotion? && b.PlacePawn? ==> KeyLess(a, b)
    ensures a.Hold? && b.Hold? ==> (KeyLess(a, b) <==> a.player == North && b.player == South)
    ensures (a.Move? && b.Move?) || (a.ChoosePromotion? && b.ChoosePromotion?) || (a.PlacePawn? && b.PlacePawn?) ==>
              a.player != b.player ==> (KeyLess(a, b) <==> a.player == North)
    ensures a.Move? && b.Move? && a.player == b.player ==>
              (KeyLess(a, b) <==> a.piece < b.piece || (a.piece == b.piece && CoordBefore(a.to, b.to)))
    ensures a.ChoosePromotion? && b.ChoosePromotion? && a.player == b.player && a.pawn != b.pawn ==>
              (KeyLess(a, b) <==> a.pawn < b.pawn)
    ensures a.ChoosePromotion? && b.ChoosePromotion? && a.player == b.player && a.pawn == b.pawn ==>
              (a.promoteTo.Queen? && !b.promoteTo.Queen? ==> KeyLess(a, b))
              && (a.promoteTo.Rook? && (b.promoteTo.Bishop? || b.promoteTo.Knight?) ==> KeyLess(a, b))
              && (a.promoteTo.Bishop? && b.promoteTo.Knight? ==> KeyLess(a, b))
    ensures a.PlacePawn? && b.PlacePawn? && a.player == b.player ==>
              (KeyLess(a, b) <==> a.settlement < b.settlement || (a.settlement == b.settlement && CoordBefore(a.at, b.at)))
  {
    LexStep(Key(a), Key(b));
    LexStep(Key(a)[1..], Key(b)[1..]);
    if |Key(a)| > 2 && |Key(b)| > 2 {
      LexStep(Key(a)[2..], Key(b)[2..]);
      LexStep(Key(a)[3..], Key(b)[3..]);
      if |Key(a)| > 4 && |Key(b)| > 4 {
        LexStep(Key(a)[4..], Key(b)[4..]);
      }
    }
  }

  lemma LexStep(a: seq<nat>, b: seq<nat>)
    requires a != [] && b != []
    ensures LexLess(a, b) <==> a[0] < b[0] || (a[0] == b[0] && LexLess(a[1..], b[1..]))
    ensures |a| > 1 ==> a[1..][1..] == a[2..]
    ensures !LexLess([], [])
  {
  }

  predicate Ascending(acts: seq<Action>) {
    forall i, j :: 0 <= i < j < |acts| ==> !KeyLess(acts[j], acts[i])
  }

  /** Stable sort by a lexicographic rank. */
  function Insert(rank: Action -> seq<nat>, a: Action, acts: seq<Action>): (sorted: seq<Action>)
    ensures multiset(sorted) == multiset{a} + multiset(acts)
  {
    if acts == [] then [a]
    else if LexLess(rank(acts[0]), rank(a)) then
      assert acts == [acts[0]] + acts[1..];
      [acts[0]] + Insert(rank, a, acts[1..])
    else [a] + acts
  }

  function SortBy(rank: Action -> seq<nat>, acts: seq<Action>): (sorted: seq<Action>)
    ensures multiset(sorted) == multiset(acts)
  {
    if acts == [] then []
    else
      assert acts == [acts[0]] + acts[1..];
      Insert(rank, acts[0], SortBy(rank, acts[1..]))
  }

  ghost predicate SortedBy(rank: Action -> seq<nat>, acts: seq<Action>) {
    forall i, j :: 0 <= i < j < |acts| ==> !LexLess(rank(acts[j]), rank(acts[i]))
  }

  lemma {:induction false} InsertSorted(rank: Action -> seq<nat>, a: Action, acts: seq<Action>)
    requires SortedBy(rank, acts)
    ensures SortedBy(rank, Insert(rank, a, acts))
  {
    if acts != [] {
      var head := rank(acts[0]);
      if LexLess(head, rank(a)) {
        InsertSorted(rank, a, acts[1..]);
        var rest := Insert(rank, a, acts[1..]);
        forall j | 0 <= j < |rest|
          ensures !LexLess(rank(rest[j]), head)
        {
          assert rest[j] in multiset(rest);
          LexTotal(head, head);
          if rest[j] != a {
            var k :| 0 <= k < |acts[1..]| && acts[1..][k] == rest[j];
            assert acts[k + 1] == rest[j];
          } else if LexLess(rank(a), head) {
            LexTransitive(head, rank(a), head);
          }
        }
      } else {
        forall j | 0 <= j < |acts|
          ensures !LexLess(rank(acts[j]), rank(a))
        {
          if LexLess(rank(acts[j]), rank(a)) {
            LexTotal(head, rank(acts[j]));
            if head != rank(acts[j]) {
              if LexLess(head, rank(acts[j])) {
                LexTransitive(head, rank(acts[j]), rank(a));
              }
            }
          }
        }
      }
    }
  }

  lemma {:induction false} SortBySorted(rank: Action -> seq<nat>, acts: seq<Action>)
    ensures SortedBy(rank, SortBy(rank, acts))
  {
    if acts != [] {
      SortBySorted(rank, acts[1..]);
      InsertSorted(rank, acts[0], SortBy(rank, acts[1..]));
    }
  }

  /** The strongest tactical event of an accepted action, strongest first. */
  datatype Signal = Capture | Check | Realm | Silent

  /** What the search asks about a position. Every function is arbitrary: move generation,
      the reducer and the evaluator are outside the model, and each of them may fail. */
  datatype Game<!P> = Game(
    outcome: P -> Option<Option<Player>>,
    active: P -> Player,
    resolving: P -> bool,
    inCheck: P -> Option<bool>,
    legal: P -> Option<seq<Action>>,
    apply: (P, Action) -> Option<P>,
    signal: (P, Action) -> Signal,
    evaluate: (P, Player) -> Option<int>
  )

  // ----- the enumeration of search actions -----

  /** What the enumeration asks of the rules: legal moves and pending mandatory choices. */
  datatype MoveRules<!P> = MoveRules(
    moves: P -> Option<seq<(nat, Coord)>>,
    choices: P -> seq<Action>
  )

  /** Collects the moves of the side to move as actions. */
  function MoveActions(player: Player, candidates: seq<(nat, Coord)>): (acts: seq<Action>)
    ensures |acts| == |candidates|
    ensures forall i :: 0 <= i < |acts| ==> acts[i] == Move(player, candidates[i].0, candidates[i].1)
  {
    if candidates == [] then []
    else [Move(player, candidates[0].0, candidates[0].1)] + MoveActions(player, candidates[1..])
  }

  /** The search actions in enumeration order; `None` when the rules fail. */
  function Enumerated<P>(g: Game<P>, rules: MoveRules<P>, p: P): Option<seq<Action>> {
    if g.outcome(p).Some? then Some([])
    else if g.resolving(p) then Some(rules.choices(p))
    else
      match rules.moves(p)
      case None => None
      case Some(candidates) =>
        var hold := Hold(g.active(p));
        Some(MoveActions(g.active(p), candidates) + (if g.apply(p, hold).Some? then [hold] else []))
  }

  /** The actions the search may expand, in key order. */
  function LegalActions<P>(g: Game<P>, rules: MoveRules<P>, p: P): Option<seq<Action>> {
    match Enumerated(g, rules, p)
    case None => None
    case Some(acts) => Some(SortBy(Key, acts))
  }

  lemma SameElements(acts: seq<Action>, ordered: seq<Action>)
    requires multiset(acts) == multiset(ordered)
    ensures forall a :: a in acts <==> a in ordered
    ensures |acts| == |ordered|
  {
    assert |multiset(acts)| == |multiset(ordered)|;
    forall a
      ensures a in acts <==> a in ordered
    {
      assert a in acts <==> a in multiset(acts);
      assert a in ordered <==> a in multiset(ordered);
    }
  }

  /** The enumeration is exactly the mandatory choices, or exactly the legal moves
      and a Hold the reducer accepts, in ascending key order; a finished match has none. */
  lemma LegalActionsExact<P>(g: Game<P>, rules: MoveRules<P>, p: P, a: Action)
    requires LegalActions(g, rules, p).Some?
    ensures Ascending(LegalActions(g, rules, p).value)
    ensures a in LegalActions(g, rules, p).value <==>
            g.outcome(p).None?
            && if g.resolving(p) then a in rules.choices(p)
               else (a.Move? && a.player == g.active(p) && (a.piece, a.to) in rules.moves(p).value)
                    || (a == Hold(g.active(p)) && g.apply(p, a).Some?)
  {
    var acts := Enumerated(g, rules, p).value;
    SortBySorted(Key, acts);
    SameElements(SortBy(Key, acts), acts);
    if g.outcome(p).None? && !g.resolving(p) {
      MoveActionsExact(g.active(p), rules.moves(p).value, a);
    }
  }

  lemma MoveActionsExact(player: Player, candidates: seq<(nat, Coord)>, a: Action)
    ensures a in MoveActions(player, candidates) <==> a.Move? && a.player == player && (a.piece, a.to) in candidates
  {
    var moved := MoveActions(player, candidates);
    if a.Move? && a.player == player && (a.piece, a.to) in candidates {
      var i :| 0 <= i < |candidates| && candidates[i] == (a.piece, a.to);
      assert moved[i] == a;
    }
  }

  // ----- scores -----

  predicate Noisy<P>(g: Game<P>, p: P, a: Action, child: P) {
    g.resolving(p) || a.ChoosePromotion? || g.signal(p, a) != Silent || g.outcome(child).Some?
  }

  predicate Maximizing<P>(g: Game<P>, p: P, root: Player) {
    g.active(p) == root
  }

  function TerminalScore(winner: Option<Player>, root: Player, ply: nat): int {
    match winner
    case Some(player) => if player == root then MATE_SCORE - ply else -MATE_SCORE + ply
    case None => DRAW_SCORE
  }

  /** Plies are 16-bit and saturate. */
  function NextPly(ply: nat): (next: nat) {
    if ply < MAX_PLY then ply + 1 else MAX_PLY
  }

  /** The heuristic score, when the evaluator succeeds within the heuristic range. */
  function Heuristic<P>(g: Game<P>, root: Player, p: P): Option<int> {
    match g.evaluate(p, root)
    case None => None
    case Some(score) =>
      if -MAX_HEURISTIC_SCORE <= score <= MAX_HEURISTIC_SCORE then Some(score) else None
  }
}
