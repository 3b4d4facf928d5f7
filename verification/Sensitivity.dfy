/** What each part of a position is worth: how material and every feature of the balance answer to one piece, one
    settlement, one attack, one check more or less, stated on the position alone. */
module Sensitivity {
  import opened Rules
  import opened Evaluation
  import Counting

  // ----- one piece more -----

  function With(b: Board, i: nat, piece: Piece): Board
    requires i <= |b.pieces|
  {
    b.(pieces := b.pieces[..i] + [piece] + b.pieces[i..])
  }

  /** The features that one piece contributes by itself. */
  predicate OfOnePiece(k: nat) {
    k in {CENTRE_ACCESS, TERRAIN_ACTIVITY, PAWN_ADVANCEMENT, PROMOTION_DISTANCE, PROMOTION_CANDIDATE}
  }

  lemma SameTally(b: Board, i: nat, piece: Piece, other: Piece, k: nat)
    requires i <= |b.pieces| && OfOnePiece(k)
    ensures PieceTally(With(b, i, piece), other, k) == PieceTally(b, other, k)
  {
  }

  lemma {:induction false} PieceSumWith(b: Board, i: nat, piece: Piece, player: Player, n: nat, k: nat)
    requires i <= |b.pieces| && n <= |b.pieces| && OfOnePiece(k)
    ensures n <= i ==> PieceSum(With(b, i, piece), player, n, k) == PieceSum(b, player, n, k)
    ensures n >= i ==> PieceSum(With(b, i, piece), player, n + 1, k)
                       == PieceSum(b, player, n, k) + if piece.owner == player then PieceTally(b, piece, k) else 0
  {
    SameTally(b, i, piece, piece, k);
    if n > 0 {
      PieceSumWith(b, i, piece, player, n - 1, k);
      SameTally(b, i, piece, b.pieces[n - 1], k);
    }
  }

  lemma {:induction false} SitesHaveNoPieces(b: Board, player: Player, n: nat, k: nat)
    requires n <= |b.sites| && (OfOnePiece(k) || k == PIECE_SAFETY)
    ensures SiteSum(b, player, n, k) == 0
  {
    if n > 0 {
      SitesHaveNoPieces(b, player, n - 1, k);
    }
  }

  lemma StandingWith(b: Board, i: nat, piece: Piece, player: Player, k: nat)
    requires i <= |b.pieces| && OfOnePiece(k)
    ensures Standing(With(b, i, piece), player, k) - Standing(b, player, k)
            == if piece.owner == player then PieceTally(b, piece, k) else 0
  {
    PieceSumWith(b, i, piece, player, |b.pieces|, k);
    SitesHaveNoPieces(b, player, |b.sites|, k);
    SitesHaveNoPieces(With(b, i, piece), player, |b.sites|, k);
  }

  lemma BalanceWith(b: Board, i: nat, piece: Piece, root: Player, k: nat)
    requires i <= |b.pieces| && OfOnePiece(k)
    ensures Balance(With(b, i, piece), root)[k] - Balance(b, root)[k] == Signed(piece.owner == root, PieceTally(b, piece, k))
  {
    assert piece.owner == root || piece.owner == root.Opponent();
    StandingWith(b, i, piece, root, k);
    StandingWith(b, i, piece, root.Opponent(), k);
  }

  lemma {:induction false} ExactMaterialWith(worths: seq<int>, i: nat, worth: int, n: nat)
    requires i <= |worths| && n <= |worths|
    ensures var more := worths[..i] + [worth] + worths[i..];
            && (n <= i ==> ExactMaterial(more, n) == ExactMaterial(worths, n))
            && (n >= i ==> ExactMaterial(more, n + 1) == ExactMaterial(worths, n) + worth)
  {
    if n > 0 {
      ExactMaterialWith(worths, i, worth, n - 1);
    }
  }

  lemma WorthsWith(b: Board, i: nat, piece: Piece, root: Player, w: Weights)
    requires i <= |b.pieces|
    ensures var worths := Worths(b.pieces, root, w);
            Worths(With(b, i, piece).pieces, root, w)
            == worths[..i] + [Weighted(Signed(piece.owner == root, 1), PieceValue(piece.kind, w))] + worths[i..]
  {
  }

  lemma FewPiecesExact(b: Board, root: Player, w: Weights)
    requires |b.pieces| <= MOST_PIECES
    ensures MaterialScore(b, root, w) == ExactMaterial(Worths(b.pieces, root, w), |b.pieces|)
  {
    var worths := Worths(b.pieces, root, w);
    FewPiecesFit(worths, |worths|);
    MaterialMirror(worths, seq(|worths|, i requires 0 <= i < |worths| => -worths[i]), |worths|);
  }

  lemma WorthOf(own: bool, kind: Kind, w: Weights)
    ensures var weight := match kind
              case King => 0
              case Queen => w.queen
              case Rook => w.rook
              case Bishop => w.bishop
              case Knight => w.knight
              case Pawn => w.pawn;
            Signed(own, Weighted(Signed(own, 1), PieceValue(kind, w)))
            == if weight < -500_000 then -500_000 else if weight > 500_000 then 500_000 else weight
  {
  }

  lemma MaterialWith(b: Board, i: nat, piece: Piece, root: Player, w: Weights)
    requires i <= |b.pieces| < MOST_PIECES
    ensures MaterialScore(With(b, i, piece), root, w) - MaterialScore(b, root, w)
            == Weighted(Signed(piece.owner == root, 1), PieceValue(piece.kind, w))
  {
    var worths := Worths(b.pieces, root, w);
    var worth := Weighted(Signed(piece.owner == root, 1), PieceValue(piece.kind, w));
    FewPiecesExact(b, root, w);
    FewPiecesExact(With(b, i, piece), root, w);
    WorthsWith(b, i, piece, root, w);
    ExactMaterialWith(worths, i, worth, |worths|);
  }

  /** One piece more raises its owner's material by exactly the weight of its kind, as far as a component reaches, on
      every board that an evaluation accepts: none has more pieces than squares. */
  lemma NewPieceMaterial(b: Board, i: nat, piece: Piece, root: Player, w: Weights)
    requires i <= |b.pieces| < MOST_PIECES
    ensures var gain := Signed(piece.owner == root, MaterialScore(With(b, i, piece), root, w) - MaterialScore(b, root, w));
            var weight := match piece.kind
              case King => 0
              case Queen => w.queen
              case Rook => w.rook
              case Bishop => w.bishop
              case Knight => w.knight
              case Pawn => w.pawn;
            gain == if weight < -500_000 then -500_000 else if weight > 500_000 then 500_000 else weight
  {
    MaterialWith(b, i, piece, root, w);
    WorthOf(piece.owner == root, piece.kind, w);
  }

  /** Any piece more raises its owner's centre access by twice its closeness to the middle of the board, counted
      from the far corner. */
  lemma NewPieceCentre(b: Board, i: nat, piece: Piece, root: Player)
    requires i <= |b.pieces| && b.width > 0 && b.height > 0
    ensures var x, y: int := 2 * piece.at.x - (b.width - 1), 2 * piece.at.y - (b.height - 1);
            Balance(With(b, i, piece), root)[CENTRE_ACCESS] - Balance(b, root)[CENTRE_ACCESS]
            == Signed(piece.owner == root, b.width + b.height - (if x >= 0 then x else -x) - (if y >= 0 then y else -y))
  {
    BalanceWith(b, i, piece, root, CENTRE_ACCESS);
  }

  lemma NewPieceTerrain(b: Board, i: nat, piece: Piece, root: Player)
    requires i <= |b.pieces|
    ensures var gain := Signed(piece.owner == root,
                               Balance(With(b, i, piece), root)[TERRAIN_ACTIVITY] - Balance(b, root)[TERRAIN_ACTIVITY]);
            && (gain == 2 <==> piece.at in b.terrain && b.terrain[piece.at] == Road)
            && (gain == -1 <==> piece.at in b.terrain && b.terrain[piece.at] == Forest)
            && gain in {2, 0, -1}
  {
    BalanceWith(b, i, piece, root, TERRAIN_ACTIVITY);
  }

  /** A pawn more raises its owner's advancement by the rows it has gone, towards higher rows unless the scenario
      says otherwise; any other piece leaves it. */
  lemma NewPawnAdvancement(b: Board, i: nat, piece: Piece, root: Player)
    requires i <= |b.pieces|
    ensures var backwards := piece.owner in b.forward && b.forward[piece.owner] <= 0;
            Signed(piece.owner == root, Balance(With(b, i, piece), root)[PAWN_ADVANCEMENT] - Balance(b, root)[PAWN_ADVANCEMENT])
            == if piece.kind != Pawn then 0
               else if backwards then (if piece.at.y < b.height then b.height - 1 - piece.at.y else 0)
               else piece.at.y
  {
    BalanceWith(b, i, piece, root, PAWN_ADVANCEMENT);
  }

  /** A pawn more raises its owner's promotion distance by its closeness to the nearest promotion site; any other
      piece, or a pawn where there is no site, leaves it. */
  lemma NewPawnDistance(b: Board, i: nat, piece: Piece, root: Player)
    requires i <= |b.pieces|
    ensures var gain := Signed(piece.owner == root,
                               Balance(With(b, i, piece), root)[PROMOTION_DISTANCE] - Balance(b, root)[PROMOTION_DISTANCE]);
            if piece.kind != Pawn || b.promotionSites == [] then gain == 0
            else IsNearest(piece.at, b.promotionSites, b.width + b.height - gain)
  {
    BalanceWith(b, i, piece, root, PROMOTION_DISTANCE);
  }

  lemma NewPawnCandidate(b: Board, i: nat, piece: Piece, root: Player)
    requires i <= |b.pieces|
    ensures Signed(piece.owner == root,
                   Balance(With(b, i, piece), root)[PROMOTION_CANDIDATE] - Balance(b, root)[PROMOTION_CANDIDATE])
            == if piece.kind == Pawn && piece.id in b.candidates then b.candidates[piece.id] as int else 0
  {
    BalanceWith(b, i, piece, root, PROMOTION_CANDIDATE);
  }

  function Steps(a: Coord, b: Coord): nat {
    (if a.x <= b.x then b.x - a.x else a.x - b.x) + (if a.y <= b.y then b.y - a.y else a.y - b.y)
  }

  predicate IsNearest(at: Coord, sites: seq<Coord>, d: int) {
    (exists i :: 0 <= i < |sites| && Steps(at, sites[i]) == d) && (forall i :: 0 <= i < |sites| ==> d <= Steps(at, sites[i]))
  }

  // ----- one piece moved -----

  function Moved(b: Board, i: nat, to: Coord): Board
    requires i < |b.pieces|
  {
    b.(pieces := b.pieces[i := b.pieces[i].(at := to)])
  }

  lemma MoveIsLeavingAndComing(b: Board, i: nat, to: Coord)
    requires i < |b.pieces|
    ensures var without := b.(pieces := b.pieces[..i] + b.pieces[i + 1..]);
            && b == With(without, i, b.pieces[i])
            && Moved(b, i, to) == With(without, i, b.pieces[i].(at := to))
  {
    var without := b.(pieces := b.pieces[..i] + b.pieces[i + 1..]);
    assert without.pieces[..i] == b.pieces[..i] && without.pieces[i..] == b.pieces[i + 1..];
    assert b.pieces == With(without, i, b.pieces[i]).pieces;
    assert Moved(b, i, to).pieces == With(without, i, b.pieces[i].(at := to)).pieces;
  }

  /** From open ground to a road is worth 2, to a forest costs 1. */
  lemma MoveOntoTerrain(b: Board, i: nat, to: Coord, root: Player)
    requires i < |b.pieces|
    requires b.pieces[i].at !in b.terrain || b.terrain[b.pieces[i].at] == Open
    ensures var gain := Signed(b.pieces[i].owner == root,
                               Balance(Moved(b, i, to), root)[TERRAIN_ACTIVITY] - Balance(b, root)[TERRAIN_ACTIVITY]);
            && (to in b.terrain && b.terrain[to] == Road ==> gain == 2)
            && (to in b.terrain && b.terrain[to] == Forest ==> gain == -1)
            && (to !in b.terrain || b.terrain[to] in {Open, Mountain} ==> gain == 0)
  {
    var without := b.(pieces := b.pieces[..i] + b.pieces[i + 1..]);
    MoveIsLeavingAndComing(b, i, to);
    NewPieceTerrain(without, i, b.pieces[i], root);
    NewPieceTerrain(without, i, b.pieces[i].(at := to), root);
  }

  /** Every step towards the middle, along a row or a column, is worth 2. */
  lemma StepTowardsCentre(b: Board, i: nat, to: Coord, root: Player)
    requires i < |b.pieces| && b.width > 0 && b.height > 0
    requires var at := b.pieces[i].at;
             || (to.y == at.y && ((to.x == at.x + 1 && 2 * to.x < b.width) || (to.x == at.x - 1 && 2 * to.x >= b.width - 1)))
             || (to.x == at.x && ((to.y == at.y + 1 && 2 * to.y < b.height) || (to.y == at.y - 1 && 2 * to.y >= b.height - 1)))
    ensures Balance(Moved(b, i, to), root)[CENTRE_ACCESS] - Balance(b, root)[CENTRE_ACCESS]
            == Signed(b.pieces[i].owner == root, 2)
  {
    var without := b.(pieces := b.pieces[..i] + b.pieces[i + 1..]);
    MoveIsLeavingAndComing(b, i, to);
    NewPieceCentre(without, i, b.pieces[i], root);
    NewPieceCentre(without, i, b.pieces[i].(at := to), root);
  }

  /** A pawn's step forward is worth 1 in advancement, and as much in promotion distance as it comes nearer to the
      nearest promotion site. */
  lemma PawnSteps(b: Board, i: nat, to: Coord, root: Player, before: int, after: int)
    requires i < |b.pieces| && b.pieces[i].kind == Pawn && b.pieces[i].at.y < b.height && to.y < b.height
    requires IsNearest(b.pieces[i].at, b.promotionSites, before) && IsNearest(to, b.promotionSites, after)
    ensures var b', own := Moved(b, i, to), b.pieces[i].owner == root;
            var forward := b.pieces[i].owner !in b.forward || b.forward[b.pieces[i].owner] > 0;
            && Balance(b', root)[PAWN_ADVANCEMENT] - Balance(b, root)[PAWN_ADVANCEMENT]
               == Signed(own, if forward then to.y - b.pieces[i].at.y else b.pieces[i].at.y - to.y)
            && Balance(b', root)[PROMOTION_DISTANCE] - Balance(b, root)[PROMOTION_DISTANCE] == Signed(own, before - after)
  {
    var without := b.(pieces := b.pieces[..i] + b.pieces[i + 1..]);
    MoveIsLeavingAndComing(b, i, to);
    NewPawnAdvancement(without, i, b.pieces[i], root);
    NewPawnAdvancement(without, i, b.pieces[i].(at := to), root);
    NewPawnDistance(without, i, b.pieces[i], root);
    NewPawnDistance(without, i, b.pieces[i].(at := to), root);
  }

  // ----- the features of a whole side -----

  lemma WholeOnly(b: Board, root: Player, k: nat)
    requires k in {PAWN_CONNECTION, MOBILITY, KING_CHECK, PROMOTION_TIER}
    ensures Balance(b, root)[k] == Whole(b, root, k) - Whole(b, root.Opponent(), k)
  {
    forall player: Player
      ensures Standing(b, player, k) == Whole(b, player, k)
    {
      PiecesHaveNoWhole(b, player, |b.pieces|, k);
      SitesHaveNoWhole(b, player, |b.sites|, k);
    }
  }

  /** A king in check counts 1 against its side, and nothing else counts. */
  lemma ChecksCounted(b: Board, root: Player)
    requires WholeAnswers(b)
    ensures Balance(b, root)[KING_CHECK]
            == (if b.inCheck(root.Opponent()).value then 1 else 0) - (if b.inCheck(root).value then 1 else 0)
  {
    WholeOnly(b, root, KING_CHECK);
  }

  function Least(a: nat, b: nat): nat {
    if a <= b then a else b
  }

  /** Each side's legal moves, up to 32 bits, count while a command is awaited, and no moves while choices are being made. */
  lemma MovesCounted(b: Board, root: Player)
    requires WholeAnswers(b)
    ensures Balance(b, root)[MOBILITY]
            == if b.phase == Command then Least(b.moves(root).value, 0x7FFF_FFFF) - Least(b.moves(root.Opponent()).value, 0x7FFF_FFFF)
               else 0
  {
    assert root == North || root == South;
    WholeOnly(b, root, MOBILITY);
  }

  /** The tier that a realm score reaches: the highest rank whose threshold it meets. */
  predicate IsTier(b: Board, score: int, tier: int) {
    && 1 <= tier <= 4
    && (tier == 4 <==> score >= b.unlockQueen)
    && (tier == 3 <==> b.unlockRook <= score < b.unlockQueen)
    && (tier == 2 <==> b.unlockBishop <= score && score < b.unlockRook && score < b.unlockQueen)
  }

  /** The ranks a pending choice leaves open. */
  function OpenRanks(choice: Choice): set<PromotionKind> {
    match choice
    case PlacePawn => {}
    case Promote(bishop, rook, queen) =>
      (if bishop then {PromotionKind.Bishop} else {}) + (if rook then {PromotionKind.Rook} else {})
      + (if queen then {PromotionKind.Queen} else {})
  }

  lemma OpenRanksCount(bishop: bool, rook: bool, queen: bool)
    ensures |OpenRanks(Promote(bishop, rook, queen))| == Flag(bishop) + Flag(rook) + Flag(queen)
  {
  }

  function Ranks(queue: seq<Choice>, from: nat): set<(nat, PromotionKind)> {
    set i: nat, rank: PromotionKind | from <= i < |queue| && rank in OpenRanks(queue[i]) :: (i, rank)
  }

  lemma RanksStep(queue: seq<Choice>, from: nat)
    requires from < |queue|
    ensures |Ranks(queue, from)| == |Ranks(queue, from + 1)| + |OpenRanks(queue[from])|
  {
    var here := set rank: PromotionKind | rank in OpenRanks(queue[from]) :: (from, rank);
    assert Ranks(queue, from) == Ranks(queue, from + 1) + here && Ranks(queue, from + 1) !! here;
    RanksPaired(from, OpenRanks(queue[from]));
  }

  lemma {:induction false} RanksPaired(i: nat, ranks: set<PromotionKind>)
    ensures |set rank: PromotionKind | rank in ranks :: (i, rank)| == |ranks|
  {
    if ranks != {} {
      var x :| x in ranks;
      RanksPaired(i, ranks - {x});
      assert (set rank: PromotionKind | rank in ranks :: (i, rank))
             == (set rank: PromotionKind | rank in ranks - {x} :: (i, rank)) + {(i, x)};
    }
  }

  lemma {:induction false} RanksCounted(queue: seq<Choice>, from: nat)
    requires from <= |queue|
    ensures QueueBonus(queue[from..]) == |Ranks(queue, from)|
    decreases |queue| - from
  {
    if from < |queue| {
      RanksCounted(queue, from + 1);
      RanksStep(queue, from);
      if queue[from].Promote? {
        OpenRanksCount(queue[from].bishop, queue[from].rook, queue[from].queen);
      }
      assert queue[from..][0] == queue[from] && queue[from..][1..] == queue[from + 1..];
    }
  }

  /** The promotion tier is that of each side's realm score. The ranks open to the pending choices add to the side
      that makes them. */
  lemma TiersCounted(b: Board, root: Player)
    requires WholeAnswers(b)
    ensures exists mine, theirs ::
              && IsTier(b, b.realm(root).value, mine) && IsTier(b, b.realm(root.Opponent()).value, theirs)
              && Balance(b, root)[PROMOTION_TIER]
                 == mine - theirs + if b.phase == Command then 0 else Signed(b.active == root, |Ranks(b.phase.queue, 0)|)
  {
    assert root == North || root == South;
    WholeOnly(b, root, PROMOTION_TIER);
    var mine, theirs := PromotionTier(b, root), PromotionTier(b, root.Opponent());
    assert IsTier(b, b.realm(root).value, mine) && IsTier(b, b.realm(root.Opponent()).value, theirs);
    if b.phase.ResolvingChoices? {
      RanksCounted(b.phase.queue, 0);
      assert b.phase.queue[0..] == b.phase.queue;
    }
  }

  // ----- pawn structure -----

  predicate PawnOf(piece: Piece, player: Player) {
    piece.owner == player && piece.kind == Pawn
  }

  /** At most a king's step apart. */
  predicate Touching(a: Coord, b: Coord) {
    a.x <= b.x + 1 && b.x <= a.x + 1 && a.y <= b.y + 1 && b.y <= a.y + 1
  }

  function Beside(pieces: seq<Piece>, player: Player, at: Coord, from: nat): set<nat> {
    set j: nat | from <= j < |pieces| && PawnOf(pieces[j], player) && Touching(at, pieces[j].at)
  }

  /** The unordered pairs of a side's pawns that touch, from some piece on. */
  function TouchingPawns(pieces: seq<Piece>, player: Player, from: nat): set<(nat, nat)> {
    set i: nat, j: nat | from <= i < |pieces| && i < j < |pieces|
                         && PawnOf(pieces[i], player) && PawnOf(pieces[j], player) && Touching(pieces[i].at, pieces[j].at)
      :: (i, j)
  }

  lemma PawnsStep(pieces: seq<Piece>, player: Player, from: nat, at: Coord)
    requires from < |pieces|
    ensures var all, rest := Pawns(pieces[from..], player), Pawns(pieces[from + 1..], player);
            if PawnOf(pieces[from], player) then
              && AdjacentTo(at, all) == AdjacentTo(at, rest) + (if Touching(at, pieces[from].at) then 1 else 0)
              && AdjacentPairs(all) == AdjacentTo(pieces[from].at, rest) + AdjacentPairs(rest)
            else all == rest
  {
    var all, rest := Pawns(pieces[from..], player), Pawns(pieces[from + 1..], player);
    assert pieces[from..][0] == pieces[from] && pieces[from..][1..] == pieces[from + 1..];
    if PawnOf(pieces[from], player) {
      assert all == [pieces[from].at] + rest && all[1..] == rest;
    }
  }

  lemma BesideStep(pieces: seq<Piece>, player: Player, at: Coord, from: nat)
    requires from < |pieces|
    ensures |Beside(pieces, player, at, from)| == |Beside(pieces, player, at, from + 1)|
            + if PawnOf(pieces[from], player) && Touching(at, pieces[from].at) then 1 else 0
  {
    var rest := Beside(pieces, player, at, from + 1);
    assert Beside(pieces, player, at, from)
           == if PawnOf(pieces[from], player) && Touching(at, pieces[from].at) then rest + {from} else rest;
  }

  lemma {:induction false} BesideCounted(pieces: seq<Piece>, player: Player, at: Coord, from: nat)
    requires from <= |pieces|
    ensures AdjacentTo(at, Pawns(pieces[from..], player)) == |Beside(pieces, player, at, from)|
    decreases |pieces| - from
  {
    if from < |pieces| {
      BesideCounted(pieces, player, at, from + 1);
      PawnsStep(pieces, player, from, at);
      BesideStep(pieces, player, at, from);
    }
  }

  function Paired(i: nat, s: set<nat>): set<(nat, nat)> {
    set j | j in s :: (i, j)
  }

  lemma {:induction false} PairedCount(i: nat, s: set<nat>)
    ensures |Paired(i, s)| == |s|
  {
    if s != {} {
      var x :| x in s;
      PairedCount(i, s - {x});
      assert Paired(i, s) == Paired(i, s - {x}) + {(i, x)};
    }
  }

  lemma PairsSplit(pieces: seq<Piece>, player: Player, from: nat)
    requires from < |pieces| && PawnOf(pieces[from], player)
    ensures var here := Paired(from, Beside(pieces, player, pieces[from].at, from + 1));
            var rest := TouchingPawns(pieces, player, from + 1);
            TouchingPawns(pieces, player, from) == rest + here && rest !! here
  {
    var all, rest := TouchingPawns(pieces, player, from), TouchingPawns(pieces, player, from + 1);
    var here := Paired(from, Beside(pieces, player, pieces[from].at, from + 1));
    forall pair: (nat, nat)
      ensures pair in all <==> pair in rest || pair in here
      ensures pair in rest ==> pair.0 > from
    {
    }
  }

  lemma PairsStep(pieces: seq<Piece>, player: Player, from: nat)
    requires from < |pieces|
    ensures |TouchingPawns(pieces, player, from)| == |TouchingPawns(pieces, player, from + 1)|
            + if PawnOf(pieces[from], player) then |Beside(pieces, player, pieces[from].at, from + 1)| else 0
  {
    if PawnOf(pieces[from], player) {
      PairsSplit(pieces, player, from);
      PairedCount(from, Beside(pieces, player, pieces[from].at, from + 1));
    } else {
      assert TouchingPawns(pieces, player, from) == TouchingPawns(pieces, player, from + 1);
    }
  }

  lemma {:induction false} PairsCounted(pieces: seq<Piece>, player: Player, from: nat)
    requires from <= |pieces|
    ensures AdjacentPairs(Pawns(pieces[from..], player)) == |TouchingPawns(pieces, player, from)|
    decreases |pieces| - from
  {
    if from < |pieces| {
      PairsCounted(pieces, player, from + 1);
      PawnsStep(pieces, player, from, pieces[from].at);
      PairsStep(pieces, player, from);
      BesideCounted(pieces, player, pieces[from].at, from + 1);
    }
  }

  lemma {:induction false} AdjacentBound(pawns: seq<Coord>)
    requires |pawns| <= MOST_PIECES
    ensures AdjacentPairs(pawns) <= MOST_PIECES * |pawns|
  {
    if pawns != [] {
      AdjacentBound(pawns[1..]);
      AdjacentToBound(pawns[0], pawns[1..]);
    }
  }

  lemma {:induction false} AdjacentToBound(at: Coord, others: seq<Coord>)
    ensures AdjacentTo(at, others) <= |others|
  {
    if others != [] {
      AdjacentToBound(at, others[1..]);
    }
  }

  lemma {:induction false} PawnsBound(pieces: seq<Piece>, player: Player)
    ensures |Pawns(pieces, player)| <= |pieces|
  {
    if pieces != [] {
      PawnsBound(pieces[1..], player);
    }
  }

  lemma ConnectionsCounted(b: Board, player: Player)
    requires |b.pieces| <= MOST_PIECES
    ensures ConnectedPawns(b, player) == |TouchingPawns(b.pieces, player, 0)|
  {
    var pawns := Pawns(b.pieces, player);
    PairsCounted(b.pieces, player, 0);
    assert b.pieces[0..] == b.pieces;
    PawnsBound(b.pieces, player);
    AdjacentBound(pawns);
  }

  /** Pawn structure is the number of unordered pairs of a side's pawns that touch, against the opponent's. */
  lemma PawnPairsCounted(b: Board, root: Player)
    requires |b.pieces| <= MOST_PIECES
    ensures Balance(b, root)[PAWN_CONNECTION]
            == |TouchingPawns(b.pieces, root, 0)| - |TouchingPawns(b.pieces, root.Opponent(), 0)|
  {
    WholeOnly(b, root, PAWN_CONNECTION);
    ConnectionsCounted(b, root);
    ConnectionsCounted(b, root.Opponent());
  }

  // ----- attacks -----

  lemma {:induction false} PiecesCounted(pieces: seq<Piece>, chosen: Piece -> bool, from: nat)
    requires from <= |pieces|
    ensures CountPieces(pieces[from..], chosen) == |set i: nat | from <= i < |pieces| && chosen(pieces[i])|
    decreases |pieces| - from
  {
    if from < |pieces| {
      PiecesCounted(pieces, chosen, from + 1);
      assert pieces[from..][0] == pieces[from] && pieces[from..][1..] == pieces[from + 1..];
      var rest := set i: nat | from + 1 <= i < |pieces| && chosen(pieces[i]);
      assert (set i: nat | from <= i < |pieces| && chosen(pieces[i])) == if chosen(pieces[from]) then rest + {from} else rest;
    }
  }

  function AttackersOf(b: Board, at: Coord, side: Player): set<nat> {
    set i: nat | i < |b.pieces| && b.pieces[i].owner == side && b.reaches(b.pieces[i], at)
  }

  lemma AttackersCounted(b: Board, at: Coord, side: Player)
    requires Attackers(b, at, side).Some?
    ensures Attackers(b, at, side).value == |AttackersOf(b, at, side)|
  {
    var chosen := (piece: Piece) => piece.owner == side && b.reaches(piece, at);
    PiecesCounted(b.pieces, chosen, 0);
    assert b.pieces[0..] == b.pieces;
    assert (set i: nat | 0 <= i < |b.pieces| && chosen(b.pieces[i])) == AttackersOf(b, at, side);
  }

  /** The attacks by the pieces of `side` on the first `n` pieces, as far as `player` owns them. */
  function Attacks(b: Board, player: Player, side: Player, n: nat): set<(nat, nat)> {
    set i: nat, j: nat | i < |b.pieces| && j < |b.pieces| && j < n && b.pieces[j].owner == player
                         && b.pieces[i].owner == side && b.reaches(b.pieces[i], b.pieces[j].at)
      :: (j, i)
  }

  lemma AttacksSplit(b: Board, player: Player, side: Player, n: nat)
    requires n < |b.pieces|
    ensures var before := Attacks(b, player, side, n);
            if b.pieces[n].owner == player then
              var here := Paired(n, AttackersOf(b, b.pieces[n].at, side));
              Attacks(b, player, side, n + 1) == before + here && before !! here
            else Attacks(b, player, side, n + 1) == before
  {
  }

  lemma AttacksGrow(b: Board, player: Player, side: Player, n: nat)
    requires n < |b.pieces| && Attackers(b, b.pieces[n].at, side).Some?
    ensures |Attacks(b, player, side, n + 1)| == |Attacks(b, player, side, n)|
            + if b.pieces[n].owner == player then Attackers(b, b.pieces[n].at, side).value else 0
  {
    AttacksSplit(b, player, side, n);
    AttackersCounted(b, b.pieces[n].at, side);
    PairedCount(n, AttackersOf(b, b.pieces[n].at, side));
  }

  lemma SafetyTally(b: Board, piece: Piece)
    requires PieceAnswers(b, piece) && |b.pieces| <= MOST_PIECES
    ensures Attackers(b, piece.at, piece.owner).Some? && Attackers(b, piece.at, piece.owner.Opponent()).Some?
    ensures PieceTally(b, piece, PIECE_SAFETY)
            == Attackers(b, piece.at, piece.owner).value - Attackers(b, piece.at, piece.owner.Opponent()).value
  {
    assert piece.owner == North || piece.owner == South;
  }

  lemma SafetyStep(b: Board, player: Player, n: nat)
    requires n < |b.pieces| <= MOST_PIECES && PieceAnswers(b, b.pieces[n])
    ensures |Attacks(b, player, player, n + 1)| - |Attacks(b, player, player.Opponent(), n + 1)|
            == |Attacks(b, player, player, n)| - |Attacks(b, player, player.Opponent(), n)|
               + if b.pieces[n].owner == player then PieceTally(b, b.pieces[n], PIECE_SAFETY) else 0
  {
    SafetyTally(b, b.pieces[n]);
    if b.pieces[n].owner == player {
      AttacksGrow(b, player, player, n);
      AttacksGrow(b, player, player.Opponent(), n);
    } else {
      AttacksSplit(b, player, player, n);
      AttacksSplit(b, player, player.Opponent(), n);
    }
  }

  lemma {:induction false} SafetyCounted(b: Board, player: Player, n: nat)
    requires n <= |b.pieces| <= MOST_PIECES && forall i :: 0 <= i < n ==> PieceAnswers(b, b.pieces[i])
    ensures PieceSum(b, player, n, PIECE_SAFETY)
            == |Attacks(b, player, player, n)| - |Attacks(b, player, player.Opponent(), n)|
  {
    if n == 0 {
      assert Attacks(b, player, player, 0) == {} && Attacks(b, player, player.Opponent(), 0) == {};
    } else {
      SafetyCounted(b, player, n - 1);
      SafetyStep(b, player, n - 1);
    }
  }

  /** Piece safety is the number of times a side's pieces are defended less the number of times they are attacked,
      against the opponent's. */
  lemma AttacksCounted(b: Board, root: Player)
    requires PiecesAnswer(b, |b.pieces|)
    ensures var opponent, n := root.Opponent(), |b.pieces|;
            Balance(b, root)[PIECE_SAFETY]
            == (|Attacks(b, root, root, n)| - |Attacks(b, root, opponent, n)|)
               - (|Attacks(b, opponent, opponent, n)| - |Attacks(b, opponent, root, n)|)
  {
    PiecesFitTheBoard(b);
    assert root.Opponent().Opponent() == root;
    SafetyCounted(b, root, |b.pieces|);
    SafetyCounted(b, root.Opponent(), |b.pieces|);
    SitesHaveNoPieces(b, root, |b.sites|, PIECE_SAFETY);
    SitesHaveNoPieces(b, root.Opponent(), |b.sites|, PIECE_SAFETY);
  }

  // ----- settlements -----

  function WithSite(b: Board, j: nat, site: Site): Board
    requires j < |b.sites|
  {
    b.(sites := b.sites[j := site])
  }

  function SiteShare(b: Board, site: Site, player: Player, k: nat): int {
    if site.owner == Some(player) then SiteTally(b, site, player, k) else 0
  }

  lemma SameSiteTally(b: Board, j: nat, site: Site, other: Site, player: Player, k: nat)
    requires j < |b.sites|
    ensures SiteShare(WithSite(b, j, site), other, player, k) == SiteShare(b, other, player, k)
  {
  }

  lemma {:induction false} SiteSumWith(b: Board, j: nat, site: Site, player: Player, n: nat, k: nat)
    requires j < |b.sites| && n <= |b.sites|
    ensures SiteSum(WithSite(b, j, site), player, n, k) - SiteSum(b, player, n, k)
            == if n > j then SiteShare(b, site, player, k) - SiteShare(b, b.sites[j], player, k) else 0
  {
    if n > 0 {
      SiteSumWith(b, j, site, player, n - 1, k);
      SameSiteTally(b, j, site, WithSite(b, j, site).sites[n - 1], player, k);
    }
  }

  lemma {:induction false} PieceSumKeeps(b: Board, j: nat, site: Site, player: Player, n: nat, k: nat)
    requires j < |b.sites| && n <= |b.pieces|
    ensures PieceSum(WithSite(b, j, site), player, n, k) == PieceSum(b, player, n, k)
  {
    if n > 0 {
      PieceSumKeeps(b, j, site, player, n - 1, k);
      assert PieceTally(WithSite(b, j, site), b.pieces[n - 1], k) == PieceTally(b, b.pieces[n - 1], k);
    }
  }

  lemma BalanceWithSite(b: Board, j: nat, site: Site, root: Player, k: nat)
    requires j < |b.sites| && k < FEATURES
    ensures Balance(WithSite(b, j, site), root)[k] - Balance(b, root)[k]
            == SiteShare(b, site, root, k) - SiteShare(b, b.sites[j], root, k)
               - (SiteShare(b, site, root.Opponent(), k) - SiteShare(b, b.sites[j], root.Opponent(), k))
  {
    forall player: Player
      ensures Standing(WithSite(b, j, site), player, k) - Standing(b, player, k)
              == SiteShare(b, site, player, k) - SiteShare(b, b.sites[j], player, k)
    {
      SiteSumWith(b, j, site, player, |b.sites|, k);
      PieceSumKeeps(b, j, site, player, |b.pieces|, k);
      assert Whole(WithSite(b, j, site), player, k) == Whole(b, player, k);
    }
  }

  lemma TallyChanged(b: Board, was: Site, site: Site, player: Player, k: nat)
    requires site.index == was.index && site.founder == was.founder
    ensures SiteTally(b, site, player, k) - SiteTally(b, was, player, k)
            == if k == SETTLEMENT_CONTINUITY then (if site.interrupted then 0 else 1) - (if was.interrupted then 0 else 1)
               else if k == SETTLEMENT_DEVELOPMENT then site.establishment - was.establishment
               else if k == SETTLEMENT_PRODUCTION then site.production - was.production
               else if k == PRODUCED_PAWN then (if site.produced then 1 else 0) - (if was.produced then 1 else 0)
               else if k == TRANSFER_PRESSURE then (if site.transfer then 1 else 0) - (if was.transfer then 1 else 0)
               else 0
  {
  }

  /** Each field of an owned settlement moves its own feature for the owner, and no other. */
  lemma SiteChanged(b: Board, j: nat, site: Site, root: Player, k: nat)
    requires j < |b.sites| && k < FEATURES
    requires site.owner == b.sites[j].owner && site.index == b.sites[j].index && site.founder == b.sites[j].founder
    ensures var was := b.sites[j];
            var gain :=
              if k == SETTLEMENT_CONTINUITY then (if site.interrupted then 0 else 1) - (if was.interrupted then 0 else 1)
              else if k == SETTLEMENT_DEVELOPMENT then site.establishment - was.establishment
              else if k == SETTLEMENT_PRODUCTION then site.production - was.production
              else if k == PRODUCED_PAWN then (if site.produced then 1 else 0) - (if was.produced then 1 else 0)
              else if k == TRANSFER_PRESSURE then (if site.transfer then 1 else 0) - (if was.transfer then 1 else 0)
              else 0;
            Balance(WithSite(b, j, site), root)[k] - Balance(b, root)[k]
            == if was.owner.None? then 0 else Signed(was.owner.value == root, gain)
  {
    var was := b.sites[j];
    BalanceWithSite(b, j, site, root, k);
    if was.owner.Some? {
      assert was.owner.value == root || was.owner.value == root.Opponent();
      TallyChanged(b, was, site, was.owner.value, k);
    }
  }

  predicate IsFounder(b: Board, id: nat, i: nat) {
    i < |b.pieces| && b.pieces[i].id == id && forall h :: 0 <= h < i ==> b.pieces[h].id != id
  }

  /** The founder is on the board, and no piece of the owner's opponent attacks it. */
  ghost predicate FounderSafe(b: Board, site: Site, owner: Player) {
    site.founder.Some? && exists i: nat :: IsFounder(b, site.founder.value, i)
                                           && AttackersOf(b, b.pieces[i].at, owner.Opponent()) == {}
  }

  function GovernorsOf(b: Board, index: nat): set<nat> {
    set i: nat | i < |b.pieces| && b.governs(b.pieces[i], index)
  }

  lemma GovernorsCounted(b: Board, index: nat)
    requires Governors(b, index).Some?
    ensures Governors(b, index).value == |GovernorsOf(b, index)|
  {
    var chosen := (piece: Piece) => b.governs(piece, index);
    PiecesCounted(b.pieces, chosen, 0);
    assert b.pieces[0..] == b.pieces;
    assert (set i: nat | 0 <= i < |b.pieces| && chosen(b.pieces[i])) == GovernorsOf(b, index);
  }

  lemma {:induction false} FindFirst(b: Board, id: nat, from: nat)
    requires from <= |b.pieces| && forall h :: 0 <= h < from ==> b.pieces[h].id != id
    ensures Find(b.pieces[from..], id).None? ==> forall i: nat :: !IsFounder(b, id, i)
    ensures Find(b.pieces[from..], id).Some? ==>
              exists i: nat :: IsFounder(b, id, i) && b.pieces[i] == Find(b.pieces[from..], id).value
    decreases |b.pieces| - from
  {
    if from < |b.pieces| {
      assert b.pieces[from..][0] == b.pieces[from] && b.pieces[from..][1..] == b.pieces[from + 1..];
      if b.pieces[from].id == id {
        assert IsFounder(b, id, from);
      } else {
        FindFirst(b, id, from + 1);
      }
    }
  }

  lemma FounderCounted(b: Board, site: Site, player: Player)
    requires SiteAnswers(b, site, player)
    ensures SiteTally(b, site, player, FOUNDER_SAFETY) == if FounderSafe(b, site, player) then 1 else 0
  {
    if site.founder.Some? {
      FindFirst(b, site.founder.value, 0);
      assert b.pieces[0..] == b.pieces;
      var founder := Founder(b, site);
      if founder.Some? {
        AttackersCounted(b, founder.value.at, player.Opponent());
        var first: nat :| IsFounder(b, site.founder.value, first) && b.pieces[first] == founder.value;
        assert forall i: nat :: IsFounder(b, site.founder.value, i) ==> i == first;
      }
    }
  }

  /** A settlement taken from nobody brings its new owner, feature by feature, what it holds; a settlement lost to
      nobody is the same read backwards. */
  lemma SiteTaken(b: Board, j: nat, owner: Player, root: Player, k: nat)
    requires j < |b.sites| && k < FEATURES && b.sites[j].owner.None? && |b.pieces| <= MOST_PIECES
    requires SiteAnswers(b, b.sites[j].(owner := Some(owner)), owner)
    ensures var site := b.sites[j];
            var gain :=
              if k == SETTLEMENT_OWNERSHIP then 1
              else if k == GOVERNOR then |GovernorsOf(b, site.index)|
              else if k == FOUNDER_SAFETY then (if FounderSafe(b, site, owner) then 1 else 0)
              else if k == SETTLEMENT_CONTINUITY then (if site.interrupted then 0 else 1)
              else if k == SETTLEMENT_DEVELOPMENT then site.establishment
              else if k == SETTLEMENT_PRODUCTION then site.production
              else if k == PRODUCED_PAWN then (if site.produced then 1 else 0)
              else if k == TRANSFER_PRESSURE then (if site.transfer then 1 else 0)
              else 0;
            Balance(WithSite(b, j, site.(owner := Some(owner))), root)[k] - Balance(b, root)[k] == Signed(owner == root, gain)
  {
    var taken := b.sites[j].(owner := Some(owner));
    BalanceWithSite(b, j, taken, root, k);
    if k == GOVERNOR {
      GovernorsCounted(b, taken.index);
    } else if k == FOUNDER_SAFETY {
      FounderCounted(b, taken, owner);
    }
  }

  // ----- the components -----

  /** A reported component is its feature times its weight, as far as a component reaches. */
  lemma ComponentsExactly(b: Board, root: Player, w: Weights, k: nat)
    requires k < FEATURES
    ensures var product := Balance(b, root)[k] * w.features[k];
            Breakdown(b, root, w)[k + 1]
            == Component(NAMES[k], if product < -500_000 then -500_000 else if product > 500_000 then 500_000 else product)
    ensures var material := MaterialScore(b, root, w);
            Breakdown(b, root, w)[0]
            == Component("material", if material < -500_000 then -500_000 else if material > 500_000 then 500_000 else material)
  {
  }
}
