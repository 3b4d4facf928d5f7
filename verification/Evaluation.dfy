/** The static evaluation: features counted for one side against the other, weighted, clamped and summed. */
module Evaluation {
  import opened Rules
  import Counting
  import Mate

  const SCHEMA_VERSION: nat := 1
  const I32_MAX: int := 0x7FFF_FFFF
  const I32_MIN: int := -0x8000_0000

  type Byte = n: nat | n <= 255

  datatype Kind = King | Queen | Rook | Bishop | Knight | Pawn

  datatype Terrain = Open | Road | Forest | Mountain

  datatype Piece = Piece(id: nat, owner: Player, kind: Kind, at: Coord)

  datatype Site = Site(
    index: nat,
    owner: Option<Player>,
    founder: Option<nat>,
    interrupted: bool,
    establishment: Byte,
    production: Byte,
    produced: bool,
    transfer: bool
  )

  /** A pending choice; a promotion says which kinds the realm score allows. */
  datatype Choice = Promote(bishop: bool, rook: bool, queen: bool) | PlacePawn

  datatype Phase = Command | ResolvingChoices(queue: seq<Choice>)

  /** What the evaluator reads of a scenario and a match state. Which piece attacks which square and governs
      which settlement is arbitrary; so are legal moves, check and realm control, and those queries may fail.
      `otherwiseValid` stands for the checks of scenario and state that the statements below do not need:
      identities, kings, references, terrain and metadata. */
  datatype Board = Board(
    width: nat,
    height: nat,
    forward: map<Player, int>,
    terrain: map<Coord, Terrain>,
    promotionSites: seq<Coord>,
    unlockBishop: nat,
    unlockRook: nat,
    unlockQueen: nat,
    pieces: seq<Piece>,
    candidates: map<nat, Byte>,
    sites: seq<Site>,
    phase: Phase,
    active: Player,
    outcome: Option<Option<Player>>,
    otherwiseValid: bool,
    reaches: (Piece, Coord) -> bool,
    governs: (Piece, nat) -> bool,
    mapped: nat -> bool,
    moves: Player -> Option<nat>,
    inCheck: Player -> Option<bool>,
    realm: Player -> Option<int>
  )

  // The features other than material, by position in the component list.
  const MOBILITY := 0
  const PIECE_SAFETY := 1
  const KING_CHECK := 2
  const PAWN_ADVANCEMENT := 3
  const PAWN_CONNECTION := 4
  const PROMOTION_DISTANCE := 5
  const PROMOTION_CANDIDATE := 6
  const PROMOTION_TIER := 7
  const CENTRE_ACCESS := 8
  const TERRAIN_ACTIVITY := 9
  const SETTLEMENT_OWNERSHIP := 10
  const GOVERNOR := 11
  const FOUNDER_SAFETY := 12
  const SETTLEMENT_CONTINUITY := 13
  const SETTLEMENT_DEVELOPMENT := 14
  const SETTLEMENT_PRODUCTION := 15
  const PRODUCED_PAWN := 16
  const TRANSFER_PRESSURE := 17
  const FEATURES := 18

  const NAMES: seq<string> := [
    "mobility", "piece_safety", "king_safety", "pawn_advancement", "pawn_structure", "promotion_distance",
    "promotion_candidate", "promotion_tier", "centre_access", "terrain_activity", "settlement_ownership",
    "governance", "founder_safety", "settlement_continuity", "settlement_development",
    "settlement_production", "produced_pawn", "transfer_pressure"]

  /** One number a feature: the features of a position, or the weights given to them. */
  type Raw = v: seq<int> | |v| == FEATURES witness seq(FEATURES, _ => 0)

  const ZERO: Raw := seq(FEATURES, _ => 0)

  datatype Weights = Weights(schemaVersion: nat, queen: int, rook: int, bishop: int, knight: int, pawn: int, features: Raw)

  datatype Component = Component(name: string, value: int)

  datatype Evaluated = Evaluated(score: int, components: seq<Component>)

  datatype EvaluationError = Failed

  // ----- arithmetic -----

  function Clamp(v: int, lo: int, hi: int): (r: int)
    requires lo <= hi
    ensures lo <= r <= hi && (lo <= v <= hi ==> r == v)
  {
    if v < lo then lo else if hi < v then hi else v
  }

  function Bounded(v: int): int {
    Clamp(v, -MAX_HEURISTIC_SCORE, MAX_HEURISTIC_SCORE)
  }

  function Weighted(raw: int, weight: int): int {
    Bounded(raw * weight)
  }

  function SaturatingAdd(a: int, b: int): int {
    Clamp(a + b, I32_MIN, I32_MAX)
  }

  function Count(n: nat): int {
    if n <= I32_MAX then n else I32_MAX
  }

  function Signed(own: bool, v: int): int {
    if own then v else -v
  }

  function Flag(b: bool): nat {
    if b then 1 else 0
  }

  function Or(o: Option<nat>): nat {
    match o
    case None => 0
    case Some(n) => n
  }

  // ----- the queries -----

  const MIN_SIDE: nat := 8
  const MAX_SIDE: nat := 64

  predicate Within(b: Board, at: Coord) {
    at.x < b.width && at.y < b.height
  }

  /** The validation every query starts with: a board of at most 64 by 64, promotion sites on it, and no two
      pieces on one square. */
  predicate Validated(b: Board) {
    && b.otherwiseValid
    && MIN_SIDE <= b.width <= MAX_SIDE && MIN_SIDE <= b.height <= MAX_SIDE
    && (forall i :: 0 <= i < |b.promotionSites| ==> Within(b, b.promotionSites[i]))
    && (forall i, j :: 0 <= i < j < |b.pieces| ==> b.pieces[i].at != b.pieces[j].at)
  }

  function CountPieces(pieces: seq<Piece>, chosen: Piece -> bool): (n: nat)
    ensures n <= |pieces|
  {
    if pieces == [] then 0 else Flag(chosen(pieces[0])) + CountPieces(pieces[1..], chosen)
  }

  /** How many pieces of `player` attack a square; an error on an invalid board or off it. */
  function Attackers(b: Board, at: Coord, player: Player): (n: Option<nat>)
    ensures n.Some? <==> Validated(b) && Within(b, at)
    ensures n.Some? ==> n.value <= |b.pieces|
  {
    if !Validated(b) || !Within(b, at) then None
    else Some(CountPieces(b.pieces, (piece: Piece) => piece.owner == player && b.reaches(piece, at)))
  }

  /** How many pieces govern a settlement. */
  function Governors(b: Board, index: nat): (n: Option<nat>)
    ensures n.Some? ==> Validated(b) && n.value <= |b.pieces|
  {
    if !Validated(b) || !b.mapped(index) then None
    else Some(CountPieces(b.pieces, (piece: Piece) => b.governs(piece, index)))
  }

  // ----- one piece -----

  function Distance(a: nat, b: nat): nat {
    if a <= b then b - a else a - b
  }

  function Last(n: nat): nat {
    if n == 0 then 0 else n - 1
  }

  function CentreValue(b: Board, at: Coord): int {
    b.width + b.height - Distance(2 * at.x, Last(b.width)) - Distance(2 * at.y, Last(b.height))
  }

  function TerrainValue(b: Board, at: Coord): int {
    if at !in b.terrain then 0
    else
      match b.terrain[at]
      case Road => 2
      case Forest => -1
      case Open => 0
      case Mountain => 0
  }

  function PawnAdvance(b: Board, player: Player, at: Coord): nat {
    if player !in b.forward || b.forward[player] > 0 then at.y
    else if at.y <= Last(b.height) then Last(b.height) - at.y
    else 0
  }

  function Nearest(at: Coord, sites: seq<Coord>): (d: nat)
    requires sites != []
    ensures exists i :: 0 <= i < |sites| && d == Distance(at.x, sites[i].x) + Distance(at.y, sites[i].y)
    ensures forall i :: 0 <= i < |sites| ==> d <= Distance(at.x, sites[i].x) + Distance(at.y, sites[i].y)
  {
    var here := Distance(at.x, sites[0].x) + Distance(at.y, sites[0].y);
    if |sites| == 1 then here
    else
      var rest := Nearest(at, sites[1..]);
      if here <= rest then here else rest
  }

  function PromotionProximity(b: Board, at: Coord): int {
    if b.promotionSites == [] then 0 else b.width + b.height - Nearest(at, b.promotionSites)
  }

  function PieceValue(kind: Kind, w: Weights): int {
    match kind
    case King => 0
    case Queen => w.queen
    case Rook => w.rook
    case Bishop => w.bishop
    case Knight => w.knight
    case Pawn => w.pawn
  }

  /** What one piece is worth to its owner in feature `k`. */
  function PieceTally(b: Board, piece: Piece, k: nat): int {
    if k == PIECE_SAFETY then
      Count(Or(Attackers(b, piece.at, piece.owner))) - Count(Or(Attackers(b, piece.at, piece.owner.Opponent())))
    else if k == CENTRE_ACCESS then CentreValue(b, piece.at)
    else if k == TERRAIN_ACTIVITY then TerrainValue(b, piece.at)
    else if piece.kind != Pawn then 0
    else if k == PAWN_ADVANCEMENT then PawnAdvance(b, piece.owner, piece.at)
    else if k == PROMOTION_DISTANCE then PromotionProximity(b, piece.at)
    else if k == PROMOTION_CANDIDATE && piece.id in b.candidates then b.candidates[piece.id]
    else 0
  }

  // ----- one side -----

  /** What the first `n` pieces give `player` in feature `k`. */
  function PieceSum(b: Board, player: Player, n: nat, k: nat): int
    requires n <= |b.pieces|
  {
    if n == 0 then 0
    else PieceSum(b, player, n - 1, k) + (if b.pieces[n - 1].owner == player then PieceTally(b, b.pieces[n - 1], k) else 0)
  }

  function Pawns(pieces: seq<Piece>, player: Player): seq<Coord> {
    if pieces == [] then []
    else if pieces[0].owner == player && pieces[0].kind == Pawn then [pieces[0].at] + Pawns(pieces[1..], player)
    else Pawns(pieces[1..], player)
  }

  predicate Adjacent(a: Coord, b: Coord) {
    Distance(a.x, b.x) <= 1 && Distance(a.y, b.y) <= 1
  }

  function AdjacentTo(at: Coord, others: seq<Coord>): nat {
    if others == [] then 0 else Flag(Adjacent(at, others[0])) + AdjacentTo(at, others[1..])
  }

  function AdjacentPairs(pawns: seq<Coord>): nat {
    if pawns == [] then 0 else AdjacentTo(pawns[0], pawns[1..]) + AdjacentPairs(pawns[1..])
  }

  function ConnectedPawns(b: Board, player: Player): int {
    Count(AdjacentPairs(Pawns(b.pieces, player)))
  }

  function Mobility(b: Board, player: Player): int {
    if b.phase.Command? then Count(Or(b.moves(player))) else 0
  }

  function PromotionTier(b: Board, player: Player): int {
    var score := match b.realm(player) case None => 0 case Some(s) => s;
    if score >= b.unlockQueen then 4 else if score >= b.unlockRook then 3 else if score >= b.unlockBishop then 2 else 1
  }

  function QueueBonus(queue: seq<Choice>): nat {
    if queue == [] then 0
    else
      var rest := QueueBonus(queue[1..]);
      match queue[0]
      case Promote(bishop, rook, queen) => Flag(bishop) + Flag(rook) + Flag(queen) + rest
      case PlacePawn => rest
  }

  function Pending(b: Board, player: Player): nat {
    if player == b.active && b.phase.ResolvingChoices? then QueueBonus(b.phase.queue) else 0
  }

  function Find(pieces: seq<Piece>, id: nat): Option<Piece> {
    if pieces == [] then None
    else if pieces[0].id == id then Some(pieces[0])
    else Find(pieces[1..], id)
  }

  function Founder(b: Board, site: Site): Option<Piece> {
    match site.founder
    case None => None
    case Some(id) => Find(b.pieces, id)
  }

  /** What one settlement is worth to the player who owns it in feature `k`. */
  function SiteTally(b: Board, site: Site, player: Player, k: nat): int {
    var founder := Founder(b, site);
    if k == SETTLEMENT_OWNERSHIP then 1
    else if k == SETTLEMENT_CONTINUITY then Flag(!site.interrupted)
    else if k == SETTLEMENT_DEVELOPMENT then site.establishment
    else if k == SETTLEMENT_PRODUCTION then site.production
    else if k == PRODUCED_PAWN then Flag(site.produced)
    else if k == TRANSFER_PRESSURE then Flag(site.transfer)
    else if k == GOVERNOR then Count(Or(Governors(b, site.index)))
    else if k == FOUNDER_SAFETY && founder.Some? then Flag(Or(Attackers(b, founder.value.at, player.Opponent())) == 0)
    else 0
  }

  function SiteSum(b: Board, player: Player, n: nat, k: nat): int
    requires n <= |b.sites|
  {
    if n == 0 then 0
    else SiteSum(b, player, n - 1, k)
         + (if b.sites[n - 1].owner == Some(player) then SiteTally(b, b.sites[n - 1], player, k) else 0)
  }

  function Whole(b: Board, player: Player, k: nat): int {
    if k == PAWN_CONNECTION then ConnectedPawns(b, player)
    else if k == MOBILITY then Mobility(b, player)
    else if k == KING_CHECK then Flag(b.inCheck(player.Opponent()) == Some(true))
    else if k == PROMOTION_TIER then PromotionTier(b, player) + Pending(b, player)
    else 0
  }

  /** Everything the board holds for one side in feature `k`, counted without reference to the other's. */
  function Standing(b: Board, player: Player, k: nat): int {
    PieceSum(b, player, |b.pieces|, k) + SiteSum(b, player, |b.sites|, k) + Whole(b, player, k)
  }

  /** Every query the evaluation makes succeeds. */
  predicate Answers(b: Board) {
    PiecesAnswer(b, |b.pieces|) && WholeAnswers(b) && SitesAnswer(b, North, |b.sites|) && SitesAnswer(b, South, |b.sites|)
  }

  predicate PieceAnswers(b: Board, piece: Piece) {
    Attackers(b, piece.at, North).Some? && Attackers(b, piece.at, South).Some?
  }

  predicate PiecesAnswer(b: Board, n: nat)
    requires n <= |b.pieces|
  {
    forall i :: 0 <= i < n ==> PieceAnswers(b, b.pieces[i])
  }

  predicate WholeAnswers(b: Board) {
    && (b.phase.Command? ==> b.moves(North).Some? && b.moves(South).Some?)
    && b.inCheck(North).Some? && b.inCheck(South).Some?
    && b.realm(North).Some? && b.realm(South).Some?
  }

  predicate SitesAnswer(b: Board, player: Player, n: nat)
    requires n <= |b.sites|
  {
    forall i :: 0 <= i < n && b.sites[i].owner == Some(player) ==> SiteAnswers(b, b.sites[i], player)
  }

  predicate SiteAnswers(b: Board, site: Site, player: Player) {
    && Governors(b, site.index).Some?
    && (Founder(b, site).Some? ==> Attackers(b, Founder(b, site).value.at, player.Opponent()).Some?)
  }

  // ----- material -----

  function Worths(pieces: seq<Piece>, root: Player, w: Weights): (worths: seq<int>)
    ensures |worths| == |pieces|
    ensures forall i :: 0 <= i < |worths| ==>
              worths[i] == Weighted(Signed(pieces[i].owner == root, 1), PieceValue(pieces[i].kind, w))
  {
    seq(|pieces|, i requires 0 <= i < |pieces| => Weighted(Signed(pieces[i].owner == root, 1), PieceValue(pieces[i].kind, w)))
  }

  predicate InRange(worths: seq<int>) {
    forall i :: 0 <= i < |worths| ==> -MAX_HEURISTIC_SCORE <= worths[i] <= MAX_HEURISTIC_SCORE
  }

  /** The first `n` worths as the loop accumulates them, saturating at 32 bits. */
  function Material(worths: seq<int>, n: nat): int
    requires n <= |worths|
  {
    if n == 0 then 0 else SaturatingAdd(Material(worths, n - 1), worths[n - 1])
  }

  function ExactMaterial(worths: seq<int>, n: nat): int
    requires n <= |worths|
  {
    if n == 0 then 0 else ExactMaterial(worths, n - 1) + worths[n - 1]
  }

  /** Some prefix is worth more than 32 bits hold. */
  predicate Saturates(worths: seq<int>, n: nat)
    requires n <= |worths|
  {
    n > 0 && (Saturates(worths, n - 1) || !(-I32_MAX <= ExactMaterial(worths, n) <= I32_MAX))
  }

  // ----- the evaluation -----

  function Features(raw: Raw, weights: Raw): (components: seq<Component>)
    ensures |components| == FEATURES
    ensures forall k :: 0 <= k < FEATURES ==> components[k] == Component(NAMES[k], Weighted(raw[k], weights[k]))
  {
    seq(FEATURES, k requires 0 <= k < FEATURES => Component(NAMES[k], Weighted(raw[k], weights[k])))
  }

  function Sum(components: seq<Component>): int {
    if components == [] then 0 else Sum(components[..|components| - 1]) + components[|components| - 1].value
  }

  /** The standing of `root` against the opponent's, feature by feature. */
  function Balance(b: Board, root: Player): Raw {
    seq(FEATURES, k requires 0 <= k < FEATURES => Standing(b, root, k) - Standing(b, root.Opponent(), k))
  }

  function FeatureTotal(b: Board, root: Player, w: Weights): int {
    Sum(Features(Balance(b, root), w.features))
  }

  function MaterialScore(b: Board, root: Player, w: Weights): int {
    Material(Worths(b.pieces, root, w), |b.pieces|)
  }

  function Total(b: Board, root: Player, w: Weights): int {
    Bounded(MaterialScore(b, root, w)) + FeatureTotal(b, root, w)
  }

  /** The score of a position, or none when the weights are of another schema or a query fails. */
  function Score(b: Board, root: Player, w: Weights): Option<int> {
    if w.schemaVersion != SCHEMA_VERSION then None
    else
      match b.outcome
      case Some(winner) => Some(TerminalScore(winner, root, 0))
      case None => if Answers(b) then Some(Bounded(Total(b, root, w))) else None
  }

  /** Adds what the settlements of `player` are worth, with the given sign. */
  method RealmFeatures(b: Board, player: Player, own: bool, start: Raw) returns (r: Result<Raw, EvaluationError>)
    ensures r.Ok? <==> SitesAnswer(b, player, |b.sites|)
    ensures r.Ok? ==> forall k :: 0 <= k < FEATURES ==>
              r.value[k] == start[k] + Signed(own, SiteSum(b, player, |b.sites|, k)
                                                   + if k == PROMOTION_TIER then Pending(b, player) else 0)
  {
    var raw := start;
    for i := 0 to |b.sites|
      invariant SitesAnswer(b, player, i)
      invariant forall k :: 0 <= k < FEATURES ==> raw[k] == start[k] + Signed(own, SiteSum(b, player, i, k))
    {
      var site := b.sites[i];
      if site.owner == Some(player) {
        var added := SiteFeatures(b, site, player, own, raw);
        if added.Err? {
          return Err(Failed);
        }
        raw := added.value;
      }
    }
    SitesHaveNoWhole(b, player, |b.sites|, PROMOTION_TIER);
    if player == b.active && b.phase.ResolvingChoices? {
      raw := raw[PROMOTION_TIER := raw[PROMOTION_TIER] + Signed(own, QueueBonus(b.phase.queue))];
    }
    return Ok(raw);
  }

  /** The part of the loop body that only reads the settlement. */
  method SiteCounts(b: Board, site: Site, player: Player, own: bool, start: Raw) returns (raw: Raw)
    ensures forall k :: 0 <= k < FEATURES ==>
              raw[k] == start[k] + if k in {GOVERNOR, FOUNDER_SAFETY} then 0 else Signed(own, SiteTally(b, site, player, k))
  {
    raw := start;
    raw := raw[SETTLEMENT_OWNERSHIP := raw[SETTLEMENT_OWNERSHIP] + Signed(own, 1)];
    raw := raw[SETTLEMENT_CONTINUITY := raw[SETTLEMENT_CONTINUITY] + Signed(own, Flag(!site.interrupted))];
    raw := raw[SETTLEMENT_DEVELOPMENT := raw[SETTLEMENT_DEVELOPMENT] + Signed(own, site.establishment)];
    raw := raw[SETTLEMENT_PRODUCTION := raw[SETTLEMENT_PRODUCTION] + Signed(own, site.production)];
    raw := raw[PRODUCED_PAWN := raw[PRODUCED_PAWN] + Signed(own, Flag(site.produced))];
    raw := raw[TRANSFER_PRESSURE := raw[TRANSFER_PRESSURE] + Signed(own, Flag(site.transfer))];
  }

  /** The body of that loop. */
  method SiteFeatures(b: Board, site: Site, player: Player, own: bool, start: Raw) returns (r: Result<Raw, EvaluationError>)
    ensures r.Ok? <==> SiteAnswers(b, site, player)
    ensures r.Ok? ==> forall k :: 0 <= k < FEATURES ==> r.value[k] == start[k] + Signed(own, SiteTally(b, site, player, k))
  {
    var raw := SiteCounts(b, site, player, own, start);
    var governors := Governors(b, site.index);
    if governors.None? {
      return Err(Failed);
    }
    raw := raw[GOVERNOR := raw[GOVERNOR] + Signed(own, Count(governors.value))];
    var founder := Founder(b, site);
    if founder.Some? {
      var attackers := Attackers(b, founder.value.at, player.Opponent());
      if attackers.None? {
        return Err(Failed);
      }
      raw := raw[FOUNDER_SAFETY := raw[FOUNDER_SAFETY] + Signed(own, Flag(attackers.value == 0))];
    }
    return Ok(raw);
  }

  /** No settlement counts towards a feature of the whole side. */
  lemma {:induction false} SitesHaveNoWhole(b: Board, player: Player, n: nat, k: nat)
    requires n <= |b.sites|
    requires k in {PAWN_CONNECTION, MOBILITY, KING_CHECK, PROMOTION_TIER}
    ensures SiteSum(b, player, n, k) == 0
  {
    if n > 0 {
      SitesHaveNoWhole(b, player, n - 1, k);
    }
  }

  /** The loop over the pieces: material, and every feature a single piece contributes. */
  method PieceFeatures(b: Board, root: Player, w: Weights) returns (r: Result<(int, Raw), EvaluationError>)
    ensures r.Ok? <==> PiecesAnswer(b, |b.pieces|)
    ensures r.Ok? ==> |b.pieces| <= MOST_PIECES && forall k :: 0 <= k < FEATURES ==> I32_MIN < r.value.1[k] < I32_MAX
    ensures r.Ok? ==> r.value.0 == MaterialScore(b, root, w)
    ensures r.Ok? ==> forall k :: 0 <= k < FEATURES ==>
              r.value.1[k] == PieceSum(b, root, |b.pieces|, k) - PieceSum(b, root.Opponent(), |b.pieces|, k)
  {
    var material := 0;
    var raw := ZERO;
    for i := 0 to |b.pieces|
      invariant PiecesAnswer(b, i)
      invariant material == Material(Worths(b.pieces, root, w), i)
      invariant forall k :: 0 <= k < FEATURES ==>
                  raw[k] == PieceSum(b, root, i, k) - PieceSum(b, root.Opponent(), i, k)
    {
      var piece := b.pieces[i];
      var own := piece.owner == root;
      material := SaturatingAdd(material, Weighted(Signed(own, 1), PieceValue(piece.kind, w)));
      var added := OnePieceFeatures(b, piece, own, raw);
      if added.Err? {
        return Err(Failed);
      }
      raw := added.value;
    }
    PieceBalancesFit(b, root);
    return Ok((material, raw));
  }

  /** The body of that loop, material aside. */
  method OnePieceFeatures(b: Board, piece: Piece, own: bool, start: Raw) returns (r: Result<Raw, EvaluationError>)
    ensures r.Ok? <==> PieceAnswers(b, piece)
    ensures r.Ok? ==> forall k :: 0 <= k < FEATURES ==> r.value[k] == start[k] + Signed(own, PieceTally(b, piece, k))
  {
    assert piece.owner == North || piece.owner == South;
    var defenders := Attackers(b, piece.at, piece.owner);
    if defenders.None? {
      return Err(Failed);
    }
    var attackers := Attackers(b, piece.at, piece.owner.Opponent());
    if attackers.None? {
      return Err(Failed);
    }
    var raw := start;
    raw := raw[PIECE_SAFETY := raw[PIECE_SAFETY] + Signed(own, Count(defenders.value) - Count(attackers.value))];
    raw := raw[CENTRE_ACCESS := raw[CENTRE_ACCESS] + Signed(own, CentreValue(b, piece.at))];
    raw := raw[TERRAIN_ACTIVITY := raw[TERRAIN_ACTIVITY] + Signed(own, TerrainValue(b, piece.at))];
    if piece.kind == Pawn {
      raw := raw[PAWN_ADVANCEMENT := raw[PAWN_ADVANCEMENT] + Signed(own, PawnAdvance(b, piece.owner, piece.at))];
      raw := raw[PROMOTION_DISTANCE := raw[PROMOTION_DISTANCE] + Signed(own, PromotionProximity(b, piece.at))];
      var streak := if piece.id in b.candidates then b.candidates[piece.id] else 0;
      raw := raw[PROMOTION_CANDIDATE := raw[PROMOTION_CANDIDATE] + Signed(own, streak)];
    }
    return Ok(raw);
  }

  /** No piece counts towards a feature of the whole side. */
  lemma {:induction false} PiecesHaveNoWhole(b: Board, player: Player, n: nat, k: nat)
    requires n <= |b.pieces|
    requires k in {PAWN_CONNECTION, MOBILITY, KING_CHECK, PROMOTION_TIER}
    ensures PieceSum(b, player, n, k) == 0
  {
    if n > 0 {
      PiecesHaveNoWhole(b, player, n - 1, k);
    }
  }

  /** The four features that are assigned after the loop rather than accumulated in it. */
  method WholeFeatures(b: Board, root: Player, start: Raw) returns (r: Result<Raw, EvaluationError>)
    ensures r.Ok? <==> WholeAnswers(b)
    ensures r.Ok? ==> forall k :: 0 <= k < FEATURES ==>
              r.value[k] == if k == PROMOTION_TIER then PromotionTier(b, root) - PromotionTier(b, root.Opponent())
                            else if k in {PAWN_CONNECTION, MOBILITY, KING_CHECK}
                            then Whole(b, root, k) - Whole(b, root.Opponent(), k)
                            else start[k]
  {
    var opponent := root.Opponent();
    var raw := start;
    raw := raw[PAWN_CONNECTION := ConnectedPawns(b, root) - ConnectedPawns(b, opponent)];
    if b.phase.Command? && (b.moves(root).None? || b.moves(opponent).None?) {
      return Err(Failed);
    }
    raw := raw[MOBILITY := Mobility(b, root) - Mobility(b, opponent)];
    var threat := b.inCheck(opponent);
    if threat.None? {
      return Err(Failed);
    }
    var danger := b.inCheck(root);
    if danger.None? {
      return Err(Failed);
    }
    raw := raw[KING_CHECK := Flag(threat.value) - Flag(danger.value)];
    if b.realm(root).None? || b.realm(opponent).None? {
      return Err(Failed);
    }
    raw := raw[PROMOTION_TIER := PromotionTier(b, root) - PromotionTier(b, opponent)];
    return Ok(raw);
  }

  lemma BalanceAssembled(b: Board, root: Player, pieces: Raw, whole: Raw, mine: Raw, both: Raw)
    requires forall k :: 0 <= k < FEATURES ==>
               pieces[k] == PieceSum(b, root, |b.pieces|, k) - PieceSum(b, root.Opponent(), |b.pieces|, k)
    requires forall k :: 0 <= k < FEATURES ==>
               whole[k] == if k == PROMOTION_TIER then PromotionTier(b, root) - PromotionTier(b, root.Opponent())
                           else if k in {PAWN_CONNECTION, MOBILITY, KING_CHECK}
                           then Whole(b, root, k) - Whole(b, root.Opponent(), k)
                           else pieces[k]
    requires forall k :: 0 <= k < FEATURES ==>
               mine[k] == whole[k] + SiteSum(b, root, |b.sites|, k) + if k == PROMOTION_TIER then Pending(b, root) else 0
    requires forall k :: 0 <= k < FEATURES ==>
               both[k] == mine[k] - SiteSum(b, root.Opponent(), |b.sites|, k)
                          - if k == PROMOTION_TIER then Pending(b, root.Opponent()) else 0
    ensures both == Balance(b, root)
  {
    forall k | 0 <= k < FEATURES
      ensures both[k] == Balance(b, root)[k]
    {
      if k in {PAWN_CONNECTION, MOBILITY, KING_CHECK, PROMOTION_TIER} {
        PiecesHaveNoWhole(b, root, |b.pieces|, k);
        PiecesHaveNoWhole(b, root.Opponent(), |b.pieces|, k);
      }
    }
  }

  /** The signed accumulation is one side's standing minus the other's, and fails exactly when a query does;
      with no more settlements and pending choices than 16-bit indices allow, every feature fits 32 bits. */
  method RawFeatures(b: Board, root: Player, w: Weights) returns (r: Result<(int, Raw), EvaluationError>)
    ensures r.Ok? <==> Answers(b)
    ensures r.Ok? ==> r.value == (MaterialScore(b, root, w), Balance(b, root))
    ensures r.Ok? && Indexed(b) ==> forall k :: 0 <= k < FEATURES ==> I32_MIN < r.value.1[k] <= I32_MAX
  {
    var pieces := PieceFeatures(b, root, w);
    if pieces.Err? {
      return Err(Failed);
    }
    var whole := WholeFeatures(b, root, pieces.value.1);
    if whole.Err? {
      return Err(Failed);
    }
    var mine := RealmFeatures(b, root, true, whole.value);
    if mine.Err? {
      return Err(Failed);
    }
    var both := RealmFeatures(b, root.Opponent(), false, mine.value);
    if both.Err? {
      return Err(Failed);
    }
    BalanceAssembled(b, root, pieces.value.1, whole.value, mine.value, both.value);
    RawFits(b, root);
    return Ok((pieces.value.0, both.value));
  }

  lemma {:induction false} SumConcat(head: seq<Component>, tail: seq<Component>)
    ensures Sum(head + tail) == Sum(head) + Sum(tail)
    ensures |tail| == 1 ==> Sum(tail) == tail[0].value
  {
    if tail == [] {
      assert head + tail == head;
    } else {
      SumConcat(head, tail[..|tail| - 1]);
      assert (head + tail)[..|head + tail| - 1] == head + tail[..|tail| - 1];
    }
  }

  /** The reported components, before the one that accounts for the final clamp. */
  function Breakdown(b: Board, root: Player, w: Weights): seq<Component> {
    [Component("material", Bounded(MaterialScore(b, root, w)))] + Features(Balance(b, root), w.features)
  }

  /** The whole evaluation. A finished match scores as a mate or a draw at ply 0; any other position scores
      within the heuristic range; and the reported components always add up to the score. */
  method Evaluate(b: Board, root: Player, w: Weights) returns (r: Result<Evaluated, EvaluationError>)
    ensures r.Ok? <==> Score(b, root, w).Some?
    ensures r.Ok? ==> r.value.score == Score(b, root, w).value
    ensures r.Ok? ==> Sum(r.value.components) == r.value.score
    ensures r.Ok? && b.outcome.None? ==> -MAX_HEURISTIC_SCORE <= r.value.score <= MAX_HEURISTIC_SCORE
    ensures r.Ok? && b.outcome.None? ==>
              && |r.value.components| == (if Total(b, root, w) == r.value.score then FEATURES + 1 else FEATURES + 2)
              && r.value.components[..FEATURES + 1] == Breakdown(b, root, w)
  {
    if w.schemaVersion != SCHEMA_VERSION {
      return Err(Failed);
    }
    if b.outcome.Some? {
      var score := TerminalScore(b.outcome.value, root, 0);
      var only := [Component("terminal", score)];
      assert only[..0] == [];
      return Ok(Evaluated(score, only));
    }
    var features := RawFeatures(b, root, w);
    if features.Err? {
      return Err(Failed);
    }
    var (material, raw) := features.value;
    var head := [Component("material", Bounded(material))];
    var components := head + Features(raw, w.features);
    var total := 0;
    for i := 0 to |components|
      invariant total == Sum(components[..i])
    {
      assert components[..i + 1][..i] == components[..i];
      total := total + components[i].value;
    }
    assert components[..|components|] == components;
    SumConcat(head, Features(raw, w.features));
    assert head[..0] == [];
    assert total == Total(b, root, w);
    var score := Bounded(total);
    var reported := components;
    if total != score {
      reported := components + [Component("score_bound", score - total)];
      assert reported[..|reported| - 1] == components;
    }
    assert reported[..FEATURES + 1] == components;
    return Ok(Evaluated(score, reported));
  }

  // ----- zero sum -----

  lemma WeightedOdd(raw: int, weight: int)
    ensures Weighted(-raw, weight) == -Weighted(raw, weight)
  {
    assert (-raw) * weight == -(raw * weight);
  }

  lemma {:induction false} SumOdd(a: seq<Component>, b: seq<Component>)
    requires |a| == |b| && forall i :: 0 <= i < |a| ==> a[i].value == -b[i].value
    ensures Sum(a) == -Sum(b)
  {
    if a != [] {
      SumOdd(a[..|a| - 1], b[..|b| - 1]);
    }
  }

  lemma FeatureTotalOdd(b: Board, root: Player, w: Weights)
    ensures FeatureTotal(b, root.Opponent(), w) == -FeatureTotal(b, root, w)
  {
    var mine := Features(Balance(b, root), w.features);
    var theirs := Features(Balance(b, root.Opponent()), w.features);
    forall k | 0 <= k < FEATURES
      ensures theirs[k].value == -mine[k].value
    {
      WeightedOdd(Balance(b, root)[k], w.features[k]);
    }
    SumOdd(theirs, mine);
  }

  /** The two sides' material cancels until the first saturation; from then on it is off by exactly one for
      good, because the 32-bit range is one wider below zero than above. */
  lemma {:induction false} MaterialMirror(mine: seq<int>, theirs: seq<int>, n: nat)
    requires |mine| == |theirs| && n <= |mine|
    requires forall i :: 0 <= i < |mine| ==> theirs[i] == -mine[i]
    ensures ExactMaterial(theirs, n) == -ExactMaterial(mine, n)
    ensures !Saturates(mine, n) ==> Material(mine, n) == ExactMaterial(mine, n)
    ensures Material(mine, n) + Material(theirs, n) == if Saturates(mine, n) then -1 else 0
  {
    if n > 0 {
      MaterialMirror(mine, theirs, n - 1);
    }
  }

  lemma WorthsOdd(pieces: seq<Piece>, root: Player, w: Weights, i: nat)
    requires i < |pieces|
    ensures Worths(pieces, root.Opponent(), w)[i] == -Worths(pieces, root, w)[i]
  {
    WeightedOdd(1, PieceValue(pieces[i].kind, w));
  }

  /** Up to this many pieces stay within 32 bits at any weights. */
  const FEW_PIECES: nat := 4294

  lemma {:induction false} FewPiecesFit(worths: seq<int>, n: nat)
    requires n <= |worths| && n <= FEW_PIECES && InRange(worths)
    ensures -500_000 * n <= ExactMaterial(worths, n) <= 500_000 * n
    ensures !Saturates(worths, n)
  {
    if n > 0 {
      FewPiecesFit(worths, n - 1);
    }
  }

  /** One piece on every square of the largest board. */
  const MOST_PIECES: nat := 4096

  function Cell(at: Coord): nat {
    at.y * MAX_SIDE + at.x
  }

  lemma CellsDiffer(at: Coord, other: Coord)
    requires at != other && at.x < MAX_SIDE && other.x < MAX_SIDE
    ensures Cell(at) != Cell(other)
  {
  }

  /** The first attack query already rules out more pieces than a board has squares. */
  lemma PiecesFitTheBoard(b: Board)
    requires PiecesAnswer(b, |b.pieces|)
    ensures |b.pieces| <= MOST_PIECES
  {
    if b.pieces != [] {
      assert PieceAnswers(b, b.pieces[0]);
      var cells := seq(|b.pieces|, i requires 0 <= i < |b.pieces| => Cell(b.pieces[i].at));
      forall i | 0 <= i < |cells|
        ensures Within(b, b.pieces[i].at) && cells[i] < MOST_PIECES
      {
        assert PieceAnswers(b, b.pieces[i]);
      }
      forall i, j | 0 <= i < j < |cells|
        ensures cells[i] != cells[j]
      {
        CellsDiffer(b.pieces[i].at, b.pieces[j].at);
      }
      Counting.Pigeonhole(cells, MOST_PIECES);
    }
  }

  /** So material never saturates where the evaluation succeeds: what the loop adds up is the exact sum. */
  lemma MaterialIsExact(b: Board, root: Player, w: Weights)
    requires PiecesAnswer(b, |b.pieces|)
    ensures MaterialScore(b, root, w) == ExactMaterial(Worths(b.pieces, root, w), |b.pieces|)
    ensures MaterialScore(b, root.Opponent(), w) == -MaterialScore(b, root, w)
  {
    var mine, theirs := Worths(b.pieces, root, w), Worths(b.pieces, root.Opponent(), w);
    PiecesFitTheBoard(b);
    forall i | 0 <= i < |b.pieces|
      ensures theirs[i] == -mine[i]
    {
      WorthsOdd(b.pieces, root, w, i);
    }
    FewPiecesFit(mine, |b.pieces|);
    MaterialMirror(mine, theirs, |b.pieces|);
  }

  /** Zero sum, without exception: for all positions and weights the evaluation succeeds for one side exactly when it
      does for the other, and then the two scores cancel. */
  lemma ZeroSumExactly(b: Board, root: Player, w: Weights)
    ensures Score(b, root.Opponent(), w) == Mate.Negated(Score(b, root, w))
  {
    if b.outcome.None? && w.schemaVersion == SCHEMA_VERSION && Answers(b) {
      FeatureTotalOdd(b, root, w);
      MaterialIsExact(b, root, w);
    }
  }

  // ----- 32 bits are enough -----

  lemma NearestOnBoard(b: Board, at: Coord)
    requires Validated(b) && Within(b, at) && b.promotionSites != []
    ensures Nearest(at, b.promotionSites) <= 2 * MAX_SIDE
  {
    var site := b.promotionSites[0];
    assert Within(b, site);
    assert Nearest(at, b.promotionSites) <= Distance(at.x, site.x) + Distance(at.y, site.y);
  }

  lemma TallyFits(b: Board, piece: Piece, k: nat)
    requires PieceAnswers(b, piece) && |b.pieces| <= MOST_PIECES
    ensures -4096 <= PieceTally(b, piece, k) <= 4096
  {
    assert piece.owner == North || piece.owner == South;
    if b.promotionSites != [] {
      NearestOnBoard(b, piece.at);
    }
  }

  /** Wherever the attack queries succeed, every partial sum of the piece loop fits 32 bits with room to spare. */
  lemma {:induction false} PieceFeaturesFit(b: Board, root: Player, n: nat, k: nat)
    requires PiecesAnswer(b, |b.pieces|) && n <= |b.pieces|
    ensures |b.pieces| <= MOST_PIECES
    ensures var balance := PieceSum(b, root, n, k) - PieceSum(b, root.Opponent(), n, k);
            -4096 * n <= balance <= 4096 * n && I32_MIN < balance < I32_MAX
  {
    PiecesFitTheBoard(b);
    if n > 0 {
      PieceFeaturesFit(b, root, n - 1, k);
      assert PieceAnswers(b, b.pieces[n - 1]);
      TallyFits(b, b.pieces[n - 1], k);
    }
  }

  lemma PieceBalancesFit(b: Board, root: Player)
    requires PiecesAnswer(b, |b.pieces|)
    ensures |b.pieces| <= MOST_PIECES
    ensures forall k :: 0 <= k < FEATURES ==>
              I32_MIN < PieceSum(b, root, |b.pieces|, k) - PieceSum(b, root.Opponent(), |b.pieces|, k) < I32_MAX
  {
    PiecesFitTheBoard(b);
    forall k | 0 <= k < FEATURES
      ensures I32_MIN < PieceSum(b, root, |b.pieces|, k) - PieceSum(b, root.Opponent(), |b.pieces|, k) < I32_MAX
    {
      PieceFeaturesFit(b, root, |b.pieces|, k);
    }
  }

  /** How many settlements a 16-bit index tells apart. */
  const MOST_SITES: nat := 65_536

  predicate Indexed(b: Board) {
    |b.sites| <= MOST_SITES && (b.phase.ResolvingChoices? ==> |b.phase.queue| <= MOST_SITES)
  }

  lemma {:induction false} SiteSumFits(b: Board, player: Player, n: nat, k: nat)
    requires n <= |b.sites| && |b.pieces| <= MOST_PIECES
    ensures 0 <= SiteSum(b, player, n, k) <= 4096 * n
  {
    if n > 0 {
      SiteSumFits(b, player, n - 1, k);
    }
  }

  lemma {:induction false} QueueBonusFits(queue: seq<Choice>)
    ensures QueueBonus(queue) <= 3 * |queue|
  {
    if queue != [] {
      QueueBonusFits(queue[1..]);
    }
  }

  lemma WholeFits(b: Board, player: Player, k: nat)
    requires b.phase.ResolvingChoices? ==> |b.phase.queue| <= MOST_SITES
    ensures 0 <= Whole(b, player, k) <= I32_MAX
    ensures k !in {PAWN_CONNECTION, MOBILITY} ==> Whole(b, player, k) <= 200_000
  {
    if b.phase.ResolvingChoices? {
      QueueBonusFits(b.phase.queue);
    }
  }

  /** And so does every feature of the whole position, given no more settlements and pending choices than
      16-bit indices allow. */
  lemma RawFeaturesFit(b: Board, root: Player, k: nat)
    requires Answers(b) && k < FEATURES && Indexed(b)
    ensures I32_MIN < Balance(b, root)[k] <= I32_MAX
  {
    var opponent := root.Opponent();
    PieceFeaturesFit(b, root, |b.pieces|, k);
    SiteSumFits(b, root, |b.sites|, k);
    SiteSumFits(b, opponent, |b.sites|, k);
    WholeFits(b, root, k);
    WholeFits(b, opponent, k);
    if k in {PAWN_CONNECTION, MOBILITY} {
      PiecesHaveNoWhole(b, root, |b.pieces|, k);
      PiecesHaveNoWhole(b, opponent, |b.pieces|, k);
      SitesHaveNoWhole(b, root, |b.sites|, k);
      SitesHaveNoWhole(b, opponent, |b.sites|, k);
    }
  }

  lemma RawFits(b: Board, root: Player)
    requires Answers(b)
    ensures Indexed(b) ==> forall k :: 0 <= k < FEATURES ==> I32_MIN < Balance(b, root)[k] <= I32_MAX
  {
    if Indexed(b) {
      forall k | 0 <= k < FEATURES
        ensures I32_MIN < Balance(b, root)[k] <= I32_MAX
      {
        RawFeaturesFit(b, root, k);
      }
    }
  }

  // ----- the search with this evaluator -----

  /** The game is evaluated by these weights, through some view of its positions. */
  ghost predicate Evaluates<P(!new)>(g: Game<P>, view: P -> Board, w: Weights) {
    forall p :: view(p).outcome == g.outcome(p) && forall player: Player :: g.evaluate(p, player) == Score(view(p), player, w)
  }

  /** Wherever the match is still open the search takes the evaluator's score as it is: it never finds it
      out of range. */
  lemma NeverOutOfRange<P(!new)>(g: Game<P>, view: P -> Board, w: Weights, root: Player, p: P)
    requires Evaluates(g, view, w) && g.outcome(p).None?
    ensures Heuristic(g, root, p) == g.evaluate(p, root)
  {
    assert view(p).outcome.None?;
  }

  /** The search with this evaluator may be read from either side. */
  lemma SearchIsZeroSum<P(!new)>(g: Game<P>, view: P -> Board, w: Weights)
    requires Evaluates(g, view, w)
    ensures Mate.ZeroSum(g)
  {
    forall p, player: Player
      ensures g.evaluate(p, player.Opponent()) == Mate.Negated(g.evaluate(p, player))
    {
      ZeroSumExactly(view(p), player, w);
      assert view(p).outcome == g.outcome(p);
    }
  }
}
