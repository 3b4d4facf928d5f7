# Crownlines verification

Crownlines is a chess-like strategy game with settlements, promotion sites, clocks, fog and online play. This
project models the parts of it whose correctness is hardest to see from one function at a time, and proves
what they promise. `dafny verify dfyconfig.toml` checks everything.

| file | what it models |
|---|---|
| Counting.dfy | distinct sequences, sets and the pigeonhole principle |
| Rules.dfy | players, actions and their keys, the enumeration of search actions, an opaque position type |
| Minimax.dfy | plain minimax with the search's quiescence rules: the reference |
| AlphaBeta.dfy | fail-soft alpha-beta with quiescence as a pure function, and its relation to the reference |
| TieBreak.dfy | which action a completed search returns |
| Mate.dfy | what decisive scores certify |
| Effort.dfy | what the unstopped search visits and asks, counted over its tree and windows |
| Search.dfy | the search as it runs: budgets, cancellation, iterative deepening |
| Evaluation.dfy | the static evaluation |
| Sensitivity.dfy | what each part of a position is worth in the evaluation |
| Actor.dfy | the actor that decides the commands of one match |
| OnlineClient.dfy | the client's pending command and outbox |
| OnlineSystem.dfy | clients, network, actors and store as one step system |
| Snapshots.dfy | reconciling incoming snapshots |
| Clock.dfy | the chess clock and the local frame clock |
| AiJobs.dfy | the local AI worker, its channel and its epoch |
| GuidedContent.dfy | guided stages and their prerequisite graph |
| GuidedPlay.dfy | a guided session and its resume record |
| Fog.dfy | the fog presentation and the hot-seat handoff |
| Coordinates.dfy | file labels and board geometry |

## How to read it

The search is modelled twice. `AlphaBeta` holds the pure function an exploration computes when nothing stops
it, and `Search.SearchContext` holds the methods that count nodes, ask an oracle before every step and unwind
when told to stop; each method is proved to return the pure function's result or a true stop reason. `Effort`
counts what the pure search visits, action by action, and each method is proved to stop exactly when the count
at its end would pass a budget or a check would ask to stop, and to have counted exactly that much when it
completes. So an iteration is completed exactly when it fits (`Search.AlphaBetaSearch`, `Search.IterationsCounted`).
The oracle is any function from the number of the check to an answer, so every theorem about a search holds for
every behaviour of the cancellation token and the deadline. Move generation, the reducer, tactical signals
and the evaluator are the fields of a record of arbitrary functions, each of which may fail. `Minimax.Value`
takes a parameter `fault`, the value given to a node where one of them fails; since exactness is proved for
every `fault`, a completed score never rests on such a node.

The tie rule of a node compares a fail-soft bound with an exact score (`search.rs:328-336`), so the score of a
completed search is exact for every orderer, but its action is the least-key optimal one for certain only when
the root actions are searched in ascending key order. `TieBreak.RootOrderCondition` proves that this condition
is exact, and `TieBreak.ShippedOrdererMisleads` gives positions where the shipped orderer returns an action
that is worth 3 when another is worth 5.

The online protocol is a step system. Everything ever sent stays in a set, so a message may arrive any number
of times, late, or never; any number of actors for a match may be live at once; a fatal failure may or may not
have been committed. The only thing the actors share is the durable table, whose primary key on match and
revision (`database.rs:197-222`) refuses a second row for a revision: that is the compare-and-set that
`OnlineSystem` relies on. An expired clock is rejected and committed, so a rejection may raise the revision.

Some more properties hold under an exact condition, with the failing case proved beside it.

- The bounded cache of an actor can forget a rejection and then execute the command again. For one decision,
  `Actor.StepExactly` says when: the answers match an unbounded memo's for every behaviour of the executor if
  and only if no forgotten rejection is executed. For a set of commands, `Actor.CacheSuffices` gives the
  condition on the commands alone: however they are ordered, duplicated and lost, from whatever revision, the
  cap never shows if and only if at most that many of them expect the same revision. `Actor.AcceptedAtMostOnce`
  needs no condition.
- A timeout cannot be recorded at the largest revision, so frames may be split freely exactly when it can or
  when one millisecond is left (`Clock.PartitionCondition`).
- Retrying a guided stage keeps the session sound exactly when the session is not complete
  (`GuidedPlay.RetryExactly`).
- The fog phase does not know which match its view is of. A match that begins is played over the view of
  another exactly when the phase does not notice: an online view of the same revision number, whatever its seat
  and scenario, or a local one of the same player, scenario and revision (`Fog.OpenViewBelongs`,
  `Fog.OnlineViewOutlivesItsMatch`). At any other revision an online view blocks the new match
  (`Fog.OnlineViewBlocks`). In every run a view belongs to the match on display exactly when no other match has
  begun since it was taken (`Fog.ViewBelongsUntilOvertaken`).
- The AI answers no position twice exactly as long as the epoch counter has room for every restore and pause
  (`AiJobs.AnsweredOnceExactly`).
- The AI runtime stalls exactly when a worker panics (`AiJobs.OnlyPanicsStall`).

Material saturates at 32 bits, but never where the evaluation succeeds: the first attack query validates the
board, a valid board has at most 64 by 64 squares, and no two pieces share one. So the two sides' scores always
cancel (`Evaluation.ZeroSumExactly`), and the unsaturated features fit 32 bits. The tallies that the evaluation
adds up are pinned from outside, in `Sensitivity`, by how the answer changes: one piece, one step, one settlement
or one field more or less, or by sets counted on the position (attacks, touching pawns, open ranks).

A frame of the AI driver reads the current key before it applies a result, so the frame that applies an action
starts another job under the key it has just used up (`AiJobs.ApplyingFrameRespawns`); the next frame cancels
it, and `AiJobs.PositionsAnsweredOnce`, over the epoch, session, revision and position that keys are read
from, shows that its result is never applied. A worker that panics exits without
sending; since the runtime keeps a sender of its own, the branch for a disconnected channel cannot be taken,
and the job it leaves behind stays active for good (`AiJobs.StalledForGood`).

## Model

| member | source | states |
|---|---|---|
| `Rules.KeysOrderActions` | crates/crownline_ai/src/lib.rs:171-197 | action keys order actions totally and transitively, and distinct actions have distinct keys |
| `Rules.KeyOrderByFields` | crates/crownline_ai/src/lib.rs:171-197 | keys compare actions of one player by kind, then field by field, squares by row and promotions from the queen down |
| `Rules.LegalActionsExact` | crates/crownline_ai/src/lib.rs:204-233 | the enumeration is exactly the pending choices, or exactly the legal moves plus an accepted Hold, in ascending key order; a finished match has none |
| `Rules.SortBySorted` | crates/crownline_ai/src/lib.rs:204-233 | sorting by a rank leaves no element before one of smaller rank |
| `Minimax.BestIsExtreme` | crates/crownline_ai/src/search.rs:296-364 | the reference value of a full-width node is attained by some child and bettered by none |
| `Minimax.BestOrderFree` | crates/crownline_ai/src/search.rs:296-364 | that value does not depend on the order of the children |
| `Minimax.QuietBestIsExtreme` | crates/crownline_ai/src/search.rs:366-467 | the reference value of a quiescence node is the best of standing pat and the tried actions |
| `Minimax.QuietBestOrderFree` | crates/crownline_ai/src/search.rs:366-467 | that value does not depend on the order of the actions |
| `Minimax.QuietOverlooksNothing` | crates/crownline_ai/src/search.rs:87-102 | quiescence is worth to the mover at least every legal capture, check, realm event, promotion choice, finished child, and everything in check or while choices are pending |
| `Minimax.QuietMayStandPat` | crates/crownline_ai/src/search.rs:388-412 | outside check and pending choices it is worth at least the static evaluation |
| `Minimax.QuietIsStatic` | crates/crownline_ai/src/search.rs:366-467 | at depth 0, or with nothing but silent actions into open positions, it is the static evaluation |
| `Minimax.QuietMustMove` | crates/crownline_ai/src/search.rs:380-412 | in check or with a choice pending its value is that of some legal action, whatever standing pat says |
| `Minimax.QuietIsAttained` | crates/crownline_ai/src/search.rs:414-467 | its value is the static one or that of some legal action it had to try |
| `Minimax.ValueIsBestChild` | crates/crownline_ai/src/search.rs:264-364 | a full-width node is worth exactly its best legal action to the side to move |
| `Minimax.ValueAtLeaf` | crates/crownline_ai/src/lib.rs:236-247 | a finished match is worth a mate less the plies played or nothing, and an open position at the horizon its quiescence or evaluation |
| `AlphaBeta.AbsorbTracks` | crates/crownline_ai/src/search.rs:328-364 | one loop iteration keeps the window and the best bound consistent with the true value of the children so far, and a cutoff is sound for whatever remains |
| `AlphaBeta.PriorIsFollowed` | crates/crownline_ai/src/search.rs:313-317 | the previous variation guides the search along itself only |
| `AlphaBeta.QuiescenceExact` | crates/crownline_ai/src/search.rs:366-467 | a completed quiescence score bounds the reference value outside its window and equals it inside, for every window, orderer and depth |
| `AlphaBeta.QuietLoopExact` | crates/crownline_ai/src/search.rs:414-467 | the same for the loop over noisy or forced actions from any intermediate frontier |
| `AlphaBeta.ExploreExact` | crates/crownline_ai/src/search.rs:264-293 | fail-soft exactness of alpha-beta against minimax, for every position, depth, window, orderer and prior variation |
| `AlphaBeta.ExpandExact` | crates/crownline_ai/src/search.rs:296-364 | the same for the child loop from any intermediate frontier |
| `AlphaBeta.QuiescenceWitness` | crates/crownline_ai/src/search.rs:366-467 | the variation of a quiescence node replays legally to a position with the reported score |
| `AlphaBeta.ExploreWitness` | crates/crownline_ai/src/search.rs:337-364 | the variation of a node replays legally to a position whose terminal score at that ply, or evaluation, is the reported score |
| `AlphaBeta.WitnessInRange` | crates/crownline_ai/src/lib.rs:241-247 | any witnessed score lies within plus or minus the mate score, so the root window encloses it |
| `AlphaBeta.RootExact` | crates/crownline_ai/src/search.rs:243-262 | a completed iteration reports exactly the minimax value of its depth, with a non-empty legal variation that reaches it |
| `AlphaBeta.DeepenExact` | crates/crownline_ai/src/search.rs:144-228 | the same for every iteration of iterative deepening, guided by the previous variation |
| `AlphaBeta.OrderIndependence` | crates/crownline_ai/src/search.rs:243-364 | two orderers that permute their input give the same completed score |
| `AlphaBeta.ExploreCompletes` | crates/crownline_ai/src/search.rs:264-484 | an exploration fails only if the rules or the evaluator do |
| `AlphaBeta.DeepenCompletes` | crates/crownline_ai/src/search.rs:144-228 | every iteration completes when the rules and the evaluator never fail |
| `TieBreak.ExpandLeastKey` | crates/crownline_ai/src/search.rs:296-364 | over ascending root actions the loop ends with the least-key action of optimal value |
| `TieBreak.AscendingRootIsOptimal` | crates/crownline_ai/src/search.rs:243-364 | with root actions in ascending key order a completed iteration returns the least-key action of optimal minimax value |
| `TieBreak.KeptEnumerationIsOptimal` | crates/crownline_ai/src/lib.rs:204-233 | an orderer that keeps the enumeration's order returns the least-key optimal action |
| `TieBreak.OutOfOrderMisleads` | crates/crownline_ai/src/search.rs:328-336 | for any two adjacent root actions out of key order some game makes a completed search return the worse one |
| `TieBreak.RootOrderCondition` | crates/crownline_ai/src/search.rs:328-336 | over the two-ply games of the counterexample, a root order of distinct actions always yields a least-key optimal action if and only if it is ascending; that ascending suffices in every game is AscendingRootIsOptimal |
| `TieBreak.StableOrderAscends` | crates/crownline_ai/src/search.rs:21-85 | the shipped orderer permutes its input, and is ascending exactly when no larger key has a more urgent priority |
| `TieBreak.ShippedOrder` | crates/crownline_ai/src/search.rs:21-85 | the shipped orderer puts the prior action first, then captures, checks and realm events, and orders equals by key |
| `TieBreak.ShippedOrdererMisleads` | crates/crownline_ai/src/search.rs:21-85 | with the shipped orderer a completed search can return an action worth 3 where another is worth 5 |
| `Mate.ValueMate` | crates/crownline_ai/src/search.rs:264-467 | a minimax value beyond the heuristic range is a forced win within the plies it names |
| `Mate.ForcedWinIsSeen` | crates/crownline_ai/src/search.rs:264-364 | a win that can be forced within the full-width depth is valued beyond the heuristic range, at no greater distance |
| `Mate.MateCertificate` | crates/crownline_ai/src/lib.rs:241-247 | a completed score above the heuristic range means the root player can force a win within the mate score minus the score in plies |
| `Mate.MateDistanceExact` | crates/crownline_ai/src/lib.rs:241-247 | within the full-width horizon the score says a win in n plies exactly when a win in n plies can be forced |
| `Mate.MirrorValue` | crates/crownline_ai/src/lib.rs:236-247 | mirroring the evaluator around the root player negates the opponent's minimax value, for every evaluator |
| `Mate.ValueMirror` | crates/crownline_ai/src/lib.rs:236-247 | with a zero-sum evaluator the minimax value for one player is the negation of the other's |
| `Mate.LossCertificate` | crates/crownline_ai/src/lib.rs:241-247 | a completed score below the heuristic range means the opponent can force a win within its distance, whatever the evaluator |
| `Mate.LossDistanceExact` | crates/crownline_ai/src/lib.rs:241-247 | within the full-width horizon the score says a loss in n plies exactly when the opponent can force one |
| `Effort.ExploreGrows` | crates/crownline_ai/src/search.rs:264-293 | an exploration visits at least its own node and takes no count back |
| `Effort.QuiescenceGrows` | crates/crownline_ai/src/search.rs:366-413 | quiescence visits at least its own quiescence node and no full-width node |
| `Effort.ExpandGoesOn` | crates/crownline_ai/src/search.rs:296-364 | the child loop, one action at a time: what it visits and returns, from any frontier |
| `Effort.QuietLoopGoesOn` | crates/crownline_ai/src/search.rs:414-467 | the quiescence loop, one action at a time, passing over quiet actions at the price of a check |
| `Effort.FirstIterationVisits` | crates/crownline_ai/src/search.rs:243-293 | the first iteration visits the root and every child exactly once, and without quiescence asks once for the root and twice for every action |
| `Effort.SilentQuiescenceVisits` | crates/crownline_ai/src/search.rs:366-467 | quiescence in a silent position visits that position alone, and asks once for it and once for every action |
| `Effort.DeepenGrows` | crates/crownline_ai/src/search.rs:182-201 | deeper iterations only add to the counts |
| `Search.SearchContext.constructor` | crates/crownline_ai/src/search.rs:144-228 | a context starts with nothing counted and nothing asked |
| `Search.SearchContext.CheckExternalStop` | crates/crownline_ai/src/search.rs:512-524 | one check, and a stop exactly when it says so, for its reason |
| `Search.SearchContext.CheckStop` | crates/crownline_ai/src/search.rs:504-510 | no stop exactly while the check says go and one more node is left |
| `Search.SearchContext.VisitNode` | crates/crownline_ai/src/search.rs:486-493 | counts one node, or stops truly exactly when the check or the budget says so |
| `Search.SearchContext.VisitQuiescenceNode` | crates/crownline_ai/src/search.rs:495-502 | the same for one quiescence node |
| `Search.SearchContext.Root` | crates/crownline_ai/src/search.rs:243-262 | the pure iteration's result and exactly its counts, or a true stop exactly when those counts pass a limit |
| `Search.SearchContext.AlphaBeta` | crates/crownline_ai/src/search.rs:264-293 | the pure exploration's result and exactly its counts, or a true stop exactly when those counts pass a limit, whatever the oracle |
| `Search.SearchContext.Expand` | crates/crownline_ai/src/search.rs:296-364 | the same for the child loop that updates the window and the best child |
| `Search.SearchContext.ExpandOne` | crates/crownline_ai/src/search.rs:308-325 | the same for one action of that loop, from the check before it |
| `Search.SearchContext.Quiescence` | crates/crownline_ai/src/search.rs:366-413 | the same for quiescence, with the count of quiescence nodes |
| `Search.SearchContext.QuietMoves` | crates/crownline_ai/src/search.rs:414-467 | the same for the quiescence loop |
| `Search.SearchContext.QuietOne` | crates/crownline_ai/src/search.rs:414-432 | the same for one action of that loop, from the check before it |
| `Search.SearchContext.Iterate` | crates/crownline_ai/src/search.rs:182-201 | the last completed iteration and why deepening ended; the next iteration is completed exactly when its counts stay within the limits |
| `Search.AlphaBetaSearch` | crates/crownline_ai/src/search.rs:144-228 | for every stop behaviour: the exact minimax score of the deepest completed iteration with a legal first action and a witnessing variation, or no action if none completed; an iteration is completed exactly when the counts up to its end fit, and if nothing asks to stop the depth limit is reached exactly when all of them fit both budgets; the stop reason is true; limits are refused by the stated bounds, other errors are those of the rules or the evaluator |
| `Search.DeepeningSearch` | crates/crownline_ai/src/search.rs:182-228 | the same for a position with a legal action, once its limits are accepted |
| `Search.IterationsCounted` | crates/crownline_ai/src/search.rs:182-228 | stopping after the last iteration that fits means completing exactly the iterations that fit, and the depth limit exactly when all fit |
| `Evaluation.Nearest` | crates/crownline_ai/src/evaluation.rs:353-361 | the least Manhattan distance to a promotion site, attained by one |
| `Evaluation.RealmFeatures` | crates/crownline_ai/src/evaluation.rs:405-450 | adds one side's settlement totals with its sign, and fails exactly when a query about its settlements does |
| `Evaluation.SiteFeatures` | crates/crownline_ai/src/evaluation.rs:412-432 | one settlement's contribution |
| `Evaluation.PieceFeatures` | crates/crownline_ai/src/evaluation.rs:245-292 | the signed loop gives, per feature, one side's pieces minus the other's, within 32 bits, and the saturating material; it fails exactly when an attack query does |
| `Evaluation.OnePieceFeatures` | crates/crownline_ai/src/evaluation.rs:246-292 | one piece's contribution |
| `Evaluation.WholeFeatures` | crates/crownline_ai/src/evaluation.rs:294-299 | the four features assigned after the loop |
| `Evaluation.RawFeatures` | crates/crownline_ai/src/evaluation.rs:239-303 | every feature is one side's standing minus the other's, within 32 bits for 16-bit counts of settlements and choices, and the call fails exactly when some query does, whichever side asks |
| `Evaluation.Evaluate` | crates/crownline_ai/src/evaluation.rs:89-194 | the components always sum to the score; an open position scores within the heuristic range; a closed one scores as a mate or draw; a bound component appears exactly when the clamp bites |
| `Evaluation.MaterialMirror` | crates/crownline_ai/src/evaluation.rs:245-258 | two opposite saturating sums cancel until the first saturation and are off by exactly one ever after |
| `Evaluation.Attackers` | crates/crownline_core/src/rules.rs:316-347 | an attack query succeeds exactly on a validated board with the target on it, and counts no more pieces than there are |
| `Evaluation.PiecesFitTheBoard` | crates/crownline_core/src/state.rs:531-548 | where the attack queries succeed there are at most 64 times 64 pieces |
| `Evaluation.MaterialIsExact` | crates/crownline_ai/src/evaluation.rs:245-258 | so the saturating sum is the exact one, and the two sides' are opposite |
| `Evaluation.PieceFeaturesFit` | crates/crownline_ai/src/evaluation.rs:245-292 | every partial sum of the piece loop fits 32 bits |
| `Evaluation.RawFeaturesFit` | crates/crownline_ai/src/evaluation.rs:239-303 | every feature of a position fits 32 bits, given 16-bit counts of settlements and choices |
| `Evaluation.ZeroSumExactly` | crates/crownline_ai/src/evaluation.rs:89-210 | for all positions and weights both sides' calls succeed together, and then their scores cancel |
| `Evaluation.NeverOutOfRange` | crates/crownline_ai/src/search.rs:469-484 | the search never finds this evaluator's score of an open position out of range |
| `Evaluation.SearchIsZeroSum` | crates/crownline_ai/src/evaluation.rs:89-194 | a game evaluated by it is zero-sum, so the search may be read from either side |
| `Sensitivity.NewPieceMaterial` | crates/crownline_ai/src/evaluation.rs:249-258 | one piece more raises its owner's material by exactly the weight of its kind, a king by nothing, within the range of a component |
| `Sensitivity.NewPieceCentre` | crates/crownline_ai/src/evaluation.rs:328-336 | one piece more raises its owner's centre access by its closeness to the middle of the board |
| `Sensitivity.NewPieceTerrain` | crates/crownline_ai/src/evaluation.rs:270-281 | one piece more is worth 2 on a road, -1 in a forest and 0 elsewhere |
| `Sensitivity.NewPawnAdvancement` | crates/crownline_ai/src/evaluation.rs:338-351 | a pawn more adds the rows it has gone in its direction; another piece nothing |
| `Sensitivity.NewPawnDistance` | crates/crownline_ai/src/evaluation.rs:353-361 | a pawn more adds its closeness to the nearest promotion site; another piece, or a board without sites, nothing |
| `Sensitivity.NewPawnCandidate` | crates/crownline_ai/src/evaluation.rs:284-292 | a pawn more adds its candidate streak |
| `Sensitivity.MoveOntoTerrain` | crates/crownline_ai/src/evaluation.rs:270-281 | from open ground to a road is worth 2, to a forest costs 1 |
| `Sensitivity.StepTowardsCentre` | crates/crownline_ai/src/evaluation.rs:328-336 | every step towards the middle is worth 2 |
| `Sensitivity.PawnSteps` | crates/crownline_ai/src/evaluation.rs:338-361 | a pawn's move is worth the rows gained in its direction and the steps it comes nearer to the nearest promotion site |
| `Sensitivity.ChecksCounted` | crates/crownline_ai/src/evaluation.rs:296-297 | a king in check counts 1 against its side |
| `Sensitivity.MovesCounted` | crates/crownline_ai/src/evaluation.rs:313-326 | legal moves count against the opponent's while a command is awaited, and nothing otherwise |
| `Sensitivity.TiersCounted` | crates/crownline_ai/src/evaluation.rs:385-403 | the tier is 1 to 4 by the three thresholds, and the ranks open to pending choices are added for the side that makes them |
| `Sensitivity.PawnPairsCounted` | crates/crownline_ai/src/evaluation.rs:363-383 | pawn structure is the number of unordered pairs of a side's pawns that touch, against the opponent's |
| `Sensitivity.AttacksCounted` | crates/crownline_ai/src/evaluation.rs:259-268 | piece safety is the number of defences less the number of attacks of a side's pieces, against the opponent's |
| `Sensitivity.SiteChanged` | crates/crownline_ai/src/evaluation.rs:412-421 | each field of an owned settlement moves its own feature, and no other |
| `Sensitivity.SiteTaken` | crates/crownline_ai/src/evaluation.rs:412-432 | a settlement gained adds ownership, its governors, its founder's safety and its fields, and nothing else |
| `Sensitivity.ComponentsExactly` | crates/crownline_ai/src/evaluation.rs:89-186 | a reported component is its feature times its weight, within the range of a component |
| `Actor.DecideKeepsCache` | crates/crownline_server/src/actors.rs:217-269 | deciding a command keeps the eviction queue equal to the cached keys, without duplicates, within the cap |
| `Actor.DrainKeepsCache` | crates/crownline_server/src/actors.rs:212-278 | so does any queue of commands |
| `Actor.StepRefines` | crates/crownline_server/src/actors.rs:217-269 | one decision of the bounded actor is the unbounded actor's, or Stale to an evicted key, or the execution of a forgotten rejection |
| `Actor.BoundedCacheRefinesMemo` | crates/crownline_server/src/actors.rs:217-269 | over every run without that last case the bounded actor answers as one with an unbounded memo, except Stale to keys it has evicted |
| `Actor.StepExactly` | crates/crownline_server/src/actors.rs:217-269 | a decision's answer matches the memo's, whatever the executor does, exactly when it does not execute a forgotten rejection |
| `Actor.RunExactly` | crates/crownline_server/src/actors.rs:217-278 | the answers match in every run of the same commands exactly when no such run executes a forgotten rejection |
| `Actor.FewRivalsSuffice` | crates/crownline_server/src/actors.rs:249-266 | with at most cap commands an expected revision, the evicted key always belongs to an earlier revision and every answer matches |
| `Actor.CacheSuffices` | crates/crownline_server/src/actors.rs:217-278 | the answers match in every order, duplication and loss of a set of commands, from every revision, exactly when at most cap of them expect the same revision |
| `Actor.AcceptedAtMostOnce` | crates/crownline_server/src/actors.rs:217-269 | in every run an accepted key is only ever answered again with its acceptance, Stale or unavailable |
| `Actor.ForgottenRejectionExecutesAgain` | crates/crownline_server/src/actors.rs:249-266 | for every cap, cap further rejections make a rejected key executable again |
| `Actor.FatalFailureEnds` | crates/crownline_server/src/actors.rs:270-275 | after a failed command every later one finds the actor gone, and decisions, queue and snapshot stay as they were before it |
| `Actor.UnavailableExactly` | crates/crownline_server/src/actors.rs:212-278 | a command finds the actor gone exactly if it was gone at the start or has failed before |
| `Actor.FailedExactly` | crates/crownline_server/src/actors.rs:217-275 | a command fails exactly if the live actor executes it and the executor breaks |
| `Actor.ExecutedAnswerRepeats` | crates/crownline_server/src/actors.rs:217-269 | an executed command is answered with what the executor did, and the same command sent again is answered alike and changes nothing |
| `Actor.MatchActor.constructor` | crates/crownline_server/src/actors.rs:212-221 | a fresh actor has an empty cache |
| `Actor.MatchActor.Record` | crates/crownline_server/src/actors.rs:244-252 | a decision is cached and the oldest leaves once the cap is passed |
| `Actor.MatchActor.Run` | crates/crownline_server/src/actors.rs:212-278 | the loop answers a whole queue as the decision function does; after a failure the actor is gone and every later command unavailable |
| `OnlineClient.OnlineConnection.SubmitAction` | src/local_interaction.rs:638-663 | a pending command is neither replaced nor queued behind |
| `OnlineClient.OnlineConnection.QueueAction` | src/online_connection.rs:373-421 | an intent becomes the pending command under a new key exactly when nothing is pending and a match is active, with the intent's action and revision, that match and the seat of the connection; one the channel refused is due for a retry at once |
| `OnlineClient.OnlineConnection.Retry` | src/online_connection.rs:486-507 | the pending command is sent again, unchanged, exactly when the connection is up, its timeout has passed and the channel has room, and then not again before another timeout |
| `OnlineClient.OnlineConnection.ReceiveAcknowledgement` | src/online_connection.rs:655-680 | only an acknowledgement of the pending match and key clears it |
| `OnlineClient.OnlineConnection.ReceiveRejection` | src/online_connection.rs:701-741 | any rejection clears the pending command unless it is retryable and not stale, which restarts its timeout |
| `OnlineClient.OnlineConnection.Abandon` | src/online_connection.rs:590-614 | authentication failure and a forgotten seat drop command, intent and locks |
| `OnlineClient.OnlineConnection.RematchAccepted` | src/online_connection.rs:745-766 | an accepted rematch drops the match and its command |
| `OnlineSystem.OnlyCurrentActorsCommit` | crates/crownline_server/src/database.rs:197-222 | a served command leaves the store alone or appends the row after the durable revision, and only an actor at that revision can |
| `OnlineSystem.DecideAnswers` | crates/crownline_server/src/actors.rs:217-269 | what one decision may add to an actor's cache, and where an acceptance can come from |
| `OnlineSystem.AnswerRecorded` | crates/crownline_server/src/actors.rs:225-254 | every acceptance an actor answers or caches names a durable row of that key |
| `OnlineSystem.StepKeepsInv` | crates/crownline_server/src/actors.rs:131-278 | every step of clients, network, actors and store keeps the chain, the keys and the answers consistent |
| `OnlineSystem.AtMostOnce` | src/online_connection.rs:391-417 | in every run each idempotency key commits at most one row, and a key whose client was told "accepted" is committed with the command it was issued for |
| `OnlineSystem.OnlyTakenActionsCommit` | src/online_connection.rs:373-421 | in every run from a start without intents each issued command, and so each row, carries the action and revision of an earlier board action of the client that issued its key, with its seat and a match it had joined |
| `OnlineSystem.AcceptedChain` | crates/crownline_server/src/actors.rs:225-254 | in every run the durable history is one row a revision, each for a command that expected exactly the revision before it; no two acceptances share a revision |
| `OnlineSystem.HistoryGrows` | crates/crownline_server/src/actors.rs:225-254 | no step rewrites a row or lowers the durable revision |
| `Snapshots.ReceiveIsMonotone` | src/online_connection.rs:767-842 | one delivery, with no assumption on the sender, does not lower the displayed revision while a last snapshot is known, and an equal-revision conflict never overwrites the display |
| `Snapshots.OnlyPlaceableChanges` | src/online_connection.rs:1035-1124 | nothing changes but for a snapshot that describes its own state, of the active match if any, in a scenario installed with its hash, also when no snapshot is known |
| `Snapshots.RefusalsExactly` | src/online_connection.rs:1035-1124 | which refusal is given, and that a refused snapshot changes nothing |
| `Snapshots.ResyncExactly` | src/online_connection.rs:767-842 | a resync is wanted from a divergence or an accepted rematch until it is sent or a seat is joined or restored |
| `Snapshots.BreaksExactly` | src/online_connection.rs:640-842 | the known snapshot is lost exactly by a reset or by a conflicting hash at the displayed revision |
| `Snapshots.RunIsMonotone` | src/online_connection.rs:640-842 | over every run between such losses the displayed revision never goes down, and only valid deliveries are ever shown |
| `Snapshots.ShowsNewer` | src/online_connection.rs:1035-1124 | of two acceptable snapshots the newer ends on display |
| `Snapshots.Converges` | src/online_connection.rs:1035-1124 | any order and duplication of consistent deliveries ends with the highest revision displayed |
| `Snapshots.OrderAndDuplicationIrrelevant` | src/online_connection.rs:1035-1124 | two clients delivered the same snapshots display the same state |
| `Snapshots.Display.Deliver` | src/online_connection.rs:767-842 | one delivery updates the display, the identity and the resync flag as the classification says |
| `Clock.AdvanceExact` | crates/crownline_core/src/clock.rs:64-109 | an advance charges the active player only; it ends the match exactly when the time is used up, zeroing that clock and raising the revision once |
| `Clock.AdvanceReports` | crates/crownline_core/src/clock.rs:64-109 | the events of an advance are its charge, if any, and the end of the match, if it ends |
| `Clock.PlayExact` | crates/crownline_core/src/clock.rs:117-151 | an action in time is the reducer's transition from the charged match plus the mover's increment; a late one is not played and loses on time |
| `Clock.StartsExactly` | crates/crownline_core/src/clock.rs:22-54 | a clock starts exactly within the stated bounds, for a match that has not begun, and changes nothing else |
| `Clock.StepBalances` | crates/crownline_core/src/clock.rs:117-151 | any single step balances: new time plus charge is old time plus increment |
| `Clock.LedgerBalances` | crates/crownline_core/src/clock.rs:27-151 | over every run each player's time is base plus increment times accepted Moves and Holds minus everything charged |
| `Clock.RunsInTime` | crates/crownline_core/src/clock.rs:27-151 | both clocks stay positive until the match ends |
| `Clock.FinishedIsFinal` | crates/crownline_core/src/clock.rs:64-109 | nothing changes a finished match, so a timeout raises the revision once |
| `Clock.AccumulateExact` | src/lifecycle.rs:537-541 | whole milliseconds and carry account for every nanosecond, and the carry is below a millisecond |
| `Clock.ElapseAdds` | crates/crownline_core/src/clock.rs:64-109 | charging two spans one after the other is charging their sum |
| `Clock.FramePartition` | src/lifecycle.rs:505-541 | any sequence of frames gives the same clocks, outcome and revision as one frame of the total, with the same carry while the match runs |
| `Clock.PartitionMattersAtLastRevision` | crates/crownline_core/src/clock.rs:64-109 | at the largest revision two splittings of the same time give different clocks |
| `Clock.PartitionCondition` | src/lifecycle.rs:505-541 | frames may be split freely exactly when the revision can be raised or one millisecond is left |
| `Clock.LocalClock.constructor` | src/lifecycle.rs:505-541 | a local clock starts without a carry |
| `Clock.LocalClock.AccumulateElapsed` | src/lifecycle.rs:537-541 | the carry is updated in place without losing time |
| `Clock.LocalClock.TickFrame` | src/lifecycle.rs:505-535 | one frame updates match and carry as the frame function does |
| `AiJobs.DriveKeepsOk` | src/local_ai.rs:165-262 | a frame keeps job, worker and channel consistent |
| `AiJobs.JobSafety` | src/local_ai.rs:123-262 | in every interleaving: no job means no worker and an empty channel, no result is ever dropped, no spawn is applied twice or after cancellation |
| `AiJobs.OnlyPanicsStall` | src/local_ai.rs:402-447 | in every run the runtime ends stalled, with a job that has neither worker nor result, exactly when some worker panicked |
| `AiJobs.StalledForGood` | src/local_ai.rs:212-221 | such a job is never ended, replaced or answered in any continuation |
| `AiJobs.AppliesOnlyCurrent` | src/local_ai.rs:165-266 | a frame applies only the active, uncancelled job's result, and only under the current key |
| `AiJobs.AppliesExactly` | src/local_ai.rs:197-221 | a result is applied exactly if it is an accepted action of the uncancelled job under the current key in an eligible frame |
| `AiJobs.StaleIsCancelled` | src/local_ai.rs:123-131 | a job is withdrawn at the first frame in which its key is not current or the AI is not to move |
| `AiJobs.FailureRemembered` | src/local_ai.rs:496-553 | an error, no action or a refused action is remembered as the failure of the current key, and starts nothing |
| `AiJobs.FailedKeyWaits` | src/local_ai.rs:223-262 | no run of frames does anything under a failed key that nobody retries or forfeits |
| `AiJobs.FailureForgotten` | src/local_ai.rs:223-246 | a failure is forgotten exactly by a retry or an accepted forfeit while its key is current |
| `AiJobs.StartsExactly` | src/local_ai.rs:223-262 | an idle frame starts a job exactly if the AI is to move under a key that has not failed or is retried |
| `AiJobs.EpochWithdraws` | src/local_ai.rs:92-99 | bumping the epoch withdraws a job at the next frame |
| `AiJobs.ApplyingFrameRespawns` | src/local_ai.rs:166-262 | the frame that applies a result starts another job under the key it has just used up |
| `AiJobs.FrameKeepsBehind` | src/local_ai.rs:165-262 | a frame leaves every applied key behind the displayed position and distinct from the others |
| `AiJobs.PositionsAnsweredOnce` | src/local_ai.rs:30-58 | over every run of frames, worker steps, local steps, pauses, restores and online snapshots no key is applied twice while the epoch counter lasts |
| `AiJobs.AnswerTwice` | src/local_ai.rs:92-99 | at the last epoch a restored position is answered again under the same key |
| `AiJobs.AnsweredOnceExactly` | src/local_ai.rs:92-99 | positions are answered once in every run with a given number of restores and pauses exactly when the epoch counter has room for them |
| `AiJobs.AiRuntime.constructor` | src/local_ai.rs:110-121 | the runtime starts idle |
| `AiJobs.AiRuntime.Cancel` | src/local_ai.rs:124-131 | cancelling marks the active job and nothing else |
| `AiJobs.AiRuntime.TakeResult` | src/local_ai.rs:197-221 | takes a message if there is one, reaps the job, and applies or fails the result only when it is current |
| `AiJobs.AiRuntime.StartNext` | src/local_ai.rs:223-262 | the retry and forfeit keys, and the next job |
| `AiJobs.AiRuntime.DriveFrame` | src/local_ai.rs:165-262 | a whole frame keeps the runtime consistent |
| `AiJobs.AiRuntime.FinishWork` | src/local_ai.rs:402-447 | the worker's send always finds room |
| `GuidedContent.VisitSorts` | crates/crownline_core/src/guided.rs:957-987 | the depth-first check finishes ids in a topological order |
| `GuidedContent.VisitSucceeds` | crates/crownline_core/src/guided.rs:957-987 | with a topological order to follow, the check never meets its own path |
| `GuidedContent.AcyclicExactly` | crates/crownline_core/src/guided.rs:957-987 | the cycle check accepts exactly the prerequisite graphs that some order of the stages respects |
| `GuidedContent.FirstAvailable` | src/guided_play.rs:1047-1060 | the first stage that is not completed and whose prerequisites are, and none only if there is no such stage |
| `GuidedContent.SomeStageAvailable` | src/guided_play.rs:1047-1060 | on authored content no stage is available exactly when every stage is completed |
| `GuidedContent.CompletedCount` | src/guided_play.rs:1558-1585 | distinct stage ids number at most the stages, and exactly as many when all are there |
| `GuidedPlay.ProcessKeepsSound` | src/guided_play.rs:966-1026 | one transition keeps completed stages ordered and the played stage the next one |
| `GuidedPlay.BeginSound` | src/guided_play.rs:661-739 | a started session plays an available stage |
| `GuidedPlay.RetryExactly` | src/guided_play.rs:879-911 | a retry keeps a session sound exactly when it is not complete |
| `GuidedPlay.ReplayedStageRepeats` | src/guided_play.rs:879-911 | a stage retried after completion and won again is listed twice |
| `GuidedPlay.RetriedCompletionAccepted` | src/guided_play.rs:1558-1585 | the structural checks accept the record of a retried completion, whose stage is already complete |
| `GuidedPlay.PersistedAccepted` | src/guided_play.rs:1465-1493 | what is persisted for a sound session passes the structural checks and resumes to a sound session |
| `GuidedPlay.StepKeepsInv` | src/guided_play.rs:661-1032 | every step but a retry after completion keeps session and resume record sound |
| `GuidedPlay.CompleteExactly` | src/guided_play.rs:1005-1020 | a session is complete exactly when every stage is, that is, as many as there are |
| `GuidedPlay.GuidedProgression` | src/guided_play.rs:853-1060 | in every run without a retry after completion: stages complete in topological order without repeats, the played stage is available, completion means all stages, hints stay within what exists, and the resume record passes the checks |
| `GuidedPlay.SuccessesFinish` | src/guided_play.rs:950-1032 | in any run, whatever the judge says, each success completes one stage, nothing else does, and the session is complete exactly when the successes number the stages that were left |
| `GuidedPlay.VerdictDecides` | src/guided_play.rs:988-1026 | a lost or broken verdict fails the session, a won one completes the stage, nothing else does either, and what comes after a failure or the last stage is ignored |
| `GuidedPlay.CountsExactly` | src/guided_play.rs:969-987 | the counters after a transition, up to 16 bits, and afresh for a new stage |
| `GuidedPlay.RevealsExactly` | src/guided_play.rs:853-876 | revealing n times shows n more hints of the current stage up to those it has, and touches nothing else |
| `GuidedPlay.RetryRestarts` | src/guided_play.rs:879-911 | a retry goes back to the start of the stage and keeps what is completed and shown |
| `GuidedPlay.LeaveAndResume` | src/guided_play.rs:742-850 | leaving an unfinished attempt and resuming it gives back the same session |
| `GuidedPlay.GuidedSession.constructor` | src/guided_play.rs:661-739 | a session starts at the first available stage with nothing completed |
| `GuidedPlay.GuidedSession.ProcessTransitions` | src/guided_play.rs:950-1032 | a batch updates the session as its transitions do one by one, and reports a change exactly when one found it running |
| `GuidedPlay.GuidedSession.ProcessOne` | src/guided_play.rs:966-1026 | one transition never indexes outside the content |
| `GuidedPlay.GuidedSession.Count` | src/guided_play.rs:969-987 | the saturating counters of a transition |
| `GuidedPlay.GuidedSession.Advance` | src/guided_play.rs:1004-1020 | a success completes the stage and moves on or completes the session |
| `GuidedPlay.GuidedSession.RetryStage` | src/guided_play.rs:879-911 | a retry resets the stage's counters and both flags |
| `GuidedPlay.GuidedSession.RevealHint` | src/guided_play.rs:853-876 | exactly one more hint of the current stage while it has one, and no other change |
| `Fog.ReachableFits` | src/rendering/fog.rs:56-177 | in every run no view is held while waiting for a handoff or with fog off, and a held view is the one the phase names |
| `Fog.ReconcileIsCurrent` | src/rendering/fog.rs:114-177 | after a reconcile a local view is the active player's at the current revision, and input is open exactly then or for an online view of that revision |
| `Fog.ViewContinuesExactly` | src/rendering/fog.rs:114-177 | a local view of a running match stays exactly for the same player and scenario at its revision or the next, taken anew at the next; anything else asks for a handoff |
| `Fog.EndedMatchOpens` | src/rendering/fog.rs:114-177 | a finished fog match opens for the player to move without a handoff, if it can be shown |
| `Fog.ConfirmExactly` | src/rendering/fog.rs:92-112 | a confirmation opens the awaited active player's current view and raises the flag, or asks for the active player's handoff |
| `Fog.ReconcileIdempotent` | src/rendering/fog.rs:114-177 | reconciling twice is reconciling once |
| `Fog.ViewBelongsUntilOvertaken` | src/rendering/fog.rs:56-177 | in every run a held view is of the match on display exactly when no other match has begun since a view was last taken |
| `Fog.OpenViewBelongs` | src/rendering/fog.rs:66-177 | a match that begins is open over another match's view exactly when the phase fits it: the same online revision, or the same local player, scenario and revision |
| `Fog.OnlineViewOutlivesItsMatch` | src/lifecycle.rs:449-464 | a fresh local match of the scenario just viewed online stands open over the other seat's view |
| `Fog.OnlineViewBlocks` | src/rendering/fog.rs:66-177 | an online view of another revision is released by no frame, reconcile or confirmation, and blocks a running fog match |
| `Fog.StepKeepsHeld` | src/rendering/fog.rs:80-177 | in hot-seat play a step shows a different player only if it is that player's successful confirmation |
| `Fog.OnlyConfirmationChangesSeat` | src/rendering/fog.rs:80-177 | throughout a hot-seat run the view belongs to the last player to confirm |
| `Fog.TurnPassesThroughHandoff` | src/rendering/fog.rs:114-177 | when the turn passes, the view is dropped and the next player's waits for confirmation |
| `Fog.FogPresentation.constructor` | src/rendering/fog.rs:33-41 | fog starts disabled without a view |
| `Fog.FogPresentation.InstallOnlineView` | src/rendering/fog.rs:56-64 | an online view replaces whatever was held |
| `Fog.FogPresentation.BlocksLocalInput` | src/rendering/fog.rs:66-78 | local input is blocked exactly when no presenting phase matches the match |
| `Fog.FogPresentation.HandOff` | src/rendering/fog.rs:80-90 | a handoff drops the view |
| `Fog.FogPresentation.ConfirmHandoff` | src/rendering/fog.rs:92-112 | a confirmation succeeds exactly for the awaited active player with a projection, and then shows that player's current view |
| `Fog.FogPresentation.ReconcileWith` | src/rendering/fog.rs:114-177 | the in-place reconcile keeps phase and view together |
| `Fog.FogPresentation.Prepare` | src/rendering/fog.rs:220-238 | the flag that withholds input is up only in a frame whose Enter confirmed a handoff of a running match |
| `Coordinates.FileLabel` | src/rendering/coordinates.rs:71-82 | the loop prints the label that decodes back to the file |
| `Coordinates.LabelsAreExact` | src/rendering/coordinates.rs:71-82 | printer and decoder are inverse on all files and all non-empty labels, so no two files share a label |
| `Coordinates.LabelsInOrder` | src/rendering/coordinates.rs:71-82 | the order of files is the shortlex order of their labels |
| `Coordinates.WorldToBoardExactly` | src/rendering/coordinates.rs:41-68 | a point maps to a coordinate exactly when it lies on its half-open tile, in both orientations, and to none otherwise |
| `Coordinates.RoundTrip` | src/rendering/coordinates.rs:27-68 | the centre of a tile maps back to its coordinate, and exists exactly on the board with a positive tile size |

## Left out

- Move generation, attack lines, governance, production, scenario validation and the reducer are arbitrary functions; hashing, RON and JSON are taken to be exact.
- Resignation and draw actions are not search actions and do not appear in `Rules.Action`.
- Wall-clock deadlines are folded into the stop oracle of the search; when a check happens is modelled, how long it takes is not.
- Search.SearchContext.CountCutoff: the number of cutoffs is kept within 64 bits but not otherwise specified, because no result depends on it.
- Search.SearchContext.Expand: after a failure of the rules or the evaluator the counters are not specified, here and in the other explorations, because such a search reports none.
- Sensitivity.NewPieceMaterial: stated for at most one piece a square of the largest board, as in the other counts of pieces, because the evaluation fails on any other board.
- TieBreak.RootOrderCondition: the necessity half is shown by two-ply games of one shape, not for every game.
- TieBreak.AscendingRootIsOptimal: the returned action is optimal only for an ascending root order, because the tie rule compares a bound with an exact score; the exact condition and the counterexamples are proved beside it.
- Evaluation.RawFeatures: the settlement list and the queue of choices have no bound of their own in the state; 32 bits are shown to be enough for up to 65536 of each.
- Evaluation.Attackers: identities, kings, references, terrain and metadata are checked by one flag, and which piece attacks or governs what is arbitrary.
- Evaluation.Evaluate: error texts are one error; which query failed first is not modelled.
- Actor.BoundedCacheRefinesMemo: excludes a forgotten rejection that is executed again, because the unbounded actor would repeat the rejection; `Actor.CacheSuffices` says exactly for which commands that can happen.
- Actor.MatchActor.Run: the queue is a sequence; queue capacity, the submitter's full and closed errors and task scheduling are not modelled. The registry appears as the loading and unloading of any number of live actors, so dropped handles with queued commands are covered and locking is not.
- OnlineSystem.AtMostOnce: idempotency keys are fresh; the journal's own duplicate check and its unique index on match and key are not needed and not modelled.
- Draw, resign, rematch and leave controls share the retry mechanism and are not modelled; neither are rooms, credentials and sockets.
- Snapshots.RunIsMonotone: a local match that replaces the displayed state while the last online snapshot is still remembered is not an arrival.
- Seat snapshots for online fog follow another path on divergence (`online_connection.rs:882-886`), to which `Snapshots` does not apply.
- Clock.AccumulateExact: seconds times 1000 is a mathematical product; its 64-bit overflow after half a billion years is not modelled.
- AiJobs.PositionsAnsweredOnce: whether an AI is due, and what the reducer accepts (including its refusal at the largest revision), is arbitrary in each frame.
- AiJobs.JobSafety: what the worker computes is arbitrary; the branch for a disconnected channel is left out because the runtime owns a sender.
- GuidedPlay.GuidedProgression: completion metrics, unlocking, several scenarios and the metadata limits of the progress document are not modelled, and how a stage judges a transition is arbitrary; a resume record is of the content being played.
- Fog.ReconcileIsCurrent: a view is current by revision; that a revision determines the position is a property of the match, not of the presentation.
- Coordinates.WorldToBoardExactly: over exact reals; rounding, infinities and the 16-bit conversion of single-precision floats are not modelled.
- GuidedContent.VisitSorts: the sets that the source's check updates in place are passed as values.
- Rendering, menus, help, camera, settings, difficulty tables, playtest counters and text are user interface.
