/** The fog presentation: whose view of the board is on the screen, and the hot-seat handoff between seats. */
module Fog {
  import opened Rules

  const U64_MAX: nat := 0xFFFF_FFFF_FFFF_FFFF

  /** A projection of a match for one seat, with whatever it shows. `matchId` says which match it is a view of;
      no step looks at it. */
  datatype View<T> = View(matchId: nat, seat: Player, scenarioId: string, revision: nat, shown: T)

  /** The match on display. `matchId` tells one match from another, also of the same scenario; no step looks at it. */
  datatype Match<S> = Match(
    matchId: nat, scenarioId: string, fog: bool, active: Player, revision: nat, ended: bool, state: S
  )

  /** What a seat is shown of a match; the projection may fail. */
  type Projection<!S, T> = (Match<S>, Player) -> Option<T>

  datatype Phase =
    | Disabled
    | AwaitingHandoff(player: Player)
    | Presenting(player: Player, scenarioId: string, revision: nat)
    | OnlinePresenting(seat: Player, scenarioId: string, revision: nat)

  datatype Presentation<T> = Presentation(phase: Phase, view: Option<View<T>>, confirmed: bool)

  // ----- the transitions -----

  function Project<S, T>(project: Projection<S, T>, m: Match<S>, player: Player): Option<View<T>> {
    match project(m, player)
    case None => None
    case Some(shown) => Some(View(m.matchId, player, m.scenarioId, m.revision, shown))
  }

  function Present<T>(f: Presentation<T>, view: View<T>): Presentation<T> {
    f.(phase := Presenting(view.seat, view.scenarioId, view.revision), view := Some(view))
  }

  function RequireHandoff<S, T>(f: Presentation<T>, m: Match<S>): Presentation<T> {
    f.(phase := if m.fog then AwaitingHandoff(m.active) else Disabled, view := None)
  }

  function InstallOnline<T>(view: View<T>): Presentation<T> {
    Presentation(OnlinePresenting(view.seat, view.scenarioId, view.revision), Some(view), false)
  }

  function Confirm<S, T>(f: Presentation<T>, project: Projection<S, T>, m: Match<S>): Presentation<T> {
    if !f.phase.AwaitingHandoff? then f
    else if f.phase.player != m.active then RequireHandoff(f, m)
    else
      match Project(project, m, f.phase.player)
      case None => RequireHandoff(f, m)
      case Some(view) => Present(f, view).(confirmed := true)
  }

  predicate Confirms<S, T>(f: Presentation<T>, project: Projection<S, T>, m: Match<S>) {
    f.phase == AwaitingHandoff(m.active) && project(m, m.active).Some?
  }

  function PresentOrHandOff<S, T>(f: Presentation<T>, project: Projection<S, T>, m: Match<S>): Presentation<T> {
    match Project(project, m, m.active)
    case None => RequireHandoff(f, m)
    case Some(view) => Present(f, view)
  }

  /** Still the same seat's turn, at most one revision later. */
  predicate Continues<S>(phase: Phase, m: Match<S>)
    requires phase.Presenting?
  {
    && phase.player == m.active
    && phase.scenarioId == m.scenarioId
    && phase.revision <= m.revision <= (if phase.revision < U64_MAX then phase.revision + 1 else U64_MAX)
  }

  function Reconcile<S, T>(f: Presentation<T>, project: Projection<S, T>, m: Match<S>): Presentation<T> {
    if !m.fog then RequireHandoff(f, m)
    else if m.ended then PresentOrHandOff(f, project, m)
    else
      match f.phase
      case Disabled => RequireHandoff(f, m)
      case AwaitingHandoff(_) => f
      case OnlinePresenting(_, _, _) => f
      case Presenting(player, _, revision) =>
        if !Continues(f.phase, m) then RequireHandoff(f, m)
        else if m.revision != revision then PresentOrHandOff(f, project, m)
        else f
  }

  predicate Blocks<S, T>(f: Presentation<T>, m: Match<S>) {
    && m.fog
    && !(f.phase.Presenting? && f.phase.player == m.active && f.phase.revision == m.revision)
    && !(f.phase.OnlinePresenting? && f.phase.revision == m.revision)
  }

  // ----- runs -----

  /** The presentation, the match behind it, the player of the last successful confirmation, and how many matches
      have begun. */
  datatype System<S, T> = System(fog: Presentation<T>, game: Match<S>, holder: Option<Player>, begun: nat)

  /** The match on display changes, or another one takes its place; an online view arrives together with the
      match it is a view of; and the presentation goes through its own operations. */
  datatype Event<S, T> =
    | GameChanges(game: Match<S>)
    | MatchBegins(game: Match<S>)
    | OnlineView(game: Match<S>, seat: Player, shown: T)
    | FrameStarts
    | Reconciles
    | Confirmation
    | Handoff

  function Next<S, T>(s: System<S, T>, project: Projection<S, T>, e: Event<S, T>): System<S, T> {
    match e
    case GameChanges(game) => s.(game := game.(matchId := s.game.matchId))
    case MatchBegins(game) => s.(game := game.(matchId := s.begun), begun := s.begun + 1)
    case OnlineView(game, seat, shown) =>
      var id := if game.matchId < s.begun then game.matchId else s.begun;
      s.(game := game.(matchId := id),
         fog := InstallOnline(View(id, seat, game.scenarioId, game.revision, shown)),
         begun := if id < s.begun then s.begun else s.begun + 1)
    case FrameStarts => s.(fog := s.fog.(confirmed := false))
    case Reconciles => s.(fog := Reconcile(s.fog, project, s.game))
    case Confirmation =>
      s.(fog := Confirm(s.fog, project, s.game),
         holder := if Confirms(s.fog, project, s.game) then Some(s.game.active) else s.holder)
    case Handoff => s.(fog := RequireHandoff(s.fog, s.game))
  }

  function Run<S, T>(s: System<S, T>, project: Projection<S, T>, events: seq<Event<S, T>>): System<S, T>
    decreases |events|
  {
    if events == [] then s else Run(Next(s, project, events[0]), project, events[1..])
  }

  function Initial<S, T>(game: Match<S>): System<S, T> {
    System(Presentation(Disabled, None, false), game.(matchId := 0), None, 1)
  }

  /** A view is held exactly in the two presenting phases, and is the one the phase names. */
  predicate Fits<T>(f: Presentation<T>) {
    match f.phase
    case Disabled => f.view == None
    case AwaitingHandoff(_) => f.view == None
    case Presenting(player, id, revision) =>
      f.view.Some? && f.view.value.seat == player && f.view.value.scenarioId == id && f.view.value.revision == revision
    case OnlinePresenting(seat, id, revision) =>
      f.view.Some? && f.view.value.seat == seat && f.view.value.scenarioId == id && f.view.value.revision == revision
  }

  /** In every run the curtain is real: waiting for a handoff, or with fog off, no view is held at all; and a
      held view is the one the phase announces. */
  lemma {:induction false} ReachableFits<S, T>(s: System<S, T>, project: Projection<S, T>, events: seq<Event<S, T>>)
    requires Fits(s.fog)
    ensures Fits(Run(s, project, events).fog)
    decreases |events|
  {
    if events != [] {
      ReachableFits(Next(s, project, events[0]), project, events[1..]);
    }
  }

  /** After a reconcile a local view on a fog scenario is the active player's, of this scenario, at the current
      revision, and local input is open exactly then or for an online view of that revision. */
  lemma ReconcileIsCurrent<S, T>(f: Presentation<T>, project: Projection<S, T>, m: Match<S>)
    requires Fits(f)
    ensures var f' := Reconcile(f, project, m);
            && Fits(f')
            && (!m.fog ==> f'.phase == Disabled && !Blocks(f', m))
            && (m.fog ==> !f'.phase.Disabled?)
            && (m.fog && f'.phase.Presenting? ==>
                  && f'.view.value.seat == m.active
                  && f'.view.value.scenarioId == m.scenarioId
                  && f'.view.value.revision == m.revision)
            && (m.fog && !f'.phase.OnlinePresenting? ==> (!Blocks(f', m) <==> f'.view.Some?))
            && (m.fog && f'.phase.OnlinePresenting? ==> (!Blocks(f', m) <==> f'.view.value.revision == m.revision))
  {
  }

  /** While a fog match runs, a local view stays exactly for the same player to move, in the same scenario, at its own
      revision or the next one; at the next one it is taken anew, if it can be. Anything else asks for a handoff. */
  lemma ViewContinuesExactly<S, T>(f: Presentation<T>, project: Projection<S, T>, m: Match<S>)
    requires Fits(f) && f.phase.Presenting? && m.fog && !m.ended && m.revision <= U64_MAX
    ensures var f' := Reconcile(f, project, m);
            var same := f.phase.player == m.active && f.phase.scenarioId == m.scenarioId;
            if same && m.revision == f.phase.revision then f' == f
            else if same && m.revision == f.phase.revision + 1 && project(m, m.active).Some? then
              && f'.phase == Presenting(m.active, m.scenarioId, m.revision)
              && f'.view == Some(View(m.matchId, m.active, m.scenarioId, m.revision, project(m, m.active).value))
            else f'.phase == AwaitingHandoff(m.active) && f'.view == None
  {
  }

  /** Over a finished fog match the board opens for the player to move without a handoff, if it can be shown. */
  lemma EndedMatchOpens<S, T>(f: Presentation<T>, project: Projection<S, T>, m: Match<S>)
    requires m.fog && m.ended
    ensures var f' := Reconcile(f, project, m);
            match project(m, m.active)
            case None => f'.phase == AwaitingHandoff(m.active) && f'.view == None
            case Some(shown) =>
              && f'.phase == Presenting(m.active, m.scenarioId, m.revision)
              && f'.view == Some(View(m.matchId, m.active, m.scenarioId, m.revision, shown))
  {
  }

  /** A confirmation opens the view of the player to move, for whom the handoff waits, and raises the flag; one that
      cannot asks for that player's handoff; where none is awaited it does nothing. */
  lemma ConfirmExactly<S, T>(f: Presentation<T>, project: Projection<S, T>, m: Match<S>)
    ensures var f' := Confirm(f, project, m);
            if !f.phase.AwaitingHandoff? then f' == f
            else if f.phase.player == m.active && project(m, m.active).Some? then
              && f'.phase == Presenting(m.active, m.scenarioId, m.revision) && f'.confirmed
              && f'.view == Some(View(m.matchId, m.active, m.scenarioId, m.revision, project(m, m.active).value))
            else f' == Presentation(if m.fog then AwaitingHandoff(m.active) else Disabled, None, f.confirmed)
  {
  }

  /** Reconciling again without a change does nothing. */
  lemma ReconcileIdempotent<S, T>(f: Presentation<T>, project: Projection<S, T>, m: Match<S>)
    ensures var f' := Reconcile(f, project, m); Reconcile(f', project, m) == f'
  {
  }

  // ----- whose match the view is of -----

  /** Matches are numbered as they begin. */
  predicate Identified<S, T>(s: System<S, T>) {
    Fits(s.fog) && s.game.matchId < s.begun && (s.fog.view.Some? ==> s.fog.view.value.matchId < s.begun)
  }

  /** A reconcile that takes a new view: of a finished match, or of the same seat one revision on. */
  predicate Reprojects<S, T>(f: Presentation<T>, project: Projection<S, T>, m: Match<S>) {
    && m.fog && project(m, m.active).Some?
    && (m.ended || (f.phase.Presenting? && Continues(f.phase, m) && m.revision != f.phase.revision))
  }

  /** The steps that take a view of the match on display. */
  predicate Takes<S, T>(s: System<S, T>, project: Projection<S, T>, e: Event<S, T>) {
    match e
    case OnlineView(_, _, _) => true
    case Confirmation => Confirms(s.fog, project, s.game)
    case Reconciles => Reprojects(s.fog, project, s.game)
    case _ => false
  }

  /** Whether another match has begun since a view was last taken. */
  predicate Overtaken<S, T>(s: System<S, T>, project: Projection<S, T>, events: seq<Event<S, T>>, already: bool)
    decreases |events|
  {
    if events == [] then already
    else
      Overtaken(Next(s, project, events[0]), project, events[1..],
                events[0].MatchBegins? || (already && !Takes(s, project, events[0])))
  }

  predicate Belongs<S, T>(s: System<S, T>) {
    s.fog.view.Some? ==> s.fog.view.value.matchId == s.game.matchId
  }

  lemma StepBelongs<S, T>(s: System<S, T>, project: Projection<S, T>, e: Event<S, T>, already: bool)
    requires Identified(s) && (s.fog.view.Some? ==> (Belongs(s) <==> !already))
    ensures var s' := Next(s, project, e);
            && Identified(s')
            && (s'.fog.view.Some? ==> (Belongs(s') <==> !(e.MatchBegins? || (already && !Takes(s, project, e)))))
  {
  }

  /** In every run a view on the screen is of the match on display exactly when no other match has begun since
      the last step that took a view. */
  lemma {:induction false} ViewBelongsUntilOvertaken<S, T>(s: System<S, T>, project: Projection<S, T>, events: seq<Event<S, T>>,
                                                           already: bool)
    requires Identified(s) && (s.fog.view.Some? ==> (Belongs(s) <==> !already))
    ensures var end := Run(s, project, events);
            Identified(end) && (end.fog.view.Some? ==> (Belongs(end) <==> !Overtaken(s, project, events, already)))
    decreases |events|
  {
    if events != [] {
      StepBelongs(s, project, events[0], already);
      ViewBelongsUntilOvertaken(Next(s, project, events[0]), project, events[1..],
                                events[0].MatchBegins? || (already && !Takes(s, project, events[0])));
    }
  }

  /** When the next match fits the phase so well that the old view is kept. */
  predicate KeepsOldView<S>(phase: Phase, next: Match<S>) {
    && next.fog && !next.ended
    && match phase
       case Disabled => false
       case AwaitingHandoff(_) => false
       case Presenting(player, scenarioId, revision) =>
         player == next.active && scenarioId == next.scenarioId && revision == next.revision
       case OnlinePresenting(_, _, revision) => revision == next.revision
  }

  /** A match that begins is played over the view of another one exactly when the phase does not notice the
      change: an online view of the same revision number, whatever its seat and scenario, or a local one of the
      same player, scenario and revision. */
  lemma OpenViewBelongs<S, T>(s: System<S, T>, project: Projection<S, T>, next: Match<S>)
    requires Identified(s) && next.revision <= U64_MAX
    ensures var after := Run(s, project, [MatchBegins(next), Reconciles]);
            && (next.fog && !Blocks(after.fog, after.game) ==> after.fog.view.Some?)
            && (next.fog && !Blocks(after.fog, after.game) && !Belongs(after) <==> KeepsOldView(s.fog.phase, next))
  {
    RunOfTwo(s, project, MatchBegins(next), Reconciles);
  }

  lemma RunOfTwo<S, T>(s: System<S, T>, project: Projection<S, T>, first: Event<S, T>, second: Event<S, T>)
    ensures Run(s, project, [first, second]) == Next(Next(s, project, first), project, second)
  {
    var events := [first, second];
    var s1 := Next(s, project, first);
    var s2 := Next(s1, project, second);
    assert events[1..] == [second] && events[1..][1..] == [];
    assert Run(s2, project, []) == s2;
    assert Run(s1, project, events[1..]) == s2;
  }

  /** It happens: an online view of a scenario at its first revision for one seat, then a fresh local match of the
      same scenario with the other seat to move. Input is open over the online seat's view. */
  lemma OnlineViewOutlivesItsMatch<S, T>(project: Projection<S, T>, game: Match<S>, next: Match<S>, seat: Player, shown: T)
    requires next.fog && !next.ended && next.revision == game.revision == 0
    requires next.scenarioId == game.scenarioId && next.active != seat
    ensures var s := Next(Initial(game), project, OnlineView(game, seat, shown));
            var after := Run(s, project, [MatchBegins(next), Reconciles]);
            && after.fog.view == s.fog.view && after.fog.view.value.seat != after.game.active
            && !Belongs(after) && !Blocks(after.fog, after.game)
  {
    var s := Next(Initial(game), project, OnlineView(game, seat, shown));
    RunOfTwo(s, project, MatchBegins(next), Reconciles);
  }

  /** And at any other revision the online view blocks: no frame, reconcile or confirmation of a running fog match
      releases it. */
  lemma {:induction false} OnlineViewBlocks<S, T>(s: System<S, T>, project: Projection<S, T>, events: seq<Event<S, T>>)
    requires s.fog.phase.OnlinePresenting? && s.game.fog && !s.game.ended && s.fog.phase.revision != s.game.revision
    requires forall i :: 0 <= i < |events| ==> events[i] in {FrameStarts, Reconciles, Confirmation}
    ensures var end := Run(s, project, events);
            && Blocks(end.fog, end.game) && end.game == s.game
            && end.fog.phase == s.fog.phase && end.fog.view == s.fog.view
    decreases |events|
  {
    if events != [] {
      OnlineViewBlocks(Next(s, project, events[0]), project, events[1..]);
    }
  }

  /** A hot-seat run: no online view, and no step taken while the match on display is over. */
  predicate HotSeat<S, T>(s: System<S, T>, project: Projection<S, T>, events: seq<Event<S, T>>)
    decreases |events|
  {
    events == [] || (!s.game.ended && !events[0].OnlineView? && HotSeat(Next(s, project, events[0]), project, events[1..]))
  }

  predicate Held<S, T>(s: System<S, T>) {
    Fits(s.fog) && !s.fog.phase.OnlinePresenting? && (s.fog.view.Some? ==> s.holder == Some(s.fog.view.value.seat))
  }

  /** A step of a hot-seat run shows a player's view only if that player's view was already showing, or the step
      is that player's own successful confirmation. */
  lemma StepKeepsHeld<S, T>(s: System<S, T>, project: Projection<S, T>, e: Event<S, T>)
    requires Held(s) && !s.game.ended && !e.OnlineView?
    ensures var s' := Next(s, project, e);
            && Held(s')
            && (s'.fog.view.Some? && (s.fog.view.None? || s.fog.view.value.seat != s'.fog.view.value.seat) ==>
                  e.Confirmation? && Confirms(s.fog, project, s.game) && s'.fog.view.value.seat == s.game.active)
  {
  }

  /** So throughout a hot-seat run the view on the screen is that of the last player to confirm. */
  lemma {:induction false} OnlyConfirmationChangesSeat<S, T>(s: System<S, T>, project: Projection<S, T>, events: seq<Event<S, T>>)
    requires Held(s) && HotSeat(s, project, events)
    ensures Held(Run(s, project, events))
    decreases |events|
  {
    if events != [] {
      StepKeepsHeld(s, project, events[0]);
      OnlyConfirmationChangesSeat(Next(s, project, events[0]), project, events[1..]);
    }
  }

  /** While a fog match runs, only the player to move can be shown after a reconcile; so when the turn passes,
      the next player's view waits for that player to confirm. */
  lemma TurnPassesThroughHandoff<S, T>(s: System<S, T>, project: Projection<S, T>, next: Match<S>)
    requires Held(s) && next.fog && !next.ended && s.fog.view.Some? && next.active != s.fog.view.value.seat
    ensures var after := Run(s, project, [GameChanges(next), Reconciles]);
            && after.fog.phase == AwaitingHandoff(next.active) && after.fog.view == None && Blocks(after.fog, after.game)
            && (Next(after, project, Confirmation).fog.view.Some? <==> project(after.game, next.active).Some?)
  {
    RunOfTwo(s, project, GameChanges(next), Reconciles);
  }

  // ----- the presentation in place -----

  class FogPresentation<!S, T> {
    const project: Projection<S, T>
    var phase: Phase
    var view: Option<View<T>>
    var confirmedThisFrame: bool

    ghost function Now(): Presentation<T>
      reads this
    {
      Presentation(phase, view, confirmedThisFrame)
    }

    ghost predicate Valid()
      reads this
    {
      Fits(Now())
    }

    constructor (project: Projection<S, T>)
      ensures this.project == project && Valid() && Now() == Presentation(Disabled, None, false)
    {
      this.project := project;
      phase, view, confirmedThisFrame := Disabled, None, false;
    }

    method InstallOnlineView(v: View<T>)
      modifies this
      ensures Valid() && Now() == InstallOnline(v)
    {
      phase := OnlinePresenting(v.seat, v.scenarioId, v.revision);
      view := Some(v);
      confirmedThisFrame := false;
    }

    method BlocksLocalInput(m: Match<S>) returns (blocked: bool)
      ensures blocked <==> Blocks(Now(), m)
    {
      var local := phase.Presenting? && phase.player == m.active && phase.revision == m.revision;
      var online := phase.OnlinePresenting? && phase.revision == m.revision;
      blocked := m.fog && !(local || online);
    }

    method HandOff(m: Match<S>)
      modifies `phase, `view
      ensures Valid() && Now() == RequireHandoff(old(Now()), m)
    {
      if m.fog {
        phase := AwaitingHandoff(m.active);
        view := None;
      } else {
        phase := Disabled;
        view := None;
      }
    }

    method ConfirmHandoff(m: Match<S>) returns (confirmed: bool)
      requires Valid()
      modifies this
      ensures Valid() && Now() == Confirm(old(Now()), project, m)
      ensures confirmed <==> old(Confirms(Now(), project, m))
      ensures confirmed ==> view.Some? && view.value.seat == m.active && view.value.revision == m.revision && confirmedThisFrame
    {
      if !phase.AwaitingHandoff? {
        return false;
      }
      if phase.player != m.active {
        HandOff(m);
        return false;
      }
      var projected := Project(project, m, phase.player);
      if projected.None? {
        HandOff(m);
        return false;
      }
      view := projected;
      confirmedThisFrame := true;
      phase := Presenting(phase.player, m.scenarioId, m.revision);
      return true;
    }

    method ReconcileWith(m: Match<S>)
      requires Valid()
      modifies `phase, `view
      ensures Valid() && Now() == Reconcile(old(Now()), project, m)
    {
      if !m.fog {
        phase := Disabled;
        view := None;
        return;
      }
      if m.ended {
        Show(m);
        return;
      }
      match phase
      case Disabled => HandOff(m);
      case AwaitingHandoff(_) =>
      case OnlinePresenting(_, _, _) =>
      case Presenting(player, scenarioId, revision) =>
        if !Continues(phase, m) {
          HandOff(m);
        } else if m.revision != revision {
          Show(m);
        }
    }

    method Show(m: Match<S>)
      requires m.fog
      modifies `phase, `view
      ensures Valid() && Now() == PresentOrHandOff(old(Now()), project, m)
    {
      var projected := Project(project, m, m.active);
      if projected.Some? {
        view := projected;
        phase := Presenting(m.active, m.scenarioId, m.revision);
      } else {
        HandOff(m);
      }
    }

    /** The start of a frame: the flag is cleared, the phase follows the match, and Enter may confirm. A frame
        that confirms opens the view but not the input: the flag is up. */
    method Prepare(m: Match<S>, enter: bool)
      requires Valid()
      modifies this
      ensures Valid()
      ensures var reconciled := Reconcile(old(Now()).(confirmed := false), project, m);
              Now() == if enter then Confirm(reconciled, project, m) else reconciled
      ensures confirmedThisFrame ==> enter && !m.ended
      ensures confirmedThisFrame && m.revision <= U64_MAX ==> old(phase) != Presenting(m.active, m.scenarioId, m.revision)
    {
      confirmedThisFrame := false;
      ReconcileWith(m);
      if enter {
        var _ := ConfirmHandoff(m);
      }
    }
  }
}
