/** The chess clock: a ledger over whole runs, and frames of any size. */
module Clock {
  import opened Rules

  const MIN_BASE_MINUTES: nat := 1
  const MAX_BASE_MINUTES: nat := 180
  const MAX_INCREMENT_SECONDS: nat := 60
  const U64_MAX: nat := 0xFFFF_FFFF_FFFF_FFFF

  datatype Settings = Settings(baseMinutes: nat, incrementSeconds: nat)

  datatype Clocks = Clocks(north: nat, south: nat, increment: nat) {
    function Remaining(player: Player): nat {
      if player == North then north else south
    }

    function With(player: Player, millis: nat): Clocks {
      if player == North then this.(north := millis) else this.(south := millis)
    }
  }

  datatype Reason = Timeout | OtherReason

  datatype Outcome = Outcome(winner: Option<Player>, reason: Reason)

  /** The canonical state; `board` stands for everything the clock does not look at. */
  datatype MatchState = MatchState(
    revision: nat, turn: nat, active: Player, clocks: Option<Clocks>, outcome: Option<Outcome>, board: string
  )

  datatype Played = Move(player: Player, detail: string) | Hold(player: Player) | OtherAction(detail: string)

  datatype Event =
    | Advanced(player: Player, elapsed: nat, remaining: nat)
    | Incremented(player: Player, increment: nat, remaining: nat)
    | Ended(outcome: Outcome)

  datatype Transition = Transition(state: MatchState, events: seq<Event>)

  datatype Error =
    | InvalidBase | InvalidIncrement | AlreadyStarted | MustStartWithMatch
    | MatchFinished | RevisionOverflow | ClockOverflow | Illegal

  /** The reducer for ordinary actions. */
  type Reducer = (MatchState, Played) -> Option<MatchState>

  /** The reducer's contract: it leaves the clocks alone. */
  ghost predicate KeepsClocks(apply: Reducer) {
    forall s, a :: apply(s, a).Some? ==> apply(s, a).value.clocks == s.clocks
  }

  function StartClocks(s: MatchState, settings: Settings): Result<MatchState, Error> {
    if !(MIN_BASE_MINUTES <= settings.baseMinutes <= MAX_BASE_MINUTES) then Err(InvalidBase)
    else if settings.incrementSeconds > MAX_INCREMENT_SECONDS then Err(InvalidIncrement)
    else if s.clocks.Some? then Err(AlreadyStarted)
    else if s.revision != 0 || s.turn != 1 || s.outcome.Some? then Err(MustStartWithMatch)
    else
      var base := settings.baseMinutes * 60_000;
      Ok(s.(clocks := Some(Clocks(base, base, settings.incrementSeconds * 1_000))))
  }

  function AdvanceClock(s: MatchState, elapsed: nat): Result<Transition, Error> {
    if s.outcome.Some? then Err(MatchFinished)
    else
      match s.clocks
      case None => Ok(Transition(s, []))
      case Some(clocks) =>
        var remaining := clocks.Remaining(s.active);
        var charged := if elapsed < remaining then elapsed else remaining;
        var next := s.(clocks := Some(clocks.With(s.active, remaining - charged)));
        var events := if charged > 0 then [Advanced(s.active, charged, remaining - charged)] else [];
        if elapsed < remaining then Ok(Transition(next, events))
        else if s.revision >= U64_MAX then Err(RevisionOverflow)
        else
          var outcome := Outcome(Some(s.active.Opponent()), Timeout);
          Ok(Transition(next.(revision := s.revision + 1, outcome := Some(outcome)), events + [Ended(outcome)]))
  }

  function ApplyTimedAction(apply: Reducer, s: MatchState, a: Played, elapsed: nat): Result<Transition, Error> {
    match AdvanceClock(s, elapsed)
    case Err(error) => Err(error)
    case Ok(charged) => if charged.state.outcome.Some? then Ok(charged) else ApplyCharged(apply, charged, a)
  }

  /** The action itself, once its time has been charged: a Move or Hold earns its player the increment. */
  function ApplyCharged(apply: Reducer, charged: Transition, a: Played): Result<Transition, Error> {
    match apply(charged.state, a)
    case None => Err(Illegal)
    case Some(next) =>
      if (a.Move? || a.Hold?) && next.clocks.Some? then
        var clocks := next.clocks.value;
        var remaining := clocks.Remaining(a.player) + clocks.increment;
        if remaining > U64_MAX then Err(ClockOverflow)
        else
          Ok(Transition(next.(clocks := Some(clocks.With(a.player, remaining))),
                        charged.events + [Incremented(a.player, clocks.increment, remaining)]))
      else Ok(Transition(next, charged.events))
  }

  // ----- one advance -----

  /** An advance charges exactly the active player; it ends the match exactly when the time is used up,
      zeroing that clock alone and raising the revision once, with the win to the opponent. */
  lemma AdvanceExact(s: MatchState, elapsed: nat)
    requires s.clocks.Some? && s.outcome.None?
    ensures var remaining := s.clocks.value.Remaining(s.active);
            match AdvanceClock(s, elapsed)
            case Err(error) => error == RevisionOverflow && elapsed >= remaining && s.revision >= U64_MAX
            case Ok(t) =>
              && t.state.clocks.Some?
              && t.state.clocks.value.Remaining(s.active.Opponent()) == s.clocks.value.Remaining(s.active.Opponent())
              && t.state.active == s.active && t.state.board == s.board
              && (t.state.outcome.Some? <==> elapsed >= remaining)
              && (elapsed < remaining ==>
                    t.state.clocks.value.Remaining(s.active) == remaining - elapsed && t.state.revision == s.revision)
              && (elapsed >= remaining ==>
                    && t.state.clocks.value.Remaining(s.active) == 0
                    && t.state.revision == s.revision + 1
                    && t.state.outcome == Some(Outcome(Some(s.active.Opponent()), Timeout)))
  {
  }

  /** What an advance reports: the charge, if there was any, and the end of the match. */
  lemma AdvanceReports(s: MatchState, elapsed: nat)
    requires s.clocks.Some? && s.outcome.None? && AdvanceClock(s, elapsed).Ok?
    ensures var t := AdvanceClock(s, elapsed).value;
            var before, after := s.clocks.value.Remaining(s.active), t.state.clocks.value.Remaining(s.active);
            && (Advanced(s.active, before - after, after) in t.events <==> before > after)
            && (forall e :: e in t.events && e.Advanced? ==> e == Advanced(s.active, before - after, after))
            && (forall outcome :: Ended(outcome) in t.events <==> t.state.outcome == Some(outcome))
            && |t.events| == (if before > after then 1 else 0) + (if t.state.outcome.Some? then 1 else 0)
  {
  }

  /** A clock may be started exactly for a match that has not, with 1 to 180 minutes and at most 60 seconds a move;
      nothing else of the match changes. */
  lemma StartsExactly(s: MatchState, settings: Settings)
    ensures StartClocks(s, settings).Ok?
            <==> && 1 <= settings.baseMinutes <= 180 && settings.incrementSeconds <= 60
                 && s.clocks.None? && s.revision == 0 && s.turn == 1 && s.outcome.None?
    ensures StartClocks(s, settings).Ok? ==>
              var s' := StartClocks(s, settings).value;
              && s' == s.(clocks := s'.clocks) && s'.clocks.Some?
              && s'.clocks.value.north == s'.clocks.value.south == 60_000 * settings.baseMinutes
  {
  }

  /** A timed action that comes in time is the reducer's transition from the charged match, with the mover's increment
      added; one that comes late is not played at all: the match is lost on time as if nothing had been tried. */
  lemma PlayExact(apply: Reducer, s: MatchState, a: Played, elapsed: nat)
    requires KeepsClocks(apply) && s.clocks.Some? && s.outcome.None?
    ensures var remaining := s.clocks.value.Remaining(s.active);
            var result := ApplyTimedAction(apply, s, a, elapsed);
            if elapsed >= remaining then result == AdvanceClock(s, elapsed)
            else
              var played := apply(s.(clocks := Some(s.clocks.value.With(s.active, remaining - elapsed))), a);
              && (played.None? ==> result == Err(Illegal))
              && (played.Some? && a.OtherAction? ==> result.Ok? && result.value.state == played.value)
              && (played.Some? && !a.OtherAction? ==>
                    var time := played.value.clocks.value.Remaining(a.player) + s.clocks.value.increment;
                    if time > U64_MAX then result == Err(ClockOverflow)
                    else
                      && result.Ok?
                      && result.value.state == played.value.(clocks := Some(played.value.clocks.value.With(a.player, time)))
                      && Incremented(a.player, s.clocks.value.increment, time) in result.value.events)
  {
  }

  // ----- the ledger over runs -----

  datatype Step = Tick(elapsed: nat) | Play(action: Played, elapsed: nat)

  function Attempt(apply: Reducer, s: MatchState, step: Step): Result<Transition, Error> {
    match step
    case Tick(elapsed) => AdvanceClock(s, elapsed)
    case Play(a, elapsed) => ApplyTimedAction(apply, s, a, elapsed)
  }

  /** A failed step leaves the match as it was. */
  function After(apply: Reducer, s: MatchState, step: Step): Transition {
    match Attempt(apply, s, step)
    case Err(_) => Transition(s, [])
    case Ok(t) => t
  }

  /** The state and all events after a run. */
  function Run(apply: Reducer, s: MatchState, steps: seq<Step>): Transition {
    if steps == [] then Transition(s, [])
    else
      var before := Run(apply, s, steps[..|steps| - 1]);
      var t := After(apply, before.state, steps[|steps| - 1]);
      Transition(t.state, before.events + t.events)
  }

  /** Total time charged to a player. */
  function Charged(events: seq<Event>, player: Player): nat {
    if events == [] then 0
    else
      var last := events[|events| - 1];
      Charged(events[..|events| - 1], player) + if last.Advanced? && last.player == player then last.elapsed else 0
  }

  /** How many accepted Move or Hold actions a player has made: those that succeeded before time ran out. */
  function Commands(apply: Reducer, s: MatchState, steps: seq<Step>, player: Player): nat {
    if steps == [] then 0
    else
      var before := Run(apply, s, steps[..|steps| - 1]).state;
      Commands(apply, s, steps[..|steps| - 1], player)
      + if Accepted(apply, before, steps[|steps| - 1], player) then 1 else 0
  }

  lemma {:induction false} ChargedConcat(a: seq<Event>, b: seq<Event>, player: Player)
    ensures Charged(a + b, player) == Charged(a, player) + Charged(b, player)
    decreases |b|
  {
    if b == [] {
      assert a + b == a;
    } else {
      assert (a + b)[..|a + b| - 1] == a + b[..|b| - 1];
      ChargedConcat(a, b[..|b| - 1], player);
    }
  }

  lemma ChargedOne(event: Event, player: Player)
    ensures Charged([event], player) == if event.Advanced? && event.player == player then event.elapsed else 0
  {
    assert [event][..0] == [];
  }

  /** Both clocks are positive until the match ends. */
  predicate InTime(s: MatchState) {
    s.clocks.Some? && (s.outcome.None? ==> s.clocks.value.north > 0 && s.clocks.value.south > 0)
  }

  /** What one advance charges, read off its events. */
  lemma AdvanceCharges(s: MatchState, elapsed: nat, player: Player)
    requires s.clocks.Some? && AdvanceClock(s, elapsed).Ok?
    ensures var t := AdvanceClock(s, elapsed).value;
            && t.state.clocks.Some? && t.state.clocks.value.increment == s.clocks.value.increment
            && t.state.clocks.value.Remaining(player) + Charged(t.events, player) == s.clocks.value.Remaining(player)
  {
    var t := AdvanceClock(s, elapsed).value;
    if |t.events| == 1 {
      assert t.events == [t.events[0]];
      ChargedOne(t.events[0], player);
    } else if |t.events| == 2 {
      assert t.events == [t.events[0]] + [t.events[1]];
      ChargedConcat([t.events[0]], [t.events[1]], player);
      ChargedOne(t.events[0], player);
      ChargedOne(t.events[1], player);
    }
  }

  lemma StepKeepsInTime(apply: Reducer, s: MatchState, step: Step)
    requires KeepsClocks(apply) && InTime(s)
    ensures InTime(After(apply, s, step).state)
  {
  }

  /** A Move or Hold of the player that the reducer accepts before time runs out. */
  predicate Accepted(apply: Reducer, s: MatchState, step: Step, player: Player) {
    && step.Play? && !step.action.OtherAction? && step.action.player == player
    && Attempt(apply, s, step).Ok?
    && AdvanceClock(s, step.elapsed).value.state.outcome.None?
  }

  lemma IncrementUncharged(events: seq<Event>, last: Event, player: Player)
    requires !last.Advanced?
    ensures Charged(events + [last], player) == Charged(events, player)
  {
    ChargedConcat(events, [last], player);
    ChargedOne(last, player);
  }

  lemma ActionEarns(apply: Reducer, charged: Transition, a: Played, player: Player)
    requires KeepsClocks(apply) && charged.state.clocks.Some? && ApplyCharged(apply, charged, a).Ok?
    ensures var before := charged.state.clocks.value;
            var t := ApplyCharged(apply, charged, a).value;
            && t.state.clocks.Some? && t.state.clocks.value.increment == before.increment
            && Charged(t.events, player) == Charged(charged.events, player)
            && t.state.clocks.value.Remaining(player)
               == before.Remaining(player) + if !a.OtherAction? && a.player == player then before.increment else 0
  {
    if !a.OtherAction? {
      var t := ApplyCharged(apply, charged, a).value;
      IncrementUncharged(charged.events, t.events[|charged.events|], player);
    }
  }

  /** One step of any kind balances: new time plus what was charged is old time plus any increment. */
  lemma StepBalances(apply: Reducer, s: MatchState, step: Step, player: Player)
    requires KeepsClocks(apply) && s.clocks.Some?
    ensures var t := After(apply, s, step);
            && t.state.clocks.Some? && t.state.clocks.value.increment == s.clocks.value.increment
            && t.state.clocks.value.Remaining(player) + Charged(t.events, player)
               == s.clocks.value.Remaining(player) + if Accepted(apply, s, step, player) then s.clocks.value.increment else 0
  {
    if Attempt(apply, s, step).Ok? {
      AdvanceCharges(s, step.elapsed, player);
      var charged := AdvanceClock(s, step.elapsed).value;
      if step.Play? && charged.state.outcome.None? {
        ActionEarns(apply, charged, step.action, player);
      }
    }
  }

  /** The increments a player has earned in a run. */
  function Earned(apply: Reducer, s: MatchState, steps: seq<Step>, player: Player, increment: nat): nat {
    if steps == [] then 0
    else
      var before := Run(apply, s, steps[..|steps| - 1]).state;
      Earned(apply, s, steps[..|steps| - 1], player, increment)
      + if Accepted(apply, before, steps[|steps| - 1], player) then increment else 0
  }

  lemma {:induction false} EarnedPerCommand(apply: Reducer, s: MatchState, steps: seq<Step>, player: Player, increment: nat)
    ensures Earned(apply, s, steps, player, increment) == increment * Commands(apply, s, steps, player)
    decreases |steps|
  {
    if steps != [] {
      EarnedPerCommand(apply, s, steps[..|steps| - 1], player, increment);
      Earns(increment, Commands(apply, s, steps[..|steps| - 1], player));
    }
  }

  lemma {:induction false} RunBalances(apply: Reducer, s: MatchState, steps: seq<Step>, player: Player)
    requires KeepsClocks(apply) && s.clocks.Some?
    ensures var end := Run(apply, s, steps);
            && end.state.clocks.Some? && end.state.clocks.value.increment == s.clocks.value.increment
            && end.state.clocks.value.Remaining(player) + Charged(end.events, player)
               == s.clocks.value.Remaining(player) + Earned(apply, s, steps, player, s.clocks.value.increment)
    decreases |steps|
  {
    if steps != [] {
      var earlier, step := steps[..|steps| - 1], steps[|steps| - 1];
      RunBalances(apply, s, earlier, player);
      var before := Run(apply, s, earlier);
      StepBalances(apply, before.state, step, player);
      ChargedConcat(before.events, After(apply, before.state, step).events, player);
    }
  }

  /** The clock ledger: after any run of ticks and actions, accepted or refused, each player's time is the
      base plus the increment for every accepted Move or Hold, minus everything charged. */
  lemma LedgerBalances(apply: Reducer, s: MatchState, settings: Settings, steps: seq<Step>, player: Player)
    requires KeepsClocks(apply) && StartClocks(s, settings).Ok?
    ensures var start := StartClocks(s, settings).value;
            var end := Run(apply, start, steps);
            && end.state.clocks.Some?
            && end.state.clocks.value.Remaining(player) + Charged(end.events, player)
               == settings.baseMinutes * 60_000 + settings.incrementSeconds * 1_000 * Commands(apply, start, steps, player)
  {
    var start := StartClocks(s, settings).value;
    RunBalances(apply, start, steps, player);
    EarnedPerCommand(apply, start, steps, player, settings.incrementSeconds * 1_000);
  }

  /** In every run the match ends before a clock is empty. */
  lemma {:induction false} RunsInTime(apply: Reducer, s: MatchState, settings: Settings, steps: seq<Step>)
    requires KeepsClocks(apply) && StartClocks(s, settings).Ok?
    ensures InTime(Run(apply, StartClocks(s, settings).value, steps).state)
    decreases |steps|
  {
    if steps != [] {
      RunsInTime(apply, s, settings, steps[..|steps| - 1]);
      StepKeepsInTime(apply, Run(apply, StartClocks(s, settings).value, steps[..|steps| - 1]).state, steps[|steps| - 1]);
    }
  }

  lemma Earns(increment: nat, count: nat)
    ensures increment * (count + 1) == increment * count + increment
  {
  }

  /** A finished match is final: no tick or action changes it again, so a timeout raises the revision once. */
  lemma {:induction false} FinishedIsFinal(apply: Reducer, s: MatchState, steps: seq<Step>)
    requires s.outcome.Some?
    ensures Run(apply, s, steps) == Transition(s, [])
    decreases |steps|
  {
    if steps != [] {
      FinishedIsFinal(apply, s, steps[..|steps| - 1]);
    }
  }

  // ----- frames -----

  datatype Duration = Duration(secs: nat, nanos: nat) {
    predicate Valid() {
      nanos < 1_000_000_000
    }

    function Total(): nat {
      secs * 1_000_000_000 + nanos
    }
  }

  const NANOS_PER_MILLI: nat := 1_000_000

  /** The whole milliseconds of a frame and the carry left for the next. */
  function Accumulate(carry: nat, delta: Duration): (nat, nat) {
    var total := carry + delta.nanos;
    (delta.secs * 1_000 + total / NANOS_PER_MILLI, total % NANOS_PER_MILLI)
  }

  lemma AccumulateExact(carry: nat, delta: Duration)
    ensures var (millis, rest) := Accumulate(carry, delta);
            millis * NANOS_PER_MILLI + rest == carry + delta.Total() && rest < NANOS_PER_MILLI
  {
  }

  /** The local match and its carry; a frame that is not playing, or of a finished or untimed match, is ignored. */
  datatype Local = Local(state: MatchState, carry: nat)

  function Frame(l: Local, delta: Duration): Local {
    if l.state.outcome.Some? || l.state.clocks.None? then l
    else
      var (millis, carry) := Accumulate(l.carry, delta);
      if millis == 0 then l.(carry := carry)
      else
        match AdvanceClock(l.state, millis)
        case Err(_) => l.(carry := carry)
        case Ok(t) => Local(t.state, carry)
  }

  function Frames(l: Local, deltas: seq<Duration>): Local {
    if deltas == [] then l else Frame(Frames(l, deltas[..|deltas| - 1]), deltas[|deltas| - 1])
  }

  function Sum(deltas: seq<Duration>): nat {
    if deltas == [] then 0 else Sum(deltas[..|deltas| - 1]) + deltas[|deltas| - 1].Total()
  }

  /** The state after `millis` of undivided play. */
  function Elapse(s: MatchState, millis: nat): MatchState {
    if millis == 0 then s
    else
      match AdvanceClock(s, millis)
      case Err(_) => s
      case Ok(t) => t.state
  }

  /** Charging is additive while the revision can still be raised. */
  lemma ElapseAdds(s: MatchState, first: nat, second: nat)
    requires s.clocks.Some? && s.outcome.None? && s.clocks.value.Remaining(s.active) > 0
    requires s.revision < U64_MAX || first + second < s.clocks.value.Remaining(s.active)
    ensures var mid := Elapse(s, first);
            Elapse(s, first + second) == if mid.outcome.Some? then mid else Elapse(mid, second)
  {
  }

  lemma Quotient(n: nat, q: nat, r: nat)
    requires n == q * NANOS_PER_MILLI + r && r < NANOS_PER_MILLI
    ensures n / NANOS_PER_MILLI == q && n % NANOS_PER_MILLI == r
  {
  }

  /** One frame after `before` nanoseconds of play. */
  lemma FrameAdds(s: MatchState, before: nat, last: Duration)
    requires s.clocks.Some? && s.outcome.None? && s.clocks.value.Remaining(s.active) > 0
    requires s.revision < U64_MAX || (before + last.Total()) / NANOS_PER_MILLI < s.clocks.value.Remaining(s.active)
    requires Elapse(s, before / NANOS_PER_MILLI).outcome.None?
    ensures var total := before + last.Total();
            var end := Frame(Local(Elapse(s, before / NANOS_PER_MILLI), before % NANOS_PER_MILLI), last);
            end.state == Elapse(s, total / NANOS_PER_MILLI) && end.carry == total % NANOS_PER_MILLI
  {
    var q, r := before / NANOS_PER_MILLI, before % NANOS_PER_MILLI;
    AccumulateExact(r, last);
    var (millis, carry) := Accumulate(r, last);
    Quotient(before + last.Total(), q + millis, carry);
    ElapseAdds(s, q, millis);
  }

  /** Once time has run out, more time changes nothing. */
  lemma TimedOutStays(s: MatchState, before: nat, total: nat)
    requires s.clocks.Some? && s.outcome.None? && s.clocks.value.Remaining(s.active) > 0
    requires before <= total && s.revision < U64_MAX
    requires Elapse(s, before / NANOS_PER_MILLI).outcome.Some?
    ensures Elapse(s, total / NANOS_PER_MILLI) == Elapse(s, before / NANOS_PER_MILLI)
  {
    DivideMonotone(before, total);
    ElapseAdds(s, before / NANOS_PER_MILLI, total / NANOS_PER_MILLI - before / NANOS_PER_MILLI);
  }

  lemma FrameAfter(s: MatchState, mid: Local, before: nat, last: Duration)
    requires s.clocks.Some? && s.outcome.None? && s.clocks.value.Remaining(s.active) > 0
    requires s.revision < U64_MAX || (before + last.Total()) / NANOS_PER_MILLI < s.clocks.value.Remaining(s.active)
    requires mid.state == Elapse(s, before / NANOS_PER_MILLI) && mid.carry < NANOS_PER_MILLI
    requires mid.state.outcome.None? ==> mid.carry == before % NANOS_PER_MILLI
    ensures var end := Frame(mid, last);
            var total := before + last.Total();
            && end.carry < NANOS_PER_MILLI
            && end.state == Elapse(s, total / NANOS_PER_MILLI)
            && (end.state.outcome.None? ==> end.carry == total % NANOS_PER_MILLI)
  {
    DivideMonotone(before, before + last.Total());
    if mid.state.outcome.None? {
      FrameAdds(s, before, last);
    } else {
      TimedOutStays(s, before, before + last.Total());
    }
  }

  /** Any sequence of frames is one frame of their total: the same clocks, outcome and revision, and while
      the match runs the same carry, always below a millisecond. */
  lemma {:induction false} FramePartition(l: Local, deltas: seq<Duration>)
    requires l.state.clocks.Some? && l.state.outcome.None? && l.state.clocks.value.Remaining(l.state.active) > 0
    requires l.carry < NANOS_PER_MILLI
    requires l.state.revision < U64_MAX
             || (l.carry + Sum(deltas)) / NANOS_PER_MILLI < l.state.clocks.value.Remaining(l.state.active)
    ensures var end := Frames(l, deltas);
            var total := l.carry + Sum(deltas);
            && end.carry < NANOS_PER_MILLI
            && end.state == Elapse(l.state, total / NANOS_PER_MILLI)
            && (end.state.outcome.None? ==> end.carry == total % NANOS_PER_MILLI)
    decreases |deltas|
  {
    if deltas == [] {
      Quotient(l.carry, 0, l.carry);
    } else {
      var earlier, last := deltas[..|deltas| - 1], deltas[|deltas| - 1];
      var before := l.carry + Sum(earlier);
      DivideMonotone(before, before + last.Total());
      FramePartition(l, earlier);
      FrameAfter(l.state, Frames(l, earlier), before, last);
    }
  }

  lemma DivideMonotone(a: nat, b: nat)
    requires a <= b
    ensures a / NANOS_PER_MILLI <= b / NANOS_PER_MILLI
  {
  }

  /** However real time is split into frames, the match is the same afterwards. */
  ghost predicate PartitionFree(s: MatchState) {
    forall deltas, others :: Sum(deltas) == Sum(others) ==> Frames(Local(s, 0), deltas).state == Frames(Local(s, 0), others).state
  }

  /** At the largest revision a timeout cannot be recorded, and then the split into frames does matter:
      one undivided frame charges nothing, two frames charge the first. */
  lemma PartitionMattersAtLastRevision(s: MatchState)
    requires s.clocks.Some? && s.outcome.None? && s.revision >= U64_MAX
    requires s.clocks.value.Remaining(s.active) >= 2
    ensures var remaining := s.clocks.value.Remaining(s.active);
            var whole := [Duration(remaining, NANOS_PER_MILLI)];
            var parts := [Duration(0, NANOS_PER_MILLI), Duration(remaining, 0)];
            && Sum(whole) == Sum(parts)
            && Frames(Local(s, 0), whole).state == s
            && Frames(Local(s, 0), parts).state.clocks.Some?
            && Frames(Local(s, 0), parts).state.clocks.value.Remaining(s.active) == remaining - 1
  {
    var remaining := s.clocks.value.Remaining(s.active);
    var whole := [Duration(remaining, NANOS_PER_MILLI)];
    var parts := [Duration(0, NANOS_PER_MILLI), Duration(remaining, 0)];
    assert whole[..0] == [] && parts[..1] == [Duration(0, NANOS_PER_MILLI)] && parts[..1][..0] == [];
    assert Sum(parts[..1]) == Duration(0, NANOS_PER_MILLI).Total();
    assert Accumulate(0, Duration(remaining, NANOS_PER_MILLI)) == (remaining * 1_000 + 1, 0);
    assert Accumulate(0, Duration(remaining, 0)) == (remaining * 1_000, 0);
    assert Accumulate(0, Duration(0, NANOS_PER_MILLI)) == (1, 0);
    assert Frames(Local(s, 0), whole) == Frame(Local(s, 0), whole[0]);
    assert Frames(Local(s, 0), parts[..1]) == Frame(Local(s, 0), parts[0]);
  }

  /** With one millisecond left at that revision no frame is ever charged. */
  lemma {:induction false} LastMillisecondStays(s: MatchState, deltas: seq<Duration>)
    requires s.clocks.Some? && s.outcome.None? && s.revision >= U64_MAX
    requires s.clocks.value.Remaining(s.active) == 1
    ensures Frames(Local(s, 0), deltas).state == s
    decreases |deltas|
  {
    if deltas != [] {
      LastMillisecondStays(s, deltas[..|deltas| - 1]);
    }
  }

  /** The exact condition for a running match: frames may be split freely if and only if a timeout could be
      recorded, or there is only one millisecond left to lose. */
  lemma PartitionCondition(s: MatchState)
    requires s.clocks.Some? && s.outcome.None? && s.clocks.value.Remaining(s.active) > 0
    ensures PartitionFree(s) <==> s.revision < U64_MAX || s.clocks.value.Remaining(s.active) == 1
  {
    if s.revision < U64_MAX || s.clocks.value.Remaining(s.active) == 1 {
      forall deltas, others | Sum(deltas) == Sum(others)
        ensures Frames(Local(s, 0), deltas).state == Frames(Local(s, 0), others).state
      {
        if s.revision < U64_MAX {
          FramePartition(Local(s, 0), deltas);
          FramePartition(Local(s, 0), others);
        } else {
          LastMillisecondStays(s, deltas);
          LastMillisecondStays(s, others);
        }
      }
    } else {
      PartitionMattersAtLastRevision(s);
    }
  }

  /** The frame-to-frame part of the local clock, in place. */
  class LocalClock {
    var state: MatchState
    var carry: nat

    constructor (state: MatchState)
      ensures this.state == state && carry == 0
    {
      this.state, carry := state, 0;
    }

    method AccumulateElapsed(delta: Duration) returns (millis: nat)
      requires carry < NANOS_PER_MILLI && delta.Valid()
      modifies `carry
      ensures carry < NANOS_PER_MILLI
      ensures millis * NANOS_PER_MILLI + carry == old(carry) + delta.Total()
      ensures (millis, carry) == Accumulate(old(carry), delta)
    {
      AccumulateExact(carry, delta);
      var total := carry + delta.nanos;
      carry := total % NANOS_PER_MILLI;
      millis := delta.secs * 1_000 + total / NANOS_PER_MILLI;
    }

    method TickFrame(delta: Duration)
      requires carry < NANOS_PER_MILLI && delta.Valid()
      modifies `state, `carry
      ensures carry < NANOS_PER_MILLI
      ensures Local(state, carry) == Frame(old(Local(state, carry)), delta)
    {
      if state.outcome.Some? || state.clocks.None? {
        return;
      }
      var millis := AccumulateElapsed(delta);
      if millis == 0 {
        return;
      }
      var advanced := AdvanceClock(state, millis);
      if advanced.Ok? {
        state := advanced.value.state;
      }
    }
  }
}
