/** A guided session: stages completed as transitions arrive, retries, hints, and the resume record that is
    persisted for it. */
module GuidedPlay {
  import opened Rules
  import opened Counting
  import opened GuidedContent

  const U8_MAX: nat := 255
  const U16_MAX: nat := 65_535

  function Bump(n: nat, step: nat, most: nat): (r: nat)
    requires n <= most
    ensures n <= r <= most
  {
    if n + step <= most then n + step else most
  }

  datatype Verdict = InProgress | Failed | Succeeded | Broken

  /** One transition of the match: who acted, if anybody, and what the match became. */
  datatype Record<T> = Record(actor: Option<Player>, state: T)

  /** The content being played. How a stage judges a transition is arbitrary; it sees the counters of the
      stage so far, and may fail. */
  datatype Content<!T> = Content(
    stages: seq<Stage>,
    seat: Option<Player>,
    judge: (nat, Record<T>, nat, nat) -> Verdict,
    turn: T -> nat
  )

  datatype Session<T> = Session(
    stage: nat,
    completed: seq<string>,
    hints: seq<nat>,
    actions: nat,
    turns: nat,
    totalActions: nat,
    totalTurns: nat,
    aiActions: nat,
    retries: nat,
    failed: bool,
    complete: bool,
    stageStart: T,
    lastTurn: nat
  )

  // ----- what a session must be -----

  /** The stage index and the hint list fit the content, so no access to them can fail. */
  predicate InBounds<T>(c: Content<T>, s: Session<T>) {
    && s.stage < |c.stages| && |s.hints| == |c.stages|
    && s.actions <= s.totalActions <= U16_MAX && s.turns <= s.totalTurns <= U16_MAX
    && s.aiActions <= s.totalActions && s.retries <= U16_MAX
    && forall i :: 0 <= i < |s.hints| ==> s.hints[i] <= c.stages[i].hints && s.hints[i] <= U8_MAX
  }

  /** Completed stages are distinct stages of the content, each after all of its prerequisites. */
  predicate Ordered(stages: seq<Stage>, completed: seq<string>) {
    && Distinct(completed)
    && (forall i :: 0 <= i < |completed| ==> completed[i] in IdSet(stages))
    && (forall i, p :: 0 <= i < |completed| && p in Prerequisites(stages, completed[i]) ==> p in completed[..i])
  }

  /** The stage being played is the next one; a complete session has none left. */
  predicate Playing(stages: seq<Stage>, stage: nat, completed: seq<string>, complete: bool) {
    Ordered(stages, completed) && FirstAvailable(stages, completed) == if complete then None else Some(stage)
  }

  predicate Sound<T>(c: Content<T>, s: Session<T>) {
    InBounds(c, s) && Playing(c.stages, s.stage, s.completed, s.complete)
  }

  // ----- transitions -----

  /** The counters after a transition. */
  function Counted<T>(c: Content<T>, s: Session<T>, r: Record<T>): Session<T>
    requires InBounds(c, s)
  {
    var acted := if r.actor.Some? then 1 else 0;
    var ai := if r.actor.Some? && r.actor == c.seat then 1 else 0;
    var now := c.turn(r.state);
    var elapsed := if now < s.lastTurn then 0 else Bump(0, now - s.lastTurn, U16_MAX);
    s.(actions := Bump(s.actions, acted, U16_MAX),
       totalActions := Bump(s.totalActions, acted, U16_MAX),
       aiActions := Bump(s.aiActions, ai, U16_MAX),
       turns := Bump(s.turns, elapsed, U16_MAX),
       totalTurns := Bump(s.totalTurns, elapsed, U16_MAX),
       lastTurn := now)
  }

  /** Moves on from a stage that has succeeded. */
  function Advanced<T>(c: Content<T>, s: Session<T>, r: Record<T>): Session<T>
    requires s.stage < |c.stages|
  {
    var completed := s.completed + [c.stages[s.stage].id];
    match FirstAvailable(c.stages, completed)
    case None => s.(completed := completed, complete := true)
    case Some(next) =>
      s.(completed := completed, stage := next, stageStart := r.state, actions := 0, turns := 0, lastTurn := c.turn(r.state))
  }

  function Process<T>(c: Content<T>, s: Session<T>, r: Record<T>): Session<T>
    requires InBounds(c, s)
  {
    if s.failed || s.complete then s
    else
      var counted := Counted(c, s, r);
      match c.judge(s.stage, r, counted.actions, counted.turns)
      case InProgress => counted
      case Failed => counted.(failed := true)
      case Broken => counted.(failed := true)
      case Succeeded => Advanced(c, counted, r)
  }

  lemma ProcessInBounds<T>(c: Content<T>, s: Session<T>, r: Record<T>)
    requires InBounds(c, s)
    ensures InBounds(c, Process(c, s, r))
  {
  }

  function ProcessAll<T>(c: Content<T>, s: Session<T>, records: seq<Record<T>>): (s': Session<T>)
    requires InBounds(c, s)
    ensures InBounds(c, s')
  {
    if records == [] then s
    else
      var before := ProcessAll(c, s, records[..|records| - 1]);
      var r := records[|records| - 1];
      ProcessInBounds(c, before, r);
      Process(c, before, r)
  }

  // ----- the other steps of a session -----

  function Begin<T>(c: Content<T>, state: T): Session<T> {
    var first := FirstAvailable(c.stages, []);
    Session(if first.Some? then first.value else 0, [], seq(|c.stages|, _ => 0),
            0, 0, 0, 0, 0, 0, false, false, state, c.turn(state))
  }

  function Retry<T>(c: Content<T>, s: Session<T>): Session<T>
    requires s.retries <= U16_MAX
  {
    s.(actions := 0, turns := 0, lastTurn := c.turn(s.stageStart), failed := false, complete := false,
       retries := Bump(s.retries, 1, U16_MAX))
  }

  function Reveal<T>(c: Content<T>, s: Session<T>): Session<T>
    requires InBounds(c, s)
  {
    var shown := s.hints[s.stage];
    if shown < c.stages[s.stage].hints then s.(hints := s.hints[s.stage := Bump(shown, 1, U8_MAX)]) else s
  }

  /** The resume record: the session without its completion flag, with the match state it was taken at. */
  datatype Resume<T> = Resume(session: Session<T>, state: T)

  function Persisted<T>(s: Session<T>, state: T): Option<Resume<T>> {
    if s.complete then None else Some(Resume(s, state))
  }

  function Resumed<T>(c: Content<T>, resume: Resume<T>): Session<T> {
    resume.session.(complete := false, lastTurn := c.turn(resume.state))
  }

  /** The structural checks on a resume record when the progress document is written or read. */
  predicate Accepted<T>(c: Content<T>, resume: Resume<T>) {
    var s := resume.session;
    var distinct := Elements(s.completed);
    && s.stage < |c.stages|
    && |s.hints| == |c.stages|
    && |s.completed| <= |c.stages|
    && |distinct| == |s.completed|
    && (forall id :: id in distinct ==> id in IdSet(c.stages))
    && (forall i :: 0 <= i < |s.hints| ==> s.hints[i] <= c.stages[i].hints)
  }

  // ----- what each step keeps -----

  lemma OrderedAppend(stages: seq<Stage>, completed: seq<string>, j: nat)
    requires Distinct(Ids(stages)) && Ordered(stages, completed)
    requires j < |stages| && Available(stages[j], completed)
    ensures Ordered(stages, completed + [stages[j].id])
  {
    var more := completed + [stages[j].id];
    UniqueIndex(stages, j);
    assert Ids(stages)[j] == stages[j].id;
    forall i, p | 0 <= i < |more| && p in Prerequisites(stages, more[i])
      ensures p in more[..i]
    {
      assert more[..i] == completed[..i];
      if i == |completed| {
        assert completed[..i] == completed;
      }
    }
  }

  lemma CountedKeepsPlaying<T>(c: Content<T>, s: Session<T>, r: Record<T>)
    requires Sound(c, s) && !s.complete
    ensures var s' := Counted(c, s, r);
            s'.completed == s.completed && s'.stage == s.stage && !s'.complete && Playing(c.stages, s'.stage, s'.completed, false)
  {
  }

  lemma AdvanceKeepsPlaying<T>(c: Content<T>, s: Session<T>, r: Record<T>)
    requires Authored(c.stages) && s.stage < |c.stages| && Playing(c.stages, s.stage, s.completed, false)
    ensures var s' := Advanced(c, s, r); !s.complete ==> Playing(c.stages, s'.stage, s'.completed, s'.complete)
  {
    OrderedAppend(c.stages, s.completed, s.stage);
  }

  lemma ProcessKeepsSound<T>(c: Content<T>, s: Session<T>, r: Record<T>)
    requires Authored(c.stages) && Sound(c, s)
    ensures Sound(c, Process(c, s, r))
    ensures s.completed <= Process(c, s, r).completed
  {
    ProcessInBounds(c, s, r);
    if !s.failed && !s.complete {
      var counted := Counted(c, s, r);
      CountedKeepsPlaying(c, s, r);
      if c.judge(s.stage, r, counted.actions, counted.turns) == Succeeded {
        AdvanceKeepsPlaying(c, counted, r);
      }
    }
  }

  lemma {:induction false} ProcessAllKeepsSound<T>(c: Content<T>, s: Session<T>, records: seq<Record<T>>)
    requires Authored(c.stages) && Sound(c, s)
    ensures Sound(c, ProcessAll(c, s, records))
    ensures s.completed <= ProcessAll(c, s, records).completed
  {
    if records != [] {
      var before := records[..|records| - 1];
      ProcessAllKeepsSound(c, s, before);
      ProcessKeepsSound(c, ProcessAll(c, s, before), records[|records| - 1]);
    }
  }

  lemma BeginSound<T>(c: Content<T>, state: T)
    requires Authored(c.stages)
    ensures Sound(c, Begin(c, state))
  {
    SomeStageAvailable(c.stages, []);
    assert c.stages[0].id !in [];
  }

  /** Retrying keeps a session sound exactly when it is not complete: a completed session goes back to
      playing a stage it has already completed. */
  lemma RetryExactly<T>(c: Content<T>, s: Session<T>)
    requires Authored(c.stages) && Sound(c, s)
    ensures InBounds(c, Retry(c, s))
    ensures Sound(c, Retry(c, s)) <==> !s.complete
  {
  }

  /** A stage retried after completion and won again is listed twice. */
  lemma ReplayedStageRepeats<T>(c: Content<T>, s: Session<T>, r: Record<T>)
    requires Authored(c.stages) && Sound(c, s) && s.complete
    requires var again := Counted(c, Retry(c, s), r); c.judge(s.stage, r, again.actions, again.turns) == Succeeded
    ensures var won := Process(c, Retry(c, s), r);
            won.completed == s.completed + [c.stages[s.stage].id] && !Distinct(won.completed) && won.complete
  {
    var won := Process(c, Retry(c, s), r);
    SomeStageAvailable(c.stages, s.completed);
    SomeStageAvailable(c.stages, won.completed);
    var i :| 0 <= i < |s.completed| && s.completed[i] == c.stages[s.stage].id;
    assert won.completed[i] == won.completed[|s.completed|];
  }

  /** The checks do not notice a retried completion: its record is accepted, and resuming it plays a stage
      that is already complete. */
  lemma RetriedCompletionAccepted<T>(c: Content<T>, s: Session<T>, state: T)
    requires Authored(c.stages) && Sound(c, s) && s.complete
    ensures Persisted(Retry(c, s), state).Some?
    ensures Accepted(c, Persisted(Retry(c, s), state).value)
    ensures c.stages[s.stage].id in Resumed(c, Persisted(Retry(c, s), state).value).completed
  {
    SomeStageAvailable(c.stages, s.completed);
    assert forall id :: id in s.completed ==> id in IdSet(c.stages);
    CompletedCount(c.stages, s.completed);
    DistinctCount(s.completed);
  }

  /** Whatever is persisted for a sound session passes the checks, and resuming it gives back a sound session. */
  lemma PersistedAccepted<T>(c: Content<T>, s: Session<T>, state: T)
    requires Authored(c.stages) && Sound(c, s) && !s.complete
    ensures Persisted(s, state).Some?
    ensures Accepted(c, Persisted(s, state).value)
    ensures Sound(c, Resumed(c, Persisted(s, state).value))
  {
    assert forall id :: id in s.completed ==> id in IdSet(c.stages);
    CompletedCount(c.stages, s.completed);
    DistinctCount(s.completed);
  }

  // ----- runs -----

  datatype Runtime<T> = Runtime(session: Option<Session<T>>, resume: Option<Resume<T>>)

  /** `state` is the match on display and `saves` says whether the progress document could be built. */
  datatype Event<T> =
    | Start(state: T, saves: bool)
    | Play(records: seq<Record<T>>, state: T, saves: bool)
    | RetryStage(saves: bool)
    | RevealHint(state: T, saves: bool)
    | Leave(state: T, saves: bool)
    | ResumeAttempt

  function Save<T>(rt: Runtime<T>, state: T, saves: bool): Runtime<T> {
    if saves && rt.session.Some? then rt.(resume := Persisted(rt.session.value, state)) else rt
  }

  /** A batch changes the session, and is saved, only if some record found it running. */
  predicate Changes<T>(s: Session<T>, records: seq<Record<T>>) {
    records != [] && !s.failed && !s.complete
  }

  ghost predicate SessionFits<T>(c: Content<T>, rt: Runtime<T>) {
    && (rt.session.Some? ==> InBounds(c, rt.session.value))
    && (rt.resume.Some? ==> InBounds(c, rt.resume.value.session))
  }

  ghost function Next<T>(c: Content<T>, rt: Runtime<T>, e: Event<T>): Runtime<T>
    requires SessionFits(c, rt)
  {
    match e
    case Start(state, saves) => Save(rt.(session := Some(Begin(c, state))), state, saves)
    case Play(records, state, saves) =>
      if rt.session.None? then rt
      else
        var played := rt.(session := Some(ProcessAll(c, rt.session.value, records)));
        if Changes(rt.session.value, records) then Save(played, state, saves) else played
    case RetryStage(saves) =>
      if rt.session.None? then rt
      else Save(rt.(session := Some(Retry(c, rt.session.value))), rt.session.value.stageStart, saves)
    case RevealHint(state, saves) =>
      if rt.session.None? then rt else Save(rt.(session := Some(Reveal(c, rt.session.value))), state, saves)
    case Leave(state, saves) => Save(rt, state, saves).(session := None)
    case ResumeAttempt =>
      if rt.resume.None? || !Accepted(c, rt.resume.value) then rt
      else rt.(session := Some(Resumed(c, rt.resume.value)))
  }

  /** The session is sound, and so is whatever resuming would give. */
  ghost predicate Inv<T>(c: Content<T>, rt: Runtime<T>) {
    && SessionFits(c, rt)
    && (rt.session.Some? ==> Sound(c, rt.session.value))
    && (rt.resume.Some? ==> !rt.resume.value.session.complete && Sound(c, rt.resume.value.session))
  }

  lemma RevealKeepsSound<T>(c: Content<T>, s: Session<T>)
    requires Sound(c, s)
    ensures Sound(c, Reveal(c, s))
  {
  }

  /** Any step but a retry of a completed session keeps the invariant. */
  lemma StepKeepsInv<T>(c: Content<T>, rt: Runtime<T>, e: Event<T>)
    requires Authored(c.stages) && Inv(c, rt)
    requires !(e.RetryStage? && rt.session.Some? && rt.session.value.complete)
    ensures Inv(c, Next(c, rt, e))
  {
    match e
    case Start(state, saves) => BeginSound(c, state);
    case Play(records, state, saves) =>
      if rt.session.Some? {
        ProcessAllKeepsSound(c, rt.session.value, records);
      }
    case RetryStage(saves) =>
      if rt.session.Some? {
        RetryExactly(c, rt.session.value);
      }
    case RevealHint(state, saves) =>
      if rt.session.Some? {
        RevealKeepsSound(c, rt.session.value);
      }
    case Leave(state, saves) =>
    case ResumeAttempt =>
  }

  /** A run in which no completed session is retried. */
  ghost predicate Reaches<T>(c: Content<T>, rt: Runtime<T>, events: seq<Event<T>>, rt': Runtime<T>)
    decreases |events|
  {
    if events == [] then rt == rt'
    else
      && SessionFits(c, rt)
      && !(events[0].RetryStage? && rt.session.Some? && rt.session.value.complete)
      && Reaches(c, Next(c, rt, events[0]), events[1..], rt')
  }

  lemma {:induction false} ReachableInv<T>(c: Content<T>, rt: Runtime<T>, events: seq<Event<T>>, rt': Runtime<T>)
    requires Authored(c.stages) && Inv(c, rt) && Reaches(c, rt, events, rt')
    ensures Inv(c, rt')
    decreases |events|
  {
    if events != [] {
      StepKeepsInv(c, rt, events[0]);
      ReachableInv(c, Next(c, rt, events[0]), events[1..], rt');
    }
  }

  /** A sound session is complete exactly when it has completed every stage, that is, as many as there are. */
  lemma CompleteExactly<T>(c: Content<T>, s: Session<T>)
    requires Authored(c.stages) && Sound(c, s)
    ensures s.complete <==> forall i :: 0 <= i < |c.stages| ==> c.stages[i].id in s.completed
    ensures s.complete <==> |s.completed| == |c.stages|
  {
    SomeStageAvailable(c.stages, s.completed);
    assert forall id :: id in s.completed ==> id in IdSet(c.stages);
    CompletedCount(c.stages, s.completed);
  }

  /** In every such run the session completes stages in a topological order without repeats, plays the first
      available stage until it is complete, and is complete exactly when every stage is; and whatever has been
      persisted passes the structural checks. */
  lemma GuidedProgression<T>(c: Content<T>, events: seq<Event<T>>, rt: Runtime<T>)
    requires Authored(c.stages) && Reaches(c, Runtime(None, None), events, rt)
    ensures rt.session.Some? ==>
              var s := rt.session.value;
              && Topological(c.stages, s.completed) && Distinct(s.completed)
              && s.stage < |c.stages|
              && (!s.complete ==> Available(c.stages[s.stage], s.completed))
              && (s.complete <==> forall i :: 0 <= i < |c.stages| ==> c.stages[i].id in s.completed)
              && (s.complete <==> |s.completed| == |c.stages|)
              && |s.hints| == |c.stages| && forall i :: 0 <= i < |c.stages| ==> s.hints[i] <= c.stages[i].hints
    ensures rt.resume.Some? ==> Accepted(c, rt.resume.value)
  {
    ReachableInv(c, Runtime(None, None), events, rt);
    if rt.session.Some? {
      CompleteExactly(c, rt.session.value);
    }
    if rt.resume.Some? {
      PersistedAccepted(c, rt.resume.value.session, rt.resume.value.state);
    }
  }

  /** A transition that finds the session running and is judged a success. */
  predicate Wins<T>(c: Content<T>, s: Session<T>, r: Record<T>)
    requires InBounds(c, s)
  {
    !s.failed && !s.complete && var counted := Counted(c, s, r); c.judge(s.stage, r, counted.actions, counted.turns) == Succeeded
  }

  /** How many of a run's transitions are wins. */
  function WinCount<T>(c: Content<T>, s: Session<T>, records: seq<Record<T>>): nat
    requires InBounds(c, s)
  {
    if records == [] then 0
    else
      var before := records[..|records| - 1];
      WinCount(c, s, before) + if Wins(c, ProcessAll(c, s, before), records[|records| - 1]) then 1 else 0
  }

  lemma OneStage<T>(c: Content<T>, s: Session<T>, r: Record<T>)
    requires Authored(c.stages) && Sound(c, s)
    ensures |Process(c, s, r).completed| == |s.completed| + if Wins(c, s, r) then 1 else 0
  {
  }

  /** Over any run, whatever the judge says: each win completes one stage, nothing else does, and the session is
      complete exactly when the wins number the stages that were left. */
  lemma {:induction false} SuccessesFinish<T>(c: Content<T>, s: Session<T>, records: seq<Record<T>>)
    requires Authored(c.stages) && Sound(c, s)
    ensures var s' := ProcessAll(c, s, records);
            && |s'.completed| == |s.completed| + WinCount(c, s, records) <= |c.stages|
            && (s'.complete <==> WinCount(c, s, records) == |c.stages| - |s.completed|)
  {
    if records != [] {
      var before := records[..|records| - 1];
      SuccessesFinish(c, s, before);
      ProcessAllKeepsSound(c, s, before);
      OneStage(c, ProcessAll(c, s, before), records[|records| - 1]);
    }
    ProcessAllKeepsSound(c, s, records);
    StagesBound(c, ProcessAll(c, s, records));
  }

  lemma StagesBound<T>(c: Content<T>, s: Session<T>)
    requires Authored(c.stages) && Sound(c, s)
    ensures |s.completed| <= |c.stages| && (s.complete <==> |s.completed| == |c.stages|)
  {
    CompleteExactly(c, s);
    assert forall id :: id in s.completed ==> id in IdSet(c.stages);
    CompletedCount(c.stages, s.completed);
  }

  // ----- failing, winning and counting -----

  /** What the counters say after a transition that found the session running: actions, actions of the AI's seat and
      turns gone by, each up to 16 bits. A stage that is won with another to play starts counting afresh there. */
  lemma CountsExactly<T>(c: Content<T>, s: Session<T>, r: Record<T>)
    requires InBounds(c, s) && !s.failed && !s.complete
    ensures var s' := Process(c, s, r);
            var acted := if r.actor.Some? then 1 else 0;
            var went := if c.turn(r.state) > s.lastTurn then c.turn(r.state) - s.lastTurn else 0;
            && s'.totalActions == AtMost(65_535, s.totalActions + acted)
            && s'.aiActions == AtMost(65_535, s.aiActions + if r.actor.Some? && r.actor == c.seat then 1 else 0)
            && s'.totalTurns == AtMost(65_535, s.totalTurns + went)
            && s'.lastTurn == c.turn(r.state)
            && (|s'.completed| == |s.completed| || s'.complete ==>
                  s'.actions == AtMost(65_535, s.actions + acted) && s'.turns == AtMost(65_535, s.turns + went)
                  && s'.stageStart == s.stageStart && s'.stage == s.stage)
            && (|s'.completed| > |s.completed| && !s'.complete ==>
                  s'.actions == s'.turns == 0 && s'.stageStart == r.state)
            && s'.hints == s.hints && s'.retries == s.retries
  {
  }

  function AtMost(most: nat, n: nat): nat {
    if n <= most then n else most
  }

  lemma {:induction false} EndedIgnores<T>(c: Content<T>, s: Session<T>, records: seq<Record<T>>)
    requires InBounds(c, s) && (s.failed || s.complete)
    ensures ProcessAll(c, s, records) == s
  {
    if records != [] {
      EndedIgnores(c, s, records[..|records| - 1]);
    }
  }

  /** A running session is judged on the counters that include the transition. A lost or broken verdict fails it and a
      won one completes the stage; nothing else does either. Whatever comes after a failure or the last stage is
      ignored. */
  lemma VerdictDecides<T>(c: Content<T>, s: Session<T>, r: Record<T>, later: seq<Record<T>>)
    requires InBounds(c, s) && !s.failed && !s.complete
    ensures var s' := Process(c, s, r);
            var acted := AtMost(65_535, s.actions + if r.actor.Some? then 1 else 0);
            var went := AtMost(65_535, s.turns + if c.turn(r.state) > s.lastTurn then c.turn(r.state) - s.lastTurn else 0);
            var verdict := c.judge(s.stage, r, acted, went);
            && (s'.failed <==> verdict in {Verdict.Failed, Broken})
            && (s'.completed == s.completed + [c.stages[s.stage].id] <==> verdict == Succeeded)
            && (verdict != Succeeded ==> s'.completed == s.completed && !s'.complete && s'.stage == s.stage)
            && (s'.failed || s'.complete ==> ProcessAll(c, s', later) == s')
  {
    var s' := Process(c, s, r);
    assert |s.completed + [c.stages[s.stage].id]| > |s.completed|;
    if s'.failed || s'.complete {
      EndedIgnores(c, s', later);
    }
  }

  /** Revealing `n` times shows `n` more hints of the current stage, up to those it has, and touches nothing else. */
  lemma {:induction false} RevealsExactly<T>(c: Content<T>, s: Session<T>, n: nat)
    requires InBounds(c, s) && c.stages[s.stage].hints <= U8_MAX
    ensures var shown := AtMost(c.stages[s.stage].hints, s.hints[s.stage] + n);
            RevealTimes(c, s, n) == s.(hints := s.hints[s.stage := shown])
  {
    if n > 0 {
      RevealsExactly(c, s, n - 1);
    } else {
      assert s.hints[s.stage := s.hints[s.stage]] == s.hints;
    }
  }

  function RevealTimes<T>(c: Content<T>, s: Session<T>, n: nat): (s': Session<T>)
    requires InBounds(c, s)
    ensures InBounds(c, s') && s'.stage == s.stage
  {
    if n == 0 then s else Reveal(c, RevealTimes(c, s, n - 1))
  }

  /** A retry takes the session back to the start of its stage, and leaves what has been completed and shown. */
  lemma RetryRestarts<T>(c: Content<T>, s: Session<T>)
    requires InBounds(c, s)
    ensures var s' := Retry(c, s);
            && s'.stage == s.stage && s'.stageStart == s.stageStart && s'.completed == s.completed && s'.hints == s.hints
            && s'.actions == s'.turns == 0 && s'.lastTurn == c.turn(s.stageStart) && !s'.failed && !s'.complete
            && s'.totalActions == s.totalActions && s'.totalTurns == s.totalTurns && s'.aiActions == s.aiActions
            && s'.retries == AtMost(65_535, s.retries + 1)
  {
  }

  /** Leaving an unfinished attempt and resuming it gives back the same session, counting turns from the match it was
      left at. If the document cannot be saved, the attempt kept before is the one resumed. */
  lemma LeaveAndResume<T>(c: Content<T>, rt: Runtime<T>, state: T, saves: bool)
    requires Authored(c.stages) && Inv(c, rt) && rt.session.Some? && !rt.session.value.complete
    ensures var left := Next(c, rt, Leave(state, saves));
            && left.session.None? && SessionFits(c, left)
            && (saves ==> Next(c, left, ResumeAttempt).session == Some(rt.session.value.(lastTurn := c.turn(state))))
            && (!saves ==> left.resume == rt.resume)
  {
    PersistedAccepted(c, rt.session.value, state);
  }

  // ----- the session in place -----

  class GuidedSession<T> {
    const content: Content<T>
    var stage: nat
    var completed: seq<string>
    var hints: seq<nat>
    var actions: nat
    var turns: nat
    var totalActions: nat
    var totalTurns: nat
    var aiActions: nat
    var retries: nat
    var failed: bool
    var complete: bool
    var stageStart: T
    var lastTurn: nat

    ghost function Now(): Session<T>
      reads this
    {
      Session(stage, completed, hints, actions, turns, totalActions, totalTurns, aiActions, retries,
              failed, complete, stageStart, lastTurn)
    }

    ghost predicate Valid()
      reads this
    {
      InBounds(content, Now())
    }

    constructor (content: Content<T>, state: T)
      requires content.stages != []
      ensures this.content == content && Valid() && Now() == Begin(content, state)
    {
      this.content := content;
      var first := FirstAvailable(content.stages, []);
      stage := if first.Some? then first.value else 0;
      completed, hints := [], seq(|content.stages|, _ => 0);
      actions, turns, totalActions, totalTurns, aiActions, retries := 0, 0, 0, 0, 0, 0;
      failed, complete := false, false;
      stageStart, lastTurn := state, content.turn(state);
    }

    /** One batch of transitions; `changed` says whether any of them found the session running. */
    method ProcessTransitions(records: seq<Record<T>>) returns (changed: bool)
      requires Valid()
      modifies this
      ensures Valid() && Now() == ProcessAll(content, old(Now()), records)
      ensures changed <==> Changes(old(Now()), records)
    {
      changed := false;
      ghost var start := Now();
      for i := 0 to |records|
        invariant Valid() && Now() == ProcessAll(content, start, records[..i])
        invariant !changed ==> Now() == start
        invariant changed <==> i > 0 && !start.failed && !start.complete
      {
        assert records[..i + 1][..i] == records[..i];
        if failed || complete {
          continue;
        }
        ProcessOne(records[i]);
        changed := true;
      }
      assert records[..|records|] == records;
    }

    method ProcessOne(r: Record<T>)
      requires Valid() && !failed && !complete
      modifies this
      ensures Valid() && Now() == Process(content, old(Now()), r)
    {
      ProcessInBounds(content, Now(), r);
      Count(r);
      match content.judge(stage, r, actions, turns)
      case InProgress =>
      case Failed => failed := true;
      case Broken => failed := true;
      case Succeeded => Advance(r);
    }

    method Count(r: Record<T>)
      requires Valid()
      modifies `actions, `totalActions, `aiActions, `turns, `totalTurns, `lastTurn
      ensures Now() == Counted(content, old(Now()), r)
    {
      if r.actor.Some? {
        actions := Bump(actions, 1, U16_MAX);
        totalActions := Bump(totalActions, 1, U16_MAX);
        if r.actor == content.seat {
          aiActions := Bump(aiActions, 1, U16_MAX);
        }
      }
      var now := content.turn(r.state);
      var elapsed := if now < lastTurn then 0 else Bump(0, now - lastTurn, U16_MAX);
      turns := Bump(turns, elapsed, U16_MAX);
      totalTurns := Bump(totalTurns, elapsed, U16_MAX);
      lastTurn := now;
    }

    method Advance(r: Record<T>)
      requires stage < |content.stages|
      modifies `completed, `stage, `stageStart, `actions, `turns, `lastTurn, `complete
      ensures Now() == Advanced(content, old(Now()), r)
    {
      completed := completed + [content.stages[stage].id];
      var next := FirstAvailable(content.stages, completed);
      if next.Some? {
        stage := next.value;
        stageStart := r.state;
        actions, turns := 0, 0;
        lastTurn := content.turn(r.state);
      } else {
        complete := true;
      }
    }

    method RetryStage()
      requires Valid()
      modifies this
      ensures Valid() && Now() == Retry(content, old(Now()))
    {
      actions, turns := 0, 0;
      lastTurn := content.turn(stageStart);
      failed, complete := false, false;
      retries := Bump(retries, 1, U16_MAX);
    }

    method RevealHint()
      requires Valid()
      modifies `hints
      ensures Valid() && Now() == Reveal(content, old(Now()))
      ensures forall i :: 0 <= i < |hints| && i != stage ==> hints[i] == old(hints[i])
      ensures hints[stage] <= old(hints[stage]) + 1
      ensures old(hints[stage]) < content.stages[stage].hints && old(hints[stage]) < 255 ==> hints[stage] == old(hints[stage]) + 1
      ensures old(hints[stage]) >= content.stages[stage].hints ==> hints == old(hints)
    {
      var shown := hints[stage];
      if shown < content.stages[stage].hints {
        hints := hints[stage := Bump(shown, 1, U8_MAX)];
      }
    }
  }
}
