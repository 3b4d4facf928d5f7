/** The local AI job protocol: the frame loop, one worker thread, a channel of capacity one,
    cancellation by snapshot key, and reaping. */
module AiJobs {
  import opened Rules

  const U64_MAX: nat := 0xFFFF_FFFF_FFFF_FFFF

  datatype SnapshotKey = SnapshotKey(epoch: nat, session: nat, scenario: string, revision: nat, player: Player, position: string)

  /** What a decision came to: an error, a search without an action, or an action. */
  datatype Decision = SearchFailed | NoAction | Chosen(action: Action)

  datatype Message = Message(id: nat, key: SnapshotKey, decision: Decision)

  /** `serial` numbers the spawns; the source's own id saturates. */
  datatype Job = Job(id: nat, key: SnapshotKey, cancelled: bool, serial: nat)

  /** A worker thread that has not exited; `sent` once it has tried to send its result. */
  datatype Worker = Worker(id: nat, key: SnapshotKey, sent: bool)

  datatype Applied = Applied(serial: nat, key: SnapshotKey, action: Action)

  /** The runtime, the worker and the channel, with what has happened so far: results applied to the
      game in order, spawns cancelled, and results a full channel dropped. */
  datatype Runtime = Runtime(
    active: Option<Job>,
    nextId: nat,
    failed: Option<SnapshotKey>,
    worker: Option<Worker>,
    channel: Option<Message>,
    spawned: nat,
    applied: seq<Applied>,
    cancelled: set<nat>,
    dropped: nat
  )

  const IDLE: Runtime := Runtime(None, 1, None, None, None, 0, [], {}, 0)

  /** What one frame sees: the current key (none when the position has no key), whether the AI is to
      move, the retry and forfeit keys, and whether the reducer accepts the action or the resignation. */
  datatype Input = Input(current: Option<SnapshotKey>, eligible: bool, retry: bool, forfeit: bool, accepts: bool, resigns: bool)

  function NextId(id: nat): nat {
    if id < U64_MAX then id + 1 else U64_MAX
  }

  function BumpEpoch(epoch: nat): nat {
    if epoch < U64_MAX then epoch + 1 else U64_MAX
  }

  // ----- the worker -----

  /** The worker offers its result without blocking; a full channel drops it. */
  function Finish(r: Runtime, decision: Decision): Runtime
    requires r.worker.Some? && !r.worker.value.sent
  {
    var w := r.worker.value;
    var r' := r.(worker := Some(w.(sent := true)));
    if r.channel.None? then r'.(channel := Some(Message(w.id, w.key, decision))) else r'.(dropped := r.dropped + 1)
  }

  // ----- one frame -----

  function CancelStale(r: Runtime, input: Input): Runtime {
    if r.active.Some? && (!input.eligible || input.current != Some(r.active.value.key))
    then r.(active := Some(r.active.value.(cancelled := true)), cancelled := r.cancelled + {r.active.value.serial})
    else r
  }

  predicate Matches(active: Option<Job>, m: Message) {
    active.Some? && active.value.id == m.id && active.value.key == m.key && !active.value.cancelled
  }

  /** Joins the worker and forgets the job. */
  function Reap(r: Runtime): Runtime {
    r.(active := None, worker := None)
  }

  function HandleResult(r: Runtime, serial: nat, m: Message, accepts: bool): Runtime {
    match m.decision
    case SearchFailed => r.(failed := Some(m.key))
    case NoAction => r.(failed := Some(m.key))
    case Chosen(action) =>
      if accepts then r.(applied := r.applied + [Applied(serial, m.key, action)]) else r.(failed := Some(m.key))
  }

  function Collect(r: Runtime, input: Input): Runtime {
    match r.channel
    case None => r
    case Some(m) =>
      var matching := Matches(r.active, m);
      var reaped := Reap(r.(channel := None));
      if matching && input.eligible && input.current == Some(m.key)
      then HandleResult(reaped, r.active.value.serial, m, input.accepts)
      else reaped
  }

  function Spawn(r: Runtime, key: SnapshotKey): Runtime {
    r.(active := Some(Job(r.nextId, key, false, r.spawned)),
       worker := Some(Worker(r.nextId, key, false)),
       nextId := NextId(r.nextId),
       spawned := r.spawned + 1)
  }

  function Retried(r: Runtime, input: Input): Runtime {
    if input.retry && r.failed == input.current then r.(failed := None) else r
  }

  /** The forfeit key is accepted only while the current position is the failed one. */
  predicate Forfeits(r: Runtime, input: Input) {
    input.forfeit && Retried(r, input).failed == input.current && input.resigns
  }

  /** The retry and forfeit keys, then the next job if one is wanted. */
  function Settle(r: Runtime, input: Input): Runtime {
    var retried := Retried(r, input);
    if Forfeits(r, input) then retried.(failed := None)
    else if input.eligible && retried.active.None? && retried.failed != input.current && input.current.Some?
    then Spawn(retried, input.current.value)
    else retried
  }

  function Drive(r: Runtime, input: Input): Runtime {
    Settle(Collect(CancelStale(r, input), input), input)
  }

  // ----- interleavings -----

  /** A worker normally sends its result and exits; one that panics exits without sending. */
  datatype Event = WorkerFinishes(decision: Decision) | WorkerExits | WorkerPanics | FrameRuns(input: Input)

  predicate Enabled(r: Runtime, e: Event) {
    match e
    case WorkerFinishes(_) => r.worker.Some? && !r.worker.value.sent
    case WorkerExits => r.worker.Some? && r.worker.value.sent
    case WorkerPanics => r.worker.Some? && !r.worker.value.sent
    case FrameRuns(_) => true
  }

  function Next(r: Runtime, e: Event): Runtime
    requires Enabled(r, e)
  {
    match e
    case WorkerFinishes(decision) => Finish(r, decision)
    case WorkerExits => r.(worker := None)
    case WorkerPanics => r.(worker := None)
    case FrameRuns(input) => Drive(r, input)
  }

  ghost predicate Reaches(start: Runtime, events: seq<Event>, r: Runtime)
    decreases |events|
  {
    if events == [] then r == start
    else Enabled(start, events[0]) && Reaches(Next(start, events[0]), events[1..], r)
  }

  /** Without a job there is no live worker and no message. With one, the worker and the message are that
      job's, and a live worker has sent exactly when its message is there. */
  predicate JobOk(r: Runtime) {
    match r.active
    case None => r.worker.None? && r.channel.None?
    case Some(job) =>
      && (r.worker.Some? ==> r.worker.value.id == job.id && r.worker.value.key == job.key)
      && (r.channel.Some? ==> r.channel.value.id == job.id && r.channel.value.key == job.key)
      && (r.worker.Some? ==> (r.worker.value.sent <==> r.channel.Some?))
  }

  /** Applied results are of distinct spawns in spawn order, none of them cancelled. */
  ghost predicate HistoryOk(r: Runtime) {
    && r.dropped == 0
    && (forall i, j :: 0 <= i < j < |r.applied| ==> r.applied[i].serial < r.applied[j].serial)
    && (forall i :: 0 <= i < |r.applied| ==> r.applied[i].serial < r.spawned && r.applied[i].serial !in r.cancelled)
    && (forall n :: n in r.cancelled ==> n < r.spawned)
    && (r.active.Some? ==>
          var job := r.active.value;
          && job.serial < r.spawned && (job.cancelled <==> job.serial in r.cancelled)
          && forall i :: 0 <= i < |r.applied| ==> r.applied[i].serial < job.serial)
  }

  lemma CancelKeepsOk(r: Runtime, input: Input)
    requires JobOk(r) && HistoryOk(r)
    ensures JobOk(CancelStale(r, input)) && HistoryOk(CancelStale(r, input))
  {
  }

  lemma CollectKeepsOk(r: Runtime, input: Input)
    requires JobOk(r) && HistoryOk(r)
    ensures JobOk(Collect(r, input)) && HistoryOk(Collect(r, input))
  {
  }

  lemma SettleKeepsOk(r: Runtime, input: Input)
    requires JobOk(r) && HistoryOk(r)
    ensures JobOk(Settle(r, input)) && HistoryOk(Settle(r, input))
  {
  }

  lemma DriveKeepsOk(r: Runtime, input: Input)
    requires JobOk(r) && HistoryOk(r)
    ensures JobOk(Drive(r, input)) && HistoryOk(Drive(r, input))
  {
    CancelKeepsOk(r, input);
    CollectKeepsOk(CancelStale(r, input), input);
    SettleKeepsOk(Collect(CancelStale(r, input), input), input);
  }

  lemma {:induction false} ReachableOk(start: Runtime, events: seq<Event>, r: Runtime)
    requires JobOk(start) && HistoryOk(start) && Reaches(start, events, r)
    ensures JobOk(r) && HistoryOk(r)
    decreases |events|
  {
    if events != [] {
      if events[0].FrameRuns? {
        DriveKeepsOk(start, events[0].input);
      }
      ReachableOk(Next(start, events[0]), events[1..], r);
    }
  }

  /** In every interleaving of frames and worker steps: no job means no live worker and an empty channel; a
      worker that is about to send finds the channel empty, so no result is ever dropped; a frame that takes
      a message never waits for a worker that is still computing; and no spawn is applied twice or after
      it was cancelled. */
  lemma JobSafety(events: seq<Event>, r: Runtime)
    requires Reaches(IDLE, events, r)
    ensures r.active.None? ==> r.worker.None? && r.channel.None?
    ensures r.worker.Some? && !r.worker.value.sent ==> r.channel.None?
    ensures r.channel.Some? ==> r.worker.None? || r.worker.value.sent
    ensures r.dropped == 0
    ensures forall i, j :: 0 <= i < j < |r.applied| ==> r.applied[i].serial != r.applied[j].serial
    ensures forall i :: 0 <= i < |r.applied| ==> r.applied[i].serial !in r.cancelled
  {
    ReachableOk(IDLE, events, r);
  }

  /** A job whose worker is gone without a result: nothing will ever end it. */
  predicate Stalled(r: Runtime) {
    r.active.Some? && r.worker.None? && r.channel.None?
  }

  /** The runtime stalls exactly when some worker panics. */
  lemma {:induction false} OnlyPanicsStall(start: Runtime, events: seq<Event>, r: Runtime)
    requires JobOk(start) && !Stalled(start) && Reaches(start, events, r)
    ensures Stalled(r) <==> exists i :: 0 <= i < |events| && events[i].WorkerPanics?
    decreases |events|
  {
    if events != [] {
      var next := Next(start, events[0]);
      if events[0].WorkerPanics? {
        StalledForGood(next, events[1..], r);
      } else {
        NoStall(start, events[0]);
        OnlyPanicsStall(next, events[1..], r);
        assert forall i :: 0 < i < |events| ==> events[i] == events[1..][i - 1];
        assert forall i :: 0 <= i < |events| - 1 ==> events[1..][i] == events[i + 1];
      }
    }
  }

  lemma NoStall(r: Runtime, e: Event)
    requires JobOk(r) && !Stalled(r) && Enabled(r, e) && !e.WorkerPanics?
    ensures JobOk(Next(r, e)) && !Stalled(Next(r, e))
  {
  }

  /** Once stalled, always stalled: the runtime holds a sender of its own, so the channel never closes and no
      later frame notices; no job is started and no result applied again. */
  lemma {:induction false} StalledForGood(start: Runtime, events: seq<Event>, r: Runtime)
    requires Stalled(start) && Reaches(start, events, r)
    ensures Stalled(r) && r.spawned == start.spawned && r.applied == start.applied
    decreases |events|
  {
    if events != [] {
      StalledForGood(Next(start, events[0]), events[1..], r);
    }
  }

  /** Whatever a frame applies is the result of the active, uncancelled job, and that job's key is the
      current key: same epoch, session, scenario, revision, player and position. */
  lemma AppliesOnlyCurrent(r: Runtime, input: Input)
    requires JobOk(r)
    ensures var r' := Drive(r, input);
            || r'.applied == r.applied
            || (&& r.active.Some? && !r.active.value.cancelled && input.eligible && input.accepts
                && input.current == Some(r.active.value.key)
                && r.channel.Some? && r.channel.value.decision.Chosen?
                && r'.applied == r.applied + [Applied(r.active.value.serial, r.active.value.key, r.channel.value.decision.action)])
  {
  }

  /** A result is applied exactly if it is an action that the reducer accepts, of an uncancelled job whose key is the
      current one in a frame where the AI is to move. */
  lemma AppliesExactly(r: Runtime, input: Input)
    requires JobOk(r)
    ensures Drive(r, input).applied != r.applied
            <==> && r.active.Some? && !r.active.value.cancelled && input.eligible && input.current == Some(r.active.value.key)
                 && r.channel.Some? && r.channel.value.decision.Chosen? && input.accepts
  {
    AppliesOnlyCurrent(r, input);
  }

  /** A job is withdrawn for good at the first frame in which its key is not the current one or the AI is not to move. */
  lemma StaleIsCancelled(r: Runtime, input: Input)
    requires JobOk(r) && r.active.Some? && (!input.eligible || input.current != Some(r.active.value.key))
    ensures r.active.value.serial in Drive(r, input).cancelled && Drive(r, input).applied == r.applied
  {
  }

  /** An error, a search without an action and an action the reducer refuses are remembered as the failure of the
      current key: nothing is applied, and no job is started in that frame. */
  lemma FailureRemembered(r: Runtime, input: Input)
    requires JobOk(r) && r.active.Some? && !r.active.value.cancelled && r.channel.Some?
    requires input.eligible && input.current == Some(r.active.value.key) && !input.retry && !input.forfeit
    requires r.channel.value.decision.Chosen? ==> !input.accepts
    ensures var r' := Drive(r, input);
            && r'.failed == input.current && r'.active.None? && r'.worker.None? && r'.channel.None?
            && r'.applied == r.applied && r'.spawned == r.spawned
  {
  }

  /** And as long as that key stays current and nobody retries or forfeits, no run of frames does anything. */
  lemma {:induction false} FailedKeyWaits(start: Runtime, key: SnapshotKey, events: seq<Event>, r: Runtime)
    requires start.active.None? && start.worker.None? && start.channel.None? && start.failed == Some(key)
    requires Reaches(start, events, r)
    requires forall i :: 0 <= i < |events| && events[i].FrameRuns? ==>
               events[i].input.current == Some(key) && !events[i].input.retry && !events[i].input.forfeit
    ensures r == start
    decreases |events|
  {
    if events != [] {
      FailedKeyWaits(Next(start, events[0]), key, events[1..], r);
    }
  }

  /** While no result arrives, a failure is forgotten exactly in a frame that finds its key current and is a retry, or a
      forfeit that the reducer accepts. */
  lemma FailureForgotten(r: Runtime, input: Input)
    requires r.channel.None?
    ensures Drive(r, input).failed
            == if r.failed == input.current && (input.retry || (input.forfeit && input.resigns)) then None else r.failed
  {
  }

  /** With no job, a frame in which the AI is to move starts one under the current key, unless that key has failed and
      is not retried. */
  lemma StartsExactly(r: Runtime, input: Input)
    requires JobOk(r) && r.active.None?
    ensures var r' := Drive(r, input);
            && (r'.spawned == r.spawned + 1
                <==> input.eligible && input.current.Some? && (r.failed != input.current || input.retry))
            && (r'.spawned != r.spawned ==> r'.active == Some(Job(r.nextId, input.current.value, false, r.spawned)))
  {
  }

  /** Bumping the epoch withdraws a job at the next frame, before its result could be applied, unless the
      epoch counter is already at its maximum. */
  lemma EpochWithdraws(r: Runtime, input: Input)
    requires JobOk(r) && r.active.Some? && input.current.Some?
    requires input.current.value.epoch == BumpEpoch(r.active.value.key.epoch)
    requires r.active.value.key.epoch < U64_MAX
    ensures Drive(r, input).applied == r.applied
    ensures r.active.value.serial in Drive(r, input).cancelled
  {
  }

  /** A frame that applies a result spawns another job under the key it has just used, which is already out
      of date: the key is read once, before the result is applied. */
  lemma ApplyingFrameRespawns(r: Runtime, input: Input)
    requires JobOk(r) && Drive(r, input).applied != r.applied
    requires r.failed != input.current
    ensures Drive(r, input).active.Some?
    ensures Drive(r, input).active.value.key == r.active.value.key
    ensures Drive(r, input).spawned == r.spawned + 1
  {
  }

  // ----- the positions behind the keys -----

  /** The runtime together with what a snapshot key is read from. `local` holds from the start of a local match
      until an online one takes its place. */
  datatype World = World(
    runtime: Runtime,
    epoch: nat,
    session: nat,
    scenario: string,
    revision: nat,
    player: Player,
    position: string,
    local: bool
  )

  /** One frame: whether an AI is due (`ready`), whether the position has a key, the two keys, what the reducer
      says, and who is to move where after an accepted action. */
  datatype Frame = Frame(
    ready: bool, keyed: bool, retry: bool, forfeit: bool, accepts: bool, resigns: bool, player: Player, position: string
  )

  /** A local step is a human action or a clock that runs out. Everything that puts another position in the place
      of the displayed one for local play (a new match, a loaded save, a guided start, resume or retry) bumps
      the epoch with it; pausing bumps it alone; an online snapshot replaces the position and ends local play. */
  datatype WorldEvent =
    | FrameStep(frame: Frame)
    | WorkerStep(event: Event)
    | LocalStep(rise: nat, player: Player, position: string)
    | Pause
    | Restore(session: nat, scenario: string, revision: nat, player: Player, position: string)
    | Online(scenario: string, revision: nat, player: Player, position: string)

  function KeyOf(w: World): SnapshotKey {
    SnapshotKey(w.epoch, w.session, w.scenario, w.revision, w.player, w.position)
  }

  function InputOf(w: World, f: Frame): Input {
    Input(if f.keyed then Some(KeyOf(w)) else None, w.local && f.ready, f.retry, f.forfeit, f.accepts, f.resigns)
  }

  predicate WorldEnabled(w: World, e: WorldEvent) {
    match e
    case WorkerStep(event) => !event.FrameRuns? && Enabled(w.runtime, event)
    case LocalStep(_, _, _) => w.local
    case _ => true
  }

  /** A frame drives the runtime; every accepted action, the AI's or a resignation, raises the revision. */
  function AfterFrame(w: World, f: Frame): World {
    var input := InputOf(w, f);
    var collected := Collect(CancelStale(w.runtime, input), input);
    var moved := if collected.applied != w.runtime.applied
                 then w.(revision := w.revision + 1, player := f.player, position := f.position) else w;
    var resigned := if Forfeits(collected, input) then moved.(revision := moved.revision + 1) else moved;
    resigned.(runtime := Drive(w.runtime, input))
  }

  function NextWorld(w: World, e: WorldEvent): World
    requires WorldEnabled(w, e)
  {
    match e
    case FrameStep(f) => AfterFrame(w, f)
    case WorkerStep(event) => w.(runtime := Next(w.runtime, event))
    case LocalStep(rise, player, position) => w.(revision := w.revision + rise, player := player, position := position)
    case Pause => w.(epoch := BumpEpoch(w.epoch))
    case Restore(session, scenario, revision, player, position) =>
      World(w.runtime, BumpEpoch(w.epoch), session, scenario, revision, player, position, true)
    case Online(scenario, revision, player, position) =>
      World(w.runtime, w.epoch, w.session, scenario, revision, player, position, false)
  }

  ghost predicate WorldReaches(start: World, events: seq<WorldEvent>, w: World)
    decreases |events|
  {
    if events == [] then w == start
    else WorldEnabled(start, events[0]) && WorldReaches(NextWorld(start, events[0]), events[1..], w)
  }

  /** How many of the events bump the epoch. */
  function Bumps(events: seq<WorldEvent>): nat {
    if events == [] then 0 else (if events[0].Pause? || events[0].Restore? then 1 else 0) + Bumps(events[1..])
  }

  /** Applied keys are distinct, of no later epoch than the present one, and behind the displayed position of a
      local match. */
  ghost predicate KeysBehind(w: World) {
    && (forall i, j :: 0 <= i < j < |w.runtime.applied| ==> w.runtime.applied[i].key != w.runtime.applied[j].key)
    && (forall i :: 0 <= i < |w.runtime.applied| ==> w.runtime.applied[i].key.epoch <= w.epoch)
    && (w.local ==> forall i :: 0 <= i < |w.runtime.applied| ==> Behind(w.runtime.applied[i].key, w))
  }

  predicate Behind(key: SnapshotKey, w: World) {
    key.epoch < w.epoch || (key.epoch == w.epoch && key.revision < w.revision)
  }

  lemma FrameKeepsBehind(w: World, f: Frame)
    requires JobOk(w.runtime) && HistoryOk(w.runtime) && KeysBehind(w)
    ensures KeysBehind(AfterFrame(w, f))
  {
    AppliesOnlyCurrent(w.runtime, InputOf(w, f));
  }

  lemma WorkerKeepsOk(r: Runtime, event: Event)
    requires JobOk(r) && HistoryOk(r) && Enabled(r, event) && !event.FrameRuns?
    ensures JobOk(Next(r, event)) && HistoryOk(Next(r, event)) && Next(r, event).applied == r.applied
  {
  }

  lemma StepKeepsBehind(w: World, e: WorldEvent)
    requires JobOk(w.runtime) && HistoryOk(w.runtime) && KeysBehind(w) && WorldEnabled(w, e)
    requires e.Pause? || e.Restore? ==> w.epoch < U64_MAX
    ensures var w' := NextWorld(w, e); JobOk(w'.runtime) && HistoryOk(w'.runtime) && KeysBehind(w')
  {
    match e
    case FrameStep(frame) =>
      FrameKeepsBehind(w, frame);
      DriveKeepsOk(w.runtime, InputOf(w, frame));
    case WorkerStep(event) => WorkerKeepsOk(w.runtime, event);
    case _ =>
  }

  /** No position is answered twice, as long as the epoch counter does not run out: a key that has been applied is
      never current again, because the action raised the revision and every other way back bumps the epoch. */
  lemma {:induction false} PositionsAnsweredOnce(start: World, events: seq<WorldEvent>, w: World)
    requires JobOk(start.runtime) && HistoryOk(start.runtime) && KeysBehind(start) && WorldReaches(start, events, w)
    requires start.epoch + Bumps(events) <= U64_MAX
    ensures forall i, j :: 0 <= i < j < |w.runtime.applied| ==> w.runtime.applied[i].key != w.runtime.applied[j].key
    decreases |events|
  {
    if events != [] {
      StepKeepsBehind(start, events[0]);
      PositionsAnsweredOnce(NextWorld(start, events[0]), events[1..], w);
    }
  }

  // ----- an exhausted epoch -----

  lemma ReachesFirst(start: World, e: WorldEvent, rest: seq<WorldEvent>, w: World)
    requires WorldEnabled(start, e) && WorldReaches(NextWorld(start, e), rest, w)
    ensures WorldReaches(start, [e] + rest, w)
    ensures Bumps([e] + rest) == (if e.Pause? || e.Restore? then 1 else 0) + Bumps(rest)
  {
    assert ([e] + rest)[1..] == rest;
  }

  /** A frame in which the AI is due and the reducer accepts. */
  function Due(player: Player): Frame {
    Frame(true, true, false, false, true, false, player, "")
  }

  /** An uncancelled job under the current key, still being computed. */
  predicate Computing(w: World, id: nat, serial: nat) {
    && w.runtime.active == Some(Job(id, KeyOf(w), false, serial))
    && w.runtime.worker == Some(Worker(id, KeyOf(w), false))
    && w.runtime.channel.None? && w.runtime.failed.None?
  }

  /** Its answer is applied, and the same frame starts another job under the same key. */
  lemma AnswerOnce(w: World, id: nat, serial: nat, action: Action) returns (events: seq<WorldEvent>, end: World)
    requires Computing(w, id, serial) && w.local
    ensures WorldReaches(w, events, end) && Bumps(events) == 0
    ensures end.runtime.applied == w.runtime.applied + [Applied(serial, KeyOf(w), action)]
    ensures Computing(w.(runtime := end.runtime), w.runtime.nextId, w.runtime.spawned)
    ensures end.epoch == w.epoch && end.local
  {
    var finish, due := WorkerStep(WorkerFinishes(Chosen(action))), FrameStep(Due(w.player));
    var mid := NextWorld(w, finish);
    end := NextWorld(mid, due);
    assert WorldReaches(end, [], end);
    ReachesFirst(mid, due, [], end);
    ReachesFirst(w, finish, [due] + [], end);
    events := [finish] + ([due] + []);
  }

  lemma {:induction false} ReachesBoth(start: World, first: seq<WorldEvent>, mid: World, rest: seq<WorldEvent>, w: World)
    requires WorldReaches(start, first, mid) && WorldReaches(mid, rest, w)
    ensures WorldReaches(start, first + rest, w) && Bumps(first + rest) == Bumps(first) + Bumps(rest)
    decreases |first|
  {
    if first == [] {
      assert first + rest == rest;
    } else {
      ReachesBoth(NextWorld(start, first[0]), first[1..], mid, rest, w);
      ReachesFirst(start, first[0], first[1..] + rest, w);
      assert [first[0]] + (first[1..] + rest) == first + rest;
    }
  }

  /** At the last epoch, restoring the position just answered brings its key back: it is answered again. */
  lemma AnswerTwice(w: World, action: Action) returns (events: seq<WorldEvent>, end: World)
    requires w.runtime == IDLE && w.local && w.epoch == U64_MAX
    ensures WorldReaches(w, events, end) && Bumps(events) == 1
    ensures |end.runtime.applied| == 2 && end.runtime.applied[0].key == end.runtime.applied[1].key
  {
    var due, back := FrameStep(Due(w.player)), Restore(w.session, w.scenario, w.revision, w.player, w.position);
    var w1 := NextWorld(w, due);
    var first, w2 := AnswerOnce(w1, 1, 0, action);
    var w3 := NextWorld(w2, back);
    assert w3 == w.(runtime := w2.runtime);
    var second;
    second, end := AnswerOnce(w3, 2, 1, action);
    ReachesFirst(w2, back, second, end);
    ReachesBoth(w1, first, w2, [back] + second, end);
    ReachesFirst(w, due, first + ([back] + second), end);
    events := [due] + (first + ([back] + second));
  }

  lemma {:induction false} PauseThenAnswerTwice(w: World, bumps: nat, action: Action) returns (events: seq<WorldEvent>, end: World)
    requires w.runtime == IDLE && w.local && w.epoch <= U64_MAX && bumps > 0 && w.epoch + bumps > U64_MAX
    ensures WorldReaches(w, events, end) && Bumps(events) == bumps
    ensures |end.runtime.applied| == 2 && end.runtime.applied[0].key == end.runtime.applied[1].key
    decreases bumps
  {
    if bumps == 1 {
      events, end := AnswerTwice(w, action);
    } else {
      var rest;
      rest, end := PauseThenAnswerTwice(NextWorld(w, Pause), bumps - 1, action);
      ReachesFirst(w, Pause, rest, end);
      events := [Pause] + rest;
    }
  }

  /** Every run with this many restores and pauses answers each position at most once. */
  ghost predicate AlwaysOnce(start: World, bumps: nat) {
    forall events, w :: WorldReaches(start, events, w) && Bumps(events) == bumps ==>
      forall i, j :: 0 <= i < j < |w.runtime.applied| ==> w.runtime.applied[i].key != w.runtime.applied[j].key
  }

  /** The exact condition: positions are answered once exactly when the epoch counter has room for every restore
      and pause. */
  lemma AnsweredOnceExactly(start: World, bumps: nat)
    requires start.runtime == IDLE && start.local && start.epoch <= U64_MAX
    ensures AlwaysOnce(start, bumps) <==> start.epoch + bumps <= U64_MAX
  {
    if start.epoch + bumps <= U64_MAX {
      forall events, w | WorldReaches(start, events, w) && Bumps(events) == bumps
        ensures forall i, j :: 0 <= i < j < |w.runtime.applied| ==> w.runtime.applied[i].key != w.runtime.applied[j].key
      {
        PositionsAnsweredOnce(start, events, w);
      }
    } else {
      var events, end := PauseThenAnswerTwice(start, bumps, Hold(start.player));
      assert end.runtime.applied[0].key == end.runtime.applied[1].key;
    }
  }

  // ----- the runtime in place -----

  class AiRuntime {
    var active: Option<Job>
    var nextId: nat
    var failed: Option<SnapshotKey>
    var worker: Option<Worker>
    var channel: Option<Message>
    var spawned: nat
    var applied: seq<Applied>
    var cancelled: set<nat>
    var dropped: nat

    ghost function Now(): Runtime
      reads this
    {
      Runtime(active, nextId, failed, worker, channel, spawned, applied, cancelled, dropped)
    }

    ghost predicate Valid()
      reads this
    {
      JobOk(Now()) && HistoryOk(Now())
    }

    constructor ()
      ensures Valid() && Now() == IDLE
    {
      active, nextId, failed, worker, channel := None, 1, None, None, None;
      spawned, applied, cancelled, dropped := 0, [], {}, 0;
    }

    method Cancel()
      requires Valid()
      modifies `active, `cancelled
      ensures Valid()
      ensures Now() == old(if active.Some? then Now().(active := Some(active.value.(cancelled := true)),
                                                       cancelled := cancelled + {active.value.serial}) else Now())
    {
      if active.Some? {
        cancelled := cancelled + {active.value.serial};
        active := Some(active.value.(cancelled := true));
      }
    }

    /** Takes a finished result, if there is one: the job is reaped, and the result applied only when it
        is still the active job's and still current. */
    method TakeResult(input: Input)
      modifies `active, `worker, `channel, `failed, `applied
      ensures Now() == Collect(old(Now()), input)
    {
      if channel.Some? {
        var message := channel.value;
        channel := None;
        var matching := Matches(active, message);
        var serial := if active.Some? then active.value.serial else 0;
        active, worker := None, None;
        if matching && input.eligible && input.current == Some(message.key) {
          match message.decision
          case SearchFailed => failed := Some(message.key);
          case NoAction => failed := Some(message.key);
          case Chosen(action) =>
            if input.accepts {
              applied := applied + [Applied(serial, message.key, action)];
            } else {
              failed := Some(message.key);
            }
        }
      }
    }

    method StartNext(input: Input)
      modifies `active, `worker, `nextId, `failed, `spawned
      ensures Now() == Settle(old(Now()), input)
    {
      if input.retry && failed == input.current {
        failed := None;
      }
      if input.forfeit && failed == input.current && input.resigns {
        failed := None;
        return;
      }
      if input.eligible && active.None? && failed != input.current && input.current.Some? {
        var key := input.current.value;
        active := Some(Job(nextId, key, false, spawned));
        worker := Some(Worker(nextId, key, false));
        nextId := NextId(nextId);
        spawned := spawned + 1;
      }
    }

    /** One frame. */
    method DriveFrame(input: Input)
      requires Valid()
      modifies this
      ensures Valid() && Now() == Drive(old(Now()), input)
    {
      DriveKeepsOk(Now(), input);
      if active.Some? && (!input.eligible || input.current != Some(active.value.key)) {
        Cancel();
      }
      TakeResult(input);
      StartNext(input);
    }

    /** The worker's last step, and its thread ending. */
    method FinishWork(decision: Decision)
      requires worker.Some? && !worker.value.sent
      modifies `worker, `channel, `dropped
      ensures Now() == Finish(old(Now()), decision)
      ensures old(Valid()) ==> Valid() && channel == Some(Message(old(worker.value.id), old(worker.value.key), decision))
    {
      var message := Message(worker.value.id, worker.value.key, decision);
      worker := Some(worker.value.(sent := true));
      if channel.None? {
        channel := Some(message);
      } else {
        dropped := dropped + 1;
      }
    }
  }
}
