/** The actor that decides the commands of one match: a bounded idempotency cache, the
    expected-revision check, then execution; a fatal failure ends the actor. */
module Actor {
  import opened Rules
  import opened Counting

  const MAX_CACHED_MUTATIONS_PER_MATCH: nat := 4_096

  datatype Command = Command(matchId: nat, expected: nat, key: nat, seat: Player, action: string)

  datatype Snapshot = Snapshot(matchId: nat, revision: nat, stateHash: string)

  datatype Rejection = WrongSeat | InactivePhase | ExpiredTime | IllegalAction

  datatype Reply =
    | Accepted(key: nat, snapshot: Snapshot)
    | Stale(snapshot: Snapshot)
    | Rejected(reason: Rejection, snapshot: Snapshot)

  /** What a submitter hears: an answer, that the actor failed on its command, or that it is gone. */
  datatype Response = Answer(reply: Reply) | Failed | Unavailable

  /** What the executor does when asked to apply a command, and its snapshot afterwards. A fatal
      failure may have been committed to durable storage, at the given revision. */
  datatype Execution =
    | Applied(after: Snapshot)
    | Refused(reason: Rejection, after: Snapshot)
    | Broken(committed: Option<nat>)

  datatype ActorState = ActorState(decisions: map<nat, Reply>, order: seq<nat>, snapshot: Snapshot, live: bool)

  function Fresh(snapshot: Snapshot): ActorState {
    ActorState(map[], [], snapshot, true)
  }

  /** Records a decision and evicts the oldest beyond the cap; no cap means an unbounded memo. */
  function Remember(s: ActorState, cap: Option<nat>, key: nat, decision: Reply): ActorState {
    var pushed := Push(s, key, decision);
    if cap.Some? && |pushed.decisions| > cap.value then Evict(pushed) else pushed
  }

  function Push(s: ActorState, key: nat, decision: Reply): (pushed: ActorState)
    ensures pushed.order != []
  {
    s.(decisions := s.decisions[key := decision], order := s.order + [key])
  }

  function Evict(s: ActorState): ActorState
    requires s.order != []
  {
    s.(decisions := s.decisions - {s.order[0]}, order := s.order[1..])
  }

  /** Whether a command passes the cache and the revision check, and so reaches the executor. */
  predicate Executes(s: ActorState, matchId: nat, cmd: Command) {
    s.live && cmd.key !in s.decisions && cmd.matchId == matchId && cmd.expected == s.snapshot.revision
  }

  function Decide(s: ActorState, cap: Option<nat>, matchId: nat, cmd: Command, exec: Execution): (ActorState, Response) {
    if !s.live then (s, Unavailable)
    else if cmd.key in s.decisions then (s, Answer(s.decisions[cmd.key]))
    else if cmd.matchId != matchId || cmd.expected != s.snapshot.revision then (s, Answer(Stale(s.snapshot)))
    else
      match exec
      case Applied(after) =>
        var decision := Accepted(cmd.key, after);
        (Remember(s.(snapshot := after), cap, cmd.key, decision), Answer(decision))
      case Refused(reason, after) =>
        var decision := Rejected(reason, after);
        (Remember(s.(snapshot := after), cap, cmd.key, decision), Answer(decision))
      case Broken(_) => (s.(live := false), Failed)
  }

  // ----- the bounded cache -----

  /** The eviction queue lists exactly the cached keys, once each, within the cap. */
  ghost predicate CacheOk(s: ActorState, cap: nat) {
    && Distinct(s.order)
    && Elements(s.order) == s.decisions.Keys
    && |s.order| == |s.decisions| <= cap
  }

  lemma PushKeepsCache(s: ActorState, cap: nat, key: nat, decision: Reply)
    requires CacheOk(s, cap) && key !in s.decisions
    ensures CacheOk(Push(s, key, decision), cap + 1)
    ensures |Push(s, key, decision).decisions| == |s.decisions| + 1
  {
    assert key !in Elements(s.order);
    assert Elements(s.order + [key]) == Elements(s.order) + {key};
    assert s.decisions[key := decision].Keys == s.decisions.Keys + {key};
    assert |s.decisions.Keys + {key}| == |s.decisions.Keys| + 1;
  }

  lemma RestOfOrder(order: seq<nat>)
    requires order != [] && Distinct(order)
    ensures Distinct(order[1..])
    ensures Elements(order[1..]) == Elements(order) - {order[0]}
  {
    forall k
      ensures k in order[1..] <==> k in order && k != order[0]
    {
      if k in order && k != order[0] {
        var i :| 0 <= i < |order| && order[i] == k;
        assert order[1..][i - 1] == k;
      }
    }
  }

  lemma EvictKeepsCache(s: ActorState, cap: nat)
    requires CacheOk(s, cap + 1) && |s.decisions| == cap + 1
    ensures CacheOk(Evict(s), cap)
    ensures Evict(s).decisions.Keys == s.decisions.Keys - {s.order[0]}
  {
    var oldest := s.order[0];
    RestOfOrder(s.order);
    assert oldest in Elements(s.order);
    assert (s.decisions - {oldest}).Keys == s.decisions.Keys - {oldest};
    assert |s.decisions.Keys - {oldest}| == |s.decisions.Keys| - 1;
  }

  lemma RememberKeepsCache(s: ActorState, cap: nat, key: nat, decision: Reply)
    requires CacheOk(s, cap) && cap > 0 && key !in s.decisions
    ensures CacheOk(Remember(s, Some(cap), key, decision), cap)
    ensures |Push(s, key, decision).decisions| > cap <==> |s.order| == cap
  {
    PushKeepsCache(s, cap, key, decision);
    var pushed := Push(s, key, decision);
    if |pushed.decisions| > cap {
      EvictKeepsCache(pushed, cap);
    }
  }

  /** Remembering appends the key to the queue, dropping the oldest at the cap. */
  lemma RememberQueues(s: ActorState, cap: nat, key: nat, decision: Reply)
    requires CacheOk(s, cap) && cap > 0 && key !in s.decisions
    ensures Remember(s, Some(cap), key, decision).order == (if |s.order| == cap then s.order[1..] else s.order) + [key]
  {
    RememberKeepsCache(s, cap, key, decision);
    if |s.order| == cap {
      assert (s.order + [key])[1..] == s.order[1..] + [key];
    }
  }

  /** Every decision keeps the cache invariant. */
  lemma DecideKeepsCache(s: ActorState, cap: nat, matchId: nat, cmd: Command, exec: Execution)
    requires CacheOk(s, cap) && cap > 0
    ensures CacheOk(Decide(s, Some(cap), matchId, cmd, exec).0, cap)
  {
    if Executes(s, matchId, cmd) {
      match exec
      case Applied(after) =>
        RememberKeepsCache(s.(snapshot := after), cap, cmd.key, Accepted(cmd.key, after));
      case Refused(reason, after) =>
        RememberKeepsCache(s.(snapshot := after), cap, cmd.key, Rejected(reason, after));
      case Broken(_) =>
    }
  }

  // ----- whole queues -----

  datatype Queued = Queued(command: Command, execution: Execution)

  /** Drains a queue: the responses in order, and the actor afterwards. */
  function Drain(s: ActorState, cap: Option<nat>, matchId: nat, queue: seq<Queued>): (r: (ActorState, seq<Response>))
    ensures |r.1| == |queue|
    decreases |queue|
  {
    if queue == [] then (s, [])
    else
      var (s', response) := Decide(s, cap, matchId, queue[0].command, queue[0].execution);
      var (end, rest) := Drain(s', cap, matchId, queue[1..]);
      (end, [response] + rest)
  }

  lemma {:induction false} DrainAppend(s: ActorState, cap: Option<nat>, matchId: nat, queue: seq<Queued>, last: Queued)
    ensures var (mid, responses) := Drain(s, cap, matchId, queue);
            var (end, response) := Decide(mid, cap, matchId, last.command, last.execution);
            Drain(s, cap, matchId, queue + [last]) == (end, responses + [response])
    decreases |queue|
  {
    var queue' := queue + [last];
    if queue == [] {
      assert queue' == [last] && queue'[1..] == [];
      var (end, response) := Decide(s, cap, matchId, last.command, last.execution);
      assert Drain(end, cap, matchId, queue'[1..]) == (end, []);
      assert [response] + [] == [] + [response];
    } else {
      var (s', head) := Decide(s, cap, matchId, queue[0].command, queue[0].execution);
      DrainAppend(s', cap, matchId, queue[1..], last);
      assert queue'[1..] == queue[1..] + [last] && queue'[0] == queue[0];
      var (mid, rest) := Drain(s', cap, matchId, queue[1..]);
      var response := Decide(mid, cap, matchId, last.command, last.execution).1;
      assert [head] + (rest + [response]) == ([head] + rest) + [response];
    }
  }

  lemma {:induction false} DrainKeepsCache(s: ActorState, cap: nat, matchId: nat, queue: seq<Queued>)
    requires CacheOk(s, cap) && cap > 0
    ensures CacheOk(Drain(s, Some(cap), matchId, queue).0, cap)
    decreases |queue|
  {
    if queue != [] {
      DecideKeepsCache(s, cap, matchId, queue[0].command, queue[0].execution);
      DrainKeepsCache(Decide(s, Some(cap), matchId, queue[0].command, queue[0].execution).0, cap, matchId, queue[1..]);
    }
  }

  // ----- how an actor ends, and what it answers -----

  /** The i-th response is the decision of the actor that has drained the commands before. */
  lemma {:induction false} ResponseAt(s: ActorState, cap: Option<nat>, matchId: nat, queue: seq<Queued>, i: nat)
    requires i < |queue|
    ensures var before := Drain(s, cap, matchId, queue[..i]).0;
            Drain(s, cap, matchId, queue).1[i] == Decide(before, cap, matchId, queue[i].command, queue[i].execution).1
    decreases i
  {
    if i == 0 {
      assert queue[..0] == [];
    } else {
      var s' := Decide(s, cap, matchId, queue[0].command, queue[0].execution).0;
      ResponseAt(s', cap, matchId, queue[1..], i - 1);
      assert queue[..i][0] == queue[0] && queue[..i][1..] == queue[1..][..i - 1];
    }
  }

  lemma {:induction false} DeadActor(s: ActorState, cap: Option<nat>, matchId: nat, queue: seq<Queued>)
    requires !s.live
    ensures Drain(s, cap, matchId, queue).0 == s
    ensures forall j :: 0 <= j < |queue| ==> Drain(s, cap, matchId, queue).1[j] == Unavailable
    decreases |queue|
  {
    if queue != [] {
      DeadActor(s, cap, matchId, queue[1..]);
    }
  }

  /** A fatal failure ends the actor: every later command finds it gone, and it keeps for good the decisions, the
      queue and the snapshot it had before the command it failed on. */
  lemma {:induction false} FatalFailureEnds(s: ActorState, cap: Option<nat>, matchId: nat, queue: seq<Queued>, i: nat)
    requires i < |queue| && Drain(s, cap, matchId, queue).1[i] == Failed
    ensures forall j :: i < j < |queue| ==> Drain(s, cap, matchId, queue).1[j] == Unavailable
    ensures var before, end := Drain(s, cap, matchId, queue[..i]).0, Drain(s, cap, matchId, queue).0;
            before.live && !end.live
            && end.decisions == before.decisions && end.order == before.order && end.snapshot == before.snapshot
    decreases i
  {
    var s' := Decide(s, cap, matchId, queue[0].command, queue[0].execution).0;
    if i == 0 {
      assert queue[..0] == [];
      DeadActor(s', cap, matchId, queue[1..]);
    } else {
      FatalFailureEnds(s', cap, matchId, queue[1..], i - 1);
      assert queue[..i][0] == queue[0] && queue[..i][1..] == queue[1..][..i - 1];
    }
  }

  /** A command finds the actor gone exactly if it was gone from the start or has failed on an earlier command. */
  lemma {:induction false} UnavailableExactly(s: ActorState, cap: Option<nat>, matchId: nat, queue: seq<Queued>, i: nat)
    requires i < |queue|
    ensures var responses := Drain(s, cap, matchId, queue).1;
            responses[i] == Unavailable <==> !s.live || exists j :: 0 <= j < i && responses[j] == Failed
    decreases i
  {
    var responses := Drain(s, cap, matchId, queue).1;
    if s.live && i > 0 {
      var s' := Decide(s, cap, matchId, queue[0].command, queue[0].execution).0;
      UnavailableExactly(s', cap, matchId, queue[1..], i - 1);
      assert forall j :: 0 <= j < i - 1 ==> Drain(s', cap, matchId, queue[1..]).1[j] == responses[j + 1];
      if responses[0] != Failed && exists j :: 0 <= j < i && responses[j] == Failed {
        var j :| 0 <= j < i && responses[j] == Failed;
        assert Drain(s', cap, matchId, queue[1..]).1[j - 1] == Failed;
      }
    } else if !s.live {
      DeadActor(s, cap, matchId, queue);
    }
  }

  /** A command fails exactly if the live actor has no decision for its key, it names this match at the current
      revision, and the executor breaks on it. */
  lemma FailedExactly(s: ActorState, cap: Option<nat>, matchId: nat, queue: seq<Queued>, i: nat)
    requires i < |queue|
    ensures var before, cmd := Drain(s, cap, matchId, queue[..i]).0, queue[i].command;
            Drain(s, cap, matchId, queue).1[i] == Failed
            <==> before.live && cmd.key !in before.decisions && cmd.matchId == matchId
                 && cmd.expected == before.snapshot.revision && queue[i].execution.Broken?
  {
    ResponseAt(s, cap, matchId, queue, i);
  }

  /** A live actor answers a fresh command at its revision with what the executor did, and remembers that answer: the
      same command sent again, whatever the executor would do now, is answered alike and changes nothing. */
  lemma ExecutedAnswerRepeats(s: ActorState, cap: nat, matchId: nat, cmd: Command, exec: Execution, again: Execution)
    requires CacheOk(s, cap) && cap > 0
    requires s.live && cmd.key !in s.decisions && cmd.matchId == matchId && cmd.expected == s.snapshot.revision && !exec.Broken?
    ensures var (s', response) := Decide(s, Some(cap), matchId, cmd, exec);
            && s'.live && s'.snapshot == exec.after
            && response == Answer(if exec.Applied? then Accepted(cmd.key, exec.after) else Rejected(exec.reason, exec.after))
            && Decide(s', Some(cap), matchId, cmd, again) == (s', response)
  {
    var decision := if exec.Applied? then Accepted(cmd.key, exec.after) else Rejected(exec.reason, exec.after);
    var s1 := s.(snapshot := exec.after);
    RememberKeepsCache(s1, cap, cmd.key, decision);
    if |s.order| == cap {
      assert s.order[0] in Elements(s.order);
      assert Push(s1, cmd.key, decision).order[0] == s.order[0] != cmd.key;
    }
  }

  // ----- refinement of the unbounded memo -----

  /** The executor never lowers the revision and an applied command strictly raises it. */
  predicate Raises(before: Snapshot, exec: Execution) {
    match exec
    case Applied(after) => after.revision > before.revision
    case Refused(_, after) => after.revision >= before.revision
    case Broken(_) => true
  }

  predicate Evicted(b: ActorState, u: ActorState, key: nat) {
    key in u.decisions && key !in b.decisions
  }

  /** The bounded actor `b` against an actor `u` that remembers every decision; `bound` is the
      command each key stands for. */
  ghost predicate Agrees(b: ActorState, u: ActorState, bound: map<nat, Command>) {
    && b.snapshot == u.snapshot && b.live == u.live
    && (forall k :: k in b.decisions ==> k in u.decisions && u.decisions[k] == b.decisions[k])
    && (forall k :: k in u.decisions ==> k in bound)
    && (forall k :: k in u.decisions && u.decisions[k].Accepted? ==> bound[k].expected < u.snapshot.revision)
  }

  ghost predicate Refines(b: ActorState, u: ActorState, cap: nat, bound: map<nat, Command>) {
    CacheOk(b, cap) && Agrees(b, u, bound)
  }

  /** The one case in which a bounded actor does what an unbounded one would not: it executes
      a command again whose rejection it has forgotten. */
  predicate Reexecutes(b: ActorState, u: ActorState, matchId: nat, cmd: Command) {
    Evicted(b, u, cmd.key) && Executes(b, matchId, cmd)
  }

  function Decision(key: nat, exec: Execution): Reply
    requires !exec.Broken?
  {
    if exec.Applied? then Accepted(key, exec.after) else Rejected(exec.reason, exec.after)
  }

  lemma ExecutionAgrees(b: ActorState, u: ActorState, cap: nat, bound: map<nat, Command>, cmd: Command, exec: Execution)
    requires Agrees(b, u, bound)
    requires cmd.key in bound && bound[cmd.key] == cmd && cmd.key !in u.decisions
    requires !exec.Broken? && cmd.expected == b.snapshot.revision && Raises(b.snapshot, exec)
    ensures var decision := Decision(cmd.key, exec);
            Agrees(Remember(b.(snapshot := exec.after), Some(cap), cmd.key, decision),
                   Remember(u.(snapshot := exec.after), None, cmd.key, decision), bound)
  {
  }

  lemma StepRefines(b: ActorState, u: ActorState, cap: nat, bound: map<nat, Command>, matchId: nat, cmd: Command, exec: Execution)
    requires Refines(b, u, cap, bound) && cap > 0
    requires cmd.key in bound && bound[cmd.key] == cmd
    requires Raises(b.snapshot, exec)
    ensures var (b', br) := Decide(b, Some(cap), matchId, cmd, exec);
            var (u', ur) := Decide(u, None, matchId, cmd, exec);
            && (!Reexecutes(b, u, matchId, cmd) ==> Refines(b', u', cap, bound))
            && (!Evicted(b, u, cmd.key) ==> br == ur)
            && (Evicted(b, u, cmd.key) && b.live && !Reexecutes(b, u, matchId, cmd) ==> br == Answer(Stale(b.snapshot)))
            && (Reexecutes(b, u, matchId, cmd) ==> !u.decisions[cmd.key].Accepted?)
  {
    DecideKeepsCache(b, cap, matchId, cmd, exec);
    if Executes(b, matchId, cmd) && !exec.Broken? && cmd.key !in u.decisions {
      ExecutionAgrees(b, u, cap, bound, cmd, exec);
    }
  }

  /** At no point of the run is a forgotten rejection executed again. */
  ghost predicate NeverReexecutes(b: ActorState, u: ActorState, cap: nat, matchId: nat, queue: seq<Queued>)
    decreases |queue|
  {
    queue == [] ||
      var cmd, exec := queue[0].command, queue[0].execution;
      && !Reexecutes(b, u, matchId, cmd)
      && NeverReexecutes(Decide(b, Some(cap), matchId, cmd, exec).0, Decide(u, None, matchId, cmd, exec).0,
                         cap, matchId, queue[1..])
  }

  ghost predicate WellBehaved(b: ActorState, cap: nat, bound: map<nat, Command>, matchId: nat, queue: seq<Queued>)
    decreases |queue|
  {
    queue == [] ||
      var cmd, exec := queue[0].command, queue[0].execution;
      && cmd.key in bound && bound[cmd.key] == cmd
      && Raises(b.snapshot, exec)
      && WellBehaved(Decide(b, Some(cap), matchId, cmd, exec).0, cap, bound, matchId, queue[1..])
  }

  /** Over every run in which each key always carries the same command, the bounded actor gives
      exactly the unbounded actor's answers, except Stale to a key it has forgotten; an accepted
      key that was forgotten always gets Stale and is never executed again. */
  lemma {:induction false} BoundedCacheRefinesMemo(b: ActorState, u: ActorState, cap: nat, bound: map<nat, Command>,
                                                   matchId: nat, queue: seq<Queued>)
    requires cap > 0 && Refines(b, u, cap, bound)
    requires WellBehaved(b, cap, bound, matchId, queue) && NeverReexecutes(b, u, cap, matchId, queue)
    ensures var (bEnd, br) := Drain(b, Some(cap), matchId, queue);
            var (uEnd, ur) := Drain(u, None, matchId, queue);
            && Refines(bEnd, uEnd, cap, bound)
            && forall i :: 0 <= i < |queue| ==>
                 var key := queue[i].command.key;
                 br[i] == ur[i]
                 || (br[i].Answer? && br[i].reply.Stale? && key in uEnd.decisions && ur[i] == Answer(uEnd.decisions[key]))
    decreases |queue|
  {
    if queue != [] {
      var cmd, exec := queue[0].command, queue[0].execution;
      StepRefines(b, u, cap, bound, matchId, cmd, exec);
      var b', u' := Decide(b, Some(cap), matchId, cmd, exec).0, Decide(u, None, matchId, cmd, exec).0;
      BoundedCacheRefinesMemo(b', u', cap, bound, matchId, queue[1..]);
      MemoGrows(u', matchId, queue[1..]);
    }
  }

  lemma {:induction false} MemoGrows(u: ActorState, matchId: nat, queue: seq<Queued>)
    ensures var uEnd := Drain(u, None, matchId, queue).0;
            forall k :: k in u.decisions ==> k in uEnd.decisions && uEnd.decisions[k] == u.decisions[k]
    decreases |queue|
  {
    if queue != [] {
      MemoGrows(Decide(u, None, matchId, queue[0].command, queue[0].execution).0, matchId, queue[1..]);
    }
  }

  // ----- accepted keys -----

  /** A key that has been accepted: its command's revision has passed, and what is cached for it, if
      anything still is, is the acceptance. */
  ghost predicate Spent(s: ActorState, bound: map<nat, Command>, key: nat, reply: Reply) {
    && key in bound && bound[key].expected < s.snapshot.revision
    && (key in s.decisions ==> s.decisions[key] == reply)
  }

  /** The only answers left for such a key. */
  predicate Replayed(response: Response, reply: Reply) {
    response == Answer(reply) || (response.Answer? && response.reply.Stale?) || response == Unavailable
  }

  lemma StepKeepsSpent(s: ActorState, cap: nat, bound: map<nat, Command>, matchId: nat, cmd: Command, exec: Execution,
                       key: nat, reply: Reply)
    requires Spent(s, bound, key, reply)
    requires cmd.key in bound && bound[cmd.key] == cmd && Raises(s.snapshot, exec)
    ensures Spent(Decide(s, Some(cap), matchId, cmd, exec).0, bound, key, reply)
    ensures cmd.key == key ==> Replayed(Decide(s, Some(cap), matchId, cmd, exec).1, reply)
  {
  }

  lemma {:induction false} SpentStays(s: ActorState, cap: nat, bound: map<nat, Command>, matchId: nat, queue: seq<Queued>,
                                      key: nat, reply: Reply)
    requires Spent(s, bound, key, reply) && WellBehaved(s, cap, bound, matchId, queue)
    ensures var responses := Drain(s, Some(cap), matchId, queue).1;
            forall i :: 0 <= i < |queue| && queue[i].command.key == key ==> Replayed(responses[i], reply)
    decreases |queue|
  {
    if queue != [] {
      var cmd, exec := queue[0].command, queue[0].execution;
      StepKeepsSpent(s, cap, bound, matchId, cmd, exec, key, reply);
      SpentStays(Decide(s, Some(cap), matchId, cmd, exec).0, cap, bound, matchId, queue[1..], key, reply);
    }
  }

  /** Cached acceptances are of commands whose revision has passed. */
  ghost predicate AcceptancesPassed(s: ActorState, bound: map<nat, Command>) {
    forall k :: k in s.decisions && s.decisions[k].Accepted? ==> Spent(s, bound, k, s.decisions[k])
  }

  lemma StepKeepsPassed(s: ActorState, cap: nat, bound: map<nat, Command>, matchId: nat, cmd: Command, exec: Execution)
    requires AcceptancesPassed(s, bound)
    requires cmd.key in bound && bound[cmd.key] == cmd && Raises(s.snapshot, exec)
    ensures var (s', response) := Decide(s, Some(cap), matchId, cmd, exec);
            AcceptancesPassed(s', bound)
            && (response.Answer? && response.reply.Accepted? ==> Spent(s', bound, cmd.key, response.reply))
  {
  }

  /** What `AcceptedAtMostOnce` says of two positions of a queue. */
  predicate ReplayedLater(queue: seq<Queued>, responses: seq<Response>, i: nat, j: nat)
    requires i < j < |queue| == |responses|
  {
    queue[i].command.key == queue[j].command.key && responses[i].Answer? && responses[i].reply.Accepted? ==>
      Replayed(responses[j], responses[i].reply)
  }

  /** Without any proviso: once a key has been accepted, every later submission of it is answered with that
      acceptance, Stale, or "unavailable", however much the cache has evicted in between. */
  lemma {:induction false} AcceptedAtMostOnce(s: ActorState, cap: nat, bound: map<nat, Command>, matchId: nat, queue: seq<Queued>,
                                              i: nat, j: nat)
    requires AcceptancesPassed(s, bound) && WellBehaved(s, cap, bound, matchId, queue)
    requires i < j < |queue|
    ensures ReplayedLater(queue, Drain(s, Some(cap), matchId, queue).1, i, j)
    decreases |queue|
  {
    var cmd, exec := queue[0].command, queue[0].execution;
    var (s', response) := Decide(s, Some(cap), matchId, cmd, exec);
    var responses := Drain(s, Some(cap), matchId, queue).1;
    var rest := Drain(s', Some(cap), matchId, queue[1..]).1;
    assert responses == [response] + rest;
    StepKeepsPassed(s, cap, bound, matchId, cmd, exec);
    if i > 0 {
      AcceptedAtMostOnce(s', cap, bound, matchId, queue[1..], i - 1, j - 1);
    } else if response.Answer? && response.reply.Accepted? {
      SpentStays(s', cap, bound, matchId, queue[1..], cmd.key, response.reply);
      assert queue[1..][j - 1] == queue[j] && responses[j] == rest[j - 1];
    }
  }

  // ----- exactly when the bounded cache is enough -----

  /** The bounded actor's answer is the unbounded one's, or Stale to a key that only the latter remembers. */
  predicate Matches(br: Response, ur: Response, u: ActorState, key: nat) {
    br == ur || (br.Answer? && br.reply.Stale? && key in u.decisions && ur == Answer(u.decisions[key]))
  }

  predicate StepMatches(b: ActorState, u: ActorState, cap: nat, matchId: nat, cmd: Command, exec: Execution) {
    Matches(Decide(b, Some(cap), matchId, cmd, exec).1, Decide(u, None, matchId, cmd, exec).1, u, cmd.key)
  }

  /** One step: the answers match whatever the executor does exactly when no forgotten rejection is executed. */
  lemma StepExactly(b: ActorState, u: ActorState, cap: nat, bound: map<nat, Command>, matchId: nat, cmd: Command)
    requires Refines(b, u, cap, bound) && cap > 0
    requires cmd.key in bound && bound[cmd.key] == cmd
    ensures (forall exec :: Raises(b.snapshot, exec) ==> StepMatches(b, u, cap, matchId, cmd, exec))
            <==> !Reexecutes(b, u, matchId, cmd)
  {
    if Reexecutes(b, u, matchId, cmd) {
      assert Raises(b.snapshot, Broken(None));
      assert !StepMatches(b, u, cap, matchId, cmd, Broken(None));
    } else {
      forall exec | Raises(b.snapshot, exec)
        ensures StepMatches(b, u, cap, matchId, cmd, exec)
      {
        StepRefines(b, u, cap, bound, matchId, cmd, exec);
      }
    }
  }

  /** Every answer of a run matches. */
  ghost predicate RunMatches(b: ActorState, u: ActorState, cap: nat, matchId: nat, queue: seq<Queued>)
    decreases |queue|
  {
    queue == [] ||
      var cmd, exec := queue[0].command, queue[0].execution;
      && StepMatches(b, u, cap, matchId, cmd, exec)
      && RunMatches(Decide(b, Some(cap), matchId, cmd, exec).0, Decide(u, None, matchId, cmd, exec).0, cap, matchId, queue[1..])
  }

  lemma {:induction false} NeverReexecutesMatches(b: ActorState, u: ActorState, cap: nat, bound: map<nat, Command>,
                                                  matchId: nat, queue: seq<Queued>)
    requires cap > 0 && Refines(b, u, cap, bound)
    requires WellBehaved(b, cap, bound, matchId, queue) && NeverReexecutes(b, u, cap, matchId, queue)
    ensures RunMatches(b, u, cap, matchId, queue)
    decreases |queue|
  {
    if queue != [] {
      var cmd, exec := queue[0].command, queue[0].execution;
      StepRefines(b, u, cap, bound, matchId, cmd, exec);
      NeverReexecutesMatches(Decide(b, Some(cap), matchId, cmd, exec).0, Decide(u, None, matchId, cmd, exec).0,
                             cap, bound, matchId, queue[1..]);
    }
  }

  /** The same commands, with an executor that fails on the first of them. */
  function Failing(queue: seq<Queued>): (failing: seq<Queued>)
    ensures |failing| == |queue|
    ensures forall i :: 0 <= i < |queue| ==> failing[i] == Queued(queue[i].command, Broken(None))
  {
    seq(|queue|, i requires 0 <= i < |queue| => Queued(queue[i].command, Broken(None)))
  }

  lemma {:induction false} FailingWellBehaved(b: ActorState, cap: nat, bound: map<nat, Command>, matchId: nat, queue: seq<Queued>)
    requires forall i :: 0 <= i < |queue| ==> queue[i].command.key in bound && bound[queue[i].command.key] == queue[i].command
    ensures WellBehaved(b, cap, bound, matchId, Failing(queue))
    decreases |queue|
  {
    if queue != [] {
      assert Failing(queue)[1..] == Failing(queue[1..]);
      FailingWellBehaved(Decide(b, Some(cap), matchId, queue[0].command, Broken(None)).0, cap, bound, matchId, queue[1..]);
    }
  }

  ghost predicate SameCommands(queue: seq<Queued>, other: seq<Queued>) {
    |queue| == |other| && forall i :: 0 <= i < |queue| ==> queue[i].command == other[i].command
  }

  lemma {:induction false} WellBehavedBound(b: ActorState, cap: nat, bound: map<nat, Command>, matchId: nat, queue: seq<Queued>)
    requires WellBehaved(b, cap, bound, matchId, queue)
    ensures forall i :: 0 <= i < |queue| ==> queue[i].command.key in bound && bound[queue[i].command.key] == queue[i].command
    decreases |queue|
  {
    if queue != [] {
      WellBehavedBound(Decide(b, Some(cap), matchId, queue[0].command, queue[0].execution).0, cap, bound, matchId, queue[1..]);
      assert forall i :: 0 < i < |queue| ==> queue[i] == queue[1..][i - 1];
    }
  }

  /** If some run of these commands re-executes a forgotten rejection, some run of them gives an answer that
      does not match: let the executor fail at that point. */
  lemma {:induction false} ReexecutionShows(b: ActorState, u: ActorState, cap: nat, bound: map<nat, Command>, matchId: nat,
                                            queue: seq<Queued>) returns (other: seq<Queued>)
    requires cap > 0 && Refines(b, u, cap, bound)
    requires WellBehaved(b, cap, bound, matchId, queue) && !NeverReexecutes(b, u, cap, matchId, queue)
    ensures SameCommands(queue, other) && WellBehaved(b, cap, bound, matchId, other) && !RunMatches(b, u, cap, matchId, other)
    decreases |queue|
  {
    var cmd, exec := queue[0].command, queue[0].execution;
    if Reexecutes(b, u, matchId, cmd) {
      WellBehavedBound(b, cap, bound, matchId, queue);
      FailingWellBehaved(b, cap, bound, matchId, queue);
      other := Failing(queue);
      assert !StepMatches(b, u, cap, matchId, cmd, Broken(None));
    } else {
      StepRefines(b, u, cap, bound, matchId, cmd, exec);
      var rest := ReexecutionShows(Decide(b, Some(cap), matchId, cmd, exec).0, Decide(u, None, matchId, cmd, exec).0,
                                   cap, bound, matchId, queue[1..]);
      other := [queue[0]] + rest;
      assert other[1..] == rest;
      assert forall i :: 0 < i < |queue| ==> queue[i] == queue[1..][i - 1] && other[i] == rest[i - 1];
    }
  }

  /** Whole queues: the answers match in every run of these commands exactly when none of the runs executes a
      forgotten rejection. */
  lemma RunExactly(b: ActorState, u: ActorState, cap: nat, bound: map<nat, Command>, matchId: nat, queue: seq<Queued>)
    requires cap > 0 && Refines(b, u, cap, bound)
    ensures (forall run :: SameCommands(queue, run) && WellBehaved(b, cap, bound, matchId, run) ==>
               RunMatches(b, u, cap, matchId, run))
            <==> (forall run :: SameCommands(queue, run) && WellBehaved(b, cap, bound, matchId, run) ==>
                    NeverReexecutes(b, u, cap, matchId, run))
  {
    forall run | SameCommands(queue, run) && WellBehaved(b, cap, bound, matchId, run) && NeverReexecutes(b, u, cap, matchId, run)
      ensures RunMatches(b, u, cap, matchId, run)
    {
      NeverReexecutesMatches(b, u, cap, bound, matchId, run);
    }
    if run :| SameCommands(queue, run) && WellBehaved(b, cap, bound, matchId, run) && !NeverReexecutes(b, u, cap, matchId, run) {
      var other := ReexecutionShows(b, u, cap, bound, matchId, run);
      assert SameCommands(queue, other);
    }
  }

  // ----- a condition on the commands alone -----

  /** The commands of this match that expect a given revision. */
  function Rivals(bound: map<nat, Command>, matchId: nat, revision: nat): set<nat> {
    set k | k in bound && bound[k].matchId == matchId && bound[k].expected == revision
  }

  /** At most `cap` commands compete for any one revision. */
  ghost predicate FewRivals(bound: map<nat, Command>, matchId: nat, cap: nat) {
    forall revision :: |Rivals(bound, matchId, revision)| <= cap
  }

  /** Each key carries one command. */
  predicate KeysOwnCommands(bound: map<nat, Command>) {
    forall k :: k in bound ==> bound[k].key == k
  }

  /** However these commands are ordered, duplicated and lost, from whatever revision, and whatever the executor
      does, the bounded actor answers as the unbounded one. */
  ghost predicate AlwaysMatches(bound: map<nat, Command>, matchId: nat, cap: nat) {
    forall start: Snapshot, queue :: WellBehaved(Fresh(start), cap, bound, matchId, queue) ==>
      RunMatches(Fresh(start), Fresh(start), cap, matchId, queue)
  }

  function Expected(bound: map<nat, Command>, key: nat): nat {
    if key in bound then bound[key].expected else 0
  }

  /** Expected revisions rise along the queue, up to the present revision. */
  predicate Rising(bound: map<nat, Command>, order: seq<nat>, revision: nat) {
    && (forall i, j :: 0 <= i < j < |order| ==> Expected(bound, order[i]) <= Expected(bound, order[j]))
    && (forall i :: 0 <= i < |order| ==> Expected(bound, order[i]) <= revision)
  }

  lemma RisingStep(bound: map<nat, Command>, order: seq<nat>, revision: nat, full: bool, key: nat, after: nat)
    requires Rising(bound, order, revision) && Expected(bound, key) == revision <= after
    requires full ==> order != []
    ensures Rising(bound, (if full then order[1..] else order) + [key], after)
  {
  }

  /** Decided keys are of this match and of no later revision than the present one; those decided at the
      present revision are still cached; and older revisions leave the queue first. */
  ghost predicate Layered(b: ActorState, u: ActorState, bound: map<nat, Command>, matchId: nat) {
    && Rising(bound, b.order, b.snapshot.revision)
    && (forall k :: k in u.decisions ==> k in bound && bound[k].matchId == matchId && bound[k].expected <= b.snapshot.revision)
    && (forall k :: k in u.decisions && bound[k].expected == b.snapshot.revision ==> k in b.decisions)
  }

  /** With few rivals the key that is about to be evicted belongs to an earlier revision. */
  lemma OldestIsPast(b: ActorState, u: ActorState, cap: nat, bound: map<nat, Command>, matchId: nat, cmd: Command)
    requires Refines(b, u, cap, bound) && Layered(b, u, bound, matchId) && KeysOwnCommands(bound)
    requires FewRivals(bound, matchId, cap) && cap > 0
    requires cmd.key in bound && bound[cmd.key] == cmd && Executes(b, matchId, cmd) && |b.order| == cap
    ensures b.order[0] in bound && bound[b.order[0]].expected < b.snapshot.revision
  {
    var revision := b.snapshot.revision;
    assert b.order[0] in Elements(b.order);
    if bound[b.order[0]].expected == revision {
      forall k | k in Elements(b.order + [cmd.key])
        ensures k in Rivals(bound, matchId, revision)
      {
        if k in b.order {
          assert k in Elements(b.order);
          var i :| 0 <= i < |b.order| && b.order[i] == k;
        }
      }
      assert cmd.key !in Elements(b.order);
      DistinctCount(b.order + [cmd.key]);
      SubsetCount(Elements(b.order + [cmd.key]), Rivals(bound, matchId, revision));
      assert false;
    }
  }

  /** Which keys a full or part-full cache holds after a decision. */
  lemma RememberHolds(s: ActorState, cap: nat, key: nat, decision: Reply, k: nat)
    requires CacheOk(s, cap) && cap > 0 && key !in s.decisions
    ensures k in Remember(s, Some(cap), key, decision).decisions
            <==> (k in s.decisions || k == key) && !(|s.order| == cap && k == s.order[0])
  {
    RememberKeepsCache(s, cap, key, decision);
    if |s.order| == cap {
      assert s.order[0] in Elements(s.order);
    }
  }

  lemma LayeredStep(b: ActorState, u: ActorState, cap: nat, bound: map<nat, Command>, matchId: nat, cmd: Command, exec: Execution)
    requires Refines(b, u, cap, bound) && Layered(b, u, bound, matchId) && KeysOwnCommands(bound)
    requires FewRivals(bound, matchId, cap) && cap > 0
    requires cmd.key in bound && bound[cmd.key] == cmd && Raises(b.snapshot, exec)
    ensures !Reexecutes(b, u, matchId, cmd)
    ensures Layered(Decide(b, Some(cap), matchId, cmd, exec).0, Decide(u, None, matchId, cmd, exec).0, bound, matchId)
  {
    if Executes(b, matchId, cmd) && !exec.Broken? {
      if |b.order| == cap {
        OldestIsPast(b, u, cap, bound, matchId, cmd);
      }
      var s, decision := b.(snapshot := exec.after), Decision(cmd.key, exec);
      RememberQueues(s, cap, cmd.key, decision);
      RisingStep(bound, b.order, b.snapshot.revision, |b.order| == cap, cmd.key, exec.after.revision);
      forall k | (k in u.decisions || k == cmd.key) && bound[k].expected == exec.after.revision
        ensures k in Remember(s, Some(cap), cmd.key, decision).decisions
      {
        RememberHolds(s, cap, cmd.key, decision, k);
      }
    }
  }

  lemma {:induction false} FewRivalsSuffice(b: ActorState, u: ActorState, cap: nat, bound: map<nat, Command>, matchId: nat,
                                            queue: seq<Queued>)
    requires Refines(b, u, cap, bound) && Layered(b, u, bound, matchId) && KeysOwnCommands(bound)
    requires FewRivals(bound, matchId, cap) && cap > 0
    requires WellBehaved(b, cap, bound, matchId, queue)
    ensures RunMatches(b, u, cap, matchId, queue)
    decreases |queue|
  {
    if queue != [] {
      var cmd, exec := queue[0].command, queue[0].execution;
      LayeredStep(b, u, cap, bound, matchId, cmd, exec);
      StepRefines(b, u, cap, bound, matchId, cmd, exec);
      FewRivalsSuffice(Decide(b, Some(cap), matchId, cmd, exec).0, Decide(u, None, matchId, cmd, exec).0,
                       cap, bound, matchId, queue[1..]);
    }
  }

  lemma FirstOfRun(b: ActorState, u: ActorState, cap: nat, bound: map<nat, Command>, matchId: nat, first: Queued, rest: seq<Queued>)
    requires first.command.key in bound && bound[first.command.key] == first.command && Raises(b.snapshot, first.execution)
    ensures var b' := Decide(b, Some(cap), matchId, first.command, first.execution).0;
            var u' := Decide(u, None, matchId, first.command, first.execution).0;
            && (WellBehaved(b', cap, bound, matchId, rest) ==> WellBehaved(b, cap, bound, matchId, [first] + rest))
            && (RunMatches(b, u, cap, matchId, [first] + rest) <==>
                  StepMatches(b, u, cap, matchId, first.command, first.execution) && RunMatches(b', u', cap, matchId, rest))
  {
    assert ([first] + rest)[1..] == rest;
  }

  ghost predicate Mismatches(b: ActorState, u: ActorState, cap: nat, bound: map<nat, Command>, matchId: nat, queue: seq<Queued>) {
    WellBehaved(b, cap, bound, matchId, queue) && !RunMatches(b, u, cap, matchId, queue)
  }

  function Rejecting(s: ActorState, cap: Option<nat>, matchId: nat, cmd: Command, start: Snapshot): ActorState {
    Decide(s, cap, matchId, cmd, Refused(IllegalAction, start)).0
  }

  ghost predicate Waiting(b: ActorState, cap: nat, start: Snapshot) {
    CacheOk(b, cap) && b.live && b.snapshot == start
  }

  lemma RejectWaits(b: ActorState, cap: nat, matchId: nat, start: Snapshot, cmd: Command)
    requires Waiting(b, cap, start) && cap > 0
    ensures Waiting(Rejecting(b, Some(cap), matchId, cmd, start), cap, start)
  {
    DecideKeepsCache(b, cap, matchId, cmd, Refused(IllegalAction, start));
  }

  /** The memo has rejected, at one revision, every rival outside `todo`. */
  ghost predicate Flooded(u: ActorState, rivals: set<nat>, todo: set<nat>, start: Snapshot) {
    && u.live && u.snapshot == start
    && (forall k :: k in u.decisions ==> u.decisions[k].Rejected?)
    && (forall k :: k in rivals - todo ==> k in u.decisions)
  }

  lemma RejectFloods(u: ActorState, matchId: nat, rivals: set<nat>, todo: set<nat>, start: Snapshot, cmd: Command)
    requires Flooded(u, rivals, todo, start) && cmd.matchId == matchId && cmd.expected == start.revision
    ensures Flooded(Rejecting(u, None, matchId, cmd, start), rivals, todo - {cmd.key}, start)
  {
  }

  /** More rivals than the cache holds: once all have been rejected, one of them has been forgotten, and an
      executor that fails on it shows. */
  lemma {:induction false} FloodBreaks(b: ActorState, u: ActorState, cap: nat, bound: map<nat, Command>, matchId: nat,
                                       todo: set<nat>, start: Snapshot) returns (queue: seq<Queued>)
    requires KeysOwnCommands(bound) && cap > 0 && |Rivals(bound, matchId, start.revision)| > cap
    requires todo <= Rivals(bound, matchId, start.revision)
    requires Waiting(b, cap, start) && Flooded(u, Rivals(bound, matchId, start.revision), todo, start)
    ensures Mismatches(b, u, cap, bound, matchId, queue)
    decreases todo
  {
    var rivals := Rivals(bound, matchId, start.revision);
    if todo == {} {
      if rivals <= b.decisions.Keys {
        SubsetCount(rivals, b.decisions.Keys);
        assert false;
      }
      var k :| k in rivals && k !in b.decisions;
      var first := Queued(bound[k], Broken(None));
      assert k in rivals - todo;
      assert !StepMatches(b, u, cap, matchId, first.command, first.execution);
      FirstOfRun(b, u, cap, bound, matchId, first, []);
      queue := [first] + [];
    } else {
      var k :| k in todo;
      var first := Queued(bound[k], Refused(IllegalAction, start));
      RejectWaits(b, cap, matchId, start, first.command);
      RejectFloods(u, matchId, rivals, todo, start, first.command);
      var rest := FloodBreaks(Rejecting(b, Some(cap), matchId, first.command, start),
                              Rejecting(u, None, matchId, first.command, start), cap, bound, matchId, todo - {k}, start);
      FirstOfRun(b, u, cap, bound, matchId, first, rest);
      queue := [first] + rest;
    }
  }

  /** The exact condition on the commands: the bounded cache never shows, in any order, duplication and
      interleaving of them, if and only if at most `cap` of them compete for any one revision. */
  lemma CacheSuffices(bound: map<nat, Command>, matchId: nat, cap: nat)
    requires cap > 0 && KeysOwnCommands(bound)
    ensures AlwaysMatches(bound, matchId, cap) <==> FewRivals(bound, matchId, cap)
  {
    if FewRivals(bound, matchId, cap) {
      forall start: Snapshot, queue | WellBehaved(Fresh(start), cap, bound, matchId, queue)
        ensures RunMatches(Fresh(start), Fresh(start), cap, matchId, queue)
      {
        FewRivalsSuffice(Fresh(start), Fresh(start), cap, bound, matchId, queue);
      }
    } else {
      var revision :| |Rivals(bound, matchId, revision)| > cap;
      var start := Snapshot(matchId, revision, "");
      assert Elements<nat>([]) == {};
      var queue := FloodBreaks(Fresh(start), Fresh(start), cap, bound, matchId, Rivals(bound, matchId, revision), start);
    }
  }

  // ----- the remaining case is real -----

  /** The command with key `k` of a match at revision 0. */
  function Attempt(k: nat): Command {
    Command(0, 0, k, North, "")
  }

  const START: Snapshot := Snapshot(0, 0, "")

  /** `n` commands with keys 0 to n - 1, each rejected without changing the match. */
  function Rejections(n: nat): (queue: seq<Queued>)
    ensures |queue| == n
  {
    if n == 0 then [] else Rejections(n - 1) + [Queued(Attempt(n - 1), Refused(IllegalAction, START))]
  }

  /** The keys cached after the first `n` rejections: key 0 leaves when the cap is passed. */
  predicate RejectedOrder(order: seq<nat>, cap: nat, n: nat) {
    && |order| == (if n <= cap then n else cap)
    && forall i :: 0 <= i < |order| ==> order[i] == if n <= cap then i else i + 1
  }

  ghost predicate RejectedSoFar(s: ActorState, cap: nat, n: nat) {
    s.live && s.snapshot == START && CacheOk(s, cap) && RejectedOrder(s.order, cap, n)
  }

  lemma NextRejection(order: seq<nat>, cap: nat, n: nat)
    requires cap > 0 && n <= cap && RejectedOrder(order, cap, n)
    ensures n !in Elements(order)
    ensures RejectedOrder((if |order| == cap then order[1..] else order) + [n], cap, n + 1)
  {
  }

  lemma RejectOnce(s: ActorState, cap: nat, n: nat)
    requires cap > 0 && n <= cap && RejectedSoFar(s, cap, n)
    ensures RejectedSoFar(Decide(s, Some(cap), 0, Attempt(n), Refused(IllegalAction, START)).0, cap, n + 1)
  {
    NextRejection(s.order, cap, n);
    DecideKeepsCache(s, cap, 0, Attempt(n), Refused(IllegalAction, START));
    RememberQueues(s, cap, n, Rejected(IllegalAction, START));
  }

  lemma {:induction false} AfterRejections(cap: nat, n: nat)
    requires cap > 0 && n <= cap + 1
    ensures RejectedSoFar(Drain(Fresh(START), Some(cap), 0, Rejections(n)).0, cap, n)
  {
    if n == 0 {
      assert Drain(Fresh(START), Some(cap), 0, []).0 == Fresh(START);
    } else {
      AfterRejections(cap, n - 1);
      DrainAppend(Fresh(START), Some(cap), 0, Rejections(n - 1), Queued(Attempt(n - 1), Refused(IllegalAction, START)));
      RejectOnce(Drain(Fresh(START), Some(cap), 0, Rejections(n - 1)).0, cap, n - 1);
    }
  }

  /** For every cap, a rejected key forgotten after `cap` further rejections can be accepted when it
      is sent again, where the unbounded actor would repeat the rejection. */
  lemma ForgottenRejectionExecutesAgain(cap: nat, after: Snapshot)
    requires cap > 0
    ensures var b := Drain(Fresh(START), Some(cap), 0, Rejections(cap + 1)).0;
            Decide(b, Some(cap), 0, Attempt(0), Applied(after)).1 == Answer(Accepted(0, after))
    ensures var u := Drain(Fresh(START), None, 0, Rejections(cap + 1)).0;
            Decide(u, None, 0, Attempt(0), Applied(after)).1 == Answer(Rejected(IllegalAction, START))
  {
    AfterRejections(cap, cap + 1);
    assert 0 !in Elements(Drain(Fresh(START), Some(cap), 0, Rejections(cap + 1)).0.order);
    MemoKeepsFirst(cap + 1);
  }

  lemma {:induction false} MemoKeepsFirst(n: nat)
    ensures var u := Drain(Fresh(START), None, 0, Rejections(n)).0;
            u.live && (n > 0 ==> 0 in u.decisions && u.decisions[0] == Rejected(IllegalAction, START))
            && u.snapshot == START
  {
    if n > 0 {
      MemoKeepsFirst(n - 1);
      DrainAppend(Fresh(START), None, 0, Rejections(n - 1), Queued(Attempt(n - 1), Refused(IllegalAction, START)));
      if n == 1 {
        assert Drain(Fresh(START), None, 0, []).0 == Fresh(START);
      }
    }
  }

  // ----- the actor process -----

  class MatchActor {
    const matchId: nat
    var decisions: map<nat, Reply>
    var order: seq<nat>
    var snapshot: Snapshot
    var live: bool

    ghost function State(): ActorState
      reads this
    {
      ActorState(decisions, order, snapshot, live)
    }

    ghost predicate Valid()
      reads this
    {
      CacheOk(State(), MAX_CACHED_MUTATIONS_PER_MATCH)
    }

    constructor (matchId: nat, snapshot: Snapshot)
      ensures Valid() && this.matchId == matchId && State() == Fresh(snapshot)
    {
      this.matchId, this.snapshot := matchId, snapshot;
      decisions, order, live := map[], [], true;
    }

    method Record(key: nat, decision: Reply)
      requires Valid() && key !in decisions
      modifies `decisions, `order
      ensures Valid() && State() == Remember(old(State()), Some(MAX_CACHED_MUTATIONS_PER_MATCH), key, decision)
    {
      RememberKeepsCache(State(), MAX_CACHED_MUTATIONS_PER_MATCH, key, decision);
      decisions := decisions[key := decision];
      order := order + [key];
      if |decisions| > MAX_CACHED_MUTATIONS_PER_MATCH {
        decisions := decisions - {order[0]};
        order := order[1..];
      }
    }

    /** Serves a queue until it is drained or the executor breaks; later commands find the queue closed. */
    method Run(queue: seq<Queued>) returns (responses: seq<Response>)
      requires Valid()
      modifies this
      ensures Valid()
      ensures (State(), responses) == Drain(old(State()), Some(MAX_CACHED_MUTATIONS_PER_MATCH), matchId, queue)
      ensures forall i :: 0 <= i < |queue| && responses[i] == Failed ==>
                !live && forall j :: i < j < |queue| ==> responses[j] == Unavailable
    {
      responses := [];
      var i := 0;
      while i < |queue|
        invariant 0 <= i <= |queue| && Valid()
        invariant (State(), responses) == Drain(old(State()), Some(MAX_CACHED_MUTATIONS_PER_MATCH), matchId, queue[..i])
      {
        DrainAppend(old(State()), Some(MAX_CACHED_MUTATIONS_PER_MATCH), matchId, queue[..i], queue[i]);
        assert queue[..i + 1] == queue[..i] + [queue[i]];
        var cmd := queue[i].command;
        if !live {
          responses := responses + [Unavailable];
        } else if cmd.key in decisions {
          responses := responses + [Answer(decisions[cmd.key])];
        } else if cmd.matchId != matchId || cmd.expected != snapshot.revision {
          responses := responses + [Answer(Stale(snapshot))];
        } else {
          match queue[i].execution
          case Applied(after) =>
            snapshot := after;
            Record(cmd.key, Accepted(cmd.key, after));
            responses := responses + [Answer(Accepted(cmd.key, after))];
          case Refused(reason, after) =>
            snapshot := after;
            Record(cmd.key, Rejected(reason, after));
            responses := responses + [Answer(Rejected(reason, after))];
          case Broken(_) =>
            live := false;
            responses := responses + [Failed];
        }
        i := i + 1;
      }
      assert queue[..i] == queue;
      forall k | 0 <= k < |queue| && responses[k] == Failed
        ensures !live && forall j :: k < j < |queue| ==> responses[j] == Unavailable
      {
        FatalFailureEnds(old(State()), Some(MAX_CACHED_MUTATIONS_PER_MATCH), matchId, queue, k);
      }
    }
  }
}
