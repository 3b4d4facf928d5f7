/** Clients, a network that loses, duplicates and delays, any number of live actors, and the
    durable store, as one step system. */
module OnlineSystem {
  import opened Rules
  import opened Actor
  import opened OnlineClient

  /** A row of the durable action table: the command it carried and whether it was accepted. */
  datatype Row = Row(command: Command, before: nat, accepted: bool)

  /** `requests` and `replies` hold everything ever sent: a message may be delivered any number of
      times, in any order, or never. `rows` is keyed by the revision after. `issued` is the
      command each idempotency key was created for; `acked` the revision each acknowledged key
      was told. */
  datatype System = System(
    matchId: nat,
    clients: map<nat, Client>,
    requests: set<Command>,
    replies: set<Reply>,
    actors: map<nat, ActorState>,
    rows: map<nat, Row>,
    durable: nat,
    issued: map<nat, Command>,
    acked: map<nat, nat>
  )

  datatype Event =
    | Act(client: nat, action: string, revision: nat)
    | Send(client: nat, key: nat, transmitted: bool)
    | Resend(client: nat)
    | Receive(client: nat, reply: Reply, retryable: bool)
    | Lose(client: nat, rematch: bool)
    | Join(client: nat, matchId: nat)
    | Load(actor: nat, stateHash: string)
    | Serve(actor: nat, command: Command, execution: Execution)
    | Unload(actor: nat)

  predicate Initial(s: System) {
    && s.requests == {} && s.replies == {} && s.actors == map[] && s.rows == map[] && s.durable == 0
    && s.issued == map[] && s.acked == map[]
    && forall i :: i in s.clients ==> s.clients[i].pending == None
  }

  /** The revision an execution commits, if it commits one. */
  function Committed(view: nat, exec: Execution): Option<nat> {
    match exec
    case Applied(after) => Some(after.revision)
    case Refused(_, after) => if after.revision == view then None else Some(after.revision)
    case Broken(committed) => committed
  }

  /** The executor and the store: a commit inserts the row after the actor's own revision, and the
      primary key refuses a revision that is already there. An applied command commits; a refusal
      may (an expired clock is recorded); a fatal failure may or may not have. */
  predicate StoreAllows(s: System, view: nat, exec: Execution) {
    var committed := Committed(view, exec);
    && (exec.Applied? ==> exec.after.revision == view + 1)
    && (committed.Some? ==> committed.value == view + 1 && view + 1 !in s.rows)
  }

  predicate Enabled(s: System, e: Event) {
    match e
    case Act(client, _, _) => client in s.clients
    case Send(client, key, _) => client in s.clients && key !in s.issued
    case Resend(client) => client in s.clients && s.clients[client].pending.Some?
    case Receive(client, reply, _) => client in s.clients && reply in s.replies
    case Lose(client, _) => client in s.clients
    case Join(client, _) => client in s.clients
    case Load(actor, _) => actor !in s.actors
    case Serve(actor, cmd, exec) =>
      && actor in s.actors && cmd in s.requests
      && (Executes(s.actors[actor], s.matchId, cmd) ==> StoreAllows(s, s.actors[actor].snapshot.revision, exec))
    case Unload(actor) => actor in s.actors
  }

  function Deliver(s: System, client: nat, reply: Reply, retryable: bool): System
    requires client in s.clients
  {
    var c := s.clients[client];
    match reply
    case Accepted(key, snapshot) =>
      var c' := Acknowledge(c, snapshot.matchId, key);
      var acked := if c' != c then s.acked[key := snapshot.revision] else s.acked;
      s.(clients := s.clients[client := c'], acked := acked)
    case Stale(_) => s.(clients := s.clients[client := Reject(c, true, true)])
    case Rejected(_, _) => s.(clients := s.clients[client := Reject(c, retryable, false)])
  }

  function Answered(s: System, actor: nat, state: ActorState, response: Response): System {
    s.(actors := s.actors[actor := state],
       replies := s.replies + if response.Answer? then {response.reply} else {})
  }

  /** The store after a command has been executed for an actor at revision `view`. */
  function Stored(s: System, view: nat, cmd: Command, exec: Execution): System {
    match Committed(view, exec)
    case None => s
    case Some(after) => s.(rows := s.rows[after := Row(cmd, view, exec.Applied?)], durable := after)
  }

  function Served(s: System, actor: nat, cmd: Command, exec: Execution): System
    requires actor in s.actors
  {
    var a := s.actors[actor];
    var (a', response) := Decide(a, Some(MAX_CACHED_MUTATIONS_PER_MATCH), s.matchId, cmd, exec);
    var stored := if Executes(a, s.matchId, cmd) then Stored(s, a.snapshot.revision, cmd, exec) else s;
    Answered(stored, actor, a', response)
  }

  function Next(s: System, e: Event): System
    requires Enabled(s, e)
  {
    match e
    case Act(client, action, revision) => s.(clients := s.clients[client := Submit(s.clients[client], action, revision)])
    case Send(client, key, transmitted) =>
      var (c, send) := Issue(s.clients[client], key);
      var s' := s.(clients := s.clients[client := c]);
      (match send
       case None => s'
       case Some(cmd) => s'.(issued := s.issued[key := cmd], requests := s.requests + if transmitted then {cmd} else {}))
    case Resend(client) => s.(requests := s.requests + {s.clients[client].pending.value})
    case Receive(client, reply, retryable) => Deliver(s, client, reply, retryable)
    case Lose(client, rematch) =>
      var c := s.clients[client];
      s.(clients := s.clients[client := if rematch then AcceptRematch(c) else OnlineClient.Reset(c)])
    case Join(client, matchId) => s.(clients := s.clients[client := s.clients[client].(active := Some(matchId))])
    case Load(actor, stateHash) => s.(actors := s.actors[actor := Fresh(Snapshot(s.matchId, s.durable, stateHash))])
    case Serve(actor, cmd, exec) => Served(s, actor, cmd, exec)
    case Unload(actor) => s.(actors := s.actors - {actor})
  }

  /** `s` is reached from `start` by these events. */
  ghost predicate Reaches(start: System, events: seq<Event>, s: System)
    decreases |events|
  {
    if events == [] then s == start
    else Enabled(start, events[0]) && Reaches(Next(start, events[0]), events[1..], s)
  }

  // ----- the invariant -----

  /** Revisions 1 to the durable one each have exactly one row, made from the revision before it,
      for a command that expected that revision. */
  ghost predicate ChainOk(s: System) {
    && (forall r :: r in s.rows <==> 1 <= r <= s.durable)
    && (forall r :: r in s.rows ==> s.rows[r].before == r - 1 && s.rows[r].command.expected == r - 1)
  }

  /** Every command in sight is the one its key was issued for. */
  ghost predicate KeysOk(s: System) {
    && (forall cmd :: cmd in s.requests ==> cmd.key in s.issued && s.issued[cmd.key] == cmd)
    && (forall i :: i in s.clients && s.clients[i].pending.Some? ==>
          var cmd := s.clients[i].pending.value; cmd.key in s.issued && s.issued[cmd.key] == cmd)
    && (forall r :: r in s.rows ==> s.rows[r].command.key in s.issued && s.issued[s.rows[r].command.key] == s.rows[r].command)
  }

  /** An acceptance names a row that holds it. */
  predicate Recorded(s: System, key: nat, revision: nat) {
    revision in s.rows && s.rows[revision].command.key == key && s.rows[revision].accepted
  }

  /** A live actor lags the store at most, and its cached acceptances are recorded. */
  ghost predicate ActorOk(s: System, a: ActorState) {
    && a.snapshot.revision <= s.durable
    && forall k :: k in a.decisions ==> ReplyOk(s, a.decisions[k])
  }

  predicate ReplyOk(s: System, reply: Reply) {
    reply.Accepted? ==> Recorded(s, reply.key, reply.snapshot.revision)
  }

  ghost predicate AnswersOk(s: System) {
    && (forall a :: a in s.actors ==> ActorOk(s, s.actors[a]))
    && (forall reply :: reply in s.replies ==> ReplyOk(s, reply))
    && (forall k :: k in s.acked ==> Recorded(s, k, s.acked[k]))
  }

  ghost predicate Inv(s: System) {
    ChainOk(s) && KeysOk(s) && AnswersOk(s)
  }

  /** The primary key acts as a compare-and-set: a served command leaves the store alone, or appends the
      row after the durable revision, and only an actor that is at that revision can do so. */
  lemma OnlyCurrentActorsCommit(s: System, actor: nat, cmd: Command, exec: Execution)
    requires ChainOk(s) && Enabled(s, Serve(actor, cmd, exec))
    requires s.actors[actor].snapshot.revision <= s.durable
    ensures var s' := Served(s, actor, cmd, exec);
            || (s'.rows == s.rows && s'.durable == s.durable)
            || (&& s.actors[actor].snapshot.revision == s.durable == cmd.expected
                && s.durable + 1 !in s.rows
                && s'.durable == s.durable + 1
                && s'.rows == s.rows[s.durable + 1 := Row(cmd, s.durable, exec.Applied?)])
  {
  }

  lemma ServedKeepsChain(s: System, actor: nat, cmd: Command, exec: Execution)
    requires Inv(s) && Enabled(s, Serve(actor, cmd, exec))
    ensures ChainOk(Served(s, actor, cmd, exec)) && KeysOk(Served(s, actor, cmd, exec))
  {
    assert ActorOk(s, s.actors[actor]);
    OnlyCurrentActorsCommit(s, actor, cmd, exec);
    ExtendedHistory(s, Served(s, actor, cmd, exec), cmd, exec.Applied?);
  }

  lemma ExtendedHistory(s: System, s': System, cmd: Command, accepted: bool)
    requires ChainOk(s) && KeysOk(s)
    requires s'.clients == s.clients && s'.requests == s.requests && s'.issued == s.issued
    requires cmd.key in s.issued && s.issued[cmd.key] == cmd
    requires || (s'.rows == s.rows && s'.durable == s.durable)
             || (&& s'.durable == s.durable + 1 && cmd.expected == s.durable
                 && s'.rows == s.rows[s.durable + 1 := Row(cmd, s.durable, accepted)])
    ensures ChainOk(s') && KeysOk(s')
  {
  }

  /** What a decision adds: nothing, or one new cached answer. */
  lemma DecideAnswers(a: ActorState, matchId: nat, cmd: Command, exec: Execution)
    ensures var (a', response) := Decide(a, Some(MAX_CACHED_MUTATIONS_PER_MATCH), matchId, cmd, exec);
            && (forall k :: k in a'.decisions ==> (k in a.decisions && a'.decisions[k] == a.decisions[k])
                                                  || (Executes(a, matchId, cmd) && response == Answer(a'.decisions[k])))
            && (response.Answer? && response.reply.Accepted? ==>
                  || (cmd.key in a.decisions && response.reply == a.decisions[cmd.key])
                  || (Executes(a, matchId, cmd) && exec.Applied? && response.reply == Accepted(cmd.key, exec.after)))
            && a'.snapshot == (if Executes(a, matchId, cmd) && !exec.Broken? then exec.after else a.snapshot)
  {
  }

  lemma RowsKept(s: System, s': System, actor: ActorState)
    requires forall r :: r in s.rows ==> r in s'.rows && s'.rows[r] == s.rows[r]
    requires s.durable <= s'.durable
    ensures forall k, r :: Recorded(s, k, r) ==> Recorded(s', k, r)
    ensures ActorOk(s, actor) ==> ActorOk(s', actor)
  {
    assert forall k, r :: Recorded(s, k, r) ==> Recorded(s', k, r);
    assert forall reply :: ReplyOk(s, reply) ==> ReplyOk(s', reply);
  }

  /** What an actor answers is recorded, and so is everything it then caches. */
  lemma AnswerRecorded(s: System, actor: nat, cmd: Command, exec: Execution)
    requires Inv(s) && Enabled(s, Serve(actor, cmd, exec))
    ensures var s' := Served(s, actor, cmd, exec);
            var (a', response) := Decide(s.actors[actor], Some(MAX_CACHED_MUTATIONS_PER_MATCH), s.matchId, cmd, exec);
            ActorOk(s', a') && (response.Answer? ==> ReplyOk(s', response.reply))
  {
    var s' := Served(s, actor, cmd, exec);
    var a := s.actors[actor];
    assert ActorOk(s, a);
    DecideAnswers(a, s.matchId, cmd, exec);
    OnlyCurrentActorsCommit(s, actor, cmd, exec);
    RowsKept(s, s', a);
    if cmd.key in a.decisions {
      assert ReplyOk(s, a.decisions[cmd.key]);
    }
  }

  lemma AnswersKept(s: System, s': System, actor: nat, state: ActorState, response: Response)
    requires AnswersOk(s) && s.durable <= s'.durable && s'.acked == s.acked
    requires forall r :: r in s.rows ==> r in s'.rows && s'.rows[r] == s.rows[r]
    requires s'.actors == s.actors[actor := state] && ActorOk(s', state)
    requires s'.replies == s.replies + if response.Answer? then {response.reply} else {}
    requires response.Answer? ==> ReplyOk(s', response.reply)
    ensures AnswersOk(s')
  {
    RowsKept(s, s', state);
    forall other | other in s'.actors
      ensures ActorOk(s', s'.actors[other])
    {
      if other != actor {
        assert ActorOk(s, s.actors[other]);
        RowsKept(s, s', s.actors[other]);
      }
    }
  }

  lemma ServedKeepsAnswers(s: System, actor: nat, cmd: Command, exec: Execution)
    requires Inv(s) && Enabled(s, Serve(actor, cmd, exec))
    ensures AnswersOk(Served(s, actor, cmd, exec))
  {
    AnswerRecorded(s, actor, cmd, exec);
    assert ActorOk(s, s.actors[actor]);
    OnlyCurrentActorsCommit(s, actor, cmd, exec);
    var (state, response) := Decide(s.actors[actor], Some(MAX_CACHED_MUTATIONS_PER_MATCH), s.matchId, cmd, exec);
    AnswersKept(s, Served(s, actor, cmd, exec), actor, state, response);
  }

  lemma SameHistory(s: System, s': System)
    requires Inv(s)
    requires s'.rows == s.rows && s'.durable == s.durable && s'.replies == s.replies
    requires forall a :: a in s'.actors ==>
               || (a in s.actors && s'.actors[a] == s.actors[a])
               || (s'.actors[a].decisions == map[] && s'.actors[a].snapshot.revision == s.durable)
    requires forall k :: k in s'.acked ==> (k in s.acked && s'.acked[k] == s.acked[k]) || Recorded(s, k, s'.acked[k])
    ensures ChainOk(s') && AnswersOk(s')
  {
    assert forall k, r :: Recorded(s', k, r) <==> Recorded(s, k, r);
    forall a | a in s'.actors
      ensures ActorOk(s', s'.actors[a])
    {
      RowsKept(s, s', s'.actors[a]);
    }
    assert forall reply :: ReplyOk(s, reply) ==> ReplyOk(s', reply);
  }

  lemma SendKeepsKeys(s: System, client: nat, key: nat, transmitted: bool)
    requires Inv(s) && Enabled(s, Send(client, key, transmitted))
    ensures KeysOk(Next(s, Send(client, key, transmitted)))
  {
  }

  lemma StepKeepsInv(s: System, e: Event)
    requires Inv(s) && Enabled(s, e)
    ensures Inv(Next(s, e))
  {
    match e
    case Serve(actor, cmd, exec) =>
      ServedKeepsChain(s, actor, cmd, exec);
      ServedKeepsAnswers(s, actor, cmd, exec);
    case Send(client, key, transmitted) =>
      SameHistory(s, Next(s, e));
      SendKeepsKeys(s, client, key, transmitted);
    case Receive(client, reply, retryable) => ReceiveKeepsInv(s, client, reply, retryable);
    case _ => OtherStepKeepsInv(s, e);
  }

  lemma ReceiveKeepsInv(s: System, client: nat, reply: Reply, retryable: bool)
    requires Inv(s) && Enabled(s, Receive(client, reply, retryable))
    ensures Inv(Next(s, Receive(client, reply, retryable)))
  {
    assert ReplyOk(s, reply);
    SameHistory(s, Next(s, Receive(client, reply, retryable)));
  }

  lemma OtherStepKeepsInv(s: System, e: Event)
    requires Inv(s) && Enabled(s, e)
    requires !e.Serve? && !e.Receive? && !e.Send?
    ensures Inv(Next(s, e))
  {
    SameHistory(s, Next(s, e));
  }

  lemma {:induction false} ReachableInv(start: System, events: seq<Event>, s: System)
    requires Inv(start) && Reaches(start, events, s)
    ensures Inv(s)
    decreases |events|
  {
    if events != [] {
      StepKeepsInv(start, events[0]);
      ReachableInv(Next(start, events[0]), events[1..], s);
    }
  }

  /** At most once, end to end: whatever is lost, duplicated, delayed, retried or evicted, however
      many actors are live, failed, unloaded or reloaded, each idempotency key commits at most one
      row; and a key whose client was told "accepted" is committed, with exactly the command it was
      issued for, at the revision the client was told. */
  lemma AtMostOnce(start: System, events: seq<Event>, s: System)
    requires Initial(start) && Reaches(start, events, s)
    ensures forall r, q :: r in s.rows && q in s.rows && s.rows[r].command.key == s.rows[q].command.key ==> r == q
    ensures forall k :: k in s.acked ==>
              && s.acked[k] in s.rows && s.rows[s.acked[k]].accepted
              && k in s.issued && s.rows[s.acked[k]].command == s.issued[k]
  {
    assert Inv(start);
    ReachableInv(start, events, s);
  }

  /** The accepted chain: the durable history is one row per revision, each for a command that
      expected exactly the revision it was applied to; so at most one command is accepted per
      expected revision, and every acceptance ever sent names its own row. */
  lemma AcceptedChain(start: System, events: seq<Event>, s: System)
    requires Initial(start) && Reaches(start, events, s)
    ensures forall r :: r in s.rows <==> 1 <= r <= s.durable
    ensures forall r :: r in s.rows ==> s.rows[r].command.expected == s.rows[r].before == r - 1
    ensures forall reply :: reply in s.replies && reply.Accepted? ==>
              Recorded(s, reply.key, reply.snapshot.revision)
    ensures forall x, y :: x in s.replies && y in s.replies && x.Accepted? && y.Accepted? ==>
              (x.key == y.key <==> x.snapshot.revision == y.snapshot.revision)
  {
    assert Inv(start);
    ReachableInv(start, events, s);
    forall x, y | x in s.replies && y in s.replies && x.Accepted? && y.Accepted?
      ensures x.key == y.key <==> x.snapshot.revision == y.snapshot.revision
    {
      assert ReplyOk(s, x) && ReplyOk(s, y);
      assert Recorded(s, x.key, x.snapshot.revision) && Recorded(s, y.key, y.snapshot.revision);
    }
  }

  /** History is never rewritten: a step keeps every row and never lowers the durable revision. */
  lemma HistoryGrows(s: System, e: Event)
    requires Inv(s) && Enabled(s, e)
    ensures s.durable <= Next(s, e).durable <= s.durable + 1
    ensures forall r :: r in s.rows ==> r in Next(s, e).rows && Next(s, e).rows[r] == s.rows[r]
  {
    if e.Serve? {
      assert ActorOk(s, s.actors[e.actor]);
      OnlyCurrentActorsCommit(s, e.actor, e.command, e.execution);
    }
  }

  // ----- what is committed is what a player wanted -----

  ghost predicate Acted(past: seq<Event>, client: nat, action: string, revision: nat) {
    exists i :: 0 <= i < |past| && past[i] == Act(client, action, revision)
  }

  /** The client plays this match from the start or has joined it since. */
  ghost predicate Joined(start: System, past: seq<Event>, client: nat, matchId: nat) {
    || (client in start.clients && start.clients[client].active == Some(matchId))
    || exists i :: 0 <= i < |past| && past[i] == Join(client, matchId)
  }

  /** Some client issued the key of the command in its own seat, for an action it had taken at that revision and a
      match it had joined before. */
  ghost predicate Willed(start: System, past: seq<Event>, cmd: Command) {
    exists sent :: 0 <= sent < |past| && IssuedAt(start, past, sent, cmd)
  }

  ghost predicate IssuedAt(start: System, past: seq<Event>, sent: nat, cmd: Command)
    requires sent < |past|
  {
    && past[sent].Send? && past[sent].key == cmd.key
    && past[sent].client in start.clients && start.clients[past[sent].client].seat == cmd.seat
    && Acted(past[..sent], past[sent].client, cmd.action, cmd.expected)
    && Joined(start, past[..sent], past[sent].client, cmd.matchId)
  }

  /** Where a client's seat, match and recorded intent come from. */
  ghost predicate ClientTraced(start: System, past: seq<Event>, client: nat, c: Client) {
    && client in start.clients && c.seat == start.clients[client].seat
    && (c.intent.Some? ==> Acted(past, client, c.intent.value.action, c.intent.value.expected))
    && (c.active.Some? ==> Joined(start, past, client, c.active.value))
  }

  ghost predicate Traced(start: System, past: seq<Event>, s: System) {
    && (forall i :: i in s.clients ==> ClientTraced(start, past, i, s.clients[i]))
    && (forall k :: k in s.issued ==> s.issued[k].key == k && Willed(start, past, s.issued[k]))
  }

  lemma PastGrows(start: System, past: seq<Event>, e: Event)
    ensures forall i, c: Client :: ClientTraced(start, past, i, c) ==> ClientTraced(start, past + [e], i, c)
    ensures forall cmd :: Willed(start, past, cmd) ==> Willed(start, past + [e], cmd)
  {
    var past' := past + [e];
    forall i, c: Client | ClientTraced(start, past, i, c)
      ensures ClientTraced(start, past', i, c)
    {
      assert forall j :: 0 <= j < |past| ==> past'[j] == past[j];
    }
    forall cmd | Willed(start, past, cmd)
      ensures Willed(start, past', cmd)
    {
      var sent :| 0 <= sent < |past| && IssuedAt(start, past, sent, cmd);
      assert past'[..sent] == past[..sent] && past'[sent] == past[sent];
      assert IssuedAt(start, past', sent, cmd);
    }
  }

  /** What a step may do to a client: an intent is recorded by that client's action only, a match joined by it only. */
  predicate Follows(e: Event, client: nat, before: Client, after: Client) {
    && after.seat == before.seat
    && (after.intent.Some? && after.intent != before.intent ==>
          e == Act(client, after.intent.value.action, after.intent.value.expected))
    && (after.active.Some? && after.active != before.active ==> e == Join(client, after.active.value))
  }

  lemma ServerStep(s: System, e: Event)
    requires Enabled(s, e) && (e.Serve? || e.Load? || e.Unload? || e.Resend?)
    ensures Next(s, e).clients == s.clients
  {
  }

  lemma SendFollows(s: System, e: Event, i: nat)
    requires Enabled(s, e) && e.Send? && i in Next(s, e).clients
    ensures i in s.clients && Follows(e, i, s.clients[i], Next(s, e).clients[i])
  {
    var c := Issue(s.clients[e.client], e.key).0;
    assert Next(s, e).clients == s.clients[e.client := c];
  }

  lemma ReceiveFollows(s: System, e: Event, i: nat)
    requires Enabled(s, e) && e.Receive? && i in Next(s, e).clients
    ensures i in s.clients && Follows(e, i, s.clients[i], Next(s, e).clients[i])
  {
  }

  lemma PlayerFollows(s: System, e: Event, i: nat)
    requires Enabled(s, e) && (e.Act? || e.Lose? || e.Join?) && i in Next(s, e).clients
    ensures i in s.clients && Follows(e, i, s.clients[i], Next(s, e).clients[i])
  {
  }

  lemma ClientFollows(s: System, e: Event, i: nat)
    requires Enabled(s, e) && i in Next(s, e).clients
    ensures i in s.clients && Follows(e, i, s.clients[i], Next(s, e).clients[i])
  {
    if e.Send? {
      SendFollows(s, e, i);
    } else if e.Receive? {
      ReceiveFollows(s, e, i);
    } else if e.Act? || e.Lose? || e.Join? {
      PlayerFollows(s, e, i);
    } else {
      ServerStep(s, e);
    }
  }

  lemma ClientStepTraced(start: System, past: seq<Event>, e: Event, i: nat, before: Client, after: Client)
    requires ClientTraced(start, past, i, before) && Follows(e, i, before, after)
    ensures ClientTraced(start, past + [e], i, after)
  {
    assert (past + [e])[|past|] == e;
    assert ClientTraced(start, past + [e], i, before) by {
      PastGrows(start, past, e);
    }
  }

  /** A key is issued by a send of that key only, for the intent of the client that sends. */
  lemma KeysIssued(s: System, e: Event)
    requires Enabled(s, e)
    ensures var issued := Next(s, e).issued;
            || issued == s.issued
            || (&& e.Send? && e.client in s.clients
                && var c := s.clients[e.client];
                   && c.intent.Some? && c.active.Some?
                   && var cmd := Command(c.active.value, c.intent.value.expected, e.key, c.seat, c.intent.value.action);
                      issued == s.issued[e.key := cmd])
  {
  }

  lemma StepKeepsTraced(start: System, past: seq<Event>, s: System, e: Event)
    requires Traced(start, past, s) && Enabled(s, e)
    ensures Traced(start, past + [e], Next(s, e))
  {
    var s' := Next(s, e);
    forall i | i in s'.clients
      ensures ClientTraced(start, past + [e], i, s'.clients[i])
    {
      ClientFollows(s, e, i);
      ClientStepTraced(start, past, e, i, s.clients[i], s'.clients[i]);
    }
    forall k | k in s'.issued
      ensures s'.issued[k].key == k && Willed(start, past + [e], s'.issued[k])
    {
      KeysIssued(s, e);
      if k in s.issued && s'.issued[k] == s.issued[k] {
        PastGrows(start, past, e);
      } else {
        NewKeyWilled(start, past, e, s.clients[e.client], s'.issued[k]);
      }
    }
  }

  lemma NewKeyWilled(start: System, past: seq<Event>, e: Event, c: Client, cmd: Command)
    requires e.Send? && ClientTraced(start, past, e.client, c) && c.intent.Some? && c.active.Some?
    requires cmd == Command(c.active.value, c.intent.value.expected, e.key, c.seat, c.intent.value.action)
    ensures Willed(start, past + [e], cmd)
  {
    assert (past + [e])[..|past|] == past && (past + [e])[|past|] == e;
    assert IssuedAt(start, past + [e], |past|, cmd);
  }

  lemma {:induction false} RunTraced(start: System, past: seq<Event>, s: System, events: seq<Event>, end: System)
    requires Traced(start, past, s) && Reaches(s, events, end)
    ensures Traced(start, past + events, end)
    decreases |events|
  {
    if events == [] {
      assert past + events == past;
    } else {
      StepKeepsTraced(start, past, s, events[0]);
      RunTraced(start, past + [events[0]], Next(s, events[0]), events[1..], end);
      assert past + events == past + [events[0]] + events[1..];
    }
  }

  /** Nothing is made up on the way: in every run from a start where no client has an intent recorded, every command
      issued, and so every row of the durable history, carries the action and the revision of a board action that the
      client which issued its key had taken before, with that client's seat and a match it had joined. */
  lemma OnlyTakenActionsCommit(start: System, events: seq<Event>, s: System)
    requires Initial(start) && Reaches(start, events, s)
    requires forall i :: i in start.clients ==> start.clients[i].intent == None
    ensures forall k :: k in s.issued ==> s.issued[k].key == k && Willed(start, events, s.issued[k])
    ensures forall r :: r in s.rows ==> Willed(start, events, s.rows[r].command)
  {
    assert Traced(start, [], start);
    RunTraced(start, [], start, events, s);
    assert [] + events == events;
    assert Inv(start);
    ReachableInv(start, events, s);
  }
}
