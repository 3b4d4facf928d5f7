/** The client half of the mutation protocol: one pending command, resent unchanged. */
module OnlineClient {
  import opened Rules
  import opened Actor

  datatype Intent = Intent(action: string, expected: nat)

  /** The connection's pending action, the intent outbox with its lock, and the board's submitting flag. */
  datatype Client = Client(
    seat: Player,
    active: Option<nat>,
    pending: Option<Command>,
    intent: Option<Intent>,
    locked: bool,
    submitting: bool
  )

  /** A board action: recorded only when nothing is being submitted and the outbox is unlocked. */
  function Submit(c: Client, action: string, revision: nat): Client {
    if c.submitting then c
    else if c.locked then c.(submitting := true)
    else c.(submitting := true, locked := true, intent := Some(Intent(action, revision)))
  }

  /** Turns an intent into a pending command under a new key; returns the command to transmit. */
  function Issue(c: Client, key: nat): (Client, Option<Command>) {
    match c.intent
    case None => (c, None)
    case Some(intent) =>
      if c.pending.Some? then (c.(intent := None, locked := true), None)
      else
        match c.active
        case None => (c.(intent := None, locked := false, submitting := false), None)
        case Some(matchId) =>
          var cmd := Command(matchId, intent.expected, key, c.seat, intent.action);
          (c.(intent := None, pending := Some(cmd), locked := true), Some(cmd))
  }

  function Acknowledge(c: Client, matchId: nat, key: nat): Client {
    if c.pending.Some? && c.pending.value.matchId == matchId && c.pending.value.key == key
    then c.(pending := None, locked := false, submitting := false)
    else c
  }

  /** A rejection is not matched against the pending key; a retryable one that is not stale keeps the command. */
  function Reject(c: Client, retryable: bool, stale: bool): Client {
    if retryable && !stale then c else c.(pending := None, locked := false, submitting := false)
  }

  /** Authentication rejected, seat forgotten, or canonical state diverged. */
  function Reset(c: Client): Client {
    c.(pending := None, intent := None, locked := false, submitting := false)
  }

  function AcceptRematch(c: Client): Client {
    c.(active := None, pending := None, locked := false)
  }

  /** The outbox is locked for as long as a command is pending. */
  predicate Guarded(c: Client) {
    c.pending.Some? ==> c.locked
  }

  const RESPONSE_TIMEOUT: nat := 3_000
  const U32_MAX: nat := 0xFFFF_FFFF

  /** The instant to count the response timeout from: now, or far enough back to be due at once. */
  function SentAt(now: nat, sent: bool): nat {
    if sent || now < RESPONSE_TIMEOUT then now else now - RESPONSE_TIMEOUT
  }

  /** `lastSent` (in milliseconds) and `attempts` belong to the pending command. */
  class OnlineConnection {
    const seat: Player
    var lastSent: nat
    var attempts: nat
    var active: Option<nat>
    var pending: Option<Command>
    var intent: Option<Intent>
    var locked: bool
    var submitting: bool

    ghost function State(): Client
      reads this
    {
      Client(seat, active, pending, intent, locked, submitting)
    }

    ghost predicate Valid()
      reads this
    {
      Guarded(State())
    }

    constructor (seat: Player)
      ensures Valid() && State() == Client(seat, None, None, None, false, false)
    {
      this.seat := seat;
      lastSent, attempts := 0, 0;
      active, pending, intent, locked, submitting := None, None, None, false, false;
    }

    /** While a command is pending, a board action neither replaces it nor queues behind it. */
    method SubmitAction(action: string, revision: nat)
      requires Valid()
      modifies `submitting, `locked, `intent
      ensures Valid() && State() == Submit(old(State()), action, revision)
      ensures submitting && (old(submitting) || old(locked) ==> intent == old(intent) && locked == old(locked))
      ensures old(pending).Some? ==> pending == old(pending) && intent == old(intent)
      ensures !old(submitting) && !old(locked) ==> intent == Some(Intent(action, revision))
    {
      if submitting {
        return;
      }
      submitting := true;
      if locked {
        return;
      }
      locked := true;
      intent := Some(Intent(action, revision));
    }

    /** `sent` says whether the network channel took the command; if not, the retry below is due at once (unless
        the clock has run for less than the timeout). */
    method QueueAction(key: nat, now: nat, sent: bool) returns (send: Option<Command>)
      requires Valid()
      modifies `intent, `locked, `submitting, `pending, `lastSent, `attempts
      ensures Valid() && (State(), send) == Issue(old(State()), key)
      ensures send.Some? ==> old(pending).None? && pending == send && send.value.key == key
      ensures send.Some? <==> old(intent).Some? && old(pending).None? && active.Some?
      ensures send.Some? ==> send.value.action == old(intent).value.action && send.value.expected == old(intent).value.expected
      ensures send.Some? ==> Some(send.value.matchId) == active && send.value.seat == seat
      ensures intent == None && (old(intent).None? ==> State() == old(State()))
      ensures old(intent).Some? && send.None? ==>
                pending == old(pending) && locked == pending.Some? && submitting == (old(submitting) && pending.Some?)
      ensures send.Some? ==> lastSent <= now && attempts == if sent then 1 else 0
      ensures send.Some? && !sent && now >= RESPONSE_TIMEOUT ==> Due(now)
      ensures send.None? ==> lastSent == old(lastSent) && attempts == old(attempts)
    {
      send := None;
      if intent.None? {
        return;
      }
      var taken := intent.value;
      intent := None;
      if pending.Some? {
        locked := true;
        return;
      }
      if active.None? {
        locked := false;
        submitting := false;
        return;
      }
      pending := Some(Command(active.value, taken.expected, key, seat, taken.action));
      locked := true;
      send := pending;
      lastSent := SentAt(now, sent);
      attempts := if sent then 1 else 0;
    }

    /** A command is pending and its response timeout has passed. */
    predicate Due(now: nat)
      reads this
    {
      pending.Some? && now >= lastSent + RESPONSE_TIMEOUT
    }

    /** Sends the pending command again, unchanged, exactly when the connection is up (or the match over), the
        timeout has passed and the channel has room; then it is not due again before another timeout. */
    method Retry(connected: bool, now: nat, room: bool) returns (send: Option<Command>)
      requires Valid() && lastSent <= now && attempts <= U32_MAX
      modifies `lastSent, `attempts
      ensures Valid() && State() == old(State())
      ensures send.Some? <==> connected && old(Due(now)) && room
      ensures send.Some? ==> send == pending && lastSent == now
      ensures send.Some? ==> attempts == if old(attempts) < U32_MAX then old(attempts) + 1 else U32_MAX
      ensures send.Some? ==> forall later: nat :: Due(later) ==> later >= now + RESPONSE_TIMEOUT
      ensures send.None? ==> lastSent == old(lastSent) && attempts == old(attempts)
    {
      send := None;
      if !connected {
        return;
      }
      if pending.Some? && now - lastSent >= RESPONSE_TIMEOUT && room {
        send := pending;
        lastSent := now;
        attempts := if attempts < U32_MAX then attempts + 1 else U32_MAX;
      }
    }

    method ReceiveAcknowledgement(matchId: nat, key: nat)
      requires Valid()
      modifies `pending, `locked, `submitting
      ensures Valid() && State() == Acknowledge(old(State()), matchId, key)
      ensures if old(pending).Some? && old(pending).value.matchId == matchId && old(pending).value.key == key
              then pending == None && !locked && !submitting else State() == old(State())
    {
      if pending.Some? && pending.value.matchId == matchId && pending.value.key == key {
        pending, locked, submitting := None, false, false;
      }
    }

    /** A retryable rejection keeps the command and restarts its timeout. */
    method ReceiveRejection(retryable: bool, stale: bool, now: nat)
      requires Valid()
      modifies `pending, `locked, `submitting, `lastSent
      ensures Valid() && State() == Reject(old(State()), retryable, stale)
      ensures if retryable && !stale then State() == old(State()) else pending == None && !locked && !submitting
      ensures lastSent == if old(pending).Some? && retryable && !stale then now else old(lastSent)
    {
      if retryable && !stale {
        if pending.Some? {
          lastSent := now;
        }
      } else {
        pending, locked, submitting := None, false, false;
      }
    }

    method Abandon()
      requires Valid()
      modifies `pending, `intent, `locked, `submitting
      ensures Valid() && State() == Reset(old(State()))
      ensures pending == None && intent == None && !locked && !submitting
    {
      pending, intent, locked, submitting := None, None, false, false;
    }

    method RematchAccepted()
      requires Valid()
      modifies `active, `pending, `locked
      ensures Valid() && State() == AcceptRematch(old(State()))
      ensures active == None && pending == None && !locked
    {
      active, pending, locked := None, None, false;
    }
  }
}
