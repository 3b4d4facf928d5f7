/** How the client orders authoritative snapshots: by match, scenario, revision and hash. */
module Snapshots {
  import opened Rules

  datatype MatchState = MatchState(revision: nat, scenarioId: string, body: string)

  datatype Snapshot = Snapshot(
    matchId: nat, revision: nat, scenarioId: string, scenarioHash: string, stateHash: string, state: MatchState
  )

  datatype Identity = Identity(matchId: nat, scenarioId: string, revision: nat, stateHash: string)

  datatype Disposition = Replace | Equal | Older | Diverged

  datatype Refusal = InvalidSnapshot | DifferentMatch | ScenarioMissing | ScenarioDiffers | ScenarioChanged

  /** The display: the active match, the identity of the last snapshot, the displayed state, and
      whether a forced resync is wanted. `catalog` maps installed scenarios to their hashes. */
  datatype View = View(active: Option<nat>, last: Option<Identity>, state: MatchState, resync: bool)

  type Hash = MatchState -> string

  predicate ValidSnapshot(hash: Hash, snapshot: Snapshot) {
    && snapshot.revision == snapshot.state.revision
    && snapshot.scenarioId == snapshot.state.scenarioId
    && snapshot.stateHash == hash(snapshot.state)
    && snapshot.scenarioHash != ""
  }

  function IdentityOf(snapshot: Snapshot): Identity {
    Identity(snapshot.matchId, snapshot.scenarioId, snapshot.revision, snapshot.stateHash)
  }

  function Classify(last: Option<Identity>, incoming: Snapshot, displayed: Option<string>): Result<Disposition, Refusal> {
    match last
    case None => Ok(Replace)
    case Some(known) =>
      if known.matchId != incoming.matchId then Ok(Replace)
      else if known.scenarioId != incoming.scenarioId then Err(ScenarioChanged)
      else if incoming.revision < known.revision then Ok(Older)
      else if incoming.revision > known.revision then Ok(Replace)
      else if incoming.stateHash == known.stateHash && displayed == Some(incoming.stateHash) then Ok(Equal)
      else Ok(Diverged)
  }

  function DisplayedHash(v: View, hash: Hash, snapshot: Snapshot): Option<string> {
    if v.last.Some? && v.last.value.matchId == snapshot.matchId && v.last.value.revision == snapshot.revision
    then Some(hash(v.state)) else None
  }

  function Reconcile(v: View, hash: Hash, catalog: map<string, string>, snapshot: Snapshot): Result<Disposition, Refusal> {
    if !ValidSnapshot(hash, snapshot) then Err(InvalidSnapshot)
    else if v.active.Some? && v.active.value != snapshot.matchId then Err(DifferentMatch)
    else if snapshot.scenarioId !in catalog then Err(ScenarioMissing)
    else if catalog[snapshot.scenarioId] != snapshot.scenarioHash then Err(ScenarioDiffers)
    else Classify(v.last, snapshot, DisplayedHash(v, hash, snapshot))
  }

  /** The display after one delivered snapshot. */
  function Receive(v: View, hash: Hash, catalog: map<string, string>, snapshot: Snapshot): View {
    match Reconcile(v, hash, catalog, snapshot)
    case Err(_) => v
    case Ok(Replace) => v.(active := Some(snapshot.matchId), last := Some(IdentityOf(snapshot)), state := snapshot.state)
    case Ok(Equal) => v.(active := Some(snapshot.matchId), last := Some(IdentityOf(snapshot)))
    case Ok(Older) => v
    case Ok(Diverged) => v.(last := None, resync := true)
  }

  function ReceiveAll(v: View, hash: Hash, catalog: map<string, string>, deliveries: seq<Snapshot>): View {
    if deliveries == [] then v
    else Receive(ReceiveAll(v, hash, catalog, deliveries[..|deliveries| - 1]), hash, catalog, deliveries[|deliveries| - 1])
  }

  /** The last identity describes the displayed state of the active match. */
  ghost predicate Coherent(v: View, hash: Hash) {
    v.last.Some? ==>
      && v.active == Some(v.last.value.matchId)
      && v.last.value.revision == v.state.revision
      && v.last.value.scenarioId == v.state.scenarioId
      && v.last.value.stateHash == hash(v.state)
  }

  /** With no assumption on the sender: the displayed revision never goes down while a last snapshot
      is known, and a conflicting snapshot of the displayed revision never overwrites the display. */
  lemma ReceiveIsMonotone(v: View, hash: Hash, catalog: map<string, string>, snapshot: Snapshot)
    requires Coherent(v, hash)
    ensures var v' := Receive(v, hash, catalog, snapshot);
            && Coherent(v', hash)
            && (v.last.Some? ==> v'.state.revision >= v.state.revision)
            && (v'.state != v.state ==> v'.state == snapshot.state && ValidSnapshot(hash, snapshot)
                                        && (v.last.Some? ==> snapshot.revision > v.state.revision))
            && (v.last.Some? && snapshot.revision == v.state.revision && snapshot.stateHash != hash(v.state) ==>
                  v'.state == v.state)
            && (v.last.Some? && v'.last.None? ==>
                  v'.state == v.state && snapshot.revision == v.state.revision && snapshot.stateHash != hash(v.state))
  {
  }

  /** Nothing of the display changes but for a snapshot that describes its own state, of the active match if there is
      one, in a scenario installed with the hash it names; this holds whether or not a snapshot is known. */
  lemma OnlyPlaceableChanges(v: View, hash: Hash, catalog: map<string, string>, snapshot: Snapshot)
    requires Receive(v, hash, catalog, snapshot) != v
    ensures snapshot.revision == snapshot.state.revision && snapshot.scenarioId == snapshot.state.scenarioId
    ensures snapshot.stateHash == hash(snapshot.state) && snapshot.scenarioHash != ""
    ensures v.active.None? || v.active == Some(snapshot.matchId)
    ensures snapshot.scenarioId in catalog && catalog[snapshot.scenarioId] == snapshot.scenarioHash
    ensures v.last.Some? && v.last.value.matchId == snapshot.matchId ==>
              v.last.value.scenarioId == snapshot.scenarioId && v.last.value.revision <= snapshot.revision
  {
  }

  /** Which refusal is given: the first of these that applies. A refused snapshot changes nothing. */
  lemma RefusalsExactly(v: View, hash: Hash, catalog: map<string, string>, snapshot: Snapshot)
    ensures var verdict := Reconcile(v, hash, catalog, snapshot);
            var describes := snapshot.revision == snapshot.state.revision && snapshot.scenarioId == snapshot.state.scenarioId
                             && snapshot.stateHash == hash(snapshot.state) && snapshot.scenarioHash != "";
            var ours := v.active in {None, Some(snapshot.matchId)};
            var installed := snapshot.scenarioId in catalog;
            var same := installed && catalog[snapshot.scenarioId] == snapshot.scenarioHash;
            var changed := v.last.Some? && v.last.value.matchId == snapshot.matchId
                           && v.last.value.scenarioId != snapshot.scenarioId;
            && (verdict == Err(InvalidSnapshot) <==> !describes)
            && (verdict == Err(DifferentMatch) <==> describes && !ours)
            && (verdict == Err(ScenarioMissing) <==> describes && ours && !installed)
            && (verdict == Err(ScenarioDiffers) <==> describes && ours && installed && !same)
            && (verdict == Err(ScenarioChanged) <==> describes && ours && same && changed)
            && (verdict.Err? ==> Receive(v, hash, catalog, snapshot) == v)
  {
  }

  // ----- runs with resets -----

  /** What reaches the display: a snapshot, a restored seat, an accepted rematch, a newly joined seat, or the
      resync request being sent. */
  datatype Arrival = Delivered(snapshot: Snapshot) | Restored(matchId: nat) | RematchAccepted | SeatJoined | ResyncSent

  function Arrive(v: View, hash: Hash, catalog: map<string, string>, e: Arrival): View {
    match e
    case Delivered(snapshot) => Receive(v, hash, catalog, snapshot)
    case Restored(matchId) => v.(active := Some(matchId), last := None, resync := false)
    case RematchAccepted => v.(active := None, last := None, resync := true)
    case SeatJoined => v.(last := None, resync := false)
    case ResyncSent => v.(resync := false)
  }

  function ArriveAll(v: View, hash: Hash, catalog: map<string, string>, arrivals: seq<Arrival>): View
    decreases |arrivals|
  {
    if arrivals == [] then v else ArriveAll(Arrive(v, hash, catalog, arrivals[0]), hash, catalog, arrivals[1..])
  }

  /** A snapshot is known throughout the run: no reset, and no divergence. */
  predicate Unbroken(v: View, hash: Hash, catalog: map<string, string>, arrivals: seq<Arrival>)
    decreases |arrivals|
  {
    v.last.Some? && (arrivals == [] || Unbroken(Arrive(v, hash, catalog, arrivals[0]), hash, catalog, arrivals[1..]))
  }

  /** What takes the known snapshot away: the three resets, or a valid snapshot of the displayed match and revision
      that carries another hash. */
  predicate Breaks(v: View, hash: Hash, catalog: map<string, string>, e: Arrival) {
    match e
    case Delivered(snapshot) => Reconcile(v, hash, catalog, snapshot) == Ok(Diverged)
    case Restored(_) => true
    case RematchAccepted => true
    case SeatJoined => true
    case ResyncSent => false
  }

  lemma BreaksExactly(v: View, hash: Hash, catalog: map<string, string>, e: Arrival)
    requires Coherent(v, hash) && v.last.Some?
    ensures Arrive(v, hash, catalog, e).last.None? <==> Breaks(v, hash, catalog, e)
    ensures e.Delivered? && Breaks(v, hash, catalog, e) ==>
              e.snapshot.revision == v.state.revision && e.snapshot.stateHash != hash(v.state)
  {
  }

  /** A resync is wanted from a divergence or an accepted rematch until it is sent, or a seat is joined or restored. */
  lemma ResyncExactly(v: View, hash: Hash, catalog: map<string, string>, e: Arrival)
    requires Coherent(v, hash) && v.last.Some?
    ensures Arrive(v, hash, catalog, e).resync
            <==> e.RematchAccepted? || (e.Delivered? && (v.resync || Breaks(v, hash, catalog, e)))
  {
  }

  /** Over every run, with no assumption on the sender: as long as no reset or divergence intervenes, the displayed
      revision never goes down; and the display only ever shows what it started with or a valid delivery. */
  lemma {:induction false} RunIsMonotone(v: View, hash: Hash, catalog: map<string, string>, arrivals: seq<Arrival>)
    requires Coherent(v, hash)
    ensures var end := ArriveAll(v, hash, catalog, arrivals);
            && Coherent(end, hash)
            && (Unbroken(v, hash, catalog, arrivals) ==> end.last.Some? && end.state.revision >= v.state.revision)
            && (end.state == v.state || exists i :: 0 <= i < |arrivals| && arrivals[i].Delivered?
                                                   && ValidSnapshot(hash, arrivals[i].snapshot)
                                                   && arrivals[i].snapshot.state == end.state)
    decreases |arrivals|
  {
    if arrivals != [] {
      var next := Arrive(v, hash, catalog, arrivals[0]);
      if arrivals[0].Delivered? {
        ReceiveIsMonotone(v, hash, catalog, arrivals[0].snapshot);
      }
      RunIsMonotone(next, hash, catalog, arrivals[1..]);
      assert forall i :: 0 <= i < |arrivals| - 1 ==> arrivals[1..][i] == arrivals[i + 1];
    }
  }

  // ----- convergence -----

  /** A delivery the client can place: valid, of the active match, with the installed scenario. */
  ghost predicate Acceptable(hash: Hash, catalog: map<string, string>, matchId: nat, scenarioId: string, snapshot: Snapshot) {
    && ValidSnapshot(hash, snapshot)
    && snapshot.matchId == matchId
    && snapshot.scenarioId == scenarioId
    && scenarioId in catalog && catalog[scenarioId] == snapshot.scenarioHash
  }

  /** Snapshots of equal revision carry equal state. */
  ghost predicate Consistent(deliveries: seq<Snapshot>) {
    forall s, t :: s in deliveries && t in deliveries && s.revision == t.revision ==> s.state == t.state
  }

  ghost predicate Highest(deliveries: seq<Snapshot>, snapshot: Snapshot) {
    snapshot in deliveries && forall s :: s in deliveries ==> s.revision <= snapshot.revision
  }

  predicate Shows(v: View, s: Snapshot) {
    v.active == Some(s.matchId) && v.state == s.state && v.last == Some(IdentityOf(s))
  }

  /** Showing one acceptable snapshot, a client that receives another shows the newer of the two. */
  lemma ShowsNewer(v: View, hash: Hash, catalog: map<string, string>, matchId: nat, scenarioId: string,
                   s: Snapshot, incoming: Snapshot)
    requires Shows(v, s)
    requires Acceptable(hash, catalog, matchId, scenarioId, s) && Acceptable(hash, catalog, matchId, scenarioId, incoming)
    requires s.revision == incoming.revision ==> s.state == incoming.state
    ensures var v' := Receive(v, hash, catalog, incoming);
            v'.resync == v.resync && Shows(v', if incoming.revision > s.revision then incoming else s)
  {
  }

  /** Convergence: a client that starts without a last snapshot ends by displaying the highest
      revision delivered, whatever the order and duplication. */
  lemma {:induction false} Converges(v: View, hash: Hash, catalog: map<string, string>, matchId: nat, scenarioId: string,
                                     deliveries: seq<Snapshot>)
    requires v.last.None? && (v.active.None? || v.active == Some(matchId)) && deliveries != []
    requires forall s :: s in deliveries ==> Acceptable(hash, catalog, matchId, scenarioId, s)
    requires Consistent(deliveries)
    ensures var end := ReceiveAll(v, hash, catalog, deliveries);
            end.resync == v.resync && exists s :: Highest(deliveries, s) && Shows(end, s)
    decreases |deliveries|
  {
    var n := |deliveries| - 1;
    var incoming := deliveries[n];
    var before := deliveries[..n];
    assert deliveries == before + [incoming];
    var mid := ReceiveAll(v, hash, catalog, before);
    var newest := incoming;
    if n > 0 {
      Converges(v, hash, catalog, matchId, scenarioId, before);
      var s :| Highest(before, s) && Shows(mid, s);
      ShowsNewer(mid, hash, catalog, matchId, scenarioId, s, incoming);
      newest := if incoming.revision > s.revision then incoming else s;
    }
    assert Highest(deliveries, newest) && Shows(Receive(mid, hash, catalog, incoming), newest);
  }

  /** Two clients that are delivered the same snapshots display the same state. */
  lemma OrderAndDuplicationIrrelevant(v: View, w: View, hash: Hash, catalog: map<string, string>, matchId: nat, scenarioId: string,
                                      deliveries: seq<Snapshot>, others: seq<Snapshot>)
    requires v.last.None? && (v.active.None? || v.active == Some(matchId)) && deliveries != []
    requires w.last.None? && (w.active.None? || w.active == Some(matchId))
    requires forall s :: s in deliveries <==> s in others
    requires forall s :: s in deliveries ==> Acceptable(hash, catalog, matchId, scenarioId, s)
    requires Consistent(deliveries)
    ensures ReceiveAll(v, hash, catalog, deliveries).state == ReceiveAll(w, hash, catalog, others).state
    ensures ReceiveAll(v, hash, catalog, deliveries).last == ReceiveAll(w, hash, catalog, others).last
  {
    assert deliveries[0] in others;
    Converges(v, hash, catalog, matchId, scenarioId, deliveries);
    Converges(w, hash, catalog, matchId, scenarioId, others);
    var s :| Highest(deliveries, s) && Shows(ReceiveAll(v, hash, catalog, deliveries), s);
    var t :| Highest(others, t) && Shows(ReceiveAll(w, hash, catalog, others), t);
    assert s in others && t in deliveries;
  }

  /** The display as the client updates it in place. */
  class Display {
    const hash: Hash
    const catalog: map<string, string>
    var active: Option<nat>
    var last: Option<Identity>
    var state: MatchState
    var resync: bool

    ghost function Now(): View
      reads this
    {
      View(active, last, state, resync)
    }

    constructor (hash: Hash, catalog: map<string, string>, state: MatchState)
      ensures this.hash == hash && this.catalog == catalog && Now() == View(None, None, state, false)
    {
      this.hash, this.catalog, this.state := hash, catalog, state;
      active, last, resync := None, None, false;
    }

    method Deliver(snapshot: Snapshot) returns (verdict: Result<Disposition, Refusal>)
      modifies this
      ensures verdict == old(Reconcile(Now(), hash, catalog, snapshot))
      ensures Now() == Receive(old(Now()), hash, catalog, snapshot)
    {
      if !ValidSnapshot(hash, snapshot) {
        return Err(InvalidSnapshot);
      }
      if active.Some? && active.value != snapshot.matchId {
        return Err(DifferentMatch);
      }
      if snapshot.scenarioId !in catalog {
        return Err(ScenarioMissing);
      }
      if catalog[snapshot.scenarioId] != snapshot.scenarioHash {
        return Err(ScenarioDiffers);
      }
      var displayed := None;
      if last.Some? && last.value.matchId == snapshot.matchId && last.value.revision == snapshot.revision {
        displayed := Some(hash(state));
      }
      verdict := Classify(last, snapshot, displayed);
      match verdict
      case Err(_) =>
      case Ok(Older) =>
      case Ok(Diverged) =>
        last := None;
        resync := true;
      case Ok(Equal) =>
        active, last := Some(snapshot.matchId), Some(IdentityOf(snapshot));
      case Ok(Replace) =>
        state := snapshot.state;
        active, last := Some(snapshot.matchId), Some(IdentityOf(snapshot));
    }
  }
}
