/** Guided stages and their prerequisite graph: the authoring check, and the choice of the next stage. */
module GuidedContent {
  import opened Rules
  import opened Counting

  datatype Stage = Stage(id: string, prerequisites: seq<string>, hints: nat)

  // ----- the graph -----

  function Ids(stages: seq<Stage>): (ids: seq<string>)
    ensures |ids| == |stages| && forall i :: 0 <= i < |ids| ==> ids[i] == stages[i].id
  {
    seq(|stages|, i requires 0 <= i < |stages| => stages[i].id)
  }

  function IdSet(stages: seq<Stage>): set<string> {
    set id | id in Ids(stages)
  }

  /** The position of a stage by id, or the number of stages when there is none. */
  function IndexOf(stages: seq<Stage>, id: string): (j: nat)
    ensures j <= |stages|
    ensures j < |stages| ==> stages[j].id == id
    ensures j == |stages| ==> forall i :: 0 <= i < |stages| ==> stages[i].id != id
  {
    if stages == [] then 0
    else if stages[0].id == id then 0
    else 1 + IndexOf(stages[1..], id)
  }

  /** The prerequisites of an id; an id that names no stage has none. */
  function Prerequisites(stages: seq<Stage>, id: string): seq<string> {
    var j := IndexOf(stages, id);
    if j < |stages| then stages[j].prerequisites else []
  }

  // ----- the cycle check -----

  /** Depth-first from `id`. `stack` is the path being explored, `done` the ids already finished, in the order
      they finished; none when the path runs into itself. */
  function Visit(stages: seq<Stage>, id: string, stack: seq<string>, done: seq<string>): Option<seq<string>>
    decreases IdSet(stages) - (set s | s in stack), 1, 0
  {
    if id in done then Some(done)
    else if id in stack then None
    else if id !in IdSet(stages) then Some(done + [id])
    else
      assert id in IdSet(stages) - (set s | s in stack);
      match VisitAll(stages, Prerequisites(stages, id), stack + [id], done)
      case None => None
      case Some(finished) => Some(finished + [id])
  }

  function VisitAll(stages: seq<Stage>, ids: seq<string>, stack: seq<string>, done: seq<string>): Option<seq<string>>
    decreases IdSet(stages) - (set s | s in stack), 2, |ids|
  {
    if ids == [] then Some(done)
    else
      match Visit(stages, ids[0], stack, done)
      case None => None
      case Some(finished) => VisitAll(stages, ids[1..], stack, finished)
  }

  /** The authoring check on the prerequisites. */
  predicate Acyclic(stages: seq<Stage>) {
    VisitAll(stages, Ids(stages), [], []).Some?
  }

  /** Every id comes after all its prerequisites. */
  ghost predicate Topological(stages: seq<Stage>, order: seq<string>) {
    forall i, p :: 0 <= i < |order| && p in Prerequisites(stages, order[i]) ==> p in order[..i]
  }

  ghost predicate Sorts(stages: seq<Stage>, order: seq<string>) {
    Topological(stages, order) && forall i :: 0 <= i < |stages| ==> stages[i].id in order
  }

  lemma TopologicalAppend(stages: seq<Stage>, order: seq<string>, id: string)
    requires Topological(stages, order) && forall p :: p in Prerequisites(stages, id) ==> p in order
    ensures Topological(stages, order + [id])
  {
    forall i, p | 0 <= i < |order + [id]| && p in Prerequisites(stages, (order + [id])[i])
      ensures p in (order + [id])[..i]
    {
      if i < |order| {
        assert (order + [id])[..i] == order[..i];
      } else {
        assert (order + [id])[..i] == order;
      }
    }
  }

  lemma StageNamed(stages: seq<Stage>, id: string)
    ensures IndexOf(stages, id) < |stages| <==> id in IdSet(stages)
  {
    var j, ids := IndexOf(stages, id), Ids(stages);
    if j < |stages| {
      assert ids[j] == id;
    } else {
      forall i | 0 <= i < |ids|
        ensures ids[i] != id
      {
        assert stages[i].id != id;
      }
    }
  }

  /** The ids finish in a topological order. */
  lemma {:induction false} VisitSorts(stages: seq<Stage>, id: string, stack: seq<string>, done: seq<string>)
    requires Topological(stages, done)
    ensures var r := Visit(stages, id, stack, done);
            r.Some? ==> Topological(stages, r.value) && id in r.value && done <= r.value
    decreases IdSet(stages) - (set s | s in stack), 1, 0
  {
    if id !in done && id !in stack {
      if id in IdSet(stages) {
        assert id in IdSet(stages) - (set s | s in stack);
        VisitAllSorts(stages, Prerequisites(stages, id), stack + [id], done);
        var r := VisitAll(stages, Prerequisites(stages, id), stack + [id], done);
        if r.Some? {
          TopologicalAppend(stages, r.value, id);
        }
      } else {
        assert id !in Ids(stages);
        StageNamed(stages, id);
        TopologicalAppend(stages, done, id);
      }
    }
  }

  lemma {:induction false} VisitAllSorts(stages: seq<Stage>, ids: seq<string>, stack: seq<string>, done: seq<string>)
    requires Topological(stages, done)
    ensures var r := VisitAll(stages, ids, stack, done);
            r.Some? ==> Topological(stages, r.value) && done <= r.value && forall id :: id in ids ==> id in r.value
    decreases IdSet(stages) - (set s | s in stack), 2, |ids|
  {
    if ids != [] {
      VisitSorts(stages, ids[0], stack, done);
      var first := Visit(stages, ids[0], stack, done);
      if first.Some? {
        VisitAllSorts(stages, ids[1..], stack, first.value);
      }
    }
  }

  /** Where `id` first occurs. */
  function Place(order: seq<string>, id: string): (i: nat)
    requires id in order
    ensures i < |order| && order[i] == id && id !in order[..i]
  {
    if order[0] == id then 0 else 1 + Place(order[1..], id)
  }

  lemma {:induction false} PlaceIsFirst(order: seq<string>, k: nat)
    requires k < |order|
    ensures Place(order, order[k]) <= k
  {
    if order[0] != order[k] {
      PlaceIsFirst(order[1..], k - 1);
    }
  }

  lemma PrerequisitesFirst(stages: seq<Stage>, order: seq<string>, id: string, p: string)
    requires Topological(stages, order) && id in order && p in Prerequisites(stages, id)
    ensures p in order && Place(order, p) < Place(order, id)
  {
    var i := Place(order, id);
    assert p in order[..i];
    var k :| 0 <= k < i && order[k] == p;
    PlaceIsFirst(order, k);
  }

  /** With a topological order to follow, the exploration never runs into its own path. */
  lemma {:induction false} VisitSucceeds(stages: seq<Stage>, order: seq<string>, id: string,
                                         stack: seq<string>, done: seq<string>)
    requires Topological(stages, order) && id in order
    requires forall s :: s in stack ==> s in order && Place(order, id) < Place(order, s)
    ensures Visit(stages, id, stack, done).Some?
    decreases IdSet(stages) - (set s | s in stack), 1, 0
  {
    if id !in done && id in IdSet(stages) {
      assert id in IdSet(stages) - (set s | s in stack);
      forall p | p in Prerequisites(stages, id)
        ensures p in order && Place(order, p) < Place(order, id)
      {
        PrerequisitesFirst(stages, order, id, p);
      }
      VisitAllSucceeds(stages, order, Prerequisites(stages, id), stack + [id], done);
    }
  }

  lemma {:induction false} VisitAllSucceeds(stages: seq<Stage>, order: seq<string>, ids: seq<string>,
                                            stack: seq<string>, done: seq<string>)
    requires Topological(stages, order) && forall id :: id in ids ==> id in order
    requires forall id, s :: id in ids && s in stack ==> s in order && Place(order, id) < Place(order, s)
    ensures VisitAll(stages, ids, stack, done).Some?
    decreases IdSet(stages) - (set s | s in stack), 2, |ids|
  {
    if ids != [] {
      VisitSucceeds(stages, order, ids[0], stack, done);
      VisitAllSucceeds(stages, order, ids[1..], stack, Visit(stages, ids[0], stack, done).value);
    }
  }

  /** The check accepts exactly the prerequisite graphs that some order of the stages respects. */
  lemma AcyclicExactly(stages: seq<Stage>)
    ensures Acyclic(stages) <==> exists order :: Sorts(stages, order)
  {
    VisitAllSorts(stages, Ids(stages), [], []);
    var found := VisitAll(stages, Ids(stages), [], []);
    if found.Some? {
      forall i | 0 <= i < |stages|
        ensures stages[i].id in found.value
      {
        assert Ids(stages)[i] in Ids(stages);
      }
      assert Sorts(stages, found.value);
    }
    if order :| Sorts(stages, order) {
      VisitAllSucceeds(stages, order, Ids(stages), [], []);
    }
  }

  /** What the authoring validation demands of the stages. */
  predicate Authored(stages: seq<Stage>) {
    && stages != []
    && Distinct(Ids(stages))
    && (forall i, p :: 0 <= i < |stages| && p in stages[i].prerequisites ==> p != stages[i].id && p in IdSet(stages))
    && Acyclic(stages)
  }

  // ----- the next stage -----

  predicate Available(stage: Stage, completed: seq<string>) {
    stage.id !in completed && forall p :: p in stage.prerequisites ==> p in completed
  }

  /** The first stage that is not completed and whose prerequisites are. */
  function FirstAvailable(stages: seq<Stage>, completed: seq<string>): (r: Option<nat>)
    ensures r.Some? ==> r.value < |stages| && Available(stages[r.value], completed)
                        && forall i :: 0 <= i < r.value ==> !Available(stages[i], completed)
    ensures r.None? ==> forall i :: 0 <= i < |stages| ==> !Available(stages[i], completed)
  {
    if stages == [] then None
    else if Available(stages[0], completed) then Some(0)
    else
      match FirstAvailable(stages[1..], completed)
      case None => None
      case Some(i) =>
        assert forall j :: 0 < j < i + 1 ==> stages[j] == stages[1..][j - 1];
        Some(i + 1)
  }

  lemma SameId(ids: seq<string>, i: nat, j: nat)
    requires Distinct(ids) && i < |ids| && j < |ids| && ids[i] == ids[j]
    ensures i == j
  {
  }

  lemma UniqueIndex(stages: seq<Stage>, j: nat)
    requires Distinct(Ids(stages)) && j < |stages|
    ensures IndexOf(stages, stages[j].id) == j
    ensures Prerequisites(stages, stages[j].id) == stages[j].prerequisites
  {
    var ids := Ids(stages);
    var id := ids[j];
    StageNamed(stages, id);
    assert id in ids;
    var i := IndexOf(stages, id);
    assert ids[i] == stages[i].id;
    SameId(ids, i, j);
  }

  /** The first id of `order` at or after `from` that names a stage still to be completed. */
  function FirstOpen(stages: seq<Stage>, order: seq<string>, completed: seq<string>, from: nat): (i: nat)
    requires from <= |order|
    ensures from <= i <= |order|
    ensures forall k :: from <= k < i ==> !(order[k] in IdSet(stages) && order[k] !in completed)
    ensures i < |order| ==> order[i] in IdSet(stages) && order[i] !in completed
    decreases |order| - from
  {
    if from == |order| then from
    else if order[from] in IdSet(stages) && order[from] !in completed then from
    else FirstOpen(stages, order, completed, from + 1)
  }

  /** While a stage remains there is a stage to play; so the content ends only when every stage is complete. */
  lemma SomeStageAvailable(stages: seq<Stage>, completed: seq<string>)
    requires Authored(stages)
    ensures FirstAvailable(stages, completed).None? <==> forall i :: 0 <= i < |stages| ==> stages[i].id in completed
  {
    if open :| 0 <= open < |stages| && stages[open].id !in completed {
      AcyclicExactly(stages);
      var order :| Sorts(stages, order);
      assert stages[open].id == Ids(stages)[open];
      var i := FirstOpen(stages, order, completed, 0);
      var k := Place(order, stages[open].id);
      assert i <= k;
      StageNamed(stages, order[i]);
      var j := IndexOf(stages, order[i]);
      forall p | p in stages[j].prerequisites
        ensures p in completed
      {
        assert p in Prerequisites(stages, order[i]);
        assert p in order[..i];
      }
      assert Available(stages[j], completed);
    }
  }

  // ----- counting -----

  /** Distinct stage ids: at most one a stage, and all of them exactly when there are that many. */
  lemma CompletedCount(stages: seq<Stage>, completed: seq<string>)
    requires Distinct(Ids(stages)) && Distinct(completed) && forall id :: id in completed ==> id in IdSet(stages)
    ensures |completed| <= |stages|
    ensures |completed| == |stages| <==> forall i :: 0 <= i < |stages| ==> stages[i].id in completed
  {
    var all, have := Elements(Ids(stages)), Elements(completed);
    assert all == IdSet(stages);
    DistinctCount(Ids(stages));
    DistinctCount(completed);
    SubsetCount(have, all);
    if forall i :: 0 <= i < |stages| ==> stages[i].id in completed {
      forall id | id in all
        ensures id in have
      {
        var i :| 0 <= i < |stages| && Ids(stages)[i] == id;
      }
      assert all == have;
    } else {
      var i :| 0 <= i < |stages| && stages[i].id !in completed;
      assert Ids(stages)[i] in all && Ids(stages)[i] !in have;
    }
  }
}
