/** The lineage graph of the catalog, and the bounded walk up from one dataset. */
module Lineage {
  import opened Wrappers
  import opened Catalog

  // A catalog in which everything is later than what it refers to.
  type History = c: Catalog | Ordered(c) witness EMPTY

  datatype Key = DatasetNode(d: nat) | RunNode(r: nat) | ModelNode(m: nat)

  datatype Relation = Output | Input | Model | Trained

  datatype Edge = Edge(source: Key, target: Key, relation: Relation)

  predicate Exists(c: History, k: Key) {
    match k
    case DatasetNode(d) => d < |c.datasets|
    case RunNode(r) => r < |c.runs|
    case ModelNode(m) => m < |c.models|
  }

  // When a node was committed.
  function At(c: History, k: Key): nat
    requires Exists(c, k)
  {
    match k
    case DatasetNode(d) => c.datasets[d].at
    case RunNode(r) => c.runs[r].at
    case ModelNode(m) => c.models[m].at
  }

  // The pipeline run of the project that a version's tag names, if there is one.
  function Trainer(c: History, m: nat): (r: Option<nat>)
    requires m < |c.models|
    ensures r.Some? ==> r.value < |c.runs| && c.runs[r.value].project == c.models[m].project
  {
    var r := c.models[m].trainedBy;
    if r.Some? && r.value < |c.runs| && c.runs[r.value].pipeline && c.runs[r.value].project == c.models[m].project then
      r
    else None
  }

  // The run named was there when the version was registered.
  predicate TagIsEarlier(c: History, m: nat)
    requires m < |c.models|
  {
    Trainer(c, m).Some? ==> c.runs[Trainer(c, m).value].at < c.models[m].at
  }

  // A dataset the run produced, with a record of what it read.
  predicate Recorded(c: History, d: nat, run: nat) {
    d < |c.datasets| && c.datasets[d].producer == Some(run) && c.datasets[d].audit.Some?
  }

  // The relations the catalog records.
  ghost predicate Related(c: History, e: Edge) {
    && Exists(c, e.source) && Exists(c, e.target)
    && match e.relation
       case Output => e.source.RunNode? && e.target.DatasetNode? && c.datasets[e.target.d].producer == Some(e.source.r)
       case Input =>
         && e.source.DatasetNode? && e.target.RunNode?
         && exists d: nat :: Recorded(c, d, e.target.r) && c.datasets[d].audit.value.input == e.source.d
       case Model =>
         && e.source.ModelNode? && e.target.RunNode?
         && exists d: nat :: Recorded(c, d, e.target.r) && c.datasets[d].audit.value.model == e.source.m
       case Trained => e.source.RunNode? && e.target.ModelNode? && Trainer(c, e.target.m) == Some(e.source.r)
  }

  // A training relation by a tag that named a later run.
  ghost predicate IsLate(c: History, e: Edge) {
    e.relation == Trained && e.target.ModelNode? && e.target.m < |c.models| && !TagIsEarlier(c, e.target.m)
  }

  /** Every relation but a late training one leads from an earlier commit to a later one. */
  lemma RelationsAreOrdered(c: History, e: Edge)
    requires Related(c, e)
    ensures At(c, e.source) < At(c, e.target) <==> !IsLate(c, e)
  {
    match e.relation
    case Output => assert DatasetIsLater(c, c.datasets[e.target.d]);
    case Input =>
      if d: nat :| Recorded(c, d, e.target.r) && c.datasets[d].audit.value.input == e.source.d {
        assert DatasetIsLater(c, c.datasets[d]);
      }
    case Model =>
      if d: nat :| Recorded(c, d, e.target.r) && c.datasets[d].audit.value.model == e.source.m {
        assert DatasetIsLater(c, c.datasets[d]);
      }
    case Trained =>
  }

  ghost predicate IsPath(c: History, path: seq<Edge>) {
    && (forall i | 0 <= i < |path| :: Related(c, path[i]))
    && (forall i | 0 < i < |path| :: path[i].source == path[i - 1].target)
  }

  ghost predicate IsCycle(c: History, path: seq<Edge>) {
    IsPath(c, path) && path != [] && path[0].source == path[|path| - 1].target
  }

  lemma {:induction false} PathsAscend(c: History, path: seq<Edge>)
    requires IsPath(c, path) && path != [] && forall i | 0 <= i < |path| :: !IsLate(c, path[i])
    ensures At(c, path[0].source) < At(c, path[|path| - 1].target)
  {
    var last := |path| - 1;
    RelationsAreOrdered(c, path[last]);
    if last > 0 {
      PathsAscend(c, path[..last]);
      assert path[last].source == path[last - 1].target;
    }
  }

  /** The graph of datasets, runs and models has no cycle but through a version whose tag names a run later
      than the version itself. In particular its datasets and runs alone have none. */
  lemma GraphIsAcyclic(c: History, path: seq<Edge>)
    requires IsCycle(c, path)
    ensures exists i | 0 <= i < |path| :: IsLate(c, path[i])
  {
    if forall i | 0 <= i < |path| :: !IsLate(c, path[i]) {
      PathsAscend(c, path);
    }
  }

  // Ids are drawn when rows are created: a tag names a run that is there, or one that never will be.
  ghost predicate TagsAreIssued(c: Catalog, steps: seq<Step>, ever: nat)
    decreases |steps|
  {
    steps != [] ==>
      && (steps[0].VersionRegistered? && steps[0].trainedBy.Some? ==> IsIssued(c, steps[0].trainedBy.value, ever))
      && TagsAreIssued(Apply(c, steps[0]), steps[1..], ever)
  }

  predicate IsIssued(c: Catalog, run: nat, ever: nat) {
    run < |c.runs| || run >= ever
  }

  // No version is earlier than a run its tag names, among those there will ever be.
  ghost predicate NoneIsLate(c: Catalog, ever: nat) {
    forall m | 0 <= m < |c.models| && c.models[m].trainedBy.Some? ::
      var r := c.models[m].trainedBy.value;
      IsIssued(c, r, ever) && (r < |c.runs| && r < ever ==> c.runs[r].at < c.models[m].at)
  }

  lemma VersionIsNotLate(c: Catalog, project: nat, trainedBy: Option<nat>, ever: nat)
    requires Valid(c) && NoneIsLate(c, ever) && (trainedBy.Some? ==> IsIssued(c, trainedBy.value, ever))
    ensures NoneIsLate(Apply(c, VersionRegistered(project, trainedBy)), ever)
  {
    if trainedBy.Some? && trainedBy.value < |c.runs| {
      assert RunIsLater(c, c.runs[trainedBy.value]);
    }
  }

  lemma OthersAreNotLate(c: Catalog, step: Step, ever: nat)
    requires Valid(c) && NoneIsLate(c, ever) && !step.VersionRegistered?
    ensures NoneIsLate(Apply(c, step), ever)
  {
    StepKeeps(c, step);
    var after := Apply(c, step);
    assert after.models == c.models;
    assert forall r | 0 <= r < |c.runs| :: after.runs[r] == c.runs[r];
    assert forall m | 0 <= m < |c.models| && c.models[m].trainedBy.Some? ::
      IsIssued(c, c.models[m].trainedBy.value, ever);
  }

  lemma {:induction false} IssuedTagsAreEarlier(c: Catalog, steps: seq<Step>, ever: nat)
    requires Valid(c) && NoneIsLate(c, ever) && TagsAreIssued(c, steps, ever)
    ensures Valid(After(c, steps)) && NoneIsLate(After(c, steps), ever)
    decreases |steps|
  {
    if steps != [] {
      StepKeeps(c, steps[0]);
      match steps[0] {
        case VersionRegistered(project, trainedBy) => VersionIsNotLate(c, project, trainedBy, ever);
        case _ => OthersAreNotLate(c, steps[0], ever);
      }
      IssuedTagsAreEarlier(Apply(c, steps[0]), steps[1..], ever);
    }
  }

  /** As the platform draws ids, in every history, there is no cycle at all. */
  lemma HistoriesAreAcyclic(steps: seq<Step>, path: seq<Edge>)
    requires TagsAreIssued(EMPTY, steps, |After(EMPTY, steps).runs|)
    ensures Valid(After(EMPTY, steps)) && !IsCycle(After(EMPTY, steps), path)
  {
    var c := After(EMPTY, steps);
    IssuedTagsAreEarlier(EMPTY, steps, |c.runs|);
    if IsCycle(c, path) {
      GraphIsAcyclic(c, path);
    }
  }

  // A tag that names a run created only later, by a job that uses the version. No history of the platform has
  // one, as nobody knows the id of a run before it is drawn.
  const LateTag: seq<Step> := [
    DatasetPublished(0, 0, 0, None, None, 0, 0),
    VersionRegistered(0, Some(0)),
    JobCreated(0, Some(Batch(Pinned(0), 0, 0))),
    RunCreated(0, true, [0], None, None),
    OutputPublished(0, 0, 1, None, 0, 0)]

  /** So the condition on tags is needed: the run uses the version that it is said to have trained. */
  lemma LateTagMakesACycle()
    ensures Valid(After(EMPTY, LateTag))
    ensures exists path :: IsCycle(After(EMPTY, LateTag), path)
  {
    EveryHistoryIsSound(EMPTY, LateTag);
    var c := After(EMPTY, LateTag);
    LateTagEnds();
    var used, trained := Edge(ModelNode(0), RunNode(0), Model), Edge(RunNode(0), ModelNode(0), Trained);
    assert c.datasets[1].producer == Some(0) && c.datasets[1].audit == Some(Audit(0, 0));
    assert Related(c, used) && Related(c, trained);
    assert IsCycle(c, [used, trained]);
  }

  lemma LateTagEnds()
    ensures var c := After(EMPTY, LateTag);
            && |c.datasets| == 2 && c.datasets[1].producer == Some(0) && c.datasets[1].audit == Some(Audit(0, 0))
            && c.models == [Version(0, Some(0), 1)] && |c.runs| == 1 && c.runs[0].project == 0 && c.runs[0].pipeline
  {
    var first := Dataset(0, 0, 1, None, None, 0, 0, None, 0);
    var c1 := Catalog([first], [], [], [], 1);
    var c2 := c1.(models := [Version(0, Some(0), 1)], now := 2);
    var c3 := c2.(jobs := [Job(0, Some(Batch(Pinned(0), 0, 0)), 2)], now := 3);
    var c4 := c3.(runs := [Run(0, true, [0], None, None, [Some(Audit(0, 0))], 3)], now := 4);
    var c5 := c4.(datasets := [first, Dataset(0, 1, 1, Some(0), None, 0, 0, Some(Audit(0, 0)), 4)], now := 5);
    assert Apply(EMPTY, LateTag[0]) == c1;
    assert Apply(c1, LateTag[1]) == c2;
    assert Apply(c2, LateTag[2]) == c3;
    assert Snapshots(c3, 0, [0], 0, None) == Ok([]);
    assert [] + [Some(Audit(0, 0))] == [Some(Audit(0, 0))];
    assert Snapshots(c3, 0, [0], 1, None) == Ok([Some(Audit(0, 0))]);
    assert Apply(c3, LateTag[3]) == c4;
    assert Apply(c4, LateTag[4]) == c5;
    StatesOfHistory([EMPTY, c1, c2, c3, c4, c5], LateTag);
  }

  lemma {:induction false} StatesOfHistory(states: seq<Catalog>, steps: seq<Step>)
    requires |states| == |steps| + 1 && forall k | 0 <= k < |steps| :: Apply(states[k], steps[k]) == states[k + 1]
    ensures After(states[0], steps) == states[|steps|]
    decreases |steps|
  {
    if steps != [] {
      StatesOfHistory(states[1..], steps[1..]);
    }
  }

  /******* What the walk shows *******/

  const MAX_DEPTH: nat := 4
  const MAX_NODES: nat := 24

  // The model a step used, and the run that trained it.
  function ModelNodes(c: History, m: nat): set<Key>
    requires m < |c.models|
  {
    {ModelNode(m)} + (if Trainer(c, m).Some? then {RunNode(Trainer(c, m).value)} else {})
  }

  function ModelEdges(c: History, m: nat, run: Key): set<Edge>
    requires m < |c.models|
  {
    {Edge(ModelNode(m), run, Model)}
    + (if Trainer(c, m).Some? then {Edge(RunNode(Trainer(c, m).value), ModelNode(m), Trained)} else {})
  }

  // What is shown of a dataset and the step that produced it, besides the step's input.
  function StepNodes(c: History, d: nat): set<Key>
    requires d < |c.datasets|
  {
    assert DatasetIsLater(c, c.datasets[d]);
    var row := c.datasets[d];
    if row.producer.None? then {DatasetNode(d)}
    else
      {DatasetNode(d), RunNode(row.producer.value)}
      + if row.audit.Some? then ModelNodes(c, row.audit.value.model) else {}
  }

  function StepEdges(c: History, d: nat): set<Edge>
    requires d < |c.datasets|
  {
    assert DatasetIsLater(c, c.datasets[d]);
    var row := c.datasets[d];
    if row.producer.None? then {}
    else
      var run := RunNode(row.producer.value);
      {Edge(run, DatasetNode(d), Output)} + if row.audit.Some? then ModelEdges(c, row.audit.value.model, run) else {}
  }

  // The input a dataset's producing step read, as far as it is recorded.
  function Source(c: History, d: nat): (source: Option<nat>)
    requires d < |c.datasets|
    ensures source.Some? ==>
              c.datasets[d].producer.Some? && source.value < |c.datasets|
                && c.datasets[source.value].at < c.datasets[d].at
                             && c.datasets[source.value].project == c.datasets[d].project
  {
    assert DatasetIsLater(c, c.datasets[d]);
    if c.datasets[d].audit.Some? then Some(c.datasets[d].audit.value.input) else None
  }

  // Everything up to the given number of steps away; beyond the last step only the dataset itself.
  function Nodes(c: History, d: nat, steps: nat): set<Key>
    requires d < |c.datasets|
    decreases steps
  {
    if steps == 0 then {DatasetNode(d)}
    else
      match Source(c, d)
      case None => StepNodes(c, d)
      case Some(s) => StepNodes(c, d) + Nodes(c, s, steps - 1)
  }

  function Edges(c: History, d: nat, steps: nat): set<Edge>
    requires d < |c.datasets|
    decreases steps
  {
    if steps == 0 then {}
    else
      match Source(c, d)
      case None => StepEdges(c, d)
      case Some(s) =>
        StepEdges(c, d) + Edges(c, s, steps - 1) + {Edge(DatasetNode(s), RunNode(c.datasets[d].producer.value), Input)}
  }

  // Whether a dataset is reached at the limit that has a producer of its own.
  predicate Truncated(c: History, d: nat, steps: nat)
    requires d < |c.datasets|
    decreases steps
  {
    if steps == 0 then c.datasets[d].producer.Some?
    else
      match Source(c, d)
      case None => false
      case Some(s) => Truncated(c, s, steps - 1)
  }

  lemma UnionSize<T>(a: set<T>, b: set<T>)
    ensures |a + b| <= |a| + |b|
  {
    assert a + b == a + (b - a);
    assert (b - a) + (a * b) == b;
  }

  lemma StepIsSmall(c: History, d: nat)
    requires d < |c.datasets|
    ensures |StepNodes(c, d)| <= 4
  {
    assert DatasetIsLater(c, c.datasets[d]);
    var row := c.datasets[d];
    if row.audit.Some? {
      ModelIsSmall(c, row.audit.value.model);
      PairIsSmall(DatasetNode(d), RunNode(row.producer.value));
      UnionSize({DatasetNode(d), RunNode(row.producer.value)}, ModelNodes(c, row.audit.value.model));
    }
  }

  lemma ModelIsSmall(c: History, m: nat)
    requires m < |c.models|
    ensures |ModelNodes(c, m)| <= 2
  {
  }

  lemma PairIsSmall(a: Key, b: Key)
    ensures |{a, b}| <= 2
  {
    UnionSize({a}, {b});
    assert {a, b} == {a} + {b};
  }

  /** At most four nodes a step, so at most seventeen within four steps. */
  lemma {:induction false} NodesAreFew(c: History, d: nat, steps: nat)
    requires d < |c.datasets|
    ensures |Nodes(c, d, steps)| <= 4 * steps + 1
    decreases steps
  {
    if steps > 0 {
      StepIsSmall(c, d);
      if Source(c, d).Some? {
        NodesAreFew(c, Source(c, d).value, steps - 1);
        UnionSize(StepNodes(c, d), Nodes(c, Source(c, d).value, steps - 1));
      }
    }
  }

  lemma StepIsRelated(c: History, d: nat)
    requires d < |c.datasets|
    ensures forall e | e in StepEdges(c, d) ::
              Related(c, e) && e.source in StepNodes(c, d) && e.target in StepNodes(c, d)
    ensures DatasetNode(d) in StepNodes(c, d)
    ensures c.datasets[d].producer.Some? ==> RunNode(c.datasets[d].producer.value) in StepNodes(c, d)
  {
    assert DatasetIsLater(c, c.datasets[d]);
    if c.datasets[d].audit.Some? {
      assert VersionIsLater(c, c.models[c.datasets[d].audit.value.model]);
    }
  }

  /** Every edge shown is one of the catalog's relations between two nodes shown. */
  lemma {:induction false} EdgesJoinNodes(c: History, d: nat, steps: nat)
    requires d < |c.datasets|
    ensures DatasetNode(d) in Nodes(c, d, steps)
    ensures forall e | e in Edges(c, d, steps) ::
              Related(c, e) && e.source in Nodes(c, d, steps) && e.target in Nodes(c, d, steps)
    decreases steps
  {
    StepIsRelated(c, d);
    if steps > 0 && Source(c, d).Some? {
      var s := Source(c, d).value;
      EdgesJoinNodes(c, s, steps - 1);
      InputIsRelated(c, d, s);
    }
  }

  lemma InputIsRelated(c: History, d: nat, s: nat)
    requires d < |c.datasets| && Source(c, d) == Some(s)
    ensures Related(c, Edge(DatasetNode(s), RunNode(c.datasets[d].producer.value), Input))
  {
    assert DatasetIsLater(c, c.datasets[d]);
  }

  // The chain of recorded inputs, n steps up.
  function Ancestor(c: History, d: nat, n: nat): (a: Option<nat>)
    requires d < |c.datasets|
    ensures a.Some? ==> a.value < |c.datasets|
    decreases n
  {
    if n == 0 then Some(d)
    else
      match Source(c, d)
      case None => None
      case Some(s) => Ancestor(c, s, n - 1)
  }

  /** The walk is marked as cut exactly when the dataset at the limit of the chain has a producer. */
  lemma {:induction false} TruncatedIsExact(c: History, d: nat, steps: nat)
    requires d < |c.datasets|
    ensures Truncated(c, d, steps) <==>
              Ancestor(c, d, steps).Some? && c.datasets[Ancestor(c, d, steps).value].producer.Some?
    decreases steps
  {
    if steps > 0 && Source(c, d).Some? {
      TruncatedIsExact(c, Source(c, d).value, steps - 1);
    }
  }

  /** The walk shows the producing step of every dataset fewer steps up than the limit. */
  lemma {:induction false} NothingIsMissed(c: History, d: nat, steps: nat, n: nat)
    requires d < |c.datasets| && n < steps
    ensures Ancestor(c, d, n).Some? ==>
              && StepNodes(c, Ancestor(c, d, n).value) <= Nodes(c, d, steps)
              && StepEdges(c, Ancestor(c, d, n).value) <= Edges(c, d, steps)
    decreases steps
  {
    if n > 0 && Source(c, d).Some? {
      NothingIsMissed(c, Source(c, d).value, steps - 1, n - 1);
    }
  }

  /******* The walk *******/

  class Walk {
    const project: nat
    // How many steps up the walk goes.
    const limit: nat
    var nodes: set<Key>
    var edges: seq<Edge>
    var visited: set<nat>
    var truncated: bool

    // The edges as a set.
    ghost var shown: set<Edge>

    ghost predicate Distinct()
      reads this`edges, this`shown
    {
      && (forall i, j | 0 <= i < j < |edges| :: edges[i] != edges[j])
      && (forall e :: e in shown <==> e in edges)
    }

    constructor (project: nat, limit: nat)
      ensures this.project == project && this.limit == limit && nodes == {} && shown == {} && Distinct()
      ensures visited == {} && !truncated
    {
      this.project, this.limit := project, limit;
      nodes, edges, shown, visited, truncated := {}, [], {}, {}, false;
    }

    method AddEdge(e: Edge)
      requires Distinct()
      modifies this`edges, this`shown
      ensures Distinct() && shown == old(shown) + {e}
    {
      if e !in edges {
        edges, shown := edges + [e], shown + {e};
      }
    }

    // The model a step used, and the run that trained it.
    method AddModel(c: History, m: nat, run: Key)
      requires Distinct() && m < |c.models| && c.models[m].project == project
      modifies this`nodes, this`edges, this`shown
      ensures Distinct()
      ensures nodes == old(nodes) + ModelNodes(c, m)
      ensures shown == old(shown) + ModelEdges(c, m, run)
    {
      assert VersionIsLater(c, c.models[m]);
      nodes := nodes + {ModelNode(m)};
      AddEdge(Edge(ModelNode(m), run, Model));
      var trainedBy := c.models[m].trainedBy;
      if trainedBy.Some? && trainedBy.value < |c.runs| && c.runs[trainedBy.value].pipeline
        && c.runs[trainedBy.value].project == project {
        nodes := nodes + {RunNode(trainedBy.value)};
        AddEdge(Edge(RunNode(trainedBy.value), ModelNode(m), Trained));
      }
    }

    /** Adds exactly what is to be shown of a dataset and what it came from. Going up, datasets only get
        older, so none is met twice; and too few nodes are met for the node limit to matter. */
    method Visit(c: History, d: nat, depth: nat, ghost left: nat)
      requires Distinct() && depth + left == limit && 2 * limit + 1 < MAX_NODES
      requires d < |c.datasets| && c.datasets[d].project == project
      requires |nodes| <= 2 * depth && !truncated
      requires forall v | v in visited :: v < |c.datasets| && c.datasets[d].at < c.datasets[v].at
      modifies this
      ensures Distinct()
      ensures nodes == old(nodes) + Nodes(c, d, left)
      ensures shown == old(shown) + Edges(c, d, left)
      ensures truncated == Truncated(c, d, left)
      decreases left, 1
    {
      nodes := nodes + {DatasetNode(d)};
      if d in visited {
        return;
      }
      visited := visited + {d};
      if depth >= limit || |nodes| >= MAX_NODES {
        truncated := c.datasets[d].producer.Some? || truncated;
        return;
      }
      VisitStep(c, d, depth, left);
    }

    // The step that produced a dataset, what it read, and the model it used.
    method VisitStep(c: History, d: nat, depth: nat, ghost left: nat)
      requires Distinct() && depth + left == limit && left > 0 && 2 * limit + 1 < MAX_NODES
      requires d < |c.datasets| && c.datasets[d].project == project
      requires |nodes| <= 2 * depth + 1 && !truncated && DatasetNode(d) in nodes
      requires forall v | v in visited :: v < |c.datasets| && c.datasets[d].at <= c.datasets[v].at
      modifies this
      ensures Distinct()
      ensures nodes == old(nodes) + Nodes(c, d, left)
      ensures shown == old(shown) + Edges(c, d, left)
      ensures truncated == Truncated(c, d, left)
      decreases left, 0
    {
      var row := c.datasets[d];
      assert DatasetIsLater(c, row);
      if row.producer.None? || c.runs[row.producer.value].project != project {
        PlainStepUnfolds(c, d, left, old(nodes), old(shown));
        return;
      }
      var run := RunNode(row.producer.value);
      nodes := nodes + {run};
      AddEdge(Edge(run, DatasetNode(d), Output));
      if row.audit.None? {
        PlainStepUnfolds(c, d, left, old(nodes), old(shown));
        return;
      }
      var source, model := row.audit.value.input, row.audit.value.model;
      VisitInputs(c, source, model, run, depth, left - 1);
      StepUnfolds(c, d, left, old(nodes), old(shown));
    }

    // What a step read and the model it used.
    method VisitInputs(c: History, source: nat, model: nat, run: Key, depth: nat, ghost left: nat)
      requires Distinct() && depth + 1 + left == limit && 2 * limit + 1 < MAX_NODES
      requires source < |c.datasets| && c.datasets[source].project == project && model < |c.models|
      requires c.models[model].project == project
      requires |nodes| <= 2 * depth + 2 && !truncated
      requires forall v | v in visited :: v < |c.datasets| && c.datasets[source].at < c.datasets[v].at
      modifies this
      ensures Distinct()
      ensures nodes == old(nodes) + Nodes(c, source, left) + ModelNodes(c, model)
      ensures shown
             == old(shown) + Edges(c, source, left) + {Edge(DatasetNode(source), run, Input)}
               + ModelEdges(c, model, run)
      ensures truncated == Truncated(c, source, left)
      decreases left, 2
    {
      if c.datasets[source].project == project {
        Visit(c, source, depth + 1, left);
        AddEdge(Edge(DatasetNode(source), run, Input));
      }
      if c.models[model].project == project {
        AddModel(c, model, run);
      }
    }
  }

  // A step without a record of what it read ends the walk.
  lemma PlainStepUnfolds(c: History, d: nat, steps: nat, nodes: set<Key>, edges: set<Edge>)
    requires d < |c.datasets| && steps > 0 && c.datasets[d].audit.None? && DatasetNode(d) in nodes
    ensures !Truncated(c, d, steps)
    ensures match c.datasets[d].producer
            case None => nodes == nodes + Nodes(c, d, steps) && edges == edges + Edges(c, d, steps)
            case Some(r) =>
              && nodes + {RunNode(r)} == nodes + Nodes(c, d, steps)
              && edges + {Edge(RunNode(r), DatasetNode(d), Output)} == edges + Edges(c, d, steps)
  {
    assert DatasetIsLater(c, c.datasets[d]);
    assert Nodes(c, d, steps) == StepNodes(c, d);
    assert Edges(c, d, steps) == StepEdges(c, d);
  }

  // Step by step or all together, the same is shown.
  lemma StepUnfolds(c: History, d: nat, steps: nat, nodes: set<Key>, edges: set<Edge>)
    requires d < |c.datasets| && steps > 0 && c.datasets[d].audit.Some? && DatasetNode(d) in nodes
    ensures DatasetIsLater(c, c.datasets[d])
    ensures Truncated(c, d, steps) == Truncated(c, c.datasets[d].audit.value.input, steps - 1)
    ensures var run, audit := RunNode(c.datasets[d].producer.value), c.datasets[d].audit.value;
            && nodes + {run} + Nodes(c, audit.input, steps - 1) + ModelNodes(c, audit.model)
              == nodes + Nodes(c, d, steps)
            && edges + {Edge(run, DatasetNode(d), Output)} + Edges(c, audit.input, steps - 1)
               + {Edge(DatasetNode(audit.input), run, Input)} + ModelEdges(c, audit.model, run)
               == edges + Edges(c, d, steps)
  {
    assert DatasetIsLater(c, c.datasets[d]);
    var run, audit := RunNode(c.datasets[d].producer.value), c.datasets[d].audit.value;
    Regroup(nodes, DatasetNode(d), run, Nodes(c, audit.input, steps - 1), ModelNodes(c, audit.model));
    RegroupEdges(edges, Edge(run, DatasetNode(d), Output), Edges(c, audit.input, steps - 1),
                 Edge(DatasetNode(audit.input), run, Input), ModelEdges(c, audit.model, run));
  }

  lemma Regroup(before: set<Key>, d: Key, run: Key, above: set<Key>, model: set<Key>)
    requires d in before
    ensures before + {run} + above + model == before + (({d, run} + model) + above)
  {
  }

  lemma RegroupEdges(before: set<Edge>, output: Edge, above: set<Edge>, input: Edge, model: set<Edge>)
    ensures before + {output} + above + {input} + model == before + ((({output} + model) + above) + {input})
  {
  }

  /** The lineage of a dataset, up to a limit at which the cut by nodes is out of reach: exactly what is to be
      shown, no edge twice. */
  method Trace(c: History, root: nat, limit: nat) returns (nodes: set<Key>, edges: seq<Edge>, truncated: bool)
    requires root < |c.datasets| && 2 * limit + 1 < MAX_NODES
    ensures nodes == Nodes(c, root, limit) && truncated == Truncated(c, root, limit)
    ensures (set e | e in edges) == Edges(c, root, limit)
    ensures forall i, j | 0 <= i < j < |edges| :: edges[i] != edges[j]
    ensures |nodes| <= 4 * limit + 1
  {
    var walk := new Walk(c.datasets[root].project, limit);
    walk.Visit(c, root, 0, limit);
    FromNothing(Nodes(c, root, limit));
    FromNothing(Edges(c, root, limit));
    SetOfSeq(walk.edges, walk.shown);
    nodes, edges, truncated := walk.nodes, walk.edges, walk.truncated;
    NodesAreFew(c, root, limit);
  }

  /** The walk of the platform: four steps up, with at most seventeen nodes. */
  method TraceFour(c: History, root: nat) returns (nodes: set<Key>, edges: seq<Edge>, truncated: bool)
    requires root < |c.datasets|
    ensures nodes == Nodes(c, root, 4) && (set e | e in edges) == Edges(c, root, 4)
    ensures |nodes| <= 17 && forall i, j | 0 <= i < j < |edges| :: edges[i] != edges[j]
    ensures truncated <==> Ancestor(c, root, 4).Some? && c.datasets[Ancestor(c, root, 4).value].producer.Some?
  {
    nodes, edges, truncated := Trace(c, root, MAX_DEPTH);
    TruncatedIsExact(c, root, 4);
  }

  lemma FromNothing<T>(a: set<T>)
    ensures {} + a == a
  {
  }

  lemma SetOfSeq<T>(s: seq<T>, a: set<T>)
    requires forall x :: x in a <==> x in s
    ensures (set x | x in s) == a
  {
  }
}
