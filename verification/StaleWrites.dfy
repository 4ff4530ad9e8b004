/** What stale reconciler writes can do: concrete runs from the empty database in which the GPU quota is
    exceeded. The last write puts back rows that were read before other transactions committed. */
module StaleWrites {
  import opened Wrappers
  import opened Serving
  import opened Quota
  import opened Runs
  import R = Registry

  // The states a run passes through.
  ghost predicate Trace(states: seq<Sys>, events: seq<Event>) {
    && |states| == |events| + 1
    && forall k | 0 <= k < |events| :: Apply(states[k], events[k]) == states[k + 1]
  }

  lemma {:induction false} TraceIsRun(states: seq<Sys>, events: seq<Event>)
    requires Trace(states, events)
    ensures Run(states[0], events) == states[|events|]
    decreases |events|
  {
    if events != [] {
      TraceIsRun(states[1..], events[1..]);
    }
  }

  /******* The setting: four GPUs, two evaluated language models of three GPUs and of one *******/

  const Bounds: map<string, R.Threshold> := map["quality" := R.Threshold(Some(0.5), None)]
  const Scores: map<string, real> := map["quality" := 0.9]

  const ReadP: Op := SawProject(0, Project(PPending, 0))
  const MovedP: Op := SawProject(0, Project(PProvisioning, 0))
  const ReadyP: Op := SawProject(0, Project(PReady, 0))
  const Judge0: Op := Judges(0, Bounds)
  const Judge1: Op := Judges(1, Bounds)
  const Big: Plan := Plan(0, 0, HuggingFace, 3, 1)
  const Small: Plan := Plan(0, 1, HuggingFace, 1, 1)
  const Other: Plan := Plan(1, 0, HuggingFace, 3, 1)

  const Models: seq<Model> := [Llm(0, 3, 1), Llm(0, 1, 1)]
  const Bare: Deployment := Deployment(0, Pending, None, None, [])
  const First: Deployment := Deployment(0, Deploying, Some(1), None, [Revise(Big)])
  const Second: Deployment := Deployment(0, Deploying, Some(2), None, [Revise(Big), Revise(Small)])
  const Neighbour: Deployment := Deployment(0, Deploying, Some(1), None, [Revise(Other)])

  function Versions(a: R.ModelStatus, b: R.ModelStatus): seq<R.Version> {
    [R.Version(0, a), R.Version(1, b)]
  }

  function Found(status: ProjectStatus, quota: nat): Db {
    Db([Project(status, quota)], [], [], [], R.Registry([], [], []))
  }

  function Judging(versions: seq<R.Version>, evaluations: seq<R.Evaluation>): Db {
    Db([Project(PReady, 4)], Models, [], [], R.Registry(versions, evaluations, []))
  }

  function Deployed(quota: Project, deployments: seq<Deployment>): Db {
    Db([quota], Models, deployments, [],
       R.Registry(Versions(R.Candidate, R.Candidate),
           [R.Evaluation(0, None, R.Passed), R.Evaluation(1, None, R.Passed)], []))
  }

  const Reads: seq<Op> := [ReadP, MovedP, ReadyP]

  const SetupEvents: seq<Event> := [
    AddProject, ReadProject(0), WriteProject(0, PProvisioning), WriteProject(1, PReady), ChangeQuota(0, 4),
    AddModel(Models[0]), AddModel(Models[1]), AddVersion(0), AddVersion(1),
    EvaluateFirst(0, Bounds), EvaluateSecond(3, Scores), EvaluateFirst(1, Bounds), EvaluateSecond(4, Scores),
    AddDeployment(0), AddDeployment(0)]

  const SetupStates: seq<Sys> := [
    Empty,
    Sys(Found(PPending, 0), []),
    Sys(Found(PPending, 0), [ReadP]),
    Sys(Found(PProvisioning, 0), [ReadP, MovedP]),
    Sys(Found(PReady, 0), Reads),
    Sys(Found(PReady, 4), Reads),
    Sys(Found(PReady, 4).(models := [Models[0]]), Reads),
    Sys(Judging([], []), Reads),
    Sys(Judging([R.Version(0, R.Registered)], []), Reads),
    Sys(Judging(Versions(R.Registered, R.Registered), []), Reads),
    Sys(Judging(Versions(R.Evaluating, R.Registered), [R.Evaluation(0, None, R.Running)]), Reads + [Judge0]),
    Sys(Judging(Versions(R.Candidate, R.Registered), [R.Evaluation(0, None, R.Passed)]), Reads + [Judge0]),
    Sys(Judging(Versions(R.Candidate, R.Evaluating),
        [R.Evaluation(0, None, R.Passed), R.Evaluation(1, None, R.Running)]), Reads + [Judge0, Judge1]),
    Sys(Deployed(Project(PReady, 4), []), Reads + [Judge0, Judge1]),
    Sys(Deployed(Project(PReady, 4), [Bare]), Reads + [Judge0, Judge1]),
    Sys(Deployed(Project(PReady, 4), [Bare, Bare]), Reads + [Judge0, Judge1])]

  lemma ProjectSetup()
    ensures forall k | 0 <= k < 4 :: Apply(SetupStates[k], SetupEvents[k]) == SetupStates[k + 1]
  {
  }

  lemma QuotaSetup()
    ensures forall k | 4 <= k < 7 :: Apply(SetupStates[k], SetupEvents[k]) == SetupStates[k + 1]
  {
    assert GpusInUse(SetupStates[4].db, 0, None) == 0;
  }

  lemma VersionSetup()
    ensures forall k | 7 <= k < 9 :: Apply(SetupStates[k], SetupEvents[k]) == SetupStates[k + 1]
  {
  }

  lemma FirstStarted()
    ensures Apply(SetupStates[9], SetupEvents[9]) == SetupStates[10]
  {
    var before, running := SetupStates[9].db.registry, SetupStates[10].db.registry;
    assert before.versions[0 := R.Version(0, R.Evaluating)] == running.versions;
    assert before.evaluations + [R.Evaluation(0, None, R.Running)] == running.evaluations;
    assert forall v: nat :: !R.IsChampion(before.versions, 0, v);
    assert "quality" in Bounds;
    assert R.StartEvaluation(before, 0, Bounds) == Ok((running, 0));
  }

  lemma FirstJudged()
    ensures Apply(SetupStates[10], SetupEvents[10]) == SetupStates[11]
  {
    var running, after := SetupStates[10].db.registry, SetupStates[11].db.registry;
    assert running.versions[0 := R.Version(0, R.Candidate)] == after.versions;
    assert running.evaluations[0 := R.Evaluation(0, None, R.Passed)] == after.evaluations;
    assert R.AllChecksPass(Scores, Bounds);
    assert R.FinishEvaluation(running, 0, Scores, Bounds) == Ok(after);
    assert Continue(SetupStates[10], SetupEvents[10], Judge0) == SetupStates[11];
  }

  lemma SecondStarted()
    ensures Apply(SetupStates[11], SetupEvents[11]) == SetupStates[12]
  {
    var before, running := SetupStates[11].db.registry, SetupStates[12].db.registry;
    assert before.versions[1 := R.Version(1, R.Evaluating)] == running.versions;
    assert before.evaluations + [R.Evaluation(1, None, R.Running)] == running.evaluations;
    assert forall v: nat :: !R.IsChampion(before.versions, 1, v);
    assert "quality" in Bounds;
    assert R.StartEvaluation(before, 1, Bounds) == Ok((running, 1));
  }

  lemma SecondJudged()
    ensures Apply(SetupStates[12], SetupEvents[12]) == SetupStates[13]
  {
    var running, after := SetupStates[12].db.registry, SetupStates[13].db.registry;
    assert running.versions[1 := R.Version(1, R.Candidate)] == after.versions;
    assert running.evaluations[1 := R.Evaluation(1, None, R.Passed)] == after.evaluations;
    assert R.AllChecksPass(Scores, Bounds);
    assert R.FinishEvaluation(running, 1, Scores, Bounds) == Ok(after);
    assert Continue(SetupStates[12], SetupEvents[12], Judge1) == SetupStates[13];
  }

  lemma DeploymentSetup()
    ensures forall k | 13 <= k < 15 :: Apply(SetupStates[k], SetupEvents[k]) == SetupStates[k + 1]
  {
  }

  lemma Setup()
    ensures Run(Empty, SetupEvents) == SetupStates[15]
  {
    ProjectSetup();
    QuotaSetup();
    VersionSetup();
    FirstStarted();
    FirstJudged();
    SecondStarted();
    SecondJudged();
    DeploymentSetup();
    assert Trace(SetupStates, SetupEvents);
    TraceIsRun(SetupStates, SetupEvents);
  }

  lemma {:induction false} RunsCompose(s: Sys, a: seq<Event>, b: seq<Event>)
    ensures Run(s, a + b) == Run(Run(s, a), b)
    decreases |a|
  {
    if a == [] {
      assert a + b == b;
    } else {
      assert (a + b)[1..] == a[1..] + b;
      RunsCompose(Apply(s, a[0]), a[1..], b);
    }
  }

  /******* A stale deployment write *******/

  // Deployment 0 is read while revision 1 (three GPUs) is desired. It is then redeployed with one GPU,
  // and the GPUs set free go to deployment 1, before the reconciler records revision 1 as READY.
  const OverrunEvents: seq<Event> := [
    DeployFirst(0, 0), DeploySecond(5), ReadDeployment(0),
    DeployFirst(0, 1), DeploySecond(7),
    DeployFirst(1, 0), DeploySecond(8),
    WriteReady(6)]

  const Late: seq<Op> := Reads + [Judge0, Judge1]
  const Stale: Deployment := Deployment(0, Ready, Some(1), Some(1), [Revise(Big), Revise(Small)])

  const OverrunStates: seq<Sys> := [
    SetupStates[15],
    Sys(Deployed(Project(PReady, 4), [Bare, Bare]), Late + [Deploys(Big)]),
    Sys(Deployed(Project(PReady, 4), [First, Bare]), Late + [Deploys(Big)]),
    Sys(Deployed(Project(PReady, 4), [First, Bare]), Late + [Deploys(Big), SawDeployment(0, First)]),
    Sys(Deployed(Project(PReady, 4), [First, Bare]), Late + [Deploys(Big), SawDeployment(0, First), Deploys(Small)]),
    Sys(Deployed(Project(PReady, 4), [Second, Bare]), Late + [Deploys(Big), SawDeployment(0, First), Deploys(Small)]),
    Sys(Deployed(Project(PReady, 4), [Second, Bare]),
        Late + [Deploys(Big), SawDeployment(0, First), Deploys(Small), Deploys(Other)]),
    Sys(Deployed(Project(PReady, 4), [Second, Neighbour]),
        Late + [Deploys(Big), SawDeployment(0, First), Deploys(Small), Deploys(Other)]),
    Sys(Deployed(Project(PReady, 4), [Stale, Neighbour]),
        Late + [Deploys(Big), SawDeployment(0, First), Deploys(Small), Deploys(Other)])]

  lemma NothingHeld(db: Db, d: nat)
    requires d < |db.deployments| && db.rollouts == [] && db.deployments[d].desired.None?
    requires db.deployments[d].active.None?
    ensures HeldGpus(db, d, {}) == 0
  {
    assert Held(db, d) == {};
    HeldCostOfNothing(db.deployments[d].revisions);
  }

  lemma HeldCostOfNothing(revisions: seq<Revision>)
    ensures HeldCost(revisions, {}) == 0
  {
  }

  lemma CostOfOne(a: Revision, held: set<nat>)
    ensures HeldCost([a], held) == if 1 in held then Gpus(a) else 0
  {
    HeldCostOfOneMore([], a, held);
    assert [] + [a] == [a];
  }

  lemma CostOfTwo(a: Revision, b: Revision, held: set<nat>)
    ensures HeldCost([a, b], held) == (if 1 in held then Gpus(a) else 0) + (if 2 in held then Gpus(b) else 0)
  {
    CostOfOne(a, held);
    HeldCostOfOneMore([a], b, held);
    assert [a] + [b] == [a, b];
  }

  lemma OneHeld(db: Db, d: nat)
    requires d < |db.deployments| && db.rollouts == [] && |db.deployments[d].revisions| == 1
    requires db.deployments[d].desired == Some(1) && db.deployments[d].active.None?
    ensures HeldGpus(db, d, {}) == Gpus(db.deployments[d].revisions[0])
  {
    var revisions := db.deployments[d].revisions;
    assert revisions == [revisions[0]];
    CostOfOne(revisions[0], Held(db, d) + {});
  }

  // Two revisions, one of them held.
  lemma OneOfTwoHeld(db: Db, d: nat, n: nat)
    requires d < |db.deployments| && db.rollouts == [] && |db.deployments[d].revisions| == 2
    requires n == 1 || n == 2
    requires db.deployments[d].desired == Some(n)
    requires db.deployments[d].active.None? || db.deployments[d].active == Some(n)
    ensures HeldGpus(db, d, {}) == Gpus(db.deployments[d].revisions[n - 1])
  {
    var revisions := db.deployments[d].revisions;
    assert revisions == [revisions[0], revisions[1]];
    CostOfTwo(revisions[0], revisions[1], Held(db, d) + {});
  }

  lemma TwoDeploymentsUse(db: Db, besides: Option<nat>)
    requires |db.deployments| == 2 && db.deployments[0].project == db.deployments[1].project == 0
    ensures GpusInUse(db, 0, besides) ==
            (if besides == Some(0) then 0 else HeldGpus(db, 0, {}))
              + (if besides == Some(1) then 0 else HeldGpus(db, 1, {}))
  {
    assert GpusOfFirst(db, 0, besides, 0) == 0;
    assert GpusOfFirst(db, 0, besides, 1) == if besides == Some(0) then 0 else HeldGpus(db, 0, {});
  }

  lemma OverrunStart()
    ensures forall k | 0 <= k < 3 :: Apply(OverrunStates[k], OverrunEvents[k]) == OverrunStates[k + 1]
  {
    var db := OverrunStates[0].db;
    NothingHeld(db, 0);
    NothingHeld(db, 1);
    TwoDeploymentsUse(db, Some(0));
    assert DeployCheck(db, 0, 0) == Ok(Some(Big));
    assert db.deployments[0 := First] == [First, Bare];
    assert [] + [Revise(Big)] == [Revise(Big)];
    assert DeployCommit(db, Big) == Ok(OverrunStates[2].db);
    assert Continue(OverrunStates[1], DeploySecond(5), Deploys(Big)) == OverrunStates[2];
    assert ActiveRollout(OverrunStates[2].db, 0).None?;
  }

  lemma OverrunRedeploy()
    ensures forall k | 3 <= k < 5 :: Apply(OverrunStates[k], OverrunEvents[k]) == OverrunStates[k + 1]
  {
    var db := OverrunStates[3].db;
    OneHeld(db, 0);
    NothingHeld(db, 1);
    TwoDeploymentsUse(db, Some(0));
    assert DeployCheck(db, 0, 1) == Ok(Some(Small));
    assert First.revisions + [Revise(Small)] == Second.revisions;
    assert db.deployments[0 := Second] == [Second, Bare];
    assert DeployCommit(db, Small) == Ok(OverrunStates[5].db);
    assert Continue(OverrunStates[4], DeploySecond(7), Deploys(Small)) == OverrunStates[5];
  }

  lemma OverrunNeighbour()
    ensures forall k | 5 <= k < 7 :: Apply(OverrunStates[k], OverrunEvents[k]) == OverrunStates[k + 1]
  {
    var db := OverrunStates[5].db;
    OneOfTwoHeld(db, 0, 2);
    NothingHeld(db, 1);
    TwoDeploymentsUse(db, Some(1));
    assert DeployCheck(db, 1, 0) == Ok(Some(Other));
    assert [] + [Revise(Other)] == [Revise(Other)];
    assert db.deployments[1 := Neighbour] == [Second, Neighbour];
    assert DeployCommit(db, Other) == Ok(OverrunStates[7].db);
    assert Continue(OverrunStates[6], DeploySecond(8), Deploys(Other)) == OverrunStates[7];
  }

  lemma OverrunWrite()
    ensures Apply(OverrunStates[7], OverrunEvents[7]) == OverrunStates[8]
    ensures GpusInUse(OverrunStates[8].db, 0, None) == 6
    ensures !Fresh(OverrunStates[7], OverrunEvents[7])
  {
    var db := OverrunStates[7].db;
    assert db.deployments[0 := Stale] == [Stale, Neighbour];
    assert MarkReady(db, 0, First) == Ok(OverrunStates[8].db);
    assert Continue(OverrunStates[7], WriteReady(6), SawDeployment(0, First)) == OverrunStates[8];
    var after := OverrunStates[8].db;
    OneOfTwoHeld(after, 0, 1);
    OneHeld(after, 1);
    TwoDeploymentsUse(after, None);
  }

  lemma OverrunIsRun()
    ensures Run(Empty, SetupEvents + OverrunEvents) == OverrunStates[8]
  {
    Setup();
    OverrunStart();
    OverrunRedeploy();
    OverrunNeighbour();
    OverrunWrite();
    assert Trace(OverrunStates, OverrunEvents);
    TraceIsRun(OverrunStates, OverrunEvents);
    RunsCompose(Empty, SetupEvents, OverrunEvents);
  }

  /** A run from the empty database after which a project with four GPUs has six in use. */
  lemma StaleDeploymentWriteOverruns()
    ensures var end := Run(Empty, SetupEvents + OverrunEvents).db;
            |end.projects| == 1 && end.projects[0].quota == 4 && GpusInUse(end, 0, None) == 6 && !InQuota(end, 0)
  {
    OverrunIsRun();
    OverrunWrite();
  }

  /******* A stale project write *******/

  // The project was read as READY with no GPUs; the drift the reconciler then records takes back the
  // four GPUs an administrator granted meanwhile, three of which are in use.
  const DriftEvents: seq<Event> := [DeployFirst(0, 0), DeploySecond(5), WriteProject(2, PDrifted)]

  const DriftStates: seq<Sys> := [
    SetupStates[15],
    OverrunStates[1],
    OverrunStates[2],
    Sys(Deployed(Project(PDrifted, 0), [First, Bare]), Late + [Deploys(Big), SawProject(0, Project(PDrifted, 0))])]

  lemma DriftIsRun()
    ensures Run(Empty, SetupEvents + DriftEvents) == DriftStates[3]
  {
    Setup();
    OverrunStart();
    assert OverrunStates[2].db.projects[0 := Project(PDrifted, 0)] == [Project(PDrifted, 0)];
    assert Continue(DriftStates[2], WriteProject(2, PDrifted), ReadyP) == DriftStates[3];
    assert Apply(DriftStates[2], DriftEvents[2]) == DriftStates[3];
    assert DriftEvents[0] == OverrunEvents[0] && DriftEvents[1] == OverrunEvents[1];
    assert Trace(DriftStates, DriftEvents);
    TraceIsRun(DriftStates, DriftEvents);
    RunsCompose(Empty, SetupEvents, DriftEvents);
  }

  /** A run from the empty database after which a project without GPUs has three in use. */
  lemma StaleProjectWriteOverruns()
    ensures var end := Run(Empty, SetupEvents + DriftEvents).db;
            |end.projects| == 1 && end.projects[0].quota == 0 && GpusInUse(end, 0, None) == 3 && !InQuota(end, 0)
  {
    DriftIsRun();
    var after := DriftStates[3].db;
    OneHeld(after, 0);
    NothingHeld(after, 1);
    TwoDeploymentsUse(after, None);
  }
}
