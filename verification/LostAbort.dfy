/** A run from the empty database in which a rollout succeeds although its abort was requested: the write
    that ends it was decided on a read from before the request. */
module LostAbort {
  import opened Wrappers
  import opened Serving
  import opened Quota
  import opened Runs
  import opened Aborts
  import StaleWrites
  import R = Registry

  // Two versions of a function, which needs no GPU and no evaluation.
  const Big: Plan := Plan(0, 0, Container, 0, 1)
  const New: Plan := Plan(0, 1, Container, 0, 1)

  const Bare: Deployment := Deployment(0, Pending, None, None, [])
  const Started: Deployment := Deployment(0, Deploying, Some(1), None, [Revise(Big)])
  const Serves: Deployment := Deployment(0, Ready, Some(1), Some(1), [Revise(Big)])
  const Both: Deployment := Deployment(0, Ready, Some(1), Some(1), [Revise(Big), Revise(New)])
  const Moved: Deployment := Deployment(0, Ready, Some(2), Some(2), [Revise(Big), Revise(New)])

  const Asked: Rollout := Rollout(0, 1, 2, 1, Waiting, false)
  const Going: Rollout := Rollout(0, 1, 2, 1, Progressing, false)
  const Aborted: Rollout := Rollout(0, 1, 2, 1, Progressing, true)
  const Over: Rollout := Rollout(0, 1, 2, 1, Succeeded, false)

  const Reads: seq<Op> := [SawProject(0, Project(PPending, 0)), SawProject(0, Project(PProvisioning, 0)),
      SawProject(0, Project(PReady, 0))]
  const Deployed: seq<Op> := Reads + [Deploys(Big), SawDeployment(0, Started)]
  const Prepared: seq<Op> := Deployed + [Ensures(New), HasRevision(0, 2)]

  function Versions(second: R.ModelStatus): R.Registry {
    R.Registry([R.Version(0, R.Candidate), R.Version(0, second)], [], [])
  }

  function Holding(deployments: seq<Deployment>, rollouts: seq<Rollout>): Db {
    Db([Project(PReady, 0)], [Function(0)], deployments, rollouts, Versions(R.Candidate))
  }

  const Events: seq<Event> := [
    AddProject, ReadProject(0), WriteProject(0, PProvisioning), WriteProject(1, PReady),
    AddModel(Function(0)), AddVersion(0), AddVersion(0), AddDeployment(0),
    DeployFirst(0, 0), DeploySecond(3), ReadDeployment(0), WriteReady(4),
    EnsureFirst(0, 1), EnsureSecond(5), RolloutStart(6),
    ReadRollout(0), WriteProgress(7), ReadRollout(0), RolloutAbort(0), WriteSuccess(8)]

  function Found(status: ProjectStatus, models: seq<Model>, versions: seq<R.Version>): Db {
    Db([Project(status, 0)], models, [], [], R.Registry(versions, [], []))
  }

  const States: seq<Sys> := [
    Empty,
    Sys(Found(PPending, [], []), []),
    Sys(Found(PPending, [], []), Reads[..1]),
    Sys(Found(PProvisioning, [], []), Reads[..2]),
    Sys(Found(PReady, [], []), Reads),
    Sys(Found(PReady, [Function(0)], []), Reads),
    Sys(Found(PReady, [Function(0)], [R.Version(0, R.Candidate)]), Reads),
    Sys(Holding([], []), Reads),
    Sys(Holding([Bare], []), Reads),
    Sys(Holding([Bare], []), Reads + [Deploys(Big)]),
    Sys(Holding([Started], []), Reads + [Deploys(Big)]),
    Sys(Holding([Started], []), Deployed),
    Sys(Holding([Serves], []), Deployed),
    Sys(Holding([Serves], []), Deployed + [Ensures(New)]),
    Sys(Holding([Both], []), Prepared),
    Sys(Holding([Both], [Asked]), Prepared),
    Sys(Holding([Both], [Asked]), Prepared + [SawRollout(0, Asked)]),
    Sys(Holding([Both], [Going]), Prepared + [SawRollout(0, Asked)]),
    Sys(Holding([Both], [Going]), Prepared + [SawRollout(0, Asked), SawRollout(0, Going)]),
    Sys(Holding([Both], [Aborted]), Prepared + [SawRollout(0, Asked), SawRollout(0, Going)]),
    Sys(Ended, Prepared + [SawRollout(0, Asked), SawRollout(0, Going)])]

  const Ended: Db := Db([Project(PReady, 0)], [Function(0)], [Moved], [Over],
                        R.Registry([R.Version(0, R.Candidate), R.Version(0, R.Champion)], [], [R.Promotion(1, None)]))

  lemma {:induction false} FreeOfGpus(revisions: seq<Revision>, held: set<nat>)
    requires forall k | 0 <= k < |revisions| :: Gpus(revisions[k]) == 0
    ensures HeldCost(revisions, held) == 0
  {
    if revisions != [] { FreeOfGpus(revisions[..|revisions| - 1], held); }
  }

  lemma Founded()
    ensures forall k | 0 <= k < 3 :: Apply(States[k], Events[k]) == States[k + 1]
  {
  }

  lemma Provisioned()
    ensures forall k | 3 <= k < 5 :: Apply(States[k], Events[k]) == States[k + 1]
  {
  }

  lemma Registered()
    ensures forall k | 5 <= k < 8 :: Apply(States[k], Events[k]) == States[k + 1]
  {
  }

  lemma DeployChecked()
    ensures Apply(States[8], Events[8]) == States[9]
  {
    FreeOfGpus([], Held(States[8].db, 0) + {});
    assert DeployCheck(States[8].db, 0, 0) == Ok(Some(Big));
  }

  lemma DeployCommitted()
    ensures Apply(States[9], Events[9]) == States[10]
  {
    var db := States[9].db;
    FreeOfGpus([], Held(db, 0) + {});
    assert [] + [Revise(Big)] == [Revise(Big)];
    assert db.deployments[0 := Started] == [Started];
    assert DeployCommit(db, Big) == Ok(States[10].db);
    assert Continue(States[9], Events[9], Deploys(Big)) == States[10];
  }

  lemma MadeReady()
    ensures forall k | 10 <= k < 12 :: Apply(States[k], Events[k]) == States[k + 1]
  {
    assert ActiveRollout(States[10].db, 0).None?;
    assert States[11].db.deployments[0 := Serves] == [Serves];
    assert MarkReady(States[11].db, 0, Started) == Ok(States[12].db);
    assert Continue(States[11], Events[11], SawDeployment(0, Started)) == States[12];
  }

  lemma RevisionChecked()
    ensures Apply(States[12], Events[12]) == States[13]
  {
    var db := States[12].db;
    FreeOfGpus(Serves.revisions, Number(Serves.active));
    assert Find(Serves.revisions, 1).None?;
    assert EnsureCheck(db, 0, 1) == Ok(Planned(New));
  }

  lemma RevisionCommitted()
    ensures Apply(States[13], Events[13]) == States[14]
  {
    var db := States[13].db;
    assert Find(Serves.revisions, 1).None?;
    assert Serves.revisions + [Revise(New)] == Both.revisions;
    assert db.deployments[0 := Both] == [Both];
    assert EnsureCommit(db, New) == Ok((States[14].db, 2));
    assert Continue(States[13], Events[13], Ensures(New)) == States[14];
  }

  lemma RolloutStarted()
    ensures Apply(States[14], Events[14]) == States[15]
  {
    var db := States[14].db;
    FreeOfGpus(Both.revisions, Held(db, 0) + {2});
    assert [] + [Asked] == [Asked];
    assert StartRollout(db, 0, 2) == Ok(States[15].db);
    assert Continue(States[14], Events[14], HasRevision(0, 2)) == States[15];
  }

  lemma RolloutWent()
    ensures forall k | 15 <= k < 18 :: Apply(States[k], Events[k]) == States[k + 1]
  {
    assert States[16].db.rollouts[0 := Going] == [Going];
    assert ProgressRollout(States[16].db, 0, Asked) == Ok(States[17].db);
    assert Continue(States[16], Events[16], SawRollout(0, Asked)) == States[17];
  }

  lemma AbortRequested()
    ensures Apply(States[18], Events[18]) == States[19]
    ensures IsStopping(States[19], 0)
  {
    assert States[18].db.rollouts[0 := Aborted] == [Aborted];
  }

  lemma Crowns()
    ensures R.Promote(Versions(R.Candidate), 1) == Ok(Ended.registry)
  {
    var candidates, crowned := Versions(R.Candidate), Ended.registry;
    assert forall v: nat :: !R.IsChampion(candidates.versions, 0, v);
    assert candidates.versions[1 := R.Version(0, R.Champion)] == crowned.versions;
    assert R.ChampionOf(candidates.versions, 0).None?;
    assert [] + [R.Promotion(1, None)] == crowned.promotions;
  }

  lemma Succeeds()
    ensures Apply(States[19], Events[19]) == States[20]
    ensures !PutsBackFlag(States[19], Events[19], 0)
  {
    var db := States[19].db;
    Crowns();
    assert db.rollouts[0 := Over] == [Over] && db.deployments[0 := Moved] == [Moved];
    assert SucceedRollout(db, 0, Going) == Ok(Ended);
    assert Continue(States[19], Events[19], SawRollout(0, Going)) == States[20];
  }

  lemma StepsTrace()
    ensures StaleWrites.Trace(States, Events)
  {
    Founded();
    Provisioned();
    Registered();
    DeployChecked();
    DeployCommitted();
    MadeReady();
    RevisionChecked();
    RevisionCommitted();
    RolloutStarted();
    RolloutWent();
    AbortRequested();
    Succeeds();
  }

  lemma {:induction false} PrefixTrace(states: seq<Sys>, events: seq<Event>, n: nat)
    requires StaleWrites.Trace(states, events) && n <= |events|
    ensures StaleWrites.Trace(states[..n + 1], events[..n])
  {
    forall k | 0 <= k < n ensures Apply(states[..n + 1][k], events[..n][k]) == states[..n + 1][k + 1] {
      assert Apply(states[k], events[k]) == states[k + 1];
    }
  }

  // Up to the abort.
  lemma AbortIsRequested()
    ensures IsStopping(Run(Empty, Events[..19]), 0)
  {
    StepsTrace();
    PrefixTrace(States, Events, 19);
    StaleWrites.TraceIsRun(States[..20], Events[..19]);
    AbortRequested();
  }

  /** The last but one step leaves the rollout told to stop; the last one leaves it succeeded, its canary
      serving and its version champion. */
  lemma AbortedRolloutSucceeds()
    ensures IsStopping(Run(Empty, Events[..19]), 0)
    ensures var end := Run(Empty, Events).db;
            && |end.rollouts| == 1 && end.rollouts[0].status == Succeeded
            && |end.deployments| == 1 && end.deployments[0].active == Some(2)
            && |end.registry.versions| == 2 && end.registry.versions[1].status == R.Champion
  {
    AbortIsRequested();
    StepsTrace();
    StaleWrites.TraceIsRun(States, Events);
  }
}
