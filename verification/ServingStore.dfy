/** The serving tables as the transactions update them, row by row. */
module ServingStore {
  import opened Wrappers
  import opened Serving
  import opened Quota
  import R = Registry

  // A transaction ends as its specification says: its rows are committed, or an error leaves them as they were.
  ghost predicate Ends(before: Db, after: Db, out: Option<Error>, spec: Result<Db>) {
    match spec
    case Ok(db) => out.None? && after == db
    case Err(error) => out == Some(error) && after == before
  }

  class UnitOfWork {
    var projects: seq<Project>
    var models: seq<Model>
    var deployments: seq<Deployment>
    var rollouts: seq<Rollout>
    var versions: seq<R.Version>
    var evaluations: seq<R.Evaluation>
    var promotions: seq<R.Promotion>

    function Rows(): Db
      reads this
    {
      Db(projects, models, deployments, rollouts, R.Registry(versions, evaluations, promotions))
    }

    ghost predicate Valid()
      reads this
    {
      Sound(Rows())
    }

    constructor ()
      ensures Valid() && Rows() == Db([], [], [], [], R.Registry([], [], []))
    {
      projects, models, deployments, rollouts := [], [], [], [];
      versions, evaluations, promotions := [], [], [];
    }

    /******* GPU accounting *******/

    // Adds up the revisions of a set of numbers, each number once.
    method CostOf(d: nat, numbers: set<nat>) returns (total: nat)
      requires d < |deployments|
      ensures total == HeldCost(deployments[d].revisions, numbers)
    {
      total := 0;
      var left := numbers;
      while left != {}
        invariant total + HeldCost(deployments[d].revisions, left) == HeldCost(deployments[d].revisions, numbers)
        decreases left
      {
        var number :| number in left;
        HeldCostCountsOnce(deployments[d].revisions, left - {number}, number);
        assert left - {number} + {number} == left;
        if 1 <= number <= |deployments[d].revisions| {
          var revision := deployments[d].revisions[number - 1];
          total := total + revision.gpus * revision.maxScale;
        }
        left := left - {number};
      }
      HeldCostOfNobody(deployments[d].revisions);
    }

    method Numbers(d: nat) returns (held: set<nat>)
      requires d < |deployments|
      ensures held == Held(Rows(), d)
    {
      held := Number(deployments[d].active) + Number(deployments[d].desired);
      var rollout := ActiveRollout(Rows(), d);
      if rollout.Some? {
        held := held + {rollouts[rollout.value].from, rollouts[rollout.value].to};
      }
    }

    method SumHeld(d: nat, incoming: set<nat>) returns (total: nat)
      requires d < |deployments|
      ensures total == HeldGpus(Rows(), d, incoming)
    {
      var held := Numbers(d);
      total := CostOf(d, held + incoming);
    }

    // Every deployment of the project except one, each serving revision and each canary counted once.
    method SumInUse(project: nat, besides: Option<nat>) returns (total: nat)
      ensures total == GpusInUse(Rows(), project, besides)
    {
      total := 0;
      for d := 0 to |deployments|
        invariant total == GpusOfFirst(Rows(), project, besides, d)
      {
        if deployments[d].project == project && besides != Some(d) {
          var held := SumHeld(d, {});
          total := total + held;
        }
      }
    }

    method TestQuota(d: nat, need: nat) returns (fits: bool)
      requires d < |deployments| && deployments[d].project < |projects|
      ensures fits == CheckGpus(Rows(), d, need)
    {
      if need == 0 {
        return true;
      }
      var others := SumInUse(deployments[d].project, Some(d));
      fits := others + need <= projects[deployments[d].project].quota;
    }

    /******* Champions *******/

    method MakeChampion(v: nat, expected: R.ModelStatus)
      requires Valid() && v < |versions| && versions[v].status == expected
      requires expected == R.Candidate || expected == R.Archived
      modifies this`versions, this`promotions
      ensures R.MakeChampion(old(Rows()).registry, v, expected).Ok?
      ensures Rows() == old(Rows()).(registry := R.MakeChampion(old(Rows()).registry, v, expected).value)
      ensures Valid()
    {
      ghost var before := Rows();
      R.MakeChampionExactly(before.registry, v, expected);
      R.MakeChampionKeepsValid(before.registry, v, expected);
      var previous := R.ChampionOf(versions, versions[v].model);
      if previous.Some? {
        versions := versions[previous.value := versions[previous.value].(status := R.Archived)];
      }
      versions := versions[v := versions[v].(status := R.Champion)];
      promotions := promotions + [R.Promotion(v, previous)];
      RegistryKeeps(before, Rows());
    }

    method RestoreChampion(v: nat) returns (out: Option<Error>)
      requires Valid()
      modifies this`versions, this`promotions
      ensures match R.Restore(old(Rows()).registry, v)
              case Ok(registry) => out.None? && Rows() == old(Rows()).(registry := registry)
              case Err(error) => out == Some(error) && Rows() == old(Rows())
      ensures Valid()
    {
      if |versions| <= v { return Some(NotFound); }
      if versions[v].status == R.Champion { return None; }
      if versions[v].status != R.Archived { return Some(Conflict); }
      MakeChampion(v, R.Archived);
      return None;
    }

    method PromoteVersion(v: nat) returns (out: Option<Error>)
      requires Valid()
      modifies this`versions, this`promotions
      ensures Ends(old(Rows()), Rows(), out, PromoteByHand(old(Rows()), v))
      ensures Valid()
    {
      if |versions| <= v { return Some(NotFound); }
      if ActiveByVersion(Rows(), v).Some? { return Some(Conflict); }
      if versions[v].status == R.Champion { return None; }
      if versions[v].status != R.Candidate { return Some(Conflict); }
      MakeChampion(v, R.Candidate);
      return None;
    }

    /******* Deployments *******/

    method CommitDeploy(plan: Plan) returns (out: Option<Error>)
      requires Valid()
      modifies this`deployments
      ensures Ends(old(Rows()), Rows(), out, DeployCommit(old(Rows()), plan))
      ensures Valid()
    {
      DeployCommitKeeps(Rows(), plan);
      var d := plan.deployment;
      if |deployments| <= d { return Some(NotFound); }
      if Gone(deployments[d]) { return Some(Conflict); }
      if |versions| <= plan.version || !R.Deployable(versions[plan.version].status) { return Some(Conflict); }
      if IsLatest(deployments[d], plan.version) { return None; }
      var revision := Revise(plan);
      var held := SumHeld(d, {});
      var fits := TestQuota(d, Gpus(revision) + held);
      if !fits { return Some(Conflict); }
      var number := |deployments[d].revisions| + 1;
      deployments := deployments[d := deployments[d].(revisions := deployments[d].revisions + [revision])];
      var updated := deployments[d].(desired := Some(number));
      if updated.status != Deploying {
        updated := updated.(status := Deploying);
      }
      deployments := deployments[d := updated];
      return None;
    }

    method CommitRevision(plan: Plan) returns (out: Option<Error>, number: nat)
      requires Valid()
      modifies this`deployments
      ensures match EnsureCommit(old(Rows()), plan)
              case Ok((db, n)) => out.None? && number == n && Rows() == db
              case Err(error) => out == Some(error) && Rows() == old(Rows())
      ensures Valid()
    {
      EnsureCommitKeeps(Rows(), plan);
      var d := plan.deployment;
      number := 0;
      if |deployments| <= d { return Some(NotFound), 0; }
      if Gone(deployments[d]) { return Some(Conflict), 0; }
      if |versions| <= plan.version || !R.Deployable(versions[plan.version].status) { return Some(Conflict), 0; }
      var existing := Find(deployments[d].revisions, plan.version);
      if existing.Some? { return None, existing.value; }
      number := |deployments[d].revisions| + 1;
      deployments := deployments[d := deployments[d].(revisions := deployments[d].revisions + [Revise(plan)])];
      return None, number;
    }

    method RollBackDeployment(d: nat, to: Option<nat>) returns (out: Option<Error>)
      requires Valid()
      modifies this`deployments, this`versions, this`promotions
      ensures Ends(old(Rows()), Rows(), out, Rollback(old(Rows()), d, to))
      ensures Valid()
    {
      RollbackKeeps(Rows(), d, to);
      if |deployments| <= d { return Some(NotFound); }
      if Gone(deployments[d]) { return Some(Conflict); }
      if ActiveRollout(Rows(), d).Some? { return Some(Conflict); }
      var active := deployments[d].active;
      if active.None? { return Some(Conflict); }
      var target := if to.Some? then to else Before(active.value);
      if target.None? || !(1 <= target.value <= |deployments[d].revisions|) { return Some(Conflict); }
      if target == active && deployments[d].desired == active { return None; }
      var held := SumHeld(d, {target.value});
      var fits := TestQuota(d, held);
      if !fits { return Some(Conflict); }
      out := ServeAgain(d, target.value);
    }

    method ServeAgain(d: nat, target: nat) returns (out: Option<Error>)
      requires Valid() && d < |deployments| && 1 <= target <= |deployments[d].revisions|
      modifies this`deployments, this`versions, this`promotions
      ensures Ends(old(Rows()), Rows(), out, PointBack(old(Rows()), d, target))
    {
      var restoring := deployments[d].revisions[target - 1].version;
      if versions[restoring].status == R.Archived {
        var restored := RestoreChampion(restoring);
        if restored.Some? { return restored; }
      } else if versions[restoring].status != R.Champion {
        return Some(Conflict);
      }
      var updated := deployments[d].(desired := Some(target));
      if updated.status != Deploying {
        updated := updated.(status := Deploying);
      }
      deployments := deployments[d := updated];
      return None;
    }

    method DeleteDeployment(d: nat) returns (out: Option<Error>)
      requires Valid()
      modifies this`deployments
      ensures Ends(old(Rows()), Rows(), out, RequestDelete(old(Rows()), d))
      ensures out.None? ==> d < |deployments| && Gone(deployments[d]) && ActiveRollout(Rows(), d).None?
      ensures Valid()
    {
      RequestDeleteKeeps(Rows(), d);
      if |deployments| <= d { return Some(NotFound); }
      if Gone(deployments[d]) { return None; }
      if ActiveRollout(Rows(), d).Some? { return Some(Conflict); }
      deployments := deployments[d := deployments[d].(status := Deleting)];
      return None;
    }

    method ChangeQuota(project: nat, gpus: int) returns (out: Option<Error>)
      requires Valid()
      modifies this`projects
      ensures Ends(old(Rows()), Rows(), out, SetGpuQuota(old(Rows()), project, gpus))
      ensures Valid()
    {
      SetGpuQuotaKeeps(Rows(), project, gpus);
      if |projects| <= project { return Some(NotFound); }
      if projects[project].quota == gpus { return None; }
      var used := SumInUse(project, None);
      if gpus < used { return Some(Conflict); }
      if gpus > MAX_GPUS_PER_PROJECT { return Some(InvalidArgument); }
      projects := projects[project := projects[project].(quota := gpus)];
      return None;
    }

    /******* Rollouts *******/

    method Start(d: nat, number: nat) returns (out: Option<Error>)
      requires Valid()
      modifies this`rollouts
      ensures Ends(old(Rows()), Rows(), out, StartRollout(old(Rows()), d, number))
      ensures Valid()
    {
      StartRolloutKeeps(Rows(), d, number);
      if |deployments| <= d { return Some(NotFound); }
      var row := deployments[d];
      if row.status != Ready || row.active.None? { return Some(Conflict); }
      if !(1 <= number <= |row.revisions|) { return Some(NotFound); }
      var held := SumHeld(d, {number});
      var fits := TestQuota(d, held);
      if !fits { return Some(Conflict); }
      var stable := row.active.value;
      if row.desired != Some(stable) { return Some(Conflict); }
      if number == stable { return Some(Conflict); }
      if ActiveRollout(Rows(), d).Some? { return Some(Conflict); }
      var candidate := row.revisions[number - 1].version;
      if !R.Deployable(versions[candidate].status) { return Some(Conflict); }
      if ActiveByVersion(Rows(), candidate).Some? { return Some(Conflict); }
      rollouts := rollouts + [Rollout(d, stable, number, candidate, Waiting, false)];
      return None;
    }

    method AbortRollout(r: nat) returns (out: Option<Error>)
      requires Valid()
      modifies this`rollouts
      ensures Ends(old(Rows()), Rows(), out, Abort(old(Rows()), r))
      ensures out.None? <==> r < |rollouts|
      ensures out.None? ==> !InFlight(rollouts[r]) || rollouts[r].abort
      ensures Valid()
    {
      AbortKeeps(Rows(), r);
      if |rollouts| <= r { return Some(NotFound); }
      if !InFlight(rollouts[r]) || rollouts[r].abort { return None; }
      if rollouts[r].status == Waiting {
        rollouts := rollouts[r := rollouts[r].(status := RolledBack)];
      } else {
        rollouts := rollouts[r := rollouts[r].(abort := true)];
      }
      return None;
    }

    // The transaction that ends a successful rollout: three tables move together.
    method Succeed(r: nat, seen: Rollout) returns (out: Option<Error>)
      requires Valid()
      requires r < |rollouts| ==> seen == rollouts[r].(status := seen.status, abort := seen.abort)
      modifies this`rollouts, this`deployments, this`versions, this`promotions
      ensures Ends(old(Rows()), Rows(), out, SucceedRollout(old(Rows()), r, seen))
      ensures Valid()
    {
      SucceedKeeps(Rows(), r, seen);
      if seen.status != Progressing || seen.abort { return Some(Conflict); }
      if |rollouts| <= r { return Some(NotFound); }
      if rollouts[r].status != Progressing { return Some(Conflict); }
      assert Names(rollouts[r], Rows());
      if !R.Deployable(versions[seen.version].status) { return Some(Conflict); }
      if versions[seen.version].status == R.Candidate {
        MakeChampion(seen.version, R.Candidate);
      }
      rollouts := rollouts[r := rollouts[r].(status := Succeeded, abort := seen.abort)];
      var moved := deployments[seen.deployment].(desired := Some(seen.to)).(active := Some(seen.to));
      deployments := deployments[seen.deployment := moved];
      return None;
    }

    /******* The deployment reconciler *******/

    // Records READY for the row read earlier; the caller does not know whether it is still current.
    method RecordReady(d: nat, seen: Deployment) returns (out: Option<Error>)
      requires Valid()
      modifies this`deployments
      ensures Ends(old(Rows()), Rows(), out, MarkReady(old(Rows()), d, seen))
      ensures out.None? ==>
                d < |deployments| && deployments[d].status == Ready
                  && deployments[d].active == deployments[d].desired == seen.desired
      ensures old(RowIsKnown(Rows(), d, seen)) ==> Valid()
    {
      ghost var before := Rows();
      if RowIsKnown(before, d, seen) && MarkReady(before, d, seen).Ok? {
        ReconcilerWriteIsSound(before, d, seen.status, seen.(status := Ready, active := seen.desired));
      }
      if seen.desired.None? || !CanMove(seen.status, Ready) { return Some(Conflict); }
      if |deployments| <= d { return Some(NotFound); }
      if deployments[d].status != seen.status { return Some(Conflict); }
      deployments := deployments[d := deployments[d].(status := Ready, desired := seen.desired,
          active := seen.desired)];
      return None;
    }
  }

  lemma HeldCostOfNobody(revisions: seq<Revision>)
    ensures HeldCost(revisions, {}) == 0
  {
  }
}
