/** When each request is accepted and what it then leaves, told by the rows alone. */
module Answers {
  import opened Wrappers
  import opened Serving
  import opened Quota
  import Runs
  import R = Registry

  /******* What is held *******/

  /** A deployment holds the revisions it serves and wants, and both of a canary in flight. */
  lemma HeldIsExact(db: Db, d: nat, n: nat)
    requires RolloutsAreSound(db) && d < |db.deployments|
    ensures n in Held(db, d) <==>
              || db.deployments[d].active == Some(n) || db.deployments[d].desired == Some(n)
              || exists r | 0 <= r < |db.rollouts| ::
                   && db.rollouts[r].deployment == d && db.rollouts[r].status in {Waiting, Progressing}
                   && n in {db.rollouts[r].from, db.rollouts[r].to}
  {
    forall r | 0 <= r < |db.rollouts| && db.rollouts[r].deployment == d && InFlight(db.rollouts[r])
      ensures ActiveRollout(db, d) == Some(r)
    {
      InFlightIsFound(db, r);
    }
  }

  /** One revision held costs its GPUs times its replicas, none at all costs nothing. */
  lemma CostOfOne(revisions: seq<Revision>, n: nat)
    ensures HeldCost(revisions, {n})
         == if 1 <= n <= |revisions| then revisions[n - 1].gpus * revisions[n - 1].maxScale else 0
  {
    CostOfNone(revisions);
    HeldCostCountsOnce(revisions, {}, n);
    assert {} + {n} == {n};
  }

  lemma {:induction false} CostOfNone(revisions: seq<Revision>)
    ensures HeldCost(revisions, {}) == 0
  {
    if revisions != [] { CostOfNone(revisions[..|revisions| - 1]); }
  }

  /** A project uses what its deployments hold, added up, besides one that is left out. */
  lemma UseAddsUp(db: Db, project: nat, besides: Option<nat>, n: nat)
    requires n <= |db.deployments|
    ensures n == 0 ==> GpusOfFirst(db, project, besides, n) == 0
    ensures n > 0 ==>
              var counts := db.deployments[n - 1].project == project && besides != Some(n - 1);
              GpusOfFirst(db, project, besides, n)
              == GpusOfFirst(db, project, besides, n - 1) + if counts then HeldGpus(db, n - 1, {}) else 0
  {
  }

  /******* Deploying *******/

  // What a version of the model is served with.
  ghost predicate IsServedAs(m: Model, r: Revision) {
    match m
    case Llm(_, gpus, maxScale) => r.runtime == HuggingFace && r.gpus == gpus && r.maxScale == maxScale
    case Classic(_) => r.runtime == Mlflow && r.gpus == 0 && r.maxScale == 1
    case Function(_) => r.runtime == Container && r.gpus == 0 && r.maxScale == 1
  }

  ghost function Needs(m: Model): nat {
    if m.Llm? then m.gpus * m.maxScale else 0
  }

  // A model of a version, as a row.
  ghost predicate IsModelOf(db: Db, v: nat, m: Model) {
    && v < |db.registry.versions| && db.registry.versions[v].model < |db.models|
    && m == db.models[db.registry.versions[v].model]
  }

  // A live deployment, and a version of the model in its project that can be deployed.
  ghost predicate CanTake(db: Db, d: nat, v: nat, m: Model) {
    && d < |db.deployments| && db.deployments[d].status !in {Deleting, Deleted}
    && IsModelOf(db, v, m) && m.project == db.deployments[d].project
    && db.registry.versions[v].status in {R.Candidate, R.Champion}
  }

  // One of the rows named is not there.
  ghost predicate Unknown(db: Db, d: nat, v: nat) {
    || d >= |db.deployments|
    || (&& db.deployments[d].status !in {Deleting, Deleted}
        && forall m :: IsModelOf(db, v, m) ==> m.project != db.deployments[d].project)
  }

  // The last revision is not of another kind than the model.
  ghost predicate KindFits(revisions: seq<Revision>, m: Model) {
    revisions != [] ==>
      match revisions[|revisions| - 1].runtime
      case HuggingFace => m.Llm?
      case Mlflow => m.Classic?
      case Container => m.Function?
  }

  // The GPUs fit beside what is in use elsewhere; nothing needed always fits.
  ghost predicate FitsBeside(db: Db, d: nat, need: nat)
    requires d < |db.deployments|
  {
    var p := db.deployments[d].project;
    p < |db.projects| && (need > 0 ==> GpusInUse(db, p, Some(d)) + need <= db.projects[p].quota)
  }

  ghost predicate LatestIs(d: Deployment, v: nat) {
    |d.revisions| > 0 && d.revisions[|d.revisions| - 1].version == v
  }

  lemma LookupIsExact(db: Db, d: nat, v: nat)
    ensures Lookup(db, d, v).Ok? <==> exists m :: CanTake(db, d, v, m)
    ensures Lookup(db, d, v).Ok? ==> CanTake(db, d, v, Lookup(db, d, v).value)
    ensures Lookup(db, d, v) == Err(NotFound) <==> Unknown(db, d, v)
    ensures Lookup(db, d, v).Err? ==> Lookup(db, d, v).error in {NotFound, Conflict}
  {
    if v < |db.registry.versions| && db.registry.versions[v].model < |db.models| {
      assert IsModelOf(db, v, db.models[db.registry.versions[v].model]);
    }
    if Lookup(db, d, v).Ok? {
      assert CanTake(db, d, v, Lookup(db, d, v).value);
    }
  }

  /** A deploy is planned exactly for a live deployment and a deployable version of its project, other than
      the latest revision, of the kind served so far, whose GPUs fit beside what is in use elsewhere together
      with all that the deployment holds. The latest revision is found again. */
  lemma DeployIsPlannedExactly(db: Db, d: nat, v: nat, m: Model)
    requires RowsExist(db) && IsModelOf(db, v, m)
    ensures var out := DeployCheck(db, d, v);
            && (out.Ok? && out.value.Some? <==>
                  && CanTake(db, d, v, m) && !LatestIs(db.deployments[d], v) && KindFits(db.deployments[d].revisions, m)
                  && FitsBeside(db, d, Needs(m) + HeldGpus(db, d, {})))
            && (out == Ok(None) <==> CanTake(db, d, v, m) && LatestIs(db.deployments[d], v))
            && (out == Err(NotFound) <==> Unknown(db, d, v))
            && (out.Err? ==> out.error in {NotFound, Conflict})
  {
    LookupIsExact(db, d, v);
  }

  /** The revision it commits is served as the model says, and after READY the deployment holds the GPUs of
      one replica times the replicas of an LLM, and none for another model. */
  lemma DeployedAsTheModelSays(db: Db, d: nat, v: nat, m: Model)
    requires Sound(db) && IsModelOf(db, v, m) && DeployCheck(db, d, v).Ok? && DeployCheck(db, d, v).value.Some?
    ensures var out := DeployCommit(db, DeployCheck(db, d, v).value.value);
            && out.Ok? && d < |out.value.deployments|
            && var row := out.value.deployments[d];
               && |row.revisions| == |db.deployments[d].revisions| + 1
               && row.revisions[|row.revisions| - 1].version == v && IsServedAs(m, row.revisions[|row.revisions| - 1])
               && var ready := MarkReady(out.value, d, row);
                  && ready.Ok? && (ActiveRollout(db, d).None? ==> HeldGpus(ready.value, d, {}) == Needs(m))
  {
    var after := DeployCommit(db, DeployCheck(db, d, v).value.value).value;
    var ready := MarkReady(after, d, after.deployments[d]).value;
    var revisions := after.deployments[d].revisions;
    if ActiveRollout(db, d).None? {
      assert ActiveRollout(ready, d).None?;
      assert Held(ready, d) + {} == {|revisions|};
      CostOfOne(revisions, |revisions|);
    }
  }

  /** The second transaction judges again, in whatever state it finds: the deployment is live, the version
      deployable, and the GPUs planned fit. It appends the revision, wants it and deploys, or finds it last. */
  lemma DeployCommitIsExact(db: Db, plan: Plan)
    requires RowsExist(db)
    ensures var out := DeployCommit(db, plan);
            var d, v := plan.deployment, plan.version;
            var live := d < |db.deployments| && db.deployments[d].status !in {Deleting, Deleted};
            var deployable := v < |db.registry.versions| && db.registry.versions[v].status in {R.Candidate, R.Champion};
            && (out.Ok? <==>
                  && live && deployable
                  && (|| LatestIs(db.deployments[d], v)
                      || FitsBeside(db, d, plan.gpus * plan.maxScale + HeldGpus(db, d, {}))))
            && (out.Err? ==> out.error == if d < |db.deployments| then Conflict else NotFound)
            && (out.Ok? && LatestIs(db.deployments[d], v) ==> out.value == db)
            && (out.Ok? && !LatestIs(db.deployments[d], v) ==>
                  var row := db.deployments[d];
                  var revision := Revision(v, plan.runtime, plan.gpus, plan.maxScale);
                  out.value == db.(deployments := db.deployments[d := Deployment(
                    row.project, Deploying, Some(|row.revisions| + 1), row.active, row.revisions + [revision])]))
  {
  }

  /******* Canaries *******/

  // The first revision of a version.
  ghost predicate FirstOf(revisions: seq<Revision>, v: nat, n: nat) {
    1 <= n <= |revisions| && revisions[n - 1].version == v && forall k | 0 <= k < n - 1 :: revisions[k].version != v
  }

  lemma {:induction false} FindIsFirst(revisions: seq<Revision>, v: nat)
    ensures forall n: nat :: Find(revisions, v) == Some(n) <==> FirstOf(revisions, v, n)
  {
    if revisions != [] {
      var earlier := revisions[..|revisions| - 1];
      FindIsFirst(earlier, v);
      assert forall n: nat | n < |revisions| :: FirstOf(earlier, v, n) <==> FirstOf(revisions, v, n);
    }
  }

  lemma OneFirst(revisions: seq<Revision>, v: nat)
    ensures Find(revisions, v).None? <==> forall k | 0 <= k < |revisions| :: revisions[k].version != v
  {
  }

  /** A canary's revision is found exactly where one of the version is there, and the first is taken. It is
      planned exactly where none is, the kind is right, and the GPUs fit beside what is in use elsewhere
      together with the revision served alone. */
  lemma RevisionIsPlannedExactly(db: Db, d: nat, v: nat, m: Model)
    requires RowsExist(db) && IsModelOf(db, v, m)
    ensures var out := EnsureCheck(db, d, v);
            && (out.Ok? && out.value.Planned? <==>
                  && CanTake(db, d, v, m) && KindFits(db.deployments[d].revisions, m)
                  && (forall k | 0 <= k < |db.deployments[d].revisions| :: db.deployments[d].revisions[k].version != v)
                  && FitsBeside(db, d, Needs(m) + ServedCost(db.deployments[d])))
            && (out.Ok? && out.value.Planned? ==>
                  var plan := out.value.plan;
                  plan.deployment == d && plan.version == v && IsServedAs(m, Revise(plan)))
            && (forall n: nat ::
                  out == Ok(Existing(n)) <==> CanTake(db, d, v, m) && FirstOf(db.deployments[d].revisions, v, n))
            && (out == Err(NotFound) <==> Unknown(db, d, v))
            && (out.Err? ==> out.error in {NotFound, Conflict})
  {
    LookupIsExact(db, d, v);
    if CanTake(db, d, v, m) {
      var row := db.deployments[d];
      FindIsFirst(row.revisions, v);
      OneFirst(row.revisions, v);
      if row.active.Some? {
        CostOfOne(row.revisions, row.active.value);
      } else {
        CostOfNone(row.revisions);
      }
    }
  }

  // The GPUs of the revision served.
  ghost function ServedCost(d: Deployment): nat {
    if d.active.Some? && 1 <= d.active.value <= |d.revisions|
    then d.revisions[d.active.value - 1].gpus * d.revisions[d.active.value - 1].maxScale else 0
  }

  lemma EnsureCommitIsExact(db: Db, plan: Plan)
    ensures var out := EnsureCommit(db, plan);
            var d, v := plan.deployment, plan.version;
            && (out.Ok? <==>
                  && d < |db.deployments| && db.deployments[d].status !in {Deleting, Deleted}
                  && v < |db.registry.versions| && db.registry.versions[v].status in {R.Candidate, R.Champion})
            && (out.Err? ==> out.error == if d < |db.deployments| then Conflict else NotFound)
            && (out.Ok? ==>
                  var row := db.deployments[d];
                  && (FirstOf(row.revisions, v, out.value.1) ==> out.value.0 == db)
                  && (!FirstOf(row.revisions, v, out.value.1) ==>
                        && out.value.1 == |row.revisions| + 1
                        && (forall k | 0 <= k < |row.revisions| :: row.revisions[k].version != v)
                        && var revision := Revision(v, plan.runtime, plan.gpus, plan.maxScale);
                           out.value.0
                             == db.(deployments := db.deployments[d := row.(revisions := row.revisions + [revision])])))
  {
    if plan.deployment < |db.deployments| {
      FindIsFirst(db.deployments[plan.deployment].revisions, plan.version);
      OneFirst(db.deployments[plan.deployment].revisions, plan.version);
    }
  }

  ghost predicate NoRollout(db: Db, d: nat) {
    forall r | 0 <= r < |db.rollouts| && db.rollouts[r].deployment == d ::
      db.rollouts[r].status !in {Waiting, Progressing}
  }

  ghost predicate NoRolloutOf(db: Db, v: nat) {
    forall r | 0 <= r < |db.rollouts| && db.rollouts[r].version == v :: db.rollouts[r].status !in {Waiting, Progressing}
  }

  /** A canary starts exactly for a READY deployment that serves what it wants, on another revision of a
      deployable version, with no rollout in flight for either, if its GPUs fit beside all that is held. */
  lemma StartIsExact(db: Db, d: nat, number: nat)
    requires Sound(db)
    ensures var out := StartRollout(db, d, number);
            && (out.Ok? <==>
                  && d < |db.deployments|
                  && var row := db.deployments[d];
                     && row.status == Ready && row.active.Some? && row.desired == row.active
                     && row.active != Some(number)
                     && 1 <= number <= |row.revisions|
                     && db.registry.versions[row.revisions[number - 1].version].status in {R.Candidate, R.Champion}
                     && NoRollout(db, d) && NoRolloutOf(db, row.revisions[number - 1].version)
                     && FitsBeside(db, d, HeldGpus(db, d, {number})))
            && (out.Ok? ==>
                  var row := db.deployments[d];
                  var canary := Rollout(d, row.active.value, number, row.revisions[number - 1].version, Waiting, false);
                  out.value == db.(rollouts := db.rollouts + [canary]))
            && (out == Err(NotFound) <==>
                  || d >= |db.deployments|
                  || (db.deployments[d].status == Ready && db.deployments[d].active.Some?
                      && !(1 <= number <= |db.deployments[d].revisions|)))
            && (out.Err? ==> out.error in {NotFound, Conflict})
  {
    if d < |db.deployments| {
      RolloutIsFound(db, d);
      if 1 <= number <= |db.deployments[d].revisions| {
        RolloutOfIsFound(db, db.deployments[d].revisions[number - 1].version);
      }
    }
  }

  lemma RolloutIsFound(db: Db, d: nat)
    ensures ActiveRollout(db, d).None? <==> NoRollout(db, d)
  {
  }

  lemma RolloutOfIsFound(db: Db, v: nat)
    ensures ActiveByVersion(db, v).None? <==> NoRolloutOf(db, v)
  {
  }

  /******* Rolling back *******/

  ghost predicate HasNumber(d: Deployment, n: nat) {
    1 <= n <= |d.revisions|
  }

  // The revision a rollback is for: the one asked for, or the greatest number below the active one.
  ghost predicate IsTarget(d: Deployment, to: Option<nat>, n: nat) {
    && HasNumber(d, n)
    && match to
       case Some(asked) => n == asked
       case None =>
         && d.active.Some? && n < d.active.value
         && forall k: nat :: HasNumber(d, k) && k < d.active.value ==> k <= n
  }

  lemma TargetIsFound(db: Db, d: nat, to: Option<nat>)
    requires RowsExist(db) && d < |db.deployments| && db.deployments[d].active.Some?
    ensures var row := db.deployments[d];
            var target := if to.Some? then to else Before(row.active.value);
            forall n: nat :: IsTarget(row, to, n) <==> target == Some(n) && HasNumber(row, n)
  {
    var row := db.deployments[d];
    assert HasNumber(row, row.active.value);
    if row.active.value > 1 {
      assert HasNumber(row, row.active.value - 1);
    }
  }

  // Where the target is fine by the registry and the quota, or is where the deployment is.
  ghost predicate CanServeAgain(db: Db, d: nat, n: nat)
    requires d < |db.deployments|
  {
    var row := db.deployments[d];
    && HasNumber(row, n)
    && (|| (row.active == Some(n) && row.desired == Some(n))
        || (&& FitsBeside(db, d, HeldGpus(db, d, {n}))
            && row.revisions[n - 1].version < |db.registry.versions|
            && db.registry.versions[row.revisions[n - 1].version].status in {R.Archived, R.Champion}))
  }

  lemma PointBackIsExact(db: Db, d: nat, target: nat)
    requires Sound(db) && d < |db.deployments| && HasNumber(db.deployments[d], target)
    ensures PointBack(db, d, target).Ok? <==>
              db.registry.versions[db.deployments[d].revisions[target - 1].version].status in {R.Archived, R.Champion}
    ensures PointBack(db, d, target).Err? ==> PointBack(db, d, target).error == Conflict
  {
    R.RestoreKeepsValid(db.registry, db.deployments[d].revisions[target - 1].version);
  }

  /** A rollback is accepted exactly for a live deployment that serves something, with no rollout in flight
      and a target in its list, if it is there already, or if the target's GPUs fit beside all that is held
      and its version was or is champion. */
  lemma RollbackIsExact(db: Db, d: nat, to: Option<nat>)
    requires Sound(db)
    ensures Rollback(db, d, to).Ok? <==>
              && d < |db.deployments|
              && db.deployments[d].status !in {Deleting, Deleted} && db.deployments[d].active.Some? && NoRollout(db, d)
              && exists n: nat :: IsTarget(db.deployments[d], to, n) && CanServeAgain(db, d, n)
    ensures Rollback(db, d, to).Err? ==>
              Rollback(db, d, to).error == if d < |db.deployments| then Conflict else NotFound
  {
    if d < |db.deployments| && db.deployments[d].active.Some? {
      RolloutIsFound(db, d);
      var row := db.deployments[d];
      TargetIsFound(db, d, to);
      var target := if to.Some? then to else Before(row.active.value);
      if target.Some? && HasNumber(row, target.value) {
        assert IsTarget(row, to, target.value);
        RollbackDecidesOn(db, d, to, target.value);
      }
    }
  }

  lemma RollbackDecidesOn(db: Db, d: nat, to: Option<nat>, n: nat)
    requires Sound(db) && d < |db.deployments| && db.deployments[d].active.Some?
    requires HasNumber(db.deployments[d], n)
    requires Some(n) == if to.Some? then to else Before(db.deployments[d].active.value)
    ensures Rollback(db, d, to).Ok? <==>
              !Gone(db.deployments[d]) && ActiveRollout(db, d).None? && CanServeAgain(db, d, n)
    ensures Rollback(db, d, to).Err? ==> Rollback(db, d, to).error == Conflict
  {
    PointBackIsExact(db, d, n);
  }

  /** It then wants exactly the target, and deploys it unless it was there already; nothing else of the
      deployment changes, and no other row but those of the registry. */
  lemma RollbackWantsTheTarget(db: Db, d: nat, to: Option<nat>)
    requires Sound(db) && Rollback(db, d, to).Ok?
    ensures d < |db.deployments| && |Rollback(db, d, to).value.deployments| == |db.deployments|
    ensures var row, after := db.deployments[d], Rollback(db, d, to).value;
            var next := after.deployments[d];
            && next.desired.Some? && IsTarget(row, to, next.desired.value)
            && next == row.(desired := next.desired, status := next.status)
            && after == db.(deployments := db.deployments[d := next], registry := after.registry)
            && (if row.active == row.desired == next.desired then after == db else next.status == Deploying)
  {
    TargetIsFound(db, d, to);
    var row := db.deployments[d];
    var target := if to.Some? then to else Before(row.active.value);
    assert IsTarget(row, to, target.value);
  }

  /******* Other requests *******/

  /** Promotion by hand is accepted exactly for a candidate or champion that no rollout carries. */
  lemma PromotionIsExact(db: Db, v: nat)
    requires R.Valid(db.registry)
    ensures var out := PromoteByHand(db, v);
            && (out.Ok? <==>
                  && v < |db.registry.versions| && NoRolloutOf(db, v)
                  && db.registry.versions[v].status in {R.Candidate, R.Champion})
            && (out.Err? ==> out.error == if v < |db.registry.versions| then Conflict else NotFound)
            && (out.Ok? ==>
                  && out.value == db.(registry := out.value.registry)
                  && if db.registry.versions[v].status == R.Champion then out.value == db
                     else R.Crowned(db.registry, out.value.registry, v))
  {
    R.PromoteKeepsValid(db.registry, v);
    RolloutOfIsFound(db, v);
  }

  /** A deployment is created exactly in a READY project, empty and waiting. */
  lemma CreationIsExact(db: Db, project: nat)
    ensures var out := CreateDeployment(db, project);
            && (out.Ok? <==> project < |db.projects| && db.projects[project].status == PReady)
            && (out.Err? ==> out.error == if project < |db.projects| then Conflict else NotFound)
            && (out.Ok? ==>
                  && |out.value.deployments| == |db.deployments| + 1
                  && out.value == db.(deployments := out.value.deployments) && db.deployments <= out.value.deployments
                  && out.value.deployments[|db.deployments|] == Deployment(project, Pending, None, None, []))
  {
  }

  /** The deletion of a project is accepted exactly if it is there, and it is then being deleted or was. */
  lemma ProjectDeletionIsExact(db: Db, p: nat)
    ensures var out := RequestProjectDelete(db, p);
            && (out.Ok? <==> p < |db.projects|) && (out.Err? ==> out.error == NotFound)
            && (out.Ok? ==>
                  && |out.value.projects| == |db.projects|
                  && out.value
                    == db.(projects := db.projects[p := db.projects[p].(status := out.value.projects[p].status)])
                  && out.value.projects[p].status
                     == if db.projects[p].status == PDeleted then PDeleted else PDeleting)
  {
  }

  /******* What reconcilers write *******/

  /** By what it becomes: READY after deploying or recovering, deploying from any living status, failed once
      something was tried, degraded only from READY, deleted only after a request. */
  lemma DeploymentStatusesFollow(source: DeploymentStatus, target: DeploymentStatus)
    ensures CanMove(source, target) <==>
              match target
              case Pending => false
              case Deploying => source in {Pending, Ready, Degraded, Failed}
              case Ready => source in {Deploying, Degraded}
              case Degraded => source == Ready
              case Failed => source in {Deploying, Ready, Degraded}
              case Deleting => source !in {Deleting, Deleted}
              case Deleted => source == Deleting
  {
  }

  lemma ProjectStatusesFollow(source: ProjectStatus, target: ProjectStatus)
    ensures CanMoveProject(source, target) <==>
              match target
              case PPending => false
              case PProvisioning => source in {PPending, PDrifted, PFailed}
              case PReady => source == PProvisioning
              case PDrifted => source == PReady
              case PFailed => source in {PProvisioning, PDeleting}
              case PDeleting => source !in {PDeleting, PDeleted}
              case PDeleted => source == PDeleting
  {
  }

  // The stored row, with these fields of the one that was read.
  ghost predicate WritesBack(db: Db, d: nat, seen: Deployment, out: Result<Db>, row: Deployment) {
    && (out.Ok? <==> d < |db.deployments| && db.deployments[d].status == seen.status)
    && (out.Err? ==> out.error == if d < |db.deployments| then Conflict else NotFound)
    && (out.Ok? ==>
          out.value == db.(deployments := db.deployments[d :=
            Deployment(db.deployments[d].project, row.status, row.desired, row.active, db.deployments[d].revisions)]))
  }

  /** Each write of a deployment takes place exactly if there is something to write and the stored status is
      still the one read; it writes the status, and both pointers from the read. */
  lemma DeploymentWritesAreExact(db: Db, d: nat, seen: Deployment, status: DeploymentStatus)
    ensures if seen.desired.Some? && seen.status in {Deploying, Degraded}
            then WritesBack(db, d, seen, MarkReady(db, d, seen), seen.(status := Ready, active := seen.desired))
            else MarkReady(db, d, seen) == Err(Conflict)
    ensures var moves := || (status == Degraded && seen.status == Ready)
                         || (status == Deploying && seen.status in {Pending, Ready, Degraded, Failed})
                         || (status == Failed && seen.status in {Deploying, Ready, Degraded});
            if moves then WritesBack(db, d, seen, MoveDeployment(db, d, seen, status), seen.(status := status))
            else MoveDeployment(db, d, seen, status) == Err(Conflict)
    ensures if seen.status == Deleting
            then WritesBack(db, d, seen, FinishDelete(db, d, seen),
                seen.(status := Deleted, desired := None, active := None))
            else FinishDelete(db, d, seen) == Err(Conflict)
  {
  }

  /** Each write of a project takes place exactly if there is a move to make, or a note on a deletion, and the
      stored status is the one read; it writes the status and the quota that was read. */
  lemma ProjectWritesAreExact(db: Db, p: nat, seen: Project, status: ProjectStatus)
    ensures var out := MoveProject(db, p, seen, status);
            && (out.Ok? <==>
                 CanMoveProject(seen.status, status) && p < |db.projects| && db.projects[p].status == seen.status)
            && (out.Ok? ==> out.value == db.(projects := db.projects[p := Project(status, seen.quota)]))
            && (out == Err(NotFound) <==> CanMoveProject(seen.status, status) && p >= |db.projects|)
            && (out.Err? ==> out.error in {NotFound, Conflict})
    ensures var out := NoteProject(db, p, seen);
            && (out.Ok? <==> seen.status == PDeleting && p < |db.projects| && db.projects[p].status == PDeleting)
            && (out.Ok? ==> out.value == db.(projects := db.projects[p := Project(PDeleting, seen.quota)]))
            && (out == Err(NotFound) <==> seen.status == PDeleting && p >= |db.projects|)
            && (out.Err? ==> out.error in {NotFound, Conflict})
  {
  }

  // A write of a rollout read earlier: the row in flight is still in the status read.
  ghost predicate IsCurrent(db: Db, r: nat, seen: Rollout) {
    r < |db.rollouts| && db.rollouts[r].status == seen.status && seen.status in {Waiting, Progressing}
  }

  ghost predicate MovedTo(a: Db, b: Db, r: nat, status: RolloutStatus, abort: bool)
    requires r < |a.rollouts|
  {
    b.rollouts == a.rollouts[r := a.rollouts[r].(status := status, abort := abort)]
  }

  /** A rollout that was not told to stop when it was read goes on; one that was read in flight is rolled back,
      and its version rejected if it still is a candidate. */
  lemma RolloutWritesAreExact(db: Db, r: nat, seen: Rollout)
    requires R.Valid(db.registry)
    ensures var out := ProgressRollout(db, r, seen);
            && (out.Ok? <==> IsCurrent(db, r, seen) && !seen.abort)
            && (out == Err(NotFound) <==> seen.status in {Waiting, Progressing} && !seen.abort && r >= |db.rollouts|)
            && (out.Err? ==> out.error in {NotFound, Conflict})
            && (out.Ok? ==>
                 MovedTo(db, out.value, r, Progressing, false) && out.value == db.(rollouts := out.value.rollouts))
    ensures var out := RollBackRollout(db, r, seen);
            && (out.Ok? <==> IsCurrent(db, r, seen))
            && (out == Err(NotFound) <==> seen.status in {Waiting, Progressing} && r >= |db.rollouts|)
            && (out.Err? ==> out.error in {NotFound, Conflict})
            && (out.Ok? ==>
                  && MovedTo(db, out.value, r, RolledBack, seen.abort)
                  && out.value == db.(rollouts := out.value.rollouts, registry := out.value.registry)
                  && out.value.registry == db.registry.(versions := out.value.registry.versions)
                  && |out.value.registry.versions| == |db.registry.versions|
                  && forall v | 0 <= v < |db.registry.versions| ::
                       out.value.registry.versions[v]
                       == if v == seen.version && db.registry.versions[v].status == R.Candidate
                          then db.registry.versions[v].(status := R.Rejected) else db.registry.versions[v])
  {
    R.RejectKeepsValid(db.registry, seen.version);
  }

  /** It succeeds exactly if it was read progressing and not told to stop, still is, and its version can be
      champion: then the deployment wants and serves the canary, and the version is crowned. */
  lemma SuccessIsExact(db: Db, r: nat, seen: Rollout)
    requires R.Valid(db.registry)
    ensures var out := SucceedRollout(db, r, seen);
            && (out.Ok? <==>
                  && IsCurrent(db, r, seen) && seen.status == Progressing && !seen.abort
                  && seen.deployment < |db.deployments|
                  && seen.version < |db.registry.versions|
                  && db.registry.versions[seen.version].status in {R.Candidate, R.Champion})
            && (out.Ok? ==>
                  var d, after := seen.deployment, out.value;
                  && MovedTo(db, after, r, Succeeded, false)
                  && after.deployments
                     == db.deployments[d := db.deployments[d].(desired := Some(seen.to), active := Some(seen.to))]
                  && after.projects == db.projects && after.models == db.models
                  && if db.registry.versions[seen.version].status == R.Champion then out.value.registry == db.registry
                     else R.Crowned(db.registry, out.value.registry, seen.version))
  {
    R.PromoteKeepsValid(db.registry, seen.version);
  }

  /******* What is made and read *******/

  /** A version of a function is a candidate at once, and of any other model has yet to be evaluated. A model is
      added exactly to a project there is. */
  lemma MadeExactly(db: Db, m: nat, model: Model)
    ensures var out := Runs.RegisterVersion(db, m);
            && (out.Ok? <==> m < |db.models|) && (out.Err? ==> out.error == NotFound)
            && (out.Ok? ==>
                  var status := if db.models[m].Function? then R.Candidate else R.Registered;
                  out.value == db.(registry := db.registry.(versions := db.registry.versions + [R.Version(m, status)])))
    ensures var out := Runs.AddModelRow(db, model);
            && (out.Ok? <==> model.project < |db.projects|) && (out.Err? ==> out.error == NotFound)
            && (out.Ok? ==> out.value == db.(models := db.models + [model]))
  {
  }

  /** The deployment reconciler looks at a deployment exactly if no rollout is in flight for it, or it is being
      deleted, and remembers the row as it is. */
  lemma ReadExactly(s: Runs.Sys, d: nat)
    ensures Runs.Apply(s, Runs.ReadDeployment(d))
         == if d < |s.db.deployments| && (NoRollout(s.db, d) || s.db.deployments[d].status == Deleting)
            then Runs.Sys(s.db, s.ops + [Runs.SawDeployment(d, s.db.deployments[d])]) else s
  {
    RolloutIsFound(s.db, d);
  }
}
