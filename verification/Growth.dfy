/** What can only ever be added: revisions, promotions, verdicts, ended rollouts. */
module Growth {
  import opened Wrappers
  import opened Serving
  import opened Quota
  import R = Registry

  // Identities of rollouts are immutable, and an ended rollout stays ended as it is.
  ghost predicate RolloutsGrow(a: Db, b: Db) {
    && |a.rollouts| <= |b.rollouts|
    && (forall r | 0 <= r < |a.rollouts| ::
          b.rollouts[r] == a.rollouts[r].(status := b.rollouts[r].status, abort := b.rollouts[r].abort))
    && (forall r | 0 <= r < |a.rollouts| :: !InFlight(a.rollouts[r]) ==> b.rollouts[r].status == a.rollouts[r].status)
  }

  // Promotions and judged evaluations are append-only, and a rejected version stays rejected.
  ghost predicate RegistryGrows(a: R.Registry, b: R.Registry) {
    && |a.versions| <= |b.versions|
    && a.promotions <= b.promotions
    && |a.evaluations| <= |b.evaluations|
    && (forall v | 0 <= v < |a.versions| :: b.versions[v].model == a.versions[v].model)
    && (forall v | 0 <= v < |a.versions| :: a.versions[v].status == R.Rejected ==> b.versions[v].status == R.Rejected)
    && (forall e | 0 <= e < |a.evaluations| ::
          b.evaluations[e] == a.evaluations[e]
            || (a.evaluations[e].status == R.Running
              && b.evaluations[e] == a.evaluations[e].(status := b.evaluations[e].status)))
  }

  // Revisions are append-only; a deployment being deleted gains none, wants nothing new, and never returns.
  ghost predicate HistoryGrows(a: Db, b: Db) {
    && |a.deployments| <= |b.deployments|
    && (forall d | 0 <= d < |a.deployments| :: a.deployments[d].revisions <= b.deployments[d].revisions)
    && (forall d | 0 <= d < |a.deployments| && Gone(a.deployments[d]) ::
          && Gone(b.deployments[d])
          && b.deployments[d].revisions == a.deployments[d].revisions
          && (b.deployments[d].desired == a.deployments[d].desired || b.deployments[d].desired.None?))
  }

  ghost predicate Grows(a: Db, b: Db) {
    RolloutsGrow(a, b) && HistoryGrows(a, b) && RegistryGrows(a.registry, b.registry)
  }

  lemma GrowsTransitively(a: Db, b: Db, c: Db)
    requires Grows(a, b) && Grows(b, c)
    ensures Grows(a, c)
  {
    HistoryGrowsTransitively(a, b, c);
    RegistryGrowsTransitively(a.registry, b.registry, c.registry);
  }

  lemma HistoryGrowsTransitively(a: Db, b: Db, c: Db)
    requires HistoryGrows(a, b) && HistoryGrows(b, c)
    ensures HistoryGrows(a, c)
  {
  }

  lemma RegistryGrowsTransitively(a: R.Registry, b: R.Registry, c: R.Registry)
    requires RegistryGrows(a, b) && RegistryGrows(b, c)
    ensures RegistryGrows(a, c)
  {
  }

  /******* Registry transactions, seen from outside *******/

  lemma CrownedGrows(r: R.Registry, s: R.Registry, v: nat)
    requires v < |r.versions| && R.Crowned(r, s, v)
    requires r.versions[v].status == R.Candidate || r.versions[v].status == R.Archived
    ensures RegistryGrows(r, s)
  {
  }

  lemma PromoteGrows(r: R.Registry, v: nat)
    requires R.Valid(r)
    ensures R.Promote(r, v).Ok? ==> RegistryGrows(r, R.Promote(r, v).value)
  {
    if v < |r.versions| && r.versions[v].status == R.Candidate {
      R.MakeChampionExactly(r, v, R.Candidate);
      CrownedGrows(r, R.Promote(r, v).value, v);
    }
  }

  lemma RestoreGrows(r: R.Registry, v: nat)
    requires R.Valid(r)
    ensures R.Restore(r, v).Ok? ==> RegistryGrows(r, R.Restore(r, v).value)
  {
    if v < |r.versions| && r.versions[v].status == R.Archived {
      R.MakeChampionExactly(r, v, R.Archived);
      CrownedGrows(r, R.Restore(r, v).value, v);
    }
  }

  /******* The transactions *******/

  // Transactions that leave the four histories alone.
  lemma SameHistoriesGrow(a: Db, b: Db)
    requires b.rollouts == a.rollouts && b.registry == a.registry && a.deployments <= b.deployments
    ensures Grows(a, b)
  {
  }

  lemma DeployCommitGrows(db: Db, plan: Plan)
    ensures DeployCommit(db, plan).Ok? ==> Grows(db, DeployCommit(db, plan).value)
  {
  }

  lemma EnsureCommitGrows(db: Db, plan: Plan)
    ensures EnsureCommit(db, plan).Ok? ==> Grows(db, EnsureCommit(db, plan).value.0)
  {
  }

  // A live deployment is pointed elsewhere, and a version of its history is restored.
  lemma PointingGrows(a: Db, b: Db, d: nat)
    requires d < |a.deployments| == |b.deployments| && !Gone(a.deployments[d]) && b.rollouts == a.rollouts
    requires b.deployments == a.deployments[d := b.deployments[d]]
    requires b.deployments[d].revisions == a.deployments[d].revisions
    requires RegistryGrows(a.registry, b.registry)
    ensures Grows(a, b)
  {
  }

  lemma PointBackGrows(db: Db, d: nat, target: nat)
    requires R.Valid(db.registry) && d < |db.deployments| && 1 <= target <= |db.deployments[d].revisions|
    requires !Gone(db.deployments[d])
    ensures PointBack(db, d, target).Ok? ==> Grows(db, PointBack(db, d, target).value)
  {
    var out := PointBack(db, d, target);
    if out.Ok? {
      RestoreGrows(db.registry, db.deployments[d].revisions[target - 1].version);
      PointingGrows(db, out.value, d);
    }
  }

  lemma RollbackGrows(db: Db, d: nat, to: Option<nat>)
    requires R.Valid(db.registry)
    ensures Rollback(db, d, to).Ok? ==> Grows(db, Rollback(db, d, to).value)
  {
    var out := Rollback(db, d, to);
    if out == Ok(db) {
      SameHistoriesGrow(db, db);
    } else if out.Ok? {
      var target := if to.Some? then to else Before(db.deployments[d].active.value);
      PointBackGrows(db, d, target.value);
    }
  }

  lemma RequestDeleteGrows(db: Db, d: nat)
    ensures RequestDelete(db, d).Ok? ==> Grows(db, RequestDelete(db, d).value)
  {
  }

  lemma StartRolloutGrows(db: Db, d: nat, number: nat)
    ensures StartRollout(db, d, number).Ok? ==> Grows(db, StartRollout(db, d, number).value)
  {
  }

  lemma AbortGrows(db: Db, r: nat)
    ensures Abort(db, r).Ok? ==> Grows(db, Abort(db, r).value)
  {
  }

  lemma PromoteByHandGrows(db: Db, v: nat)
    requires R.Valid(db.registry)
    ensures PromoteByHand(db, v).Ok? ==> Grows(db, PromoteByHand(db, v).value)
  {
    PromoteGrows(db.registry, v);
  }

  lemma StartEvaluationGrows(r: R.Registry, v: nat, thresholds: map<string, R.Threshold>)
    ensures R.StartEvaluation(r, v, thresholds).Ok? ==> RegistryGrows(r, R.StartEvaluation(r, v, thresholds).value.0)
  {
  }

  lemma FinishEvaluationGrows(r: R.Registry, e: nat, metrics: map<string, real>, thresholds: map<string, R.Threshold>)
    ensures R.FinishEvaluation(r, e, metrics, thresholds).Ok? ==>
              RegistryGrows(r, R.FinishEvaluation(r, e, metrics, thresholds).value)
  {
  }

  lemma RegistryAloneGrows(a: Db, b: Db)
    requires b == a.(registry := b.registry) && RegistryGrows(a.registry, b.registry)
    ensures Grows(a, b)
  {
  }

  lemma DeploymentWriteGrows(db: Db, d: nat, expected: DeploymentStatus, row: Deployment)
    requires Gone(Deployment(0, expected, None, None, [])) ==>
               Gone(row) && d < |db.deployments| && (row.desired == db.deployments[d].desired || row.desired.None?)
    ensures WriteDeployment(db, d, expected, row).Ok? ==> Grows(db, WriteDeployment(db, d, expected, row).value)
  {
  }

  // A rollout row in flight is rewritten.
  lemma RolloutWriteGrows(a: Db, b: Db, r: nat)
    requires RolloutMoved(a, b, r) && InFlight(a.rollouts[r])
    ensures RolloutsGrow(a, b)
  {
  }

  lemma SucceedGrows(db: Db, r: nat, seen: Rollout)
    requires RolloutsAreSound(db) && R.Valid(db.registry)
    requires r < |db.rollouts| ==> seen == db.rollouts[r].(status := seen.status, abort := seen.abort)
    ensures SucceedRollout(db, r, seen).Ok? ==> Grows(db, SucceedRollout(db, r, seen).value)
  {
    if SucceedRollout(db, r, seen).Ok? {
      PromoteGrows(db.registry, seen.version);
      RolloutWriteGrows(db, SucceedRollout(db, r, seen).value, r);
    }
  }

  lemma ProgressGrows(db: Db, r: nat, seen: Rollout)
    ensures ProgressRollout(db, r, seen).Ok? ==> Grows(db, ProgressRollout(db, r, seen).value)
  {
    if ProgressRollout(db, r, seen).Ok? {
      RolloutWriteGrows(db, ProgressRollout(db, r, seen).value, r);
    }
  }

  lemma RollBackRolloutGrows(db: Db, r: nat, seen: Rollout)
    ensures RollBackRollout(db, r, seen).Ok? ==> Grows(db, RollBackRollout(db, r, seen).value)
  {
    if RollBackRollout(db, r, seen).Ok? {
      RolloutWriteGrows(db, RollBackRollout(db, r, seen).value, r);
    }
  }
}
