/** The GPU quota, the revision history and the rollout reservations survive every transaction. */
module Quota {
  import opened Wrappers
  import opened Serving
  import R = Registry

  /******* Invariants *******/

  ghost predicate InRange(n: Option<nat>, d: Deployment) {
    n.Some? ==> 1 <= n.value <= |d.revisions|
  }

  ghost predicate RowsExist(db: Db) {
    && (forall m | 0 <= m < |db.models| :: db.models[m].project < |db.projects|)
    && (forall d | 0 <= d < |db.deployments| ::
          && db.deployments[d].project < |db.projects|
          && InRange(db.deployments[d].desired, db.deployments[d])
          && InRange(db.deployments[d].active, db.deployments[d]))
  }

  // Each revision names a version the registry knows, and neighbours name different versions.
  ghost predicate HistoryIsSound(db: Db) {
    forall d | 0 <= d < |db.deployments| ::
      && (forall k | 0 <= k < |db.deployments[d].revisions| ::
            db.deployments[d].revisions[k].version < |db.registry.versions|)
      && (forall k | 0 <= k < |db.deployments[d].revisions| - 1 ::
            db.deployments[d].revisions[k].version != db.deployments[d].revisions[k + 1].version)
  }

  ghost predicate Names(r: Rollout, db: Db) {
    && r.deployment < |db.deployments|
    && 1 <= r.from <= |db.deployments[r.deployment].revisions|
    && 1 <= r.to <= |db.deployments[r.deployment].revisions|
    && r.from != r.to
    && db.deployments[r.deployment].revisions[r.to - 1].version == r.version
  }

  // At most one rollout in flight for a deployment, and at most one for a version.
  ghost predicate Reserved(db: Db) {
    forall q, r | 0 <= q < |db.rollouts| && 0 <= r < |db.rollouts| && q != r ::
      InFlight(db.rollouts[q]) && InFlight(db.rollouts[r]) ==>
        && db.rollouts[q].deployment != db.rollouts[r].deployment
        && db.rollouts[q].version != db.rollouts[r].version
  }

  ghost predicate RolloutsAreSound(db: Db) {
    && (forall r | 0 <= r < |db.rollouts| :: Names(db.rollouts[r], db))
    && (forall r | 0 <= r < |db.rollouts| ::
          InFlight(db.rollouts[r]) ==> !Gone(db.deployments[db.rollouts[r].deployment]))
    && Reserved(db)
  }

  // Everything but the quota.
  ghost predicate Sound(db: Db) {
    RowsExist(db) && HistoryIsSound(db) && RolloutsAreSound(db) && R.Valid(db.registry)
  }

  // A project that exists uses no more than its quota.
  ghost predicate InQuota(db: Db, p: nat) {
    p < |db.projects| ==> GpusInUse(db, p, None) <= db.projects[p].quota
  }

  ghost predicate WithinQuota(db: Db) {
    forall p: nat :: InQuota(db, p)
  }

  // No project leaves its quota, whatever the others are doing.
  ghost predicate KeepsQuotas(a: Db, b: Db) {
    forall p: nat :: InQuota(a, p) ==> InQuota(b, p)
  }

  // What a transaction that commits promises.
  ghost predicate Keeps(a: Db, out: Result<Db>) {
    out.Ok? ==> Sound(out.value) && KeepsQuotas(a, out.value)
  }

  /******* The cost of a set of revision numbers *******/

  lemma {:induction false} HeldCostGrows(revisions: seq<Revision>, a: set<nat>, b: set<nat>)
    requires forall n | 1 <= n <= |revisions| :: n in a ==> n in b
    ensures HeldCost(revisions, a) <= HeldCost(revisions, b)
  {
    if revisions != [] {
      HeldCostGrows(revisions[..|revisions| - 1], a, b);
    }
  }

  // One more revision costs its GPUs once, and only if it is held.
  lemma HeldCostOfOneMore(revisions: seq<Revision>, r: Revision, held: set<nat>)
    ensures HeldCost(revisions + [r], held)
           == HeldCost(revisions, held) + (if |revisions| + 1 in held then Gpus(r) else 0)
  {
    assert (revisions + [r])[..|revisions|] == revisions;
  }

  // Holding one existing number more costs exactly that revision: overlaps are counted once.
  lemma {:induction false} HeldCostCountsOnce(revisions: seq<Revision>, held: set<nat>, n: nat)
    requires n !in held
    ensures HeldCost(revisions, held + {n})
           == HeldCost(revisions, held) + (if 1 <= n <= |revisions| then Gpus(revisions[n - 1]) else 0)
  {
    if revisions != [] {
      HeldCostCountsOnce(revisions[..|revisions| - 1], held, n);
    }
  }

  /******* The sum over deployments *******/

  lemma {:induction false} OthersUnchanged(a: Db, b: Db, project: nat, d: nat, n: nat)
    requires n <= |a.deployments| && n <= |b.deployments|
    requires forall k | 0 <= k < n && k != d ::
               && a.deployments[k].project == b.deployments[k].project
               && HeldGpus(a, k, {}) == HeldGpus(b, k, {})
    ensures GpusOfFirst(a, project, Some(d), n) == GpusOfFirst(b, project, Some(d), n)
  {
    if n > 0 {
      OthersUnchanged(a, b, project, d, n - 1);
    }
  }

  lemma {:induction false} SplitOne(db: Db, project: nat, d: nat, n: nat)
    requires d < n <= |db.deployments|
    ensures GpusOfFirst(db, project, None, n) ==
            GpusOfFirst(db, project, Some(d), n)
              + (if db.deployments[d].project == project then HeldGpus(db, d, {}) else 0)
  {
    if n - 1 == d {
      SplitNone(db, project, d, d);
    } else {
      SplitOne(db, project, d, n - 1);
    }
  }

  lemma {:induction false} SplitNone(db: Db, project: nat, d: nat, n: nat)
    requires n <= |db.deployments| && n <= d
    ensures GpusOfFirst(db, project, None, n) == GpusOfFirst(db, project, Some(d), n)
  {
    if n > 0 {
      SplitNone(db, project, d, n - 1);
    }
  }

  // Nothing of another deployment's holding moved.
  ghost predicate OnlyTouches(a: Db, b: Db, d: nat) {
    && a.projects == b.projects
    && |a.deployments| == |b.deployments|
    && d < |a.deployments|
    && a.deployments[d].project == b.deployments[d].project
    && forall k | 0 <= k < |a.deployments| && k != d ::
         a.deployments[k] == b.deployments[k] && Held(a, k) == Held(b, k)
  }

  /** After one deployment's holding is replaced its project is within its quota exactly when what the
      others hold plus the new holding fits; no other project is affected. */
  lemma QuotaAfterTouching(a: Db, b: Db, d: nat)
    requires OnlyTouches(a, b, d) && a.deployments[d].project < |a.projects|
    ensures var p := a.deployments[d].project;
            && GpusInUse(b, p, Some(d)) == GpusInUse(a, p, Some(d))
            && (InQuota(b, p) <==> GpusInUse(a, p, Some(d)) + HeldGpus(b, d, {}) <= a.projects[p].quota)
            && forall q: nat | q != p :: InQuota(b, q) <==> InQuota(a, q)
  {
    var p := a.deployments[d].project;
    var n := |a.deployments|;
    forall q: nat
      ensures GpusInUse(a, q, None) == GpusInUse(a, q, Some(d)) + (if q == p then HeldGpus(a, d, {}) else 0)
      ensures GpusInUse(b, q, None) == GpusInUse(a, q, Some(d)) + (if q == p then HeldGpus(b, d, {}) else 0)
      ensures GpusInUse(b, q, Some(d)) == GpusInUse(a, q, Some(d))
    {
      OthersUnchanged(a, b, q, d, n);
      SplitOne(a, q, d, n);
      SplitOne(b, q, d, n);
    }
  }

  // The two ways a transaction stays within the quota: it passed the test for at least what it ends
  // up holding, or it ends up holding no more than before. The shortcut for need == 0 is sound.
  lemma QuotaIsKept(a: Db, b: Db, d: nat, need: nat)
    requires OnlyTouches(a, b, d) && a.deployments[d].project < |a.projects|
    requires HeldGpus(b, d, {}) <= need
    requires CheckGpus(a, d, need) || need <= HeldGpus(a, d, {})
    ensures KeepsQuotas(a, b)
  {
    QuotaAfterTouching(a, b, d);
    SplitOne(a, a.deployments[d].project, d, |a.deployments|);
  }

  /******* Which rollout is in flight *******/

  lemma InFlightIsFound(db: Db, r: nat)
    requires RolloutsAreSound(db) && r < |db.rollouts| && InFlight(db.rollouts[r])
    ensures ActiveRollout(db, db.rollouts[r].deployment) == Some(r)
  {
  }

  lemma SameRolloutsSameHeld(a: Db, b: Db, d: nat)
    requires d < |a.deployments| && d < |b.deployments|
    requires a.rollouts == b.rollouts
    requires a.deployments[d].active == b.deployments[d].active && a.deployments[d].desired == b.deployments[d].desired
    ensures Held(a, d) == Held(b, d)
  {
  }

  // A held number is the number of a revision.
  lemma HeldInRange(db: Db, d: nat)
    requires RowsExist(db) && RolloutsAreSound(db) && d < |db.deployments|
    ensures forall n | n in Held(db, d) :: 1 <= n <= |db.deployments[d].revisions|
  {
  }

  // Rollouts of other deployments are the same rows in both states.
  ghost predicate SameRolloutsOf(a: Db, b: Db, d: nat) {
    && (forall r | 0 <= r < |a.rollouts| && a.rollouts[r].deployment == d ::
          r < |b.rollouts| && b.rollouts[r] == a.rollouts[r])
    && (forall r | 0 <= r < |b.rollouts| && b.rollouts[r].deployment == d ::
          r < |a.rollouts| && a.rollouts[r] == b.rollouts[r])
  }

  lemma SameRolloutsOfSameHeld(a: Db, b: Db, d: nat)
    requires RolloutsAreSound(a) && RolloutsAreSound(b)
    requires d < |a.deployments| && d < |b.deployments| && a.deployments[d] == b.deployments[d]
    requires SameRolloutsOf(a, b, d)
    ensures Held(a, d) == Held(b, d)
  {
    match ActiveRollout(a, d)
    case Some(r) => InFlightIsFound(b, r);
    case None =>
      match ActiveRollout(b, d)
      case Some(r) =>
      case None =>
  }

  /******* Deployments *******/

  // A deployment without revisions, added last.
  ghost predicate AddsEmpty(a: Db, b: Db, project: nat) {
    b == a.(deployments := a.deployments + [Deployment(project, Pending, None, None, [])])
  }

  lemma NewRowKeepsRollouts(a: Db, b: Db, project: nat)
    requires RolloutsAreSound(a) && AddsEmpty(a, b, project)
    ensures RolloutsAreSound(b)
  {
    forall r | 0 <= r < |b.rollouts| ensures Names(b.rollouts[r], b) {
      assert Names(a.rollouts[r], a);
    }
  }

  lemma NewRowHoldsNothing(a: Db, b: Db, project: nat, p: nat)
    requires AddsEmpty(a, b, project)
    ensures GpusInUse(b, p, None) == GpusInUse(a, p, None)
  {
    var d := |a.deployments|;
    assert HeldGpus(b, d, {}) == 0;
    forall k | 0 <= k < d ensures HeldGpus(b, k, {}) == HeldGpus(a, k, {}) {
      SameRolloutsSameHeld(a, b, k);
    }
    SplitNone(a, p, d, d);
    SplitNone(b, p, d, d);
    OthersUnchanged(a, b, p, d, d);
  }

  lemma CreateKeeps(db: Db, project: nat)
    requires Sound(db)
    ensures Keeps(db, CreateDeployment(db, project))
  {
    if CreateDeployment(db, project).Ok? {
      var after := CreateDeployment(db, project).value;
      NewRowKeepsRollouts(db, after, project);
      forall p: nat ensures GpusInUse(after, p, None) == GpusInUse(db, p, None) {
        NewRowHoldsNothing(db, after, project, p);
      }
    }
  }

  // Rewriting one row without touching its project, with revisions only growing.
  lemma RowUpdateKeepsRollouts(a: Db, b: Db, d: nat)
    requires RolloutsAreSound(a) && d < |a.deployments| && a.rollouts == b.rollouts
    requires |b.deployments| == |a.deployments| && forall k | 0 <= k < |a.deployments| && k != d ::
              b.deployments[k] == a.deployments[k]
    requires a.deployments[d].revisions <= b.deployments[d].revisions
    requires Gone(b.deployments[d]) ==> Gone(a.deployments[d]) || ActiveRollout(a, d).None?
    ensures RolloutsAreSound(b)
  {
    forall r | 0 <= r < |b.rollouts| ensures Names(b.rollouts[r], b) {
      assert Names(a.rollouts[r], a);
    }
  }

  lemma RowUpdateOnlyTouches(a: Db, b: Db, d: nat)
    requires d < |a.deployments| && a.rollouts == b.rollouts && a.projects == b.projects
    requires |b.deployments| == |a.deployments| && forall k | 0 <= k < |a.deployments| && k != d ::
              b.deployments[k] == a.deployments[k]
    requires a.deployments[d].project == b.deployments[d].project
    ensures OnlyTouches(a, b, d)
  {
    forall k | 0 <= k < |a.deployments| && k != d ensures Held(a, k) == Held(b, k) {
      SameRolloutsSameHeld(a, b, k);
    }
  }

  // A deployment desiring a revision appended to it.
  lemma DesireNewCost(a: Db, b: Db, d: nat, r: Revision)
    requires RowsExist(a) && RolloutsAreSound(a) && d < |a.deployments| && d < |b.deployments|
    requires a.rollouts == b.rollouts
    requires b.deployments[d].revisions == a.deployments[d].revisions + [r]
    requires b.deployments[d].active == a.deployments[d].active
    requires b.deployments[d].desired == Some(|a.deployments[d].revisions| + 1)
    ensures HeldGpus(b, d, {}) <= Gpus(r) + HeldGpus(a, d, {})
  {
    var revisions := a.deployments[d].revisions;
    HeldCostOfOneMore(revisions, r, Held(b, d));
    HeldCostGrows(revisions, Held(b, d), Held(a, d));
    assert Held(a, d) + {} == Held(a, d) && Held(b, d) + {} == Held(b, d);
  }

  // A revision of a known version, other than the latest, appended to one deployment.
  lemma AppendedIsSound(a: Db, b: Db, d: nat, r: Revision)
    requires RowsExist(a) && HistoryIsSound(a) && d < |a.deployments| == |b.deployments|
    requires b.projects == a.projects && b.models == a.models && b.registry == a.registry
    requires forall k | 0 <= k < |a.deployments| && k != d :: b.deployments[k] == a.deployments[k]
    requires b.deployments[d].project == a.deployments[d].project && b.deployments[d].active == a.deployments[d].active
    requires b.deployments[d].revisions == a.deployments[d].revisions + [r]
    requires InRange(b.deployments[d].desired, b.deployments[d])
    requires r.version < |a.registry.versions| && !IsLatest(a.deployments[d], r.version)
    ensures RowsExist(b) && HistoryIsSound(b)
  {
    forall k | 0 <= k < |b.deployments[d].revisions|
      ensures b.deployments[d].revisions[k].version < |b.registry.versions|
    {
      if k < |a.deployments[d].revisions| {
        assert b.deployments[d].revisions[k] == a.deployments[d].revisions[k];
      }
    }
    assert InRange(a.deployments[d].active, a.deployments[d]);
  }

  lemma DeployCommitKeeps(db: Db, plan: Plan)
    requires Sound(db)
    ensures Keeps(db, DeployCommit(db, plan))
  {
    var d := plan.deployment;
    var out := DeployCommit(db, plan);
    if out.Ok? && out.value != db {
      var after := out.value;
      AppendedIsSound(db, after, d, Revise(plan));
      RowUpdateKeepsRollouts(db, after, d);
      RowUpdateOnlyTouches(db, after, d);
      DesireNewCost(db, after, d, Revise(plan));
      QuotaIsKept(db, after, d, Gpus(Revise(plan)) + HeldGpus(db, d, {}));
    }
  }

  // A revision nobody holds is free.
  lemma UnheldRevisionIsFree(a: Db, b: Db, d: nat, r: Revision)
    requires RowsExist(a) && RolloutsAreSound(a) && d < |a.deployments| && d < |b.deployments|
    requires a.rollouts == b.rollouts
    requires b.deployments[d] == a.deployments[d].(revisions := a.deployments[d].revisions + [r])
    ensures HeldGpus(b, d, {}) == HeldGpus(a, d, {})
  {
    SameRolloutsSameHeld(a, b, d);
    HeldInRange(a, d);
    HeldCostOfOneMore(a.deployments[d].revisions, r, Held(a, d) + {});
  }

  lemma EnsureCommitKeeps(db: Db, plan: Plan)
    requires Sound(db)
    ensures EnsureCommit(db, plan).Ok? ==>
              Sound(EnsureCommit(db, plan).value.0) && KeepsQuotas(db, EnsureCommit(db, plan).value.0)
  {
    var d := plan.deployment;
    var out := EnsureCommit(db, plan);
    if out.Ok? && out.value.0 != db {
      var after := out.value.0;
      AppendedIsSound(db, after, d, Revise(plan));
      RowUpdateKeepsRollouts(db, after, d);
      RowUpdateOnlyTouches(db, after, d);
      UnheldRevisionIsFree(db, after, d, Revise(plan));
      QuotaIsKept(db, after, d, HeldGpus(db, d, {}));
    }
  }

  lemma PointBackKeeps(db: Db, d: nat, target: nat)
    requires Sound(db) && d < |db.deployments| && 1 <= target <= |db.deployments[d].revisions|
    requires ActiveRollout(db, d).None? && !Gone(db.deployments[d])
    requires CheckGpus(db, d, HeldGpus(db, d, {target}))
    ensures Keeps(db, PointBack(db, d, target))
  {
    var out := PointBack(db, d, target);
    if out.Ok? {
      var after := out.value;
      var restoring := db.deployments[d].revisions[target - 1].version;
      R.RestoreKeepsValid(db.registry, restoring);
      RestoreKeepsRows(db.registry, restoring);
      RowUpdateKeepsRollouts(db, after, d);
      RowUpdateOnlyTouches(db, after, d);
      assert Held(after, d) <= Held(db, d) + {target};
      HeldCostGrows(db.deployments[d].revisions, Held(after, d) + {}, Held(db, d) + {target});
      QuotaIsKept(db, after, d, HeldGpus(db, d, {target}));
    }
  }

  /** A rollback keeps the quota, the rollouts and the registry's invariants. */
  lemma RollbackKeeps(db: Db, d: nat, to: Option<nat>)
    requires Sound(db)
    ensures Keeps(db, Rollback(db, d, to))
  {
    var out := Rollback(db, d, to);
    if out.Ok? && out.value != db {
      var target := if to.Some? then to else Before(db.deployments[d].active.value);
      PointBackKeeps(db, d, target.value);
    }
  }

  lemma RestoreKeepsRows(r: R.Registry, v: nat)
    requires R.Valid(r)
    ensures R.Restore(r, v).Ok? ==> |R.Restore(r, v).value.versions| == |r.versions|
    ensures R.Promote(r, v).Ok? ==> |R.Promote(r, v).value.versions| == |r.versions|
  {
  }

  lemma RequestDeleteKeeps(db: Db, d: nat)
    requires Sound(db)
    ensures Keeps(db, RequestDelete(db, d))
  {
    var out := RequestDelete(db, d);
    if out.Ok? && out.value != db {
      var after := out.value;
      RowUpdateKeepsRollouts(db, after, d);
      RowUpdateOnlyTouches(db, after, d);
      SameRolloutsSameHeld(db, after, d);
      QuotaIsKept(db, after, d, HeldGpus(db, d, {}));
    }
  }

  lemma {:induction false} QuotaIsNotAHolding(a: Db, b: Db, project: nat, n: nat)
    requires a.deployments == b.deployments && a.rollouts == b.rollouts && n <= |a.deployments|
    ensures GpusOfFirst(a, project, None, n) == GpusOfFirst(b, project, None, n)
  {
    if n > 0 {
      QuotaIsNotAHolding(a, b, project, n - 1);
      SameRolloutsSameHeld(a, b, n - 1);
    }
  }

  lemma SetGpuQuotaKeeps(db: Db, project: nat, gpus: int)
    requires Sound(db)
    ensures Keeps(db, SetGpuQuota(db, project, gpus))
  {
    var out := SetGpuQuota(db, project, gpus);
    if out.Ok? && out.value != db {
      forall p: nat ensures GpusInUse(out.value, p, None) == GpusInUse(db, p, None) {
        QuotaIsNotAHolding(db, out.value, p, |db.deployments|);
      }
    }
  }

  /******* Rollouts *******/

  lemma StartRolloutIsSound(db: Db, d: nat, number: nat)
    requires Sound(db) && StartRollout(db, d, number).Ok?
    ensures RolloutsAreSound(StartRollout(db, d, number).value)
  {
    var after := StartRollout(db, d, number).value;
    var r := |db.rollouts|;
    assert forall k | 0 <= k < r :: after.rollouts[k] == db.rollouts[k];
    forall k | 0 <= k < |after.rollouts| ensures Names(after.rollouts[k], after) {
      if k < r {
        assert Names(db.rollouts[k], db);
      }
    }
    forall k | 0 <= k < r && InFlight(db.rollouts[k])
      ensures db.rollouts[k].deployment != d && db.rollouts[k].version != after.rollouts[r].version
    {
      assert ActiveRollout(db, d).None? && ActiveByVersion(db, after.rollouts[r].version).None?;
    }
  }

  lemma StartRolloutKeeps(db: Db, d: nat, number: nat)
    requires Sound(db)
    ensures Keeps(db, StartRollout(db, d, number))
  {
    if StartRollout(db, d, number).Ok? {
      var after := StartRollout(db, d, number).value;
      StartRolloutIsSound(db, d, number);
      assert after.rollouts[..|db.rollouts|] == db.rollouts;
      forall k | 0 <= k < |db.deployments| && k != d ensures Held(db, k) == Held(after, k) {
        SameRolloutsOfSameHeld(db, after, k);
      }
      InFlightIsFound(after, |db.rollouts|);
      assert Held(after, d) + {} == Held(db, d) + {number};
      QuotaIsKept(db, after, d, HeldGpus(db, d, {number}));
    }
  }

  // One rollout row changed its status or flag, and if it was over it stays over.
  ghost predicate RolloutMoved(a: Db, b: Db, r: nat) {
    && r < |a.rollouts| && |b.rollouts| == |a.rollouts|
    && (forall k | 0 <= k < |a.rollouts| && k != r :: b.rollouts[k] == a.rollouts[k])
    && b.rollouts[r] == a.rollouts[r].(status := b.rollouts[r].status, abort := b.rollouts[r].abort)
    && (InFlight(b.rollouts[r]) ==> InFlight(a.rollouts[r]))
  }

  lemma RolloutMoveIsSound(a: Db, b: Db, r: nat)
    requires RolloutsAreSound(a) && RolloutMoved(a, b, r)
    requires |a.deployments| == |b.deployments|
    requires forall d | 0 <= d < |a.deployments| ::
               b.deployments[d].revisions == a.deployments[d].revisions
                 && b.deployments[d].status == a.deployments[d].status
    ensures RolloutsAreSound(b)
  {
    forall k | 0 <= k < |b.rollouts| ensures Names(b.rollouts[k], b) {
      assert Names(a.rollouts[k], a);
    }
  }

  lemma RolloutMoveOnlyTouches(a: Db, b: Db, r: nat)
    requires RolloutsAreSound(a) && RolloutsAreSound(b) && RolloutMoved(a, b, r)
    requires a.projects == b.projects && |a.deployments| == |b.deployments|
    requires forall d | 0 <= d < |a.deployments| && d != a.rollouts[r].deployment ::
              b.deployments[d] == a.deployments[d]
    requires b.deployments[a.rollouts[r].deployment].project == a.deployments[a.rollouts[r].deployment].project
    ensures OnlyTouches(a, b, a.rollouts[r].deployment)
  {
    forall d | 0 <= d < |a.deployments| && d != a.rollouts[r].deployment ensures Held(a, d) == Held(b, d) {
      SameRolloutsOfSameHeld(a, b, d);
    }
  }

  // Whatever a rollout releases, nothing new is held.
  lemma RolloutMoveReleases(a: Db, b: Db, r: nat)
    requires RolloutsAreSound(a) && RolloutsAreSound(b) && RolloutMoved(a, b, r)
    requires a.deployments == b.deployments
    ensures HeldGpus(b, a.rollouts[r].deployment, {}) <= HeldGpus(a, a.rollouts[r].deployment, {})
  {
    var d := a.rollouts[r].deployment;
    if ActiveRollout(b, d).Some? {
      InFlightIsFound(a, ActiveRollout(b, d).value);
    }
    assert Held(b, d) <= Held(a, d);
    HeldCostGrows(a.deployments[d].revisions, Held(b, d) + {}, Held(a, d) + {});
  }

  lemma RolloutMoveKeeps(a: Db, b: Db, r: nat)
    requires Sound(a) && RolloutMoved(a, b, r)
    requires a.projects == b.projects && a.deployments == b.deployments && a.models == b.models
    requires R.Valid(b.registry) && |b.registry.versions| == |a.registry.versions|
    ensures Sound(b) && KeepsQuotas(a, b)
  {
    var d := a.rollouts[r].deployment;
    assert Names(a.rollouts[r], a);
    RolloutMoveIsSound(a, b, r);
    RolloutMoveOnlyTouches(a, b, r);
    RolloutMoveReleases(a, b, r);
    QuotaIsKept(a, b, d, HeldGpus(a, d, {}));
  }

  lemma AbortKeeps(db: Db, r: nat)
    requires Sound(db)
    ensures Keeps(db, Abort(db, r))
  {
    var out := Abort(db, r);
    if out.Ok? && out.value != db {
      RolloutMoveKeeps(db, out.value, r);
    }
  }

  lemma PromoteByHandKeeps(db: Db, v: nat)
    requires Sound(db)
    ensures Keeps(db, PromoteByHand(db, v))
  {
    var out := PromoteByHand(db, v);
    if out.Ok? {
      R.PromoteKeepsValid(db.registry, v);
      RestoreKeepsRows(db.registry, v);
      RegistryKeeps(db, out.value);
    }
  }

  // A transaction on the registry alone.
  lemma RegistryKeeps(a: Db, b: Db)
    requires Sound(a) && b == a.(registry := b.registry)
    requires R.Valid(b.registry) && |a.registry.versions| <= |b.registry.versions|
    ensures Sound(b) && KeepsQuotas(a, b)
  {
    forall r | 0 <= r < |b.rollouts| ensures Names(b.rollouts[r], b) {
      assert Names(a.rollouts[r], a);
    }
    forall p: nat ensures GpusInUse(b, p, None) == GpusInUse(a, p, None) {
      QuotaIsNotAHolding(a, b, p, |a.deployments|);
    }
  }

  /******* Reconcilers *******/

  // A deployment write is fresh when the row still asks for, and serves, what was read.
  ghost predicate FreshDeployment(db: Db, d: nat, seen: Deployment) {
    d < |db.deployments| ==> db.deployments[d].desired == seen.desired && db.deployments[d].active == seen.active
  }

  ghost predicate FreshProject(db: Db, p: nat, seen: Project) {
    p < |db.projects| ==> db.projects[p].quota == seen.quota
  }

  // What was read of a row names revisions that it has.
  ghost predicate RowIsKnown(db: Db, d: nat, row: Deployment) {
    d < |db.deployments| && InRange(row.desired, db.deployments[d]) && InRange(row.active, db.deployments[d])
  }

  /** A reconciler's write of a deployment, fresh or stale: the quota survives exactly when what the row would
      hold with the pointers written back passes the test every deploy has to pass. */
  lemma ReconcilerWriteExactly(db: Db, d: nat, expected: DeploymentStatus, row: Deployment)
    requires RowsExist(db) && WriteDeployment(db, d, expected, row).Ok?
    ensures var after, p := WriteDeployment(db, d, expected, row).value, db.deployments[d].project;
            var need := HeldCost(db.deployments[d].revisions, HeldWith(db, d, row.active, row.desired));
            && (InQuota(db, p) ==> (InQuota(after, p) <==> CheckGpus(db, d, need)))
            && forall q: nat | q != p :: InQuota(after, q) <==> InQuota(db, q)
  {
    var after := WriteDeployment(db, d, expected, row).value;
    RowUpdateOnlyTouches(db, after, d);
    QuotaAfterTouching(db, after, d);
    SplitOne(db, db.deployments[d].project, d, |db.deployments|);
    assert Held(after, d) + {} == HeldWith(db, d, row.active, row.desired);
  }

  // All the rest survives it.
  lemma ReconcilerWriteIsSound(db: Db, d: nat, expected: DeploymentStatus, row: Deployment)
    requires Sound(db) && WriteDeployment(db, d, expected, row).Ok?
    requires RowIsKnown(db, d, row) && (Gone(row) ==> Gone(db.deployments[d]))
    ensures Sound(WriteDeployment(db, d, expected, row).value)
  {
    RowUpdateKeepsRollouts(db, WriteDeployment(db, d, expected, row).value, d);
  }

  lemma FreshWriteKeeps(db: Db, d: nat, expected: DeploymentStatus, row: Deployment)
    requires Sound(db) && WriteDeployment(db, d, expected, row).Ok?
    requires Gone(row) ==> Gone(db.deployments[d])
    requires row.desired == db.deployments[d].desired || row.desired.None?
    requires row.active == db.deployments[d].active || row.active == db.deployments[d].desired || row.active.None?
    ensures Keeps(db, WriteDeployment(db, d, expected, row))
  {
    var after := WriteDeployment(db, d, expected, row).value;
    ReconcilerWriteIsSound(db, d, expected, row);
    RowUpdateOnlyTouches(db, after, d);
    assert Held(after, d) <= Held(db, d);
    HeldCostGrows(db.deployments[d].revisions, Held(after, d) + {}, Held(db, d) + {});
    QuotaIsKept(db, after, d, HeldGpus(db, d, {}));
  }

  lemma MarkReadyKeeps(db: Db, d: nat, seen: Deployment)
    requires Sound(db) && FreshDeployment(db, d, seen)
    ensures Keeps(db, MarkReady(db, d, seen))
  {
    if MarkReady(db, d, seen).Ok? {
      FreshWriteKeeps(db, d, seen.status, seen.(status := Ready, active := seen.desired));
    }
  }

  lemma MoveDeploymentKeeps(db: Db, d: nat, seen: Deployment, status: DeploymentStatus)
    requires Sound(db) && FreshDeployment(db, d, seen)
    ensures Keeps(db, MoveDeployment(db, d, seen, status))
  {
    if MoveDeployment(db, d, seen, status).Ok? {
      FreshWriteKeeps(db, d, seen.status, seen.(status := status));
    }
  }

  // Deletion releases everything, so even a stale read is harmless here.
  lemma FinishDeleteKeeps(db: Db, d: nat, seen: Deployment)
    requires Sound(db)
    ensures Keeps(db, FinishDelete(db, d, seen))
  {
    if FinishDelete(db, d, seen).Ok? {
      FreshWriteKeeps(db, d, Deleting, seen.(status := Deleted, desired := None, active := None));
    }
  }

  lemma ProgressKeeps(db: Db, r: nat, seen: Rollout)
    requires Sound(db)
    ensures Keeps(db, ProgressRollout(db, r, seen))
  {
    if ProgressRollout(db, r, seen).Ok? {
      RolloutMoveKeeps(db, ProgressRollout(db, r, seen).value, r);
    }
  }

  lemma RollBackRolloutKeeps(db: Db, r: nat, seen: Rollout)
    requires Sound(db)
    ensures Keeps(db, RollBackRollout(db, r, seen))
  {
    if RollBackRollout(db, r, seen).Ok? {
      R.RejectKeepsValid(db.registry, seen.version);
      RolloutMoveKeeps(db, RollBackRollout(db, r, seen).value, r);
    }
  }

  lemma SuccessIsSound(db: Db, r: nat, seen: Rollout)
    requires Sound(db) && SucceedRollout(db, r, seen).Ok?
    requires r < |db.rollouts| && seen == db.rollouts[r].(status := seen.status, abort := seen.abort)
    ensures Sound(SucceedRollout(db, r, seen).value)
  {
    assert Names(db.rollouts[r], db);
    R.PromoteKeepsValid(db.registry, seen.version);
    RestoreKeepsRows(db.registry, seen.version);
    RolloutMoveIsSound(db, SucceedRollout(db, r, seen).value, r);
  }

  /** A rollout that succeeds releases the stable revision and holds the canary alone. The identity
      fields of a rollout never change, so reading them earlier is harmless. */
  lemma SucceedKeeps(db: Db, r: nat, seen: Rollout)
    requires Sound(db)
    requires r < |db.rollouts| ==> seen == db.rollouts[r].(status := seen.status, abort := seen.abort)
    ensures Keeps(db, SucceedRollout(db, r, seen))
  {
    if SucceedRollout(db, r, seen).Ok? {
      var after := SucceedRollout(db, r, seen).value;
      var d := seen.deployment;
      SuccessIsSound(db, r, seen);
      assert Names(db.rollouts[r], db);
      RolloutMoveOnlyTouches(db, after, r);
      InFlightIsFound(db, r);
      assert ActiveRollout(after, d).None?;
      assert Held(after, d) <= Held(db, d);
      HeldCostGrows(db.deployments[d].revisions, Held(after, d) + {}, Held(db, d) + {});
      QuotaIsKept(db, after, d, HeldGpus(db, d, {}));
    }
  }

  /** A project write, of a new status or of the old one with a note, leaves the project within its quota
      exactly when the quota written back still covers what is in use: the very test a quota change has to
      pass. It touches nothing else. */
  lemma WriteProjectExactly(db: Db, p: nat, expected: ProjectStatus, row: Project)
    requires Sound(db) && WriteProject(db, p, expected, row).Ok?
    ensures var after := WriteProject(db, p, expected, row).value;
            && Sound(after)
            && (InQuota(after, p) <==> GpusInUse(db, p, None) <= row.quota)
            && forall q: nat | q != p :: InQuota(after, q) <==> InQuota(db, q)
  {
    var after := WriteProject(db, p, expected, row).value;
    forall q: nat ensures GpusInUse(after, q, None) == GpusInUse(db, q, None) {
      QuotaIsNotAHolding(db, after, q, |db.deployments|);
    }
    forall r | 0 <= r < |after.rollouts| ensures Names(after.rollouts[r], after) {
      assert Names(db.rollouts[r], db);
    }
  }

  lemma RequestProjectDeleteKeeps(db: Db, p: nat)
    requires Sound(db)
    ensures Keeps(db, RequestProjectDelete(db, p))
  {
    if RequestProjectDelete(db, p).Ok? {
      var row := db.projects[p];
      WriteProjectExactly(db, p, row.status, row.(status := PDeleting));
    }
  }
}
