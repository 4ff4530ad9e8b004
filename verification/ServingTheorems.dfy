/** What the invariants of the serving control plane mean for its users. */
module ServingTheorems {
  import opened Wrappers
  import opened Serving
  import opened Quota
  import opened Growth
  import opened Runs
  import R = Registry

  /** Skipping the sum when nothing is needed never changes the answer within the quota. */
  lemma ShortcutIsSound(db: Db, d: nat, need: nat)
    requires RowsExist(db) && d < |db.deployments| && InQuota(db, db.deployments[d].project)
    ensures var p := db.deployments[d].project;
            CheckGpus(db, d, need) <==> GpusInUse(db, p, Some(d)) + need <= db.projects[p].quota
  {
    SplitOne(db, db.deployments[d].project, d, |db.deployments|);
  }

  /******* Rolling back *******/

  function Serves(db: Db, d: nat, n: nat): nat
    requires d < |db.deployments| && 1 <= n <= |db.deployments[d].revisions|
  {
    db.deployments[d].revisions[n - 1].version
  }

  lemma PointBackDecides(db: Db, d: nat, target: nat, left: nat)
    requires R.Valid(db.registry) && d < |db.deployments| && 1 <= target <= |db.deployments[d].revisions|
    requires PointBack(db, d, target).Ok? && left < |db.registry.versions|
    ensures var after := PointBack(db, d, target).value;
            var restored := Serves(db, d, target);
            && after.deployments[d].desired == Some(target)
            && restored < |after.registry.versions| == |db.registry.versions|
            && R.ChampionOf(after.registry.versions, db.registry.versions[restored].model) == Some(restored)
            && (after.registry.versions[left].status == R.Archived <==>
                 ArchivedByRestoring(db.registry.versions, restored, left))
  {
    var registry := PointBack(db, d, target).value.registry;
    var restored := Serves(db, d, target);
    RestoreKeepsRows(db.registry, restored);
    R.RestoreKeepsValid(db.registry, restored);
    if db.registry.versions[restored].status == R.Archived {
      R.MakeChampionExactly(db.registry, restored, R.Archived);
    }
    R.ChampionIsFound(registry.versions, db.registry.versions[restored].model, restored);
  }

  predicate ArchivedByRestoring(versions: seq<R.Version>, restored: nat, left: nat)
    requires restored < |versions| && left < |versions|
  {
    && left != restored
    && (versions[left].status == R.Archived
        || (versions[restored].status == R.Archived
          && versions[left] == R.Version(versions[restored].model, R.Champion)))
  }

  // The revision a rollback is for: the one asked for, or the one before the active one.
  function TargetOf(db: Db, d: nat, to: Option<nat>): Option<nat>
    requires d < |db.deployments|
  {
    if to.Some? || db.deployments[d].active.None? then to else Before(db.deployments[d].active.value)
  }

  // It is active and desired already.
  predicate AlreadyThere(db: Db, d: nat, to: Option<nat>)
    requires d < |db.deployments|
  {
    TargetOf(db, d, to) == db.deployments[d].active == db.deployments[d].desired
  }

  lemma RollbackIsInRange(db: Db, d: nat, to: Option<nat>)
    requires Sound(db) && Rollback(db, d, to).Ok?
    ensures d < |db.deployments| && db.deployments[d].active.Some? && TargetOf(db, d, to).Some?
    ensures 1 <= TargetOf(db, d, to).value <= |db.deployments[d].revisions|
    ensures 1 <= db.deployments[d].active.value <= |db.deployments[d].revisions|
    ensures Rollback(db, d, to)
         == if AlreadyThere(db, d, to) then Ok(db) else PointBack(db, d, TargetOf(db, d, to).value)
    ensures Serves(db, d, TargetOf(db, d, to).value) < |db.registry.versions|
    ensures Serves(db, d, db.deployments[d].active.value) < |db.registry.versions|
  {
  }

  /** A rollback to the revision that is active and desired already changes nothing. After any other one the
      version it restores is the one champion of its model, and the version it leaves is archived exactly
      when it is another version that was archived already, or was the champion that the restored version
      replaces. So the version served is champion unless nothing changed and it was not. */
  lemma RollbackDecides(db: Db, d: nat, to: Option<nat>)
    requires Sound(db) && Rollback(db, d, to).Ok?
    ensures d < |db.deployments| && db.deployments[d].active.Some? && TargetOf(db, d, to).Some?
    ensures 1 <= TargetOf(db, d, to).value <= |db.deployments[d].revisions|
    ensures 1 <= db.deployments[d].active.value <= |db.deployments[d].revisions|
    ensures var after := Rollback(db, d, to).value;
            var target := TargetOf(db, d, to).value;
            var restored := Serves(db, d, target);
            var left := Serves(db, d, db.deployments[d].active.value);
            var versions := db.registry.versions;
            && restored < |versions| && left < |after.registry.versions| == |versions|
            && (AlreadyThere(db, d, to) ==> after == db)
            && (!AlreadyThere(db, d, to) ==>
                  && after.deployments[d].desired == Some(target)
                  && (after.registry.versions[left].status == R.Archived <==>
                       ArchivedByRestoring(versions, restored, left)))
            && (R.ChampionOf(after.registry.versions, versions[restored].model) == Some(restored)
                <==> !AlreadyThere(db, d, to) || versions[restored].status == R.Champion)
  {
    RollbackIsInRange(db, d, to);
    var target := TargetOf(db, d, to).value;
    var restored := Serves(db, d, target);
    if AlreadyThere(db, d, to) {
      if db.registry.versions[restored].status == R.Champion {
        R.ChampionIsFound(db.registry.versions, db.registry.versions[restored].model, restored);
      }
    } else {
      PointBackDecides(db, d, target, Serves(db, d, db.deployments[d].active.value));
    }
  }

  /** A candidate deployed without a promotion stays a candidate when it is rolled back, and when it is
      rolled back to itself no champion is made of it. */
  lemma RolledBackCandidateIsNotArchived()
    ensures var db := CandidateServing();
            var out, same := Rollback(db, 0, None), Rollback(db, 0, Some(2));
            && Sound(db) && WithinQuota(db)
            && out.Ok? && |out.value.registry.versions| == 2 && out.value.registry.versions[1].status == R.Candidate
            && same == Ok(db) && db.registry.versions[1].status == R.Candidate
  {
    var db := CandidateServing();
    CandidateServingIsSound();
    HeldCostOfNothing(db, {1});
  }

  // Two versions of a function, candidates from the start: version 0 was deployed and promoted by hand,
  // version 1 was deployed after it.
  function CandidateServing(): Db {
    var revisions := [Revision(0, Container, 0, 1), Revision(1, Container, 0, 1)];
    Db([Project(PReady, 0)], [Function(0)], [Deployment(0, Ready, Some(2), Some(2), revisions)], [],
        CandidateRegistry())
  }

  function CandidateRegistry(): R.Registry {
    R.Registry([R.Version(0, R.Champion), R.Version(0, R.Candidate)], [], [R.Promotion(0, None)])
  }

  lemma CandidateServingIsSound()
    ensures Sound(CandidateServing()) && WithinQuota(CandidateServing())
  {
    var db := CandidateServing();
    CandidateRegistryIsSound();
    HeldCostOfNothing(db, {});
    assert GpusOfFirst(db, 0, None, 0) == 0;
    assert GpusInUse(db, 0, None) == 0;
  }

  lemma CandidateRegistryIsSound()
    ensures R.Valid(CandidateRegistry())
  {
    var r := CandidateRegistry();
    R.ChampionIsFound(r.versions, 0, 0);
    forall model: nat ensures R.ChampionOf(r.versions, model) == R.LastPromoted(r.versions, r.promotions, model) {
      if model == 0 {
        R.ChampionIsFound(r.versions, 0, 0);
      } else {
        assert forall v: nat :: !R.IsChampion(r.versions, model, v);
        assert r.promotions[..0] == [];
      }
    }
    assert r.promotions[..0] == [];
  }

  lemma HeldCostOfNothing(db: Db, incoming: set<nat>)
    requires db == CandidateServing()
    ensures HeldGpus(db, 0, incoming) == 0
  {
    var revisions := db.deployments[0].revisions;
    HeldCostOfOneMore([], revisions[0], Held(db, 0) + incoming);
    HeldCostOfOneMore([revisions[0]], revisions[1], Held(db, 0) + incoming);
    assert [] + [revisions[0]] == [revisions[0]] && [revisions[0]] + [revisions[1]] == revisions;
  }

  /******* Deploying *******/

  // Only one deployment differs.
  ghost predicate OnlyRow(a: Db, b: Db, d: nat) {
    d < |a.deployments| == |b.deployments| && b == a.(deployments := a.deployments[d := b.deployments[d]])
  }

  /** If nothing comes between its two transactions, an accepted deploy commits: the version is served by a
      new last revision, which is desired and being deployed, and nothing else changes. Asking again then
      changes nothing. */
  lemma DeployCommits(db: Db, d: nat, v: nat)
    requires Sound(db) && DeployCheck(db, d, v).Ok? && DeployCheck(db, d, v).value.Some?
    ensures var out := DeployCommit(db, DeployCheck(db, d, v).value.value);
            && out.Ok? && OnlyRow(db, out.value, d)
            && var (row, next) := (db.deployments[d], out.value.deployments[d]);
               && |next.revisions| == |row.revisions| + 1 && row.revisions <= next.revisions
               && next.desired == Some(|next.revisions|) && Serves(out.value, d, |next.revisions|) == v
               && next.status == Deploying && next.active == row.active
               && DeployCheck(out.value, d, v) == Ok(None)
  {
  }

  /** The same for a canary's revision, which is added but neither desired nor served. */
  lemma RevisionCommits(db: Db, d: nat, v: nat)
    requires Sound(db) && EnsureCheck(db, d, v).Ok? && EnsureCheck(db, d, v).value.Planned?
    ensures var out := EnsureCommit(db, EnsureCheck(db, d, v).value.plan);
            && out.Ok? && OnlyRow(db, out.value.0, d)
            && var (row, next) := (db.deployments[d], out.value.0.deployments[d]);
               && next == row.(revisions := next.revisions) && |next.revisions| == |row.revisions| + 1
               && row.revisions <= next.revisions
               && out.value.1 == |next.revisions| && Serves(out.value.0, d, out.value.1) == v
  {
  }

  /** Asking for it again then finds it. */
  lemma RevisionIsFoundAgain(db: Db, d: nat, v: nat)
    requires Sound(db) && EnsureCheck(db, d, v).Ok? && EnsureCheck(db, d, v).value.Planned?
    ensures var out := EnsureCommit(db, EnsureCheck(db, d, v).value.plan);
            out.Ok? && EnsureCheck(out.value.0, d, v) == Ok(Existing(out.value.1))
  {
    RevisionCommits(db, d, v);
    var after := EnsureCommit(db, EnsureCheck(db, d, v).value.plan).value.0;
    var revisions := after.deployments[d].revisions;
    LastIsFound(db.deployments[d].revisions, revisions[|revisions| - 1]);
    assert revisions == db.deployments[d].revisions + [revisions[|revisions| - 1]];
    assert Lookup(after, d, v) == Lookup(db, d, v);
  }

  lemma LastIsFound(revisions: seq<Revision>, r: Revision)
    requires Find(revisions, r.version).None?
    ensures Find(revisions + [r], r.version) == Some(|revisions| + 1)
  {
    assert (revisions + [r])[..|revisions|] == revisions;
  }

  /** A canary told to stop before it began gives back exactly what starting it had taken. */
  lemma StartThenAbort(db: Db, d: nat, number: nat, project: nat)
    requires Sound(db) && StartRollout(db, d, number).Ok?
    ensures var started := StartRollout(db, d, number).value;
            var stopped := Abort(started, |db.rollouts|);
            && stopped.Ok? && stopped.value.deployments == db.deployments
            && stopped.value.rollouts[|db.rollouts|].status == RolledBack
            && GpusInUse(stopped.value, project, None) == GpusInUse(db, project, None)
            && ActiveRollout(stopped.value, d).None?
  {
    var started := StartRollout(db, d, number).value;
    var stopped := Abort(started, |db.rollouts|).value;
    forall k | 0 <= k < |db.deployments|
      ensures ActiveRollout(stopped, k) == ActiveRollout(db, k) && Held(stopped, k) == Held(db, k)
    {
      EndedIsNotFound(db.rollouts, stopped.rollouts[|db.rollouts|], k);
      assert stopped.rollouts == db.rollouts + [stopped.rollouts[|db.rollouts|]];
    }
    SameHoldings(db, stopped, project, |db.deployments|);
  }

  lemma EndedIsNotFound(rollouts: seq<Rollout>, r: Rollout, d: nat)
    requires !InFlight(r)
    ensures FirstInFlight(rollouts + [r], (q: Rollout) => q.deployment == d)
           == FirstInFlight(rollouts, (q: Rollout) => q.deployment == d)
  {
    assert (rollouts + [r])[..|rollouts|] == rollouts;
  }

  lemma {:induction false} SameHoldings(a: Db, b: Db, project: nat, n: nat)
    requires a.deployments == b.deployments && n <= |a.deployments|
    requires forall k | 0 <= k < |a.deployments| :: Held(a, k) == Held(b, k)
    ensures GpusOfFirst(a, project, None, n) == GpusOfFirst(b, project, None, n)
  {
    if n > 0 { SameHoldings(a, b, project, n - 1); }
  }

  function WithQuota(db: Db, project: nat, gpus: nat): Db
    requires project < |db.projects|
  {
    db.(projects := db.projects[project := db.projects[project].(quota := gpus)])
  }

  /** A quota is accepted exactly when it is the current one, or is between none and 64 GPUs and leaves the
      project within it; then only it changes. */
  lemma QuotaChangeIsExact(db: Db, project: nat, gpus: int)
    ensures var out := SetGpuQuota(db, project, gpus);
            && (out.Err? && out.error == NotFound <==> project >= |db.projects|)
            && (out.Ok? <==>
                  && project < |db.projects|
                  && (|| gpus == db.projects[project].quota
                      || (0 <= gpus <= 64 && InQuota(WithQuota(db, project, gpus), project))))
            && (out.Ok? ==> gpus >= 0 && out.value == WithQuota(db, project, gpus))
            && (out.Err? && project < |db.projects| ==>
                  out.error == if gpus < GpusInUse(db, project, None) then Conflict else InvalidArgument)
  {
    if project < |db.projects| && gpus >= 0 {
      QuotaIsNotAHolding(db, WithQuota(db, project, gpus), project, |db.deployments|);
    }
  }

  /******* Revisions *******/

  // What one transaction may do to the revisions of a deployment.
  ghost predicate AppendsDeployable(a: Db, b: Db, d: nat) {
    && d < |a.deployments| && d < |b.deployments|
    && (b.deployments[d].revisions == a.deployments[d].revisions
        || exists r: Revision ::
             && b.deployments[d].revisions == a.deployments[d].revisions + [r]
             && !Gone(a.deployments[d])
             && r.version < |a.registry.versions|
             && R.Deployable(a.registry.versions[r.version].status)
             && !IsLatest(a.deployments[d], r.version))
  }

  /** In any step whatever, stale writes included, a deployment's list of revisions stays as it is or
      gains one: of a live deployment, naming a version that is deployable at that moment and differs
      from the latest. */
  lemma StepAppendsDeployable(s: Sys, e: Event, d: nat)
    requires d < |s.db.deployments|
    ensures AppendsDeployable(s.db, Apply(s, e).db, d)
  {
    if Continues(e) {
      ApplyContinues(s, e);
      if e.op < |s.ops| {
        ContinueAppendsDeployable(s, e, s.ops[e.op], d);
      }
    }
  }

  lemma ContinueAppendsDeployable(s: Sys, e: Event, op: Op, d: nat)
    requires d < |s.db.deployments| && Continues(e)
    ensures AppendsDeployable(s.db, Continue(s, e, op).db, d)
  {
    match op
    case Deploys(plan) =>
      if plan.deployment == d && DeployCommit(s.db, plan).Ok? && DeployCommit(s.db, plan).value != s.db
        && e.DeploySecond? {
        assert DeployCommit(s.db, plan).value.deployments[d].revisions
          == s.db.deployments[d].revisions + [Revise(plan)];
      }
    case Ensures(plan) =>
      if plan.deployment == d && EnsureCommit(s.db, plan).Ok? && EnsureCommit(s.db, plan).value.0 != s.db
        && e.EnsureSecond? {
        assert EnsureCommit(s.db, plan).value.0.deployments[d].revisions
          == s.db.deployments[d].revisions + [Revise(plan)];
      }
    case _ =>
  }

  /******* Reservations *******/

  lemma VersionReserved(db: Db, r: nat)
    requires RolloutsAreSound(db) && r < |db.rollouts| && InFlight(db.rollouts[r])
    ensures ActiveByVersion(db, db.rollouts[r].version) == Some(r)
  {
  }

  /** A version a canary is carrying cannot be promoted by hand. */
  lemma ReservedFromPromotion(db: Db, r: nat)
    requires Sound(db) && r < |db.rollouts| && InFlight(db.rollouts[r])
    ensures PromoteByHand(db, db.rollouts[r].version).Err?
    ensures forall d: nat, n: nat | d < |db.deployments| && 1 <= n <= |db.deployments[d].revisions|
              && (d == db.rollouts[r].deployment || Serves(db, d, n) == db.rollouts[r].version) ::
              StartRollout(db, d, n).Err?
  {
    VersionReserved(db, r);
    InFlightIsFound(db, r);
  }

  /** While a canary carries a candidate, the only step that makes that version champion is the success
      of that very rollout. */
  lemma OnlyItsRolloutCrowns(s: Sys, e: Event, r: nat)
    requires SysSound(s) && r < |s.db.rollouts| && InFlight(s.db.rollouts[r])
    requires s.db.registry.versions[s.db.rollouts[r].version].status == R.Candidate
    requires s.db.rollouts[r].version < |Apply(s, e).db.registry.versions|
    requires Apply(s, e).db.registry.versions[s.db.rollouts[r].version].status == R.Champion
    ensures e.WriteSuccess? && e.op < |s.ops| && s.ops[e.op].SawRollout? && s.ops[e.op].rollout == r
  {
    var v := s.db.rollouts[r].version;
    VersionReserved(s.db, r);
    if Continues(e) {
      ApplyContinues(s, e);
      if e.op < |s.ops| {
        ContinueCrowns(s, e, s.ops[e.op], r);
      }
    } else {
      RequestCrowns(s, e, v);
    }
  }

  lemma RequestCrowns(s: Sys, e: Event, v: nat)
    requires SysSound(s) && !Continues(e) && v < |s.db.registry.versions|
    requires s.db.registry.versions[v].status == R.Candidate && ActiveByVersion(s.db, v).Some?
    ensures v < |Apply(s, e).db.registry.versions| && Apply(s, e).db.registry.versions[v].status != R.Champion
  {
    match e
    case PromoteVersion(w) => HandCrowns(s.db, w, v);
    case RollBack(d, to) => RollbackCrowns(s.db, d, to, v);
    case EvaluateFirst(w, thresholds) => EvaluationCrowns(s.db.registry, w, thresholds, v);
    case AddProject =>
    case AddModel(_) =>
    case AddVersion(_) =>
    case AddDeployment(_) =>
    case ChangeQuota(_, _) =>
    case Delete(_) =>
    case DeleteProject(_) =>
    case RolloutAbort(_) =>
    case _ => ReadsChangeNothing(s, e);
  }

  lemma ReadsChangeNothing(s: Sys, e: Event)
    requires e.DeployFirst? || e.EnsureFirst? || e.ReadDeployment? || e.ReadRollout? || e.ReadProject?
    ensures Apply(s, e).db == s.db
  {
  }

  lemma HandCrowns(db: Db, w: nat, v: nat)
    requires Sound(db) && v < |db.registry.versions|
    requires db.registry.versions[v].status == R.Candidate && ActiveByVersion(db, v).Some?
    ensures PromoteByHand(db, w).Ok? ==>
              v < |PromoteByHand(db, w).value.registry.versions|
                && PromoteByHand(db, w).value.registry.versions[v].status == R.Candidate
  {
    if v != w {
      PromoteCrownsOne(db.registry, w, v);
    }
  }

  lemma RollbackCrowns(db: Db, d: nat, to: Option<nat>, v: nat)
    requires Sound(db) && v < |db.registry.versions| && db.registry.versions[v].status == R.Candidate
    ensures Rollback(db, d, to).Ok? ==>
              v < |Rollback(db, d, to).value.registry.versions|
                && Rollback(db, d, to).value.registry.versions[v].status == R.Candidate
  {
    if Rollback(db, d, to).Ok? && Rollback(db, d, to).value != db {
      RestoreCrownsOne(db.registry, Serves(db, d, Rollback(db, d, to).value.deployments[d].desired.value), v);
    }
  }

  lemma EvaluationCrowns(r: R.Registry, w: nat, thresholds: map<string, R.Threshold>, v: nat)
    requires v < |r.versions| && r.versions[v].status == R.Candidate
    ensures R.StartEvaluation(r, w, thresholds).Ok? ==>
              v < |R.StartEvaluation(r, w, thresholds).value.0.versions|
                && R.StartEvaluation(r, w, thresholds).value.0.versions[v].status == R.Candidate
  {
  }

  lemma PromoteCrownsOne(r: R.Registry, w: nat, v: nat)
    requires R.Valid(r) && v < |r.versions| && r.versions[v].status == R.Candidate && v != w
    ensures R.Promote(r, w).Ok? ==>
              v < |R.Promote(r, w).value.versions| && R.Promote(r, w).value.versions[v].status == R.Candidate
  {
    if w < |r.versions| && r.versions[w].status == R.Candidate {
      R.MakeChampionExactly(r, w, R.Candidate);
    }
  }

  lemma RestoreCrownsOne(r: R.Registry, w: nat, v: nat)
    requires R.Valid(r) && v < |r.versions| && r.versions[v].status == R.Candidate
    ensures R.Restore(r, w).Ok? ==>
              v < |R.Restore(r, w).value.versions| && R.Restore(r, w).value.versions[v].status == R.Candidate
  {
    if w < |r.versions| && r.versions[w].status == R.Archived {
      R.MakeChampionExactly(r, w, R.Archived);
    }
  }

  lemma ContinueCrowns(s: Sys, e: Event, op: Op, r: nat)
    requires SysSound(s) && Continues(e) && e.op < |s.ops| && op == s.ops[e.op]
    requires r < |s.db.rollouts| && InFlight(s.db.rollouts[r])
    requires s.db.registry.versions[s.db.rollouts[r].version].status == R.Candidate
    requires s.db.rollouts[r].version < |Continue(s, e, op).db.registry.versions|
    requires Continue(s, e, op).db.registry.versions[s.db.rollouts[r].version].status == R.Champion
    ensures e.WriteSuccess? && op.SawRollout? && op.rollout == r
  {
    var v := s.db.rollouts[r].version;
    match op
    case SawRollout(q, seen) =>
      if e.WriteSuccess? && SucceedRollout(s.db, q, seen).Ok? && seen.version != v {
        PromoteCrownsOne(s.db.registry, seen.version, v);
      }
    case _ =>
  }

  /******* Deleting *******/

  /** A deletion is accepted exactly when the deployment exists and has no rollout in flight, or is being
      deleted already. From then on every transaction that would add, serve or roll out a revision is
      refused, also the second half of one that was begun before. What the deployment holds stays accounted
      for; asking again changes nothing. */
  lemma DeletionRefusesTheRest(db: Db, d: nat)
    requires Sound(db)
    ensures RequestDelete(db, d).Ok? <==>
              d < |db.deployments|
                && (Gone(db.deployments[d]) || forall r | 0 <= r < |db.rollouts| && InFlight(db.rollouts[r]) ::
                      db.rollouts[r].deployment != d)
    ensures RequestDelete(db, d).Ok? ==>
              var after := RequestDelete(db, d).value;
              && OnlyRow(db, after, d) && Gone(after.deployments[d]) && RequestDelete(after, d) == Ok(after)
              && (forall v: nat :: DeployCheck(after, d, v).Err? && EnsureCheck(after, d, v).Err?)
              && (forall plan: Plan | plan.deployment == d ::
                    DeployCommit(after, plan).Err? && EnsureCommit(after, plan).Err?)
              && (forall to :: Rollback(after, d, to).Err?) && (forall n: nat :: StartRollout(after, d, n).Err?)
              && (forall p: nat :: GpusInUse(after, p, None) == GpusInUse(db, p, None))
  {
    if RequestDelete(db, d).Ok? && !Gone(db.deployments[d]) {
      var after := RequestDelete(db, d).value;
      forall k | 0 <= k < |db.deployments| ensures Held(after, k) == Held(db, k) {
        SameRolloutsSameHeld(db, after, k);
      }
      forall p: nat ensures GpusInUse(after, p, None) == GpusInUse(db, p, None) {
        SameNumbersHeld(db, after, p, |db.deployments|);
      }
    }
  }

  lemma {:induction false} SameNumbersHeld(a: Db, b: Db, project: nat, n: nat)
    requires n <= |a.deployments| == |b.deployments|
    requires forall k | 0 <= k < |a.deployments| ::
               && Held(a, k) == Held(b, k) && a.deployments[k].revisions == b.deployments[k].revisions
               && a.deployments[k].project == b.deployments[k].project
    ensures GpusOfFirst(a, project, None, n) == GpusOfFirst(b, project, None, n)
  {
    if n > 0 { SameNumbersHeld(a, b, project, n - 1); }
  }

  /** The reconciler's last write of a deletion, however old its read, frees all the GPUs of the deployment. */
  lemma FinishedDeletionFreesGpus(db: Db, d: nat, seen: Deployment)
    requires Sound(db) && FinishDelete(db, d, seen).Ok?
    ensures var after := FinishDelete(db, d, seen).value;
            && OnlyRow(db, after, d) && after.deployments[d].status == Deleted
            && HeldGpus(after, d, {}) == 0
            && forall e: nat | e < |db.deployments| && e != d :: Held(after, e) == Held(db, e)
  {
    var after := FinishDelete(db, d, seen).value;
    assert ActiveRollout(db, d).None?;
    HeldCostOfNone(after.deployments[d].revisions);
    assert Held(after, d) + {} == {};
    forall e: nat | e < |db.deployments| && e != d ensures Held(after, e) == Held(db, e) {
      SameRolloutsSameHeld(db, after, e);
    }
  }

  lemma HeldCostOfNone(revisions: seq<Revision>)
    ensures HeldCost(revisions, {}) == 0
  {
  }

  /******* Becoming ready *******/

  lemma {:induction false} HeldCostBeyond(revisions: seq<Revision>, n: nat)
    requires n > |revisions|
    ensures HeldCost(revisions, {n}) == 0
  {
    if revisions != [] { HeldCostBeyond(revisions[..|revisions| - 1], n); }
  }

  /** A deploy is over when READY is recorded from a read after it: the deployment serves the version
      deployed, and holds the GPUs of that revision alone; those of the one served before are free. A READY
      write from any read whatever, if it is taken at all, leaves the version deployed served exactly when it
      read the deploy: otherwise the deploy is undone. */
  lemma ReadyEndsTheDeploy(db: Db, d: nat, v: nat, seen: Deployment)
    requires Sound(db) && DeployCheck(db, d, v).Ok? && DeployCheck(db, d, v).value.Some? && ActiveRollout(db, d).None?
    ensures var plan := DeployCheck(db, d, v).value.value;
            var out := DeployCommit(db, plan);
            && out.Ok? && d < |out.value.deployments|
            && var number := |out.value.deployments[d].revisions|;
               var ready, late := MarkReady(out.value, d, out.value.deployments[d]), MarkReady(out.value, d, seen);
               && ready.Ok? && OnlyRow(out.value, ready.value, d)
               && ready.value.deployments[d].status == Ready
               && ready.value.deployments[d].active == ready.value.deployments[d].desired == Some(number)
               && number > 0 && Serves(ready.value, d, number) == v
               && HeldGpus(ready.value, d, {}) == Gpus(Revise(plan))
               && (late.Ok? ==> (late.value == ready.value <==> seen.desired == Some(number)))
               && (late.Ok? && seen.desired != Some(number) ==>
                     late.value.deployments[d].desired == late.value.deployments[d].active == seen.desired)
  {
    DeployCommits(db, d, v);
    var plan := DeployCheck(db, d, v).value.value;
    var after := DeployCommit(db, plan).value;
    var revisions := db.deployments[d].revisions;
    assert after.deployments[d].revisions == revisions + [Revise(plan)];
    var ready := MarkReady(after, d, after.deployments[d]).value;
    assert ActiveRollout(ready, d).None?;
    assert Held(ready, d) + {} == {|revisions| + 1};
    HeldCostOfOneMore(revisions, Revise(plan), {|revisions| + 1});
    HeldCostBeyond(revisions, |revisions| + 1);
  }

  /******* Stopping a canary *******/

  // An abort that ends a canary before it has begun.
  predicate EndsAtOnce(row: Rollout) {
    row.status == Waiting && !row.abort
  }

  lemma AbortChangesOneRow(db: Db, r: nat)
    requires Sound(db) && r < |db.rollouts|
    ensures Abort(db, r).Ok? && Sound(Abort(db, r).value)
    ensures var after := Abort(db, r).value;
            && after == db.(rollouts := after.rollouts) && |after.rollouts| == |db.rollouts|
            && Abort(after, r) == Ok(after)
            && (forall q | 0 <= q < |db.rollouts| && q != r :: after.rollouts[q] == db.rollouts[q])
            && after.rollouts[r]
              == db.rollouts[r].(status := after.rollouts[r].status, abort := after.rollouts[r].abort)
            && (InFlight(after.rollouts[r]) <==> InFlight(db.rollouts[r]) && !EndsAtOnce(db.rollouts[r]))
            && (InFlight(after.rollouts[r]) ==> after.rollouts[r].abort)
  {
    AbortKeeps(db, r);
  }

  lemma EndedIsFree(db: Db, r: nat)
    requires Sound(db) && r < |db.rollouts| && EndsAtOnce(db.rollouts[r])
    ensures var row, after := db.rollouts[r], Abort(db, r).value;
            && ActiveRollout(after, row.deployment).None? && ActiveByVersion(after, row.version).None?
  {
    AbortChangesOneRow(db, r);
  }

  lemma OthersDoNotNotice(db: Db, r: nat, e: nat)
    requires Sound(db) && r < |db.rollouts| && e < |db.deployments|
    requires EndsAtOnce(db.rollouts[r]) ==> e != db.rollouts[r].deployment
    ensures Held(Abort(db, r).value, e) == Held(db, e)
  {
    AbortChangesOneRow(db, r);
    var after := Abort(db, r).value;
    if e != db.rollouts[r].deployment {
      SameRolloutsOfSameHeld(db, after, e);
    } else if InFlight(db.rollouts[r]) {
      InFlightIsFound(db, r);
      InFlightIsFound(after, r);
    }
  }

  /** An abort of a canary that has not begun frees its deployment and its version at once: the deployment
      holds what it serves and wants alone. One that has begun goes on holding both of its revisions, and one
      that is over is left as it is. No other deployment notices, and asking again changes nothing. */
  lemma AbortReleases(db: Db, r: nat)
    requires Sound(db) && r < |db.rollouts|
    ensures var row := db.rollouts[r];
            var d := row.deployment;
            var out := Abort(db, r);
            && d < |db.deployments| && out.Ok? && out.value == db.(rollouts := out.value.rollouts)
            && Abort(out.value, r) == out
            && (EndsAtOnce(row) ==>
                  && ActiveRollout(out.value, d).None? && ActiveByVersion(out.value, row.version).None?
                  && Held(out.value, d) == Number(db.deployments[d].active) + Number(db.deployments[d].desired))
            && (InFlight(row) && !EndsAtOnce(row) ==>
                 ActiveRollout(out.value, d) == Some(r) && out.value.rollouts[r].abort)
            && forall e: nat | e < |db.deployments| && (EndsAtOnce(row) ==> e != d) :: Held(out.value, e) == Held(db, e)
  {
    AbortChangesOneRow(db, r);
    var row, after := db.rollouts[r], Abort(db, r).value;
    assert Names(row, db);
    if EndsAtOnce(row) {
      EndedIsFree(db, r);
    } else if InFlight(row) {
      InFlightIsFound(after, r);
    }
    forall e: nat | e < |db.deployments| && (EndsAtOnce(row) ==> e != row.deployment)
      ensures Held(after, e) == Held(db, e)
    {
      OthersDoNotNotice(db, r, e);
    }
  }
}
