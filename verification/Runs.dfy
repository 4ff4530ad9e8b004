/** Whole runs of the serving control plane: any interleaving of API transactions, of the two halves of
    a deploy or an evaluation, and of reconcilers that write back what they read earlier. */
module Runs {
  import opened Wrappers
  import opened Serving
  import opened Quota
  import opened Growth
  import R = Registry

  // What a caller remembers between two transactions.
  datatype Op =
    | Deploys(plan: Plan)
    | Ensures(plan: Plan)
    | HasRevision(deployment: nat, number: nat)
    | Judges(evaluation: nat, thresholds: map<string, R.Threshold>)
    | SawDeployment(deployment: nat, row: Deployment)
    | SawRollout(rollout: nat, seen: Rollout)
    | SawProject(project: nat, was: Project)

  datatype Sys = Sys(db: Db, ops: seq<Op>)

  datatype Event =
    | AddProject
    | AddModel(model: Model)
    | AddVersion(modelId: nat)
    | AddDeployment(project: nat)
    | DeployFirst(deployment: nat, version: nat)
    | DeploySecond(op: nat)
    | EnsureFirst(deployment: nat, version: nat)
    | EnsureSecond(op: nat)
    | RolloutStart(op: nat)
    | RolloutAbort(rollout: nat)
    | RollBack(deployment: nat, to: Option<nat>)
    | Delete(deployment: nat)
    | ChangeQuota(project: nat, gpus: int)
    | DeleteProject(project: nat)
    | PromoteVersion(version: nat)
    | EvaluateFirst(version: nat, thresholds: map<string, R.Threshold>)
    | EvaluateSecond(op: nat, metrics: map<string, real>)
    | ReadDeployment(deployment: nat)
    | WriteReady(op: nat)
    | WriteStatus(op: nat, status: DeploymentStatus)
    | WriteDeleted(op: nat)
    | ReadRollout(rollout: nat)
    | WriteProgress(op: nat)
    | WriteSuccess(op: nat)
    | WriteRollBack(op: nat)
    | ReadProject(project: nat)
    | WriteProject(op: nat, pstatus: ProjectStatus)
    | WriteNote(op: nat)

  const Empty: Sys := Sys(Db([], [], [], [], R.Registry([], [], [])), [])

  // A transaction that fails leaves no trace.
  function Commit(s: Sys, out: Result<Db>): Sys {
    if out.Ok? then s.(db := out.value) else s
  }

  function Remember(s: Sys, op: Op): Sys {
    s.(ops := s.ops + [op])
  }

  // Versions of a function are candidates at once; all others start REGISTERED.
  function RegisterVersion(db: Db, model: nat): Result<Db> {
    if |db.models| <= model then Err(NotFound)
    else Ok(db.(registry := R.Register(db.registry, model, db.models[model].Function?)))
  }

  function AddModelRow(db: Db, model: Model): Result<Db> {
    if |db.projects| <= model.project then Err(NotFound) else Ok(db.(models := db.models + [model]))
  }

  function Apply(s: Sys, e: Event): Sys {
    match e
    case AddProject => s.(db := s.db.(projects := s.db.projects + [Project(PPending, 0)]))
    case AddModel(model) => Commit(s, AddModelRow(s.db, model))
    case AddVersion(model) => Commit(s, RegisterVersion(s.db, model))
    case AddDeployment(p) => Commit(s, CreateDeployment(s.db, p))
    case DeployFirst(d, v) =>
      var out := DeployCheck(s.db, d, v);
      if out.Ok? && out.value.Some? then Remember(s, Deploys(out.value.value)) else s
    case EnsureFirst(d, v) =>
      var out := EnsureCheck(s.db, d, v);
      if out.Err? then s
      else if out.value.Existing? then Remember(s, HasRevision(d, out.value.number))
      else Remember(s, Ensures(out.value.plan))
    case RolloutAbort(r) => Commit(s, Abort(s.db, r))
    case RollBack(d, to) => Commit(s, Rollback(s.db, d, to))
    case Delete(d) => Commit(s, RequestDelete(s.db, d))
    case ChangeQuota(p, gpus) => Commit(s, SetGpuQuota(s.db, p, gpus))
    case DeleteProject(p) => Commit(s, RequestProjectDelete(s.db, p))
    case PromoteVersion(v) => Commit(s, PromoteByHand(s.db, v))
    case EvaluateFirst(v, thresholds) =>
      var out := R.StartEvaluation(s.db.registry, v, thresholds);
      if out.Err? then s
      else Remember(s.(db := s.db.(registry := out.value.0)), Judges(out.value.1, thresholds))
    case ReadDeployment(d) =>
      // While a rollout is in flight this reconciler only finishes deletions.
      if d < |s.db.deployments| && (ActiveRollout(s.db, d).None? || s.db.deployments[d].status == Deleting)
      then Remember(s, SawDeployment(d, s.db.deployments[d])) else s
    case ReadRollout(r) =>
      if r < |s.db.rollouts| then Remember(s, SawRollout(r, s.db.rollouts[r])) else s
    case ReadProject(p) =>
      if p < |s.db.projects| then Remember(s, SawProject(p, s.db.projects[p])) else s
    case _ =>
      if |s.ops| <= e.op then s else Continue(s, e, s.ops[e.op])
  }

  // The transactions that continue a remembered operation.
  function Continue(s: Sys, e: Event, op: Op): Sys {
    match (e, op)
    case (DeploySecond(_), Deploys(plan)) => Commit(s, DeployCommit(s.db, plan))
    case (EnsureSecond(_), Ensures(plan)) =>
      var out := EnsureCommit(s.db, plan);
      if out.Err? then s
      else Remember(s.(db := out.value.0), HasRevision(plan.deployment, out.value.1))
    case (RolloutStart(_), HasRevision(d, number)) => Commit(s, StartRollout(s.db, d, number))
    case (EvaluateSecond(_, metrics), Judges(evaluation, thresholds)) =>
      var out := R.FinishEvaluation(s.db.registry, evaluation, metrics, thresholds);
      if out.Err? then s else s.(db := s.db.(registry := out.value))
    case (WriteReady(_), SawDeployment(d, row)) => Commit(s, MarkReady(s.db, d, row))
    case (WriteStatus(_, status), SawDeployment(d, row)) =>
      var out := MoveDeployment(s.db, d, row, status);
      if out.Err? then s
      else Remember(s.(db := out.value), SawDeployment(d, row.(status := status)))
    case (WriteDeleted(_), SawDeployment(d, row)) => Commit(s, FinishDelete(s.db, d, row))
    case (WriteProgress(_), SawRollout(r, seen)) => Commit(s, ProgressRollout(s.db, r, seen))
    case (WriteSuccess(_), SawRollout(r, seen)) => Commit(s, SucceedRollout(s.db, r, seen))
    case (WriteRollBack(_), SawRollout(r, seen)) => Commit(s, RollBackRollout(s.db, r, seen))
    case (WriteProject(_, status), SawProject(p, was)) =>
      var out := MoveProject(s.db, p, was, status);
      if out.Err? then s
      else Remember(s.(db := out.value), SawProject(p, was.(status := status)))
    case (WriteNote(_), SawProject(p, was)) => Commit(s, NoteProject(s.db, p, was))
    case _ => s
  }

  function Run(s: Sys, events: seq<Event>): Sys
    decreases |events|
  {
    if events == [] then s else Run(Apply(s, events[0]), events[1..])
  }

  /******* Fresh writes *******/

  predicate Continues(e: Event) {
    e.DeploySecond? || e.EnsureSecond? || e.RolloutStart? || e.EvaluateSecond?
    || e.WriteReady? || e.WriteStatus? || e.WriteDeleted? || e.WriteProject? || e.WriteNote?
    || e.WriteProgress? || e.WriteSuccess? || e.WriteRollBack?
  }

  // A reconciler write is fresh when the columns it writes back beside the status still hold what it read.
  ghost predicate FreshWrite(db: Db, e: Event, op: Op) {
    match (e, op)
    case (WriteReady(_), SawDeployment(d, row)) => FreshDeployment(db, d, row)
    case (WriteStatus(_, _), SawDeployment(d, row)) => FreshDeployment(db, d, row)
    case (WriteProject(_, _), SawProject(p, was)) => FreshProject(db, p, was)
    case (WriteNote(_), SawProject(p, was)) => FreshProject(db, p, was)
    case (WriteProgress(_), SawRollout(r, seen)) => FreshRollout(db, r, seen)
    case (WriteSuccess(_), SawRollout(r, seen)) => FreshRollout(db, r, seen)
    case _ => true
  }

  ghost predicate Fresh(s: Sys, e: Event) {
    Continues(e) && e.op < |s.ops| ==> FreshWrite(s.db, e, s.ops[e.op])
  }

  ghost predicate FreshRollout(db: Db, r: nat, seen: Rollout) {
    r < |db.rollouts| ==> db.rollouts[r].abort == seen.abort
  }

  ghost predicate FreshRun(s: Sys, events: seq<Event>)
    decreases |events|
  {
    events != [] ==> Fresh(s, events[0]) && FreshRun(Apply(s, events[0]), events[1..])
  }

  /******* Soundness of whole runs *******/

  // The identity of a rollout never changes, so what was read of it stays true.
  ghost predicate RolloutIsKnown(db: Db, r: nat, seen: Rollout) {
    r < |db.rollouts| && seen == db.rollouts[r].(status := seen.status, abort := seen.abort)
  }

  ghost predicate RemembersRollouts(s: Sys) {
    forall k | 0 <= k < |s.ops| && s.ops[k].SawRollout? :: RolloutIsKnown(s.db, s.ops[k].rollout, s.ops[k].seen)
  }

  ghost predicate RemembersDeployments(s: Sys) {
    forall k | 0 <= k < |s.ops| && s.ops[k].SawDeployment? :: RowIsKnown(s.db, s.ops[k].deployment, s.ops[k].row)
  }

  ghost predicate SysSound(s: Sys) {
    Sound(s.db) && RemembersRollouts(s) && RemembersDeployments(s)
  }

  ghost predicate OpIsKnown(db: Db, op: Op) {
    && (op.SawRollout? ==> RolloutIsKnown(db, op.rollout, op.seen))
    && (op.SawDeployment? ==> RowIsKnown(db, op.deployment, op.row))
  }

  // A step from one sound state to another.
  ghost predicate Follows(s: Sys, t: Sys) {
    SysSound(t) && Grows(s.db, t.db)
  }

  ghost predicate FollowsInQuota(s: Sys, t: Sys) {
    Follows(s, t) && KeepsQuotas(s.db, t.db)
  }

  /******* One step *******/

  // A step that commits new rows and remembers operations about rows it has seen.
  lemma Moved(s: Sys, db: Db, ops: seq<Op>)
    requires SysSound(s) && Sound(db) && Grows(s.db, db)
    requires forall k | 0 <= k < |ops| :: OpIsKnown(db, ops[k])
    ensures Follows(s, Sys(db, s.ops + ops))
  {
    var t := Sys(db, s.ops + ops);
    forall k | 0 <= k < |t.ops| ensures OpIsKnown(db, t.ops[k]) {
      if k < |s.ops| {
        assert OpIsKnown(s.db, s.ops[k]);
      } else {
        assert t.ops[k] == ops[k - |s.ops|];
      }
    }
    forall k | 0 <= k < |t.ops| && t.ops[k].SawRollout? ensures RolloutIsKnown(db, t.ops[k].rollout, t.ops[k].seen) {
      assert OpIsKnown(db, t.ops[k]);
    }
    forall k | 0 <= k < |t.ops| && t.ops[k].SawDeployment? ensures RowIsKnown(db, t.ops[k].deployment, t.ops[k].row) {
      assert OpIsKnown(db, t.ops[k]);
    }
  }

  lemma Written(s: Sys, out: Result<Db>)
    requires SysSound(s)
    requires out.Ok? ==> Sound(out.value) && Grows(s.db, out.value)
    ensures Follows(s, Commit(s, out))
  {
    if out.Ok? {
      Moved(s, out.value, []);
      assert s.ops + [] == s.ops;
    } else {
      Idle(s);
    }
  }

  lemma Committed(s: Sys, out: Result<Db>)
    requires SysSound(s) && Keeps(s.db, out)
    requires out.Ok? ==> Grows(s.db, out.value)
    ensures FollowsInQuota(s, Commit(s, out))
  {
    Written(s, out);
  }

  // Nothing happens.
  lemma Idle(s: Sys)
    ensures Grows(s.db, s.db) && KeepsQuotas(s.db, s.db)
  {
    SameHistoriesGrow(s.db, s.db);
  }

  function WithProject(db: Db): Db {
    db.(projects := db.projects + [Project(PPending, 0)])
  }

  lemma AddProjectKeeps(db: Db)
    requires Sound(db)
    ensures Keeps(db, Ok(WithProject(db)))
  {
    var after := WithProject(db);
    forall r | 0 <= r < |after.rollouts| ensures Names(after.rollouts[r], after) {
      assert Names(db.rollouts[r], db);
    }
    NobodyUses(db, |db.projects|, |db.deployments|);
    forall p: nat ensures GpusInUse(after, p, None) == GpusInUse(db, p, None) {
      QuotaIsNotAHolding(db, after, p, |db.deployments|);
    }
  }

  lemma {:induction false} NobodyUses(db: Db, project: nat, n: nat)
    requires n <= |db.deployments|
    requires forall d | 0 <= d < n :: db.deployments[d].project != project
    ensures GpusOfFirst(db, project, None, n) == 0
  {
    if n > 0 {
      NobodyUses(db, project, n - 1);
    }
  }

  lemma AddModelKeeps(db: Db, model: Model)
    requires Sound(db)
    ensures Keeps(db, AddModelRow(db, model))
  {
    if AddModelRow(db, model).Ok? {
      var after := AddModelRow(db, model).value;
      forall r | 0 <= r < |after.rollouts| ensures Names(after.rollouts[r], after) {
        assert Names(db.rollouts[r], db);
      }
      forall p: nat ensures GpusInUse(after, p, None) == GpusInUse(db, p, None) {
        QuotaIsNotAHolding(db, after, p, |db.deployments|);
      }
    }
  }

  lemma AddProjectStep(s: Sys)
    requires SysSound(s)
    ensures FollowsInQuota(s, Apply(s, AddProject))
  {
    AddProjectKeeps(s.db);
    SameHistoriesGrow(s.db, WithProject(s.db));
    Committed(s, Ok(WithProject(s.db)));
  }

  lemma AddModelStep(s: Sys, model: Model)
    requires SysSound(s)
    ensures FollowsInQuota(s, Apply(s, AddModel(model)))
  {
    AddModelKeeps(s.db, model);
    Committed(s, AddModelRow(s.db, model));
  }

  lemma AddVersionStep(s: Sys, model: nat)
    requires SysSound(s)
    ensures FollowsInQuota(s, Apply(s, AddVersion(model)))
  {
    var out := RegisterVersion(s.db, model);
    if out.Ok? {
      R.RegisterKeepsValid(s.db.registry, model, s.db.models[model].Function?);
      RegistryKeeps(s.db, out.value);
      RegistryAloneGrows(s.db, out.value);
    }
    Committed(s, out);
  }

  lemma AddDeploymentStep(s: Sys, p: nat)
    requires SysSound(s)
    ensures FollowsInQuota(s, Apply(s, AddDeployment(p)))
  {
    CreateKeeps(s.db, p);
    Committed(s, CreateDeployment(s.db, p));
  }

  lemma ChangeQuotaStep(s: Sys, p: nat, gpus: int)
    requires SysSound(s)
    ensures FollowsInQuota(s, Apply(s, ChangeQuota(p, gpus)))
  {
    SetGpuQuotaKeeps(s.db, p, gpus);
    Committed(s, SetGpuQuota(s.db, p, gpus));
  }

  lemma DeleteStep(s: Sys, d: nat)
    requires SysSound(s)
    ensures FollowsInQuota(s, Apply(s, Delete(d)))
  {
    RequestDeleteKeeps(s.db, d);
    RequestDeleteGrows(s.db, d);
    Committed(s, RequestDelete(s.db, d));
  }

  lemma RollBackStep(s: Sys, d: nat, to: Option<nat>)
    requires SysSound(s)
    ensures FollowsInQuota(s, Apply(s, RollBack(d, to)))
  {
    RollbackKeeps(s.db, d, to);
    RollbackGrows(s.db, d, to);
    Committed(s, Rollback(s.db, d, to));
  }

  lemma DeleteProjectStep(s: Sys, p: nat)
    requires SysSound(s)
    ensures FollowsInQuota(s, Apply(s, DeleteProject(p)))
  {
    RequestProjectDeleteKeeps(s.db, p);
    if RequestProjectDelete(s.db, p).Ok? {
      SameHistoriesGrow(s.db, RequestProjectDelete(s.db, p).value);
    }
    Committed(s, RequestProjectDelete(s.db, p));
  }

  lemma AbortStep(s: Sys, r: nat)
    requires SysSound(s)
    ensures FollowsInQuota(s, Apply(s, RolloutAbort(r)))
  {
    AbortKeeps(s.db, r);
    AbortGrows(s.db, r);
    Committed(s, Abort(s.db, r));
  }

  lemma PromoteStep(s: Sys, v: nat)
    requires SysSound(s)
    ensures FollowsInQuota(s, Apply(s, PromoteVersion(v)))
  {
    PromoteByHandKeeps(s.db, v);
    PromoteByHandGrows(s.db, v);
    Committed(s, PromoteByHand(s.db, v));
  }

  lemma EvaluateFirstStep(s: Sys, v: nat, thresholds: map<string, R.Threshold>)
    requires SysSound(s)
    ensures FollowsInQuota(s, Apply(s, EvaluateFirst(v, thresholds)))
  {
    R.StartKeepsValid(s.db.registry, v, thresholds);
    StartEvaluationGrows(s.db.registry, v, thresholds);
    var out := R.StartEvaluation(s.db.registry, v, thresholds);
    if out.Ok? {
      var db := s.db.(registry := out.value.0);
      RegistryKeeps(s.db, db);
      RegistryAloneGrows(s.db, db);
      Moved(s, db, [Judges(out.value.1, thresholds)]);
    } else {
      Idle(s);
    }
  }

  // Something is remembered and nothing else changes.
  lemma ReadStep(s: Sys, e: Event)
    requires SysSound(s)
    requires e.DeployFirst? || e.EnsureFirst? || e.ReadDeployment? || e.ReadRollout? || e.ReadProject?
    ensures FollowsInQuota(s, Apply(s, e))
  {
    Idle(s);
    if Apply(s, e) != s {
      var op := ReadsOne(s, e);
      Moved(s, s.db, [op]);
    }
  }

  lemma ReadsOne(s: Sys, e: Event) returns (op: Op)
    requires SysSound(s)
    requires e.DeployFirst? || e.EnsureFirst? || e.ReadDeployment? || e.ReadRollout? || e.ReadProject?
    requires Apply(s, e) != s
    ensures Apply(s, e) == Remember(s, op) && OpIsKnown(s.db, op)
  {
    op := Apply(s, e).ops[|s.ops|];
  }

  lemma DeploySecondStep(s: Sys, e: Event, plan: Plan)
    requires SysSound(s) && e.DeploySecond?
    ensures FollowsInQuota(s, Continue(s, e, Deploys(plan)))
  {
    DeployCommitKeeps(s.db, plan);
    DeployCommitGrows(s.db, plan);
    Committed(s, DeployCommit(s.db, plan));
  }

  lemma EnsureSecondStep(s: Sys, e: Event, plan: Plan)
    requires SysSound(s) && e.EnsureSecond?
    ensures FollowsInQuota(s, Continue(s, e, Ensures(plan)))
  {
    EnsureCommitKeeps(s.db, plan);
    EnsureCommitGrows(s.db, plan);
    var out := EnsureCommit(s.db, plan);
    if out.Ok? {
      Moved(s, out.value.0, [HasRevision(plan.deployment, out.value.1)]);
    } else {
      Idle(s);
    }
  }

  lemma RolloutStartStep(s: Sys, e: Event, d: nat, number: nat)
    requires SysSound(s) && e.RolloutStart?
    ensures FollowsInQuota(s, Continue(s, e, HasRevision(d, number)))
  {
    var out := StartRollout(s.db, d, number);
    assert Continue(s, e, HasRevision(d, number)) == Commit(s, out);
    assert Keeps(s.db, out) by { StartRolloutKeeps(s.db, d, number); }
    assert out.Ok? ==> Grows(s.db, out.value) by { StartRolloutGrows(s.db, d, number); }
    Committed(s, out);
  }

  lemma EvaluateSecondStep(s: Sys, e: Event, evaluation: nat, thresholds: map<string, R.Threshold>)
    requires SysSound(s) && e.EvaluateSecond?
    ensures FollowsInQuota(s, Continue(s, e, Judges(evaluation, thresholds)))
  {
    R.FinishKeepsValid(s.db.registry, evaluation, e.metrics, thresholds);
    FinishEvaluationGrows(s.db.registry, evaluation, e.metrics, thresholds);
    var out := R.FinishEvaluation(s.db.registry, evaluation, e.metrics, thresholds);
    if out.Ok? {
      var db := s.db.(registry := out.value);
      RegistryKeeps(s.db, db);
      RegistryAloneGrows(s.db, db);
      Committed(s, Ok(db));
    } else {
      Idle(s);
    }
  }

  /******* Writes of reconcilers, fresh or stale *******/

  lemma ReadyStep(s: Sys, e: Event, d: nat, row: Deployment)
    requires SysSound(s) && e.WriteReady? && RowIsKnown(s.db, d, row)
    ensures Follows(s, Continue(s, e, SawDeployment(d, row)))
  {
    var out := MarkReady(s.db, d, row);
    assert Continue(s, e, SawDeployment(d, row)) == Commit(s, out);
    if out.Ok? {
      var written := row.(status := Ready, active := row.desired);
      ReconcilerWriteIsSound(s.db, d, row.status, written);
      DeploymentWriteGrows(s.db, d, row.status, written);
    }
    Written(s, out);
  }

  lemma StatusStep(s: Sys, e: Event, d: nat, row: Deployment)
    requires SysSound(s) && e.WriteStatus? && RowIsKnown(s.db, d, row)
    ensures Follows(s, Continue(s, e, SawDeployment(d, row)))
  {
    var out := MoveDeployment(s.db, d, row, e.status);
    if out.Ok? {
      var written := row.(status := e.status);
      ReconcilerWriteIsSound(s.db, d, row.status, written);
      DeploymentWriteGrows(s.db, d, row.status, written);
      Moved(s, out.value, [SawDeployment(d, written)]);
    } else {
      Idle(s);
    }
  }

  lemma DeletedStep(s: Sys, e: Event, d: nat, row: Deployment)
    requires SysSound(s) && e.WriteDeleted?
    ensures FollowsInQuota(s, Continue(s, e, SawDeployment(d, row)))
  {
    var out := FinishDelete(s.db, d, row);
    assert Continue(s, e, SawDeployment(d, row)) == Commit(s, out);
    assert Keeps(s.db, out) by { FinishDeleteKeeps(s.db, d, row); }
    if out.Ok? {
      DeploymentWriteGrows(s.db, d, Deleting, row.(status := Deleted, desired := None, active := None));
    }
    Committed(s, out);
  }

  lemma ProjectWriteStep(s: Sys, e: Event, p: nat, was: Project)
    requires SysSound(s) && e.WriteProject?
    ensures Follows(s, Continue(s, e, SawProject(p, was)))
  {
    var row := was.(status := e.pstatus);
    var out := MoveProject(s.db, p, was, e.pstatus);
    if out.Ok? {
      assert Sound(out.value) by { WriteProjectExactly(s.db, p, was.status, row); }
      SameHistoriesGrow(s.db, out.value);
      Moved(s, out.value, [SawProject(p, row)]);
    } else {
      Idle(s);
    }
  }

  lemma NoteStep(s: Sys, e: Event, p: nat, was: Project)
    requires SysSound(s) && e.WriteNote?
    ensures Follows(s, Continue(s, e, SawProject(p, was)))
  {
    var out := NoteProject(s.db, p, was);
    assert Continue(s, e, SawProject(p, was)) == Commit(s, out);
    if out.Ok? {
      assert Sound(out.value) by { WriteProjectExactly(s.db, p, was.status, was); }
      SameHistoriesGrow(s.db, out.value);
    }
    Written(s, out);
  }

  lemma ProgressStep(s: Sys, e: Event, r: nat, seen: Rollout)
    requires SysSound(s) && e.WriteProgress?
    ensures FollowsInQuota(s, Continue(s, e, SawRollout(r, seen)))
  {
    var out := ProgressRollout(s.db, r, seen);
    assert Continue(s, e, SawRollout(r, seen)) == Commit(s, out);
    assert Keeps(s.db, out) by { ProgressKeeps(s.db, r, seen); }
    assert out.Ok? ==> Grows(s.db, out.value) by { ProgressGrows(s.db, r, seen); }
    Committed(s, out);
  }

  lemma SuccessStep(s: Sys, e: Event, r: nat, seen: Rollout)
    requires SysSound(s) && e.WriteSuccess? && RolloutIsKnown(s.db, r, seen)
    ensures FollowsInQuota(s, Continue(s, e, SawRollout(r, seen)))
  {
    var out := SucceedRollout(s.db, r, seen);
    assert Continue(s, e, SawRollout(r, seen)) == Commit(s, out);
    assert Keeps(s.db, out) by { SucceedKeeps(s.db, r, seen); }
    assert out.Ok? ==> Grows(s.db, out.value) by { SucceedGrows(s.db, r, seen); }
    Committed(s, out);
  }

  lemma WriteRollBackStep(s: Sys, e: Event, r: nat, seen: Rollout)
    requires SysSound(s) && e.WriteRollBack?
    ensures FollowsInQuota(s, Continue(s, e, SawRollout(r, seen)))
  {
    var out := RollBackRollout(s.db, r, seen);
    assert Continue(s, e, SawRollout(r, seen)) == Commit(s, out);
    assert Keeps(s.db, out) by { RollBackRolloutKeeps(s.db, r, seen); }
    assert out.Ok? ==> Grows(s.db, out.value) by { RollBackRolloutGrows(s.db, r, seen); }
    Committed(s, out);
  }

  // Whether an event continues an operation of this kind.
  predicate Fits(e: Event, op: Op) {
    match op
    case Deploys(_) => e.DeploySecond?
    case Ensures(_) => e.EnsureSecond?
    case HasRevision(_, _) => e.RolloutStart?
    case Judges(_, _) => e.EvaluateSecond?
    case SawDeployment(_, _) => e.WriteReady? || e.WriteStatus? || e.WriteDeleted?
    case SawProject(_, _) => e.WriteProject? || e.WriteNote?
    case SawRollout(_, _) => e.WriteProgress? || e.WriteSuccess? || e.WriteRollBack?
  }

  lemma OtherwiseIdle(s: Sys, e: Event, op: Op)
    requires Continues(e) && !Fits(e, op)
    ensures Continue(s, e, op) == s
  {
  }

  // The writes that put back numbers the quota depends on.
  predicate WritesBack(e: Event) {
    e.WriteReady? || e.WriteStatus? || e.WriteProject? || e.WriteNote?
  }

  lemma WriteBackStep(s: Sys, e: Event, op: Op)
    requires SysSound(s) && WritesBack(e) && e.op < |s.ops| && op == s.ops[e.op]
    ensures Follows(s, Continue(s, e, op))
  {
    if !Fits(e, op) {
      OtherwiseIdle(s, e, op);
      Idle(s);
    } else {
      match op
      case SawDeployment(d, row) =>
        if e.WriteReady? {
          ReadyStep(s, e, d, row);
        } else {
          StatusStep(s, e, d, row);
        }
      case SawProject(p, was) =>
        if e.WriteProject? {
          ProjectWriteStep(s, e, p, was);
        } else {
          NoteStep(s, e, p, was);
        }
    }
  }

  lemma ContinueStep(s: Sys, e: Event, op: Op)
    requires SysSound(s) && Continues(e) && !WritesBack(e) && e.op < |s.ops| && op == s.ops[e.op]
    ensures FollowsInQuota(s, Continue(s, e, op))
  {
    if !Fits(e, op) {
      OtherwiseIdle(s, e, op);
      Idle(s);
    } else {
      match op
      case Deploys(plan) => DeploySecondStep(s, e, plan);
      case Ensures(plan) => EnsureSecondStep(s, e, plan);
      case HasRevision(d, number) => RolloutStartStep(s, e, d, number);
      case Judges(evaluation, thresholds) => EvaluateSecondStep(s, e, evaluation, thresholds);
      case SawDeployment(d, row) => DeletedStep(s, e, d, row);
      case SawRollout(r, seen) =>
        if e.WriteProgress? {
          ProgressStep(s, e, r, seen);
        } else if e.WriteSuccess? {
          SuccessStep(s, e, r, seen);
        } else {
          WriteRollBackStep(s, e, r, seen);
        }
    }
  }

  lemma ApplyContinues(s: Sys, e: Event)
    requires Continues(e)
    ensures Apply(s, e) == if |s.ops| <= e.op then s else Continue(s, e, s.ops[e.op])
  {
  }

  lemma RequestStep(s: Sys, e: Event)
    requires SysSound(s) && !Continues(e)
    ensures FollowsInQuota(s, Apply(s, e))
  {
    match e
    case AddProject => AddProjectStep(s);
    case AddModel(model) => AddModelStep(s, model);
    case AddVersion(model) => AddVersionStep(s, model);
    case AddDeployment(p) => AddDeploymentStep(s, p);
    case ChangeQuota(p, gpus) => ChangeQuotaStep(s, p, gpus);
    case Delete(d) => DeleteStep(s, d);
    case DeleteProject(p) => DeleteProjectStep(s, p);
    case RollBack(d, to) => RollBackStep(s, d, to);
    case RolloutAbort(r) => AbortStep(s, r);
    case PromoteVersion(v) => PromoteStep(s, v);
    case EvaluateFirst(v, thresholds) => EvaluateFirstStep(s, v, thresholds);
    case DeployFirst(_, _) => ReadStep(s, e);
    case EnsureFirst(_, _) => ReadStep(s, e);
    case ReadDeployment(_) => ReadStep(s, e);
    case ReadRollout(_) => ReadStep(s, e);
    case ReadProject(_) => ReadStep(s, e);
  }

  /** Any step from a sound state, a stale write of a reconciler included, leads to a sound state and only
      adds to the histories. A step other than a write that puts back a deployment's revisions or a project's
      quota takes no project out of its quota. */
  lemma Step(s: Sys, e: Event)
    requires SysSound(s)
    ensures Follows(s, Apply(s, e))
    ensures !WritesBack(e) ==> KeepsQuotas(s.db, Apply(s, e).db)
  {
    if Continues(e) {
      ApplyContinues(s, e);
      if |s.ops| <= e.op {
        Idle(s);
      } else if WritesBack(e) {
        WriteBackStep(s, e, s.ops[e.op]);
      } else {
        ContinueStep(s, e, s.ops[e.op]);
      }
    } else {
      RequestStep(s, e);
    }
  }

  /** However transactions interleave and whatever reconcilers write back, champions, evaluations, promotion
      logs, revision histories and reservations stay sound, and the histories only grow. */
  lemma {:induction false} RunIsSafe(s: Sys, events: seq<Event>)
    requires SysSound(s)
    ensures Follows(s, Run(s, events))
    decreases |events|
  {
    if events == [] {
      Idle(s);
    } else {
      Step(s, events[0]);
      RunIsSafe(Apply(s, events[0]), events[1..]);
      GrowsTransitively(s.db, Apply(s, events[0]).db, Run(s, events).db);
    }
  }

  lemma EmptyIsSound()
    ensures SysSound(Empty) && WithinQuota(Empty.db)
  {
  }

  lemma EveryReachableStateIsSafe(events: seq<Event>)
    ensures Sound(Run(Empty, events).db)
  {
    EmptyIsSound();
    RunIsSafe(Empty, events);
  }
}
