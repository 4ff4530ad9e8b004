/** Projects, deployments, immutable revisions and canary rollouts: every database transaction as a
    function from the rows it reads to the rows it commits. A transaction that raises commits nothing. */
module Serving {
  import opened Wrappers
  import R = Registry

  datatype ProjectStatus = PPending | PProvisioning | PReady | PDrifted | PFailed | PDeleting | PDeleted

  datatype DeploymentStatus = Pending | Deploying | Ready | Degraded | Failed | Deleting | Deleted

  datatype RolloutStatus = Waiting | Progressing | Succeeded | RolledBack

  datatype Runtime = Mlflow | HuggingFace | Container

  datatype Project = Project(status: ProjectStatus, quota: nat)

  // Only a language model is served with GPUs.
  datatype Model = Classic(project: nat) | Llm(project: nat, gpus: nat, maxScale: nat) | Function(project: nat)

  // Never modified; its number is one more than its position in the deployment's list.
  datatype Revision = Revision(version: nat, runtime: Runtime, gpus: nat, maxScale: nat)

  datatype Deployment = Deployment(
    project: nat,
    status: DeploymentStatus,
    desired: Option<nat>,
    active: Option<nat>,
    revisions: seq<Revision>)

  datatype Rollout = Rollout(deployment: nat, from: nat, to: nat, version: nat, status: RolloutStatus, abort: bool)

  // Tables in creation order; a row's id is its position.
  datatype Db = Db(
    projects: seq<Project>,
    models: seq<Model>,
    deployments: seq<Deployment>,
    rollouts: seq<Rollout>,
    registry: R.Registry)

  // What the first transaction of a deploy hands to the second one.
  datatype Plan = Plan(deployment: nat, version: nat, runtime: Runtime, gpus: nat, maxScale: nat)

  /******* State machines *******/

  predicate CanMove(source: DeploymentStatus, target: DeploymentStatus) {
    match source
    case Pending => target == Deploying || target == Deleting
    case Deploying => target == Ready || target == Failed || target == Deleting
    case Ready => target == Deleting || target == Degraded || target == Failed || target == Deploying
    case Degraded => target == Deleting || target == Ready || target == Failed || target == Deploying
    case Failed => target == Deploying || target == Deleting
    case Deleting => target == Deleted
    case Deleted => false
  }

  predicate CanMoveProject(source: ProjectStatus, target: ProjectStatus) {
    match source
    case PPending => target == PProvisioning || target == PDeleting
    case PProvisioning => target == PReady || target == PFailed || target == PDeleting
    case PReady => target == PDrifted || target == PDeleting
    case PDrifted => target == PProvisioning || target == PDeleting
    case PFailed => target == PProvisioning || target == PDeleting
    case PDeleting => target == PDeleted || target == PFailed
    case PDeleted => false
  }

  predicate Gone(d: Deployment) {
    d.status == Deleting || d.status == Deleted
  }

  predicate InFlight(r: Rollout) {
    r.status == Waiting || r.status == Progressing
  }

  /******* Lookups *******/

  function FirstInFlight(rollouts: seq<Rollout>, wanted: Rollout -> bool): (r: Option<nat>)
    ensures r.Some? ==> r.value < |rollouts| && InFlight(rollouts[r.value]) && wanted(rollouts[r.value])
    ensures r.None? ==> forall k | 0 <= k < |rollouts| :: InFlight(rollouts[k]) ==> !wanted(rollouts[k])
  {
    if rollouts == [] then
      None
    else
      var last := |rollouts| - 1;
      match FirstInFlight(rollouts[..last], wanted)
      case Some(k) => Some(k)
      case None =>
        assert forall k | 0 <= k < last :: rollouts[k] == rollouts[..last][k];
        if InFlight(rollouts[last]) && wanted(rollouts[last]) then Some(last) else None
  }

  function ActiveRollout(db: Db, d: nat): Option<nat> {
    FirstInFlight(db.rollouts, (r: Rollout) => r.deployment == d)
  }

  function ActiveByVersion(db: Db, v: nat): Option<nat> {
    FirstInFlight(db.rollouts, (r: Rollout) => r.version == v)
  }

  // (runtime, GPUs, replicas) a new revision of a model is served with.
  function ServingOf(model: Model): (Runtime, nat, nat) {
    match model
    case Classic(_) => (Mlflow, 0, 1)
    case Llm(_, gpus, maxScale) => (HuggingFace, gpus, maxScale)
    case Function(_) => (Container, 0, 1)
  }

  function Find(revisions: seq<Revision>, version: nat): (r: Option<nat>)
    ensures r.Some? ==> 1 <= r.value <= |revisions| && revisions[r.value - 1].version == version
    ensures r.None? ==> forall k | 0 <= k < |revisions| :: revisions[k].version != version
  {
    if revisions == [] then
      None
    else
      var last := |revisions| - 1;
      match Find(revisions[..last], version)
      case Some(n) => Some(n)
      case None =>
        assert forall k | 0 <= k < last :: revisions[k] == revisions[..last][k];
        if revisions[last].version == version then Some(last + 1) else None
  }

  /******* GPU accounting *******/

  function Gpus(r: Revision): nat {
    r.gpus * r.maxScale
  }

  function Number(n: Option<nat>): set<nat> {
    if n.Some? then {n.value} else {}
  }

  // The revision numbers a deployment would hold GPUs for, were these its pointers; an overlap is one number.
  function HeldWith(db: Db, d: nat, active: Option<nat>, desired: Option<nat>): set<nat> {
    var own := Number(active) + Number(desired);
    match ActiveRollout(db, d)
    case None => own
    case Some(r) => own + {db.rollouts[r].from, db.rollouts[r].to}
  }

  // The revision numbers a deployment holds GPUs for.
  function Held(db: Db, d: nat): set<nat>
    requires d < |db.deployments|
  {
    HeldWith(db, d, db.deployments[d].active, db.deployments[d].desired)
  }

  // GPUs of the revisions whose numbers are held; a number without a revision costs nothing.
  function HeldCost(revisions: seq<Revision>, held: set<nat>): nat {
    if revisions == [] then 0
    else
      var last := |revisions| - 1;
      HeldCost(revisions[..last], held) + (if |revisions| in held then Gpus(revisions[last]) else 0)
  }

  function HeldGpus(db: Db, d: nat, incoming: set<nat>): nat
    requires d < |db.deployments|
  {
    HeldCost(db.deployments[d].revisions, Held(db, d) + incoming)
  }

  function GpusOfFirst(db: Db, project: nat, besides: Option<nat>, n: nat): nat
    requires n <= |db.deployments|
  {
    if n == 0 then 0
    else
      GpusOfFirst(db, project, besides, n - 1)
      + (if db.deployments[n - 1].project == project && besides != Some(n - 1) then HeldGpus(db, n - 1, {}) else 0)
  }

  function GpusInUse(db: Db, project: nat, besides: Option<nat>): nat {
    GpusOfFirst(db, project, besides, |db.deployments|)
  }

  // The quota test of every deploy, canary start and rollback, with its shortcut.
  predicate CheckGpus(db: Db, d: nat, need: nat)
    requires d < |db.deployments| && db.deployments[d].project < |db.projects|
  {
    var project := db.deployments[d].project;
    need == 0 || GpusInUse(db, project, Some(d)) + need <= db.projects[project].quota
  }

  /******* Deployments and revisions *******/

  function CreateDeployment(db: Db, project: nat): Result<Db> {
    if |db.projects| <= project then Err(NotFound)
    else if db.projects[project].status != PReady then Err(Conflict)
    else Ok(db.(deployments := db.deployments + [Deployment(project, Pending, None, None, [])]))
  }

  // The lookups both first transactions share: a live deployment and a deployable version of a model
  // of the same project.
  function Lookup(db: Db, d: nat, v: nat): Result<Model> {
    if |db.deployments| <= d then Err(NotFound)
    else if Gone(db.deployments[d]) then Err(Conflict)
    else if |db.registry.versions| <= v || |db.models| <= db.registry.versions[v].model then Err(NotFound)
    else if db.models[db.registry.versions[v].model].project != db.deployments[d].project then Err(NotFound)
    else if !R.Deployable(db.registry.versions[v].status) then Err(Conflict)
    else Ok(db.models[db.registry.versions[v].model])
  }

  predicate IsLatest(d: Deployment, v: nat) {
    d.revisions != [] && d.revisions[|d.revisions| - 1].version == v
  }

  predicate SameKind(d: Deployment, runtime: Runtime) {
    d.revisions != [] ==> d.revisions[|d.revisions| - 1].runtime == runtime
  }

  // First transaction of a deploy: None when the version already is the latest revision.
  function DeployCheck(db: Db, d: nat, v: nat): Result<Option<Plan>> {
    var found := Lookup(db, d, v);
    if found.Err? then Err(found.error)
    else if IsLatest(db.deployments[d], v) then Ok(None)
    else
      var (runtime, gpus, maxScale) := ServingOf(found.value);
      if !SameKind(db.deployments[d], runtime) then Err(Conflict)
      else if |db.projects| <= db.deployments[d].project then Err(NotFound)
      else if !CheckGpus(db, d, gpus * maxScale + HeldGpus(db, d, {})) then Err(Conflict)
      else Ok(Some(Plan(d, v, runtime, gpus, maxScale)))
  }

  function Revise(plan: Plan): Revision {
    Revision(plan.version, plan.runtime, plan.gpus, plan.maxScale)
  }

  // Second transaction: everything is judged again under the locks.
  function DeployCommit(db: Db, plan: Plan): Result<Db> {
    var d := plan.deployment;
    if |db.deployments| <= d || |db.projects| <= db.deployments[d].project then Err(NotFound)
    else
      var row := db.deployments[d];
      if Gone(row) then Err(Conflict)
      else if |db.registry.versions| <= plan.version
        || !R.Deployable(db.registry.versions[plan.version].status)
      then Err(Conflict)
      else if IsLatest(row, plan.version) then Ok(db)
      else if !CheckGpus(db, d, Gpus(Revise(plan)) + HeldGpus(db, d, {})) then Err(Conflict)
      else
        var updated := row.(revisions := row.revisions
          + [Revise(plan)], desired := Some(|row.revisions| + 1), status := Deploying);
        Ok(db.(deployments := db.deployments[d := updated]))
  }

  datatype Ensured = Existing(number: nat) | Planned(plan: Plan)

  // First transaction of a canary: only the stable revision is counted next to the new one.
  function EnsureCheck(db: Db, d: nat, v: nat): Result<Ensured> {
    var found := Lookup(db, d, v);
    if found.Err? then Err(found.error)
    else
      var row := db.deployments[d];
      match Find(row.revisions, v)
      case Some(n) => Ok(Existing(n))
      case None =>
        var (runtime, gpus, maxScale) := ServingOf(found.value);
        if !SameKind(row, runtime) then Err(Conflict)
        else if |db.projects| <= row.project then Err(NotFound)
        else if !CheckGpus(db, d, gpus * maxScale + HeldCost(row.revisions, Number(row.active))) then Err(Conflict)
        else Ok(Planned(Plan(d, v, runtime, gpus, maxScale)))
  }

  // Second transaction: the revision exists afterwards, but nothing desires it.
  function EnsureCommit(db: Db, plan: Plan): Result<(Db, nat)> {
    var d := plan.deployment;
    if |db.deployments| <= d then Err(NotFound)
    else
      var row := db.deployments[d];
      if Gone(row) then Err(Conflict)
      else if |db.registry.versions| <= plan.version
        || !R.Deployable(db.registry.versions[plan.version].status)
      then Err(Conflict)
      else
        match Find(row.revisions, plan.version)
        case Some(n) => Ok((db, n))
        case None =>
          var updated := row.(revisions := row.revisions + [Revise(plan)]);
          Ok((db.(deployments := db.deployments[d := updated]), |row.revisions| + 1))
  }

  // The greatest revision number below n, if there is one.
  function Before(n: nat): Option<nat> {
    if n <= 1 then None else Some(n - 1)
  }

  function Rollback(db: Db, d: nat, to: Option<nat>): Result<Db> {
    if |db.deployments| <= d || |db.projects| <= db.deployments[d].project then Err(NotFound)
    else
      var row := db.deployments[d];
      if Gone(row) || ActiveRollout(db, d).Some? || row.active.None? then Err(Conflict)
      else
        var target := if to.Some? then to else Before(row.active.value);
        if target.None? || !(1 <= target.value <= |row.revisions|) then Err(Conflict)
        else if target == row.active && row.desired == row.active then Ok(db)
        else if !CheckGpus(db, d, HeldGpus(db, d, {target.value})) then Err(Conflict)
        else PointBack(db, d, target.value)
  }

  // The desired revision points back and the version it serves becomes champion again.
  function PointBack(db: Db, d: nat, target: nat): Result<Db>
    requires d < |db.deployments| && 1 <= target <= |db.deployments[d].revisions|
  {
    var row := db.deployments[d];
    var restoring := row.revisions[target - 1].version;
    if |db.registry.versions| <= restoring then Err(NotFound)
    else if db.registry.versions[restoring].status != R.Archived
      && db.registry.versions[restoring].status != R.Champion
    then Err(Conflict)
    else
      var registry := R.Restore(db.registry, restoring);
      if registry.Err? then Err(registry.error)
      else
        var updated := row.(desired := Some(target), status := Deploying);
        Ok(db.(deployments := db.deployments[d := updated], registry := registry.value))
  }

  function RequestDelete(db: Db, d: nat): Result<Db> {
    if |db.deployments| <= d then Err(NotFound)
    else if Gone(db.deployments[d]) then Ok(db)
    else if ActiveRollout(db, d).Some? then Err(Conflict)
    else Ok(db.(deployments := db.deployments[d := db.deployments[d].(status := Deleting)]))
  }

  const MAX_GPUS_PER_PROJECT := 64

  function SetGpuQuota(db: Db, project: nat, gpus: int): Result<Db> {
    if |db.projects| <= project then Err(NotFound)
    else if db.projects[project].quota == gpus then Ok(db)
    else if gpus < GpusInUse(db, project, None) then Err(Conflict)
    else if !(0 <= gpus <= MAX_GPUS_PER_PROJECT) then Err(InvalidArgument)
    else Ok(db.(projects := db.projects[project := db.projects[project].(quota := gpus)]))
  }

  function RequestProjectDelete(db: Db, project: nat): Result<Db> {
    if |db.projects| <= project then Err(NotFound)
    else if db.projects[project].status == PDeleting || db.projects[project].status == PDeleted then Ok(db)
    else Ok(db.(projects := db.projects[project := db.projects[project].(status := PDeleting)]))
  }

  /******* Rollouts *******/

  function StartRollout(db: Db, d: nat, number: nat): Result<Db> {
    if |db.deployments| <= d || |db.projects| <= db.deployments[d].project then Err(NotFound)
    else
      var row := db.deployments[d];
      if row.status != Ready || row.active.None? then Err(Conflict)
      else if !(1 <= number <= |row.revisions|) then Err(NotFound)
      else if !CheckGpus(db, d, HeldGpus(db, d, {number})) then Err(Conflict)
      else if row.desired != row.active || Some(number) == row.active then Err(Conflict)
      else if ActiveRollout(db, d).Some? then Err(Conflict)
      else
        var version := row.revisions[number - 1].version;
        if |db.registry.versions| <= version || !R.Deployable(db.registry.versions[version].status) then Err(Conflict)
        else if ActiveByVersion(db, version).Some? then Err(Conflict)
        else Ok(db.(rollouts := db.rollouts + [Rollout(d, row.active.value, number, version, Waiting, false)]))
  }

  function Abort(db: Db, r: nat): Result<Db> {
    if |db.rollouts| <= r then Err(NotFound)
    else
      var row := db.rollouts[r];
      if !InFlight(row) || row.abort then Ok(db)
      else
        var updated := if row.status == Waiting then row.(status := RolledBack) else row.(abort := true);
        Ok(db.(rollouts := db.rollouts[r := updated]))
  }

  // Promotion by hand: a rollout in flight owns the decision about its version.
  function PromoteByHand(db: Db, v: nat): Result<Db> {
    if |db.registry.versions| <= v then Err(NotFound)
    else if ActiveByVersion(db, v).Some? then Err(Conflict)
    else
      var registry := R.Promote(db.registry, v);
      if registry.Err? then Err(registry.error) else Ok(db.(registry := registry.value))
  }

  /******* Reconcilers: rows read in one transaction are written back in a later one *******/

  // The repository's update writes status, desired and active together, comparing only the status.
  function WriteDeployment(db: Db, d: nat, expected: DeploymentStatus, row: Deployment): Result<Db> {
    if |db.deployments| <= d then Err(NotFound)
    else if db.deployments[d].status != expected then Err(Conflict)
    else
      var written := db.deployments[d].(status := row.status, desired := row.desired, active := row.active);
      Ok(db.(deployments := db.deployments[d := written]))
  }

  // READY is recorded for the revision that was desired when the row was read.
  function MarkReady(db: Db, d: nat, seen: Deployment): Result<Db> {
    if seen.desired.None? || !CanMove(seen.status, Ready) then Err(Conflict)
    else WriteDeployment(db, d, seen.status, seen.(status := Ready, active := seen.desired))
  }

  // Drift, redeployment and failure: only the status is meant to change.
  function MoveDeployment(db: Db, d: nat, seen: Deployment, status: DeploymentStatus): Result<Db> {
    if !CanMove(seen.status, status)
      || (status != Degraded && status != Deploying && status != Failed)
    then Err(Conflict)
    else WriteDeployment(db, d, seen.status, seen.(status := status))
  }

  function FinishDelete(db: Db, d: nat, seen: Deployment): Result<Db> {
    if seen.status != Deleting then Err(Conflict)
    else WriteDeployment(db, d, Deleting, seen.(status := Deleted, desired := None, active := None))
  }

  // The rollout repository writes the abort flag back with the status.
  function WriteRollout(db: Db, r: nat, expected: RolloutStatus, row: Rollout): Result<Db> {
    if |db.rollouts| <= r then Err(NotFound)
    else if db.rollouts[r].status != expected then Err(Conflict)
    else Ok(db.(rollouts := db.rollouts[r := db.rollouts[r].(status := row.status, abort := row.abort)]))
  }

  function ProgressRollout(db: Db, r: nat, seen: Rollout): Result<Db> {
    if !InFlight(seen) || seen.abort then Err(Conflict)
    else WriteRollout(db, r, seen.status, seen.(status := Progressing))
  }

  // One transaction: the rollout is over, its canary is stable, its version is champion.
  function SucceedRollout(db: Db, r: nat, seen: Rollout): Result<Db> {
    if seen.status != Progressing || seen.abort then Err(Conflict)
    else
      var done := WriteRollout(db, r, Progressing, seen.(status := Succeeded));
      if done.Err? then done
      else if |db.deployments| <= seen.deployment then Err(NotFound)
      else
        var registry := R.Promote(db.registry, seen.version);
        if registry.Err? then Err(registry.error)
        else
          var moved := db.deployments[seen.deployment].(desired := Some(seen.to), active := Some(seen.to));
          Ok(done.value.(deployments := db.deployments[seen.deployment := moved], registry := registry.value))
  }

  function RollBackRollout(db: Db, r: nat, seen: Rollout): Result<Db> {
    if !InFlight(seen) then Err(Conflict)
    else
      var done := WriteRollout(db, r, seen.status, seen.(status := RolledBack));
      if done.Err? then done
      else
        var registry := R.RejectCandidate(db.registry, seen.version);
        if registry.Err? then Err(registry.error) else Ok(done.value.(registry := registry.value))
  }

  // The project repository writes the quota back with the status, comparing only the status.
  function WriteProject(db: Db, p: nat, expected: ProjectStatus, row: Project): Result<Db> {
    if |db.projects| <= p then Err(NotFound)
    else if db.projects[p].status != expected then Err(Conflict)
    else Ok(db.(projects := db.projects[p := row]))
  }

  function MoveProject(db: Db, p: nat, seen: Project, status: ProjectStatus): Result<Db> {
    if !CanMoveProject(seen.status, status) then Err(Conflict)
    else WriteProject(db, p, seen.status, seen.(status := status))
  }

  // Why a deletion is stuck is written down without a change of status.
  function NoteProject(db: Db, p: nat, seen: Project): Result<Db> {
    if seen.status != PDeleting then Err(Conflict) else WriteProject(db, p, PDeleting, seen)
  }
}
