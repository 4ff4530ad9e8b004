/** Exactly which runs keep a project's GPU quota, stale reconciler writes included. */
module Guards {
  import opened Wrappers
  import opened Serving
  import opened Quota
  import opened Growth
  import opened Runs

  /******* The condition on a write *******/

  // A deployment of the project is still in the status that was read.
  predicate IsCurrent(db: Db, p: nat, d: nat, seen: Deployment) {
    && d < |db.deployments| && db.deployments[d].project == p < |db.projects|
    && db.deployments[d].status == seen.status
  }

  // What it would hold with these pointers passes the test a deploy has to pass.
  predicate PointersFit(db: Db, d: nat, active: Option<nat>, desired: Option<nat>)
    requires d < |db.deployments| && db.deployments[d].project < |db.projects|
  {
    CheckGpus(db, d, HeldCost(db.deployments[d].revisions, HeldWith(db, d, active, desired)))
  }

  // The quota read covers what is in use, as a quota change has to.
  predicate QuotaFits(db: Db, p: nat, seen: Project) {
    p < |db.projects| && db.projects[p].status == seen.status ==> GpusInUse(db, p, None) <= seen.quota
  }

  // If the statuses let the write take place, what it puts back into rows of the project fits.
  predicate GuardedWrite(db: Db, p: nat, e: Event, op: Op) {
    match (e, op)
    case (WriteReady(_), SawDeployment(d, seen)) =>
      IsCurrent(db, p, d, seen) && seen.desired.Some? && CanMove(seen.status, Ready) ==>
        PointersFit(db, d, seen.desired, seen.desired)
    case (WriteStatus(_, status), SawDeployment(d, seen)) =>
      IsCurrent(db, p, d, seen) && CanMove(seen.status, status) && status in {Degraded, Deploying, Failed} ==>
        PointersFit(db, d, seen.active, seen.desired)
    case (WriteProject(_, status), SawProject(q, seen)) =>
      q == p && CanMoveProject(seen.status, status) ==> QuotaFits(db, p, seen)
    case (WriteNote(_), SawProject(q, seen)) => q == p && seen.status == PDeleting ==> QuotaFits(db, p, seen)
    case _ => true
  }

  predicate Guarded(s: Sys, p: nat, e: Event) {
    WritesBack(e) && e.op < |s.ops| ==> GuardedWrite(s.db, p, e, s.ops[e.op])
  }

  ghost predicate GuardedRun(s: Sys, p: nat, events: seq<Event>)
    decreases |events|
  {
    events != [] ==> Guarded(s, p, events[0]) && GuardedRun(Apply(s, events[0]), p, events[1..])
  }

  // The project is within its quota in every state of a run, from its creation on.
  ghost predicate AlwaysInQuota(s: Sys, p: nat, events: seq<Event>)
    decreases |events|
  {
    InQuota(s.db, p) && (events != [] ==> AlwaysInQuota(Apply(s, events[0]), p, events[1..]))
  }

  /******* One step *******/

  lemma DeploymentWriteIsExact(db: Db, p: nat, d: nat, seen: Deployment, row: Deployment)
    requires RowsExist(db) && InQuota(db, p) && WriteDeployment(db, d, seen.status, row).Ok?
    ensures InQuota(WriteDeployment(db, d, seen.status, row).value, p)
       <==> (IsCurrent(db, p, d, seen) ==> PointersFit(db, d, row.active, row.desired))
  {
    ReconcilerWriteExactly(db, d, seen.status, row);
  }

  lemma ReadyWrite(s: Sys, p: nat, e: Event, d: nat, seen: Deployment)
    requires SysSound(s) && InQuota(s.db, p) && e.WriteReady?
    ensures InQuota(Continue(s, e, SawDeployment(d, seen)).db, p) <==> GuardedWrite(s.db, p, e, SawDeployment(d, seen))
  {
    if MarkReady(s.db, d, seen).Ok? {
      DeploymentWriteIsExact(s.db, p, d, seen, seen.(status := Ready, active := seen.desired));
    }
  }

  lemma StatusWrite(s: Sys, p: nat, e: Event, d: nat, seen: Deployment)
    requires SysSound(s) && InQuota(s.db, p) && e.WriteStatus?
    ensures InQuota(Continue(s, e, SawDeployment(d, seen)).db, p) <==> GuardedWrite(s.db, p, e, SawDeployment(d, seen))
  {
    if MoveDeployment(s.db, d, seen, e.status).Ok? {
      DeploymentWriteIsExact(s.db, p, d, seen, seen.(status := e.status));
    }
  }

  lemma ProjectWrite(s: Sys, p: nat, e: Event, q: nat, seen: Project)
    requires SysSound(s) && InQuota(s.db, p) && (e.WriteProject? || e.WriteNote?)
    ensures InQuota(Continue(s, e, SawProject(q, seen)).db, p) <==> GuardedWrite(s.db, p, e, SawProject(q, seen))
  {
    var row := if e.WriteProject? then seen.(status := e.pstatus) else seen;
    if Serving.WriteProject(s.db, q, seen.status, row).Ok? {
      WriteProjectExactly(s.db, q, seen.status, row);
    }
  }

  lemma WriteExactly(s: Sys, p: nat, e: Event, op: Op)
    requires SysSound(s) && InQuota(s.db, p) && WritesBack(e)
    ensures InQuota(Continue(s, e, op).db, p) <==> GuardedWrite(s.db, p, e, op)
  {
    if !Fits(e, op) {
      OtherwiseIdle(s, e, op);
    } else if e.WriteReady? {
      ReadyWrite(s, p, e, op.deployment, op.row);
    } else if e.WriteStatus? {
      StatusWrite(s, p, e, op.deployment, op.row);
    } else {
      ProjectWrite(s, p, e, op.project, op.was);
    }
  }

  /** From any sound state, whatever other projects are doing: a step of any kind leaves a project within its
      quota exactly if it is no write of a reconciler, or one whose numbers for the project fit. */
  lemma StepExactly(s: Sys, p: nat, e: Event)
    requires SysSound(s) && InQuota(s.db, p)
    ensures InQuota(Apply(s, e).db, p) <==> Guarded(s, p, e)
  {
    if !WritesBack(e) {
      Step(s, e);
    } else {
      ApplyContinues(s, e);
      if e.op < |s.ops| {
        WriteExactly(s, p, e, s.ops[e.op]);
      }
    }
  }

  /******* Every run *******/

  /** From any sound state, a project stays within its quota in all states of a run exactly when each
      reconciler write of its rows would have passed the test a deploy or a quota change has to pass. Nothing
      else can exceed a quota, not even an excess elsewhere. */
  lemma {:induction false} QuotaHoldsExactlyIfGuarded(s: Sys, p: nat, events: seq<Event>)
    requires SysSound(s) && InQuota(s.db, p)
    ensures AlwaysInQuota(s, p, events) <==> GuardedRun(s, p, events)
    decreases |events|
  {
    if events != [] {
      var t := Apply(s, events[0]);
      StepExactly(s, p, events[0]);
      Step(s, events[0]);
      if Guarded(s, p, events[0]) {
        QuotaHoldsExactlyIfGuarded(t, p, events[1..]);
      } else {
        assert !AlwaysInQuota(t, p, events[1..]);
      }
    }
  }

  // A write of the project's own row or of one of its deployments.
  predicate Concerns(db: Db, p: nat, op: Op) {
    match op
    case SawDeployment(d, _) => d < |db.deployments| && db.deployments[d].project == p
    case SawProject(q, _) => q == p
    case _ => false
  }

  ghost predicate FreshFor(s: Sys, p: nat, e: Event) {
    WritesBack(e) && e.op < |s.ops| && Concerns(s.db, p, s.ops[e.op]) ==> FreshWrite(s.db, e, s.ops[e.op])
  }

  ghost predicate FreshRunFor(s: Sys, p: nat, events: seq<Event>)
    decreases |events|
  {
    events != [] ==> FreshFor(s, p, events[0]) && FreshRunFor(Apply(s, events[0]), p, events[1..])
  }

  lemma FreshDeploymentFits(db: Db, p: nat, e: Event, d: nat, seen: Deployment)
    requires Sound(db) && InQuota(db, p) && (e.WriteReady? || e.WriteStatus?)
    requires Concerns(db, p, SawDeployment(d, seen)) ==> FreshDeployment(db, d, seen)
    ensures GuardedWrite(db, p, e, SawDeployment(d, seen))
  {
    if IsCurrent(db, p, d, seen) {
      var active := if e.WriteReady? then seen.desired else seen.active;
      var revisions := db.deployments[d].revisions;
      HeldCostGrows(revisions, HeldWith(db, d, active, seen.desired), Held(db, d) + {});
      SplitOne(db, p, d, |db.deployments|);
    }
  }

  lemma FreshIsGuarded(s: Sys, p: nat, e: Event)
    requires SysSound(s) && InQuota(s.db, p) && FreshFor(s, p, e)
    ensures Guarded(s, p, e)
  {
    if WritesBack(e) && e.op < |s.ops| && (e.WriteReady? || e.WriteStatus?) && s.ops[e.op].SawDeployment? {
      FreshDeploymentFits(s.db, p, e, s.ops[e.op].deployment, s.ops[e.op].row);
    }
  }

  /** Runs whose writes of the project's rows are fresh are guarded, however stale all others are. */
  lemma {:induction false} FreshRunsAreGuarded(s: Sys, p: nat, events: seq<Event>)
    requires SysSound(s) && InQuota(s.db, p) && FreshRunFor(s, p, events)
    ensures GuardedRun(s, p, events)
    decreases |events|
  {
    if events != [] {
      FreshIsGuarded(s, p, events[0]);
      StepExactly(s, p, events[0]);
      Step(s, events[0]);
      FreshRunsAreGuarded(Apply(s, events[0]), p, events[1..]);
    }
  }

  /** In particular over every run of the platform from its start. */
  lemma QuotaHoldsFromTheStart(p: nat, events: seq<Event>)
    ensures AlwaysInQuota(Empty, p, events) <==> GuardedRun(Empty, p, events)
    ensures FreshRunFor(Empty, p, events) ==> AlwaysInQuota(Empty, p, events)
  {
    EmptyIsSound();
    QuotaHoldsExactlyIfGuarded(Empty, p, events);
    if FreshRunFor(Empty, p, events) {
      FreshRunsAreGuarded(Empty, p, events);
    }
  }
}
