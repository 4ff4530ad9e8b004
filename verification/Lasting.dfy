/** What survives every run by itself: from a state of which nothing else is known, through any steps, stale
    writes of reconcilers included. */
module Lasting {
  import opened Wrappers
  import opened Serving
  import opened Quota
  import opened Runs
  import R = Registry

  /******* The registry *******/

  lemma StepKeepsRegistry(s: Sys, e: Event)
    requires R.Valid(s.db.registry)
    ensures R.Valid(Apply(s, e).db.registry)
  {
    if Continues(e) {
      ApplyContinues(s, e);
      if e.op < |s.ops| {
        ContinueKeepsRegistry(s, e, s.ops[e.op]);
      }
    } else {
      RequestKeepsRegistry(s, e);
    }
  }

  lemma RequestKeepsRegistry(s: Sys, e: Event)
    requires R.Valid(s.db.registry) && !Continues(e)
    ensures R.Valid(Apply(s, e).db.registry)
  {
    match e
    case AddVersion(model) =>
      if model < |s.db.models| { R.RegisterKeepsValid(s.db.registry, model, s.db.models[model].Function?); }
    case RollBack(d, to) => RollbackKeepsRegistry(s.db, d, to);
    case PromoteVersion(v) => R.PromoteKeepsValid(s.db.registry, v);
    case EvaluateFirst(v, thresholds) => R.StartKeepsValid(s.db.registry, v, thresholds);
    case _ => RequestLeavesRegistry(s, e);
  }

  lemma RequestLeavesRegistry(s: Sys, e: Event)
    requires !Continues(e) && !e.AddVersion? && !e.RollBack? && !e.PromoteVersion? && !e.EvaluateFirst?
    ensures Apply(s, e).db.registry == s.db.registry
  {
  }

  lemma RollbackKeepsRegistry(db: Db, d: nat, to: Option<nat>)
    requires R.Valid(db.registry)
    ensures Rollback(db, d, to).Ok? ==> R.Valid(Rollback(db, d, to).value.registry)
  {
    if Rollback(db, d, to).Ok? && Rollback(db, d, to).value != db {
      var target := if to.Some? then to else Before(db.deployments[d].active.value);
      R.RestoreKeepsValid(db.registry, db.deployments[d].revisions[target.value - 1].version);
    }
  }

  lemma ContinueKeepsRegistry(s: Sys, e: Event, op: Op)
    requires R.Valid(s.db.registry) && Continues(e)
    ensures R.Valid(Continue(s, e, op).db.registry)
  {
    if !Fits(e, op) {
      OtherwiseIdle(s, e, op);
    } else {
      match op
      case Deploys(_) =>
      case Ensures(_) =>
      case HasRevision(_, _) =>
      case Judges(evaluation, thresholds) =>
        if e.EvaluateSecond? { R.FinishKeepsValid(s.db.registry, evaluation, e.metrics, thresholds); }
      case SawDeployment(_, _) =>
      case SawProject(_, _) =>
      case SawRollout(r, seen) => RolloutWriteKeepsRegistry(s.db, r, seen);
    }
  }

  lemma RolloutWriteKeepsRegistry(db: Db, r: nat, seen: Rollout)
    requires R.Valid(db.registry)
    ensures ProgressRollout(db, r, seen).Ok? ==> ProgressRollout(db, r, seen).value.registry == db.registry
    ensures SucceedRollout(db, r, seen).Ok? ==> R.Valid(SucceedRollout(db, r, seen).value.registry)
    ensures RollBackRollout(db, r, seen).Ok? ==> R.Valid(RollBackRollout(db, r, seen).value.registry)
  {
    R.PromoteKeepsValid(db.registry, seen.version);
    R.RejectKeepsValid(db.registry, seen.version);
  }

  /** Over any run a model keeps one champion, the one last promoted, and verdicts stay as they were given. */
  lemma {:induction false} RegistryStaysValid(s: Sys, events: seq<Event>)
    requires R.Valid(s.db.registry)
    ensures R.Valid(Run(s, events).db.registry)
    decreases |events|
  {
    if events != [] {
      StepKeepsRegistry(s, events[0]);
      RegistryStaysValid(Apply(s, events[0]), events[1..]);
    }
  }

  /******* Rows of rollouts *******/

  // The step is a start of a rollout that commits.
  predicate Starts(s: Sys, e: Event) {
    && e.RolloutStart? && e.op < |s.ops| && s.ops[e.op].HasRevision?
    && StartRollout(s.db, s.ops[e.op].deployment, s.ops[e.op].number).Ok?
  }

  // A row of a rollout changes in its status and flag alone, and none that is over is in flight again.
  ghost predicate SameRow(a: Rollout, b: Rollout) {
    b == a.(status := b.status, abort := b.abort) && (InFlight(b) ==> InFlight(a))
  }

  // All rows are the same, there are new ones only by a start, and what is remembered of one was just read.
  ghost predicate SameRows(s: Sys, e: Event, t: Sys) {
    && s.ops <= t.ops && |s.db.rollouts| <= |t.db.rollouts| && (|t.db.rollouts| > |s.db.rollouts| ==> Starts(s, e))
    && (forall r | 0 <= r < |s.db.rollouts| :: SameRow(s.db.rollouts[r], t.db.rollouts[r]))
    && forall k | |s.ops| <= k < |t.ops| && t.ops[k].SawRollout? ::
         RolloutIsKnown(t.db, t.ops[k].rollout, t.ops[k].seen)
  }

  lemma RowsStay(s: Sys, e: Event)
    ensures SameRows(s, e, Apply(s, e))
  {
    if Continues(e) {
      ApplyContinues(s, e);
      if e.op < |s.ops| {
        ContinueRows(s, e, s.ops[e.op]);
      }
    } else {
      RequestRows(s, e);
    }
  }

  lemma RequestRows(s: Sys, e: Event)
    requires !Continues(e)
    ensures SameRows(s, e, Apply(s, e))
  {
    match e
    case RollBack(d, to) =>
    case PromoteVersion(_) =>
    case RolloutAbort(_) =>
    case EvaluateFirst(_, _) =>
    case _ =>
  }

  lemma ContinueRows(s: Sys, e: Event, op: Op)
    requires Continues(e) && e.op < |s.ops| && op == s.ops[e.op]
    ensures SameRows(s, e, Continue(s, e, op))
  {
    if !Fits(e, op) {
      OtherwiseIdle(s, e, op);
    } else {
      match op
      case SawDeployment(_, _) =>
      case SawProject(_, _) =>
      case SawRollout(r, seen) => RolloutWriteRows(s.db, r, seen);
      case _ => SecondRows(s, e, op);
    }
  }

  lemma SecondRows(s: Sys, e: Event, op: Op)
    requires Continues(e) && e.op < |s.ops| && op == s.ops[e.op] && Fits(e, op)
    requires !op.SawDeployment? && !op.SawProject? && !op.SawRollout?
    ensures SameRows(s, e, Continue(s, e, op))
  {
    match op
    case Deploys(_) =>
    case Ensures(_) =>
    case HasRevision(_, _) =>
    case Judges(_, _) =>
  }

  ghost predicate OnlyMoved(a: Db, out: Result<Db>) {
    out.Ok? ==>
      && |out.value.rollouts| == |a.rollouts|
      && forall r | 0 <= r < |a.rollouts| :: SameRow(a.rollouts[r], out.value.rollouts[r])
  }

  lemma RolloutWriteRows(db: Db, r: nat, seen: Rollout)
    ensures OnlyMoved(db, ProgressRollout(db, r, seen))
    ensures OnlyMoved(db, SucceedRollout(db, r, seen))
    ensures OnlyMoved(db, RollBackRollout(db, r, seen))
  {
  }

  // What was read of a rollout stays true.
  lemma StepRemembersRollouts(s: Sys, e: Event)
    requires RemembersRollouts(s)
    ensures RemembersRollouts(Apply(s, e))
  {
    RowsStay(s, e);
    var t := Apply(s, e);
    forall k | 0 <= k < |t.ops| && t.ops[k].SawRollout?
      ensures RolloutIsKnown(t.db, t.ops[k].rollout, t.ops[k].seen)
    {
      if k < |s.ops| {
        assert RolloutIsKnown(s.db, s.ops[k].rollout, s.ops[k].seen);
        assert SameRow(s.db.rollouts[s.ops[k].rollout], t.db.rollouts[s.ops[k].rollout]);
      }
    }
  }

  /******* Reservations *******/

  lemma StartKeepsReserved(db: Db, d: nat, number: nat)
    requires Reserved(db) && StartRollout(db, d, number).Ok?
    ensures Reserved(StartRollout(db, d, number).value)
  {
    var after := StartRollout(db, d, number).value;
    var r := |db.rollouts|;
    forall k | 0 <= k < r && InFlight(db.rollouts[k])
      ensures db.rollouts[k].deployment != d && db.rollouts[k].version != after.rollouts[r].version
    {
      assert ActiveRollout(db, d).None? && ActiveByVersion(db, after.rollouts[r].version).None?;
    }
  }

  lemma StepKeepsReserved(s: Sys, e: Event)
    requires Reserved(s.db)
    ensures Reserved(Apply(s, e).db)
  {
    RowsStay(s, e);
    if Starts(s, e) {
      ApplyContinues(s, e);
      StartKeepsReserved(s.db, s.ops[e.op].deployment, s.ops[e.op].number);
    } else {
      var t := Apply(s, e);
      assert forall r | 0 <= r < |s.db.rollouts| :: SameRow(s.db.rollouts[r], t.db.rollouts[r]);
    }
  }

  /** Over any run there is at most one rollout in flight for a deployment, and at most one for a version. */
  lemma {:induction false} ReservationsHold(s: Sys, events: seq<Event>)
    requires Reserved(s.db)
    ensures Reserved(Run(s, events).db)
    decreases |events|
  {
    if events != [] {
      StepKeepsReserved(s, events[0]);
      ReservationsHold(Apply(s, events[0]), events[1..]);
    }
  }

  /******* Deletion *******/

  // Being deleted, with no rollout in flight.
  ghost predicate Leaving(db: Db, d: nat) {
    d < |db.deployments| && Gone(db.deployments[d]) && ActiveRollout(db, d).None?
  }

  // It goes on leaving, gains no revision and wants nothing new.
  ghost predicate StaysLeaving(a: Db, b: Db, d: nat) {
    && d < |a.deployments| && Leaving(b, d)
    && b.deployments[d].revisions == a.deployments[d].revisions
    && (b.deployments[d].desired == a.deployments[d].desired || b.deployments[d].desired.None?)
  }

  lemma StepStaysLeaving(s: Sys, e: Event, d: nat)
    requires RemembersRollouts(s) && Leaving(s.db, d)
    ensures StaysLeaving(s.db, Apply(s, e).db, d)
  {
    if Continues(e) {
      ApplyContinues(s, e);
      if e.op < |s.ops| {
        ContinueStaysLeaving(s, e, s.ops[e.op], d);
      }
    } else {
      RequestStaysLeaving(s, e, d);
    }
  }

  lemma RequestStaysLeaving(s: Sys, e: Event, d: nat)
    requires !Continues(e) && Leaving(s.db, d)
    ensures StaysLeaving(s.db, Apply(s, e).db, d)
  {
    match e
    case RollBack(k, to) =>
    case PromoteVersion(_) =>
    case RolloutAbort(_) =>
    case EvaluateFirst(_, _) =>
    case _ =>
  }

  ghost predicate LeavesIt(a: Db, out: Result<Db>, d: nat) {
    out.Ok? ==> StaysLeaving(a, out.value, d)
  }

  lemma RolloutWriteStaysLeaving(db: Db, r: nat, seen: Rollout, d: nat)
    requires Leaving(db, d) && RolloutIsKnown(db, r, seen)
    ensures LeavesIt(db, ProgressRollout(db, r, seen), d)
    ensures LeavesIt(db, SucceedRollout(db, r, seen), d)
    ensures LeavesIt(db, RollBackRollout(db, r, seen), d)
  {
  }

  lemma DeploymentWriteStaysLeaving(db: Db, k: nat, row: Deployment, d: nat)
    requires Leaving(db, d)
    ensures LeavesIt(db, MarkReady(db, k, row), d)
    ensures forall status :: LeavesIt(db, MoveDeployment(db, k, row, status), d)
    ensures LeavesIt(db, FinishDelete(db, k, row), d)
  {
  }

  lemma SecondStaysLeaving(s: Sys, e: Event, op: Op, d: nat)
    requires Leaving(s.db, d) && (e.DeploySecond? || e.EnsureSecond? || e.RolloutStart? || e.EvaluateSecond?)
    requires Fits(e, op)
    ensures StaysLeaving(s.db, Continue(s, e, op).db, d)
  {
    match op
    case Deploys(plan) =>
      assert Continue(s, e, op) == Commit(s, DeployCommit(s.db, plan));
      assert plan.deployment == d ==> DeployCommit(s.db, plan).Err?;
    case Ensures(plan) =>
      assert plan.deployment == d ==> EnsureCommit(s.db, plan).Err?;
    case HasRevision(k, number) =>
      assert Continue(s, e, op) == Commit(s, StartRollout(s.db, k, number));
      StartStaysLeaving(s.db, k, number, d);
    case Judges(_, _) =>
  }

  lemma StartStaysLeaving(db: Db, k: nat, number: nat, d: nat)
    requires Leaving(db, d)
    ensures LeavesIt(db, StartRollout(db, k, number), d)
  {
    if StartRollout(db, k, number).Ok? {
      var after := StartRollout(db, k, number).value;
      assert k != d && after.deployments == db.deployments;
      assert ActiveRollout(after, d).None? by {
        assert forall r | 0 <= r < |db.rollouts| :: after.rollouts[r] == db.rollouts[r];
      }
    }
  }

  lemma WriteStaysLeaving(s: Sys, e: Event, op: Op, d: nat)
    requires IsWrite(e) && Fits(e, op) && Leaving(s.db, d)
    requires op.SawRollout? ==> RolloutIsKnown(s.db, op.rollout, op.seen)
    ensures StaysLeaving(s.db, Continue(s, e, op).db, d)
  {
    match op
    case SawDeployment(k, row) => DeploymentWriteStaysLeaving(s.db, k, row, d);
    case SawProject(p, was) =>
      assert Continue(s, e, op).db.deployments == s.db.deployments && Continue(s, e, op).db.rollouts == s.db.rollouts;
    case SawRollout(r, seen) => RolloutWriteStaysLeaving(s.db, r, seen, d);
  }

  predicate IsWrite(e: Event) {
    || e.WriteReady? || e.WriteStatus? || e.WriteDeleted? || e.WriteProject? || e.WriteNote?
    || e.WriteProgress? || e.WriteSuccess? || e.WriteRollBack?
  }

  lemma ContinueStaysLeaving(s: Sys, e: Event, op: Op, d: nat)
    requires Continues(e) && Leaving(s.db, d) && (op.SawRollout? ==> RolloutIsKnown(s.db, op.rollout, op.seen))
    ensures StaysLeaving(s.db, Continue(s, e, op).db, d)
  {
    if !Fits(e, op) {
      OtherwiseIdle(s, e, op);
    } else if IsWrite(e) {
      WriteStaysLeaving(s, e, op, d);
    } else {
      SecondStaysLeaving(s, e, op, d);
    }
  }

  // In a sound state that is every deployment being deleted.
  lemma GoneIsLeaving(db: Db, d: nat)
    requires RolloutsAreSound(db) && d < |db.deployments|
    ensures Leaving(db, d) <==> Gone(db.deployments[d])
  {
  }

  /** Over any run, stale writes included and from a state of which nothing else is known: a deployment being
      deleted, with no rollout in flight, never returns, never has one, and its revisions are final. */
  lemma {:induction false} DeletionIsFinal(s: Sys, events: seq<Event>, d: nat)
    requires RemembersRollouts(s) && Leaving(s.db, d)
    ensures StaysLeaving(s.db, Run(s, events).db, d)
    decreases |events|
  {
    if events != [] {
      StepStaysLeaving(s, events[0], d);
      StepRemembersRollouts(s, events[0]);
      DeletionIsFinal(Apply(s, events[0]), events[1..], d);
    }
  }
}
