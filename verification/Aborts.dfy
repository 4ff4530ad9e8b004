/** When a requested abort of a rollout holds: the rollout reconciler writes the flag back with the status,
    as it read it. Nothing here depends on any other row, nor on any invariant. */
module Aborts {
  import opened Wrappers
  import opened Serving
  import opened Growth
  import opened Runs
  import R = Registry

  // Over, by a failure or an abort, or told to stop.
  predicate Stopping(r: Rollout) {
    r.status == RolledBack || (InFlight(r) && r.abort)
  }

  // The rollout read was not told to stop, the stored one is still in the status read, and what else the
  // write asks of the tables holds: it takes place, and puts back the flag that was read.
  predicate Overwrites(s: Sys, e: Event, r: nat) {
    && (e.WriteProgress? || e.WriteSuccess?) && e.op < |s.ops|
    && s.ops[e.op].SawRollout? && s.ops[e.op].rollout == r < |s.db.rollouts|
    && var seen := s.ops[e.op].seen;
       && seen.status == s.db.rollouts[r].status && !seen.abort
       && if e.WriteProgress? then InFlight(seen) else seen.status == Progressing && CanBeCrowned(s.db, seen)
  }

  // The deployment is there, and the version is or can become its model's champion.
  predicate CanBeCrowned(db: Db, seen: Rollout) {
    seen.deployment < |db.deployments| && R.Promote(db.registry, seen.version).Ok?
  }

  /** In a sound registry these are the candidates and champions. */
  lemma DeployableCanBeCrowned(db: Db, seen: Rollout)
    requires R.Valid(db.registry)
    ensures CanBeCrowned(db, seen) <==>
              && seen.deployment < |db.deployments| && seen.version < |db.registry.versions|
              && R.Deployable(db.registry.versions[seen.version].status)
  {
    R.PromoteKeepsValid(db.registry, seen.version);
  }

  // Such a write puts back the flag that is stored.
  predicate PutsBackFlag(s: Sys, e: Event, r: nat) {
    Overwrites(s, e, r) ==> !s.db.rollouts[r].abort
  }

  ghost predicate IsStopping(s: Sys, r: nat) {
    r < |s.db.rollouts| && Stopping(s.db.rollouts[r])
  }

  lemma WriteDecides(s: Sys, e: Event, r: nat)
    requires IsStopping(s, r) && Overwrites(s, e, r)
    ensures !IsStopping(Apply(s, e), r) && !PutsBackFlag(s, e, r)
  {
    assert Continues(e);
    ApplyContinues(s, e);
  }

  lemma OthersKeepStopping(s: Sys, e: Event, r: nat)
    requires IsStopping(s, r) && !Overwrites(s, e, r)
    ensures IsStopping(Apply(s, e), r)
  {
    if Continues(e) {
      ApplyContinues(s, e);
      if e.op < |s.ops| {
        ContinueKeepsStopping(s, e, s.ops[e.op], r);
      }
    } else {
      RequestKeepsStopping(s, e, r);
    }
  }

  lemma ContinueKeepsStopping(s: Sys, e: Event, op: Op, r: nat)
    requires IsStopping(s, r) && Continues(e) && e.op < |s.ops| && op == s.ops[e.op] && !Overwrites(s, e, r)
    ensures IsStopping(Continue(s, e, op), r)
  {
    match op
    case Deploys(_) =>
    case Ensures(_) =>
    case HasRevision(_, _) =>
    case Judges(_, _) =>
    case SawDeployment(_, _) =>
    case SawProject(_, _) =>
    case SawRollout(_, _) =>
  }

  lemma RequestKeepsStopping(s: Sys, e: Event, r: nat)
    requires IsStopping(s, r) && !Continues(e)
    ensures IsStopping(Apply(s, e), r)
  {
    match e
    case RollBack(d, to) => RollbackKeepsRollouts(s.db, d, to);
    case PromoteVersion(_) =>
    case RolloutAbort(_) =>
    case _ =>
  }

  lemma RollbackKeepsRollouts(db: Db, d: nat, to: Option<nat>)
    ensures Rollback(db, d, to).Ok? ==> Rollback(db, d, to).value.rollouts == db.rollouts
  {
  }

  /** In any step, from any state, a rollout that was told to stop goes on stopping exactly if the step is
      not a reconciler's write that puts back another flag than the stored one. */
  lemma StopHoldsExactly(s: Sys, e: Event, r: nat)
    requires IsStopping(s, r)
    ensures IsStopping(Apply(s, e), r) <==> PutsBackFlag(s, e, r)
  {
    if Overwrites(s, e, r) {
      WriteDecides(s, e, r);
    } else {
      OthersKeepStopping(s, e, r);
    }
  }

  /******* One rollout over a run *******/

  ghost predicate AlwaysStopping(s: Sys, events: seq<Event>, r: nat)
    decreases |events|
  {
    IsStopping(s, r) && (events != [] ==> AlwaysStopping(Apply(s, events[0]), events[1..], r))
  }

  ghost predicate FlagIsPutBack(s: Sys, events: seq<Event>, r: nat)
    decreases |events|
  {
    events != [] ==> PutsBackFlag(s, events[0], r) && FlagIsPutBack(Apply(s, events[0]), events[1..], r)
  }

  /** Over any run from any state, a rollout that was told to stop is stopping in all of its states if and
      only if every write of that rollout puts back the stored flag; it then never succeeds. */
  lemma {:induction false} AbortHoldsExactly(s: Sys, events: seq<Event>, r: nat)
    requires IsStopping(s, r)
    ensures AlwaysStopping(s, events, r) <==> FlagIsPutBack(s, events, r)
    ensures FlagIsPutBack(s, events, r) ==>
              var end := Run(s, events).db; r < |end.rollouts| && end.rollouts[r].status != Succeeded
    decreases |events|
  {
    if events != [] {
      StopHoldsExactly(s, events[0], r);
      if PutsBackFlag(s, events[0], r) {
        AbortHoldsExactly(Apply(s, events[0]), events[1..], r);
      }
    }
  }

  /******* All rollouts over a run *******/

  ghost predicate AbortsHold(a: Db, b: Db) {
    && |a.rollouts| <= |b.rollouts|
    && (forall r | 0 <= r < |a.rollouts| :: Stopping(a.rollouts[r]) ==> Stopping(b.rollouts[r]))
  }

  ghost predicate AbortsAlwaysHold(s: Sys, events: seq<Event>)
    decreases |events|
  {
    events != [] ==> AbortsHold(s.db, Apply(s, events[0]).db) && AbortsAlwaysHold(Apply(s, events[0]), events[1..])
  }

  ghost predicate FlagsArePutBack(s: Sys, events: seq<Event>)
    decreases |events|
  {
    events != [] ==>
      && (forall r | IsStopping(s, r) :: PutsBackFlag(s, events[0], r))
      && FlagsArePutBack(Apply(s, events[0]), events[1..])
  }

  lemma StepHoldsExactly(s: Sys, e: Event)
    ensures AbortsHold(s.db, Apply(s, e).db) <==> forall r | IsStopping(s, r) :: PutsBackFlag(s, e, r)
  {
    RolloutsStay(s, e);
    forall r | IsStopping(s, r) ensures IsStopping(Apply(s, e), r) <==> PutsBackFlag(s, e, r) {
      StopHoldsExactly(s, e, r);
    }
    assert AbortsHold(s.db, Apply(s, e).db) <==> forall r | IsStopping(s, r) :: IsStopping(Apply(s, e), r) by {
      AbortsHoldByIndex(s, Apply(s, e));
    }
  }

  lemma AbortsHoldByIndex(s: Sys, t: Sys)
    requires |s.db.rollouts| <= |t.db.rollouts|
    ensures AbortsHold(s.db, t.db) <==> forall r | IsStopping(s, r) :: IsStopping(t, r)
  {
    if forall r | IsStopping(s, r) :: IsStopping(t, r) {
      forall r | 0 <= r < |s.db.rollouts| && Stopping(s.db.rollouts[r]) ensures Stopping(t.db.rollouts[r]) {
        assert IsStopping(s, r);
      }
    }
  }

  lemma RolloutsStay(s: Sys, e: Event)
    ensures |s.db.rollouts| <= |Apply(s, e).db.rollouts|
  {
    if e.RollBack? {
      RollbackKeepsRollouts(s.db, e.deployment, e.to);
    } else if Continues(e) {
      ApplyContinues(s, e);
      if e.op < |s.ops| {
        ContinueKeepsRollouts(s, e, s.ops[e.op]);
      }
    } else {
      RequestKeepsRollouts(s, e);
    }
  }

  lemma RequestKeepsRollouts(s: Sys, e: Event)
    requires !Continues(e) && !e.RollBack?
    ensures |s.db.rollouts| <= |Apply(s, e).db.rollouts|
  {
    match e
    case PromoteVersion(_) =>
    case RolloutAbort(_) =>
    case _ =>
  }

  lemma ContinueKeepsRollouts(s: Sys, e: Event, op: Op)
    ensures |s.db.rollouts| <= |Continue(s, e, op).db.rollouts|
  {
    match op
    case Deploys(_) =>
    case Ensures(_) =>
    case HasRevision(_, _) =>
    case Judges(_, _) =>
    case SawDeployment(_, _) =>
    case SawProject(_, _) =>
    case SawRollout(_, _) =>
  }

  /** Over any run from any state, every requested abort holds in every step if and only if each write of a
      rollout told to stop puts back the stored flag. */
  lemma {:induction false} AllAbortsHoldExactly(s: Sys, events: seq<Event>)
    ensures AbortsAlwaysHold(s, events) <==> FlagsArePutBack(s, events)
    decreases |events|
  {
    if events != [] {
      StepHoldsExactly(s, events[0]);
      AllAbortsHoldExactly(Apply(s, events[0]), events[1..]);
    }
  }

  /** A run whose writes are fresh puts every flag back. */
  lemma {:induction false} FreshRunsPutBack(s: Sys, events: seq<Event>)
    requires FreshRun(s, events)
    ensures FlagsArePutBack(s, events) && forall r: nat :: FlagIsPutBack(s, events, r)
    decreases |events|
  {
    if events != [] {
      FreshRunsPutBack(Apply(s, events[0]), events[1..]);
    }
  }

  /** So an abort requested of a rollout that has not succeeded is final, if its writes put the flag back: the
      rollout is stopping from then on in all states of any run, and does not succeed. */
  lemma AbortIsFinal(s: Sys, r: nat, events: seq<Event>)
    requires r < |s.db.rollouts| && s.db.rollouts[r].status != Succeeded
    ensures var asked := Apply(s, RolloutAbort(r));
            && IsStopping(asked, r)
            && (AlwaysStopping(asked, events, r) <==> FlagIsPutBack(asked, events, r))
            && (FlagIsPutBack(asked, events, r) ==>
                  var end := Run(asked, events).db; r < |end.rollouts| && end.rollouts[r].status != Succeeded)
  {
    AbortHoldsExactly(Apply(s, RolloutAbort(r)), events, r);
  }
}
