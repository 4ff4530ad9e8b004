/** The dispatcher and the rule service at work on the tables. */
module OutboxStore {
  import opened Wrappers
  import opened Outbox

  class Store {
    var db: Db

    constructor ()
      ensures db == EMPTY && Valid(db)
    {
      db := EMPTY;
      EmptyIsValid();
    }

    method SetEnabled(k: nat, enabled: bool, revision: nat) returns (out: Result<()>)
      requires Valid(db)
      modifies this
      ensures Valid(db) && Advances(old(db), db)
      ensures out.Ok? <==> k < |old(db).rules| && old(db).rules[k].revision == revision
      ensures out.Ok? ==> db == Apply(old(db), RuleSet(k, enabled, revision)) && db.executions == old(db).executions
      ensures out.Err? ==> db == old(db)
    {
      AdvancesIsReflexive(db);
      StepKeeps(db, RuleSet(k, enabled, revision));
      if |db.rules| <= k {
        return Err(NotFound);
      }
      if db.rules[k].revision != revision {
        return Err(Conflict);
      }
      db := db.(rules := db.rules[k := db.rules[k].(enabled := enabled, revision := revision + 1)]);
      return Ok(());
    }

    // The oldest event that is not processed.
    method NextEvent() returns (next: Option<nat>)
      ensures next.None? ==> AllProcessed(db)
      ensures next.Some? ==> next.value < |db.events| && db.events[next.value].processedAt.None?
      ensures next.Some? ==>
                forall i | 0 <= i < |db.events| && db.events[i].processedAt.None? ::
                  db.events[next.value].createdAt <= db.events[i].createdAt
    {
      next := None;
      for i := 0 to |db.events|
        invariant next.None? ==> forall j | 0 <= j < i :: db.events[j].processedAt.Some?
        invariant next.Some? ==> next.value < |db.events| && db.events[next.value].processedAt.None?
        invariant next.Some? ==>
                    forall j | 0 <= j < i && db.events[j].processedAt.None? ::
                      db.events[next.value].createdAt <= db.events[j].createdAt
      {
        if db.events[i].processedAt.None? && (next.None? || db.events[i].createdAt < db.events[next.value].createdAt) {
          next := Some(i);
        }
      }
    }

    method NextWaiting(now: int) returns (next: Option<nat>)
      ensures next.None? ==> NoneDue(db, now)
      ensures next.Some? ==>
                next.value < |db.executions| && db.executions[next.value].status == Waiting
                  && db.executions[next.value].nextAttemptAt <= now
      ensures next.Some? ==>
                forall x | 0 <= x < |db.executions| && db.executions[x].status == Waiting ::
                  db.executions[next.value].nextAttemptAt <= db.executions[x].nextAttemptAt
    {
      next := None;
      for x := 0 to |db.executions|
        invariant next.None? ==>
                    forall y | 0 <= y < x ::
                      !(db.executions[y].status == Waiting && db.executions[y].nextAttemptAt <= now)
        invariant next.Some? ==>
                    next.value < |db.executions| && db.executions[next.value].status == Waiting
                      && db.executions[next.value].nextAttemptAt <= now
        invariant next.Some? ==>
                    forall y | 0 <= y < x && db.executions[y].status == Waiting ::
                      db.executions[next.value].nextAttemptAt <= db.executions[y].nextAttemptAt
      {
        var e := db.executions[x];
        if e.status == Waiting && e.nextAttemptAt <= now
          && (next.None? || e.nextAttemptAt < db.executions[next.value].nextAttemptAt) {
          next := Some(x);
        }
      }
    }

    method FindExecution(rule: nat, dataset: nat) returns (found: bool)
      ensures found <==> HasExecution(db, rule, dataset)
    {
      for x := 0 to |db.executions|
        invariant forall y | 0 <= y < x :: !(db.executions[y].rule == rule && db.executions[y].dataset == dataset)
      {
        if db.executions[x].rule == rule && db.executions[x].dataset == dataset {
          return true;
        }
      }
      return false;
    }

    // One transaction: every rule of the project is offered the event, and the event is done.
    method TakeEvent(event: nat, now: int, builds: nat -> bool)
      requires event < |db.events| && db.events[event].dataset < |db.datasets|
      modifies this
      ensures db == Process(old(db), event, now, builds)
    {
      ghost var start := db;
      var dataset := db.events[event].dataset;
      for k := 0 to |db.rules|
        invariant SameInputs(start, db)
        invariant db == OfferTo(start, event, k, now, builds)
      {
        var matches := Matches(db.rules[k], db.events[event], db.datasets[dataset]);
        if matches {
          var found := FindExecution(k, dataset);
          if !found {
            var x := |db.executions|;
            db := db.(executions := db.executions + [NewExecution(db, k, event, now)]);
            db := Dispatch(db, x, db.rules[k], now, builds(k));
          }
        }
      }
      db := db.(events := db.events[event := db.events[event].(processedAt := Some(now))]);
    }

    /** A round of at most `limit` events and `limit` retries. What it leaves is sound and only adds to what
        was there; a round that took fewer events than it might has processed them all. */
    method RunOnce(limit: nat, clock: nat -> int, builds: (nat, nat) -> bool) returns (count: nat)
      requires Valid(db)
      modifies this
      ensures Valid(db) && Advances(old(db), db)
      ensures count <= limit && (count < limit ==> AllProcessed(db))
    {
      count := 0;
      AdvancesIsReflexive(db);
      while count < limit
        invariant Valid(db) && Advances(old(db), db) && count <= limit
      {
        var event := NextEvent();
        if event.None? {
          break;
        }
        var now := clock(count);
        ghost var before := db;
        var builtNow := BuildsAt(builds, count);
        ProcessKeeps(db, event.value, now, builtNow);
        ProcessAdvances(db, event.value, now, builtNow);
        TakeEvent(event.value, now, builtNow);
        AdvancesIsTransitive(old(db), before, db);
        count := count + 1;
      }
      RetryWaiting(limit, clock, (i: nat) => builds(i, 0));
    }

    method RetryWaiting(limit: nat, clock: nat -> int, builds: nat -> bool)
      requires Valid(db)
      modifies this
      ensures Valid(db) && Advances(old(db), db) && SameInputs(old(db), db)
    {
      AdvancesIsReflexive(db);
      for i := 0 to limit
        invariant Valid(db) && Advances(old(db), db) && SameInputs(old(db), db)
      {
        var now := clock(i);
        var x := NextWaiting(now);
        if x.None? {
          break;
        }
        ghost var before := db;
        RetryKeeps(db, x.value, now, builds(i));
        DispatchAdvances(db, x.value, db.executions[x.value].snapshot, now, builds(i));
        db := Retry(db, x.value, now, builds(i));
        AdvancesIsTransitive(old(db), before, db);
      }
    }
  }

  // Whether a rule's check can be created, during the n-th transaction.
  function BuildsAt(builds: (nat, nat) -> bool, n: nat): nat -> bool {
    (k: nat) => builds(n, k)
  }

  ghost predicate AllProcessed(db: Db) {
    forall i | 0 <= i < |db.events| :: db.events[i].processedAt.Some?
  }

  ghost predicate NoneDue(db: Db, now: int) {
    forall x | 0 <= x < |db.executions| ::
      !(db.executions[x].status == Waiting && db.executions[x].nextAttemptAt <= now)
  }
}
