/** Monitoring rules and the outbox of published datasets: every committed transaction as a function. A
    crash or an unexpected exception leaves its transaction uncommitted, so the tables stay as they were. */
module Outbox {
  import opened Wrappers

  datatype Dataset = Dataset(project: nat, name: nat, date: Option<int>, connection: nat)

  // Only `enabled` and `revision` ever change.
  datatype Rule = Rule(
    project: nat,
    observedName: nat,
    feedbackName: Option<nat>,
    deadline: nat,
    observedConnection: nat,
    feedbackConnection: Option<nat>,
    createdAt: int,
    enabled: bool,
    revision: nat)

  datatype Event = Event(project: nat, dataset: nat, createdAt: int, processedAt: Option<int>)

  datatype Status = Waiting | Dispatched | Failed

  datatype Execution = Execution(
    rule: nat,
    event: nat,
    dataset: nat,
    snapshot: Rule,
    status: Status,
    job: Option<nat>,
    run: Option<nat>,
    deadlineAt: int,
    nextAttemptAt: int,
    createdAt: int)

  // A check of one observed dataset with the rule's frozen settings; its name is that of its execution.
  datatype Job = Job(execution: nat, rule: Rule, observed: nat, feedback: Option<nat>)

  // The execution is the run's idempotency key.
  datatype Run = Run(job: nat, execution: nat)

  // Tables in creation order; a row's id is its position.
  datatype Db = Db(
    datasets: seq<Dataset>,
    rules: seq<Rule>,
    events: seq<Event>,
    executions: seq<Execution>,
    jobs: seq<Job>,
    runs: seq<Run>)

  const EMPTY := Db([], [], [], [], [], [])

  const RETRY_SECONDS := 15

  /******* Lookups *******/

  predicate IsFor(d: Dataset, project: nat, name: nat, date: Option<int>) {
    d.project == project && d.name == name && d.date == date
  }

  // The latest version published for a date.
  function Latest(datasets: seq<Dataset>, project: nat, name: nat, date: Option<int>): (r: Option<nat>)
    ensures r.Some? ==> r.value < |datasets| && IsFor(datasets[r.value], project, name, date)
                        && forall k | r.value < k < |datasets| :: !IsFor(datasets[k], project, name, date)
    ensures r.None? ==> forall k | 0 <= k < |datasets| :: !IsFor(datasets[k], project, name, date)
  {
    if datasets == [] then None
    else if IsFor(datasets[|datasets| - 1], project, name, date) then Some(|datasets| - 1)
    else Latest(datasets[..|datasets| - 1], project, name, date)
  }

  ghost predicate HasExecution(db: Db, rule: nat, dataset: nat) {
    exists x | 0 <= x < |db.executions| :: db.executions[x].rule == rule && db.executions[x].dataset == dataset
  }

  predicate Matches(rule: Rule, event: Event, dataset: Dataset) {
    rule.project == event.project && rule.enabled && rule.createdAt <= event.createdAt
      && rule.observedName == dataset.name
  }

  /******* One attempt *******/

  datatype Attempt = Wait | Fail | Launch(feedback: Option<nat>)

  // What an attempt at a time comes to; `builds` says whether the check can be created now.
  function Decide(db: Db, x: Execution, rule: Rule, now: int, builds: bool): Attempt
    requires x.dataset < |db.datasets|
  {
    var observed := db.datasets[x.dataset];
    if rule.feedbackName.Some? && observed.date.None? then Fail
    else
      var feedback :=
        if rule.feedbackName.Some? then Latest(db.datasets, rule.project, rule.feedbackName.value, observed.date)
        else None;
      if rule.feedbackName.Some? && feedback.None? then (if now >= x.deadlineAt then Fail else Wait)
      else if observed.connection != rule.observedConnection then Fail
      else if feedback.Some? && Some(db.datasets[feedback.value].connection) != rule.feedbackConnection then Fail
      else if !builds then Fail
      else Launch(feedback)
  }

  function Dispatch(db: Db, x: nat, rule: Rule, now: int, builds: bool): Db
    requires x < |db.executions| && db.executions[x].dataset < |db.datasets|
  {
    var e := db.executions[x];
    match Decide(db, e, rule, now, builds)
    case Wait => db.(executions := db.executions[x := e.(nextAttemptAt := now + RETRY_SECONDS)])
    case Fail => db.(executions := db.executions[x := e.(status := Failed)])
    case Launch(feedback) =>
      var updated := e.(status := Dispatched, job := Some(|db.jobs|), run := Some(|db.runs|));
      db.(executions := db.executions[x := updated],
          jobs := db.jobs + [Job(x, rule, e.dataset, feedback)],
          runs := db.runs + [Run(|db.jobs|, x)])
  }

  /******* Transactions *******/

  function Publish(db: Db, dataset: Dataset, now: int): Db {
    db.(datasets := db.datasets + [dataset], events := db.events + [Event(dataset.project, |db.datasets|, now, None)])
  }

  function AddRule(db: Db, rule: Rule): Db {
    db.(rules := db.rules + [rule.(revision := 1)])
  }

  function SetEnabled(db: Db, rule: nat, enabled: bool, revision: nat): Result<Db> {
    if |db.rules| <= rule then Err(NotFound)
    else if db.rules[rule].revision != revision then Err(Conflict)
    else Ok(db.(rules := db.rules[rule := db.rules[rule].(enabled := enabled, revision := revision + 1)]))
  }

  function NewExecution(db: Db, k: nat, event: nat, now: int): Execution
    requires k < |db.rules| && event < |db.events|
  {
    var deadlineAt := now + db.rules[k].deadline;
    Execution(k, event, db.events[event].dataset, db.rules[k], Waiting, None, None, deadlineAt, now, now)
  }

  // The event offered to one rule.
  ghost function Offer(db: Db, event: nat, k: nat, now: int, builds: nat -> bool): Db
    requires k < |db.rules| && event < |db.events| && db.events[event].dataset < |db.datasets|
  {
    var dataset := db.events[event].dataset;
    if !Matches(db.rules[k], db.events[event], db.datasets[dataset]) || HasExecution(db, k, dataset) then db
    else
      var added := db.(executions := db.executions + [NewExecution(db, k, event, now)]);
      Dispatch(added, |db.executions|, db.rules[k], now, builds(k))
  }

  // Only the executions, jobs and runs differ.
  predicate SameInputs(a: Db, b: Db) {
    a.datasets == b.datasets && a.rules == b.rules && a.events == b.events
  }

  // The event offered to the first k rules.
  ghost function OfferTo(db: Db, event: nat, k: nat, now: int, builds: nat -> bool): (out: Db)
    requires k <= |db.rules| && event < |db.events| && db.events[event].dataset < |db.datasets|
    ensures SameInputs(db, out)
  {
    if k == 0 then db else Offer(OfferTo(db, event, k - 1, now, builds), event, k - 1, now, builds)
  }

  ghost function Process(db: Db, event: nat, now: int, builds: nat -> bool): Db
    requires event < |db.events| && db.events[event].dataset < |db.datasets|
  {
    var events := db.events[event := db.events[event].(processedAt := Some(now))];
    OfferTo(db, event, |db.rules|, now, builds).(events := events)
  }

  // Another attempt at a waiting execution, by the rule as it was when the execution was made.
  function Retry(db: Db, x: nat, now: int, builds: bool): Db
    requires x < |db.executions| && db.executions[x].dataset < |db.datasets|
  {
    Dispatch(db, x, db.executions[x].snapshot, now, builds)
  }

  /******* What every transaction keeps *******/

  predicate SameSettings(a: Rule, b: Rule) {
    a == b.(enabled := a.enabled, revision := a.revision)
  }

  // A version of the named dataset with the observed one's date.
  predicate FeedbackFits(db: Db, rule: Rule, observed: nat, feedback: Option<nat>)
    requires observed < |db.datasets|
  {
    match rule.feedbackName
    case None => feedback.None?
    case Some(name) =>
      && feedback.Some? && feedback.value < |db.datasets| && db.datasets[observed].date.Some?
      && IsFor(db.datasets[feedback.value], rule.project, name, db.datasets[observed].date)
  }

  // The execution belongs to its rule, event and dataset, and keeps the rule as it was.
  predicate Belongs(db: Db, e: Execution) {
    && e.rule < |db.rules| && e.event < |db.events| && e.dataset < |db.datasets|
    && db.events[e.event].dataset == e.dataset
    && SameSettings(e.snapshot, db.rules[e.rule])
    && Matches(e.snapshot, db.events[e.event], db.datasets[e.dataset])
    && e.deadlineAt == e.createdAt + e.snapshot.deadline
  }

  // A dispatched execution has its own job and run; no other has any.
  predicate Launched(db: Db, x: nat, e: Execution)
    requires e.dataset < |db.datasets|
  {
    if e.status != Dispatched then e.job.None? && e.run.None?
    else
      && e.job.Some? && e.job.value < |db.jobs| && e.run.Some? && e.run.value < |db.runs|
      && db.runs[e.run.value] == Run(e.job.value, x)
      && db.jobs[e.job.value].(feedback := None) == Job(x, e.snapshot, e.dataset, None)
      && FeedbackFits(db, e.snapshot, e.dataset, db.jobs[e.job.value].feedback)
  }

  ghost predicate ExecutionsAreSound(db: Db) {
    forall x | 0 <= x < |db.executions| :: Belongs(db, db.executions[x]) && Launched(db, x, db.executions[x])
  }

  // One execution for a rule and a dataset.
  ghost predicate OncePerDataset(db: Db) {
    forall x, y | 0 <= x < y < |db.executions| ::
      db.executions[x].rule != db.executions[y].rule || db.executions[x].dataset != db.executions[y].dataset
  }

  predicate JobIsOwned(db: Db, j: nat)
    requires j < |db.jobs|
  {
    var x := db.jobs[j].execution;
    x < |db.executions| && db.executions[x].status == Dispatched && db.executions[x].job == Some(j)
  }

  predicate RunIsOwned(db: Db, r: nat)
    requires r < |db.runs|
  {
    var x := db.runs[r].execution;
    x < |db.executions| && db.executions[x].status == Dispatched && db.executions[x].run == Some(r)
  }

  ghost predicate NothingElseIsLaunched(db: Db) {
    (forall j | 0 <= j < |db.jobs| :: JobIsOwned(db, j)) && (forall r | 0 <= r < |db.runs| :: RunIsOwned(db, r))
  }

  ghost predicate EventsAreSound(db: Db) {
    forall i | 0 <= i < |db.events| ::
      db.events[i].dataset < |db.datasets| && db.datasets[db.events[i].dataset].project == db.events[i].project
  }

  ghost predicate Core(db: Db) {
    ExecutionsAreSound(db) && OncePerDataset(db) && NothingElseIsLaunched(db) && EventsAreSound(db)
  }

  // Only an execution that needs feedback waits.
  ghost predicate OnlyFeedbackWaits(db: Db) {
    forall x | 0 <= x < |db.executions| ::
      db.executions[x].status == Waiting ==> db.executions[x].snapshot.feedbackName.Some?
  }

  ghost predicate Valid(db: Db) {
    Core(db) && OnlyFeedbackWaits(db)
  }

  // The feedback version a rule would take now.
  function Wanted(db: Db, rule: Rule, observed: Dataset): Option<nat> {
    if rule.feedbackName.Some? then Latest(db.datasets, rule.project, rule.feedbackName.value, observed.date) else None
  }

  predicate Connected(db: Db, rule: Rule, observed: Dataset) {
    && observed.connection == rule.observedConnection
    && (Wanted(db, rule, observed).Some? ==>
         rule.feedbackConnection == Some(db.datasets[Wanted(db, rule, observed).value].connection))
  }

  /** An attempt waits exactly when the rule wants feedback, no version of its date is there, and the
      deadline is ahead. It launches a check exactly when the feedback wanted is there, the connections are
      those of the rule, and the check can be created; the feedback is then the latest of its date. */
  lemma AttemptDecides(db: Db, e: Execution, rule: Rule, now: int, builds: bool)
    requires e.dataset < |db.datasets|
    ensures var observed := db.datasets[e.dataset];
            var decision := Decide(db, e, rule, now, builds);
            var lacking := rule.feedbackName.Some? && forall k | 0 <= k < |db.datasets| ::
              !IsFor(db.datasets[k], rule.project, rule.feedbackName.value, observed.date);
            var dated := rule.feedbackName.Some? ==> observed.date.Some?;
            && (decision == Wait <==> lacking && dated && now < e.deadlineAt)
            && (decision.Launch? <==> !lacking && dated && builds && Connected(db, rule, observed))
            && (decision.Launch? ==>
                 decision.feedback == Wanted(db, rule, observed)
                   && FeedbackFits(db, rule, e.dataset, decision.feedback))
  {
  }

  // A dataset is the feedback for an observed one: of the rule's project, with the name it asks for, and for
  // the same date; and the latest of those.
  ghost predicate IsFeedback(db: Db, rule: Rule, observed: Dataset, k: nat) {
    && k < |db.datasets| && rule.feedbackName == Some(db.datasets[k].name)
    && db.datasets[k].project == rule.project && db.datasets[k].date == observed.date
  }

  ghost predicate IsLatestFeedback(db: Db, rule: Rule, observed: Dataset, k: nat) {
    IsFeedback(db, rule, observed, k) && forall j: nat :: IsFeedback(db, rule, observed, j) ==> j <= k
  }

  lemma LatestIsFeedback(db: Db, rule: Rule, observed: Dataset, k: nat)
    requires rule.feedbackName.Some?
    ensures var found := Latest(db.datasets, rule.project, rule.feedbackName.value, observed.date);
            && (found == Some(k) <==> IsLatestFeedback(db, rule, observed, k))
            && (found == None <==> forall j: nat :: !IsFeedback(db, rule, observed, j))
  {
    var found := Latest(db.datasets, rule.project, rule.feedbackName.value, observed.date);
    if found.Some? {
      assert IsFeedback(db, rule, observed, found.value);
    }
  }

  /** An attempt waits exactly if feedback is asked for, the observed dataset has a date, none for it is there
      and the deadline is ahead. It launches without feedback exactly if none is asked for, and with a dataset
      exactly if that is the latest feedback, where the connections are those frozen and the check can be
      created. In all other cases it fails. */
  lemma AttemptIsExact(db: Db, e: Execution, rule: Rule, now: int, builds: bool, k: nat)
    requires e.dataset < |db.datasets|
    ensures var observed := db.datasets[e.dataset];
            var decision := Decide(db, e, rule, now, builds);
            var fits := observed.connection == rule.observedConnection && builds;
            && (decision == Wait <==>
                  && rule.feedbackName != None && observed.date != None && now < e.deadlineAt
                  && forall j: nat :: !IsFeedback(db, rule, observed, j))
            && (decision == Launch(None) <==> rule.feedbackName == None && fits)
            && (decision == Launch(Some(k)) <==>
                  && observed.date != None && IsLatestFeedback(db, rule, observed, k) && fits
                  && rule.feedbackConnection == Some(db.datasets[k].connection))
  {
    if rule.feedbackName.Some? {
      LatestIsFeedback(db, rule, db.datasets[e.dataset], k);
      var found := Latest(db.datasets, rule.project, rule.feedbackName.value, db.datasets[e.dataset].date);
      if found.Some? {
        LatestIsFeedback(db, rule, db.datasets[e.dataset], found.value);
      }
    }
  }

  /** What an attempt leaves: one that waits is due again in fifteen seconds; one that launches has a job of
      the frozen rule and the datasets, and a run of it, both new; nothing else of any table changes. */
  lemma DispatchIsExact(db: Db, x: nat, rule: Rule, now: int, builds: bool)
    requires x < |db.executions| && db.executions[x].dataset < |db.datasets|
    ensures var e := db.executions[x];
            var after := Dispatch(db, x, rule, now, builds);
            && |after.executions| == |db.executions|
            && after
              == Db(db.datasets, db.rules, db.events, db.executions[x := after.executions[x]], after.jobs, after.runs)
            && match Decide(db, e, rule, now, builds)
               case Wait =>
                 && after.executions[x] == e.(nextAttemptAt := now + 15)
                 && after.jobs == db.jobs && after.runs == db.runs
               case Fail =>
                 && after.executions[x] == e.(status := Failed)
                 && after.jobs == db.jobs && after.runs == db.runs
               case Launch(feedback) =>
                 && after.executions[x] == e.(status := Dispatched, job := Some(|db.jobs|), run := Some(|db.runs|))
                 && after.jobs == db.jobs + [Job(x, rule, e.dataset, feedback)]
                 && after.runs == db.runs + [Run(|db.jobs|, x)]
  {
  }

  /** A rule that matches and has no execution for the dataset gets one, made of the event and of the rule as it
      is, due at once and with the rule's time to wait; and that one is attempted. */
  lemma OfferIsExact(db: Db, event: nat, k: nat, now: int, builds: nat -> bool)
    requires k < |db.rules| && event < |db.events| && db.events[event].dataset < |db.datasets|
    ensures var rule, d := db.rules[k], db.events[event].dataset;
            var wanted := && rule.enabled && rule.project == db.events[event].project
                          && rule.createdAt <= db.events[event].createdAt && rule.observedName == db.datasets[d].name
                          && forall x | 0 <= x < |db.executions| && db.executions[x].rule == k ::
                               db.executions[x].dataset != d;
            var made := Execution(k, event, d, rule, Waiting, None, None, now + rule.deadline, now, now);
            Offer(db, event, k, now, builds)
            == if wanted
               then Dispatch(db.(executions := db.executions + [made]), |db.executions|, rule, now, builds(k))
               else db
  {
  }

  /** A dataset published leaves an event for it; a new rule starts at revision one; a rule is paused or resumed
      exactly at its current revision, which goes up by one, and keeps all else. */
  lemma InputsAreExact(db: Db, dataset: Dataset, rule: Rule, k: nat, enabled: bool, revision: nat, now: int)
    ensures Publish(db, dataset, now)
         == db.(datasets := db.datasets + [dataset],
                events := db.events + [Event(dataset.project, |db.datasets|, now, None)])
    ensures |AddRule(db, rule).rules| == |db.rules| + 1 && AddRule(db, rule) == db.(rules := AddRule(db, rule).rules)
    ensures db.rules <= AddRule(db, rule).rules && AddRule(db, rule).rules[|db.rules|] == rule.(revision := 1)
    ensures var out := SetEnabled(db, k, enabled, revision);
            && (out.Ok? <==> k < |db.rules| && db.rules[k].revision == revision)
            && (out.Err? ==> out.error == if k < |db.rules| then Conflict else NotFound)
            && (out.Ok? ==>
                  && |out.value.rules| == |db.rules|
                  && out.value == db.(rules := db.rules[k := out.value.rules[k]])
                  && out.value.rules[k].enabled == enabled && out.value.rules[k].revision == revision + 1
                  && SameSettings(out.value.rules[k], db.rules[k]))
  {
  }

  lemma DispatchKeepsExecutions(db: Db, x: nat, now: int, builds: bool)
    requires ExecutionsAreSound(db) && x < |db.executions| && db.executions[x].status == Waiting
    ensures ExecutionsAreSound(Dispatch(db, x, db.executions[x].snapshot, now, builds))
  {
    var after := Dispatch(db, x, db.executions[x].snapshot, now, builds);
    forall y | 0 <= y < |after.executions|
      ensures Belongs(after, after.executions[y]) && Launched(after, y, after.executions[y])
    {
      assert Belongs(db, db.executions[y]) && Launched(db, y, db.executions[y]);
    }
  }

  lemma DispatchKeepsOwners(db: Db, x: nat, now: int, builds: bool)
    requires NothingElseIsLaunched(db) && x < |db.executions| && db.executions[x].status == Waiting
    requires db.executions[x].dataset < |db.datasets|
    ensures NothingElseIsLaunched(Dispatch(db, x, db.executions[x].snapshot, now, builds))
  {
    var after := Dispatch(db, x, db.executions[x].snapshot, now, builds);
    forall j | 0 <= j < |after.jobs| ensures JobIsOwned(after, j) {
      if j < |db.jobs| { assert JobIsOwned(db, j); }
    }
    forall r | 0 <= r < |after.runs| ensures RunIsOwned(after, r) {
      if r < |db.runs| { assert RunIsOwned(db, r); }
    }
  }

  ghost predicate OthersWaitForFeedback(db: Db, x: nat) {
    forall y | 0 <= y < |db.executions| && y != x ::
      db.executions[y].status == Waiting ==> db.executions[y].snapshot.feedbackName.Some?
  }

  lemma DispatchKeeps(db: Db, x: nat, now: int, builds: bool)
    requires Core(db) && x < |db.executions| && db.executions[x].status == Waiting && OthersWaitForFeedback(db, x)
    requires db.executions[x].dataset < |db.datasets|
    ensures Valid(Dispatch(db, x, db.executions[x].snapshot, now, builds))
  {
    DispatchKeepsExecutions(db, x, now, builds);
    DispatchKeepsOwners(db, x, now, builds);
  }

  lemma RetryKeeps(db: Db, x: nat, now: int, builds: bool)
    requires Valid(db) && x < |db.executions| && db.executions[x].status == Waiting
    ensures db.executions[x].dataset < |db.datasets| && Valid(Retry(db, x, now, builds))
  {
    assert Belongs(db, db.executions[x]);
    DispatchKeeps(db, x, now, builds);
  }

  lemma AddExecutionKeeps(db: Db, event: nat, k: nat, now: int)
    requires Valid(db) && k < |db.rules| && event < |db.events|
    requires db.events[event].dataset < |db.datasets|
    requires Matches(db.rules[k], db.events[event], db.datasets[db.events[event].dataset])
    requires !HasExecution(db, k, db.events[event].dataset)
    ensures var after := db.(executions := db.executions + [NewExecution(db, k, event, now)]);
            Core(after) && OthersWaitForFeedback(after, |db.executions|)
  {
    var after := db.(executions := db.executions + [NewExecution(db, k, event, now)]);
    forall x | 0 <= x < |after.executions|
      ensures Belongs(after, after.executions[x]) && Launched(after, x, after.executions[x])
    {
      if x < |db.executions| { assert Belongs(db, db.executions[x]) && Launched(db, x, db.executions[x]); }
    }
    forall j | 0 <= j < |after.jobs| ensures JobIsOwned(after, j) { assert JobIsOwned(db, j); }
    forall r | 0 <= r < |after.runs| ensures RunIsOwned(after, r) { assert RunIsOwned(db, r); }
  }

  lemma OfferKeeps(db: Db, event: nat, k: nat, now: int, builds: nat -> bool)
    requires Valid(db) && k < |db.rules| && event < |db.events| && db.events[event].dataset < |db.datasets|
    ensures Valid(Offer(db, event, k, now, builds))
  {
    var dataset := db.events[event].dataset;
    if Matches(db.rules[k], db.events[event], db.datasets[dataset]) && !HasExecution(db, k, dataset) {
      AddExecutionKeeps(db, event, k, now);
      DispatchKeeps(db.(executions := db.executions + [NewExecution(db, k, event, now)]), |db.executions|, now,
          builds(k));
    }
  }

  lemma {:induction false} OfferToKeeps(db: Db, event: nat, k: nat, now: int, builds: nat -> bool)
    requires Valid(db) && k <= |db.rules| && event < |db.events| && db.events[event].dataset < |db.datasets|
    ensures Valid(OfferTo(db, event, k, now, builds))
  {
    var out := OfferTo(db, event, k, now, builds);
    if k == 0 {
      assert out == db;
    } else {
      OfferToKeeps(db, event, k - 1, now, builds);
      OneMoreOfferKeeps(db, OfferTo(db, event, k - 1, now, builds), event, k - 1, now, builds, out);
    }
  }

  lemma OneMoreOfferKeeps(db: Db, before: Db, event: nat, k: nat, now: int, builds: nat -> bool, out: Db)
    requires k < |db.rules| && event < |db.events| && db.events[event].dataset < |db.datasets|
    requires before == OfferTo(db, event, k, now, builds) && Valid(before)
    requires out == OfferTo(db, event, k + 1, now, builds)
    ensures Valid(out)
  {
    OfferKeeps(before, event, k, now, builds);
  }

  // Tables may grow, datasets keep their contents, and rules and events their settings.
  ghost predicate InputsGrow(a: Db, b: Db) {
    && a.datasets <= b.datasets
    && |a.rules| <= |b.rules|
    && (forall k | 0 <= k < |a.rules| ::
          SameSettings(a.rules[k], b.rules[k]) && a.rules[k].revision <= b.rules[k].revision)
    && |a.events| <= |b.events|
    && (forall i | 0 <= i < |a.events| ::
          && b.events[i].(processedAt := None) == a.events[i].(processedAt := None)
          && (a.events[i].processedAt.Some? ==> b.events[i] == a.events[i]))
  }

  lemma InputsKeep(a: Db, b: Db)
    requires Valid(a) && InputsGrow(a, b) && EventsAreSound(b)
    requires b.executions == a.executions && b.jobs == a.jobs && b.runs == a.runs
    ensures Valid(b)
  {
    forall x | 0 <= x < |b.executions| ensures Belongs(b, b.executions[x]) && Launched(b, x, b.executions[x]) {
      assert Belongs(a, a.executions[x]) && Launched(a, x, a.executions[x]);
      assert a.datasets[a.executions[x].dataset] == b.datasets[a.executions[x].dataset];
    }
    forall j | 0 <= j < |b.jobs| ensures JobIsOwned(b, j) { assert JobIsOwned(a, j); }
    forall r | 0 <= r < |b.runs| ensures RunIsOwned(b, r) { assert RunIsOwned(a, r); }
  }

  lemma ProcessKeeps(db: Db, event: nat, now: int, builds: nat -> bool)
    requires Valid(db) && event < |db.events| && db.events[event].processedAt.None?
    ensures db.events[event].dataset < |db.datasets| && Valid(Process(db, event, now, builds))
  {
    OfferToKeeps(db, event, |db.rules|, now, builds);
    InputsKeep(OfferTo(db, event, |db.rules|, now, builds), Process(db, event, now, builds));
  }

  /******* What never changes back *******/

  ghost predicate Frozen(e: Execution, f: Execution) {
    && f.rule == e.rule && f.event == e.event && f.dataset == e.dataset && f.snapshot == e.snapshot
    && f.deadlineAt == e.deadlineAt && f.createdAt == e.createdAt
    && (e.status != Waiting ==> f == e)
  }

  // Executions keep their snapshot and deadline, ended ones everything; jobs and runs are only added.
  ghost predicate Advances(a: Db, b: Db) {
    && InputsGrow(a, b)
    && |a.executions| <= |b.executions|
    && (forall x | 0 <= x < |a.executions| :: Frozen(a.executions[x], b.executions[x]))
    && a.jobs <= b.jobs && a.runs <= b.runs
  }

  lemma AdvancesIsTransitive(a: Db, b: Db, c: Db)
    requires Advances(a, b) && Advances(b, c)
    ensures Advances(a, c)
  {
    forall x | 0 <= x < |a.executions| ensures Frozen(a.executions[x], c.executions[x]) {
      assert Frozen(a.executions[x], b.executions[x]) && Frozen(b.executions[x], c.executions[x]);
    }
    InputsGrowTransitively(a, b, c);
  }

  lemma InputsGrowTransitively(a: Db, b: Db, c: Db)
    requires InputsGrow(a, b) && InputsGrow(b, c)
    ensures InputsGrow(a, c)
  {
    forall k | 0 <= k < |a.rules|
      ensures SameSettings(a.rules[k], c.rules[k]) && a.rules[k].revision <= c.rules[k].revision
    {
      assert SameSettings(a.rules[k], b.rules[k]) && SameSettings(b.rules[k], c.rules[k]);
    }
  }

  lemma DispatchAdvances(db: Db, x: nat, rule: Rule, now: int, builds: bool)
    requires x < |db.executions| && db.executions[x].dataset < |db.datasets| && db.executions[x].status == Waiting
    ensures Advances(db, Dispatch(db, x, rule, now, builds))
  {
  }

  lemma OfferAdvances(db: Db, event: nat, k: nat, now: int, builds: nat -> bool)
    requires k < |db.rules| && event < |db.events| && db.events[event].dataset < |db.datasets|
    ensures Advances(db, Offer(db, event, k, now, builds))
  {
    var after := Offer(db, event, k, now, builds);
    if after != db {
      var added := db.(executions := db.executions + [NewExecution(db, k, event, now)]);
      DispatchAdvances(added, |db.executions|, db.rules[k], now, builds(k));
      AdvancesIsTransitive(db, added, after);
    }
  }

  lemma AdvancesIsReflexive(db: Db)
    ensures Advances(db, db)
  {
  }

  lemma {:induction false} OfferToAdvances(db: Db, event: nat, k: nat, now: int, builds: nat -> bool)
    requires k <= |db.rules| && event < |db.events| && db.events[event].dataset < |db.datasets|
    ensures Advances(db, OfferTo(db, event, k, now, builds))
  {
    if k == 0 {
      AdvancesIsReflexive(db);
    } else {
      OfferToAdvances(db, event, k - 1, now, builds);
      OneMoreOfferAdvances(db, OfferTo(db, event, k - 1, now, builds), event, k - 1, now, builds);
    }
  }

  lemma OneMoreOfferAdvances(db: Db, before: Db, event: nat, k: nat, now: int, builds: nat -> bool)
    requires Advances(db, before) && k < |before.rules| && event < |before.events|
    requires before.events[event].dataset < |before.datasets|
    ensures Advances(db, Offer(before, event, k, now, builds))
  {
    OfferAdvances(before, event, k, now, builds);
    AdvancesIsTransitive(db, before, Offer(before, event, k, now, builds));
  }

  lemma ProcessAdvances(db: Db, event: nat, now: int, builds: nat -> bool)
    requires event < |db.events| && db.events[event].dataset < |db.datasets| && db.events[event].processedAt.None?
    ensures Advances(db, Process(db, event, now, builds))
  {
    OfferToAdvances(db, event, |db.rules|, now, builds);
    var before, after := OfferTo(db, event, |db.rules|, now, builds), Process(db, event, now, builds);
    AdvancesIsTransitive(db, before, after);
  }

  /******* Which executions an event makes *******/

  lemma OfferMakes(db: Db, event: nat, k: nat, now: int, builds: nat -> bool, r: nat, d: nat)
    requires k < |db.rules| && event < |db.events| && db.events[event].dataset < |db.datasets|
    ensures HasExecution(Offer(db, event, k, now, builds), r, d) <==>
              || HasExecution(db, r, d)
              || (r == k && d == db.events[event].dataset && Matches(db.rules[k], db.events[event], db.datasets[d]))
  {
    var after := Offer(db, event, k, now, builds);
    OfferAdvances(db, event, k, now, builds);
    if x :| 0 <= x < |db.executions| && db.executions[x].rule == r && db.executions[x].dataset == d {
      assert Frozen(db.executions[x], after.executions[x]);
    }
    if after != db {
      assert after.executions[|db.executions|].rule == k
        && after.executions[|db.executions|].dataset == db.events[event].dataset;
      assert forall x | 0 <= x < |db.executions| :: after.executions[x] == db.executions[x];
    }
  }

  lemma {:induction false} OfferToMakes(db: Db, event: nat, k: nat, now: int, builds: nat -> bool, r: nat, d: nat)
    requires k <= |db.rules| && event < |db.events| && db.events[event].dataset < |db.datasets|
    ensures HasExecution(OfferTo(db, event, k, now, builds), r, d) <==>
              || HasExecution(db, r, d)
              || (r < k && d == db.events[event].dataset && Matches(db.rules[r], db.events[event], db.datasets[d]))
  {
    if k > 0 {
      OfferToMakes(db, event, k - 1, now, builds, r, d);
      OfferMakes(OfferTo(db, event, k - 1, now, builds), event, k - 1, now, builds, r, d);
    }
  }

  /** Processing an event leaves an execution for exactly the rules that had one for its dataset and those
      that match now: of the project, enabled, not younger than the event, and watching the dataset's name. */
  lemma ProcessMakes(db: Db, event: nat, now: int, builds: nat -> bool, r: nat, d: nat)
    requires event < |db.events| && db.events[event].dataset < |db.datasets|
    ensures HasExecution(Process(db, event, now, builds), r, d) <==>
              || HasExecution(db, r, d)
              || (r < |db.rules| && d == db.events[event].dataset
                  && db.rules[r].project == db.events[event].project && db.rules[r].enabled
                  && db.rules[r].createdAt <= db.events[event].createdAt
                  && db.rules[r].observedName == db.datasets[d].name)
  {
    OfferToMakes(db, event, |db.rules|, now, builds, r, d);
    assert Process(db, event, now, builds).executions == OfferTo(db, event, |db.rules|, now, builds).executions;
  }

  /******* Pausing and waiting *******/

  // A retry goes by the frozen rule.
  lemma RetryIgnoresRules(a: Db, b: Db, x: nat, now: int, builds: bool)
    requires x < |a.executions| && a.executions[x].dataset < |a.datasets| && b == a.(rules := b.rules)
    ensures Retry(b, x, now, builds) == Retry(a, x, now, builds).(rules := b.rules)
  {
  }

  /** A retry at or after the deadline ends the wait: it is dispatched if the feedback came after all. */
  lemma DeadlineEndsTheWait(db: Db, x: nat, now: int, builds: bool)
    requires Valid(db) && x < |db.executions| && db.executions[x].status == Waiting
    requires now >= db.executions[x].deadlineAt
    ensures db.executions[x].dataset < |db.datasets|
    ensures var e := Retry(db, x, now, builds).executions[x];
            var frozen := db.executions[x].snapshot;
            var observed := db.datasets[db.executions[x].dataset];
            && e.status != Waiting
            && (e.status == Dispatched ==>
                  && Latest(db.datasets, frozen.project, frozen.feedbackName.value, observed.date).Some?
                  && Retry(db, x, now, builds).jobs[e.job.value].feedback
                     == Latest(db.datasets, frozen.project, frozen.feedbackName.value, observed.date))
  {
    assert Belongs(db, db.executions[x]);
    assert OnlyFeedbackWaits(db);
  }

  /******* Any run *******/

  datatype Step =
    | Published(dataset: Dataset, now: int)
    | RuleAdded(rule: Rule)
    | RuleSet(k: nat, enabled: bool, revision: nat)
    | EventTaken(event: nat, now: int, builds: nat -> bool)
    | WaitRetried(x: nat, now: int, built: bool)
    | Crashed

  // A step that cannot be taken, or that raises, changes nothing.
  ghost function Apply(db: Db, step: Step): Db
    requires Valid(db)
  {
    match step
    case Published(dataset, now) => Publish(db, dataset, now)
    case RuleAdded(rule) => AddRule(db, rule)
    case RuleSet(k, enabled, revision) =>
      (match SetEnabled(db, k, enabled, revision) case Ok(after) => after case Err(_) => db)
    case EventTaken(event, now, builds) =>
      if event < |db.events| && db.events[event].processedAt.None? then
        assert EventsAreSound(db);
        Process(db, event, now, builds)
      else db
    case WaitRetried(x, now, built) =>
      if x < |db.executions| && db.executions[x].status == Waiting then
        assert Belongs(db, db.executions[x]);
        Retry(db, x, now, built)
      else db
    case Crashed => db
  }

  lemma InputStepKeeps(db: Db, step: Step)
    requires Valid(db) && (step.Published? || step.RuleAdded? || step.RuleSet?)
    ensures Valid(Apply(db, step)) && Advances(db, Apply(db, step))
  {
    var after := Apply(db, step);
    assert InputsGrow(db, after);
    assert EventsAreSound(after);
    InputsKeep(db, after);
  }

  lemma StepKeeps(db: Db, step: Step)
    requires Valid(db)
    ensures Valid(Apply(db, step)) && Advances(db, Apply(db, step))
  {
    match step
    case EventTaken(event, now, builds) =>
      if event < |db.events| && db.events[event].processedAt.None? {
        ProcessKeeps(db, event, now, builds);
        ProcessAdvances(db, event, now, builds);
      }
    case WaitRetried(x, now, built) =>
      if x < |db.executions| && db.executions[x].status == Waiting {
        RetryKeeps(db, x, now, built);
        DispatchAdvances(db, x, db.executions[x].snapshot, now, built);
      }
    case Crashed =>
    case _ => InputStepKeeps(db, step);
  }

  ghost function After(db: Db, steps: seq<Step>): Db
    requires Valid(db)
    decreases |steps|
  {
    if steps == [] then db
    else
      StepKeeps(db, steps[0]);
      After(Apply(db, steps[0]), steps[1..])
  }

  /** Over any run, crashes included: one execution for a rule and a dataset, one job and one run for every
      dispatched execution and for nothing else, and what has ended stays as it ended. */
  lemma {:induction false} EveryRunIsSound(db: Db, steps: seq<Step>)
    requires Valid(db)
    ensures Valid(After(db, steps)) && Advances(db, After(db, steps))
    decreases |steps|
  {
    if steps != [] {
      StepKeeps(db, steps[0]);
      EveryRunIsSound(Apply(db, steps[0]), steps[1..]);
      AdvancesIsTransitive(db, Apply(db, steps[0]), After(db, steps));
    }
  }

  predicate ChangesRules(step: Step) {
    step.RuleAdded? || step.RuleSet?
  }

  function WithoutRuleChanges(steps: seq<Step>): seq<Step> {
    if steps == [] then []
    else (if ChangesRules(steps[0]) then [] else [steps[0]]) + WithoutRuleChanges(steps[1..])
  }

  lemma StepIgnoresRules(a: Db, b: Db, step: Step)
    requires Valid(a) && Valid(b) && b == a.(rules := b.rules) && !step.EventTaken?
    ensures ChangesRules(step) ==> b == Apply(a, step).(rules := b.rules)
    ensures !ChangesRules(step) ==> Apply(b, step) == Apply(a, step).(rules := Apply(b, step).rules)
  {
    if step.WaitRetried? && step.x < |a.executions| {
      assert Belongs(a, a.executions[step.x]);
      RetryIgnoresRules(a, b, step.x, step.now, step.built);
    }
  }

  /** Adding, pausing and resuming rules matters only to events yet to be taken: over any run that takes none,
      every execution, job and run is as if no rule had been changed. */
  lemma {:induction false} RuleChangesReachOnlyEvents(a: Db, b: Db, steps: seq<Step>)
    requires Valid(a) && Valid(b) && b == a.(rules := b.rules)
    requires forall k | 0 <= k < |steps| :: !steps[k].EventTaken?
    ensures var after := After(b, WithoutRuleChanges(steps)); after == After(a, steps).(rules := after.rules)
    decreases |steps|
  {
    if steps != [] {
      var step, rest := steps[0], WithoutRuleChanges(steps[1..]);
      StepKeeps(a, step);
      StepIgnoresRules(a, b, step);
      if ChangesRules(step) {
        assert WithoutRuleChanges(steps) == rest;
        RuleChangesReachOnlyEvents(Apply(a, step), b, steps[1..]);
      } else {
        StepKeeps(b, step);
        assert WithoutRuleChanges(steps)[1..] == rest;
        RuleChangesReachOnlyEvents(Apply(a, step), Apply(b, step), steps[1..]);
      }
    }
  }

  lemma EmptyIsValid()
    ensures Valid(EMPTY)
  {
  }

  // Whose job or run: what the tables say read as one launch each.
  lemma OneLaunchEach(db: Db, x: nat)
    requires Valid(db) && x < |db.executions|
    ensures var launches := if db.executions[x].status == Dispatched then 1 else 0;
            && |set j | 0 <= j < |db.jobs| && db.jobs[j].execution == x| == launches
            && |set r | 0 <= r < |db.runs| && db.runs[r].execution == x| == launches
  {
    var e := db.executions[x];
    assert Launched(db, x, e) && Belongs(db, e);
    var jobs := set j | 0 <= j < |db.jobs| && db.jobs[j].execution == x;
    var runs := set r | 0 <= r < |db.runs| && db.runs[r].execution == x;
    forall j | j in jobs ensures e.status == Dispatched && e.job == Some(j) { assert JobIsOwned(db, j); }
    forall r | r in runs ensures e.status == Dispatched && e.run == Some(r) { assert RunIsOwned(db, r); }
    if e.status == Dispatched {
      assert jobs == {e.job.value} && runs == {e.run.value};
    } else {
      assert jobs == {} && runs == {};
    }
  }
}
