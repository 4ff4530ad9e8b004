/** Dataset versions, batch jobs and runs: what each committed transaction adds, in commit order. */
module Catalog {
  import opened Wrappers

  // What managed publication records beside the dataset: the frozen input and model of its step.
  datatype Audit = Audit(input: nat, model: nat)

  // `shape` is the connection, format and columns; `payload` the rest of the contents. `at` is the moment
  // of the commit.
  datatype Dataset = Dataset(
    project: nat, name: nat, version: nat, producer: Option<nat>, date: Option<int>, shape: nat, payload: nat,
    audit: Option<Audit>, at: nat)

  // The run that trained a version is what its tag says: nothing checks that there is such a run.
  datatype Version = Version(project: nat, trainedBy: Option<nat>, at: nat)

  datatype Policy = Pinned(input: nat) | LatestOf(name: nat) | ByDate(name: nat)

  datatype Batch = Batch(policy: Policy, shape: nat, model: nat)

  datatype Job = Job(project: nat, batch: Option<Batch>, at: nat)

  // The inputs of a run's steps are frozen when it is created; a job run has one step.
  datatype Run = Run(
    project: nat, pipeline: bool, jobs: seq<nat>, date: Option<int>, key: Option<nat>, snapshots: seq<Option<Audit>>,
    at: nat)

  // Tables in commit order; a row's id is its position. `now` counts commits.
  datatype Catalog = Catalog(datasets: seq<Dataset>, models: seq<Version>, jobs: seq<Job>, runs: seq<Run>, now: nat)

  const EMPTY := Catalog([], [], [], [], 0)

  /******* Lookups *******/

  predicate Named(d: Dataset, project: nat, name: nat) {
    d.project == project && d.name == name
  }

  // The last version of a name, which is also the greatest.
  function Latest(datasets: seq<Dataset>, project: nat, name: nat): (r: Option<nat>)
    ensures r.Some? ==> r.value < |datasets| && Named(datasets[r.value], project, name)
                        && forall k | r.value < k < |datasets| :: !Named(datasets[k], project, name)
    ensures r.None? ==> forall k | 0 <= k < |datasets| :: !Named(datasets[k], project, name)
  {
    if datasets == [] then None
    else if Named(datasets[|datasets| - 1], project, name) then Some(|datasets| - 1)
    else Latest(datasets[..|datasets| - 1], project, name)
  }

  function LatestForDate(datasets: seq<Dataset>, project: nat, name: nat, date: Option<int>): (r: Option<nat>)
    ensures r.Some? ==>
              r.value < |datasets| && Named(datasets[r.value], project, name) && datasets[r.value].date == date
                        && forall k | r.value < k < |datasets| ::
                             !(Named(datasets[k], project, name) && datasets[k].date == date)
  {
    if datasets == [] then None
    else if Named(datasets[|datasets| - 1], project, name) && datasets[|datasets| - 1].date == date then
      Some(|datasets| - 1)
    else LatestForDate(datasets[..|datasets| - 1], project, name, date)
  }

  function VersionAfter(datasets: seq<Dataset>, project: nat, name: nat): nat {
    var latest := Latest(datasets, project, name);
    if latest.Some? then datasets[latest.value].version + 1 else 1
  }

  // Job runs and pipeline runs have keys of their own.
  predicate HasKey(r: Run, project: nat, pipeline: bool, key: nat) {
    r.project == project && r.pipeline == pipeline && r.key == Some(key)
  }

  function KeyedRun(runs: seq<Run>, project: nat, pipeline: bool, key: nat): (r: Option<nat>)
    ensures r.Some? ==> r.value < |runs| && HasKey(runs[r.value], project, pipeline, key)
                        && forall k | 0 <= k < r.value :: !HasKey(runs[k], project, pipeline, key)
    ensures r.None? ==> forall k | 0 <= k < |runs| :: !HasKey(runs[k], project, pipeline, key)
  {
    if runs == [] then None
    else
      var earlier := KeyedRun(runs[..|runs| - 1], project, pipeline, key);
      assert forall k | 0 <= k < |runs| - 1 :: runs[..|runs| - 1][k] == runs[k];
      if earlier.Some? then earlier
      else if HasKey(runs[|runs| - 1], project, pipeline, key) then Some(|runs| - 1)
      else None
  }

  /******* Transactions *******/

  // Everything two versions are compared by when one is published again.
  predicate SameContent(a: Dataset, b: Dataset) {
    a.(version := b.version, audit := b.audit, at := b.at) == b
  }

  predicate ProducerExists(c: Catalog, project: nat, producer: Option<nat>) {
    producer.Some? ==> producer.value < |c.runs| && c.runs[producer.value].project == project
  }

  // The catalog and the dataset published: the latest one itself when it already has these contents.
  function PublishDataset(c: Catalog, project: nat, name: nat, expected: nat, producer: Option<nat>,
      date: Option<int>, shape: nat, payload: nat): Result<(Catalog, nat)> {
    var latest := Latest(c.datasets, project, name);
    var candidate :=
      Dataset(project, name, VersionAfter(c.datasets, project, name), producer, date, shape, payload, None, c.now);
    if !ProducerExists(c, project, producer) then Err(NotFound)
    else if latest.Some? && SameContent(c.datasets[latest.value], candidate) then Ok((c, latest.value))
    else if expected != (if latest.Some? then c.datasets[latest.value].version else 0) then Err(Conflict)
    else Ok((c.(datasets := c.datasets + [candidate], now := c.now + 1), |c.datasets|))
  }

  // The reconciler publishes what a step of a run wrote, with the input and model frozen for that step.
  function PublishOutput(c: Catalog, run: nat, step: nat, name: nat, date: Option<int>, shape: nat,
      payload: nat): Result<(Catalog, nat)> {
    if |c.runs| <= run || |c.runs[run].snapshots| <= step || c.runs[run].snapshots[step].None? then Err(InvalidArgument)
    else
      var project := c.runs[run].project;
      var entity := Dataset(project, name, VersionAfter(c.datasets, project, name), Some(run), date, shape, payload,
          c.runs[run].snapshots[step], c.now);
      Ok((c.(datasets := c.datasets + [entity], now := c.now + 1), |c.datasets|))
  }

  predicate BatchExists(c: Catalog, project: nat, batch: Batch) {
    && batch.model < |c.models| && c.models[batch.model].project == project
    && (batch.policy.Pinned? ==> batch.policy.input < |c.datasets| && c.datasets[batch.policy.input].project == project)
  }

  function CreateJob(c: Catalog, project: nat, batch: Option<Batch>): Result<Catalog> {
    if batch.Some? && !BatchExists(c, project, batch.value) then Err(NotFound)
    else Ok(c.(jobs := c.jobs + [Job(project, batch, c.now)], now := c.now + 1))
  }

  function RegisterVersion(c: Catalog, project: nat, trainedBy: Option<nat>): Catalog {
    c.(models := c.models + [Version(project, trainedBy, c.now)], now := c.now + 1)
  }

  // The input a batch job reads when it is run now.
  function Resolve(c: Catalog, project: nat, batch: Batch, date: Option<int>): Result<Audit> {
    match batch.policy
    case Pinned(input) => Ok(Audit(input, batch.model))
    case LatestOf(name) => Selected(c, batch, Latest(c.datasets, project, name))
    case ByDate(name) =>
      if date.None? then Err(InvalidArgument) else Selected(c, batch, LatestForDate(c.datasets, project, name, date))
  }

  function Selected(c: Catalog, batch: Batch, input: Option<nat>): Result<Audit>
    requires input.Some? ==> input.value < |c.datasets|
  {
    if input.None? then Err(NotFound)
    else if c.datasets[input.value].shape != batch.shape then Err(InvalidArgument)
    else Ok(Audit(input.value, batch.model))
  }

  // One snapshot for each of the first n jobs of a run.
  function Snapshots(c: Catalog, project: nat, jobs: seq<nat>, n: nat, date: Option<int>): Result<seq<Option<Audit>>>
    requires n <= |jobs|
  {
    if n == 0 then Ok([])
    else
      var earlier := Snapshots(c, project, jobs, n - 1, date);
      if earlier.Err? then earlier
      else if |c.jobs| <= jobs[n - 1] || c.jobs[jobs[n - 1]].project != project then Err(NotFound)
      else
        match c.jobs[jobs[n - 1]].batch
        case None => Ok(earlier.value + [None])
        case Some(batch) =>
          var audit := Resolve(c, project, batch, date);
          if audit.Err? then Err(audit.error) else Ok(earlier.value + [Some(audit.value)])
  }

  // The catalog and the run: an existing one when the key was used for the same request.
  function CreateRun(c: Catalog, project: nat, pipeline: bool, jobs: seq<nat>, date: Option<int>,
      key: Option<nat>): Result<(Catalog, nat)> {
    var existing := if key.Some? then KeyedRun(c.runs, project, pipeline, key.value) else None;
    if exists i | 0 <= i < |jobs| :: |c.jobs| <= jobs[i] || c.jobs[jobs[i]].project != project then Err(NotFound)
    else if existing.Some? then
      var run := c.runs[existing.value];
      if run.jobs != jobs || run.date != date then Err(Conflict) else Ok((c, existing.value))
    else
      var snapshots := Snapshots(c, project, jobs, |jobs|, date);
      if snapshots.Err? then Err(snapshots.error)
      else Ok((c.(runs := c.runs + [Run(project, pipeline, jobs, date, key, snapshots.value, c.now)],
              now := c.now + 1), |c.runs|))
  }

  /******* Invariants *******/

  // How many of the first n datasets have a name.
  function Count(datasets: seq<Dataset>, project: nat, name: nat, n: nat): nat
    requires n <= |datasets|
  {
    if n == 0 then 0 else Count(datasets, project, name, n - 1) + if Named(datasets[n - 1], project, name) then 1 else 0
  }

  // The versions of every name are 1, 2, 3 and so on, in commit order.
  ghost predicate Dense(datasets: seq<Dataset>) {
    forall i {:trigger datasets[i].version} | 0 <= i < |datasets| ::
      datasets[i].version == Count(datasets, datasets[i].project, datasets[i].name, i) + 1
  }

  // What a frozen audit refers to was committed before the moment `at`, in the same project.
  predicate AuditIsEarlier(c: Catalog, audit: Audit, project: nat, at: nat) {
    && audit.input < |c.datasets| && c.datasets[audit.input].at < at && c.datasets[audit.input].project == project
    && audit.model < |c.models| && c.models[audit.model].at < at && c.models[audit.model].project == project
  }

  predicate DatasetIsLater(c: Catalog, d: Dataset) {
    && d.at < c.now
    && (d.audit.Some? ==> d.producer.Some?)
    && (d.producer.Some? ==>
          && d.producer.value < |c.runs|
          && c.runs[d.producer.value].project == d.project && c.runs[d.producer.value].at < d.at
          && (d.audit.Some? ==> AuditIsEarlier(c, d.audit.value, d.project, c.runs[d.producer.value].at)))
  }

  predicate VersionIsLater(c: Catalog, v: Version) {
    v.at < c.now
  }

  predicate JobIsLater(c: Catalog, j: Job) {
    j.at < c.now && (j.batch.Some? ==>
      && j.batch.value.model < |c.models| && c.models[j.batch.value.model].at < j.at
      && c.models[j.batch.value.model].project == j.project
      && (j.batch.value.policy.Pinned? ==>
            var input := j.batch.value.policy.input;
            input < |c.datasets| && c.datasets[input].at < j.at && c.datasets[input].project == j.project))
  }

  ghost predicate RunIsLater(c: Catalog, r: Run) {
    && r.at < c.now
    && forall i | 0 <= i < |r.snapshots| && r.snapshots[i].Some? ::
         AuditIsEarlier(c, r.snapshots[i].value, r.project, r.at)
  }

  ghost predicate Ordered(c: Catalog) {
    && (forall d | d in c.datasets :: DatasetIsLater(c, d))
    && (forall v | v in c.models :: VersionIsLater(c, v))
    && (forall j | j in c.jobs :: JobIsLater(c, j))
    && (forall r | r in c.runs :: RunIsLater(c, r))
  }

  ghost predicate Valid(c: Catalog) {
    Dense(c.datasets) && Ordered(c)
  }

  // Rows are only added.
  ghost predicate Extends(a: Catalog, b: Catalog) {
    a.datasets <= b.datasets && a.models <= b.models && a.jobs <= b.jobs && a.runs <= b.runs && a.now <= b.now
  }

  lemma {:induction false} CountOfPrefix(a: seq<Dataset>, b: seq<Dataset>, project: nat, name: nat, n: nat)
    requires n <= |a| && a <= b
    ensures Count(a, project, name, n) == Count(b, project, name, n)
  {
    if n > 0 { CountOfPrefix(a, b, project, name, n - 1); }
  }

  lemma {:induction false} CountAfter(datasets: seq<Dataset>, project: nat, name: nat, k: nat, n: nat)
    requires k < n <= |datasets| && forall i | k < i < n :: !Named(datasets[i], project, name)
    ensures Count(datasets, project, name, n) == Count(datasets, project, name, k + 1)
  {
    if k + 1 < n { CountAfter(datasets, project, name, k, n - 1); }
  }

  lemma {:induction false} CountOfNone(datasets: seq<Dataset>, project: nat, name: nat, n: nat)
    requires n <= |datasets| && forall i | 0 <= i < n :: !Named(datasets[i], project, name)
    ensures Count(datasets, project, name, n) == 0
  {
    if n > 0 { CountOfNone(datasets, project, name, n - 1); }
  }

  lemma NextVersionIsDense(datasets: seq<Dataset>, project: nat, name: nat)
    requires Dense(datasets)
    ensures VersionAfter(datasets, project, name) == Count(datasets, project, name, |datasets|) + 1
  {
    match Latest(datasets, project, name)
    case Some(k) => CountAfter(datasets, project, name, k, |datasets|);
    case None => CountOfNone(datasets, project, name, |datasets|);
  }

  lemma AppendIsDense(datasets: seq<Dataset>, d: Dataset)
    requires Dense(datasets) && d.version == VersionAfter(datasets, d.project, d.name)
    ensures Dense(datasets + [d])
  {
    var more := datasets + [d];
    forall i | 0 <= i < |more| ensures more[i].version == Count(more, more[i].project, more[i].name, i) + 1 {
      CountOfPrefix(datasets, more, more[i].project, more[i].name, i);
      if i == |datasets| { NextVersionIsDense(datasets, d.project, d.name); }
    }
  }

  // What was in order stays in order when rows are added.
  lemma OrderedGrows(a: Catalog, b: Catalog)
    requires Ordered(a) && Extends(a, b)
    ensures forall d | d in a.datasets :: DatasetIsLater(b, d)
    ensures forall v | v in a.models :: VersionIsLater(b, v)
    ensures forall j | j in a.jobs :: JobIsLater(b, j)
    ensures forall r | r in a.runs :: RunIsLater(b, r)
  {
    forall r | r in a.runs ensures RunIsLater(b, r) {
      assert RunIsLater(a, r);
    }
  }

  lemma AddDatasetKeeps(c: Catalog, d: Dataset)
    requires Valid(c) && d.at == c.now && d.version == VersionAfter(c.datasets, d.project, d.name)
    requires DatasetIsLater(c.(now := c.now + 1), d)
    ensures Valid(c.(datasets := c.datasets + [d], now := c.now + 1))
  {
    var after := c.(datasets := c.datasets + [d], now := c.now + 1);
    AppendIsDense(c.datasets, d);
    OrderedGrows(c, after);
    forall e | e in after.datasets ensures DatasetIsLater(after, e) {
      assert e in c.datasets || e == d;
    }
  }

  lemma PublishDatasetKeeps(c: Catalog, project: nat, name: nat, expected: nat, producer: Option<nat>,
      date: Option<int>, shape: nat, payload: nat)
    requires Valid(c)
    ensures var out := PublishDataset(c, project, name, expected, producer, date, shape, payload);
            out.Ok? ==> Valid(out.value.0) && Extends(c, out.value.0)
  {
    var out := PublishDataset(c, project, name, expected, producer, date, shape, payload);
    if out.Ok? && out.value.0 != c {
      if producer.Some? { assert RunIsLater(c, c.runs[producer.value]); }
      AddDatasetKeeps(c, out.value.0.datasets[|c.datasets|]);
    }
  }

  lemma PublishOutputKeeps(c: Catalog, run: nat, step: nat, name: nat, date: Option<int>, shape: nat, payload: nat)
    requires Valid(c)
    ensures var out := PublishOutput(c, run, step, name, date, shape, payload);
            out.Ok? ==> Valid(out.value.0) && Extends(c, out.value.0)
  {
    var out := PublishOutput(c, run, step, name, date, shape, payload);
    if out.Ok? {
      assert RunIsLater(c, c.runs[run]);
      AddDatasetKeeps(c, out.value.0.datasets[|c.datasets|]);
    }
  }

  lemma CreateJobKeeps(c: Catalog, project: nat, batch: Option<Batch>)
    requires Valid(c)
    ensures CreateJob(c, project, batch).Ok? ==>
              Valid(CreateJob(c, project, batch).value) && Extends(c, CreateJob(c, project, batch).value)
  {
    var out := CreateJob(c, project, batch);
    if out.Ok? {
      OrderedGrows(c, out.value);
      if batch.Some? {
        assert VersionIsLater(c, c.models[batch.value.model]);
        assert batch.value.policy.Pinned? ==> DatasetIsLater(c, c.datasets[batch.value.policy.input]);
      }
    }
  }

  lemma RegisterVersionKeeps(c: Catalog, project: nat, trainedBy: Option<nat>)
    requires Valid(c)
    ensures Valid(RegisterVersion(c, project, trainedBy)) && Extends(c, RegisterVersion(c, project, trainedBy))
  {
    OrderedGrows(c, RegisterVersion(c, project, trainedBy));
  }

  lemma ResolveIsEarlier(c: Catalog, job: Job, date: Option<int>)
    requires Valid(c) && job in c.jobs && job.batch.Some?
    ensures var audit := Resolve(c, job.project, job.batch.value, date);
            audit.Ok? ==> AuditIsEarlier(c, audit.value, job.project, c.now)
  {
    assert JobIsLater(c, job);
    var audit := Resolve(c, job.project, job.batch.value, date);
    if audit.Ok? {
      assert c.datasets[audit.value.input] in c.datasets;
    }
  }

  ghost predicate AllEarlier(c: Catalog, snapshots: seq<Option<Audit>>, project: nat) {
    forall i | 0 <= i < |snapshots| && snapshots[i].Some? :: AuditIsEarlier(c, snapshots[i].value, project, c.now)
  }

  lemma {:induction false} SnapshotsAreEarlier(c: Catalog, project: nat, jobs: seq<nat>, n: nat, date: Option<int>)
    requires Valid(c) && n <= |jobs|
    ensures var out := Snapshots(c, project, jobs, n, date);
            out.Ok? ==> |out.value| == n && AllEarlier(c, out.value, project)
  {
    if n > 0 {
      SnapshotsAreEarlier(c, project, jobs, n - 1, date);
      if jobs[n - 1] < |c.jobs| && c.jobs[jobs[n - 1]].batch.Some? {
        ResolveIsEarlier(c, c.jobs[jobs[n - 1]], date);
      }
    }
  }

  lemma CreateRunKeeps(c: Catalog, project: nat, pipeline: bool, jobs: seq<nat>, date: Option<int>, key: Option<nat>)
    requires Valid(c)
    ensures var out := CreateRun(c, project, pipeline, jobs, date, key);
            out.Ok? ==> Valid(out.value.0) && Extends(c, out.value.0)
  {
    var out := CreateRun(c, project, pipeline, jobs, date, key);
    if out.Ok? && out.value.0 != c {
      var after := out.value.0;
      SnapshotsAreEarlier(c, project, jobs, |jobs|, date);
      OrderedGrows(c, after);
      var run := after.runs[|c.runs|];
      assert RunIsLater(after, run);
      forall r | r in after.runs ensures RunIsLater(after, r) {
        assert r in c.runs || r == run;
      }
    }
  }

  /******* Any history *******/

  datatype Step =
    | DatasetPublished(project: nat, name: nat, expected: nat, producer: Option<nat>, date: Option<int>, shape: nat,
        payload: nat)
    | OutputPublished(run: nat, step: nat, name: nat, date: Option<int>, shape: nat, payload: nat)
    | JobCreated(project: nat, batch: Option<Batch>)
    | VersionRegistered(project: nat, trainedBy: Option<nat>)
    | RunCreated(project: nat, pipeline: bool, jobs: seq<nat>, date: Option<int>, key: Option<nat>)

  function Or<T>(out: Result<(Catalog, T)>, c: Catalog): Catalog {
    if out.Ok? then out.value.0 else c
  }

  // A transaction that raises changes nothing.
  function Apply(c: Catalog, s: Step): Catalog {
    match s
    case DatasetPublished(project, name, expected, producer, date, shape, payload) =>
      Or(PublishDataset(c, project, name, expected, producer, date, shape, payload), c)
    case OutputPublished(run, step, name, date, shape, payload) =>
      Or(PublishOutput(c, run, step, name, date, shape, payload), c)
    case JobCreated(project, batch) =>
      if CreateJob(c, project, batch).Ok? then CreateJob(c, project, batch).value else c
    case VersionRegistered(project, trainedBy) => RegisterVersion(c, project, trainedBy)
    case RunCreated(project, pipeline, jobs, date, key) => Or(CreateRun(c, project, pipeline, jobs, date, key), c)
  }

  lemma StepKeeps(c: Catalog, s: Step)
    requires Valid(c)
    ensures Valid(Apply(c, s)) && Extends(c, Apply(c, s))
  {
    match s
    case DatasetPublished(project, name, expected, producer, date, shape, payload) =>
      PublishDatasetKeeps(c, project, name, expected, producer, date, shape, payload);
    case OutputPublished(run, step, name, date, shape, payload) =>
      PublishOutputKeeps(c, run, step, name, date, shape, payload);
    case JobCreated(project, batch) => CreateJobKeeps(c, project, batch);
    case VersionRegistered(project, trainedBy) => RegisterVersionKeeps(c, project, trainedBy);
    case RunCreated(project, pipeline, jobs, date, key) => CreateRunKeeps(c, project, pipeline, jobs, date, key);
  }

  function After(c: Catalog, steps: seq<Step>): Catalog
    decreases |steps|
  {
    if steps == [] then c else After(Apply(c, steps[0]), steps[1..])
  }

  /** Over any history rows are only added, versions stay dense across both ways of publishing, and every
      run is later than the inputs and models it froze and earlier than what it produced. */
  lemma {:induction false} EveryHistoryIsSound(c: Catalog, steps: seq<Step>)
    requires Valid(c)
    ensures Valid(After(c, steps)) && Extends(c, After(c, steps))
    decreases |steps|
  {
    if steps != [] {
      StepKeeps(c, steps[0]);
      EveryHistoryIsSound(Apply(c, steps[0]), steps[1..]);
    }
  }

  /** Dense versions: no two datasets of a name share one, and they come in commit order without a gap. */
  lemma {:induction false} DenseIsConsecutive(datasets: seq<Dataset>, i: nat, j: nat)
    requires Dense(datasets) && i < j < |datasets| && Named(datasets[j], datasets[i].project, datasets[i].name)
    ensures datasets[i].version < datasets[j].version
    ensures (forall k | i < k < j :: !Named(datasets[k], datasets[i].project, datasets[i].name)) ==>
              datasets[j].version == datasets[i].version + 1
  {
    CountGrows(datasets, datasets[i].project, datasets[i].name, i + 1, j);
    if forall k | i < k < j :: !Named(datasets[k], datasets[i].project, datasets[i].name) {
      CountAfter(datasets, datasets[i].project, datasets[i].name, i, j);
    }
  }

  lemma {:induction false} CountGrows(datasets: seq<Dataset>, project: nat, name: nat, k: nat, n: nat)
    requires k <= n <= |datasets|
    ensures Count(datasets, project, name, k) <= Count(datasets, project, name, n)
  {
    if k < n { CountGrows(datasets, project, name, k, n - 1); }
  }

  /******* Idempotence *******/

  /** Publishing the same contents again returns the version that was published and adds nothing, even with
      an expectation that is out of date by then. */
  lemma PublishingAgainReturnsIt(c: Catalog, project: nat, name: nat, expected: nat, again: nat,
      producer: Option<nat>, date: Option<int>, shape: nat, payload: nat)
    requires PublishDataset(c, project, name, expected, producer, date, shape, payload).Ok?
    ensures var (after, d) := PublishDataset(c, project, name, expected, producer, date, shape, payload).value;
            PublishDataset(after, project, name, again, producer, date, shape, payload) == Ok((after, d))
  {
    var (after, d) := PublishDataset(c, project, name, expected, producer, date, shape, payload).value;
    assert after.datasets[d].project == project;
    var latest := Latest(after.datasets, project, name);
    assert latest == Some(d);
  }

  /** A request with a key returns the run it made the first time, with the inputs frozen then, whatever has
      been published since. */
  lemma KeyReturnsTheRun(c: Catalog, later: Catalog, project: nat, pipeline: bool, jobs: seq<nat>, date: Option<int>,
      key: nat)
    requires CreateRun(c, project, pipeline, jobs, date, Some(key)).Ok?
    requires Extends(CreateRun(c, project, pipeline, jobs, date, Some(key)).value.0, later)
    ensures CreateRun(later, project, pipeline, jobs, date, Some(key))
           == Ok((later, CreateRun(c, project, pipeline, jobs, date, Some(key)).value.1))
  {
    var (after, r) := CreateRun(c, project, pipeline, jobs, date, Some(key)).value;
    assert later.runs[r] == after.runs[r];
    assert forall i | 0 <= i < |jobs| :: jobs[i] < |c.jobs| && later.jobs[jobs[i]] == c.jobs[jobs[i]];
    FirstKeyed(after.runs, later.runs, project, pipeline, key, r);
  }

  lemma FirstKeyed(a: seq<Run>, b: seq<Run>, project: nat, pipeline: bool, key: nat, r: nat)
    requires a <= b && r < |a| && HasKey(a[r], project, pipeline, key)
    requires forall k | 0 <= k < r :: !HasKey(a[k], project, pipeline, key)
    ensures KeyedRun(b, project, pipeline, key) == Some(r)
  {
    assert forall k | 0 <= k < |a| :: b[k] == a[k];
  }

  /******* When a request is accepted *******/

  // The latest dataset of a name.
  ghost predicate IsLatest(c: Catalog, project: nat, name: nat, k: nat) {
    && k < |c.datasets| && c.datasets[k].project == project && c.datasets[k].name == name
    && forall j | k < j < |c.datasets| :: !(c.datasets[j].project == project && c.datasets[j].name == name)
  }

  ghost predicate IsNew(c: Catalog, project: nat, name: nat) {
    forall j | 0 <= j < |c.datasets| :: !(c.datasets[j].project == project && c.datasets[j].name == name)
  }

  /** A dataset is published exactly if its producer is a run of the project, if it has one, and it is what the
      latest of its name is already, or the version expected is that of the latest, none for a new name. It is
      the next version, and nothing else is added. */
  lemma PublishedExactly(c: Catalog, project: nat, name: nat, expected: nat, producer: Option<nat>, date: Option<int>,
      shape: nat, payload: nat, k: nat)
    requires IsLatest(c, project, name, k) || (IsNew(c, project, name) && k == |c.datasets|)
    ensures var out := PublishDataset(c, project, name, expected, producer, date, shape, payload);
            var produced := producer.Some? ==> producer.value < |c.runs| && c.runs[producer.value].project == project;
            var version := if k < |c.datasets| then c.datasets[k].version else 0;
            var again := && k < |c.datasets| && c.datasets[k].producer == producer && c.datasets[k].date == date
                         && c.datasets[k].shape == shape && c.datasets[k].payload == payload;
            && (out.Ok? <==> produced && (again || expected == version))
            && (out.Err? ==> out.error == if produced then Conflict else NotFound)
            && (out.Ok? && again ==> out.value == (c, k))
            && (out.Ok? && !again ==>
                  var made := Dataset(project, name, version + 1, producer, date, shape, payload, None, c.now);
                  out.value == (c.(datasets := c.datasets + [made], now := c.now + 1), |c.datasets|))
  {
    assert Latest(c.datasets, project, name) == if k < |c.datasets| then Some(k) else None;
  }

  /** What a step of a run wrote is published exactly if the run froze an input and a model for it; with these,
      as the next version of the project's dataset. */
  lemma OutputPublishedExactly(c: Catalog, run: nat, step: nat, name: nat, date: Option<int>, shape: nat, payload: nat)
    ensures var out := PublishOutput(c, run, step, name, date, shape, payload);
            && (out.Ok? <==> run < |c.runs| && step < |c.runs[run].snapshots| && c.runs[run].snapshots[step] != None)
            && (out.Err? ==> out.error == InvalidArgument)
            && (out.Ok? ==>
                  var project := c.runs[run].project;
                  var made := Dataset(project, name, VersionAfter(c.datasets, project, name), Some(run), date, shape,
                                      payload, c.runs[run].snapshots[step], c.now);
                  out.value == (c.(datasets := c.datasets + [made], now := c.now + 1), |c.datasets|))
  {
  }

  // The input a batch job reads now: the one pinned, or the latest of a name, or of a name and the date, if it
  // has the shape the job was made for.
  ghost predicate Reads(c: Catalog, project: nat, batch: Batch, date: Option<int>, k: nat) {
    match batch.policy
    case Pinned(input) => k == input
    case LatestOf(name) => IsLatest(c, project, name, k) && c.datasets[k].shape == batch.shape
    case ByDate(name) =>
      && date != None && k < |c.datasets| && IsOf(c.datasets[k], project, name, date)
      && c.datasets[k].shape == batch.shape
      && forall j | k < j < |c.datasets| :: !IsOf(c.datasets[j], project, name, date)
  }

  ghost predicate IsOf(d: Dataset, project: nat, name: nat, date: Option<int>) {
    d.project == project && d.name == name && d.date == date
  }

  // There is no dataset of the name, or none of the name for the date.
  ghost predicate NothingToRead(c: Catalog, project: nat, batch: Batch, date: Option<int>) {
    match batch.policy
    case Pinned(_) => false
    case LatestOf(name) => IsNew(c, project, name)
    case ByDate(name) => date != None && forall j | 0 <= j < |c.datasets| :: !IsOf(c.datasets[j], project, name, date)
  }

  lemma ResolvedExactly(c: Catalog, project: nat, batch: Batch, date: Option<int>, k: nat)
    ensures Resolve(c, project, batch, date) == Ok(Audit(k, batch.model)) <==> Reads(c, project, batch, date, k)
    ensures Resolve(c, project, batch, date).Ok? ==> Resolve(c, project, batch, date).value.model == batch.model
    ensures Resolve(c, project, batch, date).Err? ==>
              Resolve(c, project, batch, date).error
              == if NothingToRead(c, project, batch, date) then NotFound else InvalidArgument
  {
    match batch.policy
    case Pinned(_) =>
    case LatestOf(name) =>
      assert k < |c.datasets| && IsLatest(c, project, name, k) ==> Named(c.datasets[k], project, name);
      assert Latest(c.datasets, project, name) == Some(k) <==> IsLatest(c, project, name, k);
    case ByDate(name) =>
      var found := LatestForDate(c.datasets, project, name, date);
      assert forall j | 0 <= j < |c.datasets| ::
          IsOf(c.datasets[j], project, name, date) <==>
            Named(c.datasets[j], project, name) && c.datasets[j].date == date;
      NoneForDate(c.datasets, project, name, date);
  }

  lemma {:induction false} NoneForDate(datasets: seq<Dataset>, project: nat, name: nat, date: Option<int>)
    ensures LatestForDate(datasets, project, name, date).None? ==>
              forall j | 0 <= j < |datasets| :: !IsOf(datasets[j], project, name, date)
  {
    if datasets != [] {
      NoneForDate(datasets[..|datasets| - 1], project, name, date);
    }
  }

  // What a run freezes for one job.
  ghost predicate Freezes(c: Catalog, project: nat, job: nat, date: Option<int>, snapshot: Option<Audit>) {
    && job < |c.jobs| && c.jobs[job].project == project
    && match c.jobs[job].batch
       case None => snapshot == None
       case Some(batch) =>
         && snapshot.Some? && snapshot.value.model == batch.model
         && Reads(c, project, batch, date, snapshot.value.input)
  }

  ghost predicate FreezesAll(c: Catalog, project: nat, jobs: seq<nat>, date: Option<int>,
      snapshots: seq<Option<Audit>>) {
    && |snapshots| == |jobs|
    && forall i | 0 <= i < |jobs| :: Freezes(c, project, jobs[i], date, snapshots[i])
  }

  lemma OneFrozen(c: Catalog, project: nat, job: nat, date: Option<int>, batch: Batch, snapshot: Option<Audit>)
    requires job < |c.jobs| && c.jobs[job].project == project && c.jobs[job].batch == Some(batch)
    ensures Freezes(c, project, job, date, snapshot) <==>
              Resolve(c, project, batch, date).Ok? && snapshot == Some(Resolve(c, project, batch, date).value)
  {
    var out := Resolve(c, project, batch, date);
    if snapshot.Some? { ResolvedExactly(c, project, batch, date, snapshot.value.input); }
    if out.Ok? { ResolvedExactly(c, project, batch, date, out.value.input); }
  }

  lemma {:induction false} SnapshotsAreExact(c: Catalog, project: nat, jobs: seq<nat>, n: nat, date: Option<int>,
      snapshots: seq<Option<Audit>>)
    requires n <= |jobs|
    ensures Snapshots(c, project, jobs, n, date) == Ok(snapshots) <==>
              FreezesAll(c, project, jobs[..n], date, snapshots)
  {
    if n > 0 && snapshots != [] {
      var last := |snapshots| - 1;
      var job := jobs[n - 1];
      SnapshotsAreExact(c, project, jobs, n - 1, date, snapshots[..last]);
      assert snapshots == snapshots[..last] + [snapshots[last]];
      FrozenOneMore(c, project, jobs, n - 1, date, snapshots);
      if job < |c.jobs| && c.jobs[job].project == project && c.jobs[job].batch.Some? {
        OneFrozen(c, project, job, date, c.jobs[job].batch.value, snapshots[last]);
      }
    } else if n > 0 {
      NoneEmpty(c, project, jobs, n, date);
    }
  }

  lemma NoneEmpty(c: Catalog, project: nat, jobs: seq<nat>, n: nat, date: Option<int>)
    requires 0 < n <= |jobs|
    ensures Snapshots(c, project, jobs, n, date).Ok? ==> Snapshots(c, project, jobs, n, date).value != []
  {
  }

  lemma FrozenOneMore(c: Catalog, project: nat, jobs: seq<nat>, n: nat, date: Option<int>,
      snapshots: seq<Option<Audit>>)
    requires n < |jobs| && snapshots != []
    ensures var last := |snapshots| - 1;
            FreezesAll(c, project, jobs[..n + 1], date, snapshots) <==>
              FreezesAll(c, project, jobs[..n], date, snapshots[..last])
                && Freezes(c, project, jobs[n], date, snapshots[last])
  {
    var last := |snapshots| - 1;
    if FreezesAll(c, project, jobs[..n + 1], date, snapshots) {
      forall i | 0 <= i < n ensures Freezes(c, project, jobs[..n][i], date, snapshots[..last][i]) {
        assert Freezes(c, project, jobs[..n + 1][i], date, snapshots[i]);
      }
      assert Freezes(c, project, jobs[..n + 1][n], date, snapshots[n]);
    }
    if FreezesAll(c, project, jobs[..n], date, snapshots[..last])
      && Freezes(c, project, jobs[n], date, snapshots[last]) {
      forall i | 0 <= i < n + 1 ensures Freezes(c, project, jobs[..n + 1][i], date, snapshots[i]) {
        if i < n {
          assert Freezes(c, project, jobs[..n][i], date, snapshots[..last][i]);
        }
      }
    }
  }

  // A run made by the key.
  ghost predicate IsKeyed(r: Run, project: nat, pipeline: bool, key: Option<nat>) {
    key != None && r.key == key && r.project == project && r.pipeline == pipeline
  }

  /** A run is created exactly for jobs of the project that can all be given their inputs, which are frozen in
      it, unless its key was used; then the run of the key is returned, exactly if it has these jobs and this
      date. */
  lemma RunCreatedExactly(c: Catalog, project: nat, pipeline: bool, jobs: seq<nat>, date: Option<int>, key: Option<nat>)
    ensures var out := CreateRun(c, project, pipeline, jobs, date, key);
            var ours := forall i | 0 <= i < |jobs| :: jobs[i] < |c.jobs| && c.jobs[jobs[i]].project == project;
            var used := exists r | 0 <= r < |c.runs| :: IsKeyed(c.runs[r], project, pipeline, key);
            && (!ours ==> out == Err(NotFound))
            && (ours && used ==>
                  exists r: nat ::
                    && r < |c.runs| && IsKeyed(c.runs[r], project, pipeline, key)
                    && out == if c.runs[r].jobs == jobs && c.runs[r].date == date then Ok((c, r)) else Err(Conflict))
            && (ours && !used ==> (out.Ok? <==> exists snapshots :: FreezesAll(c, project, jobs, date, snapshots)))
            && (ours && !used && out.Ok? ==>
                  && out.value.1 == |c.runs| && |out.value.0.runs| == |c.runs| + 1
                  && var snapshots := out.value.0.runs[|c.runs|].snapshots;
                     && FreezesAll(c, project, jobs, date, snapshots)
                     && out.value.0
                        == c.(runs := c.runs + [Run(project, pipeline, jobs, date, key, snapshots, c.now)],
                              now := c.now + 1))
  {
    assert jobs[..|jobs|] == jobs;
    var frozen := Snapshots(c, project, jobs, |jobs|, date);
    if frozen.Ok? {
      SnapshotsAreExact(c, project, jobs, |jobs|, date, frozen.value);
    } else {
      forall snapshots ensures !FreezesAll(c, project, jobs, date, snapshots) {
        SnapshotsAreExact(c, project, jobs, |jobs|, date, snapshots);
      }
    }
    if key.Some? {
      var existing := KeyedRun(c.runs, project, pipeline, key.value);
      assert existing.Some? ==> IsKeyed(c.runs[existing.value], project, pipeline, key);
    }
  }

  /** A job is created exactly with a model of the project and, if it pins one, a dataset of the project. A model
      version is always registered, with its tag as it is. */
  lemma JobCreatedExactly(c: Catalog, project: nat, batch: Option<Batch>, trainedBy: Option<nat>)
    ensures var out := CreateJob(c, project, batch);
            && (out.Ok? <==> (batch.Some? ==>
                  && batch.value.model < |c.models| && c.models[batch.value.model].project == project
                  && match batch.value.policy
                     case Pinned(input) => input < |c.datasets| && c.datasets[input].project == project
                     case _ => true))
            && (out.Err? ==> out.error == NotFound)
            && (out.Ok? ==> out.value == c.(jobs := c.jobs + [Job(project, batch, c.now)], now := c.now + 1))
    ensures |RegisterVersion(c, project, trainedBy).models| == |c.models| + 1
    ensures RegisterVersion(c, project, trainedBy)
         == c.(models := c.models + [Version(project, trainedBy, c.now)], now := c.now + 1)
  {
  }
}
