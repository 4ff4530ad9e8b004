# Verification of the machine-learning platform's core

A Dafny model of the parts of the platform in which mistakes are silent: a GPU quota that every
interleaving must respect, a champion that every path must leave unique, tokens that every exit path
must account for, a monitoring report that a second program must accept, an outbox that must launch
each check once, a batch output that must be written once, a calendar that must neither skip nor
repeat an occurrence.

| component | files | what is proved |
|---|---|---|
| Serving control plane | `Registry`, `Serving`, `Quota`, `Growth`, `Runs`, `Guards`, `Lasting`, `Aborts`, `Answers`, `ServingTheorems`, `StaleWrites`, `LostAbort`, `ServingStore` | Every database transaction is one atomic step; a deploy, a canary revision and an evaluation take two, and reconcilers read in one transaction and write in a later one, so a run is any interleaving. Every run whatever, stale writes included, keeps champions, histories and reservations sound and deletions final; exactly which runs keep a project's GPU quota in all their states and exactly which honour a requested abort; runs from the empty database in which a stale write breaks the quota or loses an abort; and for every request and every write, when it is accepted and what it leaves, by the rows alone. |
| Gateway | `TokenMeter`, `Ledger`, `Cache` | A byte-stream usage meter and exactly when it depends on chunking, a ledger that balances on every exit path, bounded staleness. |
| Calendar | `Calendar` | The bounded search returns the least valid instant across gaps and overlaps. |
| Model monitoring | `Psi`, `Counting`, `Batches`, `Tables`, `Histogram`, `Monitoring`, `Drift`, `Regression`, `Classification`, `Matching`, `Performance`, `Measures`, `Report` | The streaming worker computes whole-dataset statistics, independent of batches and row order; what each number is, by the rows; the control plane's own check accepts every report the worker makes, and of all reports exactly the one that follows from its numbers. |
| Monitoring automation | `Outbox`, `OutboxStore` | One execution, one job, one run, over crashes, retries, deadlines and paused rules. |
| Batch inference | `Keys`, `BatchOutput` | A run from its downloads to its report, bounded reading and writing, publication at most once, the exact condition under which an output, replayed ones included, is accepted. |
| Catalog and lineage | `Catalog`, `Lineage` | Dense versions over two writers, an acyclic graph, a bounded walk that shows exactly what it should. |
| Limiter benchmark | `Quantiles` | Ordered quantiles inside their buckets. |

Numbers that the platform holds as floats are exact reals. A hash is an injective function, a JSON or
number parser, the cron library, a logarithm and a square root are parameters with the one property
that is needed of them. A transaction that raises, or whose process dies, commits nothing.

## Where the code and its description differ

The model follows the code. Each point below is a lemma with a concrete input or an exact condition.

- The deployment reconciler writes `desired_revision` and `active_revision` back with the status and
  compares only the status (`controlplane/persistence/sql.py:1166-1183`), so a deploy committed since its
  read is undone and the GPU quota can be exceeded: `StaleWrites.StaleDeploymentWriteOverruns` is a run from
  the empty database that ends with six GPUs in use of four. `Guards.QuotaHoldsExactlyIfGuarded` is the
  condition, project by project: a run keeps the quota in every state if and only if the numbers that each
  reconciler write puts back into the project's rows would have passed the test that a deploy or a quota change
  has to pass.
- The project reconciler writes `gpu_quota` back in the same way (`controlplane/persistence/sql.py:170-185`),
  with a new status or, while a deletion is stuck, with a note alone
  (`controlplane/reconciliation/projects.py:135-141`): `StaleWrites.StaleProjectWriteOverruns`, under the same
  condition.
- The rollout reconciler writes `abort_requested` back with the status (`controlplane/persistence/sql.py:1434-1452`),
  so a requested abort can be forgotten: `LostAbort.AbortedRolloutSucceeds` is a run from the empty database in
  which a rollout told to stop succeeds. `Aborts.AbortHoldsExactly` and `Aborts.AllAbortsHoldExactly` are the
  condition: aborts hold in all states of a run if and only if each write of a rollout told to stop puts back
  the stored flag.
- A READY write from a read before a deploy undoes the deploy: `ServingTheorems.ReadyEndsTheDeploy`.
- `rollback` is described as archiving the version it leaves and making the one it restores champion. It does
  so exactly when `ServingTheorems.RollbackDecides` says; `ServingTheorems.RolledBackCandidateIsNotArchived` is a
  candidate that stays a candidate.
- Whether a long event stream is metered can depend on how it is cut (`TokenMeter.CuttingDecidesOverflow`),
  although no limit on a stream's length is stated. `TokenMeter.CutsAgreeOnOverflow` and
  `TokenMeter.CutsAgreeOnReport` say of which streams all cuts measure the same.
- A connection's prefix may contain `?`, `#`, a tab or a line end, and a dataset may have 512 columns; the
  output of a batch job for either is written and then refused: `BatchOutput.StoredAndRefused` and
  `Keys.RefusedPrefixes` are inputs, `BatchOutput.Run`, `BatchOutput.EverySuccessIsAccepted` and
  `Keys.OutputAddressFits` the condition.

## Model

| member | source | states |
|---|---|---|
| Registry.MakeChampionExactly | controlplane/application/models.py:546-584 | Making a version champion archives exactly the model's previous champion, changes no other version, and appends one promotion that names the new and the previous champion. |
| Registry.ChampionIsFound | controlplane/application/models.py:70-72 | With at most one champion per model, the champion lookup returns a version exactly when it is the champion. |
| Registry.StatusesFollow | controlplane/domain/states.py:130-144 | What a version can become, by what it becomes: only candidates and archived versions become champion, and nothing leaves REJECTED. |
| Registry.CasIsExact | controlplane/persistence/sql.py:926-945 | A status is swapped exactly where it still is the one expected, by a move there is, and never for a second champion of a model; only that row changes. |
| Registry.PromoteKeepsValid | controlplane/application/models.py:523-543 | Promotion succeeds exactly for a candidate or the champion, archives exactly the previous champion and logs it, and keeps one champion per model, a log whose last entry for a model is its champion, and that nothing rejected was ever promoted. |
| Registry.RestoreKeepsValid | controlplane/application/models.py:587-598 | Restoring succeeds exactly for an archived version or the champion, archives exactly the champion it replaces and logs it, and keeps the same invariants. |
| Registry.RejectKeepsValid | controlplane/reconciliation/rollouts.py:217-250 | A rolled-back canary's version is rejected exactly if it is a candidate; nothing else moves and every registry invariant stays. |
| Registry.RegisterOnceKeeps | controlplane/application/models.py:304-345 | Registering a reference of a model adds one version, exactly if the model has none for that reference, returns the version of the reference, and leaves one version per reference and all registry invariants. |
| Registry.RegisteringAgainReturnsIt | controlplane/application/models.py:304-320 | Whatever was registered or decided since, registering a reference again returns the version of the first time and changes nothing. |
| Registry.StartKeepsValid | controlplane/application/models.py:407-459 | An evaluation starts exactly for a REGISTERED or EVALUATING version of a model with thresholds; the running one is resumed, otherwise one is added against the champion of the moment; nothing else but the version's status changes. |
| Registry.FinishKeepsValid | controlplane/application/models.py:477-520 | The verdict is given once, on a running evaluation: CANDIDATE with PASSED exactly when every threshold's metric is reported, is not below its minimum and not above its maximum where there is one; REJECTED with FAILED otherwise; nothing else changes. |
| Quota.HeldCostCountsOnce | controlplane/application/deployments.py:87-102 | A revision that is active, desired and part of a canary at once is counted once. |
| Quota.QuotaAfterTouching | controlplane/application/deployments.py:70-84 | If one deployment's holding changes, its project is within its quota afterwards exactly when what the others hold plus the new holding fits, and other projects are unaffected. |
| Quota.QuotaIsKept | controlplane/application/deployments.py:112-122 | A transaction that passed the quota test for at least what it ends up holding, or holds no more than before, takes no project out of its quota, the test's shortcut for nothing needed included. |
| Quota.DeployCommitKeeps | controlplane/application/deployments.py:325-378 | The second transaction of a deploy keeps history, reservations and registry, whatever was committed since the first, and takes no project out of its quota, whether or not others are within theirs; so does each transaction below. |
| Quota.EnsureCommitKeeps | controlplane/application/deployments.py:430-471 | The second transaction of a canary's revision does: a revision nobody holds costs nothing. |
| Quota.RollbackKeeps | controlplane/application/deployments.py:524-584 | A rollback does. |
| Quota.RequestDeleteKeeps | controlplane/application/deployments.py:249-273 | A deletion request does; in particular nothing in flight belongs to a deployment being deleted. |
| Quota.SetGpuQuotaKeeps | controlplane/application/projects.py:115-147 | A quota change does, so a quota below what is in use is refused. |
| Quota.RequestProjectDeleteKeeps | controlplane/application/projects.py:149-173 | A request to delete a project does. |
| Quota.StartRolloutKeeps | controlplane/application/rollouts.py:79-136 | Starting a canary does, which then holds both of its revisions, with one rollout in flight per deployment and per version. |
| Quota.AbortKeeps | controlplane/application/rollouts.py:153-182 | An abort does, which releases what the canary held or flags it. |
| Quota.PromoteByHandKeeps | controlplane/application/models.py:610-620 | Promotion by hand does. |
| Quota.SucceedKeeps | controlplane/reconciliation/rollouts.py:189-215 | The transaction that ends a rollout, moves the stable revision and crowns the version does, although it is not tested against the quota again. |
| Quota.ReconcilerWriteExactly | controlplane/persistence/sql.py:1166-1183 | A reconciler's write of a deployment, fresh or stale, leaves the project within its quota exactly when the revisions it would hold with the pointers written back fit beside the others; other projects are unaffected. |
| Quota.WriteProjectExactly | controlplane/persistence/sql.py:170-185 | A reconciler's write of a project, with a new status or with a note alone, leaves it within its quota exactly when what is in use fits the quota written back, and keeps everything else. |
| Quota.MarkReadyKeeps | controlplane/reconciliation/deployments.py:166-190 | Recording READY from a fresh read keeps everything and takes no project out of its quota. |
| Runs.RunIsSafe | controlplane/application/deployments.py:290-378 | From any sound state, every interleaving of two-transaction deploys, evaluations, canary starts and aborts, rollbacks, quota changes, deletions and reconciler writes, stale ones included, ends in a sound state (champions, promotion log, evaluations, revision histories, reservations), and histories have only grown. |
| Runs.Step | controlplane/persistence/sql.py:1166-1183 | One step of any kind does, and takes no project out of its quota unless it puts back a deployment's revisions or a project's quota. |
| Runs.EveryReachableStateIsSafe | controlplane/application/deployments.py:70-122 | Every state reached from the empty database, by any run whatever, is sound in that sense. |
| Lasting.RegistryStaysValid | controlplane/application/models.py:546-584 | Over any run from any state with a sound registry, a model has one champion, the one last promoted, one evaluation runs per version, and verdicts agree with statuses. |
| Lasting.ReservationsHold | controlplane/application/rollouts.py:110-136 | Over any run from any state that has it so, at most one rollout is in flight per deployment and per version. |
| Lasting.DeletionIsFinal | controlplane/application/deployments.py:245-273 | Over any run, stale writes included, from a state of which nothing else is known: a deployment being deleted with no rollout in flight never returns, never has one, gains no revision and wants nothing new. |
| Guards.QuotaHoldsExactlyIfGuarded | controlplane/persistence/sql.py:1166-1183 | From any sound state, a project is within its quota in all states of a run if and only if what each reconciler write puts back into its rows passes the quota test at that moment, whatever other projects exceed. |
| Guards.QuotaHoldsFromTheStart | controlplane/application/deployments.py:112-122 | The same over every run from the empty database; in particular where writes of the project's own rows are fresh it is within its quota in all states, however stale all others are. |
| Guards.StepExactly | controlplane/application/deployments.py:112-122 | One step of any kind leaves a project within its quota exactly if it is no such write or one whose numbers, the revisions stored and the pointers or quota read, fit. |
| Guards.FreshRunsAreGuarded | controlplane/reconciliation/deployments.py:166-190 | Runs in which the writes of a project's rows are fresh are guarded for it. |
| StaleWrites.StaleDeploymentWriteOverruns | controlplane/reconciliation/deployments.py:166-190 | A run from the empty database, with one stale reconciler write, after which a project with four GPUs has six in use. |
| StaleWrites.StaleProjectWriteOverruns | controlplane/persistence/sql.py:170-185 | A run after which a stale project write has taken back a quota that is in use. |
| ServingTheorems.ShortcutIsSound | controlplane/application/deployments.py:112-122 | In a project within its quota, answering at once when nothing is needed never differs from doing the sum. |
| ServingTheorems.DeployCommits | controlplane/application/deployments.py:290-378 | An accepted deploy commits if nothing comes between: the version is served by a new last revision that is desired and being deployed, nothing else changes, and asking again changes nothing. |
| ServingTheorems.RevisionCommits | controlplane/application/deployments.py:393-471 | An accepted canary revision is added, and nothing desires or serves it. |
| ServingTheorems.RevisionIsFoundAgain | controlplane/application/deployments.py:393-428 | Asking for it again finds it under its number. |
| ServingTheorems.StartThenAbort | controlplane/application/rollouts.py:153-182 | A canary aborted before it began gives back exactly the GPUs that starting it took, and leaves deployments as they were. |
| ServingTheorems.AbortReleases | controlplane/application/rollouts.py:153-182 | An abort of a canary that has not begun frees its deployment and version at once, which then holds what it serves and wants alone; one that has begun stays in flight, flagged; no other deployment notices and asking again changes nothing. |
| ServingTheorems.QuotaChangeIsExact | controlplane/application/projects.py:115-147 | In any state, a quota is accepted exactly when it is the current one, or is between 0 and 64 and leaves the project within it; then only it changes. |
| ServingTheorems.RollbackDecides | controlplane/application/deployments.py:556-566 | A rollback to the revision that is active and desired already changes nothing. Any other one makes the version it restores its model's only champion, and archives the version it leaves exactly under the stated condition on the two versions before the call; so the version served ends as champion unless nothing changed and it was none. |
| ServingTheorems.RolledBackCandidateIsNotArchived | controlplane/application/deployments.py:527-533 | In a concrete sound state, a rollback after which the version left is still a candidate, and one to itself after which the version served is no champion. |
| ServingTheorems.StepAppendsDeployable | controlplane/application/deployments.py:331-364 | In any step whatever, stale writes included, a list of revisions stays as it is or gains one, of a live deployment, naming a version deployable at that moment and other than the latest. |
| ServingTheorems.ReservedFromPromotion | controlplane/application/models.py:610-620 | A version in an active rollout cannot be promoted by hand, and no second rollout of its deployment or of the version can start. |
| ServingTheorems.OnlyItsRolloutCrowns | controlplane/application/rollouts.py:110-136 | While a rollout in flight carries a candidate, the only step of any kind that makes that version champion is the success of that very rollout. |
| Aborts.StopHoldsExactly | controlplane/persistence/sql.py:1434-1452 | In any step from any state, a rollout told to stop goes on stopping exactly if the step is not a write of it that puts back another flag than the stored one, a write of success included. |
| Aborts.AbortHoldsExactly | controlplane/reconciliation/rollouts.py:189-215 | Over any run from any state, a rollout told to stop is stopping in all states if and only if every write of that rollout puts back the stored flag, whatever happens to other rows; it then never succeeds. |
| Aborts.AllAbortsHoldExactly | controlplane/reconciliation/rollouts.py:85-108 | Over any run from any state, every requested abort holds in every step if and only if each write of a rollout told to stop puts back the stored flag. |
| Aborts.AbortIsFinal | controlplane/application/rollouts.py:153-182 | An abort requested of a rollout that has not succeeded takes hold, and the rollout does not succeed in any run whose writes of it put the flag back. |
| Aborts.DeployableCanBeCrowned | controlplane/application/models.py:523-543 | With a sound registry, the success of a rollout can crown its version exactly if that is deployable. |
| Aborts.FreshRunsPutBack | controlplane/reconciliation/rollouts.py:295-308 | A run whose writes are fresh puts every flag back. |
| LostAbort.AbortedRolloutSucceeds | controlplane/reconciliation/rollouts.py:295-308 | A run from the empty database after which a rollout that was told to stop has succeeded, its canary serving and its version champion. |
| Answers.HeldIsExact | controlplane/application/deployments.py:87-102 | A deployment holds exactly the revisions it serves and wants, and both of a canary in flight. |
| Answers.CostOfOne | controlplane/application/deployments.py:70-84 | A revision held costs its GPUs times its replicas; with Quota.HeldCostCountsOnce this fixes every sum. |
| Answers.UseAddsUp | controlplane/application/deployments.py:70-84 | A project uses what its deployments hold, added up, besides one that is left out. |
| Answers.DeployIsPlannedExactly | controlplane/application/deployments.py:290-324 | A deploy is planned exactly for a live deployment, a deployable version of its project other than the latest revision, the same kind, and the model's GPUs times its replicas, with all that is held, fitting beside what is in use elsewhere; the latest revision is found again; a missing row is not found. |
| Answers.DeployedAsTheModelSays | controlplane/application/deployments.py:60-67 | The revision committed has the GPUs and replicas of an LLM and no GPUs for any other model, and after READY the deployment holds exactly these. |
| Answers.DeployCommitIsExact | controlplane/application/deployments.py:325-378 | The second transaction judges again in whatever state it finds, exactly by liveness, the version's status and the GPUs planned, and appends and wants the revision or finds it last. |
| Answers.RevisionIsPlannedExactly | controlplane/application/deployments.py:393-428 | A canary's revision is found exactly where the version has one, the first, and planned exactly where it has none, the kind is right, and its GPUs fit with those of the revision served alone. |
| Answers.EnsureCommitIsExact | controlplane/application/deployments.py:430-471 | The same for its second transaction, which tests no quota. |
| Answers.StartIsExact | controlplane/application/rollouts.py:79-136 | A canary starts exactly for a READY deployment that serves what it wants, on another revision of a deployable version, with no rollout in flight for either, if its GPUs fit with all that is held. |
| Answers.RollbackIsExact | controlplane/application/deployments.py:536-566 | A rollback is accepted exactly for a live deployment that serves something, without a rollout, with a target in its list, that is there already, or whose GPUs fit and whose version is archived or champion. |
| Answers.RollbackWantsTheTarget | controlplane/application/deployments.py:547-575 | It then wants exactly the target: the revision asked for, or the greatest number below the active one; nothing else of the deployment changes. |
| Answers.PromotionIsExact | controlplane/application/models.py:610-620 | Promotion by hand is accepted exactly for a candidate or champion that no rollout carries. |
| Answers.CreationIsExact | controlplane/application/deployments.py:195-243 | A deployment is created exactly in a READY project, empty. |
| Answers.ProjectDeletionIsExact | controlplane/application/projects.py:149-173 | The deletion of a project is accepted exactly if it is there; it is being deleted then, or was. |
| Answers.DeploymentStatusesFollow | controlplane/domain/states.py:193-222 | What a deployment can become, by what it becomes. |
| Answers.ProjectStatusesFollow | controlplane/domain/states.py:53-69 | The same for a project. |
| Answers.DeploymentWritesAreExact | controlplane/persistence/sql.py:1166-1183 | Each write of a deployment takes place exactly if there is a move to make and the stored status is the one read, and writes the status and both pointers that were read. |
| Answers.ProjectWritesAreExact | controlplane/persistence/sql.py:170-185 | The same for a project's status or note, with the quota that was read. |
| Answers.RolloutWritesAreExact | controlplane/reconciliation/rollouts.py:217-250 | A rollout goes on exactly if it was not told to stop when read, and is rolled back exactly if it still is as it was read in flight; its version is rejected if it still is a candidate. |
| Answers.SuccessIsExact | controlplane/reconciliation/rollouts.py:189-215 | It succeeds exactly if it was read progressing and not told to stop, still progresses, and its version is deployable; the deployment then wants and serves the canary, and the version is crowned. |
| Answers.MadeExactly | controlplane/application/models.py:285-292 | Versions of a function are candidates at once, of any other model REGISTERED. |
| Answers.ReadExactly | controlplane/reconciliation/deployments.py:59-91 | The deployment reconciler goes on with a deployment exactly if no rollout is in flight for it or it is being deleted, from the row as it is. |
| ServingTheorems.DeletionRefusesTheRest | controlplane/application/deployments.py:245-273 | A deletion is accepted exactly for a deployment that has no rollout in flight or is being deleted already; then deploys, canary revisions, rollbacks and canary starts of it are refused, second halves of earlier requests included, what it holds stays accounted for, and asking again changes nothing. |
| ServingTheorems.FinishedDeletionFreesGpus | controlplane/persistence/sql.py:1166-1183 | The write that ends a deletion, however old its read, frees all GPUs of the deployment and touches no other. |
| ServingTheorems.ReadyEndsTheDeploy | controlplane/reconciliation/deployments.py:166-190 | READY recorded from a read after a deploy makes the deployment serve the version deployed and hold the GPUs of that revision alone; recorded from any other read, if taken at all, it leaves that version served exactly when the read desired it, and otherwise undoes the deploy. |
| ServingStore.UnitOfWork.SumHeld | controlplane/application/deployments.py:87-102 | The loop over revision numbers computes the cost of the set held. |
| ServingStore.UnitOfWork.SumInUse | controlplane/application/deployments.py:70-84 | The loop over deployments computes what the project's deployments hold, besides one. |
| ServingStore.UnitOfWork.TestQuota | controlplane/application/deployments.py:112-122 | The test passes exactly when the need fits beside what is in use elsewhere. |
| ServingStore.UnitOfWork.MakeChampion | controlplane/application/models.py:546-584 | Row by row, compare-and-swap by compare-and-swap, the update ends in the specified registry. |
| ServingStore.UnitOfWork.CommitDeploy | controlplane/application/deployments.py:325-378 | The updates of the second deploy transaction commit the specified rows or raise the specified error and change nothing. |
| ServingStore.UnitOfWork.CommitRevision | controlplane/application/deployments.py:430-471 | The same for a canary's revision, which keeps its number when it already exists. |
| ServingStore.UnitOfWork.RollBackDeployment | controlplane/application/deployments.py:524-584 | The same for a rollback over deployment, versions and promotions. |
| ServingStore.UnitOfWork.ChangeQuota | controlplane/application/projects.py:115-147 | The same for a quota change. |
| ServingStore.UnitOfWork.Start | controlplane/application/rollouts.py:79-136 | The same for a canary start. |
| ServingStore.UnitOfWork.Succeed | controlplane/reconciliation/rollouts.py:189-215 | The same for the transaction that ends a successful rollout. |
| Calendar.FoldZeroIsFirst | controlplane/application/schedule_calendar.py:33-35 | The instant that PEP 495's fold=0 gives a wall time maps back to it exactly when the wall time exists, and is then its first occurrence. |
| Calendar.LocalIsTheLastShift | controlplane/application/schedule_calendar.py:33-36 | Local time is UTC plus the offset of the last shift that has come. |
| Calendar.FirstOccurrencesAscend | controlplane/application/schedule_calendar.py:31-36 | First occurrences of existing wall times come in the order of the wall times, so stepping through walls steps through instants. |
| Calendar.NextOccurrence | controlplane/application/schedule_calendar.py:13-39 | The result is the least instant after the given one that is the first occurrence of an existing matching wall time; there is one exactly if one of the first 10000 matches fires later; an error says which matches were looked at in vain. |
| Calendar.Preview | controlplane/application/schedule_calendar.py:42-47 | A preview is that many successive next occurrences, or the error of the first one that has none. |
| Calendar.PreviewAscends | controlplane/application/schedule_calendar.py:42-47 | A preview is strictly increasing. |
| Calendar.PreviewIsComplete | controlplane/application/schedule_calendar.py:42-47 | Up to its last entry a preview lists exactly the instants at which the schedule fires. |
| Calendar.EachExistingMatchFiresOnce | controlplane/application/schedule_calendar.py:31-36 | A matching wall time that exists fires exactly once, an ambiguous one the first time; one that does not exist never fires. |
| TokenMeter.SplitContinues | controlplane/application/llm.py:99-100 | Splitting the unfinished line together with the next chunk continues the split of the whole stream. |
| TokenMeter.LastReportWins | controlplane/application/llm.py:116-131 | What a scan ends with is the report of the last line that has one. |
| TokenMeter.SplitIsExact | controlplane/application/llm.py:99-100 | Splitting cuts at every newline and loses nothing else. |
| TokenMeter.StripIsExact | controlplane/application/llm.py:116-119 | Stripping removes exactly the blanks before and after a text. |
| TokenMeter.ReportsExactly | controlplane/application/llm.py:121-131 | A JSON text reports its prompt and completion tokens exactly if both are numbers that are not negative. |
| TokenMeter.LineReportsExactly | controlplane/application/llm.py:116-119 | A line reports what the JSON text after `data:` does, exactly if it has that and the word `"usage"`. |
| TokenMeter.MeasuredExactly | controlplane/application/llm.py:104-110 | A plain reply measures what it says as one JSON text, an event stream what its last reporting line says, and nothing without a report. |
| TokenMeter.OverflowsExactly | controlplane/application/llm.py:83-98 | The meter overflows exactly if some chunk makes the unfinished line, or the plain reply, longer than 8388608 bytes; what was counted until then stays but is not reported. |
| TokenMeter.Meter.Feed | controlplane/application/llm.py:83-102 | After any chunks the buffers are within the limit, and every field is a function of the bytes fed; after an overflow usage is not reported. |
| TokenMeter.Meter.Finish | controlplane/application/llm.py:104-110 | Unless it overflowed, the usage is that of the reply's bytes, however they came; after an overflow it is never reported. |
| TokenMeter.MeterReply | controlplane/application/gateway.py:391-412 | A whole reply fed chunk by chunk measures what its chunks are specified to measure. |
| TokenMeter.CutsAgree | controlplane/application/llm.py:66-131 | Two ways of cutting one reply measure the same if it is plain, or no longer than the buffer, or taken in both ways, and whenever both report a usage it is the same. |
| TokenMeter.PlainOverflow | controlplane/application/llm.py:86-93 | A plain reply overflows exactly when it is too long, however it is cut. |
| TokenMeter.StreamCanBeTakenIn | controlplane/application/llm.py:94-98 | An event stream can be cut so that it is taken in exactly when every line, with its newline, fits the buffer. |
| TokenMeter.StreamCanOverflow | controlplane/application/llm.py:94-98 | An event stream can be cut so that it overflows exactly when it is longer than the buffer. |
| TokenMeter.CutsAgreeOnOverflow | controlplane/application/llm.py:83-102 | All cuts of an event stream agree on whether it overflows if and only if it is no longer than the buffer or has a line that does not fit. |
| TokenMeter.CutsAgreeOnReport | controlplane/application/llm.py:104-131 | All cuts of an event stream report the same usage if and only if that holds or the stream has no usage to report. |
| TokenMeter.CuttingDecidesOverflow | controlplane/application/llm.py:94-98 | A stream that overflows in one cutting and is taken in by another. |
| Ledger.ReservationIsExact | controlplane/application/llm.py:38-63 | A reservation is made exactly when both caps, where given, are positive integers, one answer is asked for and the prompt with the smallest cap is within the limit; it is the prompt's estimate plus that cap, or 256 tokens, or what the limit leaves, and exactly that cap is forwarded. |
| Ledger.ReservingAgainKeeps | controlplane/application/llm.py:60-63 | Reserving for a request that was prepared already changes neither it nor the reservation. |
| Ledger.Gateway.Begin | controlplane/application/gateway.py:238-245 | Only a chat reserves; at most the endpoint's limit, and at most the key's own where that is set and not zero, exactly as reserved against the tighter of the two; a refusal reserves nothing. |
| Ledger.Gateway.AskLimiter | controlplane/application/gateway.py:345-362 | Both buckets lose the units or neither; a refusal and an unavailable store are recorded as nothing. |
| Ledger.Gateway.Forward | controlplane/application/gateway.py:262-270 | An LLM call that got no answer, by a timeout, an unreachable model or a caller who left, is recorded with exactly what its two buckets have lost to it; one that did is not over, and nothing moves. |
| Ledger.Gateway.Count | controlplane/application/gateway.py:399-428 | A call pays for the tokens its reply reported, or at least its reservation if cut short or without a report; if settling does not raise, the buckets have lost exactly what is recorded, and if it raises the record is the larger of the two amounts. |
| Ledger.Gateway.Settle | controlplane/application/gateway.py:412-428 | A refund of the reservation less the measurement, or a charge of the measurement less the reservation, leaves both buckets with exactly the measurement taken, unless the limiter raised without applying it. |
| Ledger.BooksBalance | controlplane/application/gateway.py:240-283 | Over all calls in any interleaving and for any bucket, what it lost to LLM calls that passed their limiter step is at most what is recorded or reserved for them, and equal if and only if no settlement failed with less taken than recorded. |
| Ledger.EveryUnitIsExplained | controlplane/application/gateway.py:345-362 | What a bucket lost altogether is that and what the others took: non-LLM requests at one unit each, and LLM calls whose limiter step raised, at no more than they had asked for. |
| Cache.Gateway.FindKey | controlplane/application/gateway.py:500-507 | The key is one the database held less than the cache time, plus the lookup, ago. |
| Cache.Gateway.FindRoute | controlplane/application/gateway.py:461-467 | The same for a route, and for its absence. |
| Cache.JudgedByTheRows | controlplane/application/gateway.py:302-332 | Nobody is let in; a key opens exactly if it has the secret, is not revoked and not expired by the clock of the call, and then exactly what is of its project and on its list; a principal exactly what its role allows. |
| Cache.Gateway.Answering | controlplane/application/gateway.py:302-327 | A call is answered as the database would have with a key and a route it held less than five seconds and a lookup ago: refused if at all those moments the secret differs, or the key is revoked or expired by the clock of the call; accepted only if at such moments it opened and was for the route. |
| Cache.Gateway.Touch | controlplane/application/gateway.py:509-517 | Last uses of one key are written at least the touch time apart, and after a call one was written less than that ago. |
| Cache.DueByTheMap | controlplane/application/gateway.py:511-514 | The remembered time decides exactly whether any write of the key is recent. |
| Psi.SharesAreADistribution | batch_inference/monitoring_worker.py:61-64 | Smoothed shares are positive and sum to one. |
| Psi.PsiIsADivergence | batch_inference/monitoring_worker.py:57-66 | The index is defined exactly for two nonempty histograms of one length, symmetric, never negative, and zero exactly when the smoothed distributions coincide. |
| Psi.ZeroMeansEqualCounts | batch_inference/monitoring_worker.py:57-66 | Between datasets of one size only identical histograms have index zero. |
| Psi.PsiIsJeffreys | batch_inference/monitoring_worker.py:57-66 | The index is Jeffreys' divergence of the distributions with half a pseudocount in every slot: the relative entropy of each with respect to the other, together. |
| Tables.Frames | batch_inference/monitoring_worker.py:47-54 | A file is read to its end exactly when its rows are within the limit and as many as registered, however it is cut. |
| Histogram.DomainSpans | batch_inference/monitoring_worker.py:76-89 | The first pass finds the least and greatest present number, or exactly the categories that occur. |
| Histogram.RankAscends | batch_inference/monitoring_worker.py:102-102 | Ranks number the categories in their sorted order, each below their number and none twice. |
| Histogram.BelowIsLexicographic | batch_inference/monitoring_worker.py:102-102 | Categories are in lexicographic order. |
| Histogram.DomainFitsExactly | batch_inference/monitoring_worker.py:84-89 | A reference is refused exactly for more than 1000 categories or one longer than 1024 bytes. |
| Histogram.SlotOfNumber | batch_inference/monitoring_worker.py:98-121 | The slots are ten equal parts of the reference's range, the outer ones open, and one for missing values. |
| Histogram.SlotOfOneValue | batch_inference/monitoring_worker.py:96-97 | Around a single value: below, the value, above, missing. |
| Histogram.SlotOfCategory | batch_inference/monitoring_worker.py:115-123 | One slot for each category of the reference in order, one for all others, one for missing values. |
| Histogram.BisectIsExact | batch_inference/monitoring_worker.py:121-121 | A value's slot is exactly the one whose lower edge it reaches and whose upper edge it does not. |
| Histogram.EdgeInside | batch_inference/monitoring_worker.py:98-100 | The inner edges lie strictly between the reference's least and greatest value. |
| Histogram.BinsAreAlwaysSound | batch_inference/monitoring_worker.py:90-102 | Edges ascend, also around a single value, and ranks are a numbering. |
| Histogram.CountsPartition | batch_inference/monitoring_worker.py:113-126 | The counts of all slots sum to the rows, and the last slot is the missing values. |
| Histogram.ReferenceIsSeen | batch_inference/monitoring_worker.py:122-123 | No reference row falls into the slot of unseen categories. |
| Histogram.CountsPermute | batch_inference/monitoring_worker.py:113-126 | A histogram does not depend on the order of rows. |
| Drift.ReadDomains | batch_inference/monitoring_worker.py:70-89 | The streaming first pass yields the domains of the whole reference, and fails exactly when one of them ends too large. |
| Drift.CountFile | batch_inference/monitoring_worker.py:103-126 | The streaming second pass yields the histogram of the whole dataset and its missing values, for every feature. |
| Drift.Compare | batch_inference/monitoring_worker.py:69-162 | What is reported about each feature is a function of the two whole datasets, and the comparison fails exactly when a file is not readable or a domain is too large. |
| Drift.FeatureIsSound | batch_inference/monitoring_worker.py:127-161 | The index is never negative, rates and their change are between zero and one; a feature has drifted exactly when a threshold is reached with enough rows, and is stable exactly when none is, with enough rows and an index. |
| Measures.FeatureIsExact | batch_inference/monitoring_worker.py:127-161 | A feature is reported with its exact rates of missing values and their distance, with the index of the two histograms exactly when both datasets have enough rows and the reference makes bins, and as drifted exactly when the index or the distance then reaches its threshold. |
| Drift.FeatureIgnoresOrder | batch_inference/monitoring_worker.py:69-162 | Reordering either dataset changes no measurement. |
| Drift.NoDriftFromItself | batch_inference/monitoring_worker.py:142-145 | A dataset has not drifted from itself. |
| Regression.StreamIsExact | batch_inference/monitoring_worker.py:241-247 | The running mean and m2 are the exact mean label and sum of squared deviations, with the exact error sums. |
| Regression.StreamIgnoresOrder | batch_inference/monitoring_worker.py:241-247 | They do not depend on the order of rows. |
| Regression.MetricsAreBounded | batch_inference/monitoring_worker.py:258-263 | MAE is at most RMSE, neither is negative, R2 is at most one. |
| Regression.DeviationIsZeroForOneValue | batch_inference/monitoring_worker.py:262-262 | The deviations vanish, so that R2 is left out, exactly when all labels are one value. |
| Performance.RegressionIsExact | batch_inference/monitoring_worker.py:257-263 | From enough matched points, the mean absolute error, the root of the mean squared error, and r2 exactly if two labels differ, with (1 - r2) times the labels' deviations being the squared errors; r2 is one exactly when every prediction is right. From fewer, nothing. |
| Regression.VariationDecides | batch_inference/monitoring_worker.py:262-262 | The deviations are positive exactly when two labels differ. |
| Regression.RightDecides | batch_inference/monitoring_worker.py:262-262 | The squared errors vanish exactly when every prediction is right. |
| Classification.Total | batch_inference/monitoring_worker.py:270-271 | Adding up the confusion counts of a kind counts the matched rows of that kind. |
| Classification.Score | batch_inference/monitoring_worker.py:266-276 | The metrics computed from the counts are the rate of right answers and the mean F1 score over the labels. |
| Classification.AccuracyIsExact | batch_inference/monitoring_worker.py:274-274 | Accuracy is the share of the rows answered right. |
| Classification.ScoreOfLabelIsExact | batch_inference/monitoring_worker.py:269-272 | The score of a label is twice its hits over twice its hits, its false alarms and its misses. |
| Classification.MacroF1IsTheMean | batch_inference/monitoring_worker.py:275-275 | Macro-F1 is the mean of the scores over the labels that occur, however they are listed. |
| Classification.LabelHasOutcomes | batch_inference/monitoring_worker.py:272-272 | Every label was met, so the fallback to zero is never taken. |
| Classification.ScoresAreRates | batch_inference/monitoring_worker.py:265-276 | Accuracy and macro-F1 are between zero and one, and one of them is perfect exactly when the other is. |
| Classification.EntriesSumToMatched | batch_inference/monitoring_worker.py:253-253 | The entries of the confusion count sum to the matched rows. |
| Classification.ScoresIgnoreOrder | batch_inference/monitoring_worker.py:248-276 | Neither metric depends on the order of rows. |
| Matching.TruthIsTheRows | batch_inference/monitoring_worker.py:204-216 | The label found for a key is that of the one row with the key. |
| Matching.PointIsTheRows | batch_inference/monitoring_worker.py:204-239 | Where a label's text reads back, a matched prediction is compared with the number of the one label row that has its key. |
| Measures.MatchedExactly | batch_inference/monitoring_worker.py:229-239 | A prediction is matched exactly if some row of the ground truth has its key. |
| Measures.ComparedAsTheyAre | batch_inference/monitoring_worker.py:240-253 | A matched prediction is compared with the label of the one row with its key: texts as they are, numbers where they read back. |
| Measures.LimitsAreThese | batch_inference/monitoring_worker.py:165-181 | A key fits exactly if it is there and has at most 1024 bytes; at most twenty labels are taken in. |
| Measures.PerformanceCountsAreExact | batch_inference/monitoring_worker.py:278-287 | Rows matched and left over on either side, the share matched, and whether that is enough, are exactly those of the rows. |
| Matching.MatchedAtMostTruth | batch_inference/monitoring_worker.py:220-239 | No more predictions match than there are labels, as keys are unique on both sides. |
| Matching.JoiningIsExact | batch_inference/monitoring_worker.py:221-253 | The streaming join takes in exactly the rows with unique keys, present matched predictions and few enough labels, and then knows what all of them say. |
| Performance.ReadTruth | batch_inference/monitoring_worker.py:204-217 | Ground truth is taken in exactly when keys are present, short and unique and labels present, however the file is cut. |
| Performance.Perform | batch_inference/monitoring_worker.py:183-287 | The measurement is a function of the two whole datasets, and fails exactly when one of them is not taken in. |
| Performance.MeasuredIsSound | batch_inference/monitoring_worker.py:257-287 | Matched rows are at most the rows of either side, coverage is a rate, metrics are there exactly when measured and within their bounds. |
| Performance.MeasuredIgnoresOrder | batch_inference/monitoring_worker.py:183-287 | Reordering either dataset changes neither acceptance nor the measurement. |
| Report.Execute | batch_inference/monitoring_worker.py:290-345 | Every report the worker makes is accepted by the control plane, and it makes one exactly when both parts succeed and the text is within the limit. |
| Report.WorkerIsAccepted | controlplane/application/model_monitoring.py:281-383 | For every specification within the creation bounds and all datasets the worker does not reject, its report passes every check and bound of the validator. |
| Report.Validate | controlplane/application/model_monitoring.py:279-383 | The validating loop accepts exactly the reports that satisfy the stated conditions. |
| Report.AcceptedExactly | controlplane/application/model_monitoring.py:279-383 | A report is accepted exactly if it is for the execution and the specification, its numbers are possible ones, and it is the one report that follows from them. |
| Report.VerdictsAreDetermined | controlplane/application/model_monitoring.py:310-366 | Two accepted reports of one check with the same numbers are the same: no verdict can be made up. |
| Outbox.AttemptDecides | controlplane/application/monitoring_automation.py:233-275 | An attempt waits exactly when wanted feedback of the observed date is lacking and the deadline is ahead; it launches exactly when the feedback is there, connections are those frozen and the check can be created, with the latest version of the date. |
| Outbox.AttemptIsExact | controlplane/application/monitoring_automation.py:233-275 | The same with the feedback told by the datasets: waiting, launching without feedback, and launching with the latest dataset of the name and the date, each exactly when. |
| Outbox.DispatchIsExact | controlplane/application/monitoring_automation.py:244-304 | An attempt that waits is due again in fifteen seconds; one that launches has a new job of the frozen rule and a new run; nothing else changes. |
| Outbox.OfferIsExact | controlplane/application/monitoring_automation.py:173-203 | A matching rule without an execution for the dataset gets one, of the rule as it is and with its time to wait, and that is attempted. |
| Outbox.InputsAreExact | controlplane/application/monitoring_automation.py:121-136 | A dataset leaves an event, a rule starts at revision one, and is paused or resumed exactly at its current revision. |
| Outbox.ProcessMakes | controlplane/application/monitoring_automation.py:173-204 | Processing an event leaves an execution for exactly the rules that had one and those that match now. |
| Outbox.ProcessKeeps | controlplane/application/monitoring_automation.py:168-204 | The transaction keeps one execution per rule and dataset, one job and run per dispatched execution, and frozen rules. |
| Outbox.RetryKeeps | controlplane/application/monitoring_automation.py:205-230 | So does a retry. |
| Outbox.RuleChangesReachOnlyEvents | controlplane/application/monitoring_automation.py:205-230 | Over any run that takes no event, retries and crashes included, every execution, job and run is as if no rule had been added, paused or resumed. |
| Outbox.DeadlineEndsTheWait | controlplane/application/monitoring_automation.py:244-252 | Any attempt at or after the deadline ends the wait, dispatched with the latest feedback if it came after all. |
| Outbox.EveryRunIsSound | controlplane/application/monitoring_automation.py:164-231 | Over any run with crashes, retries and rule changes: exactly-once executions, jobs and runs, and terminal states that never change. |
| Outbox.OneLaunchEach | controlplane/application/monitoring_automation.py:278-291 | A dispatched execution has exactly one job and one run in the tables, any other none. |
| OutboxStore.Store.TakeEvent | controlplane/application/monitoring_automation.py:172-203 | The loop over rules is the specified transaction. |
| OutboxStore.Store.RunOnce | controlplane/application/monitoring_automation.py:164-231 | A round keeps everything sound, only adds, and has processed all events if it took fewer than its limit. |
| OutboxStore.Store.SetEnabled | controlplane/application/monitoring_automation.py:121-136 | Pausing or resuming succeeds exactly for the current revision and touches no execution. |
| Keys.KeysAreTheirExecutions | batch_inference/worker.py:71-73 | Different executions of one job never share an object key. |
| Keys.KeyIsExact | batch_inference/worker.py:71-73 | The key is the prefix without slashes at its end, the name, the execution and the suffix. |
| Keys.OutputAddressFits | controlplane/domain/data.py:150-162 | An execution's output address is accepted exactly when the connection's prefix has no question mark, number sign, tab or line end. |
| Keys.RefusedPrefixes | controlplane/domain/data.py:150-162 | Five concrete prefixes, one for each such character, with which no output address is accepted. |
| BatchOutput.BoundedOutput.Write | batch_inference/worker.py:45-48 | A write beyond the limit is refused before any of it is written. |
| BatchOutput.Download | batch_inference/worker.py:94-114 | A download succeeds exactly when the announced length is the object's and within the limit; never more than the limit reaches the disk. |
| BatchOutput.FetchModel | batch_inference/worker.py:117-142 | The model is handed on exactly when every file has the size and hash of the manifest. |
| BatchOutput.PredictFile | batch_inference/worker.py:191-273 | The output is the whole input with its predictions, exactly when rows and bytes are within their limits and as many rows as registered. |
| BatchOutput.FileIsExact | batch_inference/worker.py:228-263 | Where the model answers for every row, the file is the written frames one after the other, or the empty file, and the footer; otherwise there is none. |
| BatchOutput.Predict | batch_inference/worker.py:276-312 | There is an output exactly when the input arrives whole, within the byte limit and with the checksum pinned, every model file is the one pinned, both can be read and loaded, a Parquet input is within the limit unpacked, and the prediction is within the row and byte limits; it is then the whole input with its predictions. |
| BatchOutput.OutputIsExact | batch_inference/worker.py:276-312 | The conditions of an output spelled out over the input, the manifest, the frames and the limits. |
| BatchOutput.BatchSizeDoesNotMatter | batch_inference/worker.py:228-248 | For a text format and a model that treat rows one by one the output does not depend on the batch size. |
| BatchOutput.VerifyOutput | batch_inference/worker.py:346-380 | The last check passes exactly when metadata, length and contents of the stored object are those expected. |
| BatchOutput.WrittenAtMostOnce | batch_inference/worker.py:314-335 | However attempts at one execution interleave and crash, the object is written at most once and never changed. |
| BatchOutput.SuccessesAgree | batch_inference/worker.py:324-343 | Every successful attempt reports the checksum and rows of what is stored. |
| BatchOutput.AttemptSucceeds | batch_inference/worker.py:314-335 | An attempt left alone succeeds exactly when nothing is stored yet or what it would store is. |
| BatchOutput.Run | batch_inference/worker.py:276-343 | A run, a first attempt or one that finds its key taken, from its first download on: it succeeds exactly when its output exists and the key is free or holds this very output; it reports what is stored; the catalog accepts the outcome exactly when the prefix makes a plain address and the input leaves room for one column. |
| BatchOutput.PublishedExactly | controlplane/application/batch_inference.py:247-295 | An outcome is accepted exactly if it is of this execution at its own key, with one column more than the input and no more rows than allowed, where the prefix is plain and fewer than 512 columns are read. |
| BatchOutput.ReplayReportsTheSame | batch_inference/worker.py:324-343 | A run again after one whose result was lost succeeds exactly with the same output, stores nothing and reports the same. |
| BatchOutput.EverySuccessIsAccepted | controlplane/application/batch_inference.py:247-295 | However attempts interleave and crash, each one that succeeds reports what is stored, and its outcome is accepted exactly under that condition and the row limit. |
| BatchOutput.StoredAndRefused | controlplane/application/batch_inference.py:247-295 | Two jobs that can be created, one with the prefix `a?b` and one with 512 columns, whose output, the header of an input without rows, is stored and reported and then refused. |
| Catalog.EveryHistoryIsSound | controlplane/application/batch_snapshots.py:15-58 | Over any history rows are only added, versions stay dense, and every run is later than the inputs and models it froze and earlier than its outputs; of the tag that names a model's training run nothing is assumed. |
| Catalog.PublishDatasetKeeps | controlplane/application/data_catalog.py:67-120 | Publishing by hand keeps versions dense and order intact. |
| Catalog.PublishOutputKeeps | controlplane/application/batch_inference.py:272-295 | So does publication by the reconciler, with the input and model frozen for the step. |
| Catalog.CreateRunKeeps | controlplane/application/pipeline_runs.py:189-209 | A run freezes inputs and models that are already committed, in its own project. |
| Catalog.PublishedExactly | controlplane/application/data_catalog.py:67-120 | A dataset is published exactly if its producer is a run of the project and it is what the latest of its name is already or the expected version is right; as the next version. |
| Catalog.OutputPublishedExactly | controlplane/application/batch_inference.py:272-295 | A step's output is published exactly if its run froze an input and a model for it, with these. |
| Catalog.ResolvedExactly | controlplane/application/batch_snapshots.py:15-58 | The input of a batch job is the one pinned, or the latest of a name, or of a name and the date, if its shape is the job's. |
| Catalog.RunCreatedExactly | controlplane/application/pipeline_runs.py:173-209 | A run is created exactly for jobs of the project that can all be given their inputs, which it freezes, unless its key was used; then that run is returned exactly if it has these jobs and this date. |
| Catalog.JobCreatedExactly | controlplane/application/batch_inference.py:92-112 | A job is created exactly with a model, and if pinned a dataset, of the project. |
| Catalog.DenseIsConsecutive | controlplane/application/data_catalog.py:79-82 | Versions of a name ascend in commit order without a gap. |
| Catalog.PublishingAgainReturnsIt | controlplane/application/data_catalog.py:99-102 | Publishing the same contents again returns the same version and adds nothing, whatever version was expected. |
| Catalog.KeyReturnsTheRun | controlplane/application/pipeline_runs.py:173-184 | An idempotency key returns the run it made, with the inputs frozen then, whatever was published since. |
| Lineage.RelationsAreOrdered | controlplane/application/data_lineage.py:57-103 | A relation shown leads from an earlier commit to a later one, except exactly for a training relation whose tag named a later run. |
| Lineage.GraphIsAcyclic | controlplane/application/data_lineage.py:26-104 | Whatever the tags say, every cycle has a version in it whose tag names a run later than the version, so datasets and runs alone have none. |
| Lineage.HistoriesAreAcyclic | controlplane/application/data_lineage.py:26-104 | In every history in which tags name runs whose ids have been drawn, or no run at all, the graph of datasets, runs and models has no cycle. |
| Lineage.NodesAreFew | controlplane/application/data_lineage.py:32-36 | Four nodes a step at most: seventeen within four steps, so the cut at twenty-four nodes is never reached. |
| Lineage.EdgesJoinNodes | controlplane/application/data_lineage.py:21-24 | Every edge shown is one of the catalog's relations and joins two nodes shown. |
| Lineage.TruncatedIsExact | controlplane/application/data_lineage.py:32-36 | The walk is marked as cut exactly when the dataset at the limit has a producer. |
| Lineage.NothingIsMissed | controlplane/application/data_lineage.py:26-104 | The producing step of every dataset fewer steps up than the limit is shown. |
| Lineage.Walk.Visit | controlplane/application/data_lineage.py:26-104 | The recursive visit adds exactly what is to be shown; no dataset is met twice. |
| Lineage.Trace | controlplane/application/data_lineage.py:10-107 | The walk returns exactly the nodes and edges to be shown, no edge twice, at most four nodes a step and one more. |
| Lineage.TraceFour | controlplane/application/data_lineage.py:32-36 | Four steps up: at most seventeen nodes, no edge twice, cut exactly when the dataset at the limit has a producer. |
| Quantiles.AddToAdds | scripts/controlplane_limiter_check.py:61-63 | Series with one boundary are added up, and no other boundary changes. |
| Quantiles.OldIsTheLast | scripts/controlplane_limiter_check.py:52-56 | A series is compared with the last sample before that has its labels, or with nothing. |
| Quantiles.DeltaIsExact | scripts/controlplane_limiter_check.py:53-67 | The difference adds up what the series of each kind and boundary grew by, and there is none exactly if one went back. |
| Quantiles.QuantileIsProportional | scripts/controlplane_limiter_check.py:76-83 | Within its bucket a quantile is as far along as its rank among the observations there. |
| Quantiles.QuantileIsInside | scripts/controlplane_limiter_check.py:71-86 | A quantile lies in the bucket that holds its rank, at the last finite boundary for the unbounded one. |
| Quantiles.QuantilesAscend | scripts/controlplane_limiter_check.py:71-86 | A greater rank never has a smaller quantile. |
| Quantiles.Summarize | scripts/controlplane_limiter_check.py:49-87 | An accepted difference has the observations, their mean, and p50, p95 and p99, each in its bucket and in order; every well-formed difference is accepted. |
| Quantiles.PercentilesAscend | scripts/controlplane_limiter_check.py:27-29 | The nearest-rank percentile is the least of the values that covers its share of them, and grows with the share. |

## Left out

- Names, slugs and UUIDs: rows are known by their position; a lookup by name that fails is the missing row.
- Endpoints, artifact lookups and the serving system itself: what a deployment serves, `_serve_kind` and the registry's URIs decide no property above. Racing first deploys may leave two runtimes in one history; nothing is claimed about that.
- Rollout percentages and how they split traffic, health gates and metrics: a rollout progresses, succeeds or rolls back.
- Audit payloads, notifications, memberships, secrets and roles: true but simple; the gateway takes whether a principal may invoke as a parameter, and nothing else above depends on them.
- Project and platform status tests before a batch job, dataset or run is created: those transactions are modelled as committed or refused for the reasons that matter to identity and order.
- The rate limiter's arithmetic: only its contract is used, all buckets or none; a cancellation while its thread still runs is outside the ledger.
- JSON and CSV text, the Parquet format, and the checks of a frame's columns and types: frames are rows after those checks.
- Paths in a model package, and which files must be in it: the manifest is sizes and hashes.
- Floating point: rounding, overflow and not-a-number tests.
- The join database's page budget and the size limit of a specification's text.
- The cron library and its syntax check: a schedule is its matching wall times and the step to the next one; fifty years are the horizon of that step.
- The limit on rules per project, and listing anything.
- Retries of a run by hand, timeouts, commits and parameters other than the processing date in the identity of a run.
- Ledger.BooksBalance: leaves out LLM calls whose limiter step raised, which keep what was taken and are recorded as nothing, and other models' requests, which keep their unit when they fail, as in the code; Ledger.EveryUnitIsExplained bounds both.
- Ledger.Gateway.Forward: a reply whose stream is never started stays in flight with its reservation, as in the code.
- BatchOutput.WrittenAtMostOnce: other writers with credentials to the bucket are not steps of the run.
- Outbox.ProcessMakes: a rule paused between publication and processing misses the event, as in the code.
