# Aporic: verified model of the delivery, store, delegation, workflow and initiative logic

Aporic keeps an advisory record of a coding agent's work: tasks with leased write scopes, evidence and claims,
verification runs, delegation reports, a staged workflow per task, initiatives above tasks, and delivery manifests
whose dependency graph decides which test results still count. This project models the parts of it where state and
control are hard, and proves what its documentation and tests rely on. `dafny verify dfyconfig.toml` checks everything.

The project has six groups of modules.

* **Delivery graph** (`Delivery`, `DeliveryGraph`, `DeliveryStructure`, `DeliveryBrief`, `DeliveryImpact`, over `Graphs`
  and `Ordering`). The recursive cycle check, the worklist closure, the dependencies-first emitter, the bounded brief
  and the fixpoint of affected nodes are methods, proved against reachability in the edge set.
* **Store** (`StoreModel`, `StoreFrames`, `StoreTasks`, `StoreCompletion`, `StoreExecutions`, `StoreIdempotency`,
  `StoreOperations`, `StoreReplay`, `StoreAudit`, `StoreObject`, `WriteScope`). `StoreModel` gives each transaction as
  a function on the tables and the event log, and `After(history)` as the store after any sequence of commands.
  `StoreObject.Store` is the class whose methods change the tables in place; each is proved to do what the function
  says. `StoreOperations` states, operation by operation, when it commits and the rows it then writes. The theorems
  quantify over all histories.
* **Session delegation** (`SessionDelegation`, `DelegationLog`, `DelegationOperations`). The bounded log with reserved
  room, the theorem that no terminal report is ever stranded, the status read back from the log, and what each request
  needs and records, read off the log's entries.
* **Workflow** (`WorkflowProcedure`, `Workflow`, `WorkflowRuns`, `WorkflowGaps`, `WorkflowOperations`,
  `WorkflowObject`). The stage machine with rework and replanning, over a world that only moves forward.
* **Initiatives** (`Initiative`, `InitiativeReplay`, `InitiativeReadiness`, `InitiativeOperations`,
  `InitiativeObject`). Three writers, a replay that rechecks every snapshot, and readiness.
* **Context selection** (`ContextSelection`). The greedy selector and the trimming of an oversized begin response.

Conventions. A transaction that is refused returns the tables it was given, which is what rolling back means. An
identifier is its rank in byte order; new identifiers come from a counter. SHA-256 is an injective function, so a digest
is the value digested. What the file system or another subsystem would answer is an input: which declared files are
stale, whether a cited file still has its bytes, whether a claim's evidence was accepted, which evidence another task
already cites. Event keys the runner derives from a run are a different kind of key from those callers choose.

## Model

| member | source | states |
|---|---|---|
| Delivery.FingerprintExact | crates/aporic/src/delivery.rs:289-296 | two nodes have one fingerprint exactly when they differ at most in the order of their dependency and requirement lists |
| Delivery.ExecutionFingerprintExact | crates/aporic/src/delivery.rs:297-306 | two executions have one fingerprint exactly when commands and declarations are equal, every command runs in the same directory (the declared one, else the workspace), and the directories of anything else agree |
| DeliveryGraph.Visit | crates/aporic/src/delivery.rs:345-363 | the three-colour walk fails only on a real cycle; otherwise it restores the path and leaves a finished, closed, cycle-free set holding the node; recursion shrinks the set of nodes off the path |
| DeliveryGraph.CheckAcyclic | crates/aporic/src/delivery.rs:439-442 | with fresh paths and one shared done set the driver succeeds if and only if the graph is acyclic |
| DeliveryGraph.Closure | crates/aporic/src/delivery.rs:310-325 | returns exactly the nodes reachable from its root, and fails exactly when the walk leaves the node map |
| DeliveryGraph.ClosureDefined | crates/aporic/src/delivery.rs:310-325 | without dangling edges everything reachable from a node is a node, so closures of valid manifests never fail |
| DeliveryStructure.UniqueIds | crates/aporic/src/delivery.rs:336-344 | accepts exactly the lists without repetition |
| DeliveryStructure.NodeMapSize | crates/aporic/src/delivery.rs:397-400 | collecting nodes in a map keeps their number exactly when no ID repeats, which is how duplicates are found |
| DeliveryStructure.ValidateNode | crates/aporic/src/delivery.rs:401-438 | a node passes exactly when its references are distinct and typed and scenario metadata sits on scenarios only |
| DeliveryStructure.ValidateCheck | crates/aporic/src/delivery.rs:443-477 | a check passes exactly when it names a test node, a declared command and distinct scenario nodes |
| DeliveryStructure.ValidateStructure | crates/aporic/src/delivery.rs:364-479 | accepts exactly the valid manifests: sizes, unique IDs, typed references, no dangling edge, no cycle |
| DeliveryBrief.Order | crates/aporic/src/delivery.rs:800-815 | although a node is marked seen on entry, on an acyclic graph it is emitted once, after all its dependencies, and the open nodes are exactly the recursion path |
| DeliveryBrief.CollectWanted | crates/aporic/src/delivery.rs:790-799 | the union of closures is exactly what the focus reaches, or every node for an empty focus; it fails exactly on an unknown focus ID |
| DeliveryBrief.OrderWanted | crates/aporic/src/delivery.rs:816-820 | every wanted node exactly once, dependencies first |
| DeliveryBrief.SelectNodes | crates/aporic/src/delivery.rs:835-851 | a node is selected exactly when, after those selected before it, neither bound is exceeded and none of its dependencies is missing; a node that does not fit stops nothing; the rest is omitted, in order |
| DeliveryBrief.DepsFirstIsClosed | crates/aporic/src/delivery.rs:839-845 | a dependencies-first list holds everything its members can reach |
| DeliveryBrief.NothingSkippedIff | crates/aporic/src/delivery.rs:835-852 | the greedy walk skips nothing exactly when the whole order fits both bounds |
| DeliveryBrief.MakeBrief | crates/aporic/src/delivery.rs:776-865 | accepted exactly within the declared limits; each wanted node is selected or omitted by the greedy rule stated position by position; the text is the opening and the selected lines; the selection is dependency-closed; `truncated` is true exactly when a section or node could not fit |
| DeliveryImpact.CheckInputFingerprints | crates/aporic/src/delivery.rs:326-335 | the fingerprints of exactly the nodes in the test's prerequisite closure |
| DeliveryImpact.JudgeCheck | crates/aporic/src/delivery.rs:651-733 | coverage and currency flags mean: every mapped scenario traced through design and implementation, the four input kinds file-backed, the snapshot equal to the closure and none of it stale |
| DeliveryImpact.AffectedIsLeast | crates/aporic/src/delivery.rs:883-910 | every set closed under dependents that holds the seeds holds all affected nodes |
| DeliveryImpact.AffectedNodes | crates/aporic/src/delivery.rs:883-910 | the repeated pass terminates with exactly the nodes that reach a changed or stale node over edges of either revision |
| DeliveryImpact.StaleFlag | crates/aporic/src/delivery.rs:945-945 | a check has an affected prerequisite if and only if its test node is affected |
| DeliveryImpact.SameFingerprints | crates/aporic/src/delivery.rs:326-335 | an unaffected check has the same input fingerprints in both revisions |
| DeliveryImpact.ImpactSound | crates/aporic/src/delivery.rs:867-980 | a preserved check has the same prerequisite closure with the same fingerprints in both revisions, none of it stale, and complete coverage |
| DeliveryImpact.Impact | crates/aporic/src/delivery.rs:867-980 | the report: changed and affected sets exact, preserved exactly the eligible checks, preserved and invalidated partition all previous and current check IDs, sorted; `executionChanged` and eligibility by what the executions run, not by their fingerprints |
| DeliveryImpact.ReceiptsImpact | crates/aporic/src/delivery_receipts.rs:312-341 | keeps exactly the preserved checks with verified execution, moves the rest over, and the partition survives |
| WriteScope.NormalizeWriteScope | crates/aporic/src/store.rs:5288-5343 | the component loop computes the normal form, refusing what the source refuses |
| WriteScope.NormalizeExactly | crates/aporic/src/store.rs:5288-5343 | however a text is cut at its slashes, it is accepted exactly when it is workspace-relative and every piece that names something is portable (characters, endings, no device name), and the normal form joins the lowercase names, or is a dot |
| WriteScope.NormalizeIdempotent | crates/aporic/src/store.rs:5288-5343 | normalizing an accepted scope again changes nothing |
| WriteScope.OverlapMeansSharedSubtree | crates/aporic/src/store.rs:5345-5358 | on accepted scopes the text test is true exactly when some path lies under both |
| StoreTasks.HistoryKeepsTasks | crates/aporic/src/store.rs:1733-2067 | in every reachable store dependencies are older tasks of the same project, leased and completed tasks have all dependencies completed, and stored scopes are normal |
| StoreTasks.DependencyDiscipline | crates/aporic/src/store.rs:1775-1808 | the task graph is acyclic and within one project, and every edge from a leased or completed task ends in a completed one |
| StoreTasks.FinishedTasksAreFinal | crates/aporic/src/store.rs:1894-1913 | no command changes a completed or cancelled task |
| StoreTasks.ClaimExactly | crates/aporic/src/store.rs:1868-1955 | in a reachable store a claim commits exactly when the task is claimable, and the worker then holds it at every moment before the deadline and none after |
| StoreTasks.HistoryKeepsLeases | crates/aporic/src/store.rs:1868-1955 | under a nondecreasing clock live leases of one project never have clashing scopes, at any later moment |
| StoreTasks.LeaseExclusion | crates/aporic/src/store.rs:5229-5272 | at no moment does a workspace path lie under the scopes of two distinct tasks of one project with live leases |
| StoreCompletion.CompleteExactly | crates/aporic/src/store.rs:1957-2016 | a completion commits exactly for the holder of a live lease whose proofs match the criteria one to one and are each accepted |
| StoreCompletion.FactsAreKept | crates/aporic/src/store.rs:976-1034 | no command alters a claim or moves a session to another project |
| StoreCompletion.CompletionIsJustified | crates/aporic/src/store.rs:5360-5473 | in every reachable store each completed task's criteria are met, one to one, by verified claims of its project |
| StoreExecutions.HistoryKeepsRuns | crates/aporic/src/store.rs:1191-1272 | each run continues the chain: retry of the settled attempt before it, at most one running per specification |
| StoreExecutions.AttemptsAreConsecutive | crates/aporic/src/store.rs:1222-1237 | the attempts of every specification are exactly 1 to some n, each made once |
| StoreExecutions.SettledRunsAreFinal | crates/aporic/src/store.rs:1290-1296 | a run that has left `running` is the same after any further history |
| StoreExecutions.LateFinishRefused | crates/aporic/src/store.rs:1290-1296 | a result for a settled run, say one a reconcile interrupted, is refused however late, and changes nothing |
| StoreExecutions.ReconcileExactly | crates/aporic/src/store.rs:1526-1570 | reconciling interrupts exactly the running attempts from before the cutoff |
| StoreOperations.CreateExactly | crates/aporic/src/store.rs:1733-1826 | a creation commits exactly when its texts are proper, its scopes have distinct normal forms, its session is open, no active task of the project has the objective, and every dependency is a task of the project; the one new row is then queued, unleased, and holds what was asked for |
| StoreOperations.ClaimCallExactly | crates/aporic/src/store.rs:1868-1955 | a claim commits exactly for a claimable task and a lease of 30 to 86400 seconds; it writes owner, deadline and status of that row and nothing else |
| StoreOperations.CompleteCallExactly | crates/aporic/src/store.rs:1957-2016 | a completion commits exactly when completable; it writes status, summary and proofs, ends the lease, and keeps the rest |
| StoreOperations.CancelExactly | crates/aporic/src/store.rs:2018-2067 | a cancellation commits exactly for a queued or leased task; it writes status and reason, ends the lease, and keeps the rest |
| StoreOperations.RecordExactly | crates/aporic/src/store.rs:853-919 | a record is added exactly in an open session, of a kind still in use, replacing only a replaceable one, and as an agent's untrusted word |
| StoreOperations.EvidenceExactly | crates/aporic/src/store.rs:921-974 | evidence is added exactly in an open session when its content could be read, with the digest seen |
| StoreOperations.AssertExactly | crates/aporic/src/store.rs:976-1034 | a claim is asserted exactly in an open session when supported by evidence on record, with no receipt |
| StoreOperations.StartExactly | crates/aporic/src/store.rs:1191-1272 | a run starts exactly when its specification is registered, in an open session, with few enough artifacts and none running; it is the next attempt and retries the last one |
| StoreOperations.FinishExactly | crates/aporic/src/store.rs:1274-1452 | a result is accepted exactly for a running run of a registered specification with nonblank texts, artifacts within limits and distinct paths, and, for a success only, the success clauses; run, receipt and claim are then as reported |
| StoreOperations.TotalExactly | crates/aporic/src/store.rs:1315-1327 | the total that is limited is the sum of the artifact sizes |
| StoreOperations.ReconcileWhole | crates/aporic/src/store.rs:1526-1570 | a reconcile is refused outside one second to one year; otherwise it interrupts exactly the runs going since before the cutoff, with one event each, and touches nothing else |
| StoreExecutions.ClaimIffSucceeded | crates/aporic/src/store.rs:1417-1434 | a receipt-backed claim exists for a run if and only if it succeeded; it is the only one, verified, worded by the specification, and its receipt meets the specification |
| StoreExecutions.RunnerClaimsBack | crates/aporic/src/store.rs:1417-1434 | every claim with receipts backs some succeeded run |
| StoreIdempotency.RetryIsNoOp | crates/aporic/src/store.rs:5475-5504 | at any later time an exact retry returns the stored result and changes nothing; another request under the key is refused and changes nothing |
| StoreIdempotency.KeysAreUnique | crates/aporic/src/store.rs:5506-5530 | no two events of any history share a key, the runner's own keys included |
| StoreReplay.ExecuteReports | crates/aporic/src/store.rs:1733-2067 | every caller transaction changes exactly the row its event reports |
| StoreReplay.HistoryKeepsLog | crates/aporic/src/store/core_event_audit.rs:78-131 | after any history tasks, records, evidence and runs equal the replay of the log, and the claims it lacks are those with receipts |
| StoreReplay.ReplayIsLast | crates/aporic/src/store/core_event_audit.rs:78-131 | the replay of a log holds, for each row any event is a snapshot of, the last such snapshot |
| StoreReplay.PicksExactly | crates/aporic/src/store/core_event_audit.rs:91-129 | which events are snapshots of which rows, with an agent's historical context read as untrusted |
| StoreAudit.Findings.Mismatch | crates/aporic/src/store/core_event_audit.rs:27-32 | counts every mismatch and keeps the first twenty labels |
| StoreAudit.Findings.Compare | crates/aporic/src/store/core_event_audit.rs:46-66 | counts each differing and each uncovered row once, split by runner claims, and samples them in key order up to twenty |
| StoreAudit.ReplayCore | crates/aporic/src/store/core_event_audit.rs:71-131 | one pass over the log builds the four replays, tightening old records, and counts what does not decode |
| StoreAudit.AuditCoreEvents | crates/aporic/src/store/core_event_audit.rs:69-257 | the report's counters and samples, stated by the replays and the tables |
| StoreAudit.CoreAuditClean | crates/aporic/src/store/core_event_audit.rs:69-257 | for every reachable store such a report has no mismatch, nothing undecodable, no legacy row, and exactly the runner's claims uncovered |
| StoreAudit.CoreAuditExactly | crates/aporic/src/store/core_event_audit.rs:69-257 | on any store: consistent exactly when every row is as the log last reported it, no legacy rows exactly when every row but the runner's claims has a snapshot, nothing unsupported exactly when every core event decodes |
| StoreAudit.AuditExecutionReplay | crates/aporic/src/store.rs:1481-1524 | lists each run that differs between log and table once, those in the log first |
| StoreAudit.RunAuditClean | crates/aporic/src/store.rs:1481-1524 | for every reachable store there is nothing to list |
| StoreAudit.RunAuditExactly | crates/aporic/src/store.rs:1481-1524 | on any store a run is listed exactly when its last snapshot and its row are not the same |
| StoreObject.NormalizeWriteScopes | crates/aporic/src/store.rs:5274-5286 | the normal forms of all scopes, or nothing when one is refused or repeated |
| StoreObject.ScopesOverlap | crates/aporic/src/store.rs:5250-5264 | the nested early-exit folds decide whether any two scopes overlap |
| StoreObject.WithinTotal | crates/aporic/src/store.rs:1315-1327 | a saturating 64-bit sum still decides the limit on the true total |
| StoreObject.InterruptAllStale | crates/aporic/src/store.rs:1540-1567 | interrupting the selected stale runs one by one is reconciling the whole table |
| StoreObject.Store.CheckDependencies | crates/aporic/src/store.rs:1775-1789 | the first missing or foreign dependency, if any |
| StoreObject.Store.CheckUnfinished | crates/aporic/src/store.rs:1914-1928 | the first dependency that is missing or not completed, if any |
| StoreObject.Store.EnsureWriteScopeAvailable | crates/aporic/src/store.rs:5229-5272 | succeeds exactly when no live lease of the project collides |
| StoreObject.Store.ValidateCriterionProofs | crates/aporic/src/store.rs:5360-5473 | the first objection to the proofs, or to what they cover |
| StoreObject.Store.CreateTask | crates/aporic/src/store.rs:1733-1826 | does to the tables in place what the create transaction does to them as a value |
| StoreObject.Store.ClaimTask | crates/aporic/src/store.rs:1868-1955 | the same for claiming |
| StoreObject.Store.CompleteTask | crates/aporic/src/store.rs:1957-2016 | the same for completing |
| StoreObject.Store.CancelTask | crates/aporic/src/store.rs:2018-2067 | the same for cancelling |
| StoreObject.Store.AddRecord | crates/aporic/src/store.rs:853-919 | the same for adding a record |
| StoreObject.Store.AddEvidence | crates/aporic/src/store.rs:921-974 | the same for adding evidence |
| StoreObject.Store.AssertClaim | crates/aporic/src/store.rs:976-1034 | the same for asserting a claim |
| StoreObject.Store.StartExecution | crates/aporic/src/store.rs:1191-1272 | the same for starting a run |
| StoreObject.Store.FinishExecution | crates/aporic/src/store.rs:1274-1452 | the same for finishing a run |
| StoreObject.Store.ReconcileExecutions | crates/aporic/src/store.rs:1526-1570 | the same for reconciling, and how many runs it interrupted |
| SessionDelegation.HistoryKeepsSession | crates/aporic/src/store/delegation.rs:37-209 | in every reachable session events and owed terminal reports fit in 64, the owed count is the number of pending scopes, each scope's history is a start or a start and its end with the same model and effort, each agent has one dimension |
| SessionDelegation.TerminalReportsNeverStranded | crates/aporic/src/store/delegation.rs:114-180 | for every pending start of every reachable session, open or closed, the matching terminal report under a fresh key is recorded and settles exactly that scope |
| SessionDelegation.PendingCanDrain | crates/aporic/src/store/delegation.rs:445-465 | from every reachable session all pending scopes can be settled within the bound, one report each |
| DelegationOperations.AssessExactly | crates/aporic/src/store/delegation.rs:37-83 | in every reachable session an assessment is recorded exactly when well shaped, under a new key, in an open session, with one event and what is owed fitting with a place to spare; the decision keeps the request field by field under a fresh identifier; any other answer, and its error, is stated too |
| DelegationOperations.ReportExactly | crates/aporic/src/store/delegation.rs:85-209 | a start is recorded exactly under the latest decision that delegates its dimension, by an agent not heard of there nor in the other dimension, with room for its end; an end exactly for an unfinished start of the same model and effort; the report keeps the request field by field |
| DelegationOperations.PriorExactly | crates/aporic/src/store/delegation.rs:131-135 | what the search from the end finds, read off the log entries: nothing heard, unfinished, or ended |
| DelegationOperations.StatusExactly | crates/aporic/src/store/delegation.rs:467-557 | what each gap of a status means by the log entries, each at most once, in the order of their labels |
| DelegationLog.Stream.RequireCapacity | crates/aporic/src/store/delegation.rs:445-465 | the counting loop decides whether there is room beside everything reserved |
| DelegationLog.Stream.FindPrior | crates/aporic/src/store/delegation.rs:131-135 | the search from the end finds the latest report of the scope |
| DelegationLog.Stream.Assess | crates/aporic/src/store/delegation.rs:37-83 | extends the log in place as the assess transaction does |
| DelegationLog.Stream.ReportRun | crates/aporic/src/store/delegation.rs:85-209 | extends the log in place as the report transaction does |
| DelegationLog.CollectGaps | crates/aporic/src/store/delegation.rs:539-556 | the reverse walk with `seen` collects the gap of each scope's latest report |
| DelegationLog.GapsMean | crates/aporic/src/store/delegation.rs:539-556 | a completion gap is shown exactly when some scope of the dimension is pending, a failure exactly when some scope's latest report failed |
| DelegationLog.ReadSessionStatus | crates/aporic/src/store/delegation.rs:467-557 | reads the stream back, or refuses one past its bound, with the gaps in order |
| WorkflowProcedure.StepsDetermine | crates/aporic/src/store/workflow.rs:943-977 | in every procedure a step ID has one stage and one skip rule |
| WorkflowProcedure.TablesDistinct | crates/aporic/src/store/workflow/frontend.rs:9-34 | the common list and the browser module name each step once and share only steps the common list keeps for the UI profile |
| WorkflowGaps.ProcedureExactly | crates/aporic/src/store/workflow.rs:943-977 | a plan's procedure is empty for an unknown version, else exactly the listed steps its profile and depth ask for, by stage |
| WorkflowGaps.ProcedureInOrder | crates/aporic/src/store/workflow.rs:943-977 | within a stage the common steps come first, each list in its own order |
| WorkflowGaps.MissingExactly | crates/aporic/src/store/workflow.rs:601-700 | which gaps the list of any status names, and what each of them says of the plan, the steps, the decisions, the reports and the task |
| WorkflowRuns.HistoryKeepsRun | crates/aporic/src/store/workflow.rs:50-548 | the invariant of every run: shape, steps, evidence of transitions, plans, completion |
| WorkflowRuns.WorkflowShape | crates/aporic/src/store/workflow.rs:456-531 | transitions are exactly the stages after intake up to the current one, one status per step, earlier steps completed or allowed to be skipped, no rework left below the current stage |
| WorkflowRuns.AdvanceKeepsOk | crates/aporic/src/store/workflow.rs:214-368 | an accepted advance leaves a well-formed status |
| WorkflowRuns.RecordKeepsOk | crates/aporic/src/store/workflow.rs:408-548 | an accepted step record, rework included, leaves a well-formed status |
| WorkflowRuns.CompletedRefuses | crates/aporic/src/store/workflow.rs:551-561 | once completed, a request changes nothing and is refused unless it is an exact retry |
| WorkflowRuns.CompletionIsAbsorbing | crates/aporic/src/store/workflow.rs:240-256 | once completed, any further run leaves the stream as it is |
| WorkflowRuns.CompletionIsJustified | crates/aporic/src/store/workflow.rs:630-697 | a completed workflow's task is finished, its implementation stage names a delegation decision made for the plan with its materiality, and a delegated review was reported complete |
| WorkflowRuns.ImplementationIsBound | crates/aporic/src/store/workflow.rs:282-345 | from implementation on the bound decision fits, artifacts are direct evidence, and the user's decision is cited where the plan asks for it |
| WorkflowRuns.UnknownsAreResolved | crates/aporic/src/store/workflow.rs:106-142 | past intake every material unknown ever recorded was dropped by a later plan with exactly one resolution citing evidence |
| WorkflowRuns.PlansRatchet | crates/aporic/src/store/workflow.rs:143-169 | a plan relaxes the one before only with a reported user statement since then |
| WorkflowOperations.PlanExactly | crates/aporic/src/store/workflow.rs:50-212 | a plan is accepted exactly when the task is worked on, there is room, each dropped unknown has exactly one evidenced answer and nothing else is answered, and the user is cited exactly when it asks for less; the stream starts over with the request, field by field |
| WorkflowOperations.AdvanceExactly | crates/aporic/src/store/workflow.rs:214-368 | an advance is accepted exactly at the stage it expects, when nothing is lacking and it brings the files and the user's word that stage asks for; the workflow is then one stage further with a transition naming what it rests on |
| WorkflowOperations.RecordExactly | crates/aporic/src/store/workflow.rs:408-548 | in every run a step is recorded exactly when defined, in reach, with evidence and reason fitting its disposition; rework goes back and forgets what came after, anything else replaces the step's status, keeping the order of the others |
| WorkflowOperations.AfterReworkExactly | crates/aporic/src/store/workflow.rs:789-817 | evidence counts for completing a step exactly when registered after every rework the stream has recorded |
| WorkflowObject.CollectMissing | crates/aporic/src/store/workflow.rs:601-700 | the gap list, gathered in order |
| WorkflowObject.CheckUnknowns | crates/aporic/src/store/workflow.rs:114-134 | the loop accepts exactly when every prior unknown is kept or has one fitting resolution |
| WorkflowObject.Stream.PlanWorkflow | crates/aporic/src/store/workflow.rs:50-212 | extends the log in place as the plan transaction does |
| WorkflowObject.Stream.AdvanceWorkflow | crates/aporic/src/store/workflow.rs:214-368 | extends the log in place as the advance transaction does |
| WorkflowObject.Stream.RecordWorkflowStep | crates/aporic/src/store/workflow.rs:408-548 | extends the log in place as the step transaction does |
| InitiativeReplay.ArtifactInvalidatesLaterPhases | crates/aporic/src/store/initiative.rs:473-491 | a new artifact drops its own kind and every later phase, goes last, and keeps phase order |
| InitiativeReplay.LinkInvalidatesIntegration | crates/aporic/src/store/initiative.rs:493-514 | a new link is new, and drops the integration and release artifacts only |
| InitiativeReplay.HistoryKeepsStreams | crates/aporic/src/store/initiative.rs:27-254 | whatever the writers did, every stream replays to a well-formed status within its bound, in any later world |
| InitiativeReplay.ReplayIsTotal | crates/aporic/src/store/initiative.rs:345-471 | reading an initiative back never fails and agrees with its last snapshot; artifacts strictly increase in phase order, links are distinct |
| InitiativeReplay.EverySnapshotReplays | crates/aporic/src/store/initiative.rs:457-468 | each prefix of a stream replays to the plan, artifacts and links recorded then |
| InitiativeOperations.ReadsLast | crates/aporic/src/store/initiative.rs:345-471 | reading an initiative back gives the plan, artifacts and links of the last event of its stream |
| InitiativeOperations.PlanExactly | crates/aporic/src/store/initiative.rs:27-142 | a plan is recorded exactly when well shaped, under a new key, by an open session; a revision also needs its own initiative, room, and a reported user statement since the plan it replaces; the initiative starts over with the request, field by field, under a fresh revision |
| InitiativeOperations.ArtifactExactly | crates/aporic/src/store/initiative.rs:144-194 | an artifact is recorded exactly when an open session of the owning project cites a direct file since the plan, with room; it drops its own and later phases and goes last with the file's time |
| InitiativeOperations.LinkExactly | crates/aporic/src/store/initiative.rs:196-254 | a link is recorded exactly when an open session of the owning project links, once, one of its tasks that carries the planned requirement's criterion; later artifacts are dropped |
| InitiativeOperations.MissingExactly | crates/aporic/src/store/initiative.rs:516-626 | which gaps the list names, and what each of them says of requirements, links, tasks, artifacts and their times |
| InitiativeReadiness.ReadyIff | crates/aporic/src/store/initiative.rs:516-626 | nothing is missing exactly when every requirement is linked, every link verified, every artifact current, and the chronology holds |
| InitiativeReadiness.ReadinessImpliesChronology | crates/aporic/src/store/initiative.rs:516-626 | for every initiative the writers made the status can be read and refreshed, and it is ready exactly under that condition, so plan <= planning <= design <= every linked task's update <= integration <= release |
| InitiativeReadiness.OrderGapsNone | crates/aporic/src/store/initiative.rs:588-622 | comparing with the latest and earliest verified update is comparing with every linked task |
| InitiativeObject.Board.ApplyArtifact | crates/aporic/src/store/initiative.rs:473-491 | two retains and a push, in place |
| InitiativeObject.Board.ApplyLink | crates/aporic/src/store/initiative.rs:493-514 | refuses a repeated link, otherwise pushes it and drops later artifacts |
| InitiativeObject.Board.Refresh | crates/aporic/src/store/initiative.rs:516-626 | the nested loops with running extremes compute exactly what is missing |
| InitiativeObject.Initiatives.ReadBoard | crates/aporic/src/store/initiative.rs:345-471 | replays a stream into a mutable status, failing exactly when replay fails and with its error |
| InitiativeObject.Initiatives.PlanInitiative | crates/aporic/src/store/initiative.rs:27-142 | extends the log in place as the plan writer does |
| InitiativeObject.Initiatives.RecordInitiativeArtifact | crates/aporic/src/store/initiative.rs:144-194 | extends the log in place as the artifact writer does |
| InitiativeObject.Initiatives.LinkInitiativeTask | crates/aporic/src/store/initiative.rs:196-254 | extends the log in place as the link writer does |
| ContextSelection.SelectionWithin | crates/aporic/src/context.rs:57-91 | whatever is offered, used bytes are the sum of the selected sizes and within budget, items within the limit, contents distinct |
| ContextSelection.SelectionCounted | crates/aporic/src/context.rs:57-91 | every candidate is selected or omitted for exactly one reason, as long as there are fewer than 2^32 |
| ContextSelection.RankIgnoresOrder | crates/aporic/src/context.rs:40-47 | the order of the input does not matter when no two candidates share a sort key |
| ContextSelection.RankExactly | crates/aporic/src/context.rs:40-47 | ranking is a permutation ordered by priority, larger overlap, later time, smaller ID, and keeps the order of candidates with one key |
| ContextSelection.SelectionExactly | crates/aporic/src/context.rs:57-91 | each candidate is taken exactly when its content is new, there is a place and its bytes fit after those taken before it; the counters are the sizes of the groups left out, capped at 32 bits |
| ContextSelection.Select | crates/aporic/src/context.rs:27-108 | selects the ranked candidates greedily, position by position, and reports limits, bytes and each counter; the budget accounts for every candidate |
| ContextSelection.TrimResponse | crates/aporic/src/store/core_flow.rs:62-73 | keeps the longest prefix of items that fits, keeps the accounting so the unsigned subtraction never underflows, and fails exactly when not even no items fit |

## Left out

* SQLite, SQL text, migrations, JSON and UUIDs: tables are maps, the log a sequence, a transaction one step, new identifiers a counter. Arithmetic on timestamps and attempt numbers is unbounded where the code saturates or would overflow.
* File reads, hashing, canonicalization and symlink checks: an input says which files are stale or changed. The path, ID-format and digest-format checks of manifest validation are not part of this model.
* Process running, sandboxing and Git: a run's result is an arbitrary input to finishing it. Capturing compiler input on start and the artifact rows of a receipt (beyond their paths and sizes) are not part of this model.
* The MCP, CLI and hook layers, HTTP research, full-text search, the memory projection, accountability, intake and Rust-repair cases: they add no harder state.
* Task-scoped delegation: its plain bound of 64 events has no reservation argument; the workflow sees its decisions and reports as append-only inputs.
* Opening and closing sessions and registering command specifications: plain commands of the store histories, without their own keys and events, which no audit replays.
* Claim validation (which evidence supports which claim status) and evidence grading: an input of the claim transaction.
* DeliveryImpact.Impact: manifest-level coverage gaps and profile category gaps are one input flag, because they only add to `unknown_mapping`; the textual reasons are not modelled.
* DeliveryBrief.Order: states a dependencies-first order, not which of several such orders is emitted (the code visits dependencies in byte order).
* DeliveryStructure.ValidateStructure: says whether a manifest is accepted, not which of several problems is reported first.
* DeliveryBrief.SelectNodes: the JSON rendering of each node is an input, one character per byte.
* StoreObject.Store.ReconcileExecutions: stale runs are taken in the order they were started, read as the order of their identifiers.
* StoreObject.Store.EnsureWriteScopeAvailable: a stored scope that no longer normalizes counts as a clash; no reachable store has one.
* StoreObject.Store.CreateTask: case folding in the checks for repeated texts is ASCII only, where the code folds Unicode for request texts.
* ContextSelection.Select: the token overlap of a text with the query is an input function, and the fields of a candidate that selection does not read are dropped.
* Workflow evidence already cited by another task is an input set, because it is found by a text search over the other streams.
* The finish flow that appends up to eight notes and closes a session: each note is the record transaction modelled here.
