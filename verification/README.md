# PiTools kernels, verified

PiTools is a control plane that repairs, rebases and watches pull requests. This project models the
algorithmic kernels the service rests on and proves what they are relied on for:

- **Stacks** (`ParentChains`, `StackPlanner`, `StackRefusals`, `StackPartition`, `StackExecutor`,
  `StackRebase`): inferring one merge order from branch names and declared parents, splitting a list into
  independent stacks, and the three phases that carry a plan out on the remote repository.
- **Patches** (`Splicing`, `Patch`, `PatchParser`, `PatchPrinter`, `PatchText`, `InlineSuggestion`): reading the unified
  format of POSIX.1-2017, XCU `diff`, section "Diff -u or -U Output Format", applying hunks in one pass,
  undoing them, and the second path that splices an inline suggestion.
- **Queue** (`Json`, `Queue`, `QueueRuns`, `QueueSteps`, `QueueOutcomes`, `QueueMigration`, `ControlDelivery`): the leased job
  table with every statement of every writer, whole runs under any interleaving, the hardening migration,
  and the requested actions of check runs.
- **Work plans** (`Controls`, `ControlRules`, `ControlRuns`, `Approval`, `FeedbackPlan`, `FeedbackRuns`, `SkipOrder`): the
  control machine, the binding of an approval to the exact proposal, and skipping feedback items.
- **Decisions** (`Sorting`, `Reconcile`, `Reconciliation`, `Readiness`, `MergeRules`, `MergeDecision`,
  `ReconciledFacts`): folding reviews,
  comments, statuses and check runs into one merge decision.
- **NATS** (`Nats`, `NatsStreams`): the incremental stream parser under any chunking.
- **Evidence** (`Redaction`, `CiEvidence`, `KeyBlocks`, `Secrecy`): redaction of credentials and private key blocks, that the
  output does not depend on what is hidden, and truncation.

`Basics`, `Ordering` and `Text` hold what the others share, and `TextFacts` says what the words of `Text` mean. Loops and objects that change in place are
methods and classes proved against specification functions or predicates; what the service promises is then
proved of those. Where a property fails, the exact condition under which it holds is proved and an input
that breaks it is given:

- The inverse of a patch restores the text exactly when the patched file keeps at least one line
  (`Patch.InverseOfRemovingAll` is one that does not).
- A new run holds its invariant exactly when nothing was in progress beforehand, or one item was and none
  was pending; the constructor also accepts other lists.
- The item on display is the worker's item exactly when the first unskipped index is below 100; past a hundred
  entries, work is left that cannot be skipped (`FeedbackRuns.HundredAndOneEntries`).
- Items are skipped in order in a run exactly when every skip that fires finds on record the first item not
  skipped (`SkipOrder.InOrderExactlyWhen`). Recording is not fenced by the lease: `SkipOrder.SkippedTwice` is a
  run on a new job of two entries that skips the first of them twice.
- Planning again after a completed stack run succeeds exactly when no other pull request shares the head of
  one that another comes after.
- A parked job can be approved exactly when a nested `approval_details` object with a string `plan_hash` is in
  its plan or in the details it was parked with. The worker merges its bound details at the top level of the
  plan, so no run of the queue ever gets such a job approved (`Approval.NeverApproved`).

## Model

| member | source | states |
|---|---|---|
| `ParentChains.RejectCycles` | src/stack.rs:208-231 | finds no cycle exactly when every walk towards the root ends; otherwise reports, ascending, the cycle met from the least number whose walk does not end |
| `ParentChains.WalkUp` | src/stack.rs:210-229 | one walk terminates, at a root or with the cycle it came back to |
| `ParentChains.CycleRefutesAcyclic` | src/stack.rs:215-219 | a reported cycle means some walk never ends |
| `ParentChains.FirstCycleUnique` | src/stack.rs:209-219 | there is at most one such cycle |
| `ParentChains.AcyclicHasRoot` | src/stack.rs:161-169 | once cycles are rejected a root exists, so an empty root list is never reported |
| `ParentChains.ChainUnique` | src/stack.rs:181-204 | a parent map has at most one order with each parent right before its child |
| `StackPlanner.Plan` | src/stack.rs:97-205 | succeeds exactly on stacks; then the order is the merge order and the updates are the corrections of declared parents; every refusal is explained by the list |
| `StackRefusals.OneRefusal` | src/stack.rs:97-231 | the error of a refused list is determined by the list in every detail: which number, which cycle, which siblings |
| `StackPlanner.MergeOrderUnique` | src/stack.rs:181-204 | a stack has exactly one merge order |
| `StackPlanner.ExplainedIsNoStack` | src/stack.rs:98-199 | each error the planner gives describes a list that is no stack |
| `StackPlanner.MergeOrderIsChain` | src/stack.rs:119-189 | the merge orders of a list are the chains of its resolved parent map, both ways |
| `StackPlanner.ResolveMeaning` | src/stack.rs:120-157 | resolving one parent succeeds exactly when the base matches at most one head and a declared parent exists and agrees |
| `StackPlanner.IndexPullRequests` | src/stack.rs:102-115 | the two indexes, or the first number met twice |
| `StackPlanner.ResolveOne` | src/stack.rs:120-158 | one pull request: parent, correction or refusal |
| `StackPlanner.ResolveParents` | src/stack.rs:117-159 | all parents and corrections, or the refusal of the least number that cannot be decided |
| `StackPlanner.OrderParents` | src/stack.rs:161-204 | a chain, a cycle, several roots or siblings; the branch for omitted pull requests is unreachable |
| `StackPlanner.WalkDown` | src/stack.rs:181-189 | the walk down ends and leaves out nothing below the root |
| `StackPlanner.AllOrdered` | src/stack.rs:191-199 | from the only root of an acyclic map the walk covers every pull request |
| `StackPartition.Partition` | src/stack.rs:37-95 | returns the connected components of the attachment graph, covering, ordered, two together exactly when a path joins them |
| `StackPartition.Adjacency` | src/stack.rs:48-68 | the adjacency map is the attachment relation taken both ways |
| `StackPartition.Reach` | src/stack.rs:76-85 | the worklist collects everything joined to its start and nothing visited before |
| `StackPartition.PartitionDisjoint` | src/stack.rs:37-95 | two components share no number |
| `StackPartition.StackIsOneComponent` | src/stack.rs:37-95 | a list the planner accepts is one component |
| `StackExecutor.Session.ClassifyOne` | src/worker.rs:965-990 | one update: still to do exactly on the old base, already done exactly on the new one; each other answer is the blocker of the condition that failed, and success means the pull request is open, unmerged, in this repository and on one of the two bases |
| `StackExecutor.Session.ClassifyUpdates` | src/worker.rs:963-991 | without interference the pending updates are exactly those whose base is still the old one, and every update fits; nothing is written, and nothing is read after a lost lease |
| `StackExecutor.Session.RebaseOne` | src/worker.rs:1000-1119 | one branch: at most one rebase with its exact target and force permission; without outside changes it happens only to an open, unmerged pull request of this repository with the listed head, on its target or on the old base of a planned update; each refusal is the one of the condition that failed or of the answer to the rebase, and a lost lease leaves no event |
| `StackExecutor.Session.RebaseAll` | src/worker.rs:998-1120 | the branches in merge order, stopping at the first blocker or error |
| `StackExecutor.Session.WriteBases` | src/worker.rs:1125-1147 | the pending bases are written one by one in order, stopping at a lost lease or at the write just sent that is not confirmed |
| `StackRebase.Rebase` | src/worker.rs:946-1157 | the whole run: its event log has the three-phase shape, each event was preceded by a lease that held, a run that stops names what stands against it, and without outside changes each rebased pull request fits; without interference it stays between the original and the final state, and arrives when it completes; from anywhere in between a calm run completes |
| `StackRebase.NoWriteBeforeTheRebases` | src/worker.rs:1122-1147 | in every run, before any base is written every branch of the merge order was rebased, in order and without a blocker |
| `StackRebase.RunAgain` | src/worker.rs:946-1157 | the job run again and again: however the earlier runs fail, the first that goes through leaves all bases written |
| `StackRebase.OnTheWayFits` | src/worker.rs:964-1068 | from a matching state with any of the bases written, every check of a retry passes |
| `StackRebase.WritingIsOnTheWay` | src/worker.rs:1126-1146 | stopping the writes anywhere leaves a state a retry completes; finishing them gives the one final state |
| `StackRebase.OnePlan` | src/stack.rs:97-205 | order and updates are determined by the list, so retries work on the same plan |
| `StackRebase.TargetCases` | src/worker.rs:1005-1020 | the target of a branch is its base or what its update leads to |
| `StackRebase.BasesFollowTheOrder` | src/worker.rs:999-1146 | after completion each base is the head of the predecessor, and nothing else changed |
| `StackRebase.RereadShowsTargets` | src/worker.rs:964-1146 | the list read again differs exactly in the bases, which are the targets |
| `StackRebase.PlanningAgain` | src/stack.rs:119-159 | planning the list read again succeeds exactly when no head of a predecessor is shared; then same order, no updates |
| `StackRebase.SharedHeadCannotBePlannedAgain` | src/stack.rs:124-129 | a family of inputs: a stack whose third pull request has the head of the first can be planned once and not again |
| `Splicing.PassIsSpliced` | src/feedback.rs:542-588 | a forward pass equals splicing the edits one by one, the last first |
| `Splicing.FlipRestores` | src/feedback.rs:542-588 | exchanging what goes and what comes undoes the pass |
| `Splicing.UncoveredKept` | src/feedback.rs:542-588 | what no edit covers is kept, moved by the growth before it |
| `Splicing.PassLength` | src/feedback.rs:542-588 | the length changes by the sum of the growths |
| `Patch.ApplyHunks` | src/feedback.rs:542-588 | succeeds exactly when every hunk fits after the one before, with the specified text; otherwise the first refused hunk and its reason |
| `Patch.ApplyOne` | src/feedback.rs:547-584 | one hunk: lines copied, lines produced, next cursor, or its refusal |
| `Patch.MatchHunk` | src/feedback.rs:559-578 | a hunk body against the file: what it produces, or the first index that does not match |
| `Patch.RefusedDoesNotFit` | src/feedback.rs:553-584 | every refusal is of a hunk that does not fit |
| `Patch.FirstRefusedDoesNotFit` | src/feedback.rs:547-584 | a reported refusal means the patch as a whole does not fit |
| `Patch.PassIsSplicing` | src/feedback.rs:542-588 | the single cursor pass equals splicing the hunks at their own positions from last to first |
| `Patch.LineCount` | src/feedback.rs:542-588 | the number of lines changes by exactly the sum of new minus old counts |
| `Patch.UntouchedLine` | src/feedback.rs:555-587 | a line outside every hunk keeps its text, moved by the hunks before it |
| `Patch.InvertRestores` | src/feedback.rs:542-588 | on lines: the inverse patch restores the original; it fits exactly when every header counts its old lines |
| `Patch.InvertRestoresText` | src/feedback.rs:542-588 | on text: applying the inverse restores the original exactly when at least one line was left |
| `Patch.InvertOfNothing` | src/feedback.rs:543-587 | when no line is left, the inverse leaves an extra empty line behind the original ones |
| `Patch.InverseOfRemovingAll` | src/feedback.rs:543-587 | an input: the inverse of removing the only line of a text does not restore it |
| `PatchParser.ParseUnifiedPatch` | src/feedback.rs:384-451 | succeeds exactly when some patch is described by the lines, and returns it; the path error exactly for invalid paths |
| `PatchParser.ParseHunks` | src/feedback.rs:402-442 | all hunks of the body, or none when no reading exists |
| `PatchParser.ParseHunk` | src/feedback.rs:403-441 | one hunk, or none that any reading could have there |
| `PatchParser.ParseBody` | src/feedback.rs:410-423 | the body lines up to the next line beginning with @@ |
| `PatchParser.CountBody` | src/feedback.rs:424-431 | the two counts of a body |
| `PatchParser.DescribesUnique` | src/feedback.rs:402-442 | lines describe at most one list of hunks |
| `PatchParser.ReadPatchKeepsCounts` | src/feedback.rs:579-583 | the count-changed error cannot happen for a patch that was read |
| `PatchParser.DescribedCounts` | src/feedback.rs:424-436 | every hunk read has body counts equal to its header |
| `PatchParser.ReadPatchInverts` | src/feedback.rs:384-588 | whatever patch was read and applied, its inverse restores the text exactly when a line was left |
| `PatchText.BodyLineMeans` | src/feedback.rs:410-416 | in every hunk read, a body line begins with a minus exactly when it is a removal, with a plus exactly when it is an addition, with a space exactly when it is context; the rest is the text |
| `PatchText.ParseLineMeans` | src/feedback.rs:410-420 | a line that begins otherwise, or is empty, is no body line |
| `PatchText.HunkSides` | src/feedback.rs:424-436 | the old lines of a hunk are its body lines with a space or minus, the new ones those with a space or plus, without that character; the header counts them |
| `PatchText.HunkStands` | src/feedback.rs:402-442 | every hunk of a patch that was read stands in its lines |
| `PatchText.RangeMeans` | src/feedback.rs:484-496 | a range is start and count in decimal with a comma between, or a start alone for one line, within the machine word |
| `PatchText.HeaderMeans` | src/feedback.rs:453-482 | a literal header "@@ -old +new @@" with any text behind gives the old start and both counts |
| `PatchText.PathMeans` | src/feedback.rs:498-520 | a path with an empty, "." or ".." component anywhere, a backslash or a NUL is refused |
| `PatchText.PathIsValid` | src/feedback.rs:498-520 | any other sequence of components is a path |
| `PatchText.OneHunk` | src/feedback.rs:547-588 | a hunk that fits takes the place of exactly its old lines, counted from one, or comes in behind the line it names |
| `PatchPrinter.PrintParse` | src/feedback.rs:384-451 | reading a printed well-formed patch gives that patch and no other |
| `PatchPrinter.ReadIsWellFormed` | src/feedback.rs:384-496 | every patch the reader accepts is well formed exactly when its new starts fit the machine word |
| `PatchPrinter.ReadPrintRead` | src/feedback.rs:384-496 | then printing what was read and reading it again gives the same patch |
| `PatchPrinter.HeaderRoundTrip` | src/feedback.rs:453-482 | reading a printed hunk header gives its numbers, whatever section text follows |
| `PatchPrinter.RangeRoundTrip` | src/feedback.rs:484-496 | reading a printed range gives start and count, with the short form for one line |
| `InlineSuggestion.ApplyInlineSuggestion` | src/feedback.rs:346-382 | applies exactly when the range lies in the file and no carriage return is present, with the specified text |
| `InlineSuggestion.InlineAgreesWithHunk` | src/feedback.rs:346-382 | whenever it applies, the hunk that removes those lines and adds the suggestion applies with the same text |
| `Queue.JobTable.FindSucceeded` | src/queue.rs:82-101 | the latest Succeeded job of the same repository, pull request, kind and head_sha, for ci_repair and stack_rebase only; none exactly when there is none |
| `Queue.JobTable.Insert` | src/queue.rs:102-116 | inserts a queued job, or meets the active one of the same identity and changes nothing |
| `Queue.JobTable.RequestCancel` | src/queue.rs:128-138 | cancels an active job and releases its lease; otherwise nothing |
| `Queue.JobTable.SkipCurrentItem` | src/queue.rs:140-159 | appends the current item to the skipped ones, requeues and gives the attempt back |
| `Queue.JobTable.MarkWaitingApproval` | src/queue.rs:161-183 | fenced by the lease: parks the job and merges the details into its plan |
| `Queue.JobTable.ApprovePlan` | src/queue.rs:185-213 | requeues a waiting job with the approval bit and the nested fingerprint |
| `Queue.JobTable.LeaseNext` | src/queue.rs:215-279 | fails exhausted jobs, then grants the oldest leaseable job not locked elsewhere, if there is one |
| `Queue.JobTable.AssertLease` | src/queue.rs:281-298 | true exactly while this worker holds this unexpired token |
| `Queue.JobTable.RenewLease` | src/queue.rs:300-317 | moves the expiry of a held lease and nothing else |
| `Queue.JobTable.Finish` | src/queue.rs:319-363 | while the lease holds: Succeeded on success and Failed without, the result stored, the lease released, nothing else; otherwise nothing |
| `Queue.JobTable.LinkCheckRun` | src/repository.rs:747-765 | records the item on display |
| `Queue.JobTable.CancelJobsOf` | src/repository.rs:505-548 | cancels the active jobs of the given repositories |
| `Queue.OldestLeaseable` | src/queue.rs:236-253 | the answer of the lease query |
| `QueueSteps.Perform` | src/queue.rs:74-363 | the table object makes exactly the steps runs are made of |
| `QueueSteps.NextUnique` | src/queue.rs:245-246 | the lease query has one answer |
| `QueueRuns.StepSound` | src/queue.rs:74-363 | every statement of every writer keeps one active job per identity, attempt bounds, no lease outside running, no active job with cancellation requested |
| `QueueRuns.RunSound` | src/queue.rs:74-363 | so does every run |
| `QueueRuns.StepKeepsTerminal` | src/queue.rs:128-363 | no statement changes state, plan, result or attempt of a terminal job |
| `QueueRuns.RunKeepsTerminal` | src/queue.rs:128-363 | nor does any run |
| `QueueRuns.LeaseLossIsPermanent` | src/queue.rs:281-298 | a grant once lost is lost in every later state of every run |
| `QueueRuns.LostHolderIsFenced` | src/queue.rs:161-363 | renewals, parkings and endings by a lost holder change nothing, for ever |
| `QueueRuns.GrantOnlyAfterLoss` | src/queue.rs:236-260 | a job is granted only when every earlier grant is lost |
| `QueueRuns.SupersededForEver` | src/queue.rs:215-298 | two grants of one job are never valid together, in this or any later state |
| `QueueRuns.OneHolder` | src/queue.rs:281-298 | at most one of all grants of a job is valid |
| `QueueRuns.RunLeases` | src/queue.rs:255-266 | in every run each lease in the table was granted, with a token of its own |
| `QueueRuns.StepAttempt` | src/queue.rs:150-262 | a statement moves the attempt up by a grant or down by a skip; the clamp never bites |
| `QueueRuns.AttemptAccounting` | src/queue.rs:140-279 | in every run from an empty table: attempt = grants - skips, and grants are at most the limit plus the distinct accepted skip deliveries |
| `QueueOutcomes.StepEnds` | src/queue.rs:215-363 | one statement: which one ends a job and in which state; nothing else does |
| `QueueOutcomes.StepMoves` | src/queue.rs:140-279 | one statement: who parks, leases or requeues a job, and what is written then |
| `QueueOutcomes.HowJobsEnd` | src/queue.rs:215-363 | at the end of every run a job is Succeeded exactly when an ending with success took effect, Failed exactly when one without success did or its attempts ran out, Cancelled exactly when it was cancelled while active |
| `QueueOutcomes.DoneForEver` | src/queue.rs:82-101 | a job done for a head stays so in every later state |
| `QueueOutcomes.SuccessIsFound` | src/queue.rs:82-101 | after a ci_repair or stack_rebase job with a head was ended with success, a succeeded job for that head exists in every later state of every run |
| `QueueOutcomes.AskForDone` | src/queue.rs:82-101 | and the table asked for that head gives a job |
| `QueueMigration.Harden` | migrations/0007_queue_hardening.sql:4-53 | the four updates on any table, field by field: bounds, stops, released leases, and duplicates cancelled with the id of the oldest job as text |
| `QueueMigration.MigrationSound` | migrations/0007_queue_hardening.sql:4-64 | the migrated table meets the check and the index, whatever the table was |
| `QueueMigration.MigrationKeepsOldest` | migrations/0007_queue_hardening.sql:26-53 | each identity with a live job keeps its oldest one, state and plan unchanged |
| `QueueMigration.MigratedRunsSound` | migrations/0007_queue_hardening.sql:55-64 | from the migrated table on, every run stays sound |
| `ControlDelivery.ControlDesk.RecordJobControl` | src/repository.rs:813-837 | one record for each job and delivery, the first one |
| `ControlDelivery.ControlDesk.ApplyAction` | src/workflow.rs:305-362 | the effect of an action on the table, and whether it had one |
| `ControlDelivery.ControlDesk.Process` | src/workflow.rs:229-364 | for every delivery the exact answer, the exact record with its literal decision, and the effect on the jobs, in terms of the literal action names, repository, pull request and actor |
| `ControlDelivery.HistoryGrows` | src/repository.rs:813-837 | over any list of arrivals records are only added |
| `ControlDelivery.RedeliveryDoesNothing` | src/workflow.rs:292-304 | in any list of arrivals, a delivery once on record changes no job when it comes again, whatever came in between |
| `ControlDelivery.ActsOnce` | src/workflow.rs:292-304 | in any list of arrivals no delivery acts twice |
| `ControlDelivery.ProcessIsRun` | src/workflow.rs:229-364 | processing is a run of the queue, so everything proved of runs covers it |
| `Controls.ValidateItems` | src/pr_controls.rs:518-533 | at most 100 items with unique ids; too many exactly above 100 |
| `Controls.New` | src/pr_controls.rs:240-261 | the first pending item is started; otherwise running or completed as the items say |
| `Controls.NewWaiting` | src/pr_controls.rs:263-270 | a waiting run with the items as given |
| `Controls.Find` | src/pr_controls.rs:242-245 | the first item with a status |
| `Controls.CancelOpenItems` | src/pr_controls.rs:421-425 | every open item is cancelled and no other |
| `Controls.ApplyControl` | src/pr_controls.rs:360-433 | the new state or the error of one control, as the specification function gives it |
| `ControlRules.ControlDoes` | src/pr_controls.rs:360-433 | every request is refused for the reason that holds, or does to the items and the state exactly what it asks for and is remembered |
| `ControlRules.StartDoes` | src/pr_controls.rs:240-261 | a run starts with its first pending item; without one it is running when an item is in progress and completed otherwise |
| `ControlRules.AuthorizedIs` | src/pr_controls.rs:279-287 | the author or a maintainer may control, names compared but for the case of a to z, empty names never |
| `ControlRuns.AcceptedWhen` | src/pr_controls.rs:366-427 | a control is accepted exactly when its actor is the author or a maintainer, the request is new, and it is of use in the present status |
| `ControlRuns.StepKeepsGood` | src/pr_controls.rs:360-433 | each accepted control keeps: running has one current item with all pending after it, waiting has none, ended runs nothing open |
| `ControlRuns.RunKeepsGood` | src/pr_controls.rs:360-433 | so does every sequence of controls |
| `ControlRuns.StartIsGood` | src/pr_controls.rs:240-261 | a new run meets this exactly when nothing was in progress, or one item was and none was pending |
| `ControlRuns.WaitingIsGood` | src/pr_controls.rs:263-270 | a waiting run meets it exactly when nothing was in progress |
| `ControlRuns.StartWithOneInProgress` | src/pr_controls.rs:240-261 | items the constructor accepts and does not bring in order |
| `ControlRuns.ApproveStartsFirst` | src/pr_controls.rs:374-385 | an approval starts the first open item and touches no other |
| `ControlRuns.SkipTakesFirst` | src/pr_controls.rs:386-413 | a skip takes the first open item, and in a running plan starts the next |
| `ControlRuns.RequestsCountOnce` | src/pr_controls.rs:369-371 | each request counts once: the remembered ones grow by the accepted calls |
| `ControlRuns.NothingStartsUnapproved` | src/pr_controls.rs:374-413 | without an accepted approval a waiting run never has an item in progress |
| `ControlRuns.AcceptedCosts` | src/pr_controls.rs:360-433 | accepted controls are paid for by open items |
| `ControlRuns.AcceptedBound` | src/pr_controls.rs:360-433 | at most n + 1 controls are ever accepted on a waiting plan of n items, at most n on a running one |
| `ControlRuns.RunForward` | src/pr_controls.rs:373-428 | finished items never change and no item goes back to pending |
| `ControlRuns.CurrentMovesOn` | src/pr_controls.rs:386-413 | the current item moves on in plan order and leaves nothing open behind |
| `ControlRuns.EndedForGood` | src/pr_controls.rs:374-427 | an ended run accepts nothing more |
| `Approval.BindKeeps` | src/pr_controls.rs:304-315 | binding adds the fingerprint and keeps every other field; details that are no object become the field details |
| `Approval.BoundHash` | src/pr_controls.rs:304-315 | the fingerprint stored is the fingerprint of the details that hold it |
| `Approval.ApprovalMeans` | src/pr_controls.rs:318-350 | a plan is approved exactly when the bit is set and the approved hash is the hash in the details and that of every field but the four of the queue with every detail but the hash |
| `Approval.BindMeans` | src/pr_controls.rs:294-315 | the bound details are the given ones with exactly that hash; details that are no object are put into one |
| `Approval.BindThenApprove` | src/queue.rs:185-201 | bound details stored under approval_details, then the approval update, make the plan approved |
| `Approval.SkipKeepsApproval` | src/queue.rs:140-159 | appending skipped items never changes whether a plan is approved |
| `Approval.ExactlyTheApproved` | src/pr_controls.rs:318-335 | with an injective hash and the same approval fields, a plan is approved exactly when its proposal and details are the approved ones |
| `Approval.ChangedProposal` | src/pr_controls.rs:294-350 | changing any other field of the plan withdraws the approval |
| `Approval.ChangedDetails` | src/pr_controls.rs:294-358 | so does changing the bound details |
| `Approval.RunKeepsApproval` | src/queue.rs:74-363 | in every run an approval lasts until a worker parks the job again |
| `Approval.ParkedIsApprovable` | src/worker.rs:340-371 | a parked job can be approved exactly when a nested approval_details object with a fingerprint is in the details or, if they bring none, in the plan |
| `Approval.OrdinaryDetailsCannotBeApproved` | src/worker.rs:340-371 | with the details the worker parks (a waiting notice, a CI repair proposal, none) a job can be approved exactly when its plan already held a nested fingerprint |
| `Approval.WorkerWaitsAreOrdinary` | src/worker.rs:340-371 | every parking by the worker is of the kind the next row speaks of |
| `Approval.NeverApproved` | src/worker.rs:340-371 | in every run where parking brings no nested details, a job inserted without a nested fingerprint is never approved |
| `FeedbackPlan.HasRemainingFeedback` | src/worker.rs:1399-1408 | true exactly when the worker has an item to apply |
| `FeedbackPlan.FirstUnskippedMeaning` | src/worker.rs:514-522 | the worker's item is the first index not skipped |
| `FeedbackPlan.PlanItemsForJob` | src/worker.rs:1410-1448 | up to a hundred items, skipped ones marked, the first other one with the given status |
| `FeedbackPlan.CurrentItemId` | src/workflow.rs:216-227 | the first item pending or in progress |
| `FeedbackPlan.StartWork` | src/workflow.rs:216-227 | the item recorded as current when a job is started |
| `FeedbackPlan.DisplayIsWorkerItem` | src/worker.rs:1410-1448 | display and worker agree exactly when the first unskipped index is below 100 or there is none |
| `FeedbackPlan.WorkAndDisplay` | src/worker.rs:1391-1448 | the worker takes the first entry whose id is not among the skipped items, and the display names it when it is one of the first hundred |
| `FeedbackPlan.NothingLeft` | src/worker.rs:1391-1448 | with all entries skipped there is neither work nor display; a job without entries displays its kind |
| `FeedbackRuns.WorkerDetailsAreHarmless` | src/worker.rs:1459-1473 | the details a feedback job is parked with leave its feedback and skipped items alone |
| `FeedbackRuns.SkipsGoInOrder` | src/queue.rs:140-159 | lease, start, park or not, and skip in turn add feedback-0, feedback-1 and so on, each lease being granted |
| `FeedbackRuns.AfterSkips` | src/worker.rs:1391-1448 | after m skips the worker's item is m while there is one, and the display agrees up to a hundred |
| `FeedbackRuns.AllSkippedAtTheEnd` | src/worker.rs:1391-1448 | for 1 to 100 entries, after as many skips no item is left and no further skip fires |
| `FeedbackRuns.EntriesBeyondTheDisplay` | src/worker.rs:1423 | beyond a hundred entries, work is left that no skip can reach |
| `FeedbackRuns.HundredAndOneEntries` | src/worker.rs:1423 | a new job of 101 entries, skipped in any hundred visits: item 100 is left and no skip reaches it |
| `FeedbackRuns.KindIsSkippedAgain` | src/worker.rs:246-264 | without feedback entries a skip fires on every start; reconcile jobs are not started, so none fires |
| `FeedbackRuns.RoundIsRun` | src/queue.rs:140-279 | a round is what the statements of a queue run do to the row |
| `FeedbackRuns.EveryRunSkipsInOrder` | src/queue.rs:140-279 | in every run whose starts record what the present plan displays, whatever is lost, parked or approved, the skipped items are the first ones in order, one for each skip that fired, and never more than are shown |
| `SkipOrder.InOrderExactlyWhen` | src/queue.rs:140-159 | in every run, the skipped items are the first ones in order, one for each skip that fired, if and only if every such skip found on record the first item not skipped |
| `SkipOrder.RunKeepsOutOfOrder` | src/queue.rs:140-159 | the list is only appended to: once out of order it stays so in every run |
| `SkipOrder.FittingStartsSuffice` | src/workflow.rs:40-51 | starts that record what the present plan displays meet that condition |
| `SkipOrder.SkippedTwice` | src/repository.rs:747-765 | an input: a possible run, from a table with one new job of two entries, in which each start records what its leased plan displayed and feedback-0 is skipped twice |
| `Sorting.StableSortSorts` | src/reconcile.rs:176-193 | the stable sort orders and keeps the elements |
| `Sorting.SortDedupMeaning` | src/readiness.rs:20-28 | sorting and removing repetitions leaves exactly the elements, once each, in order |
| `TextFacts.StringLessMeans` | src/readiness.rs:76 | texts are ordered by the first character that differs |
| `TextFacts.TrimMeans` | src/reconcile.rs:166-170 | trimming takes white space off both ends and nothing else |
| `TextFacts.LowerIs` | src/ci.rs:37-38 | lower case changes the twenty-six letters and nothing else |
| `TextFacts.ParseUnsignedMeans` | src/feedback.rs:484-496 | an unsigned number is digits behind at most one plus sign, up to the limit |
| `Reconcile.LatestReviews` | src/reconcile.rs:211-228 | each user with a deciding review is mapped to one that no other deciding review of theirs comes after |
| `Reconcile.CurrentApprovals` | src/reconcile.rs:195-209 | the number of users whose latest decision approves the head, and whether one approved another commit |
| `Reconcile.StatusChecks` | src/reconcile.rs:241-256 | of each context the status with the greatest id |
| `Reconcile.RunChecks` | src/reconcile.rs:258-272 | of each name the run with the greatest id, over any status |
| `Reconcile.CheckRecords` | src/reconcile.rs:239-274 | one record for each name, in the order of the names |
| `Reconciliation.ReadinessChecks` | src/reconcile.rs:25-53 | one snapshot for each reported or required check, unreported ones of unknown status |
| `Reconciliation.ReviewRecords` | src/reconcile.rs:110-127 | records of the reviews that say something, settled by their own or the latest state |
| `Reconciliation.CommentRecordsMeaning` | src/reconcile.rs:143-164 | records of the comments that say something |
| `Reconciliation.FeedbackRecords` | src/reconcile.rs:106-141 | one record for each id, in the order of the ids, and no id lost |
| `Reconciliation.ReconcileReadSet` | src/reconcile.rs:21-104 | the whole result: checks, feedback, snapshots and every field |
| `Readiness.Evaluate` | src/readiness.rs:5-84 | exactly the reasons that apply, once each, by name; ready exactly when none applies |
| `Readiness.BranchReasons` | src/readiness.rs:8-18 | the reasons from draft, mergeability and base |
| `Readiness.CheckReasons` | src/readiness.rs:20-48 | the reasons from the required checks of policy and protection |
| `Readiness.ReviewReasons` | src/readiness.rs:50-74 | the reasons from reviews and unresolved automation feedback |
| `Readiness.OneDecision` | src/readiness.rs:76-77 | the list of reasons is determined by the input |
| `Readiness.NameOrder` | src/readiness.rs:76 | the names of the fourteen reasons are ordered from BranchOutOfDate to UnresolvedAutomationFeedback |
| `MergeDecision.OrderDoesNotMatter` | src/reconcile.rs:21-284 | with unique ids, reading the same things in any order gives the same result |
| `MergeDecision.ShufflingDoesNotMatter` | src/reconcile.rs:21-284 | in particular, shuffling reviews, comments, statuses and check runs changes nothing |
| `MergeDecision.OneLatest` | src/reconcile.rs:211-228 | a user has one latest deciding review |
| `MergeDecision.OneCheck` | src/reconcile.rs:239-274 | a name has one check record |
| `MergeDecision.OneRecord` | src/reconcile.rs:106-164 | two feedback records never share an id |
| `MergeDecision.ApproversAreCurrent` | src/reconcile.rs:195-228 | the counted users are those whose last deciding review approves the head, and an approval is stale exactly when somebody's last word approves another commit |
| `MergeDecision.ChecksDecide` | src/readiness.rs:29-48 | a reason of the required checks is given exactly when, for some needed name, the last run or without runs the last status gives it; never the missing one |
| `MergeDecision.FeedbackDecides` | src/readiness.rs:70-74 | automation feedback stands against merging exactly when a configured actor said something that is neither settled nor done |
| `MergeRules.StatusPasses` | src/reconcile.rs:286-293 | a needed name without a run passes exactly when nothing asks for an application and the status of the greatest id has state success |
| `MergeRules.RunPasses` | src/readiness.rs:38-46 | a needed name with a run passes exactly when the run of the greatest id is the application's, completed, and its conclusion success or skipped |
| `MergeRules.NothingStands` | src/readiness.rs:5-84 | a pull request is ready exactly when none of the fourteen reasons stands against it |
| `MergeRules.LastWordIs` | src/reconcile.rs:211-228 | the latest deciding review is the last by time and then id among APPROVED, CHANGES_REQUESTED and DISMISSED |
| `MergeRules.FirstAppIdIs` | src/reconcile.rs:276-284 | the application asked for is that of the first requirement of the name |
| `MergeDecision.SnapshotJudged` | src/readiness.rs:38-46 | what a snapshot has against merging is what the last run or status gives |
| `MergeDecision.AppliesWhatStands` | src/readiness.rs:5-84 | after reconciling and marking, each reason applies exactly when it stands against what was read |
| `ReconciledFacts.ReconciledChecks` | src/reconcile.rs:239-293 | the stored check records are exactly those of the last run of each name or, without one, of the last status, every field and state as read |
| `ReconciledFacts.ReconciledFeedback` | src/reconcile.rs:106-174 | the stored feedback is exactly one record for each review or comment that says something, every field as read |
| `ReconciledFacts.ReconciledSnapshots` | src/reconcile.rs:25-53 | the snapshots are exactly those of the stored records and of needed names nobody reported, with status, conclusion and application as read |
| `ReconciledFacts.ReconciledFields` | src/reconcile.rs:67-101 | every other field of the input, from the approvals and the protection of the branch |
| `ReconciledFacts.ReconciledUnresolved` | src/reconcile.rs:54-66 | the feedback to be looked at is exactly the stored feedback that is not resolved |
| `ReconciledFacts.ReconciledOrder` | src/reconcile.rs:21-104 | all four lists are ordered by name or id, without repetition |
| `MergeDecision.MarkFirst` | src/worker.rs:443-450 | the first snapshot of an id is marked resolved, and it is the only one |
| `MergeDecision.MarkResolved` | src/worker.rs:436-452 | exactly the feedback known to be resolved is marked, in the records and in the input |
| `MergeDecision.Decide` | src/worker.rs:432-485 | with unique ids the codes are exactly the reasons that stand against what was read, in the order of their names; ready exactly when draft, mergeability, base, checks, reviews, code owners and automation feedback allow it |
| `Nats.NatsParser.Push` | workers/pi/src/nats-worker.ts:79-82 | a chunk: the actions and the buffer of draining the old buffer with the chunk |
| `Nats.NatsParser.Drain` | workers/pi/src/nats-worker.ts:84-113 | the drain loop ends with the actions and the buffer of the specification |
| `Nats.NatsParser.TakeStep` | workers/pi/src/nats-worker.ts:85-112 | one turn of the loop |
| `Nats.NatsParser.ConsumeMessage` | workers/pi/src/nats-worker.ts:115-138 | one message: taken whole, waited for, or refused for its size |
| `NatsStreams.DrainInTwo` | workers/pi/src/nats-worker.ts:79-138 | draining, then draining with more, is draining it all, unless the front is refused |
| `NatsStreams.ChunkingDoesNotMatter` | workers/pi/src/nats-worker.ts:79-138 | for every split into chunks: the same actions and the same buffer up to the first invalid size, and only refusals after it |
| `NatsStreams.StuckStays` | workers/pi/src/nats-worker.ts:120-123 | behind an invalid size nothing is ever consumed |
| `NatsStreams.FramesDecode` | workers/pi/src/nats-worker.ts:84-138 | well-formed frames, written with the literal words of the protocol and with payloads of any bytes, decode to exactly their actions |
| `NatsStreams.FramesDecodeInChunks` | workers/pi/src/nats-worker.ts:79-138 | and do so however they arrive |
| `NatsStreams.PushAll` | workers/pi/src/nats-worker.ts:79-82 | the parser object pushed chunk by chunk does what the specification says |
| `Redaction.RedactTokenMarker` | src/ci.rs:105-117 | the in-place loop ends with the specified text |
| `Redaction.WithoutMarkerHasNone` | src/ci.rs:105-117 | the marker is gone, and no absent marker appears |
| `Redaction.WithoutMarkerSame` | src/ci.rs:105-117 | text without the marker is left alone |
| `Redaction.WordsAreRedactedApart` | src/ci.rs:109-113 | a redaction ends at white space: what stands on one side has no effect on the other |
| `Redaction.WithoutMarkersHasNone` | src/ci.rs:45-58 | after the ten passes none of the ten markers is left |
| `Redaction.SecretHasSeparator` | src/ci.rs:59-70 | a line that names a secret has a separator, so the cut never falls back to the length |
| `Redaction.RedactedLineHasNoMarker` | src/ci.rs:44-73 | no line keeps a marker, cut or not |
| `CiEvidence.RedactLine` | src/ci.rs:44-73 | the ten passes and the cut of one line |
| `CiEvidence.RedactCiText` | src/ci.rs:33-76 | the line loop: each line is redacted, or replaced when it belongs to a private key block |
| `CiEvidence.BlockIsReplaced` | src/ci.rs:37-43 | every line from a block's begin through its end is replaced, and the line behind it only if it begins another |
| `CiEvidence.UnclosedBlockHidesTheRest` | src/ci.rs:37-43 | an unclosed block hides everything behind it |
| `CiEvidence.CleanLineIsKept` | src/ci.rs:44-73 | a clean line outside blocks passes unchanged |
| `CiEvidence.RedactedTextHasNoMarker` | src/ci.rs:33-76 | for every input, none of the ten markers is in the output |
| `CiEvidence.OutputLines` | src/ci.rs:33-76 | each input line has its own output line, in order; empty text stays empty |
| `CiEvidence.TruncateUtf8` | src/ci.rs:94-103 | the longest prefix of whole characters within the limit |
| `CiEvidence.TruncationIsTight` | src/ci.rs:98-102 | there is one such prefix, and it is the whole text or within three bytes of the limit |
| `CiEvidence.TruncationKeepsMarkerFree` | src/ci.rs:94-103 | cutting brings no marker back |
| `CiEvidence.PrepareCiEvidence` | src/ci.rs:79-92 | what is sent is free of markers and at most 49152 bytes |
| `KeyBlocks.LinesMean` | src/ci.rs:36 | lines end at a line feed, a carriage return before it goes with it, and an empty last line does not count |
| `KeyBlocks.KeyIsHidden` | src/ci.rs:37-43 | from any line that holds "-----begin " in any case through the first that holds "-----end " in any case, every line comes out as "[REDACTED]" |
| `KeyBlocks.OutsideKeys` | src/ci.rs:36-74 | a line outside every such stretch is only redacted by itself |
| `KeyBlocks.ThreeLineKey` | src/ci.rs:33-76 | an input: a private key of three lines, in large letters, comes out as three redacted lines |
| `KeyBlocks.NoTokenIsLeft` | src/ci.rs:45-58 | for every input, none of the ten literal token prefixes is in the output |
| `KeyBlocks.PlainLineIsKept` | src/ci.rs:44-73 | a line with none of the ten prefixes and none of the five secret names is kept |
| `KeyBlocks.SecretIsCut` | src/ci.rs:59-71 | a line that names one of the five secrets in any case is cut behind its first equals sign or colon |
| `KeyBlocks.TokenIsReplaced` | src/ci.rs:105-117 | the first token of a line goes from its first letter to the end of its word, and what stands around it stays |
| `KeyBlocks.ByteLengthMeans` | src/ci.rs:94-103 | the length of a text in UTF-8 |
| `Secrecy.LineIsRedactedWordByWord` | src/ci.rs:45-58 | through all ten passes white space keeps redactions apart |
| `Secrecy.MarkersClash` | src/ci.rs:45-56 | two different markers never overlap, however they are laid over each other |
| `Secrecy.TailOfWord` | src/ci.rs:105-117 | through all passes the rest of a word behind a marker has no effect |
| `Secrecy.TokenDoesNotShow` | src/ci.rs:44-73 | two lines that differ only in the rest of a word behind a marker come out the same |
| `Secrecy.SecretDoesNotShow` | src/ci.rs:44-73 | behind the name of a secret nothing of the line is left, whatever it was; earlier words may hold tokens, which are redacted first |
| `Secrecy.BlockDoesNotShow` | src/ci.rs:36-43 | inside a private key block lines may hold anything: the output is the same |
| `Secrecy.LineDoesNotShow` | src/ci.rs:36-74 | lines that come out the same may be exchanged anywhere in a text |

## Left out

- GitHub HTTP clients, tokens, pagination, Postgres itself, NATS wakeups, real git and sandboxed processes: a call is a parameter, an atomic step or an environment answer.
- At-most-once success per head: `enqueue` looks for a succeeded job and inserts in separate statements, so `Queue.JobTable` has two methods and nothing is claimed of the pair.
- Queue.JobTable.FindSucceeded: a stored `head_sha` that is no string is compared by its text form in the SQL; the model compares only strings.
- Plans that are not JSON objects: `jsonb_set` fails on them, and the model changes nothing.
- FeedbackRuns.EveryRunSkipsInOrder: takes it that each start records what the present plan of the row displays; `SkipOrder.InOrderExactlyWhen` has the exact condition.
- Secrecy.SecretDoesNotShow: the last word in front holds no marker and ends in a separator or white space; a marker there takes the rest of its word with it, the name of a secret included.
- Identifiers are integers and times are integer seconds; uniqueness and a clock that never goes back are hypotheses of `QueueRuns.Possible`.
- SHA-256 and JSON serialisation: an abstract hash of the value, injective where a theorem says so.
- StackExecutor.Session.RebaseOne: the commit id read just before is the lease of the push; commit ids are not modelled.
- StackRebase.Rebase: commit ids are not modelled; cloning, rebasing, validating and pushing one branch is a single answer of the environment.
- `RebasePlanner` and push authorisation (src/stack.rs:297-357): single-branch predicates.
- PatchParser.ParseUnifiedPatch: the messages of the malformed-patch error are one error, and paths are judged as on Unix.
- The review fences, symlink checks and reply texts of src/feedback.rs: filesystem and text formatting.
- InlineSuggestion.ApplyInlineSuggestion: the start line is at least 1, as the reader of review comments guarantees.
- Nats.NatsParser.Push: JavaScript's `Number` is a parameter that reads a size field; a buffer is a string of one character a byte.
- Nats.NatsParser.ConsumeMessage: the reply published when the runtime answers is not modelled; replies are asynchronous and only the hand-over is ordered.
- ControlDelivery.ControlDesk.Process: audit entries are left out, and the text of a policy is the maintainers it names, or none when it cannot be read.
- Controls.New: the character rules of ids and summaries are left out, and the summary is carried along.
- MergeDecision.Decide: which feedback the repository confirms as resolved (src/worker.rs:437-440) is a parameter.
- Reconcile.LatestReviews: `latest_review_decisions` is the same map with only the state, and is not repeated.
- CiEvidence.PrepareCiEvidence: building and printing the evidence envelope is left out; the argument is the printed text.
- Idempotence of the redaction: line ends are normalised on each pass, so it does not hold and is not claimed.
