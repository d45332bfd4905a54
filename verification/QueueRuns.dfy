/** Whole runs of the job table, under any interleaving. */
module QueueRuns {
  import opened Basics
  import opened Json
  import Controls
  import opened Queue

  datatype Grant = Grant(job: int, worker: string, token: int)

  /**
   * The table, the clock, the recorded control deliveries, those recorded as accepted whose effect is
   * still to come, and the history of lease grants and of skips that took effect.
   */
  datatype World = World(
    jobs: Jobs, now: int,
    controls: map<(int, string), (Controls.Action, bool)>, pending: set<(int, string)>,
    grants: seq<Grant>, skips: seq<int>)

  datatype Op =
    | Tick(seconds: nat)
    | Insert(repository: int, pullRequest: int, kind: string, plan: Json, id: int)
    | LeaseNext(worker: string, token: int, locked: set<int>, leased: Option<int>)
    | Renew(job: int, worker: string, token: int)
    | Wait(job: int, worker: string, token: int, details: Json)
    | Finish(job: int, worker: string, token: int, success: bool, result: Json)
    | Cancel(job: int)
    | CancelJobsOf(repositories: set<int>)
    | Link(job: int, item: Option<string>)
    | Record(job: int, request: string, action: Controls.Action, accepted: bool)
    | Apply(job: int, request: string)

  /** What the environment guarantees: fresh ids and tokens, the row the query picks, a recorded control. */
  ghost predicate Possible(w: World, op: Op) {
    match op
    case Insert(_, _, _, _, id) => id !in w.jobs
    case LeaseNext(_, token, locked, leased) =>
      && (forall g | g in w.grants :: g.token != token)
      && (if leased.Some? then IsNext(ExpireExhausted(w.jobs, w.now), leased.value, w.now, locked)
          else NoneLeaseable(ExpireExhausted(w.jobs, w.now), w.now, locked))
    case Apply(job, request) => (job, request) in w.pending
    case _ => true
  }

  ghost predicate Taken(jobs: Jobs, repository: int, pullRequest: int, kind: string) {
    exists id :: id in jobs && HasIdentity(jobs[id], repository, pullRequest, kind)
  }

  ghost predicate HolderMay(jobs: Jobs, job: int, worker: string, token: int, now: int) {
    job in jobs && Holds(jobs[job], worker, token, now)
  }

  /** The effect of a control on the table. */
  ghost function Controlled(jobs: Jobs, job: int, action: Controls.Action): Jobs {
    if job !in jobs then jobs
    else match action
      case ApprovePlan => if Approvable(jobs[job]) then jobs[job := ApprovedRow(jobs[job])] else jobs
      case SkipCurrentItem => if Skippable(jobs[job]) then jobs[job := SkippedRow(jobs[job])] else jobs
      case CancelRun => if jobs[job].Active() then jobs[job := CancelledRow(jobs[job])] else jobs
  }

  /** The table after one statement. */
  ghost function TableAfter(w: World, op: Op): Jobs {
    match op
    case Tick(_) => w.jobs
    case Insert(repository, pullRequest, kind, plan, id) =>
      if Taken(w.jobs, repository, pullRequest, kind) then w.jobs
      else w.jobs[id := NewJob(repository, pullRequest, kind, plan, w.now)]
    case LeaseNext(worker, token, _, leased) =>
      var expired := ExpireExhausted(w.jobs, w.now);
      if leased.Some? && leased.value in expired
      then expired[leased.value := LeasedRow(expired[leased.value], worker, token, w.now)] else expired
    case Renew(job, worker, token) =>
      if HolderMay(w.jobs, job, worker, token, w.now)
      then w.jobs[job := w.jobs[job].(leaseUntil := Some(w.now + LEASE_SECONDS))] else w.jobs
    case Wait(job, worker, token, details) =>
      if HolderMay(w.jobs, job, worker, token, w.now) then w.jobs[job := WaitingRow(w.jobs[job], details)] else w.jobs
    case Finish(job, worker, token, success, result) =>
      if HolderMay(w.jobs, job, worker, token, w.now)
      then w.jobs[job := FinishedRow(w.jobs[job], success, result)] else w.jobs
    case Cancel(job) => Controlled(w.jobs, job, Controls.CancelRun)
    case CancelJobsOf(repositories) => CancelRepositories(w.jobs, repositories)
    case Link(job, item) => if job in w.jobs then w.jobs[job := w.jobs[job].(currentItem := item)] else w.jobs
    case Record(_, _, _, _) => w.jobs
    case Apply(job, request) =>
      if (job, request) in w.controls then Controlled(w.jobs, job, w.controls[(job, request)].0) else w.jobs
  }

  ghost predicate SkipFires(w: World, op: Op) {
    && op.Apply? && (op.job, op.request) in w.controls && w.controls[(op.job, op.request)].0 == Controls.SkipCurrentItem
    && op.job in w.jobs && Skippable(w.jobs[op.job])
  }

  ghost function Next(w: World, op: Op): World {
    var after := w.(jobs := TableAfter(w, op));
    match op
    case Tick(seconds) => after.(now := w.now + seconds)
    case LeaseNext(worker, token, _, leased) =>
      if leased.Some? then after.(grants := w.grants + [Grant(leased.value, worker, token)]) else after
    case Record(job, request, action, accepted) =>
      // one row per job and delivery; only the first one counts, and only an accepted one acts
      if (job, request) in w.controls then after
      else after.(controls := w.controls[(job, request) := (action, accepted)],
                  pending := w.pending + if accepted then {(job, request)} else {})
    case Apply(job, request) =>
      after.(pending := w.pending - {(job, request)}, skips := w.skips + if SkipFires(w, op) then [job] else [])
    case _ => after
  }

  ghost predicate AllPossible(w: World, ops: seq<Op>)
    decreases |ops|
  {
    ops == [] || (Possible(w, ops[0]) && AllPossible(Next(w, ops[0]), ops[1..]))
  }

  ghost function After(w: World, ops: seq<Op>): World
    decreases |ops|
  {
    if ops == [] then w else After(Next(w, ops[0]), ops[1..])
  }

  // The table invariant.

  ghost predicate RowSound(j: Job) {
    && 0 <= j.attempt <= j.maxAttempts && j.maxAttempts > 0
    && (j.state != Running ==> j.leaseOwner.None? && j.leaseUntil.None? && j.leaseToken.None?)
    && (j.state in {Queued, Running, WaitingApproval} ==> !j.cancelRequested)
  }

  ghost predicate Rival(a: Job, b: Job) {
    && a.state in {Queued, Running, WaitingApproval} && b.state in {Queued, Running, WaitingApproval}
    && a.repository == b.repository && a.pullRequest == b.pullRequest && a.kind == b.kind
  }

  ghost predicate QueueSound(jobs: Jobs) {
    && (forall id | id in jobs :: RowSound(jobs[id]))
    && (forall a, b | a in jobs && b in jobs && Rival(jobs[a], jobs[b]) :: a == b)
  }

  /** A row may change as long as it stays sound, keeps its identity and is not brought back to life. */
  ghost predicate RowStep(old_: Job, new_: Job) {
    RowSound(new_) && SameIdentity(old_, new_) && (new_.Active() ==> old_.Active())
  }

  lemma RowStepsSound(before: Jobs, after: Jobs)
    requires QueueSound(before) && after.Keys == before.Keys
    requires forall id | id in after :: RowStep(before[id], after[id])
    ensures QueueSound(after)
  {
    forall a, b | a in after && b in after && Rival(after[a], after[b])
      ensures a == b
    {
      assert RowStep(before[a], after[a]) && RowStep(before[b], after[b]);
      assert Rival(before[a], before[b]);
    }
    forall id | id in after
      ensures RowSound(after[id])
    {
      assert RowStep(before[id], after[id]);
    }
  }

  lemma InsertSound(jobs: Jobs, id: int, j: Job)
    requires QueueSound(jobs) && id !in jobs && RowSound(j)
    requires !Taken(jobs, j.repository, j.pullRequest, j.kind)
    ensures QueueSound(jobs[id := j])
  {
    forall other | other in jobs
      ensures !Rival(j, jobs[other]) && !Rival(jobs[other], j)
    {
      assert !HasIdentity(jobs[other], j.repository, j.pullRequest, j.kind);
    }
  }

  lemma StepRows(w: World, op: Op)
    requires QueueSound(w.jobs) && Possible(w, op) && !op.Insert?
    ensures TableAfter(w, op).Keys == w.jobs.Keys
    ensures forall id | id in w.jobs :: RowStep(w.jobs[id], TableAfter(w, op)[id])
  {
    forall id | id in w.jobs
      ensures id in TableAfter(w, op) && RowStep(w.jobs[id], TableAfter(w, op)[id])
    {
      assert RowSound(w.jobs[id]);
      StepRow(w, op, id);
    }
    StepKeys(w, op);
  }

  lemma StepKeys(w: World, op: Op)
    requires !op.Insert?
    ensures TableAfter(w, op).Keys == w.jobs.Keys
  {
  }

  lemma StepRow(w: World, op: Op, id: int)
    requires Possible(w, op) && !op.Insert? && id in w.jobs && RowSound(w.jobs[id])
    ensures id in TableAfter(w, op) && RowStep(w.jobs[id], TableAfter(w, op)[id])
  {
    hide RowSound, RowStep, Leaseable, Exhausted, Skippable, Approvable, Holds, CancelledRow, SkippedRow, ApprovedRow, ExhaustedRow,
         LeasedRow, WaitingRow, FinishedRow;
    var j := w.jobs[id];
    UnfencedRows(j, w.now);
    match op {
      case Renew(_, worker, token) => HeldRows(j, worker, token, w.now, Null);
      case Wait(_, worker, token, details) => HeldRows(j, worker, token, w.now, details);
      case Finish(_, worker, token, _, result) => HeldRows(j, worker, token, w.now, result);
      case LeaseNext(worker, token, _, _) => LeasedRows(j, worker, token, w.now);
      case Link(_, item) => LinkedRow(j, item);
      case _ =>
    }
  }

  lemma UnfencedRows(j: Job, now: int)
    requires RowSound(j)
    ensures RowStep(j, j)
    ensures j.Active() ==> RowStep(j, CancelledRow(j))
    ensures Skippable(j) ==> RowStep(j, SkippedRow(j))
    ensures Approvable(j) ==> RowStep(j, ApprovedRow(j))
    ensures Exhausted(j, now) ==> RowStep(j, ExhaustedRow(j)) && !Leaseable(ExhaustedRow(j), now)
  {
    hide SkippedItems, ApprovedPlan;
  }

  lemma HeldRows(j: Job, worker: string, token: int, now: int, json: Json)
    requires RowSound(j)
    ensures Holds(j, worker, token, now) ==>
              && RowStep(j, j.(leaseUntil := Some(now + LEASE_SECONDS))) && RowStep(j, WaitingRow(j, json))
              && RowStep(j, FinishedRow(j, true, json)) && RowStep(j, FinishedRow(j, false, json))
  {
  }

  lemma LeasedRows(j: Job, worker: string, token: int, now: int)
    requires RowSound(j)
    ensures Leaseable(j, now) ==> RowStep(j, LeasedRow(j, worker, token, now))
  {
  }

  lemma LinkedRow(j: Job, item: Option<string>)
    requires RowSound(j)
    ensures RowStep(j, j.(currentItem := item))
  {
  }

  /** Every statement of every writer keeps the table sound. */
  lemma StepSound(w: World, op: Op)
    requires QueueSound(w.jobs) && Possible(w, op)
    ensures QueueSound(Next(w, op).jobs)
  {
    if op.Insert? {
      if !Taken(w.jobs, op.repository, op.pullRequest, op.kind) {
        InsertSound(w.jobs, op.id, NewJob(op.repository, op.pullRequest, op.kind, op.plan, w.now));
      }
    } else {
      StepRows(w, op);
      RowStepsSound(w.jobs, TableAfter(w, op));
    }
  }

  lemma {:induction false} RunSound(w: World, ops: seq<Op>)
    requires QueueSound(w.jobs) && AllPossible(w, ops)
    ensures QueueSound(After(w, ops).jobs)
    decreases |ops|
  {
    if ops != [] {
      StepSound(w, ops[0]);
      RunSound(Next(w, ops[0]), ops[1..]);
    }
  }

  // Terminal jobs stay as they are.

  ghost predicate SameOutcome(a: Job, b: Job) {
    a.state == b.state && a.plan == b.plan && a.result == b.result && a.attempt == b.attempt
  }

  lemma StepKeepsTerminal(w: World, op: Op, id: int)
    requires Possible(w, op) && id in w.jobs && !w.jobs[id].Active()
    ensures id in Next(w, op).jobs && SameOutcome(w.jobs[id], Next(w, op).jobs[id])
  {
  }

  /** Once terminal, a job's state, plan, result and attempt never change again. */
  lemma {:induction false} RunKeepsTerminal(w: World, ops: seq<Op>, id: int)
    requires AllPossible(w, ops) && id in w.jobs && !w.jobs[id].Active()
    ensures id in After(w, ops).jobs && SameOutcome(w.jobs[id], After(w, ops).jobs[id])
    decreases |ops|
  {
    if ops != [] {
      StepKeepsTerminal(w, ops[0], id);
      RunKeepsTerminal(Next(w, ops[0]), ops[1..], id);
    }
  }

  // Leases.

  ghost predicate Held(w: World, g: Grant) {
    g.job in w.jobs && Holds(w.jobs[g.job], g.worker, g.token, w.now)
  }

  /** Every lease in the table was granted, under the owner it names, and no token was granted twice. */
  ghost predicate LeasesGranted(w: World) {
    && (forall id | id in w.jobs && w.jobs[id].leaseToken.Some? ::
          w.jobs[id].leaseOwner.Some?
          && Grant(id, w.jobs[id].leaseOwner.value, w.jobs[id].leaseToken.value) in w.grants)
    && (forall i, j | 0 <= i < j < |w.grants| :: w.grants[i].token != w.grants[j].token)
  }

  lemma StepLeases(w: World, op: Op)
    requires LeasesGranted(w) && Possible(w, op)
    ensures LeasesGranted(Next(w, op))
    ensures forall g | g in w.grants :: g in Next(w, op).grants
  {
    var after := Next(w, op);
    assert forall i | 0 <= i < |w.grants| :: w.grants[i] in w.grants;
    forall id | id in after.jobs && after.jobs[id].leaseToken.Some?
      ensures after.jobs[id].leaseOwner.Some?
      ensures Grant(id, after.jobs[id].leaseOwner.value, after.jobs[id].leaseToken.value) in after.grants
    {
      if op.LeaseNext? && op.leased == Some(id) {
        assert after.grants[|w.grants|] == Grant(id, op.worker, op.token);
      } else {
        assert id in w.jobs && w.jobs[id].leaseToken == after.jobs[id].leaseToken;
        assert w.jobs[id].leaseOwner == after.jobs[id].leaseOwner;
      }
    }
  }

  lemma StepKeepsLost(w: World, op: Op, g: Grant)
    requires Possible(w, op) && g in w.grants && !Held(w, g)
    ensures !Held(Next(w, op), g)
  {
  }

  /** A lease once lost is lost in every later state of every run. */
  lemma {:induction false} LeaseLossIsPermanent(w: World, ops: seq<Op>, g: Grant)
    requires LeasesGranted(w) && AllPossible(w, ops) && g in w.grants && !Held(w, g)
    ensures g in After(w, ops).grants && !Held(After(w, ops), g)
    decreases |ops|
  {
    if ops != [] {
      StepLeases(w, ops[0]);
      StepKeepsLost(w, ops[0], g);
      LeaseLossIsPermanent(Next(w, ops[0]), ops[1..], g);
    }
  }

  ghost predicate IsHolderOp(op: Op, g: Grant) {
    (op.Renew? || op.Wait? || op.Finish?) && op.job == g.job && op.worker == g.worker && op.token == g.token
  }

  /** From then on that holder's renewals, parkings, successes and failures change nothing, for ever. */
  lemma LostHolderIsFenced(w: World, ops: seq<Op>, g: Grant, op: Op)
    requires LeasesGranted(w) && AllPossible(w, ops) && g in w.grants && !Held(w, g)
    requires IsHolderOp(op, g)
    ensures Next(After(w, ops), op) == After(w, ops)
  {
    LeaseLossIsPermanent(w, ops, g);
  }

  /** A job is granted only when every earlier grant of it has been lost. */
  lemma GrantOnlyAfterLoss(w: World, op: Op, g: Grant)
    requires Possible(w, op) && op.LeaseNext? && op.leased == Some(g.job)
    ensures !Held(w, g)
  {
    var expired := ExpireExhausted(w.jobs, w.now);
    assert Leaseable(expired[g.job], w.now);
  }

  /** Two grants of one job are never valid together: a new one finds the old one lost, and it stays lost. */
  lemma SupersededForEver(w: World, op: Op, ops: seq<Op>, g: Grant)
    requires LeasesGranted(w) && g in w.grants && Possible(w, op) && op.LeaseNext? && op.leased == Some(g.job)
    requires AllPossible(Next(w, op), ops)
    ensures !Held(w, g) && !Held(After(Next(w, op), ops), g)
  {
    GrantOnlyAfterLoss(w, op, g);
    StepLeases(w, op);
    StepKeepsLost(w, op, g);
    LeaseLossIsPermanent(Next(w, op), ops, g);
  }

  /** In any state, at most one of the grants ever made of a job is valid. */
  lemma OneHolder(w: World, g: Grant, h: Grant)
    requires LeasesGranted(w) && g in w.grants && h in w.grants && g.job == h.job && Held(w, g) && Held(w, h)
    ensures g == h
  {
  }

  // Attempts.

  ghost function GrantsOf(grants: seq<Grant>, id: int): nat {
    if grants == [] then 0
    else GrantsOf(grants[..|grants| - 1], id) + if grants[|grants| - 1].job == id then 1 else 0
  }

  ghost function SkipsOf(skips: seq<int>, id: int): nat {
    if skips == [] then 0
    else SkipsOf(skips[..|skips| - 1], id) + if skips[|skips| - 1] == id then 1 else 0
  }

  /** The distinct deliveries recorded as an accepted skip of this job. */
  ghost function AcceptedSkips(w: World, id: int): set<(int, string)> {
    set k | k in w.controls && k.0 == id && w.controls[k] == (Controls.SkipCurrentItem, true)
  }

  /** Attempts are grants less skips; a job that is or waits to be worked on has at least one. */
  ghost predicate AttemptCounted(w: World, id: int) {
    if id in w.jobs then
      && w.jobs[id].attempt == GrantsOf(w.grants, id) - SkipsOf(w.skips, id) >= 0
      && (w.jobs[id].state in {Running, WaitingApproval} ==> w.jobs[id].attempt >= 1)
    else GrantsOf(w.grants, id) == 0 && SkipsOf(w.skips, id) == 0
  }

  /** Skips that took effect are accounted for by accepted skip deliveries already spent. */
  ghost predicate SkipsCovered(w: World, id: int) {
    SkipsOf(w.skips, id) <= |AcceptedSkips(w, id) - w.pending|
  }

  ghost predicate PendingAccepted(w: World) {
    forall k | k in w.pending :: k in w.controls && w.controls[k].1
  }

  ghost predicate AttemptsCounted(w: World) {
    PendingAccepted(w) && forall id :: AttemptCounted(w, id) && SkipsCovered(w, id)
  }

  lemma CountsGrow(w: World, op: Op, id: int)
    ensures GrantsOf(Next(w, op).grants, id)
            == GrantsOf(w.grants, id) + if op.LeaseNext? && op.leased == Some(id) then 1 else 0
    ensures SkipsOf(Next(w, op).skips, id)
            == SkipsOf(w.skips, id) + if SkipFires(w, op) && op.job == id then 1 else 0
  {
    hide TableAfter;
    var after := Next(w, op);
    if op.LeaseNext? && op.leased.Some? {
      assert after.grants[..|after.grants| - 1] == w.grants;
    }
    if SkipFires(w, op) {
      assert after.skips[..|after.skips| - 1] == w.skips;
    } else {
      assert after.skips == w.skips;
    }
  }

  lemma StepPending(w: World, op: Op)
    requires PendingAccepted(w)
    ensures PendingAccepted(Next(w, op))
  {
    hide TableAfter;
  }

  /** A skip that takes effect spends one accepted delivery; nothing un-spends one. */
  lemma StepDeliveries(w: World, op: Op, id: int)
    requires Possible(w, op) && PendingAccepted(w)
    ensures |AcceptedSkips(w, id) - w.pending| + (if SkipFires(w, op) && op.job == id then 1 else 0)
            <= |AcceptedSkips(Next(w, op), id) - Next(w, op).pending|
  {
    hide AcceptedSkips, Next, Possible, PendingAccepted, TableAfter;
    var after := Next(w, op);
    var before, later := AcceptedSkips(w, id) - w.pending, AcceptedSkips(after, id) - after.pending;
    SpentStaySpent(w, op, id);
    if SkipFires(w, op) && op.job == id {
      var key := FiringSpends(w, op);
      SubsetCount(before + {key}, later);
    } else {
      SubsetCount(before, later);
    }
  }

  lemma FiringSpends(w: World, op: Op) returns (key: (int, string))
    requires SkipFires(w, op) && Possible(w, op) && PendingAccepted(w)
    ensures key in AcceptedSkips(Next(w, op), op.job) - Next(w, op).pending
    ensures key !in AcceptedSkips(w, op.job) - w.pending
  {
    hide TableAfter;
    key := (op.job, op.request);
    assert key in w.pending;
  }

  lemma SpentStaySpent(w: World, op: Op, id: int)
    requires PendingAccepted(w)
    ensures AcceptedSkips(w, id) - w.pending <= AcceptedSkips(Next(w, op), id) - Next(w, op).pending
  {
    hide TableAfter;
  }

  lemma SubsetCount<T>(a: set<T>, b: set<T>)
    requires a <= b
    ensures |a| <= |b|
  {
    assert b == a + (b - a);
  }

  lemma StepAttempts(w: World, op: Op)
    requires AttemptsCounted(w) && Possible(w, op)
    ensures AttemptsCounted(Next(w, op))
  {
    StepPending(w, op);
    forall id
      ensures AttemptCounted(Next(w, op), id) && SkipsCovered(Next(w, op), id)
    {
      assert AttemptCounted(w, id) && SkipsCovered(w, id);
      StepCounts(w, op, id);
    }
  }

  lemma StepCounts(w: World, op: Op, id: int)
    requires AttemptCounted(w, id) && SkipsCovered(w, id) && PendingAccepted(w) && Possible(w, op)
    ensures AttemptCounted(Next(w, op), id) && SkipsCovered(Next(w, op), id)
  {
    hide Next, GrantsOf, SkipsOf, AcceptedSkips, SkipFires, Possible, PendingAccepted;
    CountsGrow(w, op, id);
    StepDeliveries(w, op, id);
    if id in Next(w, op).jobs {
      StepAttempt(w, op, id);
    } else {
      StepKeepsJobs(w, op, id);
    }
  }

  lemma StepKeepsJobs(w: World, op: Op, id: int)
    requires Possible(w, op) && id !in Next(w, op).jobs
    ensures id !in w.jobs && !(op.LeaseNext? && op.leased == Some(id)) && !(SkipFires(w, op) && op.job == id)
  {
  }

  /** How one statement moves the attempts of one job: up by a grant, down by a skip, and the clamp never bites. */
  lemma StepAttempt(w: World, op: Op, id: int)
    requires Possible(w, op) && id in Next(w, op).jobs
    requires id in w.jobs && w.jobs[id].state in {Running, WaitingApproval} ==> w.jobs[id].attempt >= 1
    requires id in w.jobs ==> w.jobs[id].attempt >= 0
    ensures Next(w, op).jobs[id].attempt
            == (if id in w.jobs then w.jobs[id].attempt else 0)
               + (if op.LeaseNext? && op.leased == Some(id) then 1 else 0)
               - (if SkipFires(w, op) && op.job == id then 1 else 0)
    ensures Next(w, op).jobs[id].state in {Running, WaitingApproval} ==> Next(w, op).jobs[id].attempt >= 1
    ensures Next(w, op).jobs[id].attempt >= 0
    ensures op.LeaseNext? && op.leased == Some(id) ==> id in w.jobs
    ensures SkipFires(w, op) && op.job == id ==> id in w.jobs
  {
  }

  /** The table before any job was enqueued. */
  ghost predicate Beginning(w: World) {
    w.jobs == map[] && w.controls == map[] && w.pending == {} && w.grants == [] && w.skips == []
  }

  lemma {:induction false} RunAttempts(w: World, ops: seq<Op>)
    requires QueueSound(w.jobs) && AttemptsCounted(w) && AllPossible(w, ops)
    ensures QueueSound(After(w, ops).jobs) && AttemptsCounted(After(w, ops))
    decreases |ops|
  {
    if ops != [] {
      StepSound(w, ops[0]);
      StepAttempts(w, ops[0]);
      RunAttempts(Next(w, ops[0]), ops[1..]);
    }
  }

  /** In every run, attempts are grants less skips, and grants are bounded by attempts allowed plus accepted skips. */
  lemma AttemptAccounting(w: World, ops: seq<Op>, id: int)
    requires Beginning(w) && AllPossible(w, ops) && id in After(w, ops).jobs
    ensures var end := After(w, ops);
            && end.jobs[id].attempt == GrantsOf(end.grants, id) - SkipsOf(end.skips, id)
            && GrantsOf(end.grants, id) <= end.jobs[id].maxAttempts + |AcceptedSkips(end, id)|
            && (Skippable(end.jobs[id]) ==> end.jobs[id].attempt - 1 >= 0)
  {
    assert QueueSound(w.jobs) && AttemptsCounted(w);
    RunAttempts(w, ops);
    var end := After(w, ops);
    assert AttemptCounted(end, id) && SkipsCovered(end, id) && RowSound(end.jobs[id]);
    hide After, AttemptsCounted, QueueSound, GrantsOf, SkipsOf, AcceptedSkips;
    SubsetCount(AcceptedSkips(end, id) - end.pending, AcceptedSkips(end, id));
  }

  /** A run from the beginning also has every lease granted. */
  lemma {:induction false} RunLeases(w: World, ops: seq<Op>)
    requires LeasesGranted(w) && AllPossible(w, ops)
    ensures LeasesGranted(After(w, ops))
    decreases |ops|
  {
    if ops != [] {
      StepLeases(w, ops[0]);
      RunLeases(Next(w, ops[0]), ops[1..]);
    }
  }
}
