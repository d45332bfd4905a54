/** The leased job table: every statement of src/queue.rs and of the other writers of `jobs`, one method for each. */
module Queue {
  import opened Basics
  import opened Ordering
  import opened Json

  datatype JobState = Queued | Running | WaitingApproval | Succeeded | Failed | Cancelled

  datatype Job = Job(
    repository: int, pullRequest: int, kind: string, state: JobState,
    currentItem: Option<string>, plan: Json, result: Option<Json>,
    attempt: int, maxAttempts: int,
    leaseOwner: Option<string>, leaseUntil: Option<int>, leaseToken: Option<int>,
    cancelRequested: bool, createdAt: int)
  {
    predicate Active() {
      state in {Queued, Running, WaitingApproval}
    }

    function Released(): Job {
      this.(leaseOwner := None, leaseUntil := None, leaseToken := None)
    }
  }

  type Jobs = map<int, Job>

  const LEASE_SECONDS := 300
  const DEFAULT_MAX_ATTEMPTS := 5

  // Row conditions.

  predicate SameIdentity(a: Job, b: Job) {
    a.repository == b.repository && a.pullRequest == b.pullRequest && a.kind == b.kind
  }

  /** The fence: this worker holds this lease token and it has not run out. */
  predicate Holds(j: Job, worker: string, token: int, now: int) {
    && j.state == Running && !j.cancelRequested
    && j.leaseOwner == Some(worker) && j.leaseToken == Some(token)
    && j.leaseUntil.Some? && j.leaseUntil.value > now
  }

  predicate LeaseOver(j: Job, now: int) {
    j.leaseUntil.None? || j.leaseUntil.value <= now
  }

  predicate Exhausted(j: Job, now: int) {
    && !j.cancelRequested && j.attempt >= j.maxAttempts
    && (j.state == Queued || (j.state == Running && LeaseOver(j, now)))
  }

  predicate Leaseable(j: Job, now: int) {
    && !j.cancelRequested && j.attempt < j.maxAttempts
    && (j.state == Queued || (j.state == Running && LeaseOver(j, now)))
  }

  predicate Skippable(j: Job) {
    && j.state in {Running, WaitingApproval} && !j.cancelRequested
    && j.currentItem.Some? && j.currentItem.value != "" && j.plan.Obj?
  }

  predicate Approvable(j: Job) {
    && j.state == WaitingApproval && !j.cancelRequested
    && Get(j.plan, "approval_details").Some? && Get(j.plan, "approval_details").value.Obj?
    && Text(Get(Get(j.plan, "approval_details").value, "plan_hash")).Some?
  }

  // Row changes.

  function CancelledRow(j: Job): Job {
    j.Released().(state := Cancelled, cancelRequested := true)
  }

  /** The skipped items with one more at the end; a plan without any starts a new list. */
  function SkippedItems(plan: Json, item: string): Json {
    var before := Get(plan, "skipped_items");
    Concat(if before.Some? then before.value else Arr([]), Arr([Str(item)]))
  }

  function SkippedRow(j: Job): Job
    requires Skippable(j)
  {
    j.Released().(
      state := Queued, currentItem := None, attempt := AtLeastZero(j.attempt - 1),
      plan := Obj(j.plan.fields["skipped_items" := SkippedItems(j.plan, j.currentItem.value)]))
  }

  function WaitingRow(j: Job, details: Json): Job {
    j.Released().(state := WaitingApproval, plan := Concat(j.plan, details), result := Some(Obj(map["state" := Str("waiting_approval")])))
  }

  /** What an approval writes into a plan. */
  function ApprovedPlan(plan: Json): Json
    requires Get(plan, "approval_details").Some? && Get(Get(plan, "approval_details").value, "plan_hash").Some?
  {
    Obj(plan.fields["approved" := Bool(true)]["approved_hash" := Get(Get(plan, "approval_details").value, "plan_hash").value])
  }

  function ApprovedRow(j: Job): Job
    requires Approvable(j)
  {
    j.(state := Queued, plan := ApprovedPlan(j.plan), result := None)
  }

  function ExhaustedRow(j: Job): Job {
    j.Released().(
      state := Failed,
      result := Some(Obj(map[
        "reason" := Str("max_attempts_exhausted"), "attempt" := Number(j.attempt), "max_attempts" := Number(j.maxAttempts)])))
  }

  function LeasedRow(j: Job, worker: string, token: int, now: int): Job {
    j.(state := Running, leaseOwner := Some(worker), leaseUntil := Some(now + LEASE_SECONDS), leaseToken := Some(token),
       attempt := j.attempt + 1)
  }

  function NewJob(repository: int, pullRequest: int, kind: string, plan: Json, now: int): Job {
    Job(repository, pullRequest, kind, Queued, None, plan, None, 0, DEFAULT_MAX_ATTEMPTS, None, None, None, false, now)
  }

  // Table changes.

  function ExpireExhausted(jobs: Jobs, now: int): Jobs {
    map id | id in jobs :: if Exhausted(jobs[id], now) then ExhaustedRow(jobs[id]) else jobs[id]
  }

  function CancelRepositories(jobs: Jobs, repositories: set<int>): Jobs {
    map id | id in jobs ::
      if jobs[id].repository in repositories && jobs[id].Active() then CancelledRow(jobs[id]) else jobs[id]
  }

  /** Created earlier, the id deciding ties. */
  predicate Precedes(jobs: Jobs, a: int, b: int)
    requires a in jobs && b in jobs
  {
    jobs[a].createdAt < jobs[b].createdAt || (jobs[a].createdAt == jobs[b].createdAt && a < b)
  }

  /** The oldest leaseable job no other transaction has locked. */
  ghost predicate IsNext(jobs: Jobs, id: int, now: int, locked: set<int>) {
    && id in jobs && id !in locked && Leaseable(jobs[id], now)
    && forall other | other in jobs && other != id && other !in locked && Leaseable(jobs[other], now) ::
         Precedes(jobs, id, other)
  }

  ghost predicate NoneLeaseable(jobs: Jobs, now: int, locked: set<int>) {
    forall id | id in jobs && id !in locked :: !Leaseable(jobs[id], now)
  }

  ghost predicate HasIdentity(j: Job, repository: int, pullRequest: int, kind: string) {
    j.state in {Queued, Running, WaitingApproval} && j.repository == repository && j.pullRequest == pullRequest && j.kind == kind
  }

  // The same conditions, said of the fields of a row.

  ghost predicate HeldBy(jobs: Jobs, id: int, worker: string, token: int, now: int) {
    && id in jobs && jobs[id].state == Running && !jobs[id].cancelRequested
    && jobs[id].leaseOwner == Some(worker) && jobs[id].leaseToken == Some(token)
    && jobs[id].leaseUntil.Some? && now < jobs[id].leaseUntil.value
  }

  /** Queued, or left by a worker whose lease has run out; not cancelled, and with an attempt left. */
  ghost predicate MayBeLeased(j: Job, now: int) {
    && !j.cancelRequested && j.attempt < j.maxAttempts
    && (j.state == Queued || (j.state == Running && (j.leaseUntil.None? || j.leaseUntil.value <= now)))
  }

  ghost predicate UsedUp(j: Job, now: int) {
    && !j.cancelRequested && j.maxAttempts <= j.attempt
    && (j.state == Queued || (j.state == Running && (j.leaseUntil.None? || j.leaseUntil.value <= now)))
  }

  ghost predicate Older(a: Job, i: int, b: Job, j: int) {
    a.createdAt < b.createdAt || (a.createdAt == b.createdAt && i < j)
  }

  ghost predicate IsOldest(jobs: Jobs, id: int, now: int, locked: set<int>) {
    && id in jobs && id !in locked && MayBeLeased(jobs[id], now)
    && forall other | other in jobs && other != id && other !in locked && MayBeLeased(jobs[other], now) ::
         Older(jobs[id], id, jobs[other], other)
  }

  /** Jobs without an attempt left have failed, for that reason; the rest is as it was. */
  ghost predicate IsExpired(before: Jobs, now: int, after: Jobs) {
    && after.Keys == before.Keys
    && forall id | id in before ::
         after[id] == if UsedUp(before[id], now) then
                        before[id].(
                          state := Failed, leaseOwner := None, leaseUntil := None, leaseToken := None,
                          result := Some(Obj(map[
                            "reason" := Str("max_attempts_exhausted"), "attempt" := Number(before[id].attempt),
                            "max_attempts" := Number(before[id].maxAttempts)])))
                      else before[id]
  }

  /** The plan's approval_details is an object with a fingerprint. */
  ghost predicate HasNestedHash(plan: Json) {
    && plan.Obj? && "approval_details" in plan.fields && plan.fields["approval_details"].Obj?
    && "plan_hash" in plan.fields["approval_details"].fields
    && plan.fields["approval_details"].fields["plan_hash"].Str?
  }

  ghost predicate IsApproval(a: Job, b: Job)
    requires HasNestedHash(a.plan)
  {
    b == a.(
      state := Queued, result := None,
      plan := Obj(a.plan.fields["approved" := Bool(true)]["approved_hash" := a.plan.fields["approval_details"].fields["plan_hash"]]))
  }

  /** Object details are merged into an object plan, and win; anything else is joined as lists. */
  ghost predicate IsParking(a: Job, details: Json, b: Job) {
    && b == a.(
         state := WaitingApproval, leaseOwner := None, leaseUntil := None, leaseToken := None,
         result := Some(Obj(map["state" := Str("waiting_approval")])), plan := b.plan)
    && b.plan == if a.plan.Obj? && details.Obj? then Obj(a.plan.fields + details.fields)
                 else Arr((if a.plan.Arr? then a.plan.items else [a.plan]) + if details.Arr? then details.items else [details])
  }

  ghost predicate IsSkip(a: Job, b: Job) {
    && a.currentItem.Some? && SkipWritten(a.plan, a.currentItem.value, b.plan)
    && b == a.(
         state := Queued, currentItem := None, leaseOwner := None, leaseUntil := None, leaseToken := None,
         attempt := if a.attempt > 0 then a.attempt - 1 else 0, plan := b.plan)
  }

  /** The item is the last of the skipped ones, behind those before it, and no other field is touched. */
  ghost predicate SkipWritten(before: Json, item: string, after: Json) {
    && before.Obj? && after.Obj? && "skipped_items" in after.fields
    && after.fields == before.fields["skipped_items" := after.fields["skipped_items"]]
    && ("skipped_items" !in before.fields ==> after.fields["skipped_items"] == Arr([Str(item)]))
    && ("skipped_items" in before.fields && before.fields["skipped_items"].Arr? ==>
          after.fields["skipped_items"] == Arr(before.fields["skipped_items"].items + [Str(item)]))
    && ("skipped_items" in before.fields && !before.fields["skipped_items"].Arr? ==>
          after.fields["skipped_items"] == Arr([before.fields["skipped_items"], Str(item)]))
  }

  /** This job succeeded for the head the plan names, and the kind is one that is not repeated on it. */
  ghost predicate DoneFor(jobs: Jobs, repository: int, pullRequest: int, kind: string, plan: Json, id: int) {
    && kind in {"ci_repair", "stack_rebase"} && id in jobs && jobs[id].state == Succeeded
    && jobs[id].repository == repository && jobs[id].pullRequest == pullRequest && jobs[id].kind == kind
    && SameHead(plan, jobs[id].plan)
  }

  ghost predicate SameHead(a: Json, b: Json) {
    && a.Obj? && b.Obj? && "head_sha" in a.fields && "head_sha" in b.fields
    && a.fields["head_sha"].Str? && a.fields["head_sha"] == b.fields["head_sha"]
  }

  ghost predicate LatestDone(jobs: Jobs, repository: int, pullRequest: int, kind: string, plan: Json, id: int) {
    && DoneFor(jobs, repository, pullRequest, kind, plan, id)
    && forall other | other != id && DoneFor(jobs, repository, pullRequest, kind, plan, other) ::
         Older(jobs[other], other, jobs[id], id)
  }

  /** The table as an object; `now` is the time of the statement being run. */
  class JobTable {
    var jobs: Jobs

    constructor (initial: Jobs)
      ensures jobs == initial
    {
      jobs := initial;
    }

    /** The already succeeded job for the same head, when the kind is repeatable only on a new head. */
    method FindSucceeded(repository: int, pullRequest: int, kind: string, plan: Json) returns (r: Option<int>)
      ensures r.Some? ==> LatestDone(jobs, repository, pullRequest, kind, plan, r.value)
      ensures r.None? ==> forall id :: !DoneFor(jobs, repository, pullRequest, kind, plan, id)
    {
      var head := Text(Get(plan, "head_sha"));
      if kind !in {"ci_repair", "stack_rebase"} || head.None? {
        return None;
      }
      var ids := AscendInts(jobs.Keys);
      r := None;
      for i := 0 to |ids|
        invariant r.Some? ==> r.value in jobs && SucceededFor(jobs[r.value], repository, pullRequest, kind, head.value)
        invariant forall id | id in Elements(ids[..i]) && id in jobs
                    && SucceededFor(jobs[id], repository, pullRequest, kind, head.value) ::
                    r.Some? && (id == r.value || Precedes(jobs, id, r.value))
      {
        AscendStep(ids, i);
        if SucceededFor(jobs[ids[i]], repository, pullRequest, kind, head.value)
           && (r.None? || Precedes(jobs, r.value, ids[i])) {
          r := Some(ids[i]);
        }
      }
      assert ids[..|ids|] == ids;
    }

    /** Insert, or meet the active job with the same identity. */
    method Insert(repository: int, pullRequest: int, kind: string, plan: Json, fresh_: int, now: int) returns (id: int)
      requires fresh_ !in jobs
      modifies this
      ensures id in jobs && HasIdentity(jobs[id], repository, pullRequest, kind)
      ensures id == fresh_ ==>
                && (forall other | other in old(jobs) :: !HasIdentity(old(jobs)[other], repository, pullRequest, kind))
                && jobs == old(jobs)[fresh_ :=
                     Job(repository, pullRequest, kind, Queued, None, plan, None, 0, 5, None, None, None, false, now)]
      ensures id != fresh_ ==> jobs == old(jobs)
    {
      var ids := AscendInts(jobs.Keys);
      for i := 0 to |ids|
        invariant jobs == old(jobs)
        invariant forall other | other in Elements(ids[..i]) ::
                    other in jobs && !HasIdentity(jobs[other], repository, pullRequest, kind)
      {
        AscendStep(ids, i);
        var j := jobs[ids[i]];
        if j.Active() && j.repository == repository && j.pullRequest == pullRequest && j.kind == kind {
          return ids[i];
        }
      }
      assert ids[..|ids|] == ids;
      jobs := jobs[fresh_ := NewJob(repository, pullRequest, kind, plan, now)];
      return fresh_;
    }

    method RequestCancel(id: int) returns (changed: bool)
      modifies this
      ensures changed <==> id in old(jobs) && old(jobs)[id].state in {Queued, Running, WaitingApproval}
      ensures jobs == if changed then
                        old(jobs)[id := old(jobs)[id].(
                          state := Cancelled, cancelRequested := true, leaseOwner := None, leaseUntil := None, leaseToken := None)]
                      else old(jobs)
    {
      changed := id in jobs && jobs[id].Active();
      if changed {
        jobs := jobs[id := CancelledRow(jobs[id])];
      }
    }

    method SkipCurrentItem(id: int) returns (changed: bool)
      modifies this
      ensures changed <==>
                && id in old(jobs) && old(jobs)[id].state in {Running, WaitingApproval} && !old(jobs)[id].cancelRequested
                && old(jobs)[id].currentItem !in {None, Some("")} && old(jobs)[id].plan.Obj?
      ensures changed ==> id in jobs && jobs == old(jobs)[id := jobs[id]] && IsSkip(old(jobs)[id], jobs[id])
      ensures !changed ==> jobs == old(jobs)
    {
      changed := id in jobs && Skippable(jobs[id]);
      if changed {
        jobs := jobs[id := SkippedRow(jobs[id])];
      }
    }

    method MarkWaitingApproval(id: int, worker: string, token: int, details: Json, now: int) returns (changed: bool)
      modifies this
      ensures changed <==> HeldBy(old(jobs), id, worker, token, now)
      ensures changed ==> id in jobs && jobs == old(jobs)[id := jobs[id]] && IsParking(old(jobs)[id], details, jobs[id])
      ensures !changed ==> jobs == old(jobs)
    {
      changed := id in jobs && Holds(jobs[id], worker, token, now);
      if changed {
        jobs := jobs[id := WaitingRow(jobs[id], details)];
      }
    }

    method ApprovePlan(id: int) returns (changed: bool)
      modifies this
      ensures changed <==>
                && id in old(jobs) && old(jobs)[id].state == WaitingApproval && !old(jobs)[id].cancelRequested
                && HasNestedHash(old(jobs)[id].plan)
      ensures changed ==> id in jobs && jobs == old(jobs)[id := jobs[id]] && IsApproval(old(jobs)[id], jobs[id])
      ensures !changed ==> jobs == old(jobs)
    {
      changed := id in jobs && Approvable(jobs[id]);
      if changed {
        jobs := jobs[id := ApprovedRow(jobs[id])];
      }
    }

    /** Fail what has no attempts left, then lease the oldest leaseable job not locked elsewhere. */
    method LeaseNext(worker: string, token: int, locked: set<int>, now: int) returns (leased: Option<int>)
      modifies this
      ensures IsExpired(old(jobs), now, if leased.Some? && leased.value in old(jobs) then jobs[leased.value := old(jobs)[leased.value]] else jobs)
      ensures leased.Some? ==>
                && IsOldest(old(jobs), leased.value, now, locked)
                && leased.value in jobs
                && jobs[leased.value] == old(jobs)[leased.value].(
                     state := Running, leaseOwner := Some(worker), leaseUntil := Some(now + 300), leaseToken := Some(token),
                     attempt := old(jobs)[leased.value].attempt + 1)
      ensures leased.None? ==> forall id | id in old(jobs) && id !in locked :: !MayBeLeased(old(jobs)[id], now)
      ensures var expired := ExpireExhausted(old(jobs), now);
              && (leased.Some? ==>
                    && IsNext(expired, leased.value, now, locked)
                    && jobs == expired[leased.value := LeasedRow(expired[leased.value], worker, token, now)])
              && (leased.None? ==> NoneLeaseable(expired, now, locked) && jobs == expired)
    {
      jobs := ExpireExhausted(jobs, now);
      leased := OldestLeaseable(jobs, now, locked);
      if leased.Some? {
        jobs := jobs[leased.value := LeasedRow(jobs[leased.value], worker, token, now)];
      }
    }

    method AssertLease(id: int, worker: string, token: int, now: int) returns (held: bool)
      ensures held <==> HeldBy(jobs, id, worker, token, now)
    {
      held := id in jobs && Holds(jobs[id], worker, token, now);
    }

    method RenewLease(id: int, worker: string, token: int, now: int) returns (changed: bool)
      modifies this
      ensures changed <==> HeldBy(old(jobs), id, worker, token, now)
      ensures jobs == if changed then old(jobs)[id := old(jobs)[id].(leaseUntil := Some(now + 300))] else old(jobs)
    {
      changed := id in jobs && Holds(jobs[id], worker, token, now);
      if changed {
        jobs := jobs[id := jobs[id].(leaseUntil := Some(now + LEASE_SECONDS))];
      }
    }

    /** mark_succeeded and mark_failed: the same fence, another terminal state. */
    method Finish(id: int, worker: string, token: int, success: bool, result: Json, now: int) returns (changed: bool)
      modifies this
      ensures changed <==> HeldBy(old(jobs), id, worker, token, now)
      ensures jobs == if changed then
                        old(jobs)[id := old(jobs)[id].(
                          state := if success then Succeeded else Failed, result := Some(result),
                          leaseOwner := None, leaseUntil := None, leaseToken := None)]
                      else old(jobs)
    {
      changed := id in jobs && Holds(jobs[id], worker, token, now);
      if changed {
        jobs := jobs[id := FinishedRow(jobs[id], success, result)];
      }
    }

    /** The work coordinator records which item is on display. */
    method LinkCheckRun(id: int, item: Option<string>)
      modifies this
      ensures jobs == if id in old(jobs) then old(jobs)[id := old(jobs)[id].(currentItem := item)] else old(jobs)
    {
      if id in jobs {
        jobs := jobs[id := jobs[id].(currentItem := item)];
      }
    }

    /** One repository, or all those of an installation. */
    method CancelJobsOf(repositories: set<int>)
      modifies this
      ensures jobs.Keys == old(jobs).Keys
      ensures forall id | id in jobs ::
                jobs[id] == if old(jobs)[id].repository in repositories && old(jobs)[id].state in {Queued, Running, WaitingApproval} then
                              old(jobs)[id].(
                                state := Cancelled, cancelRequested := true, leaseOwner := None, leaseUntil := None, leaseToken := None)
                            else old(jobs)[id]
    {
      jobs := CancelRepositories(jobs, repositories);
    }
  }

  function FinishedRow(j: Job, success: bool, result: Json): Job {
    j.Released().(state := if success then Succeeded else Failed, result := Some(result))
  }

  predicate SucceededFor(j: Job, repository: int, pullRequest: int, kind: string, head: string) {
    && j.state == Succeeded && j.repository == repository && j.pullRequest == pullRequest && j.kind == kind
    && Text(Get(j.plan, "head_sha")) == Some(head)
  }

  method OldestLeaseable(jobs: Jobs, now: int, locked: set<int>) returns (r: Option<int>)
    ensures r.Some? ==> IsNext(jobs, r.value, now, locked)
    ensures r.None? ==> NoneLeaseable(jobs, now, locked)
  {
    var ids := AscendInts(jobs.Keys);
    r := None;
    hide Leaseable, Ascending;
    for i := 0 to |ids|
      invariant r.Some? ==> r.value in jobs && r.value in Elements(ids[..i]) && r.value !in locked && Leaseable(jobs[r.value], now)
      invariant forall id | id in Elements(ids[..i]) && id in jobs && id !in locked && Leaseable(jobs[id], now) ::
                  r.Some? && (id == r.value || Precedes(jobs, r.value, id))
    {
      AscendStep(ids, i);
      if ids[i] !in locked && Leaseable(jobs[ids[i]], now) && (r.None? || Precedes(jobs, ids[i], r.value)) {
        r := Some(ids[i]);
      }
    }
    assert ids[..|ids|] == ids;
  }
}
