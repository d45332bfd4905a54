/** The table object performs exactly the steps the runs are made of. */
module QueueSteps {
  import opened Basics
  import opened Json
  import Controls
  import opened Queue
  import opened QueueRuns

  /** One statement carried out on the table object; `action` is the recorded action of a control to apply. */
  method Perform(t: JobTable, op: Op, action: Controls.Action, now: int, ghost w: World)
    requires t.jobs == w.jobs && now == w.now && Possible(w, op)
    requires op.Apply? && (op.job, op.request) in w.controls ==> w.controls[(op.job, op.request)].0 == action
    requires op.Apply? ==> (op.job, op.request) in w.controls
    requires QueueSound(w.jobs)
    modifies t
    ensures t.jobs == TableAfter(w, op)
  {
    match op
    case Tick(_) =>
    case Insert(repository, pullRequest, kind, plan, id) =>
      var inserted := t.Insert(repository, pullRequest, kind, plan, id, now);
    case LeaseNext(worker, token, locked, leased) =>
      var got := t.LeaseNext(worker, token, locked, now);
      NextUnique(ExpireExhausted(w.jobs, w.now), now, locked, got, leased);
    case Renew(job, worker, token) =>
      var changed := t.RenewLease(job, worker, token, now);
    case Wait(job, worker, token, details) =>
      var changed := t.MarkWaitingApproval(job, worker, token, details, now);
    case Finish(job, worker, token, success, result) =>
      var changed := t.Finish(job, worker, token, success, result, now);
    case Cancel(job) =>
      var changed := t.RequestCancel(job);
    case CancelJobsOf(repositories) =>
      t.CancelJobsOf(repositories);
      CancelIs(w.jobs, repositories, t.jobs);
    case Link(job, item) =>
      t.LinkCheckRun(job, item);
    case Record(_, _, _, _) =>
    case Apply(job, request) =>
      match action {
        case ApprovePlan => var changed := t.ApprovePlan(job);
        case SkipCurrentItem =>
          var changed := t.SkipCurrentItem(job);
          if changed {
            SkipIs(w.jobs[job], t.jobs[job]);
          }
        case CancelRun => var changed := t.RequestCancel(job);
      }
  }

  ghost predicate Picks(jobs: Jobs, now: int, locked: set<int>, r: Option<int>) {
    if r.Some? then IsNext(jobs, r.value, now, locked) else NoneLeaseable(jobs, now, locked)
  }

  /** The lease query has one answer. */
  lemma NextUnique(jobs: Jobs, now: int, locked: set<int>, a: Option<int>, b: Option<int>)
    requires Picks(jobs, now, locked, a) && Picks(jobs, now, locked, b)
    ensures a == b
  {
  }

  /** The row a skip has to leave is the one it leaves. */
  lemma SkipIs(a: Job, b: Job)
    requires Skippable(a) && IsSkip(a, b)
    ensures b == SkippedRow(a)
  {
    SkippedItemsAre(a.plan, a.currentItem.value, b.plan);
  }

  lemma SkippedItemsAre(before: Json, item: string, after: Json)
    requires before.Obj? && SkipWritten(before, item, after)
    ensures after == Obj(before.fields["skipped_items" := SkippedItems(before, item)])
  {
    assert [] + [Str(item)] == [Str(item)];
    if "skipped_items" in before.fields && !before.fields["skipped_items"].Arr? {
      assert [before.fields["skipped_items"]] + [Str(item)] == [before.fields["skipped_items"], Str(item)];
    }
  }

  lemma CancelIs(before: Jobs, repositories: set<int>, after: Jobs)
    requires after.Keys == before.Keys
    requires forall id | id in after ::
               after[id] == if before[id].repository in repositories && before[id].state in {Queued, Running, WaitingApproval} then
                              before[id].(
                                state := Cancelled, cancelRequested := true, leaseOwner := None, leaseUntil := None, leaseToken := None)
                            else before[id]
    ensures after == CancelRepositories(before, repositories)
  {
    var wanted := CancelRepositories(before, repositories);
    assert after.Keys == wanted.Keys;
    forall id | id in after ensures after[id] == wanted[id] {
    }
  }
}
