/** How jobs end, in every run. */
module QueueOutcomes {
  import opened Basics
  import opened Json
  import opened Queue
  import opened QueueRuns
  import Controls

  // One statement.

  /** The job's holder ends it, with this outcome, while the lease holds. */
  ghost predicate Finishes(w: World, op: Op, id: int, success: bool) {
    op.Finish? && op.job == id && op.success == success && HeldBy(w.jobs, id, op.worker, op.token, w.now)
  }

  /** The lease query finds no attempt left. */
  ghost predicate RunsOut(w: World, op: Op, id: int) {
    op.LeaseNext? && id in w.jobs && UsedUp(w.jobs[id], w.now)
  }

  /** An active job is cancelled: by its id, by a recorded control, or with its repository. */
  ghost predicate IsCancelled(w: World, op: Op, id: int) {
    && id in w.jobs && w.jobs[id].state in {Queued, Running, WaitingApproval}
    && ((op.Cancel? && op.job == id)
        || (op.CancelJobsOf? && w.jobs[id].repository in op.repositories)
        || (op.Apply? && op.job == id && (id, op.request) in w.controls && w.controls[(id, op.request)].0 == Controls.CancelRun))
  }

  /** Which statement ends a job, and how; nothing else does, and an ended job stays as it ended. */
  lemma StepEnds(w: World, op: Op, id: int)
    requires Possible(w, op) && id in w.jobs
    ensures id in Next(w, op).jobs
    ensures Next(w, op).jobs[id].state == Succeeded <==> w.jobs[id].state == Succeeded || Finishes(w, op, id, true)
    ensures Next(w, op).jobs[id].state == Failed <==>
              w.jobs[id].state == Failed || Finishes(w, op, id, false) || RunsOut(w, op, id)
    ensures Next(w, op).jobs[id].state == Cancelled <==> w.jobs[id].state == Cancelled || IsCancelled(w, op, id)
  {
    hide SkippedItems, ApprovedPlan, Concat;
  }

  /** An active job is parked, leased, requeued or left as it is, each under its own condition. */
  lemma StepMoves(w: World, op: Op, id: int)
    requires Possible(w, op) && id in w.jobs
    ensures id in Next(w, op).jobs
    ensures op.Wait? && op.job == id && HeldBy(w.jobs, id, op.worker, op.token, w.now) ==>
              IsParking(w.jobs[id], op.details, Next(w, op).jobs[id])
    ensures Next(w, op).jobs[id].state == WaitingApproval && w.jobs[id].state != WaitingApproval ==>
              op.Wait? && op.job == id && HeldBy(w.jobs, id, op.worker, op.token, w.now)
    ensures Next(w, op).jobs[id].state == Running && w.jobs[id].state != Running ==> op.LeaseNext? && op.leased == Some(id)
    ensures Next(w, op).jobs[id].state == Queued && w.jobs[id].state != Queued ==>
              && op.Apply? && op.job == id && (id, op.request) in w.controls && !w.jobs[id].cancelRequested
              && if w.controls[(id, op.request)].0 == Controls.SkipCurrentItem then IsSkip(w.jobs[id], Next(w, op).jobs[id])
                 else w.jobs[id].state == WaitingApproval && HasNestedHash(w.jobs[id].plan)
                      && IsApproval(w.jobs[id], Next(w, op).jobs[id])
  {
  }

  lemma StepInserts(w: World, op: Op, id: int)
    requires Possible(w, op) && id !in w.jobs && id in Next(w, op).jobs
    ensures op.Insert? && op.id == id && Next(w, op).jobs[id].state == Queued
  {
  }

  // Whole runs.

  ghost predicate SomeFinish(w: World, ops: seq<Op>, id: int, success: bool)
    decreases |ops|
  {
    ops != [] && (Finishes(w, ops[0], id, success) || SomeFinish(Next(w, ops[0]), ops[1..], id, success))
  }

  ghost predicate SomeRunOut(w: World, ops: seq<Op>, id: int)
    decreases |ops|
  {
    ops != [] && (RunsOut(w, ops[0], id) || SomeRunOut(Next(w, ops[0]), ops[1..], id))
  }

  ghost predicate SomeCancel(w: World, ops: seq<Op>, id: int)
    decreases |ops|
  {
    ops != [] && (IsCancelled(w, ops[0], id) || SomeCancel(Next(w, ops[0]), ops[1..], id))
  }

  ghost predicate In(w: World, id: int, state: JobState) {
    id in w.jobs && w.jobs[id].state == state
  }

  /**
   * At the end of any run a job has succeeded exactly when its holder ended it with success, has failed exactly
   * when its holder ended it without or its attempts ran out, and is cancelled exactly when it was cancelled
   * while active; each in this run, unless it had ended so before.
   */
  lemma {:induction false} HowJobsEnd(w: World, ops: seq<Op>, id: int)
    requires AllPossible(w, ops)
    ensures In(After(w, ops), id, Succeeded) <==> In(w, id, Succeeded) || SomeFinish(w, ops, id, true)
    ensures In(After(w, ops), id, Failed) <==> In(w, id, Failed) || SomeFinish(w, ops, id, false) || SomeRunOut(w, ops, id)
    ensures In(After(w, ops), id, Cancelled) <==> In(w, id, Cancelled) || SomeCancel(w, ops, id)
    decreases |ops|
  {
    hide Possible, Next, Finishes, RunsOut, IsCancelled;
    if ops != [] {
      OneStep(w, ops[0], id);
      HowJobsEnd(Next(w, ops[0]), ops[1..], id);
    }
  }

  lemma OneStep(w: World, op: Op, id: int)
    requires Possible(w, op)
    ensures In(Next(w, op), id, Succeeded) <==> In(w, id, Succeeded) || Finishes(w, op, id, true)
    ensures In(Next(w, op), id, Failed) <==> In(w, id, Failed) || Finishes(w, op, id, false) || RunsOut(w, op, id)
    ensures In(Next(w, op), id, Cancelled) <==> In(w, id, Cancelled) || IsCancelled(w, op, id)
  {
    if id in w.jobs {
      StepEnds(w, op, id);
    } else {
      NoEffectOutside(w, op, id);
      hide Possible, Next, Finishes, RunsOut, IsCancelled;
      if id in Next(w, op).jobs {
        StepInserts(w, op, id);
      }
    }
    hide Possible, Next, Finishes, RunsOut, IsCancelled;
  }

  lemma NoEffectOutside(w: World, op: Op, id: int)
    requires id !in w.jobs
    ensures !Finishes(w, op, id, true) && !Finishes(w, op, id, false) && !RunsOut(w, op, id) && !IsCancelled(w, op, id)
  {
  }

  // Done for a head.

  lemma StepKeepsIdentity(w: World, op: Op, id: int)
    requires Possible(w, op) && id in w.jobs
    ensures id in Next(w, op).jobs
    ensures var a, b := w.jobs[id], Next(w, op).jobs[id];
            a.repository == b.repository && a.pullRequest == b.pullRequest && a.kind == b.kind
  {
  }

  lemma {:induction false} RunKeepsIdentity(w: World, ops: seq<Op>, id: int)
    requires AllPossible(w, ops) && id in w.jobs
    ensures id in After(w, ops).jobs
    ensures var a, b := w.jobs[id], After(w, ops).jobs[id];
            a.repository == b.repository && a.pullRequest == b.pullRequest && a.kind == b.kind
    decreases |ops|
  {
    hide Possible, Next;
    if ops != [] {
      StepKeepsIdentity(w, ops[0], id);
      RunKeepsIdentity(Next(w, ops[0]), ops[1..], id);
    }
  }

  lemma {:induction false} DoneForEver(w: World, ops: seq<Op>, plan: Json, id: int)
    requires AllPossible(w, ops) && id in w.jobs
    requires DoneFor(w.jobs, w.jobs[id].repository, w.jobs[id].pullRequest, w.jobs[id].kind, plan, id)
    ensures DoneFor(After(w, ops).jobs, w.jobs[id].repository, w.jobs[id].pullRequest, w.jobs[id].kind, plan, id)
  {
    RunKeepsIdentity(w, ops, id);
    RunKeepsTerminal(w, ops, id);
    hide After, AllPossible, SameHead;
  }

  /**
   * Once a repair of a kind that is not repeated on a head has been ended with success, asking for that head
   * finds it in every later state of every run, so it is not enqueued again.
   */
  lemma SuccessIsFound(w: World, op: Op, ops: seq<Op>, plan: Json)
    requires Possible(w, op) && AllPossible(Next(w, op), ops)
    requires op.Finish? && Finishes(w, op, op.job, true)
    requires w.jobs[op.job].kind in {"ci_repair", "stack_rebase"} && SameHead(plan, w.jobs[op.job].plan)
    ensures var j := w.jobs[op.job];
            DoneFor(After(Next(w, op), ops).jobs, j.repository, j.pullRequest, j.kind, plan, op.job)
  {
    StepEnds(w, op, op.job);
    StepKeepsIdentity(w, op, op.job);
    FinishKeepsPlan(w, op);
    hide Possible, Next, After, AllPossible, SameHead, Finishes;
    DoneForEver(Next(w, op), ops, plan, op.job);
  }

  lemma FinishKeepsPlan(w: World, op: Op)
    requires op.Finish? && op.job in w.jobs
    ensures op.job in Next(w, op).jobs && Next(w, op).jobs[op.job].plan == w.jobs[op.job].plan
  {
  }

  /** The table object asked for a head that is done gives a job. */
  method AskForDone(t: JobTable, repository: int, pullRequest: int, kind: string, plan: Json, ghost id: int) returns (found: Option<int>)
    requires DoneFor(t.jobs, repository, pullRequest, kind, plan, id)
    ensures found.Some? && LatestDone(t.jobs, repository, pullRequest, kind, plan, found.value)
  {
    hide DoneFor, LatestDone;
    found := t.FindSucceeded(repository, pullRequest, kind, plan);
  }
}
