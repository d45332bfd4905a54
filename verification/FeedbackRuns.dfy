/** Skipping feedback items, over whole runs of the queue and the worker (src/queue.rs, src/worker.rs). */
module FeedbackRuns {
  import opened Basics
  import opened Json
  import opened Queue
  import opened FeedbackPlan
  import Approval
  import Controls
  import QueueRuns

  const RECONCILE := "reconcile"

  // A plan in which items were skipped in order.

  /** feedback-0 up to feedback-(m - 1). */
  ghost function Ids(m: nat): seq<Json> {
    seq(m, i requires 0 <= i < m => Str(FeedbackId(i)))
  }

  /** The same feedback, and exactly the first m items skipped, in order; other fields may differ. */
  ghost predicate PlanAfterSkips(start: Json, plan: Json, m: nat) {
    && plan.Obj? && Get(plan, "feedback") == Get(start, "feedback")
    && Get(plan, "skipped_items") == if m == 0 then None else Some(Arr(Ids(m)))
  }

  lemma SkippedSoFar(start: Json, plan: Json, m: nat, i: nat)
    requires PlanAfterSkips(start, plan, m)
    ensures IsSkipped(plan, FeedbackId(i)) <==> i < m
  {
    hide FeedbackId;
    if m > 0 {
      assert List(plan, "skipped_items") == Ids(m);
      if Str(FeedbackId(i)) in Ids(m) {
        var k :| 0 <= k < m && Ids(m)[k] == Str(FeedbackId(i));
        FeedbackIdInjective(k, i);
      }
      if i < m {
        assert Ids(m)[i] == Str(FeedbackId(i));
      }
    }
  }

  lemma FirstLeft(start: Json, plan: Json, m: nat, n: nat)
    requires PlanAfterSkips(start, plan, m)
    ensures FirstUnskipped(plan, 0, n) == if m < n then Some(m) else None
  {
    hide IsSkipped, FeedbackId, FirstUnskipped, PlanAfterSkips;
    forall i: nat
      ensures IsSkipped(plan, FeedbackId(i)) <==> i < m
    {
      SkippedSoFar(start, plan, m, i);
    }
    FirstUnskippedMeaning(plan, 0, n);
    if m < n {
      FirstUnskippedIs(plan, n, m);
    }
  }

  lemma SameFeedback(start: Json, plan: Json, m: nat)
    requires PlanAfterSkips(start, plan, m)
    ensures FeedbackCount(plan) == FeedbackCount(start)
  {
    hide FeedbackId, Ids;
  }

  /** After m skips the worker's item is number m while there is one; the display agrees up to a hundred. */
  lemma AfterSkips(start: Json, plan: Json, m: nat)
    requires PlanAfterSkips(start, plan, m) && FeedbackCount(start) > 0
    ensures WorkerItem(plan) == if m < FeedbackCount(start) then Some(m) else None
    ensures Displayed(plan, FEEDBACK) == if m < Shown(FeedbackCount(start)) then Some(FeedbackId(m)) else None
  {
    SameFeedback(start, plan, m);
    FirstLeft(start, plan, m, FeedbackCount(plan));
    FirstLeft(start, plan, m, Shown(FeedbackCount(plan)));
    hide FeedbackId, FirstUnskipped, IsSkipped, Ids;
  }

  lemma NameNotEmpty(m: nat)
    ensures FeedbackId(m) != ""
  {
  }

  // What the queue's updates do to such a plan.

  /** Details a worker parks a feedback job with: an object that leaves both fields alone. */
  ghost predicate Harmless(details: Json) {
    details.Obj? && "feedback" !in details.fields && "skipped_items" !in details.fields
  }

  /** The worker's own details are of this kind. */
  lemma WorkerDetailsAreHarmless(plan: Json, summary: string, blocker: string, hash: Approval.Hash)
    ensures Harmless(Approval.Bind(plan, Obj(map["summary" := Str(summary), "blocker" := Str(blocker)]), hash))
  {
  }

  lemma ParkKeepsPlan(start: Json, j: Job, m: nat, details: Json)
    requires PlanAfterSkips(start, j.plan, m) && Harmless(details)
    ensures PlanAfterSkips(start, WaitingRow(j, details).plan, m)
  {
    hide Ids;
  }

  lemma ApproveKeepsPlan(start: Json, j: Job, m: nat)
    requires PlanAfterSkips(start, j.plan, m) && Approvable(j)
    ensures PlanAfterSkips(start, ApprovedRow(j).plan, m)
  {
    hide Ids;
  }

  lemma SkipAdvancesPlan(start: Json, j: Job, m: nat)
    requires PlanAfterSkips(start, j.plan, m) && Skippable(j) && j.currentItem == Some(FeedbackId(m))
    ensures PlanAfterSkips(start, SkippedRow(j).plan, m + 1)
  {
    hide FeedbackId;
    assert Ids(m) + [Str(FeedbackId(m))] == Ids(m + 1);
    hide Ids;
  }

  // Rounds: lease, start, perhaps park, skip.

  /** One worker's turn, and the details it parked the job with, if it did. */
  datatype Visit = Visit(worker: string, token: int, now: int, parked: Option<Json>)

  /** What a start records: jobs of kind reconcile are not started. */
  ghost function Recorded(j: Job): Option<string> {
    if j.kind == "reconcile" then j.currentItem else Displayed(j.plan, j.kind)
  }

  ghost function StartedRow(j: Job, v: Visit): Job {
    LeasedRow(j, v.worker, v.token, v.now).(currentItem := Recorded(j))
  }

  /** The row as a skip finds it. */
  ghost function VisitedRow(j: Job, v: Visit): Job {
    if v.parked.Some? then WaitingRow(StartedRow(j, v), v.parked.value) else StartedRow(j, v)
  }

  ghost function Round(j: Job, v: Visit): Job {
    if Skippable(VisitedRow(j, v)) then SkippedRow(VisitedRow(j, v)) else VisitedRow(j, v)
  }

  ghost function Rounds(j: Job, visits: seq<Visit>): Job {
    if visits == [] then j else Round(Rounds(j, visits[..|visits| - 1]), visits[|visits| - 1])
  }

  ghost predicate VisitFits(v: Visit) {
    v.parked.Some? ==> Harmless(v.parked.value)
  }

  ghost predicate VisitsFit(visits: seq<Visit>) {
    forall i | 0 <= i < |visits| :: VisitFits(visits[i])
  }

  /** Waiting to be leased, with the attempts of the start and the first m feedback items skipped in order. */
  ghost predicate SkippedInOrder(start: Job, j: Job, m: nat) {
    && j.state == Queued && !j.cancelRequested && 0 <= j.attempt == start.attempt < j.maxAttempts
    && j.kind == FEEDBACK && PlanAfterSkips(start.plan, j.plan, m)
  }

  lemma VisitKeepsPlan(start: Json, j: Job, m: nat, v: Visit)
    requires PlanAfterSkips(start, j.plan, m) && VisitFits(v)
    ensures PlanAfterSkips(start, VisitedRow(j, v).plan, m)
  {
    hide PlanAfterSkips, Harmless, Recorded;
    if v.parked.Some? {
      ParkKeepsPlan(start, StartedRow(j, v), m, v.parked.value);
    }
  }

  /** A skip fires in a visit exactly while an item is on display. */
  lemma SkipFires(start: Json, j: Job, m: nat, v: Visit)
    requires PlanAfterSkips(start, j.plan, m) && FeedbackCount(start) > 0 && j.kind == FEEDBACK && !j.cancelRequested && VisitFits(v)
    ensures Skippable(VisitedRow(j, v)) <==> m < Shown(FeedbackCount(start))
    ensures VisitedRow(j, v).currentItem == if m < Shown(FeedbackCount(start)) then Some(FeedbackId(m)) else None
  {
    AfterSkips(start, j.plan, m);
    VisitKeepsPlan(start, j, m, v);
    NameNotEmpty(m);
    hide FeedbackId, Displayed, WorkerItem, Shown, Ids, Harmless, FeedbackCount;
  }

  lemma OneRound(start: Job, j: Job, m: nat, v: Visit)
    requires SkippedInOrder(start, j, m) && m < Shown(FeedbackCount(start.plan)) && VisitFits(v)
    ensures Leaseable(j, v.now)
    ensures SkippedInOrder(start, Round(j, v), m + 1)
  {
    SkipFires(start.plan, j, m, v);
    VisitKeepsPlan(start.plan, j, m, v);
    SkipAdvancesPlan(start.plan, VisitedRow(j, v), m);
    hide PlanAfterSkips, FeedbackId, Recorded, Shown, SkippedItems, FeedbackCount;
  }

  /**
   * A fresh feedback plan of n entries, skipped m times (up to a hundred), each time parked or not: every
   * lease is granted, and the items skipped are feedback-0, feedback-1 and so on.
   */
  lemma {:induction false} SkipsGoInOrder(start: Job, visits: seq<Visit>)
    requires SkippedInOrder(start, start, 0) && |visits| <= Shown(FeedbackCount(start.plan)) && VisitsFit(visits)
    ensures SkippedInOrder(start, Rounds(start, visits), |visits|)
  {
    hide SkippedInOrder, Round, Shown, VisitFits;
    if visits != [] {
      var n := |visits| - 1;
      assert VisitsFit(visits[..n]);
      SkipsGoInOrder(start, visits[..n]);
      OneRound(start, Rounds(start, visits[..n]), n, visits[n]);
    }
  }

  /** Up to a hundred entries: after as many skips nothing is left and no further skip fires. */
  lemma AllSkippedAtTheEnd(start: Job, visits: seq<Visit>, v: Visit)
    requires SkippedInOrder(start, start, 0) && 0 < FeedbackCount(start.plan) == |visits| <= SHOWN_ITEMS
    requires VisitsFit(visits) && VisitFits(v)
    ensures WorkerItem(Rounds(start, visits).plan).None?
    ensures Round(Rounds(start, visits), v) == VisitedRow(Rounds(start, visits), v)
    ensures VisitedRow(Rounds(start, visits), v).currentItem == None
  {
    hide Rounds, WorkerItem, VisitedRow, PlanAfterSkips, VisitFits, VisitsFit, FeedbackCount;
    SkipsGoInOrder(start, visits);
    AfterSkips(start.plan, Rounds(start, visits).plan, |visits|);
    SkipFires(start.plan, Rounds(start, visits), |visits|, v);
  }

  /** Beyond a hundred entries, the same hundred skips leave work that can no longer be skipped. */
  lemma EntriesBeyondTheDisplay(start: Job, visits: seq<Visit>, v: Visit)
    requires SkippedInOrder(start, start, 0) && FeedbackCount(start.plan) > |visits| == SHOWN_ITEMS
    requires VisitsFit(visits) && VisitFits(v)
    ensures WorkerItem(Rounds(start, visits).plan) == Some(SHOWN_ITEMS)
    ensures Round(Rounds(start, visits), v) == VisitedRow(Rounds(start, visits), v)
    ensures VisitedRow(Rounds(start, visits), v).currentItem == None
  {
    hide Rounds, WorkerItem, VisitedRow, PlanAfterSkips, VisitFits, VisitsFit, FeedbackCount;
    SkipsGoInOrder(start, visits);
    AfterSkips(start.plan, Rounds(start, visits).plan, |visits|);
    SkipFires(start.plan, Rounds(start, visits), |visits|, v);
  }

  /** One entry more than is displayed. */
  ghost function LongPlan(): Json {
    Obj(map["feedback" := Arr(seq(SHOWN_ITEMS + 1, i => Null))])
  }

  /** A newly inserted job with that plan, skipped a hundred times: item 100 is left, and no skip reaches it. */
  lemma HundredAndOneEntries(repository: int, pullRequest: int, now: int, visits: seq<Visit>, v: Visit)
    requires |visits| == SHOWN_ITEMS && VisitsFit(visits) && VisitFits(v)
    ensures var left := Rounds(NewJob(repository, pullRequest, FEEDBACK, LongPlan(), now), visits);
            WorkerItem(left.plan) == Some(SHOWN_ITEMS) && Round(left, v) == VisitedRow(left, v)
  {
    hide Rounds, WorkerItem, VisitedRow, VisitFits, VisitsFit, Round;
    var start := NewJob(repository, pullRequest, FEEDBACK, LongPlan(), now);
    assert Get(LongPlan(), "skipped_items").None? && FeedbackCount(LongPlan()) == SHOWN_ITEMS + 1;
    EntriesBeyondTheDisplay(start, visits, v);
  }

  /** Where no entries are listed, a skip fires on every start; a reconcile job is never started, so none does. */
  lemma KindIsSkippedAgain(j: Job, v: Visit)
    requires (j.kind != FEEDBACK || FeedbackCount(j.plan) == 0) && j.kind != "" && j.plan.Obj? && !j.cancelRequested
    requires j.kind == RECONCILE ==> j.currentItem.None?
    requires VisitFits(v)
    ensures Skippable(VisitedRow(j, v)) <==> j.kind != RECONCILE
    ensures j.kind != RECONCILE ==> Recorded(Round(j, v)) == Some(j.kind)
    ensures j.kind == RECONCILE ==> Round(j, v) == VisitedRow(j, v)
  {
    if j.kind == FEEDBACK {
      KeepsEmpty(j, v);
    }
    hide FeedbackCount, SkippedItems;
  }

  lemma KeepsEmpty(j: Job, v: Visit)
    requires FeedbackCount(j.plan) == 0 && j.plan.Obj? && VisitFits(v)
    ensures FeedbackCount(Round(j, v).plan) == 0
  {
    hide SkippedItems, Recorded;
  }

  // Rounds and runs.

  /** The statements of one round. */
  ghost function RoundOps(j: Job, id: int, v: Visit, locked: set<int>, request: string): seq<QueueRuns.Op> {
    [QueueRuns.LeaseNext(v.worker, v.token, locked, Some(id))]
    + (if j.kind == RECONCILE then [] else [QueueRuns.Link(id, Recorded(j))])
    + (if v.parked.Some? then [QueueRuns.Wait(id, v.worker, v.token, v.parked.value)] else [])
    + [QueueRuns.Apply(id, request)]
  }

  lemma {:induction false} RunsInTurn(w: QueueRuns.World, a: seq<QueueRuns.Op>, b: seq<QueueRuns.Op>)
    ensures QueueRuns.After(w, a + b) == QueueRuns.After(QueueRuns.After(w, a), b)
    decreases |a|
  {
    hide QueueRuns.Next;
    if a == [] {
      assert a + b == b;
    } else {
      assert (a + b)[1..] == a[1..] + b;
      RunsInTurn(QueueRuns.Next(w, a[0]), a[1..], b);
    }
  }

  lemma OneStep(w: QueueRuns.World, op: QueueRuns.Op)
    ensures QueueRuns.After(w, [op]) == QueueRuns.Next(w, op)
    ensures QueueRuns.After(w, []) == w
  {
    hide QueueRuns.Next;
    assert [op][1..] == [];
  }

  /** The world keeps the clock and the recorded controls, and this is the row. */
  ghost predicate RowIs(before: QueueRuns.World, w: QueueRuns.World, id: int, row: Job) {
    id in w.jobs && w.jobs[id] == row && w.now == before.now && w.controls == before.controls
  }

  lemma LeaseStep(w: QueueRuns.World, id: int, v: Visit, locked: set<int>)
    requires id in w.jobs && Leaseable(w.jobs[id], w.now) && v.now == w.now
    ensures RowIs(w, QueueRuns.Next(w, QueueRuns.LeaseNext(v.worker, v.token, locked, Some(id))), id,
                  LeasedRow(w.jobs[id], v.worker, v.token, v.now))
  {
  }

  lemma LinkStep(before: QueueRuns.World, w: QueueRuns.World, id: int, row: Job, item: Option<string>)
    requires RowIs(before, w, id, row)
    ensures RowIs(before, QueueRuns.Next(w, QueueRuns.Link(id, item)), id, row.(currentItem := item))
  {
  }

  lemma WaitStep(before: QueueRuns.World, w: QueueRuns.World, id: int, row: Job, v: Visit)
    requires RowIs(before, w, id, row) && Holds(row, v.worker, v.token, before.now) && v.parked.Some?
    ensures RowIs(before, QueueRuns.Next(w, QueueRuns.Wait(id, v.worker, v.token, v.parked.value)), id, WaitingRow(row, v.parked.value))
  {
    hide WaitingRow;
  }

  lemma ApplyStep(before: QueueRuns.World, w: QueueRuns.World, id: int, row: Job, request: string)
    requires RowIs(before, w, id, row)
    requires (id, request) in before.controls && before.controls[(id, request)].0 == Controls.SkipCurrentItem
    ensures RowIs(before, QueueRuns.Next(w, QueueRuns.Apply(id, request)), id, if Skippable(row) then SkippedRow(row) else row)
  {
    hide Skippable, SkippedRow;
  }

  /** A round is what the statements of a queue run do to the row. */
  lemma RoundIsRun(w: QueueRuns.World, id: int, v: Visit, locked: set<int>, request: string)
    requires id in w.jobs && Leaseable(w.jobs[id], w.now) && v.now == w.now
    requires (id, request) in w.controls && w.controls[(id, request)].0 == Controls.SkipCurrentItem
    ensures var after := QueueRuns.After(w, RoundOps(w.jobs[id], id, v, locked, request)).jobs;
            id in after && after[id] == Round(w.jobs[id], v)
  {
    hide QueueRuns.After, QueueRuns.Next, RowIs, Skippable, SkippedRow, WaitingRow, Recorded;
    var j := w.jobs[id];
    var lease := [QueueRuns.LeaseNext(v.worker, v.token, locked, Some(id))];
    var link := if j.kind == RECONCILE then [] else [QueueRuns.Link(id, Recorded(j))];
    var wait := if v.parked.Some? then [QueueRuns.Wait(id, v.worker, v.token, v.parked.value)] else [];
    var skip := [QueueRuns.Apply(id, request)];
    RunsInTurn(w, lease + link + wait, skip);
    RunsInTurn(w, lease + link, wait);
    RunsInTurn(w, lease, link);
    OneStep(w, lease[0]);
    LeaseStep(w, id, v, locked);
    var leased := QueueRuns.After(w, lease);
    LinkPart(w, leased, j, id, v, link);
    var linked := QueueRuns.After(leased, link);
    WaitPart(w, linked, j, id, v, wait);
    var waited := QueueRuns.After(linked, wait);
    OneStep(waited, skip[0]);
    ApplyStep(w, waited, id, VisitedRow(j, v), request);
    RowIsRow(w, QueueRuns.After(waited, skip), id, Round(j, v));
  }

  lemma RowIsRow(before: QueueRuns.World, w: QueueRuns.World, id: int, row: Job)
    requires RowIs(before, w, id, row)
    ensures id in w.jobs && w.jobs[id] == row
  {
  }

  lemma LinkPart(before: QueueRuns.World, w: QueueRuns.World, j: Job, id: int, v: Visit, link: seq<QueueRuns.Op>)
    requires RowIs(before, w, id, LeasedRow(j, v.worker, v.token, v.now))
    requires link == if j.kind == RECONCILE then [] else [QueueRuns.Link(id, Recorded(j))]
    ensures RowIs(before, QueueRuns.After(w, link), id, StartedRow(j, v))
  {
    hide QueueRuns.After, QueueRuns.Next, RowIs;
    OneStep(w, QueueRuns.Link(id, Recorded(j)));
    LinkStep(before, w, id, LeasedRow(j, v.worker, v.token, v.now), Recorded(j));
  }

  lemma WaitPart(before: QueueRuns.World, w: QueueRuns.World, j: Job, id: int, v: Visit, wait: seq<QueueRuns.Op>)
    requires RowIs(before, w, id, StartedRow(j, v)) && !j.cancelRequested && before.now == v.now
    requires wait == if v.parked.Some? then [QueueRuns.Wait(id, v.worker, v.token, v.parked.value)] else []
    ensures RowIs(before, QueueRuns.After(w, wait), id, VisitedRow(j, v))
  {
    hide QueueRuns.After, QueueRuns.Next, RowIs, WaitingRow, Recorded;
    if v.parked.Some? {
      OneStep(w, wait[0]);
      WaitStep(before, w, id, StartedRow(j, v), v);
    } else {
      OneStep(w, QueueRuns.Apply(id, ""));
    }
  }

  // Any run.

  /** The plan after m skips in order; what is on record is the item on display, or nothing. */
  ghost predicate InOrder(start: Json, j: Job, m: nat) {
    && j.kind == FEEDBACK && FeedbackCount(start) > 0 && PlanAfterSkips(start, j.plan, m)
    && (j.currentItem.Some? ==> m < Shown(FeedbackCount(start)) && j.currentItem == Some(FeedbackId(m)))
  }

  /** A start of this job records what its plan displays, and whoever parks it leaves the two fields alone. */
  ghost predicate OpFits(w: QueueRuns.World, op: QueueRuns.Op, job: int) {
    && (op.Link? && op.job == job && job in w.jobs ==> op.item == Recorded(w.jobs[job]))
    && (op.Wait? && op.job == job ==> Harmless(op.details))
  }

  ghost predicate AllFit(w: QueueRuns.World, ops: seq<QueueRuns.Op>, job: int)
    decreases |ops|
  {
    ops == [] || (OpFits(w, ops[0], job) && AllFit(QueueRuns.Next(w, ops[0]), ops[1..], job))
  }

  ghost predicate SkipsJob(w: QueueRuns.World, op: QueueRuns.Op, job: int) {
    QueueRuns.SkipFires(w, op) && op.job == job
  }

  /** What one statement does to kind, plan and current item of one job. */
  lemma StepFields(w: QueueRuns.World, op: QueueRuns.Op, job: int)
    requires QueueRuns.Possible(w, op) && job in w.jobs
    ensures job in QueueRuns.TableAfter(w, op)
    ensures var j, k := w.jobs[job], QueueRuns.TableAfter(w, op)[job];
            && k.kind == j.kind
            && (SkipsJob(w, op, job) ==> Skippable(j) && k.plan == SkippedRow(j).plan && k.currentItem.None?)
            && (op.Link? && op.job == job ==> k.plan == j.plan && k.currentItem == op.item)
            && (op.Wait? && op.job == job ==> k.plan in {j.plan, WaitingRow(j, op.details).plan} && k.currentItem == j.currentItem)
            && (!SkipsJob(w, op, job) && !(op.Link? && op.job == job) && !(op.Wait? && op.job == job) ==>
                  k.currentItem == j.currentItem && (k.plan == j.plan || (Approvable(j) && k.plan == ApprovedRow(j).plan)))
  {
    hide Approvable, Skippable, Leaseable, Exhausted, ApprovedPlan, SkippedItems, Concat;
  }

  lemma StepKeepsOrder(w: QueueRuns.World, op: QueueRuns.Op, job: int, start: Json, m: nat)
    requires QueueRuns.Possible(w, op) && job in w.jobs && OpFits(w, op, job) && InOrder(start, w.jobs[job], m)
    ensures job in QueueRuns.TableAfter(w, op)
    ensures InOrder(start, QueueRuns.TableAfter(w, op)[job], if SkipsJob(w, op, job) then m + 1 else m)
    ensures SkipsJob(w, op, job) ==> m < Shown(FeedbackCount(start))
  {
    hide QueueRuns.Possible, QueueRuns.TableAfter, PlanAfterSkips, SkippedRow, ApprovedRow, WaitingRow, Approvable,
         Harmless, SkipsJob, FeedbackId, Displayed, WorkerItem, Shown, FeedbackCount;
    StepFields(w, op, job);
    var j := w.jobs[job];
    AfterSkips(start, j.plan, m);
    if SkipsJob(w, op, job) {
      SkipAdvancesPlan(start, j, m);
    } else if op.Wait? && op.job == job {
      ParkKeepsPlan(start, j, m, op.details);
    } else if Approvable(j) {
      ApproveKeepsPlan(start, j, m);
    }
  }

  lemma SkipsGrow(w: QueueRuns.World, op: QueueRuns.Op, job: int)
    ensures QueueRuns.SkipsOf(QueueRuns.Next(w, op).skips, job)
            == QueueRuns.SkipsOf(w.skips, job) + if SkipsJob(w, op, job) then 1 else 0
    ensures QueueRuns.Next(w, op).jobs == QueueRuns.TableAfter(w, op)
  {
    hide QueueRuns.TableAfter, Skippable;
    if op.Apply? {
      var added := if QueueRuns.SkipFires(w, op) then [op.job] else [];
      assert added != [] ==> (w.skips + added)[..|w.skips|] == w.skips;
      assert added == [] ==> w.skips + added == w.skips;
    }
  }

  /**
   * Whatever runs - leases lost and taken again, parkings, approvals, cancellations - the items skipped
   * are feedback-0 to feedback-(m - 1) in order, one for each skip that fired, and never more than are shown.
   */
  lemma {:induction false} EveryRunSkipsInOrder(w: QueueRuns.World, ops: seq<QueueRuns.Op>, job: int, start: Json, m: nat)
    requires QueueRuns.AllPossible(w, ops) && AllFit(w, ops, job) && job in w.jobs && InOrder(start, w.jobs[job], m)
    requires m <= Shown(FeedbackCount(start))
    ensures var end, fired := QueueRuns.After(w, ops), QueueRuns.SkipsOf(QueueRuns.After(w, ops).skips, job) - QueueRuns.SkipsOf(w.skips, job);
            && fired >= 0 && m + fired <= Shown(FeedbackCount(start))
            && job in end.jobs && InOrder(start, end.jobs[job], m + fired)
    decreases |ops|
  {
    hide QueueRuns.Next, QueueRuns.Possible, QueueRuns.TableAfter, InOrder, OpFits, SkipsJob, QueueRuns.SkipsOf, Shown, FeedbackCount;
    if ops != [] {
      StepKeepsOrder(w, ops[0], job, start, m);
      SkipsGrow(w, ops[0], job);
      EveryRunSkipsInOrder(QueueRuns.Next(w, ops[0]), ops[1..], job, start, if SkipsJob(w, ops[0], job) then m + 1 else m);
    }
  }
}
