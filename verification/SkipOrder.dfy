/** The exact condition under which feedback items are skipped in order, and a run that misses it. */
module SkipOrder {
  import opened Basics
  import opened Json
  import opened Queue
  import opened FeedbackPlan
  import opened FeedbackRuns
  import Controls
  import QueueRuns

  // The condition, said of each skip as it fires.

  /** On record is the first feedback item that the plan does not list as skipped. */
  ghost predicate FoundFirst(j: Job) {
    exists k: nat :: AllSkipped(j.plan, 0, k) && !IsSkipped(j.plan, FeedbackId(k)) && j.currentItem == Some(FeedbackId(k))
  }

  /** Every skip of the job that fires in the run finds that on record. */
  ghost predicate EverySkipFoundFirst(w: QueueRuns.World, ops: seq<QueueRuns.Op>, job: int)
    decreases |ops|
  {
    ops == []
    || ((SkipsJob(w, ops[0], job) ==> FoundFirst(w.jobs[job])) && EverySkipFoundFirst(QueueRuns.Next(w, ops[0]), ops[1..], job))
  }

  ghost predicate ParksHarmlessly(ops: seq<QueueRuns.Op>, job: int) {
    forall i | 0 <= i < |ops| :: ops[i].Wait? && ops[i].job == job ==> Harmless(ops[i].details)
  }

  lemma FoundFirstMeans(start: Json, j: Job, m: nat)
    requires PlanAfterSkips(start, j.plan, m)
    ensures FoundFirst(j) <==> j.currentItem == Some(FeedbackId(m))
  {
    hide IsSkipped, FeedbackId, PlanAfterSkips;
    forall i: nat
      ensures IsSkipped(j.plan, FeedbackId(i)) <==> i < m
    {
      SkippedSoFar(start, j.plan, m, i);
    }
    if FoundFirst(j) {
      var k: nat :| AllSkipped(j.plan, 0, k) && !IsSkipped(j.plan, FeedbackId(k)) && j.currentItem == Some(FeedbackId(k));
      assert m < k ==> IsSkipped(j.plan, FeedbackId(m));
    }
    assert AllSkipped(j.plan, 0, m);
  }

  // Once out of order, always out of order: the list is only appended to.

  /** Entry m of the list is another than feedback-m. */
  ghost predicate OutOfOrder(plan: Json, m: nat) {
    && Get(plan, "skipped_items").Some? && Get(plan, "skipped_items").value.Arr?
    && |List(plan, "skipped_items")| > m && List(plan, "skipped_items")[m] != Str(FeedbackId(m))
  }

  lemma OutOfOrderIsNotInOrder(start: Json, plan: Json, m: nat, n: nat)
    requires OutOfOrder(plan, m)
    ensures !PlanAfterSkips(start, plan, n)
  {
    hide FeedbackId;
  }

  lemma ParkKeepsOutOfOrder(j: Job, m: nat, details: Json)
    requires OutOfOrder(j.plan, m) && Harmless(details)
    ensures OutOfOrder(WaitingRow(j, details).plan, m)
  {
    hide FeedbackId;
  }

  lemma ApproveKeepsOutOfOrder(j: Job, m: nat)
    requires OutOfOrder(j.plan, m) && Approvable(j)
    ensures OutOfOrder(ApprovedRow(j).plan, m)
  {
    hide FeedbackId;
  }

  lemma SkipKeepsOutOfOrder(j: Job, m: nat)
    requires OutOfOrder(j.plan, m) && Skippable(j)
    ensures OutOfOrder(SkippedRow(j).plan, m)
  {
    hide FeedbackId;
  }

  /** A skip of anything but the first item left puts the list out of order. */
  lemma WrongSkip(start: Json, j: Job, m: nat)
    requires PlanAfterSkips(start, j.plan, m) && Skippable(j) && j.currentItem != Some(FeedbackId(m))
    ensures OutOfOrder(SkippedRow(j).plan, m)
  {
    hide FeedbackId;
  }

  lemma StepKeepsOutOfOrder(w: QueueRuns.World, op: QueueRuns.Op, job: int, m: nat)
    requires QueueRuns.Possible(w, op) && job in w.jobs && OutOfOrder(w.jobs[job].plan, m)
    requires op.Wait? && op.job == job ==> Harmless(op.details)
    ensures job in QueueRuns.TableAfter(w, op) && OutOfOrder(QueueRuns.TableAfter(w, op)[job].plan, m)
  {
    hide QueueRuns.Possible, QueueRuns.TableAfter, OutOfOrder, SkippedRow, ApprovedRow, WaitingRow, Approvable, Harmless, SkipsJob;
    StepFields(w, op, job);
    var j := w.jobs[job];
    if SkipsJob(w, op, job) {
      SkipKeepsOutOfOrder(j, m);
    } else if op.Wait? && op.job == job {
      ParkKeepsOutOfOrder(j, m, op.details);
    } else if Approvable(j) {
      ApproveKeepsOutOfOrder(j, m);
    }
  }

  lemma {:induction false} RunKeepsOutOfOrder(w: QueueRuns.World, ops: seq<QueueRuns.Op>, job: int, m: nat)
    requires QueueRuns.AllPossible(w, ops) && ParksHarmlessly(ops, job) && job in w.jobs && OutOfOrder(w.jobs[job].plan, m)
    ensures job in QueueRuns.After(w, ops).jobs && OutOfOrder(QueueRuns.After(w, ops).jobs[job].plan, m)
    decreases |ops|
  {
    hide QueueRuns.Next, QueueRuns.Possible, QueueRuns.TableAfter, OutOfOrder, SkipsJob, Harmless, QueueRuns.SkipsOf;
    if ops != [] {
      StepKeepsOutOfOrder(w, ops[0], job, m);
      SkipsGrow(w, ops[0], job);
      ParksLater(ops, job);
      RunKeepsOutOfOrder(QueueRuns.Next(w, ops[0]), ops[1..], job, m);
    }
  }

  lemma ParksLater(ops: seq<QueueRuns.Op>, job: int)
    requires ops != [] && ParksHarmlessly(ops, job)
    ensures ParksHarmlessly(ops[1..], job)
  {
    hide Harmless;
    forall i | 0 <= i < |ops[1..]|
      ensures ops[1..][i].Wait? && ops[1..][i].job == job ==> Harmless(ops[1..][i].details)
    {
      assert ops[1..][i] == ops[i + 1];
    }
  }

  // In order while each skip finds the first item.

  lemma StepInOrder(w: QueueRuns.World, op: QueueRuns.Op, job: int, start: Json, m: nat)
    requires QueueRuns.Possible(w, op) && job in w.jobs && PlanAfterSkips(start, w.jobs[job].plan, m)
    requires op.Wait? && op.job == job ==> Harmless(op.details)
    ensures job in QueueRuns.TableAfter(w, op)
    ensures var plan := QueueRuns.TableAfter(w, op)[job].plan;
            if !SkipsJob(w, op, job) then PlanAfterSkips(start, plan, m)
            else if FoundFirst(w.jobs[job]) then PlanAfterSkips(start, plan, m + 1)
            else OutOfOrder(plan, m)
  {
    hide QueueRuns.Possible, QueueRuns.TableAfter, PlanAfterSkips, OutOfOrder, FoundFirst, SkippedRow, ApprovedRow, WaitingRow,
         Approvable, Harmless, SkipsJob, FeedbackId;
    StepFields(w, op, job);
    var j := w.jobs[job];
    FoundFirstMeans(start, j, m);
    if SkipsJob(w, op, job) {
      if FoundFirst(j) {
        SkipAdvancesPlan(start, j, m);
      } else {
        WrongSkip(start, j, m);
      }
    } else if op.Wait? && op.job == job {
      ParkKeepsPlan(start, j, m, op.details);
    } else if Approvable(j) {
      ApproveKeepsPlan(start, j, m);
    }
  }

  /** The skips of the job that fired in a run. */
  ghost function Fired(w: QueueRuns.World, ops: seq<QueueRuns.Op>, job: int): int {
    QueueRuns.SkipsOf(QueueRuns.After(w, ops).skips, job) - QueueRuns.SkipsOf(w.skips, job)
  }

  lemma {:induction false} FiredGrows(w: QueueRuns.World, ops: seq<QueueRuns.Op>, job: int)
    ensures Fired(w, ops, job) >= 0
    decreases |ops|
  {
    hide QueueRuns.Next, SkipsJob, QueueRuns.SkipsOf;
    if ops != [] {
      SkipsGrow(w, ops[0], job);
      FiredGrows(QueueRuns.Next(w, ops[0]), ops[1..], job);
    }
  }

  /**
   * Exactly when the order is kept: in every possible run whose parkings are harmless, the items skipped at
   * the end are the first ones in order, one for each skip that fired, if and only if every skip that fired
   * found on record the first item not skipped.
   */
  lemma {:induction false} InOrderExactlyWhen(w: QueueRuns.World, ops: seq<QueueRuns.Op>, job: int, start: Json, m: nat)
    requires QueueRuns.AllPossible(w, ops) && ParksHarmlessly(ops, job)
    requires job in w.jobs && PlanAfterSkips(start, w.jobs[job].plan, m)
    ensures Fired(w, ops, job) >= 0 && job in QueueRuns.After(w, ops).jobs
    ensures PlanAfterSkips(start, QueueRuns.After(w, ops).jobs[job].plan, m + Fired(w, ops, job)) <==> EverySkipFoundFirst(w, ops, job)
    decreases |ops|
  {
    hide QueueRuns.Next, QueueRuns.Possible, QueueRuns.TableAfter, PlanAfterSkips, OutOfOrder, FoundFirst, SkipsJob, Harmless,
         QueueRuns.SkipsOf;
    FiredGrows(w, ops, job);
    if ops != [] {
      var next := QueueRuns.Next(w, ops[0]);
      StepInOrder(w, ops[0], job, start, m);
      SkipsGrow(w, ops[0], job);
      ParksLater(ops, job);
      if !SkipsJob(w, ops[0], job) {
        InOrderExactlyWhen(next, ops[1..], job, start, m);
      } else if FoundFirst(w.jobs[job]) {
        InOrderExactlyWhen(next, ops[1..], job, start, m + 1);
      } else {
        RunKeepsOutOfOrder(next, ops[1..], job, m);
        OutOfOrderIsNotInOrder(start, QueueRuns.After(w, ops).jobs[job].plan, m, m + Fired(w, ops, job));
      }
    }
  }

  lemma {:induction false} FittingParks(w: QueueRuns.World, ops: seq<QueueRuns.Op>, job: int)
    requires AllFit(w, ops, job)
    ensures ParksHarmlessly(ops, job)
    decreases |ops|
  {
    hide QueueRuns.Next, Harmless;
    if ops != [] {
      FittingParks(QueueRuns.Next(w, ops[0]), ops[1..], job);
      forall i | 0 <= i < |ops|
        ensures ops[i].Wait? && ops[i].job == job ==> Harmless(ops[i].details)
      {
        assert i > 0 ==> ops[i] == ops[1..][i - 1];
      }
    }
  }

  /** Starts that record what the present plan of the row displays are enough for that. */
  lemma FittingStartsSuffice(w: QueueRuns.World, ops: seq<QueueRuns.Op>, job: int, start: Json, m: nat)
    requires QueueRuns.AllPossible(w, ops) && AllFit(w, ops, job) && job in w.jobs
    requires InOrder(start, w.jobs[job], m) && m <= Shown(FeedbackCount(start))
    ensures EverySkipFoundFirst(w, ops, job)
  {
    hide QueueRuns.AllPossible, QueueRuns.After, AllFit, PlanAfterSkips, EverySkipFoundFirst, FeedbackCount, Shown, ParksHarmlessly,
         QueueRuns.SkipsOf;
    FittingParks(w, ops, job);
    EveryRunSkipsInOrder(w, ops, job, start, m);
    InOrderExactlyWhen(w, ops, job, start, m);
  }

  // A run that breaks the order.

  /** A table with one job. */
  ghost predicate Only(w: QueueRuns.World, id: int, j: Job) {
    w.jobs == map[id := j]
  }

  lemma OnlyLease(w: QueueRuns.World, id: int, j: Job, worker: string, token: int)
    requires Only(w, id, j) && Leaseable(j, w.now) && forall g | g in w.grants :: g.token != token
    ensures var op := QueueRuns.LeaseNext(worker, token, {}, Some(id));
            && QueueRuns.Possible(w, op)
            && QueueRuns.Next(w, op) == w.(jobs := map[id := LeasedRow(j, worker, token, w.now)],
                                           grants := w.grants + [QueueRuns.Grant(id, worker, token)])
  {
    hide LeasedRow;
    assert ExpireExhausted(w.jobs, w.now) == w.jobs;
  }

  lemma OnlyLink(w: QueueRuns.World, id: int, j: Job, item: Option<string>)
    requires Only(w, id, j)
    ensures QueueRuns.Next(w, QueueRuns.Link(id, item)) == w.(jobs := map[id := j.(currentItem := item)])
  {
  }

  /** Recording an accepted skip and applying it. */
  lemma OnlySkip(w: QueueRuns.World, id: int, j: Job, request: string)
    requires Only(w, id, j) && Skippable(j) && (id, request) !in w.controls && (id, request) !in w.pending
    ensures var record := QueueRuns.Record(id, request, Controls.SkipCurrentItem, true);
            var applied := QueueRuns.Next(QueueRuns.Next(w, record), QueueRuns.Apply(id, request));
            && QueueRuns.Possible(QueueRuns.Next(w, record), QueueRuns.Apply(id, request))
            && applied == w.(jobs := map[id := SkippedRow(j)], skips := w.skips + [id],
                             controls := w.controls[(id, request) := (Controls.SkipCurrentItem, true)])
  {
    hide SkippedRow, Skippable;
    assert w.pending + {(id, request)} - {(id, request)} == w.pending;
  }

  lemma OnlyTick(w: QueueRuns.World, seconds: nat)
    ensures QueueRuns.Next(w, QueueRuns.Tick(seconds)) == w.(now := w.now + seconds)
  {
  }

  lemma FirstThen(w: QueueRuns.World, op: QueueRuns.Op, ops: seq<QueueRuns.Op>)
    ensures QueueRuns.After(w, [op] + ops) == QueueRuns.After(QueueRuns.Next(w, op), ops)
    ensures QueueRuns.AllPossible(w, [op] + ops) <==> QueueRuns.Possible(w, op) && QueueRuns.AllPossible(QueueRuns.Next(w, op), ops)
    ensures QueueRuns.After(w, []) == w && QueueRuns.AllPossible(w, [])
  {
    hide QueueRuns.Next, QueueRuns.Possible;
    assert ([op] + ops)[1..] == ops;
  }

  /** A feedback job of two entries, just inserted. */
  ghost function TwoEntries(x: Json, y: Json): Json {
    Obj(map["feedback" := Arr([x, y])])
  }

  ghost function FreshJob(x: Json, y: Json): Job {
    NewJob(1, 1, FEEDBACK, TwoEntries(x, y), 0)
  }

  ghost function FreshWorld(id: int, j: Job): QueueRuns.World {
    QueueRuns.World(map[id := j], 0, map[], {}, [], [])
  }

  ghost function SkipOps(id: int, request: string, ops: seq<QueueRuns.Op>): seq<QueueRuns.Op> {
    [QueueRuns.Record(id, request, Controls.SkipCurrentItem, true)] + ([QueueRuns.Apply(id, request)] + ops)
  }

  /** Worker a loses its lease before it records what it starts; b takes over, starts, and its item is skipped. */
  ghost function FirstHalf(id: int): seq<QueueRuns.Op> {
    [QueueRuns.LeaseNext("a", 1, {}, Some(id))] + ([QueueRuns.Tick(LEASE_SECONDS)]
    + ([QueueRuns.LeaseNext("b", 2, {}, Some(id))] + ([QueueRuns.Link(id, Some(FeedbackId(0)))] + SkipOps(id, "one", []))))
  }

  /** Now a records the item it read; c leases the job, and before c records its own start a second skip comes. */
  ghost function SecondHalf(id: int): seq<QueueRuns.Op> {
    [QueueRuns.Link(id, Some(FeedbackId(0)))] + ([QueueRuns.LeaseNext("c", 3, {}, Some(id))] + SkipOps(id, "two", []))
  }

  lemma SkipPart(w: QueueRuns.World, id: int, j: Job, request: string)
    requires Only(w, id, j) && Skippable(j) && (id, request) !in w.controls && (id, request) !in w.pending
    ensures QueueRuns.AllPossible(w, SkipOps(id, request, []))
    ensures QueueRuns.After(w, SkipOps(id, request, []))
            == w.(jobs := map[id := SkippedRow(j)], skips := w.skips + [id],
                  controls := w.controls[(id, request) := (Controls.SkipCurrentItem, true)])
  {
    OnlySkip(w, id, j, request);
    RecordPossible(w, id, request);
    hide QueueRuns.Next, QueueRuns.Possible, QueueRuns.After, QueueRuns.AllPossible, SkippedRow, Skippable;
    var record := QueueRuns.Record(id, request, Controls.SkipCurrentItem, true);
    FirstThen(w, record, [QueueRuns.Apply(id, request)] + []);
    FirstThen(QueueRuns.Next(w, record), QueueRuns.Apply(id, request), []);
  }

  lemma RecordPossible(w: QueueRuns.World, id: int, request: string)
    ensures QueueRuns.Possible(w, QueueRuns.Record(id, request, Controls.SkipCurrentItem, true))
  {
  }

  lemma LinkAndTickPossible(w: QueueRuns.World, id: int, item: Option<string>)
    ensures QueueRuns.Possible(w, QueueRuns.Link(id, item)) && QueueRuns.Possible(w, QueueRuns.Tick(LEASE_SECONDS))
  {
  }

  /** The row when b has started. */
  ghost function StartedByB(x: Json, y: Json): Job {
    LeasedRow(LeasedRow(FreshJob(x, y), "a", 1, 0), "b", 2, LEASE_SECONDS).(currentItem := Some(FeedbackId(0)))
  }

  /** The row when c has leased it. */
  ghost function LeasedByC(x: Json, y: Json): Job
    requires Skippable(StartedByB(x, y))
  {
    LeasedRow(SkippedRow(StartedByB(x, y)).(currentItem := Some(FeedbackId(0))), "c", 3, LEASE_SECONDS)
  }

  lemma RowFacts(x: Json, y: Json)
    ensures Displayed(FreshJob(x, y).plan, FEEDBACK) == Some(FeedbackId(0))
    ensures Leaseable(FreshJob(x, y), 0) && Leaseable(LeasedRow(FreshJob(x, y), "a", 1, 0), LEASE_SECONDS)
    ensures Skippable(StartedByB(x, y))
    ensures Leaseable(SkippedRow(StartedByB(x, y)).(currentItem := Some(FeedbackId(0))), LEASE_SECONDS)
    ensures Skippable(LeasedByC(x, y))
    ensures List(SkippedRow(LeasedByC(x, y)).plan, "skipped_items") == [Str(FeedbackId(0)), Str(FeedbackId(0))]
  {
    NameNotEmpty(0);
    var plan := FreshJob(x, y).plan;
    assert PlanAfterSkips(plan, plan, 0);
    AfterSkips(plan, plan, 0);
    hide FeedbackId, Displayed;
  }

  lemma FirstHalfRuns(id: int, x: Json, y: Json)
    ensures QueueRuns.AllPossible(FreshWorld(id, FreshJob(x, y)), FirstHalf(id))
    ensures Skippable(StartedByB(x, y))
    ensures var end := QueueRuns.After(FreshWorld(id, FreshJob(x, y)), FirstHalf(id));
            && Only(end, id, SkippedRow(StartedByB(x, y))) && end.now == LEASE_SECONDS && end.pending == {}
            && end.grants == [QueueRuns.Grant(id, "a", 1), QueueRuns.Grant(id, "b", 2)]
            && end.controls == map[(id, "one") := (Controls.SkipCurrentItem, true)]
  {
    RowFacts(x, y);
    hide QueueRuns.Next, QueueRuns.Possible, QueueRuns.After, QueueRuns.AllPossible, SkippedRow, Skippable, Leaseable, LeasedRow,
         FeedbackId, SkipOps, NewJob;
    var j := FreshJob(x, y);
    var w := FreshWorld(id, j);
    var skip := SkipOps(id, "one", []);
    var link := QueueRuns.Link(id, Some(FeedbackId(0)));
    var b := QueueRuns.LeaseNext("b", 2, {}, Some(id));
    var tick := QueueRuns.Tick(LEASE_SECONDS);
    LinkAndTickPossible(w, id, Some(FeedbackId(0)));
    FirstThen(w, QueueRuns.LeaseNext("a", 1, {}, Some(id)), [tick] + ([b] + ([link] + skip)));
    OnlyLease(w, id, j, "a", 1);
    var w1 := QueueRuns.Next(w, QueueRuns.LeaseNext("a", 1, {}, Some(id)));
    FirstThen(w1, tick, [b] + ([link] + skip));
    OnlyTick(w1, LEASE_SECONDS);
    LinkAndTickPossible(w1, id, Some(FeedbackId(0)));
    var w2 := QueueRuns.Next(w1, tick);
    FirstThen(w2, b, [link] + skip);
    OnlyLease(w2, id, LeasedRow(j, "a", 1, 0), "b", 2);
    var w3 := QueueRuns.Next(w2, b);
    FirstThen(w3, link, skip);
    OnlyLink(w3, id, LeasedRow(LeasedRow(j, "a", 1, 0), "b", 2, LEASE_SECONDS), Some(FeedbackId(0)));
    LinkAndTickPossible(w3, id, Some(FeedbackId(0)));
    SkipPart(QueueRuns.Next(w3, link), id, StartedByB(x, y), "one");
  }

  lemma SecondHalfRuns(w: QueueRuns.World, id: int, x: Json, y: Json)
    requires Skippable(StartedByB(x, y)) && Only(w, id, SkippedRow(StartedByB(x, y))) && w.now == LEASE_SECONDS && w.pending == {}
    requires w.grants == [QueueRuns.Grant(id, "a", 1), QueueRuns.Grant(id, "b", 2)]
    requires w.controls == map[(id, "one") := (Controls.SkipCurrentItem, true)]
    ensures QueueRuns.AllPossible(w, SecondHalf(id)) && Skippable(LeasedByC(x, y))
    ensures Only(QueueRuns.After(w, SecondHalf(id)), id, SkippedRow(LeasedByC(x, y)))
  {
    RowFacts(x, y);
    OtherRequest(id);
    hide QueueRuns.Next, QueueRuns.Possible, QueueRuns.After, QueueRuns.AllPossible, SkippedRow, Skippable, Leaseable, LeasedRow,
         FeedbackId, SkipOps, StartedByB;
    var skip := SkipOps(id, "two", []);
    var link := QueueRuns.Link(id, Some(FeedbackId(0)));
    var c := QueueRuns.LeaseNext("c", 3, {}, Some(id));
    FirstThen(w, link, [c] + skip);
    OnlyLink(w, id, SkippedRow(StartedByB(x, y)), Some(FeedbackId(0)));
    LinkAndTickPossible(w, id, Some(FeedbackId(0)));
    var w1 := QueueRuns.Next(w, link);
    FirstThen(w1, c, skip);
    OnlyLease(w1, id, SkippedRow(StartedByB(x, y)).(currentItem := Some(FeedbackId(0))), "c", 3);
    SkipPart(QueueRuns.Next(w1, c), id, LeasedByC(x, y), "two");
  }

  lemma OtherRequest(id: int)
    ensures (id, "two") != (id, "one")
  {
    assert "two"[0] != "one"[0];
  }

  /**
   * An input: from a table that holds one new job of two entries, a possible run in which every start
   * records what the plan it leased displayed, and which skips feedback-0 twice.
   */
  lemma SkippedTwice(id: int, x: Json, y: Json)
    ensures var w, ops := FreshWorld(id, FreshJob(x, y)), FirstHalf(id) + SecondHalf(id);
            && Displayed(FreshJob(x, y).plan, FEEDBACK) == Some(FeedbackId(0))
            && QueueRuns.AllPossible(w, ops) && id in QueueRuns.After(w, ops).jobs
            && List(QueueRuns.After(w, ops).jobs[id].plan, "skipped_items") == [Str(FeedbackId(0)), Str(FeedbackId(0))]
  {
    hide QueueRuns.After, QueueRuns.AllPossible, FirstHalf, SecondHalf, FreshWorld, FreshJob, SkippedRow, StartedByB, LeasedByC,
         Displayed, FeedbackId, Skippable;
    var w := FreshWorld(id, FreshJob(x, y));
    FirstHalfRuns(id, x, y);
    SecondHalfRuns(QueueRuns.After(w, FirstHalf(id)), id, x, y);
    RunsInTurn(w, FirstHalf(id), SecondHalf(id));
    PossibleInTurn(w, FirstHalf(id), SecondHalf(id));
    RowFacts(x, y);
  }

  lemma {:induction false} PossibleInTurn(w: QueueRuns.World, a: seq<QueueRuns.Op>, b: seq<QueueRuns.Op>)
    ensures QueueRuns.AllPossible(w, a + b) <==> QueueRuns.AllPossible(w, a) && QueueRuns.AllPossible(QueueRuns.After(w, a), b)
    decreases |a|
  {
    hide QueueRuns.Next, QueueRuns.Possible;
    if a == [] {
      assert a + b == b;
    } else {
      assert (a + b)[1..] == a[1..] + b;
      PossibleInTurn(QueueRuns.Next(w, a[0]), a[1..], b);
    }
  }
}
