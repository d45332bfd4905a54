/** Feedback plans, and skipping in them (src/worker.rs). */
module FeedbackPlan {
  import opened Basics
  import opened Text
  import opened Json
  import Controls

  const SHOWN_ITEMS := 100
  const FEEDBACK := "feedback_repair"

  // Reading a plan.

  function FeedbackId(index: nat): string {
    "feedback-" + Decimal(index)
  }

  lemma FeedbackIdInjective(i: nat, j: nat)
    requires FeedbackId(i) == FeedbackId(j)
    ensures i == j
  {
    assert FeedbackId(i)[9..] == Decimal(i) && FeedbackId(j)[9..] == Decimal(j);
    DecimalInjective(i, j);
  }

  /** The entries of an array field; none when it is absent or no array. */
  function List(plan: Json, key: string): seq<Json> {
    var value := Get(plan, key);
    if value.Some? && value.value.Arr? then value.value.items else []
  }

  predicate IsSkipped(plan: Json, id: string) {
    Str(id) in List(plan, "skipped_items")
  }

  function FeedbackCount(plan: Json): nat {
    |List(plan, "feedback")|
  }

  /** The first feedback index from i up to n that is not skipped. */
  ghost function FirstUnskipped(plan: Json, i: nat, n: nat): Option<nat>
    decreases n - i
  {
    if i >= n then None
    else if !IsSkipped(plan, FeedbackId(i)) then Some(i)
    else FirstUnskipped(plan, i + 1, n)
  }

  ghost predicate AllSkipped(plan: Json, i: nat, n: nat) {
    forall k: nat | i <= k < n :: IsSkipped(plan, FeedbackId(k))
  }

  lemma {:induction false} FirstUnskippedMeaning(plan: Json, i: nat, n: nat)
    ensures FirstUnskipped(plan, i, n).None? <==> AllSkipped(plan, i, n)
    ensures FirstUnskipped(plan, i, n).Some? ==>
              var k := FirstUnskipped(plan, i, n).value;
              i <= k < n && !IsSkipped(plan, FeedbackId(k)) && AllSkipped(plan, i, k)
    decreases n - i
  {
    hide IsSkipped, FeedbackId;
    if i < n && IsSkipped(plan, FeedbackId(i)) {
      FirstUnskippedMeaning(plan, i + 1, n);
    }
  }

  lemma FirstUnskippedIs(plan: Json, n: nat, k: nat)
    requires k < n && !IsSkipped(plan, FeedbackId(k)) && AllSkipped(plan, 0, k)
    ensures FirstUnskipped(plan, 0, n) == Some(k)
  {
    hide IsSkipped, FeedbackId, FirstUnskipped;
    FirstUnskippedMeaning(plan, 0, n);
  }

  /** The item the worker applies; None when it reports that everything was skipped. */
  ghost function WorkerItem(plan: Json): Option<nat> {
    FirstUnskipped(plan, 0, FeedbackCount(plan))
  }

  method HasRemainingFeedback(plan: Json) returns (remaining: bool)
    ensures remaining <==> WorkerItem(plan).Some?
  {
    hide IsSkipped, FeedbackId, FirstUnskipped;
    FirstUnskippedMeaning(plan, 0, FeedbackCount(plan));
    for i := 0 to FeedbackCount(plan)
      invariant AllSkipped(plan, 0, i)
    {
      if !IsSkipped(plan, FeedbackId(i)) {
        FirstUnskippedIs(plan, FeedbackCount(plan), i);
        return true;
      }
    }
    return false;
  }

  // The items on display.

  ghost function Shown(n: nat): nat {
    if n < 100 then n else 100
  }

  function KindSummary(kind: string): string {
    match kind
    case "reconcile" => "Refresh GitHub state and evaluate merge readiness"
    case "feedback_repair" => "Validate and apply an approved automation suggestion"
    case "ci_repair" => "Diagnose a GitHub Actions failure and prepare a repair plan"
    case "stack_rebase" => "Plan a safe pull request stack rebase"
    case _ => "Process a PiTools work item"
  }

  ghost function SummaryOf(kind: string): string {
    if kind == "reconcile" then "Refresh GitHub state and evaluate merge readiness"
    else if kind == "feedback_repair" then "Validate and apply an approved automation suggestion"
    else if kind == "ci_repair" then "Diagnose a GitHub Actions failure and prepare a repair plan"
    else if kind == "stack_rebase" then "Plan a safe pull request stack rebase"
    else "Process a PiTools work item"
  }

  lemma KindSummaryIs(kind: string)
    ensures KindSummary(kind) == SummaryOf(kind)
  {
  }

  ghost predicate IsItem(plan: Json, first: Controls.ItemStatus, i: nat, item: Controls.PlanItem) {
    && item.id == "feedback-" + Decimal(i) && item.summary == "Process automated feedback"
    && item.status == if IsSkipped(plan, FeedbackId(i)) then Controls.Skipped
                      else if AllSkipped(plan, 0, i) then first else Controls.Pending
  }

  ghost predicate AreItems(plan: Json, first: Controls.ItemStatus, items: Controls.Items) {
    forall i | 0 <= i < |items| :: IsItem(plan, first, i, items[i])
  }

  ghost predicate ListsFeedback(plan: Json, kind: string) {
    kind == "feedback_repair" && FeedbackCount(plan) > 0
  }

  method PlanItemsForJob(plan: Json, kind: string, first: Controls.ItemStatus) returns (items: Controls.Items)
    ensures ListsFeedback(plan, kind) ==> |items| == Shown(FeedbackCount(plan)) && AreItems(plan, first, items)
    ensures !ListsFeedback(plan, kind) ==> items == [Controls.PlanItem(kind, SummaryOf(kind), first)]
  {
    hide IsSkipped, KindSummary, Decimal, SummaryOf;
    KindSummaryIs(kind);
    if kind == FEEDBACK {
      var started := false;
      items := [];
      for index := 0 to if FeedbackCount(plan) < SHOWN_ITEMS then FeedbackCount(plan) else SHOWN_ITEMS
        invariant |items| == index && AreItems(plan, first, items)
        invariant !started <==> AllSkipped(plan, 0, index)
      {
        var status := Controls.Pending;
        if IsSkipped(plan, FeedbackId(index)) {
          status := Controls.Skipped;
        } else if !started {
          started := true;
          status := first;
        }
        items := items + [Controls.PlanItem(FeedbackId(index), "Process automated feedback", status)];
      }
      if items != [] {
        return;
      }
    }
    items := [Controls.PlanItem(kind, KindSummary(kind), first)];
  }

  /** The first item that is pending or in progress. */
  method CurrentItemId(items: Controls.Items) returns (r: Option<string>)
    ensures r.None? ==> forall i | 0 <= i < |items| :: !items[i].Open()
    ensures r.Some? ==>
              exists i | 0 <= i < |items| :: items[i].Open() && r == Some(items[i].id) && forall j | 0 <= j < i :: !items[j].Open()
  {
    for i := 0 to |items|
      invariant forall j | 0 <= j < i :: !items[j].Open()
    {
      if items[i].Open() {
        return Some(items[i].id);
      }
    }
    return None;
  }

  ghost function FeedbackName(index: Option<nat>): Option<string> {
    if index.None? then None else Some(FeedbackId(index.value))
  }

  /** The item on display for a job just started. */
  ghost function Displayed(plan: Json, kind: string): Option<string> {
    if kind == "feedback_repair" && FeedbackCount(plan) > 0
    then FeedbackName(FirstUnskipped(plan, 0, Shown(FeedbackCount(plan))))
    else Some(kind)
  }

  /** Starting work on a job: its items, and the one recorded as current. */
  method StartWork(plan: Json, kind: string) returns (current: Option<string>)
    ensures current == Displayed(plan, kind)
  {
    hide IsSkipped, FeedbackId, KindSummary, FirstUnskipped;
    var items := PlanItemsForJob(plan, kind, Controls.InProgress);
    current := CurrentItemId(items);
    if ListsFeedback(plan, kind) {
      FirstUnskippedMeaning(plan, 0, |items|);
      CurrentIsFirst(plan, items, current);
    } else {
      assert items[0].Open();
    }
  }

  lemma ItemIs(i: nat)
    ensures FeedbackId(i) == "feedback-" + Decimal(i)
  {
  }

  lemma CurrentIsFirst(plan: Json, items: Controls.Items, current: Option<string>)
    requires AreItems(plan, Controls.InProgress, items)
    requires current.None? ==> forall i | 0 <= i < |items| :: !items[i].Open()
    requires current.Some? ==>
               exists i | 0 <= i < |items| :: items[i].Open() && current == Some(items[i].id) && forall j | 0 <= j < i :: !items[j].Open()
    ensures current == FeedbackName(FirstUnskipped(plan, 0, |items|))
  {
    hide IsSkipped, FeedbackId, FirstUnskipped;
    FirstUnskippedMeaning(plan, 0, |items|);
    forall i: nat | i < |items|
      ensures items[i].Open() <==> !IsSkipped(plan, FeedbackId(i))
      ensures items[i].id == FeedbackId(i)
    {
      assert IsItem(plan, Controls.InProgress, i, items[i]);
      ItemIs(i);
    }
    if current.Some? {
      var i: nat :| i < |items| && items[i].Open() && current == Some(items[i].id) && forall j | 0 <= j < i :: !items[j].Open();
      FirstUnskippedIs(plan, |items|, i);
    }
  }

  /** The display names the worker's item, except when the first one left lies beyond the displayed hundred. */
  lemma DisplayIsWorkerItem(plan: Json)
    requires FeedbackCount(plan) > 0
    ensures Displayed(plan, FEEDBACK) == FeedbackName(WorkerItem(plan)) <==>
              WorkerItem(plan).None? || WorkerItem(plan).value < SHOWN_ITEMS
    ensures FeedbackCount(plan) <= SHOWN_ITEMS ==> Displayed(plan, FEEDBACK) == FeedbackName(WorkerItem(plan))
  {
    hide IsSkipped, FeedbackId, FirstUnskipped;
    var n := FeedbackCount(plan);
    FirstUnskippedMeaning(plan, 0, n);
    FirstUnskippedMeaning(plan, 0, Shown(n));
    if FirstUnskipped(plan, 0, Shown(n)).Some? {
      FirstUnskippedIs(plan, n, FirstUnskipped(plan, 0, Shown(n)).value);
    }
  }

  // The same, said of the fields of the plan.

  ghost function Entries(plan: Json): seq<Json> {
    if plan.Obj? && "feedback" in plan.fields && plan.fields["feedback"].Arr? then plan.fields["feedback"].items else []
  }

  ghost predicate Skips(plan: Json, i: nat) {
    && plan.Obj? && "skipped_items" in plan.fields && plan.fields["skipped_items"].Arr?
    && Str("feedback-" + Decimal(i)) in plan.fields["skipped_items"].items
  }

  lemma PlanReads(plan: Json, i: nat)
    ensures FeedbackCount(plan) == |Entries(plan)| && (IsSkipped(plan, FeedbackId(i)) <==> Skips(plan, i))
  {
    hide Decimal;
  }

  ghost predicate FirstLeft(plan: Json, k: nat) {
    !Skips(plan, k) && forall j: nat | j < k :: Skips(plan, j)
  }

  /** The worker takes the first entry that is not skipped; the display shows it when it is among the first hundred. */
  lemma WorkAndDisplay(plan: Json, k: nat)
    requires k < |Entries(plan)| && FirstLeft(plan, k)
    ensures WorkerItem(plan) == Some(k)
    ensures Displayed(plan, "feedback_repair") == if k < 100 then Some("feedback-" + Decimal(k)) else None
  {
    hide IsSkipped, FeedbackId, FirstUnskipped, Skips;
    forall i: nat
      ensures FeedbackCount(plan) == |Entries(plan)| && (IsSkipped(plan, FeedbackId(i)) <==> Skips(plan, i))
    {
      PlanReads(plan, i);
    }
    FirstUnskippedIs(plan, |Entries(plan)|, k);
    ItemIs(k);
    if k < 100 {
      FirstUnskippedIs(plan, Shown(|Entries(plan)|), k);
    } else {
      FirstUnskippedMeaning(plan, 0, 100);
    }
  }

  /** When everything is skipped there is nothing to do and nothing to show; other jobs show their kind. */
  lemma NothingLeft(plan: Json, kind: string)
    ensures (forall i: nat | i < |Entries(plan)| :: Skips(plan, i)) ==>
              WorkerItem(plan) == None && (Entries(plan) != [] ==> Displayed(plan, "feedback_repair") == None)
    ensures kind != "feedback_repair" || Entries(plan) == [] ==> Displayed(plan, kind) == Some(kind)
  {
    hide IsSkipped, FeedbackId, FirstUnskipped, Skips;
    forall i: nat
      ensures FeedbackCount(plan) == |Entries(plan)| && (IsSkipped(plan, FeedbackId(i)) <==> Skips(plan, i))
    {
      PlanReads(plan, i);
    }
    FirstUnskippedMeaning(plan, 0, |Entries(plan)|);
    FirstUnskippedMeaning(plan, 0, Shown(|Entries(plan)|));
  }
}
