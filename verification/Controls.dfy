/** The work-plan control machine (src/pr_controls.rs). */
module Controls {
  import opened Basics
  import opened Text

  const MAX_ITEMS := 100

  datatype ItemStatus = Pending | InProgress | Completed | Failed | Skipped | Cancelled

  datatype PlanItem = PlanItem(id: string, summary: string, status: ItemStatus)
  {
    predicate Open() {
      status.Pending? || status.InProgress?
    }
  }

  type Items = seq<PlanItem>

  datatype RunStatus = WaitingApproval | Running | Completed | Cancelled

  datatype RunState = RunState(status: RunStatus, items: Items, applied: set<string>)

  datatype Action = ApprovePlan | SkipCurrentItem | CancelRun

  /** One control request with what it is judged by. */
  datatype Call = Call(requestId: string, actor: string, action: Action, author: string, maintainers: seq<string>)

  datatype ControlError = Unauthorized | DuplicateAction | RunNotActive | ApprovalNotApplicable | NoCurrentItem

  datatype ContractError = TooManyItems | RepeatedId

  // Items.

  function SetStatus(items: Items, k: nat, status: ItemStatus): (r: Items)
    requires k < |items|
  {
    items[k := items[k].(status := status)]
  }

  ghost predicate Is(items: Items, k: nat, status: ItemStatus) {
    k < |items| && items[k].status == status
  }

  ghost predicate NoneIs(items: Items, status: ItemStatus) {
    forall k: nat | k < |items| :: !Is(items, k, status)
  }

  /** The first item with a status. */
  ghost function First(items: Items, status: ItemStatus): Option<nat> {
    if items == [] then None
    else if items[0].status == status then Some(0)
    else
      var rest := First(items[1..], status);
      if rest.None? then None else Some(rest.value + 1)
  }

  ghost predicate NoneBefore(items: Items, k: nat, status: ItemStatus) {
    forall j: nat | j < k :: !Is(items, j, status)
  }

  lemma {:induction false} FirstMeaning(items: Items, status: ItemStatus)
    ensures First(items, status).None? ==> NoneIs(items, status)
    ensures First(items, status).Some? ==>
              Is(items, First(items, status).value, status) && NoneBefore(items, First(items, status).value, status)
  {
    if items != [] && items[0].status != status {
      FirstMeaning(items[1..], status);
      forall k: nat | Is(items, k, status)
        ensures k > 0 && Is(items[1..], k - 1, status)
      {
      }
    }
  }

  lemma FirstIs(items: Items, status: ItemStatus, k: nat)
    requires Is(items, k, status) && NoneBefore(items, k, status)
    ensures First(items, status) == Some(k)
  {
    hide First;
    FirstMeaning(items, status);
  }

  lemma FirstIsNone(items: Items, status: ItemStatus)
    requires NoneIs(items, status)
    ensures First(items, status) == None
  {
    hide First;
    FirstMeaning(items, status);
  }

  method Find(items: Items, status: ItemStatus) returns (r: Option<nat>)
    ensures r == First(items, status)
    ensures r.Some? ==> Is(items, r.value, status)
  {
    hide First;
    for i := 0 to |items|
      invariant NoneBefore(items, i, status)
    {
      if items[i].status == status {
        FirstIs(items, status, i);
        return Some(i);
      }
    }
    FirstIsNone(items, status);
    return None;
  }

  ghost function CancelItem(item: PlanItem): PlanItem {
    if item.Open() then item.(status := ItemStatus.Cancelled) else item
  }

  ghost function CancelItems(items: Items): (r: Items) {
    seq(|items|, k requires 0 <= k < |items| => CancelItem(items[k]))
  }

  method CancelOpenItems(items: Items) returns (r: Items)
    ensures r == CancelItems(items)
  {
    r := items;
    for i := 0 to |r|
      invariant |r| == |items|
      invariant forall k | 0 <= k < |r| :: r[k] == if k < i then CancelItem(items[k]) else items[k]
    {
      if r[i].Open() {
        r := SetStatus(r, i, ItemStatus.Cancelled);
      }
    }
  }

  // Starting a run.

  ghost predicate DistinctIds(items: Items) {
    forall i, j | 0 <= i < j < |items| :: items[i].id != items[j].id
  }

  method ValidateItems(items: Items) returns (r: Option<ContractError>)
    ensures r.None? <==> |items| <= 100 && DistinctIds(items)
    ensures r == Some(TooManyItems) <==> |items| > 100
  {
    if |items| > MAX_ITEMS {
      return Some(TooManyItems);
    }
    var ids: set<string> := {};
    for i := 0 to |items|
      invariant DistinctIds(items[..i])
      invariant forall id :: id in ids <==> exists j | 0 <= j < i :: items[j].id == id
    {
      if items[i].id in ids {
        return Some(RepeatedId);
      }
      ids := ids + {items[i].id};
    }
    assert items[..|items|] == items;
    return None;
  }

  ghost function Started(items: Items): RunState {
    var pending := First(items, Pending);
    if pending.Some? then
      FirstMeaning(items, Pending);
      RunState(Running, SetStatus(items, pending.value, InProgress), {})
    else RunState(if First(items, InProgress).Some? then Running else RunStatus.Completed, items, {})
  }

  method New(items: Items) returns (r: Result<RunState, ContractError>)
    ensures r.Success? <==> |items| <= 100 && DistinctIds(items)
    ensures r == Failure(TooManyItems) <==> |items| > 100
    ensures r.Success? ==> r.value == Started(items)
  {
    hide First;
    var error := ValidateItems(items);
    if error.Some? {
      return Failure(error.value);
    }
    var pending := Find(items, Pending);
    if pending.Some? {
      return Success(RunState(Running, SetStatus(items, pending.value, InProgress), {}));
    }
    var current := Find(items, InProgress);
    return Success(RunState(if current.Some? then Running else RunStatus.Completed, items, {}));
  }

  function Waiting(items: Items): RunState {
    RunState(WaitingApproval, items, {})
  }

  method NewWaiting(items: Items) returns (r: Result<RunState, ContractError>)
    ensures r.Success? <==> |items| <= 100 && DistinctIds(items)
    ensures r == Failure(TooManyItems) <==> |items| > 100
    ensures r.Success? ==> r.value == Waiting(items)
  {
    var error := ValidateItems(items);
    return if error.Some? then Failure(error.value) else Success(Waiting(items));
  }

  // Controls.

  predicate SameLogin(a: string, b: string) {
    b != "" && Lower(a) == Lower(b)
  }

  predicate IsAuthorized(actor: string, author: string, maintainers: seq<string>) {
    actor != "" && (SameLogin(actor, author) || exists i | 0 <= i < |maintainers| :: SameLogin(actor, maintainers[i]))
  }

  ghost function Approved(s: RunState): Result<RunState, ControlError> {
    var next := First(s.items, Pending);
    if s.status != WaitingApproval then Failure(ApprovalNotApplicable)
    else if next.None? then Failure(RunNotActive)
    else
      FirstMeaning(s.items, Pending);
      Success(RunState(Running, SetStatus(s.items, next.value, InProgress), s.applied))
  }

  ghost function SkipTarget(status: RunStatus): ItemStatus {
    if status == WaitingApproval then Pending else InProgress
  }

  ghost function SkippedItem(s: RunState): Result<RunState, ControlError> {
    var current := First(s.items, SkipTarget(s.status));
    if s.status != WaitingApproval && s.status != Running then Failure(RunNotActive)
    else if current.None? then Failure(NoCurrentItem)
    else
      FirstMeaning(s.items, SkipTarget(s.status));
      var items := SetStatus(s.items, current.value, Skipped);
      var next := First(items, Pending);
      FirstMeaning(items, Pending);
      Success(
        if next.None? then RunState(RunStatus.Completed, items, s.applied)
        else if s.status == Running then RunState(Running, SetStatus(items, next.value, InProgress), s.applied)
        else RunState(s.status, items, s.applied))
  }

  ghost function CancelledRun(s: RunState): Result<RunState, ControlError> {
    if s.status != WaitingApproval && s.status != Running then Failure(RunNotActive)
    else Success(RunState(RunStatus.Cancelled, CancelItems(s.items), s.applied))
  }

  ghost function Applied(s: RunState, call: Call): Result<RunState, ControlError> {
    if !IsAuthorized(call.actor, call.author, call.maintainers) then Failure(Unauthorized)
    else if call.requestId in s.applied then Failure(DuplicateAction)
    else
      var r := match call.action
               case ApprovePlan => Approved(s)
               case SkipCurrentItem => SkippedItem(s)
               case CancelRun => CancelledRun(s);
      if r.Failure? then r else Success(r.value.(applied := s.applied + {call.requestId}))
  }

  method ApplyControl(s: RunState, call: Call) returns (r: Result<RunState, ControlError>)
    ensures r == Applied(s, call)
  {
    hide First, CancelItems, IsAuthorized;
    if !IsAuthorized(call.actor, call.author, call.maintainers) {
      return Failure(Unauthorized);
    }
    if call.requestId in s.applied {
      return Failure(DuplicateAction);
    }
    var status, items := s.status, s.items;
    match call.action {
      case ApprovePlan =>
        if status != WaitingApproval {
          return Failure(ApprovalNotApplicable);
        }
        var next := Find(items, Pending);
        if next.None? {
          return Failure(RunNotActive);
        }
        items := SetStatus(items, next.value, InProgress);
        status := Running;
      case SkipCurrentItem =>
        var waiting := status == WaitingApproval;
        if !waiting && status != Running {
          return Failure(RunNotActive);
        }
        var current := Find(items, if waiting then Pending else InProgress);
        if current.None? {
          return Failure(NoCurrentItem);
        }
        items := SetStatus(items, current.value, Skipped);
        var next := Find(items, Pending);
        if next.Some? {
          if !waiting {
            items := SetStatus(items, next.value, InProgress);
          }
        } else {
          status := RunStatus.Completed;
        }
      case CancelRun =>
        if status != WaitingApproval && status != Running {
          return Failure(RunNotActive);
        }
        items := CancelOpenItems(items);
        status := RunStatus.Cancelled;
    }
    return Success(RunState(status, items, s.applied + {call.requestId}));
  }
}
