/** What every sequence of controls keeps. */
module ControlRuns {
  import opened Basics
  import opened Controls
  import ControlRules

  // The invariant.

  /** One item is in progress, and everything pending comes after it. */
  ghost predicate IsCurrent(items: Items, c: nat) {
    && Is(items, c, InProgress)
    && (forall k: nat | Is(items, k, InProgress) :: k == c)
    && forall k: nat | Is(items, k, Pending) :: c < k
  }

  ghost predicate Good(s: RunState) {
    match s.status
    case Running => exists c: nat :: IsCurrent(s.items, c)
    case WaitingApproval => NoneIs(s.items, InProgress)
    case Completed => NoneIs(s.items, Pending) && NoneIs(s.items, InProgress)
    case Cancelled => NoneIs(s.items, Pending) && NoneIs(s.items, InProgress)
  }

  lemma SetStatusIs(items: Items, k: nat, status: ItemStatus, j: nat, other: ItemStatus)
    requires k < |items|
    ensures Is(SetStatus(items, k, status), j, other) <==> if j == k then status == other else Is(items, j, other)
  {
  }

  /** Moving on from an item that is no longer open: the first pending item becomes the current one. */
  lemma MoveOn(items: Items)
    requires NoneIs(items, InProgress) && First(items, Pending).Some?
    ensures First(items, Pending).value < |items|
    ensures IsCurrent(SetStatus(items, First(items, Pending).value, InProgress), First(items, Pending).value)
  {
    hide First;
    FirstMeaning(items, Pending);
    var c := First(items, Pending).value;
    forall k: nat, status
      ensures Is(SetStatus(items, c, InProgress), k, status) <==> if k == c then status == InProgress else Is(items, k, status)
    {
      SetStatusIs(items, c, InProgress, k, status);
    }
  }

  lemma CurrentIsFirst(items: Items, c: nat)
    requires IsCurrent(items, c)
    ensures First(items, InProgress) == Some(c)
  {
    FirstIs(items, InProgress, c);
  }

  /** Skipping the current item leaves none in progress. */
  lemma SkipCurrent(items: Items, c: nat)
    requires IsCurrent(items, c)
    ensures c < |items| && NoneIs(SetStatus(items, c, Skipped), InProgress)
    ensures forall k: nat | Is(SetStatus(items, c, Skipped), k, Pending) :: c < k
  {
    forall k: nat, status
      ensures Is(SetStatus(items, c, Skipped), k, status) <==> if k == c then status == Skipped else Is(items, k, status)
    {
      SetStatusIs(items, c, Skipped, k, status);
    }
  }

  lemma CancelLeavesNone(items: Items)
    ensures NoneIs(CancelItems(items), Pending) && NoneIs(CancelItems(items), InProgress)
  {
  }

  lemma ApproveKeepsGood(s: RunState)
    requires Good(s) && Approved(s).Success?
    ensures Good(Approved(s).value)
  {
    hide First, IsCurrent;
    MoveOn(s.items);
  }

  lemma SkipKeepsGood(s: RunState)
    requires Good(s) && SkippedItem(s).Success?
    ensures Good(SkippedItem(s).value)
  {
    hide First, IsCurrent, NoneIs;
    if s.status == Running {
      var c: nat :| IsCurrent(s.items, c);
      CurrentIsFirst(s.items, c);
      SkipCurrent(s.items, c);
      var items := SetStatus(s.items, c, Skipped);
      FirstMeaning(items, Pending);
      if First(items, Pending).Some? {
        MoveOn(items);
      }
    } else {
      SkipWhileWaiting(s.items);
      var k := First(s.items, Pending).value;
      FirstMeaning(SetStatus(s.items, k, Skipped), Pending);
    }
  }

  lemma SkipWhileWaiting(items: Items)
    requires NoneIs(items, InProgress) && First(items, Pending).Some?
    ensures First(items, Pending).value < |items|
    ensures NoneIs(SetStatus(items, First(items, Pending).value, Skipped), InProgress)
  {
    hide First;
    FirstMeaning(items, Pending);
    var c := First(items, Pending).value;
    forall k: nat
      ensures !Is(SetStatus(items, c, Skipped), k, InProgress)
    {
      SetStatusIs(items, c, Skipped, k, InProgress);
    }
  }

  lemma StepKeepsGood(s: RunState, call: Call)
    requires Good(s) && Applied(s, call).Success?
    ensures Good(Applied(s, call).value)
  {
    hide First, IsCurrent, NoneIs, IsAuthorized, SkippedItem, Approved, CancelItems;
    match call.action {
      case ApprovePlan => ApproveKeepsGood(s); SameBesideIds(Approved(s).value, Applied(s, call).value);
      case SkipCurrentItem => SkipKeepsGood(s); SameBesideIds(SkippedItem(s).value, Applied(s, call).value);
      case CancelRun => CancelLeavesNone(s.items);
    }
  }

  lemma SameBesideIds(s: RunState, t: RunState)
    requires Good(s) && t.status == s.status && t.items == s.items
    ensures Good(t)
  {
  }

  // Runs: rejected calls leave the state alone.

  ghost function Next(s: RunState, call: Call): RunState {
    var r := Applied(s, call);
    if r.Success? then r.value else s
  }

  ghost function After(s: RunState, calls: seq<Call>): RunState {
    if calls == [] then s else Next(After(s, calls[..|calls| - 1]), calls[|calls| - 1])
  }

  /** The number of accepted calls. */
  ghost function Accepted(s: RunState, calls: seq<Call>): nat {
    if calls == [] then 0
    else
      var before := calls[..|calls| - 1];
      Accepted(s, before) + if Applied(After(s, before), calls[|calls| - 1]).Success? then 1 else 0
  }

  lemma {:induction false} RunKeepsGood(s: RunState, calls: seq<Call>)
    requires Good(s)
    ensures Good(After(s, calls))
  {
    hide Good, Applied;
    if calls != [] {
      var before := After(s, calls[..|calls| - 1]);
      RunKeepsGood(s, calls[..|calls| - 1]);
      if Applied(before, calls[|calls| - 1]).Success? {
        StepKeepsGood(before, calls[|calls| - 1]);
      }
    }
  }

  // Where runs start.

  ghost predicate AtMostOneIs(items: Items, status: ItemStatus) {
    forall j: nat, k: nat | Is(items, j, status) && Is(items, k, status) :: j == k
  }

  /** A new run is in order exactly when nothing was in progress, or one item was and none pending. */
  lemma StartIsGood(items: Items)
    ensures Good(Started(items)) <==>
              NoneIs(items, InProgress) || (NoneIs(items, Pending) && AtMostOneIs(items, InProgress))
  {
    hide First;
    FirstMeaning(items, Pending);
    FirstMeaning(items, InProgress);
    if First(items, Pending).Some? {
      if NoneIs(items, InProgress) {
        MoveOn(items);
      } else {
        TwoCurrent(items, First(items, Pending).value, First(items, InProgress).value);
      }
    } else if First(items, InProgress).Some? {
      OneCurrent(items, First(items, InProgress).value);
    }
  }

  lemma TwoCurrent(items: Items, p: nat, c: nat)
    requires Is(items, p, Pending) && Is(items, c, InProgress)
    ensures forall d: nat :: !IsCurrent(SetStatus(items, p, InProgress), d)
  {
    SetStatusIs(items, p, InProgress, p, InProgress);
    SetStatusIs(items, p, InProgress, c, InProgress);
  }

  lemma OneCurrent(items: Items, c: nat)
    requires Is(items, c, InProgress) && NoneIs(items, Pending)
    ensures (exists d: nat :: IsCurrent(items, d)) <==> AtMostOneIs(items, InProgress)
  {
    if AtMostOneIs(items, InProgress) {
      assert IsCurrent(items, c);
    }
  }

  lemma WaitingIsGood(items: Items)
    ensures Good(Waiting(items)) <==> NoneIs(items, InProgress)
  {
  }

  /** The constructor accepts items it does not bring in order. */
  lemma StartWithOneInProgress()
    ensures var items := [PlanItem("a", "first", Pending), PlanItem("b", "second", InProgress)];
            DistinctIds(items) && !Good(Started(items))
  {
    var items := [PlanItem("a", "first", Pending), PlanItem("b", "second", InProgress)];
    assert items[0].id[0] != items[1].id[0];
    assert Is(items, 0, Pending) && Is(items, 1, InProgress);
    StartIsGood(items);
  }

  // When a call is accepted.

  lemma AcceptedWhen(s: RunState, call: Call)
    requires Good(s)
    ensures Applied(s, call).Success? <==>
              && ControlRules.MayControl(call.actor, call.author, call.maintainers) && call.requestId !in s.applied
              && match call.action
                 case ApprovePlan => s.status == WaitingApproval && !NoneIs(s.items, Pending)
                 case SkipCurrentItem => s.status == Running || (s.status == WaitingApproval && !NoneIs(s.items, Pending))
                 case CancelRun => s.status == WaitingApproval || s.status == Running
  {
    hide First, IsAuthorized, CancelItems, ControlRules.MayControl;
    ControlRules.AuthorizedIs(call.actor, call.author, call.maintainers);
    FirstMeaning(s.items, Pending);
    if s.status == Running {
      var c: nat :| IsCurrent(s.items, c);
      CurrentIsFirst(s.items, c);
    }
  }

  /** The first item still open. */
  ghost predicate IsFirstOpen(items: Items, k: nat) {
    k < |items| && items[k].Open() && forall j | 0 <= j < k :: !items[j].Open()
  }

  lemma FirstOpenIs(s: RunState, k: nat)
    requires Good(s) && (s.status == WaitingApproval || s.status == Running)
    requires First(s.items, SkipTarget(s.status)) == Some(k)
    ensures IsFirstOpen(s.items, k)
  {
    FirstMeaning(s.items, SkipTarget(s.status));
    hide First;
    forall j | 0 <= j < k
      ensures !s.items[j].Open()
    {
      assert !Is(s.items, j, SkipTarget(s.status));
      assert Is(s.items, j, s.items[j].status);
    }
  }

  /** An approval starts the first open item and touches no other. */
  lemma ApproveStartsFirst(s: RunState, k: nat)
    requires Good(s) && Approved(s).Success? && IsFirstOpen(s.items, k)
    ensures Approved(s).value.items == SetStatus(s.items, k, InProgress)
  {
    hide First;
    FirstMeaning(s.items, Pending);
    FirstOpenIs(s, First(s.items, Pending).value);
  }

  /** A skip takes the first open item; in a running plan the next open one, if any, is started. */
  lemma SkipTakesFirst(s: RunState, k: nat)
    requires Good(s) && SkippedItem(s).Success? && IsFirstOpen(s.items, k)
    ensures var items := SetStatus(s.items, k, Skipped);
            var after := SkippedItem(s).value;
            && (s.status == WaitingApproval || (forall j: nat :: !IsFirstOpen(items, j)) ==> after.items == items)
            && forall j: nat | s.status == Running && IsFirstOpen(items, j) :: after.items == SetStatus(items, j, InProgress)
  {
    hide First;
    FirstMeaning(s.items, SkipTarget(s.status));
    FirstOpenIs(s, First(s.items, SkipTarget(s.status)).value);
    var items := SetStatus(s.items, k, Skipped);
    FirstMeaning(items, Pending);
    if s.status == Running {
      var c: nat :| IsCurrent(s.items, c);
      SkipCurrent(s.items, c);
      CurrentIsFirst(s.items, c);
      if First(items, Pending).Some? {
        FirstOpenIs(RunState(WaitingApproval, items, {}), First(items, Pending).value);
      } else {
        NoneOpen(items);
      }
    }
  }

  lemma NoneOpen(items: Items)
    requires NoneIs(items, Pending) && NoneIs(items, InProgress)
    ensures forall j: nat :: !IsFirstOpen(items, j)
  {
    forall j: nat | j < |items|
      ensures !items[j].Open()
    {
      assert !Is(items, j, Pending) && !Is(items, j, InProgress);
    }
  }

  /** Each request counts once: an accepted one is remembered and refused from then on. */
  lemma {:induction false} RequestsCountOnce(s: RunState, calls: seq<Call>)
    ensures s.applied <= After(s, calls).applied
    ensures |After(s, calls).applied| == |s.applied| + Accepted(s, calls)
  {
    hide First, IsAuthorized, SkippedItem, Approved, CancelledRun;
    if calls != [] {
      RequestsCountOnce(s, calls[..|calls| - 1]);
    }
  }

  // Nothing starts before it is approved.

  /** Some approval is accepted on the way. */
  ghost predicate SomeApproved(s: RunState, calls: seq<Call>) {
    exists i | 0 <= i < |calls| :: calls[i].action == ApprovePlan && Applied(After(s, calls[..i]), calls[i]).Success?
  }

  lemma SkipKeepsWaiting(s: RunState)
    requires SkippedItem(s).Success? && s.status != Running
    ensures SkippedItem(s).value.status != Running
  {
    hide First;
  }

  /** Without an accepted approval a waiting run has nothing in progress. */
  lemma {:induction false} NothingStartsUnapproved(s: RunState, calls: seq<Call>)
    requires Good(s) && s.status == WaitingApproval && !SomeApproved(s, calls)
    ensures After(s, calls).status != Running && NoneIs(After(s, calls).items, InProgress)
  {
    hide First, IsAuthorized, SkippedItem, Approved, NoneIs, IsCurrent, CancelItems;
    RunKeepsGood(s, calls);
    if calls != [] {
      var n := |calls| - 1;
      var before := After(s, calls[..n]);
      forall i | 0 <= i < n
        ensures !(calls[..n][i].action == ApprovePlan && Applied(After(s, calls[..n][..i]), calls[..n][i]).Success?)
      {
        assert calls[..n][..i] == calls[..i];
      }
      NothingStartsUnapproved(s, calls[..n]);
      if SkippedItem(before).Success? {
        SkipKeepsWaiting(before);
      }
    }
  }

  // At most one accepted call an item, and one for the run.

  ghost function OpenCount(items: Items): nat {
    if items == [] then 0 else OpenCount(items[..|items| - 1]) + if items[|items| - 1].Open() then 1 else 0
  }

  ghost function Potential(s: RunState): nat {
    match s.status
    case WaitingApproval => OpenCount(s.items) + 1
    case Running => OpenCount(s.items)
    case Completed => 0
    case Cancelled => 0
  }

  lemma {:induction false} OpenCountBound(items: Items)
    ensures OpenCount(items) <= |items|
  {
    if items != [] {
      OpenCountBound(items[..|items| - 1]);
    }
  }

  lemma {:induction false} SomeOpen(items: Items, k: nat)
    requires k < |items| && items[k].Open()
    ensures OpenCount(items) > 0
  {
    if k < |items| - 1 {
      SomeOpen(items[..|items| - 1], k);
    }
  }

  lemma {:induction false} SetStatusCount(items: Items, k: nat, status: ItemStatus)
    requires k < |items| && items[k].Open()
    ensures OpenCount(SetStatus(items, k, status)) == OpenCount(items) - if status in {Pending, InProgress} then 0 else 1
  {
    var n := |items| - 1;
    if k < n {
      SetStatusCount(items[..n], k, status);
      assert SetStatus(items, k, status)[..n] == SetStatus(items[..n], k, status);
    } else {
      assert SetStatus(items, k, status)[..n] == items[..n];
    }
  }

  lemma StepCosts(s: RunState, call: Call)
    requires Good(s) && Applied(s, call).Success?
    ensures Potential(Applied(s, call).value) < Potential(s)
  {
    hide First, IsAuthorized, OpenCount, SkippedItem, Approved, CancelItems;
    match call.action {
      case ApprovePlan => ApproveCosts(s);
      case SkipCurrentItem => SkipCosts(s);
      case CancelRun =>
        if s.status == Running {
          RunningIsOpen(s);
        }
    }
  }

  lemma RunningIsOpen(s: RunState)
    requires Good(s) && s.status == Running
    ensures OpenCount(s.items) > 0
  {
    hide OpenCount;
    var c: nat :| IsCurrent(s.items, c);
    SomeOpen(s.items, c);
  }

  lemma ApproveCosts(s: RunState)
    requires Approved(s).Success?
    ensures Potential(Approved(s).value) < Potential(s)
  {
    hide First, OpenCount;
    FirstMeaning(s.items, Pending);
    SetStatusCount(s.items, First(s.items, Pending).value, InProgress);
  }

  lemma SkipCosts(s: RunState)
    requires SkippedItem(s).Success?
    ensures Potential(SkippedItem(s).value) < Potential(s)
  {
    hide First, OpenCount;
    FirstMeaning(s.items, SkipTarget(s.status));
    var k := First(s.items, SkipTarget(s.status)).value;
    SetStatusCount(s.items, k, Skipped);
    var items := SetStatus(s.items, k, Skipped);
    FirstMeaning(items, Pending);
    if First(items, Pending).Some? {
      SetStatusCount(items, First(items, Pending).value, InProgress);
    }
  }

  lemma {:induction false} AcceptedCosts(s: RunState, calls: seq<Call>)
    requires Good(s)
    ensures Accepted(s, calls) + Potential(After(s, calls)) <= Potential(s)
  {
    hide Good, Applied, Potential;
    if calls != [] {
      var n := |calls| - 1;
      AcceptedCosts(s, calls[..n]);
      RunKeepsGood(s, calls[..n]);
      if Applied(After(s, calls[..n]), calls[n]).Success? {
        StepCosts(After(s, calls[..n]), calls[n]);
      }
    }
  }

  /** A waiting plan of n items takes at most n + 1 controls ever, a running one at most n. */
  lemma AcceptedBound(items: Items, calls: seq<Call>)
    requires NoneIs(items, InProgress)
    ensures Accepted(Waiting(items), calls) <= |items| + 1
    ensures Accepted(Started(items), calls) <= |items|
  {
    hide First, Accepted, After, OpenCount, IsCurrent;
    WaitingIsGood(items);
    StartIsGood(items);
    AcceptedCosts(Waiting(items), calls);
    AcceptedCosts(Started(items), calls);
    OpenCountBound(items);
    FirstMeaning(items, Pending);
    OpenCountBound(Started(items).items);
  }

  // Items only move forward.

  /** Same plan; what was finished stays as it was, and no item goes back to pending. */
  ghost predicate Forward(a: Items, b: Items) {
    && |a| == |b|
    && forall k | 0 <= k < |a| ::
         b[k] == a[k].(status := b[k].status) && (b[k] == a[k] || (a[k].Open() && !b[k].status.Pending?))
  }

  lemma StepForward(s: RunState, call: Call)
    requires Applied(s, call).Success?
    ensures Forward(s.items, Applied(s, call).value.items)
  {
    hide First, IsAuthorized, SkippedItem, Approved;
    match call.action {
      case ApprovePlan => ApproveForward(s);
      case SkipCurrentItem => SkipForward(s);
      case CancelRun =>
    }
  }

  lemma ApproveForward(s: RunState)
    requires Approved(s).Success?
    ensures Forward(s.items, Approved(s).value.items)
  {
    hide First;
    FirstMeaning(s.items, Pending);
  }

  lemma SkipForward(s: RunState)
    requires SkippedItem(s).Success?
    ensures Forward(s.items, SkippedItem(s).value.items)
  {
    hide First;
    FirstMeaning(s.items, SkipTarget(s.status));
    FirstMeaning(SetStatus(s.items, First(s.items, SkipTarget(s.status)).value, Skipped), Pending);
  }

  lemma {:induction false} RunForward(s: RunState, calls: seq<Call>)
    ensures Forward(s.items, After(s, calls).items)
  {
    hide Applied;
    if calls != [] {
      var n := |calls| - 1;
      RunForward(s, calls[..n]);
      if Applied(After(s, calls[..n]), calls[n]).Success? {
        StepForward(After(s, calls[..n]), calls[n]);
      }
    }
  }

  /** The current item moves on in plan order: nothing open is left behind it. */
  lemma CurrentMovesOn(s: RunState, calls: seq<Call>, c: nat, d: nat)
    requires Good(s) && s.status == Running && After(s, calls).status == Running
    requires IsCurrent(s.items, c) && IsCurrent(After(s, calls).items, d)
    ensures c <= d
    ensures forall k | c <= k < d :: !After(s, calls).items[k].Open()
  {
    hide After;
    RunForward(s, calls);
    var items := After(s, calls).items;
    assert Is(items, d, InProgress);
    assert s.items[d].Open();
    assert Is(s.items, d, s.items[d].status);
    forall k | c <= k < d
      ensures !items[k].Open()
    {
      assert Is(items, k, items[k].status);
    }
  }

  /** A run that has ended accepts nothing more. */
  lemma {:induction false} EndedForGood(s: RunState, calls: seq<Call>)
    requires s.status == RunStatus.Completed || s.status == RunStatus.Cancelled
    ensures After(s, calls) == s && Accepted(s, calls) == 0
  {
    hide First, IsAuthorized;
    if calls != [] {
      EndedForGood(s, calls[..|calls| - 1]);
    }
  }
}
