/** What a control request does to a run. */
module ControlRules {
  import opened Basics
  import opened Text
  import opened TextFacts
  import opened Controls

  // Who may.

  /** The two texts differ at most in the case of the letters a to z. */
  ghost predicate EqualButCase(a: string, b: string) {
    |a| == |b| && forall i | 0 <= i < |a| :: EqualLetter(a[i], b[i])
  }

  ghost predicate EqualLetter(c: char, d: char) {
    c == d || exists k | 0 <= k < 26 :: {c, d} == {LARGE[k], SMALL[k]}
  }

  /** Somebody named, who is the author or one of the maintainers. */
  ghost predicate MayControl(actor: string, author: string, maintainers: seq<string>) {
    actor != "" && (EqualButCase(actor, author) || exists m :: m in maintainers && EqualButCase(actor, m))
  }

  /** The same letter, c as the large one and d as the small one. */
  ghost predicate IsPair(c: char, d: char) {
    'A' <= c <= 'Z' && d as int == c as int + 32
  }

  lemma LowerLetter(c: char, d: char)
    ensures LowerChar(c) == LowerChar(d) <==> EqualLetter(c, d)
  {
    hide EqualLetter;
    EqualLetterIs(c, d);
  }

  lemma EqualLetterIs(c: char, d: char)
    ensures EqualLetter(c, d) <==> c == d || IsPair(c, d) || IsPair(d, c)
  {
    hide IsPair;
    PairIs(c, d);
    PairIs(d, c);
    forall k | 0 <= k < 26
      ensures {c, d} == {LARGE[k], SMALL[k]} <==> (c == LARGE[k] && d == SMALL[k]) || (d == LARGE[k] && c == SMALL[k])
    {
      SameTwo(c, d, LARGE[k], SMALL[k]);
    }
  }

  lemma SameTwo(a: char, b: char, x: char, y: char)
    ensures {a, b} == {x, y} <==> (a == x && b == y) || (b == x && a == y)
  {
    if {a, b} == {x, y} {
      assert a in {x, y} && b in {x, y} && x in {a, b} && y in {a, b};
    }
  }

  lemma PairIs(c: char, d: char)
    ensures IsPair(c, d) <==> exists k | 0 <= k < 26 :: c == LARGE[k] && d == SMALL[k]
  {
    Letters();
    if IsPair(c, d) {
      var k := c as int - 65;
      assert c == LARGE[k] && d == SMALL[k];
    }
  }

  lemma Letters()
    ensures forall k | 0 <= k < 26 :: LARGE[k] as int == 65 + k && SMALL[k] as int == 97 + k
  {
  }

  lemma LowerEqual(a: string, b: string)
    ensures Lower(a) == Lower(b) <==> EqualButCase(a, b)
  {
    hide LowerChar, EqualLetter;
    forall i | 0 <= i < |a| && i < |b|
      ensures Lower(a)[i] == Lower(b)[i] <==> EqualLetter(a[i], b[i])
    {
      LowerLetter(a[i], b[i]);
    }
  }

  lemma AuthorizedIs(actor: string, author: string, maintainers: seq<string>)
    ensures IsAuthorized(actor, author, maintainers) <==> MayControl(actor, author, maintainers)
  {
    hide Lower, EqualButCase;
    forall b
      ensures Lower(actor) == Lower(b) <==> EqualButCase(actor, b)
      ensures EqualButCase(actor, b) && b == "" ==> actor == ""
    {
      LowerEqual(actor, b);
      NamedOnly(actor, b);
    }
  }

  lemma NamedOnly(a: string, b: string)
    ensures EqualButCase(a, b) ==> |a| == |b|
  {
  }

  // What a request does.

  /** The first of the items with this status. */
  ghost predicate IsFirst(items: Items, status: ItemStatus, k: nat) {
    k < |items| && items[k].status == status && forall j | 0 <= j < k :: items[j].status != status
  }

  ghost predicate NoItem(items: Items, status: ItemStatus) {
    forall j | 0 <= j < |items| :: items[j].status != status
  }

  /** All as it was, but for the status of item k. */
  ghost predicate Changed(a: Items, k: nat, status: ItemStatus, b: Items) {
    && k < |a| == |b| && b[k] == PlanItem(a[k].id, a[k].summary, status)
    && forall j | 0 <= j < |a| && j != k :: b[j] == a[j]
  }

  /** Approving starts the first pending item. */
  ghost predicate IsApproved(s: RunState, t: RunState) {
    && s.status == WaitingApproval && t.status == RunStatus.Running
    && exists k: nat :: IsFirst(s.items, Pending, k) && Changed(s.items, k, InProgress, t.items)
  }

  /** Skipping ends the current item, which is the first pending one while the run waits, and goes on with the next, or ends the run. */
  ghost predicate IsSkipped(s: RunState, t: RunState) {
    exists k: nat, between: Items ::
      && ((s.status == WaitingApproval && IsFirst(s.items, Pending, k)) || (s.status == RunStatus.Running && IsFirst(s.items, InProgress, k)))
      && Changed(s.items, k, Skipped, between)
      && (if NoItem(between, Pending) then t.status == RunStatus.Completed && t.items == between
          else if s.status == WaitingApproval then t.status == WaitingApproval && t.items == between
          else t.status == RunStatus.Running && exists n: nat :: IsFirst(between, Pending, n) && Changed(between, n, InProgress, t.items))
  }

  /** Cancelling cancels what is pending or in progress, and nothing else. */
  ghost predicate IsCancelled(s: RunState, t: RunState) {
    && (s.status == WaitingApproval || s.status == RunStatus.Running) && t.status == RunStatus.Cancelled && |t.items| == |s.items|
    && forall k | 0 <= k < |s.items| ::
         t.items[k] == if s.items[k].status == Pending || s.items[k].status == InProgress
                       then PlanItem(s.items[k].id, s.items[k].summary, ItemStatus.Cancelled) else s.items[k]
  }

  ghost predicate Does(s: RunState, action: Action, t: RunState) {
    match action
    case ApprovePlan => IsApproved(s, t)
    case SkipCurrentItem => IsSkipped(s, t)
    case CancelRun => IsCancelled(s, t)
  }

  /** What is wrong with a request that is refused. */
  ghost predicate Refuses(s: RunState, call: Call, error: ControlError) {
    var active := s.status == WaitingApproval || s.status == RunStatus.Running;
    if !MayControl(call.actor, call.author, call.maintainers) then error == Unauthorized
    else if call.requestId in s.applied then error == DuplicateAction
    else match call.action
      case ApprovePlan =>
        if s.status != WaitingApproval then error == ApprovalNotApplicable
        else NoItem(s.items, Pending) && error == RunNotActive
      case SkipCurrentItem =>
        if !active then error == RunNotActive
        else NoItem(s.items, if s.status == WaitingApproval then Pending else InProgress) && error == NoCurrentItem
      case CancelRun => !active && error == RunNotActive
  }

  lemma FirstIsFirst(items: Items, status: ItemStatus)
    ensures First(items, status).None? ==> NoItem(items, status)
    ensures First(items, status).Some? ==> IsFirst(items, status, First(items, status).value)
  {
    hide First;
    FirstMeaning(items, status);
    if First(items, status).None? {
      forall j: nat | j < |items|
        ensures items[j].status != status
      {
        assert !Is(items, j, status);
      }
    } else {
      forall j: nat | j < First(items, status).value
        ensures items[j].status != status
      {
        assert !Is(items, j, status);
      }
    }
  }

  lemma ApprovedIs(s: RunState)
    ensures Approved(s).Success? ==> IsApproved(s, Approved(s).value) && Approved(s).value.applied == s.applied
    ensures Approved(s).Failure? ==>
              if s.status != WaitingApproval then Approved(s).error == ApprovalNotApplicable
              else NoItem(s.items, Pending) && Approved(s).error == RunNotActive
  {
    hide First, IsFirst, NoItem, Changed;
    FirstIsFirst(s.items, Pending);
    if Approved(s).Success? {
      FirstInside(s.items, Pending);
      StatusChanged(s.items, First(s.items, Pending).value, InProgress);
    }
  }

  lemma SkippedIs(s: RunState)
    ensures SkippedItem(s).Success? ==> IsSkipped(s, SkippedItem(s).value) && SkippedItem(s).value.applied == s.applied
    ensures SkippedItem(s).Failure? ==>
              if s.status != WaitingApproval && s.status != RunStatus.Running then SkippedItem(s).error == RunNotActive
              else NoItem(s.items, if s.status == WaitingApproval then Pending else InProgress) && SkippedItem(s).error == NoCurrentItem
  {
    hide First, IsFirst, NoItem, Changed;
    var target := SkipTarget(s.status);
    FirstIsFirst(s.items, target);
    if SkippedItem(s).Success? {
      var k := First(s.items, target).value;
      FirstInside(s.items, target);
      var between := SetStatus(s.items, k, Skipped);
      StatusChanged(s.items, k, Skipped);
      FirstIsFirst(between, Pending);
      if First(between, Pending).Some? {
        FirstNotNone(between, Pending);
        FirstInside(between, Pending);
        StatusChanged(between, First(between, Pending).value, InProgress);
      }
      assert Changed(s.items, k, Skipped, between);
    }
  }

  lemma FirstInside(items: Items, status: ItemStatus)
    requires First(items, status).Some?
    ensures First(items, status).value < |items|
  {
    hide First;
    FirstMeaning(items, status);
  }

  lemma FirstNotNone(items: Items, status: ItemStatus)
    requires First(items, status).Some?
    ensures !NoItem(items, status)
  {
    hide First;
    FirstMeaning(items, status);
  }

  lemma StatusChanged(items: Items, k: nat, status: ItemStatus)
    requires k < |items|
    ensures Changed(items, k, status, SetStatus(items, k, status))
  {
  }

  lemma CancelledIs(s: RunState)
    ensures CancelledRun(s).Success? ==> IsCancelled(s, CancelledRun(s).value) && CancelledRun(s).value.applied == s.applied
    ensures CancelledRun(s).Failure? ==>
              s.status != WaitingApproval && s.status != RunStatus.Running && CancelledRun(s).error == RunNotActive
  {
  }

  /** Every request is refused for the reason that holds, or does what it asks for and is remembered. */
  lemma ControlDoes(s: RunState, call: Call)
    ensures var r := Applied(s, call);
            if r.Failure? then Refuses(s, call, r.error)
            else
              && MayControl(call.actor, call.author, call.maintainers) && call.requestId !in s.applied
              && Does(s, call.action, r.value) && r.value.applied == s.applied + {call.requestId}
  {
    hide IsAuthorized, MayControl, Approved, SkippedItem, CancelledRun, IsApproved, IsSkipped, IsCancelled, NoItem;
    AuthorizedIs(call.actor, call.author, call.maintainers);
    ApprovedIs(s);
    SkippedIs(s);
    CancelledIs(s);
    var done := match call.action
                case ApprovePlan => Approved(s)
                case SkipCurrentItem => SkippedItem(s)
                case CancelRun => CancelledRun(s);
    if done.Success? {
      SameButIds(s, call.action, done.value, s.applied + {call.requestId});
    }
  }

  lemma SameButIds(s: RunState, action: Action, t: RunState, applied: set<string>)
    requires Does(s, action, t)
    ensures Does(s, action, t.(applied := applied))
  {
    hide IsFirst, NoItem, Changed;
  }

  // How a run begins.

  /** A run starts with its first pending item; without one it goes on when an item is in progress, and is complete otherwise. */
  lemma StartDoes(items: Items)
    ensures var s := Started(items);
            && s.applied == {}
            && (if !NoItem(items, Pending) then
                  s.status == RunStatus.Running && exists k: nat :: IsFirst(items, Pending, k) && Changed(items, k, InProgress, s.items)
                else
                  s.items == items && s.status == if NoItem(items, InProgress) then RunStatus.Completed else RunStatus.Running)
  {
    hide First, IsFirst, NoItem, Changed;
    FirstIsFirst(items, Pending);
    FirstIsFirst(items, InProgress);
    if First(items, Pending).Some? {
      FirstInside(items, Pending);
      FirstNotNone(items, Pending);
      StatusChanged(items, First(items, Pending).value, InProgress);
    }
    if First(items, InProgress).Some? {
      FirstNotNone(items, InProgress);
    }
  }
}
