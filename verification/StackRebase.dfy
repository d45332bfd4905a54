/** Whole runs of the stack executor (src/worker.rs). */
module StackRebase {
  import opened Basics
  import opened Ordering
  import opened ParentChains
  import opened StackPlanner
  import opened StackExecutor

  // The remote state with all updates written, and those on the way to it.

  ghost function FindUpdate(updates: seq<BaseUpdate>, number: int): Option<BaseUpdate> {
    if updates == [] then None
    else if updates[|updates| - 1].pullRequest == number then Some(updates[|updates| - 1])
    else FindUpdate(updates[..|updates| - 1], number)
  }

  ghost predicate OneEach(updates: seq<BaseUpdate>) {
    forall u, v | u in updates && v in updates && u.pullRequest == v.pullRequest :: u == v
  }

  lemma {:induction false} FindUpdateMeaning(updates: seq<BaseUpdate>, number: int)
    ensures FindUpdate(updates, number).Some? ==>
              FindUpdate(updates, number).value in updates && FindUpdate(updates, number).value.pullRequest == number
    ensures FindUpdate(updates, number).None? ==> forall u | u in updates :: u.pullRequest != number
  {
    if updates != [] {
      var front, last := updates[..|updates| - 1], updates[|updates| - 1];
      FindUpdateMeaning(front, number);
      assert updates == front + [last];
    }
  }

  lemma FindUpdateIs(updates: seq<BaseUpdate>, u: BaseUpdate)
    requires OneEach(updates) && u in updates
    ensures FindUpdate(updates, u.pullRequest) == Some(u)
  {
    hide FindUpdate;
    FindUpdateMeaning(updates, u.pullRequest);
  }

  ghost function Rewritten(updates: seq<BaseUpdate>, number: int, r: Remote): Remote {
    var u := FindUpdate(updates, number);
    if u.Some? then r.(base := Some(u.value.toBranch)) else r
  }

  /** Every update carried out. */
  ghost function AllWritten(updates: seq<BaseUpdate>, original: Remotes): Remotes {
    map n | n in original :: Rewritten(updates, n, original[n])
  }

  /** Some updates carried out, and nothing else changed. */
  ghost predicate Partial(updates: seq<BaseUpdate>, original: Remotes, now: Remotes) {
    now.Keys == original.Keys && forall n | n in original :: now[n] in {original[n], Rewritten(updates, n, original[n])}
  }

  /** The updates start from the bases found in the original state. */
  ghost predicate Starts(updates: seq<BaseUpdate>, original: Remotes) {
    forall u | u in updates ::
      u.fromBranch != u.toBranch && u.pullRequest in original && original[u.pullRequest].base == Some(u.fromBranch)
  }

  lemma {:induction false} WriteAllAt(prs: Remotes, updates: seq<BaseUpdate>, n: int)
    requires n in prs
    ensures n in WriteAll(prs, updates) && WriteAll(prs, updates)[n] == Rewritten(updates, n, prs[n])
  {
    WriteKeys(prs, updates);
    if updates != [] {
      WriteAllAt(prs, updates[..|updates| - 1], n);
      WriteKeys(prs, updates[..|updates| - 1]);
    }
  }

  lemma {:induction false} PendingMeaning(updates: seq<BaseUpdate>, prs: Remotes, u: BaseUpdate)
    ensures u in Pending(updates, prs) <==>
              u in updates && u.pullRequest in prs && prs[u.pullRequest].base == Some(u.fromBranch)
  {
    if updates != [] {
      var front, last := updates[..|updates| - 1], updates[|updates| - 1];
      PendingMeaning(front, prs, u);
      assert updates == front + [last];
    }
  }

  /** One pull request through the writing phase. */
  lemma WrittenAt(updates: seq<BaseUpdate>, original: Remotes, before: Remotes, some: seq<BaseUpdate>, n: int)
    requires OneEach(updates) && Starts(updates, original) && Partial(updates, original, before) && n in original
    requires forall u | u in some :: u in updates
    ensures Rewritten(some, n, before[n]) in {original[n], Rewritten(updates, n, original[n])}
  {
    hide FindUpdate, OneEach, Starts;
    FindUpdateMeaning(some, n);
    if FindUpdate(some, n).Some? {
      FindUpdateIs(updates, FindUpdate(some, n).value);
    }
  }

  lemma AllWrittenAt(updates: seq<BaseUpdate>, original: Remotes, before: Remotes, n: int)
    requires OneEach(updates) && Starts(updates, original) && Partial(updates, original, before) && n in original
    requires Classified(updates, before)
    ensures Rewritten(Pending(updates, before), n, before[n]) == Rewritten(updates, n, original[n])
  {
    hide FindUpdate, OneEach, Pending;
    var pending := Pending(updates, before);
    FindUpdateMeaning(pending, n);
    FindUpdateMeaning(updates, n);
    if FindUpdate(pending, n).Some? {
      PendingMeaning(updates, before, FindUpdate(pending, n).value);
      FindUpdateIs(updates, FindUpdate(pending, n).value);
    } else if FindUpdate(updates, n).Some? {
      PendingMeaning(updates, before, FindUpdate(updates, n).value);
    }
  }

  /** Writing pending updates up to any point stays on the way; writing them all arrives. */
  lemma WritingIsOnTheWay(updates: seq<BaseUpdate>, original: Remotes, before: Remotes, after: Remotes, all: bool)
    requires OneEach(updates) && Starts(updates, original) && Partial(updates, original, before)
    requires Classified(updates, before) && SomeWritten(before, Pending(updates, before), after, all)
    ensures Partial(updates, original, after)
    ensures all ==> after == AllWritten(updates, original)
  {
    hide OneEach, Starts, Classified, Rewritten, WriteAll, Pending;
    var pending := Pending(updates, before);
    var m: nat :| m <= |pending| && after == WriteAll(before, pending[..m]) && (all ==> m == |pending|);
    WriteKeys(before, pending[..m]);
    forall u | u in pending
      ensures u in updates
    {
      PendingMeaning(updates, before, u);
    }
    forall n | n in original
      ensures after[n] in {original[n], Rewritten(updates, n, original[n])}
      ensures all ==> after[n] == Rewritten(updates, n, original[n])
    {
      WriteAllAt(before, pending[..m], n);
      WrittenAt(updates, original, before, pending[..m], n);
      if all {
        assert pending[..m] == pending;
        AllWrittenAt(updates, original, before, n);
      }
    }
  }

  // The remote state a plan was made for.

  ghost predicate Matches(list: seq<PullRequest>, repository: string, original: Remotes) {
    forall pr | pr in list ::
      pr.number in original && original[pr.number] == Remote(true, false, Some(pr.base), Some(pr.head), Some(repository))
  }

  lemma CorrectionsAreSelection(list: seq<PullRequest>, updates: seq<BaseUpdate>)
    requires AreCorrections(list, updates)
    ensures IsSelection(updates, updates) && OneEach(updates)
  {
    hide IsCorrection;
    forall u, v | u in updates && v in updates && u.pullRequest == v.pullRequest
      ensures u == v
    {
      var i :| 0 <= i < |updates| && updates[i] == u;
      var j :| 0 <= j < |updates| && updates[j] == v;
    }
  }

  lemma MatchingStarts(list: seq<PullRequest>, updates: seq<BaseUpdate>, repository: string, original: Remotes)
    requires AreCorrections(list, updates) && Matches(list, repository, original)
    ensures Starts(updates, original)
  {
    forall u | u in updates
      ensures u.fromBranch != u.toBranch && u.pullRequest in original && original[u.pullRequest].base == Some(u.fromBranch)
    {
      assert IsCorrection(list, u);
    }
  }

  /** The pull request at a place of the merge order, and its base against its target. */
  lemma TargetCases(list: seq<PullRequest>, plan: StackPlan, i: nat)
    requires IsStack(list) && IsPlan(list, plan) && i < |plan.mergeOrder| && Covers(list, plan.mergeOrder)
    ensures var number := plan.mergeOrder[i];
            var pr := ByNumber(list)[number];
            && pr in list && pr.number == number
            && (pr.base == TargetOf(list, plan.mergeOrder, i)
                || BaseUpdate(number, pr.base, TargetOf(list, plan.mergeOrder, i)) in plan.baseUpdates)
    ensures forall u | u in plan.baseUpdates && u.pullRequest == plan.mergeOrder[i] ::
              u.toBranch == TargetOf(list, plan.mergeOrder, i)
  {
    hide ByNumber, WellDeclared, IsMergeOrder;
    var order := plan.mergeOrder;
    var pr := MemberOf(list, order, i);
    if i > 0 {
      var prev := MemberOf(list, order, i - 1);
      ParentBefore(list, order, i, prev, pr);
      if pr.base != prev.head && pr.explicitParent == Some(prev.number) {
        assert IsCorrection(list, BaseUpdate(pr.number, pr.base, prev.head));
      }
    }
    forall u | u in plan.baseUpdates && u.pullRequest == order[i]
      ensures u.toBranch == TargetOf(list, order, i)
    {
      CorrectionTarget(list, order, i, u);
    }
  }

  lemma MemberOf(list: seq<PullRequest>, order: seq<int>, i: nat) returns (pr: PullRequest)
    requires IsStack(list) && i < |order| && Covers(list, order)
    ensures pr == ByNumber(list)[order[i]] && pr in list && pr.number == order[i]
  {
    pr := ByNumber(list)[order[i]];
    ByNumberMember(list, order[i]);
  }

  lemma ParentBefore(list: seq<PullRequest>, order: seq<int>, i: nat, parent: PullRequest, child: PullRequest)
    requires IsMergeOrder(list, order) && i < |order|
    requires parent in list && child in list && child.number == order[i]
    ensures IsParent(parent, child) <==> i > 0 && order[i - 1] == parent.number
  {
    assert FollowsParent(list, order, i);
  }

  /** A correction leads to the target. */
  lemma CorrectionTarget(list: seq<PullRequest>, order: seq<int>, i: nat, u: BaseUpdate)
    requires IsStack(list) && IsMergeOrder(list, order) && Covers(list, order) && i < |order|
    requires IsCorrection(list, u) && u.pullRequest == order[i]
    ensures i > 0 && u.toBranch == TargetOf(list, order, i)
  {
    hide ByNumber, WellDeclared, IsMergeOrder;
    var child, parent :|
      && child in list && parent in list && child.explicitParent == Some(parent.number)
      && child.base != parent.head && u == BaseUpdate(child.number, child.base, parent.head);
    ParentBefore(list, order, i, parent, child);
    var prev := MemberOf(list, order, i - 1);
    SameNumber(list, parent, prev);
  }

  lemma RemoteOf(list: seq<PullRequest>, plan: StackPlan, repository: string, original: Remotes, now: Remotes, i: nat)
    requires IsStack(list) && IsPlan(list, plan) && Matches(list, repository, original) && Covers(list, plan.mergeOrder)
    requires Partial(plan.baseUpdates, original, now) && i < |plan.mergeOrder|
    ensures BranchFits(list, plan, repository, now, i)
  {
    hide IsStack, IsMergeOrder, AreCorrections, ByNumber, FindUpdate, TargetOf;
    TargetCases(list, plan, i);
    FindUpdateMeaning(plan.baseUpdates, plan.mergeOrder[i]);
  }

  /** On the way from a matching state, every branch and every update fits. */
  lemma OnTheWayFits(list: seq<PullRequest>, plan: StackPlan, repository: string, original: Remotes, now: Remotes)
    requires IsStack(list) && IsPlan(list, plan) && Matches(list, repository, original) && Covers(list, plan.mergeOrder)
    requires Partial(plan.baseUpdates, original, now)
    ensures BranchesFit(list, plan, repository, now) && UpdatesFit(plan.baseUpdates, now)
  {
    hide IsStack, BranchFits;
    forall i: nat | i < |plan.mergeOrder|
      ensures BranchFits(list, plan, repository, now, i)
    {
      RemoteOf(list, plan, repository, original, now, i);
    }
    forall i | 0 <= i < |plan.baseUpdates|
      ensures UpdateFits(plan.baseUpdates[i], now)
    {
      UpdateFitsAt(list, plan.baseUpdates, repository, original, now, plan.baseUpdates[i]);
    }
  }

  lemma UpdateFitsAt(
      list: seq<PullRequest>, updates: seq<BaseUpdate>, repository: string, original: Remotes, now: Remotes, u: BaseUpdate)
    requires AreCorrections(list, updates) && Matches(list, repository, original) && Partial(updates, original, now)
    requires u in updates
    ensures UpdateFits(u, now)
  {
    CorrectionsAreSelection(list, updates);
    assert IsCorrection(list, u);
    hide AreCorrections, OneEach;
    FindUpdateIs(updates, u);
    hide FindUpdate;
  }

  // A run.

  /** The call at which the lease was checked for event j of a run. */
  ghost function LeaseCall(first: nat, updates: nat, branches: nat, j: nat): nat {
    first + 2 * updates + if j < branches then 3 * j else 3 * branches + 2 * (j - branches)
  }

  ghost predicate LeasesHeld(env: Env, first: nat, updates: nat, branches: nat, events: nat) {
    && (events > 0 ==> forall m | 0 <= m < updates :: env.lease(first + 2 * m))
    && forall j: nat | j < events :: env.lease(LeaseCall(first, updates, branches, j))
  }

  /** An update, or a branch, that does not fit; or in the last phase a lost lease or an unconfirmed write. */
  ghost predicate WhyStopped(
      env: Env, list: seq<PullRequest>, plan: StackPlan, repository: string, prs: Remotes, events: nat, outcome: Outcome)
    requires Covers(list, plan.mergeOrder)
  {
    || (events == 0 && outcome.Broken?
        && exists m | 0 <= m < |plan.baseUpdates| :: UpdateStops(env, plan.baseUpdates[m], prs, outcome.trouble))
    || (exists i: nat | i < |plan.mergeOrder| && i <= events <= i + 1 :: BranchStops(env, list, plan, repository, prs, i, outcome))
    || (events >= |plan.mergeOrder|
        && (outcome == Broken(LeaseLost) || exists u | u in plan.baseUpdates :: outcome == Broken(Unconfirmed(u.pullRequest))))
  }

  lemma StoppedEarly(
      env: Env, list: seq<PullRequest>, plan: StackPlan, repository: string, before: Remotes, prs: Remotes, error: Trouble)
    requires Covers(list, plan.mergeOrder) && (NoOutside(env) ==> prs == before)
    requires exists m | 0 <= m < |plan.baseUpdates| :: UpdateStops(env, plan.baseUpdates[m], prs, error)
    ensures WhyStopped(env, list, plan, repository, before, 0, Broken(error))
  {
    hide Covers, NoOutside, Shows, UpdateVerdict, BranchStops;
    var m :| 0 <= m < |plan.baseUpdates| && UpdateStops(env, plan.baseUpdates[m], prs, error);
    assert UpdateStops(env, plan.baseUpdates[m], before, error);
  }

  lemma StoppedAtBranch(
      env: Env, list: seq<PullRequest>, plan: StackPlan, repository: string, before: Remotes, prs: Remotes, events: nat, outcome: Outcome)
    requires Covers(list, plan.mergeOrder) && (NoOutside(env) ==> prs == before)
    requires exists i: nat | i < |plan.mergeOrder| && i <= events <= i + 1 :: BranchStops(env, list, plan, repository, prs, i, outcome)
    ensures WhyStopped(env, list, plan, repository, before, events, outcome)
  {
    hide Covers, NoOutside, Shows, BranchVerdict, UpdateStops;
    var i: nat :| i < |plan.mergeOrder| && i <= events <= i + 1 && BranchStops(env, list, plan, repository, prs, i, outcome);
    assert BranchStops(env, list, plan, repository, before, i, outcome);
  }

  lemma StoppedAtWrite(
      env: Env, list: seq<PullRequest>, plan: StackPlan, repository: string, before: Remotes, pending: seq<BaseUpdate>, first: nat, k: nat,
      events: nat, outcome: Outcome)
    requires Covers(list, plan.mergeOrder) && IsSelection(plan.baseUpdates, pending) && events >= |plan.mergeOrder|
    requires !outcome.Completed? ==> WriteStops(env, pending, first, k, outcome)
    ensures !outcome.Completed? ==> WhyStopped(env, list, plan, repository, before, events, outcome)
  {
    hide Covers, UpdateStops, BranchStops;
    if outcome.Broken? && outcome.trouble.Unconfirmed? && WriteStops(env, pending, first, k, outcome) {
      assert pending[k - 1] in pending;
      assert pending[k - 1] in plan.baseUpdates;
    }
  }

  lemma LeasesSoFar(env: Env, first: nat, updates: nat, branches: nat, rebases: nat, writes: nat)
    requires rebases <= branches && (writes > 0 ==> rebases == branches)
    requires rebases > 0 || writes > 0 ==> forall m | 0 <= m < updates :: env.lease(first + 2 * m)
    requires forall m: nat | m < rebases :: env.lease(first + 2 * updates + 3 * m)
    requires forall m | 0 <= m < writes :: env.lease(first + 2 * updates + 3 * branches + 2 * m)
    ensures LeasesHeld(env, first, updates, branches, rebases + writes)
  {
    forall j: nat | j < rebases + writes
      ensures env.lease(LeaseCall(first, updates, branches, j))
    {
      if j >= branches {
        assert env.lease(first + 2 * updates + 3 * branches + 2 * (j - branches));
      } else {
        assert env.lease(first + 2 * updates + 3 * j);
      }
    }
  }

  method Rebase(session: Session, list: seq<PullRequest>, policy: ForcePolicy, ghost original: Remotes)
    returns (outcome: Outcome, ghost plan: StackPlan, ghost events: seq<Event>)
    modifies session
    ensures session.log == old(session.log) + events
    ensures !IsStack(list) ==> outcome.Broken? && outcome.trouble.PlanRefused? && Explains(list, outcome.trouble.error) && events == [] && session.prs == old(session.prs)
    ensures IsStack(list) ==>
              IsPlan(list, plan) && Covers(list, plan.mergeOrder) && RunShape(list, plan, policy, outcome, events)
    // No event without the lease: each is preceded by its own check, and those before it held as well.
    ensures IsStack(list) ==> LeasesHeld(session.env, old(session.calls), |plan.baseUpdates|, |plan.mergeOrder|, |events|)
    // A run that does not complete says why.
    ensures IsStack(list) && !outcome.Completed? ==>
              WhyStopped(session.env, list, plan, session.repository, old(session.prs), |events|, outcome)
    // Without interference only branches with nothing against them are rebased, and only after every update fitted.
    ensures IsStack(list) && NoOutside(session.env) ==>
              (forall i: nat | i < |events| && i < |plan.mergeOrder| ::
                 BranchFits(list, plan, session.repository, old(session.prs), i))
              && (events != [] ==> UpdatesFit(plan.baseUpdates, old(session.prs)))
    // Without interference every run, whatever fails in it, stays on the way, and one that completes has arrived.
    ensures (IsStack(list) && NoOutside(session.env) && Starts(plan.baseUpdates, original)
             && Partial(plan.baseUpdates, original, old(session.prs))) ==>
              Partial(plan.baseUpdates, original, session.prs)
              && (outcome.Completed? ==> session.prs == AllWritten(plan.baseUpdates, original))
    // When nothing fails either, a run from anywhere on the way completes.
    ensures (IsStack(list) && Calm(session.env) && Matches(list, session.repository, original)
             && Partial(plan.baseUpdates, original, old(session.prs))) ==> outcome.Completed?
  {
    hide *;
    var planned := Plan(list);
    events := [];
    if planned.Failure? {
      plan := StackPlan([], []);
      return Broken(PlanRefused(planned.error)), plan, events;
    }
    plan := planned.value;
    PlanFacts(list, plan);
    CalmIsQuiet(session.env);
    ghost var before := session.prs;
    Prospects(list, plan, session.repository, original, before);
    var classified := session.ClassifyUpdates(planned.value.baseUpdates);
    LeasesSoFar(session.env, old(session.calls), |plan.baseUpdates|, |plan.mergeOrder|, 0, 0);
    if classified.Failure? {
      NoEvents(list, plan, policy, Broken(classified.error));
      StoppedEarly(session.env, list, plan, session.repository, before, session.prs, classified.error);
      return Broken(classified.error), plan, events;
    }
    outcome, events := CarryOut(session, list, planned.value, policy, classified.value, original, before, old(session.calls));
  }

  /** The second and the third phase. */
  method CarryOut(
      session: Session, list: seq<PullRequest>, plan: StackPlan, policy: ForcePolicy, pending: seq<BaseUpdate>,
      ghost original: Remotes, ghost before: Remotes, ghost first: nat)
    returns (outcome: Outcome, ghost events: seq<Event>)
    requires IsStack(list) && IsPlan(list, plan) && Covers(list, plan.mergeOrder) && IsSelection(plan.baseUpdates, pending)
    requires NoOutside(session.env) ==>
               && session.prs == before && pending == Pending(plan.baseUpdates, session.prs) && Classified(plan.baseUpdates, session.prs)
    requires OneEach(plan.baseUpdates) && session.calls == first + 2 * |plan.baseUpdates|
    requires forall m | 0 <= m < |plan.baseUpdates| :: session.env.lease(first + 2 * m)
    modifies session
    ensures session.log == old(session.log) + events && RunShape(list, plan, policy, outcome, events)
    ensures LeasesHeld(session.env, first, |plan.baseUpdates|, |plan.mergeOrder|, |events|)
    ensures !outcome.Completed? ==>
              WhyStopped(session.env, list, plan, session.repository, before, |events|, outcome)
    ensures NoOutside(session.env) ==>
              forall i: nat | i < |events| && i < |plan.mergeOrder| ::
                BranchFits(list, plan, session.repository, old(session.prs), i)
    ensures NoOutside(session.env) && Starts(plan.baseUpdates, original) && Partial(plan.baseUpdates, original, old(session.prs)) ==>
              Partial(plan.baseUpdates, original, session.prs)
              && (outcome.Completed? ==> session.prs == AllWritten(plan.baseUpdates, original))
    ensures Calm(session.env) && BranchesFit(list, plan, session.repository, old(session.prs)) ==> outcome.Completed?
  {
    hide *;
    CalmIsQuiet(session.env);
    ghost var found := session.prs;
    outcome, events := session.RebaseAll(list, plan, policy);
    RebaseShapes(list, plan, policy, outcome, events);
    LeasesSoFar(session.env, first, |plan.baseUpdates|, |plan.mergeOrder|, |events|, 0);
    if !outcome.Completed? {
      StoppedAtBranch(session.env, list, plan, session.repository, before, session.prs, |events|, outcome);
      return;
    }
    ghost var k;
    ghost var calls := session.calls;
    PendingIn(plan.baseUpdates, session.prs);
    outcome, k := session.WriteBases(pending);
    WriteShapes(list, plan, policy, outcome, events, pending, k);
    LeasesSoFar(session.env, first, |plan.baseUpdates|, |plan.mergeOrder|, |events|, k);
    events := events + WriteEvents(pending[..k]);
    StoppedAtWrite(session.env, list, plan, session.repository, before, pending, calls, k, |events|, outcome);
    Arrives(plan.baseUpdates, original, found, session.prs, outcome.Completed?);
  }

  lemma PlanFacts(list: seq<PullRequest>, plan: StackPlan)
    requires IsStack(list) && IsMergeOrder(list, plan.mergeOrder) && AreCorrections(list, plan.baseUpdates)
    ensures IsPlan(list, plan) && Covers(list, plan.mergeOrder)
    ensures IsSelection(plan.baseUpdates, plan.baseUpdates) && OneEach(plan.baseUpdates)
  {
    hide IsStack, IsSelection, OneEach;
    OrderIsCovered(list, plan.mergeOrder);
    CorrectionsAreSelection(list, plan.baseUpdates);
  }

  lemma Prospects(list: seq<PullRequest>, plan: StackPlan, repository: string, original: Remotes, now: Remotes)
    requires IsStack(list) && IsPlan(list, plan) && Covers(list, plan.mergeOrder)
    ensures Matches(list, repository, original) && Partial(plan.baseUpdates, original, now) ==>
              BranchesFit(list, plan, repository, now) && UpdatesFit(plan.baseUpdates, now)
  {
    hide IsStack, IsPlan, BranchesFit, UpdatesFit, Matches, Partial;
    if Matches(list, repository, original) && Partial(plan.baseUpdates, original, now) {
      OnTheWayFits(list, plan, repository, original, now);
    }
  }

  lemma NoEvents(list: seq<PullRequest>, plan: StackPlan, policy: ForcePolicy, outcome: Outcome)
    requires Covers(list, plan.mergeOrder) && !outcome.Completed?
    ensures RunShape(list, plan, policy, outcome, [])
  {
  }

  lemma RebaseShapes(list: seq<PullRequest>, plan: StackPlan, policy: ForcePolicy, outcome: Outcome, events: seq<Event>)
    requires Covers(list, plan.mergeOrder) && RebaseShape(list, plan.mergeOrder, policy, events, outcome.Completed?)
    ensures !outcome.Completed? ==> RunShape(list, plan, policy, outcome, events)
  {
    hide RebaseShape;
  }

  lemma PendingIn(updates: seq<BaseUpdate>, prs: Remotes)
    ensures AllIn(Pending(updates, prs), prs)
  {
    hide Pending;
    var pending := Pending(updates, prs);
    forall i | 0 <= i < |pending|
      ensures pending[i].pullRequest in prs
    {
      PendingMeaning(updates, prs, pending[i]);
    }
  }

  lemma WriteShapes(
      list: seq<PullRequest>, plan: StackPlan, policy: ForcePolicy, outcome: Outcome, rebases: seq<Event>,
      pending: seq<BaseUpdate>, k: nat)
    requires Covers(list, plan.mergeOrder) && RebaseShape(list, plan.mergeOrder, policy, rebases, true)
    requires IsSelection(plan.baseUpdates, pending) && k <= |pending| && (outcome.Completed? ==> k == |pending|)
    ensures RunShape(list, plan, policy, outcome, rebases + WriteEvents(pending[..k]))
  {
    hide RebaseShape, IsSelection, WriteEvents;
    assert WriteShape(plan.baseUpdates, WriteEvents(pending[..k]), outcome.Completed?);
    assert RebasedThenWrote(list, plan, policy, rebases + WriteEvents(pending[..k]), outcome.Completed?);
  }

  lemma Arrives(updates: seq<BaseUpdate>, original: Remotes, before: Remotes, after: Remotes, all: bool)
    requires OneEach(updates)
    ensures Starts(updates, original) && Partial(updates, original, before) && Classified(updates, before)
            && SomeWritten(before, Pending(updates, before), after, all) ==>
              Partial(updates, original, after) && (all ==> after == AllWritten(updates, original))
  {
    hide OneEach, Starts, Partial, Classified, SomeWritten, AllWritten;
    if Starts(updates, original) && Partial(updates, original, before) && Classified(updates, before)
       && SomeWritten(before, Pending(updates, before), after, all) {
      WritingIsOnTheWay(updates, original, before, after, all);
    }
  }

  /** Nobody interferes in any of the runs, and the last of them goes through. */
  ghost predicate QuietUntilCalm(envs: seq<Env>) {
    && envs != [] && Calm(envs[|envs| - 1])
    && forall i | 0 <= i < |envs| :: NoOutside(envs[i])
  }

  /**
   * The job run again and again, as leases run out: however the earlier runs fail, the first one that goes
   * through leaves every base written, whatever part of them had been written before.
   */
  method RunAgain(list: seq<PullRequest>, repository: string, policy: ForcePolicy, envs: seq<Env>, prs: Remotes)
    returns (outcome: Outcome, after: Remotes, ghost plan: StackPlan)
    requires IsStack(list) && Matches(list, repository, prs) && QuietUntilCalm(envs)
    ensures IsPlan(list, plan) && outcome.Completed? && after == AllWritten(plan.baseUpdates, prs)
  {
    hide *;
    NotEmpty(envs);
    after, outcome, plan := prs, Blocked(NotOpen(0)), StackPlan([], []);
    for i := 0 to |envs|
      invariant if i == 0 then after == prs else IsPlan(list, plan) && Partial(plan.baseUpdates, prs, after)
      invariant i == |envs| ==> outcome.Completed? && after == AllWritten(plan.baseUpdates, prs)
    {
      QuietAt(envs, i);
      var session := new Session(envs[i], repository, after);
      ghost var made, events;
      ghost var before := after;
      outcome, made, events := Rebase(session, list, policy, prs);
      SamePlan(list, repository, prs, before, plan, made, i == 0);
      plan := made;
      after := session.prs;
    }
  }

  /** Every run works on the one plan of the list, and finds the bases as the earlier ones left them. */
  lemma SamePlan(
      list: seq<PullRequest>, repository: string, prs: Remotes, before: Remotes, plan: StackPlan, made: StackPlan, first: bool)
    requires IsStack(list) && Matches(list, repository, prs) && IsPlan(list, made)
    requires if first then before == prs else IsPlan(list, plan) && Partial(plan.baseUpdates, prs, before)
    ensures Starts(made.baseUpdates, prs) && Partial(made.baseUpdates, prs, before)
  {
    hide IsStack, Matches, IsMergeOrder, AreCorrections, Starts, Rewritten;
    MatchingStarts(list, made.baseUpdates, repository, prs);
    if !first {
      OnePlan(list, plan, made);
    }
  }

  lemma QuietAt(envs: seq<Env>, i: nat)
    requires QuietUntilCalm(envs) && i < |envs|
    ensures NoOutside(envs[i]) && (i == |envs| - 1 ==> Calm(envs[i]))
  {
  }

  lemma NotEmpty(envs: seq<Env>)
    requires QuietUntilCalm(envs)
    ensures |envs| > 0
  {
  }

  // What the shape of a run says.

  /** Before any base is written, every branch has been rebased, in merge order and without a blocker. */
  lemma NoWriteBeforeTheRebases(
      list: seq<PullRequest>, plan: StackPlan, policy: ForcePolicy, outcome: Outcome, events: seq<Event>, j: nat)
    requires Covers(list, plan.mergeOrder) && RunShape(list, plan, policy, outcome, events)
    requires j < |events| && events[j].WroteBase?
    ensures |plan.mergeOrder| <= j
    ensures forall i: nat | i < |plan.mergeOrder| :: events[i] == RebaseEvent(list, plan.mergeOrder, policy, i, true)
    ensures exists u :: u in plan.baseUpdates && events[j] == WroteBase(u.pullRequest, u.toBranch)
  {
    hide ByNumber, ForceAllowed, RebaseShape, WriteShape, RebaseEvent, Covers;
    if !RebasedThenWrote(list, plan, policy, events, outcome.Completed?) {
      RebasesAreNoWrites(list, plan.mergeOrder, policy, events, j);
    } else {
      var rebases, writes :|
        && events == rebases + writes
        && RebaseShape(list, plan.mergeOrder, policy, rebases, true)
        && WriteShape(plan.baseUpdates, writes, outcome.Completed?);
      WritesComeAfter(list, plan.mergeOrder, policy, rebases, writes, j);
      WritesAreUpdates(plan.baseUpdates, writes, outcome.Completed?, j - |rebases|);
    }
  }

  lemma WritesComeAfter(
      list: seq<PullRequest>, order: seq<int>, policy: ForcePolicy, rebases: seq<Event>, writes: seq<Event>, j: nat)
    requires Covers(list, order) && RebaseShape(list, order, policy, rebases, true)
    requires j < |rebases + writes| && (rebases + writes)[j].WroteBase?
    ensures |rebases| == |order| <= j && writes[j - |rebases|] == (rebases + writes)[j]
    ensures forall i: nat | i < |order| :: (rebases + writes)[i] == RebaseEvent(list, order, policy, i, true)
  {
    hide Covers, TargetOf, ByNumber;
    assert forall i | 0 <= i < |rebases| :: (rebases + writes)[i] == rebases[i];
  }

  lemma WritesAreUpdates(updates: seq<BaseUpdate>, writes: seq<Event>, all: bool, m: nat)
    requires WriteShape(updates, writes, all) && m < |writes|
    ensures exists u :: u in updates && writes[m] == WroteBase(u.pullRequest, u.toBranch)
  {
    var pending, k: nat :| IsSelection(updates, pending) && k <= |pending| && writes == WriteEvents(pending[..k]);
    assert pending[m] in pending;
  }

  lemma RebasesAreNoWrites(list: seq<PullRequest>, order: seq<int>, policy: ForcePolicy, events: seq<Event>, j: nat)
    requires Covers(list, order) && j < |events|
    ensures RebaseShape(list, order, policy, events, false) ==> !events[j].WroteBase?
  {
  }

  /** A plan is determined by its list, so every retry works on the same one. */
  lemma OnePlan(list: seq<PullRequest>, a: StackPlan, b: StackPlan)
    requires IsStack(list) && IsPlan(list, a) && IsPlan(list, b)
    ensures a == b
  {
    hide IsStack, IsMergeOrder, IsCorrection;
    MergeOrderUnique(list, a.mergeOrder, b.mergeOrder);
    SameCorrections(a.baseUpdates, b.baseUpdates);
  }

  ghost predicate UpdateLess(a: BaseUpdate, b: BaseUpdate) {
    a.pullRequest < b.pullRequest
  }

  lemma SameCorrections(a: seq<BaseUpdate>, b: seq<BaseUpdate>)
    requires forall u :: u in a <==> u in b
    requires forall i, j | 0 <= i < j < |a| :: a[i].pullRequest < a[j].pullRequest
    requires forall i, j | 0 <= i < j < |b| :: b[i].pullRequest < b[j].pullRequest
    ensures a == b
  {
    assert Elements(a) == Elements(b);
    SortedUnique(UpdateLess, a, b);
  }

  /** Once all is written, each base is the head of the one before it, and nothing else has changed. */
  lemma BasesFollowTheOrder(list: seq<PullRequest>, plan: StackPlan, repository: string, original: Remotes, i: nat)
    requires IsStack(list) && IsPlan(list, plan) && Matches(list, repository, original) && Covers(list, plan.mergeOrder)
    requires i < |plan.mergeOrder|
    ensures var number := plan.mergeOrder[i];
            && number in original
            && AllWritten(plan.baseUpdates, original)[number]
               == original[number].(base := Some(TargetOf(list, plan.mergeOrder, i)))
  {
    hide IsStack, IsMergeOrder, AreCorrections, ByNumber, FindUpdate, TargetOf;
    TargetCases(list, plan, i);
    FindUpdateMeaning(plan.baseUpdates, plan.mergeOrder[i]);
  }

  // Planning again.

  ghost function ReadBase(pr: PullRequest, prs: Remotes): PullRequest {
    if pr.number in prs && prs[pr.number].base.Some? then pr.(base := prs[pr.number].base.value) else pr
  }

  /** The list with the bases the remote now shows. */
  ghost function Reread(list: seq<PullRequest>, prs: Remotes): (r: seq<PullRequest>)
    ensures |r| == |list|
  {
    seq(|list|, i requires 0 <= i < |list| => ReadBase(list[i], prs))
  }

  /** Nobody else has the head of a pull request that another one comes after. */
  ghost predicate ParentHeadsUnique(list: seq<PullRequest>, order: seq<int>) {
    forall i | 0 <= i < |order| - 1 :: HeadIsUnique(list, order[i])
  }

  ghost predicate HeadIsUnique(list: seq<PullRequest>, number: int) {
    forall a, b | a in list && b in list && a.number == number && b.head == a.head :: b.number == number
  }

  /** In the reread list each base is the target, and nothing else differs. */
  ghost predicate IsReread(list: seq<PullRequest>, order: seq<int>, again: seq<PullRequest>)
    requires Covers(list, order)
  {
    && |again| == |list|
    && forall k, i: nat | 0 <= k < |list| && i < |order| && list[k].number == order[i] ::
         again[k] == list[k].(base := TargetOf(list, order, i))
  }

  lemma RereadShowsTargets(list: seq<PullRequest>, plan: StackPlan, repository: string, original: Remotes)
    requires IsStack(list) && IsPlan(list, plan) && Matches(list, repository, original) && Covers(list, plan.mergeOrder)
    ensures IsReread(list, plan.mergeOrder, Reread(list, AllWritten(plan.baseUpdates, original)))
  {
    hide IsStack, IsPlan, AllWritten, Matches, TargetOf, Reread, ByNumber, ReadBase;
    var prs := AllWritten(plan.baseUpdates, original);
    WrittenKeys(plan.baseUpdates, original);
    forall k, i: nat | 0 <= k < |list| && i < |plan.mergeOrder| && list[k].number == plan.mergeOrder[i]
      ensures Reread(list, prs)[k] == list[k].(base := TargetOf(list, plan.mergeOrder, i))
    {
      BasesFollowTheOrder(list, plan, repository, original, i);
      RereadAt(list, prs, k);
      ReadBaseIs(list[k], prs, TargetOf(list, plan.mergeOrder, i));
    }
  }

  lemma RereadAt(list: seq<PullRequest>, prs: Remotes, k: nat)
    requires k < |list|
    ensures Reread(list, prs)[k] == ReadBase(list[k], prs)
  {
  }

  lemma ReadBaseIs(pr: PullRequest, prs: Remotes, base: string)
    requires pr.number in prs && prs[pr.number].base == Some(base)
    ensures ReadBase(pr, prs) == pr.(base := base)
  {
  }

  lemma WrittenKeys(updates: seq<BaseUpdate>, original: Remotes)
    ensures AllWritten(updates, original).Keys == original.Keys
  {
  }

  /** Every member of the reread list is a member of the list with its place in the order. */
  lemma RereadMember(list: seq<PullRequest>, order: seq<int>, again: seq<PullRequest>, pr: PullRequest)
    returns (was: PullRequest, i: nat)
    requires IsMergeOrder(list, order) && Covers(list, order) && IsReread(list, order, again) && pr in again
    ensures was in list && i < |order| && was.number == order[i] && pr == was.(base := TargetOf(list, order, i))
  {
    hide TargetOf, Covers, ByNumber;
    var k :| 0 <= k < |again| && again[k] == pr;
    was := list[k];
    assert was in list && was.number in Numbers(list);
    assert was.number in Elements(order);
    i :| 0 <= i < |order| && order[i] == was.number;
  }

  lemma RereadOf(list: seq<PullRequest>, order: seq<int>, again: seq<PullRequest>, was: PullRequest, i: nat)
    requires Covers(list, order) && IsReread(list, order, again) && was in list && i < |order| && was.number == order[i]
    ensures was.(base := TargetOf(list, order, i)) in again
  {
    hide TargetOf, ByNumber;
    var k :| 0 <= k < |list| && list[k] == was;
    assert again[k] == was.(base := TargetOf(list, order, i));
  }

  lemma RereadNumbers(list: seq<PullRequest>, order: seq<int>, again: seq<PullRequest>)
    requires DistinctNumbers(list) && IsMergeOrder(list, order) && Covers(list, order) && IsReread(list, order, again)
    ensures DistinctNumbers(again) && Numbers(again) == Numbers(list)
  {
    hide TargetOf, ByNumber, Covers;
    forall k | 0 <= k < |list|
      ensures again[k].number == list[k].number
    {
      assert again[k] in again;
      assert list[k].number in Numbers(list);
      assert list[k].number in Elements(order);
      var i: nat :| i < |order| && order[i] == list[k].number;
    }
    forall n
      ensures n in Numbers(again) <==> n in Numbers(list)
    {
      if n in Numbers(again) {
        var pr :| pr in again && pr.number == n;
        var k :| 0 <= k < |again| && again[k] == pr;
        assert list[k] in list;
      }
      if n in Numbers(list) {
        var pr :| pr in list && pr.number == n;
        var k :| 0 <= k < |list| && list[k] == pr;
        assert again[k] in again;
      }
    }
  }

  /** The first in the order declares no parent, and no head is its base. */
  lemma FirstHasNoParent(list: seq<PullRequest>, order: seq<int>, child: PullRequest, other: PullRequest)
    requires IsStack(list) && IsMergeOrder(list, order) && order != [] && child in list && child.number == order[0]
    requires other in list
    ensures child.explicitParent.None? && other.head != child.base
  {
    hide IsMergeOrder;
    assert WellDeclared(list, child);
    if child.explicitParent.Some? {
      var parent :| parent in list && parent.number == child.explicitParent.value;
      ParentBefore(list, order, 0, parent, child);
    } else {
      ParentBefore(list, order, 0, other, child);
    }
  }

  /** Parents in the reread list are the ones the order tells. */
  lemma ParentAgain(list: seq<PullRequest>, order: seq<int>, i: nat, child: PullRequest, parent: PullRequest)
    requires IsStack(list) && IsMergeOrder(list, order) && Covers(list, order) && ParentHeadsUnique(list, order)
    requires i < |order| && child in list && child.number == order[i] && parent in list
    ensures IsParent(parent, child.(base := TargetOf(list, order, i))) <==> i > 0 && order[i - 1] == parent.number
    ensures parent.head == TargetOf(list, order, i) <==> i > 0 && order[i - 1] == parent.number
  {
    hide IsMergeOrder, IsStack, ByNumber, Covers;
    ParentBefore(list, order, i, parent, child);
    var same := MemberOf(list, order, i);
    StackIsDistinct(list);
    SameNumber(list, child, same);
    if i == 0 {
      FirstHasNoParent(list, order, child, parent);
    } else {
      var prev := MemberOf(list, order, i - 1);
      assert HeadIsUnique(list, order[i - 1]);
      if parent.number == prev.number {
        SameNumber(list, parent, prev);
      }
    }
  }

  lemma StackIsDistinct(list: seq<PullRequest>)
    requires IsStack(list)
    ensures DistinctNumbers(list)
  {
  }

  lemma DeclaredAgain(
      list: seq<PullRequest>, order: seq<int>, again: seq<PullRequest>, child: PullRequest, i: nat)
    requires IsStack(list) && IsMergeOrder(list, order) && Covers(list, order) && ParentHeadsUnique(list, order)
    requires IsReread(list, order, again) && Numbers(again) == Numbers(list)
    requires i < |order| && child in list && child.number == order[i]
    ensures WellDeclared(again, child.(base := TargetOf(list, order, i)))
  {
    hide IsMergeOrder, IsStack, ByNumber, IsReread, TargetOf, Numbers, ParentHeadsUnique;
    forall a | a in again && a.head == TargetOf(list, order, i)
      ensures i > 0 && a.number == order[i - 1]
    {
      var was, m := RereadMember(list, order, again, a);
      ParentAgain(list, order, i, child, was);
    }
    if child.explicitParent.Some? {
      DeclaredParent(list, order, i, child);
    }
  }

  lemma DeclaredParent(list: seq<PullRequest>, order: seq<int>, i: nat, child: PullRequest)
    requires IsStack(list) && IsMergeOrder(list, order) && i < |order| && child in list && child.number == order[i]
    requires child.explicitParent.Some?
    ensures child.explicitParent.value in Numbers(list) && i > 0 && child.explicitParent.value == order[i - 1]
  {
    hide IsMergeOrder;
    assert WellDeclared(list, child);
    var parent :| parent in list && parent.number == child.explicitParent.value;
    ParentBefore(list, order, i, parent, child);
  }

  lemma OrderAgain(list: seq<PullRequest>, order: seq<int>, again: seq<PullRequest>)
    requires IsStack(list) && IsMergeOrder(list, order) && Covers(list, order) && ParentHeadsUnique(list, order)
    requires IsReread(list, order, again) && Numbers(again) == Numbers(list)
    ensures IsMergeOrder(again, order)
  {
    hide IsStack, ByNumber, Covers, IsReread, TargetOf, Numbers, ParentHeadsUnique, FollowsParent;
    forall i | 0 <= i < |order|
      ensures FollowsParent(again, order, i)
    {
      FollowsAgain(list, order, again, i);
    }
  }

  lemma FollowsAgain(list: seq<PullRequest>, order: seq<int>, again: seq<PullRequest>, i: nat)
    requires IsStack(list) && IsMergeOrder(list, order) && Covers(list, order) && ParentHeadsUnique(list, order)
    requires IsReread(list, order, again) && i < |order|
    ensures FollowsParent(again, order, i)
  {
    hide IsMergeOrder, IsStack, ByNumber, Covers, IsReread, TargetOf, Numbers, ParentHeadsUnique, IsParent;
    forall child, parent | child in again && child.number == order[i] && parent in again
      ensures IsParent(parent, child) <==> Before(order, i) == Some(parent.number)
    {
      var wasChild, j := RereadMember(list, order, again, child);
      var wasParent, k := RereadMember(list, order, again, parent);
      SamePlace(list, order, i, j);
      ParentAgain(list, order, i, wasChild, wasParent);
      SameAsParent(wasParent, parent, child);
    }
  }

  lemma SamePlace(list: seq<PullRequest>, order: seq<int>, i: nat, j: nat)
    requires IsMergeOrder(list, order) && i < |order| && j < |order| && order[i] == order[j]
    ensures i == j
  {
  }

  lemma SameAsParent(a: PullRequest, b: PullRequest, child: PullRequest)
    requires a.number == b.number && a.head == b.head
    ensures IsParent(a, child) <==> IsParent(b, child)
  {
  }

  lemma NoCorrectionsAgain(list: seq<PullRequest>, order: seq<int>, again: seq<PullRequest>)
    requires IsStack(list) && IsMergeOrder(list, order) && Covers(list, order) && ParentHeadsUnique(list, order)
    requires IsReread(list, order, again)
    ensures AreCorrections(again, [])
  {
    hide IsMergeOrder, IsStack, ByNumber, Covers, IsReread, TargetOf, Numbers, ParentHeadsUnique;
    forall child, parent | child in again && parent in again && child.explicitParent == Some(parent.number)
      ensures child.base == parent.head
    {
      var wasChild, i := RereadMember(list, order, again, child);
      var wasParent, k := RereadMember(list, order, again, parent);
      DeclaredParent(list, order, i, wasChild);
      ParentAgain(list, order, i, wasChild, wasParent);
    }
  }

  /**
   * After a completed run, planning the reread list succeeds exactly when no other pull request shares the
   * head of one that another comes after; then the order is the same and no update is left.
   */
  lemma PlanningAgain(list: seq<PullRequest>, plan: StackPlan, again: seq<PullRequest>)
    requires IsStack(list) && IsPlan(list, plan) && Covers(list, plan.mergeOrder) && IsReread(list, plan.mergeOrder, again)
    ensures IsStack(again) <==> ParentHeadsUnique(list, plan.mergeOrder)
    ensures ParentHeadsUnique(list, plan.mergeOrder) ==> IsPlan(again, StackPlan(plan.mergeOrder, []))
  {
    hide IsMergeOrder, ByNumber, Covers, IsReread, TargetOf, Numbers, ParentHeadsUnique, AreCorrections, WellDeclared;
    var order := plan.mergeOrder;
    RereadNumbers(list, order, again);
    if ParentHeadsUnique(list, order) {
      forall child | child in again
        ensures WellDeclared(again, child)
      {
        var was, i := RereadMember(list, order, again, child);
        DeclaredAgain(list, order, again, was, i);
      }
      OrderAgain(list, order, again);
      NoCorrectionsAgain(list, order, again);
    } else if IsStack(again) {
      StackHasUniqueHeads(list, order, again);
    }
    SameLength(list, order, again);
  }

  lemma SameLength(list: seq<PullRequest>, order: seq<int>, again: seq<PullRequest>)
    requires Covers(list, order) && IsReread(list, order, again)
    ensures list == [] <==> again == []
  {
  }

  lemma StackHasUniqueHeads(list: seq<PullRequest>, order: seq<int>, again: seq<PullRequest>)
    requires IsStack(list) && IsStack(again) && IsMergeOrder(list, order) && Covers(list, order)
    requires IsReread(list, order, again)
    ensures ParentHeadsUnique(list, order)
  {
    hide IsMergeOrder, IsReread;
    forall i | 0 <= i < |order| - 1
      ensures HeadIsUnique(list, order[i])
    {
      UniqueInStack(list, order, again, i);
    }
  }

  lemma UniqueInStack(list: seq<PullRequest>, order: seq<int>, again: seq<PullRequest>, i: nat)
    requires IsStack(list) && IsStack(again) && IsMergeOrder(list, order) && Covers(list, order)
    requires IsReread(list, order, again) && i + 1 < |order|
    ensures HeadIsUnique(list, order[i])
  {
    hide IsStack, ByNumber, IsReread, Numbers, IsMergeOrder;
    StackIsDistinct(list);
    var child := MemberOf(list, order, i + 1);
    var prev := MemberOf(list, order, i);
    RereadOf(list, order, again, child, i + 1);
    StackIsDeclared(again, child.(base := prev.head));
    forall a, b | a in list && b in list && a.number == order[i] && b.head == a.head
      ensures b.number == order[i]
    {
      SameNumber(list, a, prev);
      var m := PlaceOf(list, order, a);
      var n := PlaceOf(list, order, b);
      RereadOf(list, order, again, a, m);
      RereadOf(list, order, again, b, n);
    }
  }

  lemma StackIsDeclared(list: seq<PullRequest>, child: PullRequest)
    requires IsStack(list) && child in list
    ensures WellDeclared(list, child)
  {
  }

  lemma PlaceOf(list: seq<PullRequest>, order: seq<int>, pr: PullRequest) returns (i: nat)
    requires IsMergeOrder(list, order) && pr in list
    ensures i < |order| && order[i] == pr.number
  {
    assert pr.number in Numbers(list);
    assert pr.number in Elements(order);
    i :| i < |order| && order[i] == pr.number;
  }

  /**
   * Three pull requests opened against different branches and declared as a stack; the third comes from the
   * same head as the first.
   */
  ghost function SharedHead(head: string, middle: string, bases: (string, string, string)): seq<PullRequest> {
    [PullRequest(1, head, bases.0, None), PullRequest(2, middle, bases.1, Some(1)), PullRequest(3, head, bases.2, Some(2))]
  }

  ghost predicate NoHead(head: string, middle: string, base: string) {
    base != head && base != middle
  }

  lemma SharedHeadMembers(head: string, middle: string, bases: (string, string, string), pr: PullRequest)
    ensures pr in SharedHead(head, middle, bases) <==>
              pr == PullRequest(1, head, bases.0, None) || pr == PullRequest(2, middle, bases.1, Some(1))
              || pr == PullRequest(3, head, bases.2, Some(2))
  {
    var list := SharedHead(head, middle, bases);
    assert list[0] in list && list[1] in list && list[2] in list;
  }

  lemma SharedHeadIsStack(head: string, middle: string, bases: (string, string, string))
    requires NoHead(head, middle, bases.0) && NoHead(head, middle, bases.1) && NoHead(head, middle, bases.2)
    ensures IsStack(SharedHead(head, middle, bases)) && IsMergeOrder(SharedHead(head, middle, bases), [1, 2, 3])
  {
    var list := SharedHead(head, middle, bases);
    assert DistinctNumbers(list) && |list| == 3;
    hide SharedHead;
    forall pr
      ensures pr in list <==> pr == PullRequest(1, head, bases.0, None) || pr == PullRequest(2, middle, bases.1, Some(1))
                              || pr == PullRequest(3, head, bases.2, Some(2))
    {
      SharedHeadMembers(head, middle, bases, pr);
    }
    forall n
      ensures n in Numbers(list) <==> n == 1 || n == 2 || n == 3
    {
      assert PullRequest(1, head, bases.0, None) in list && PullRequest(2, middle, bases.1, Some(1)) in list;
      assert PullRequest(3, head, bases.2, Some(2)) in list;
    }
    assert forall i | 0 <= i < 3 :: FollowsParent(list, [1, 2, 3], i);
    assert Elements([1, 2, 3]) == Numbers(list);
    assert IsMergeOrder(list, [1, 2, 3]);
  }

  /** A shared head is enough: the plan can be carried out, but not be made again. */
  lemma SharedHeadCannotBePlannedAgain(head: string, middle: string, bases: (string, string, string), again: seq<PullRequest>)
    requires NoHead(head, middle, bases.0) && NoHead(head, middle, bases.1) && NoHead(head, middle, bases.2)
    requires Covers(SharedHead(head, middle, bases), [1, 2, 3])
    requires IsReread(SharedHead(head, middle, bases), [1, 2, 3], again)
    ensures IsStack(SharedHead(head, middle, bases)) && !IsStack(again)
  {
    var list := SharedHead(head, middle, bases);
    SharedHeadIsStack(head, middle, bases);
    SharedHeadIsShared(head, middle, bases);
    assert !ParentHeadsUnique(list, [1, 2, 3]) by {
      assert !HeadIsUnique(list, [1, 2, 3][0]);
    }
    if IsStack(again) {
      StackHasUniqueHeads(list, [1, 2, 3], again);
    }
  }

  lemma SharedHeadIsShared(head: string, middle: string, bases: (string, string, string))
    ensures !HeadIsUnique(SharedHead(head, middle, bases), 1)
  {
    SharedHeadMembers(head, middle, bases, PullRequest(1, head, bases.0, None));
    SharedHeadMembers(head, middle, bases, PullRequest(3, head, bases.2, Some(2)));
  }
}
