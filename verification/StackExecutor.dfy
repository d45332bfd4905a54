/** Carrying out a stack plan (src/worker.rs): classify the updates, rebase every branch, only then write bases. */
module StackExecutor {
  import opened Basics
  import opened StackPlanner

  /** What the remote says about one pull request. */
  datatype Remote = Remote(
    open: bool, merged: bool, base: Option<string>, head: Option<string>, headRepository: Option<string>)

  type Remotes = map<int, Remote>

  datatype RebaseReply = AlreadyBased | Moved | NeedsForcePush | RebaseFailed

  /** Whether a write reached the remote, and whether its answer came back. */
  datatype WriteReply = WriteReply(applied: bool, answered: bool)

  /** Everything outside the worker's control, by the number of the call: what others change before it, and its fate. */
  datatype Env = Env(
    outside: (nat, Remotes) -> Remotes, lease: nat -> bool, readable: nat -> bool,
    rebase: nat -> RebaseReply, write: nat -> WriteReply)

  datatype Event =
    | Rebased(number: int, branch: string, target: string, forceAllowed: bool, done: bool)
    | WroteBase(number: int, base: string)

  datatype ForcePolicy = ForcePolicy(allowForcePush: bool, ownedBranches: seq<string>)

  datatype Blocker =
    | NotOpen(number: int)
    | ForkHead(number: int)
    | HeadChanged(number: int, expected: string, found: string)
    | WrongBase(number: int, found: string, expected: string)
    | ForcePushNeeded(branch: string, target: string)

  datatype Trouble =
    | PlanRefused(error: StackError)
    | LeaseLost
    | ReadFailed(number: int)
    | NoLongerOpen(number: int)
    | BaseChanged(update: BaseUpdate, found: string)
    | BaseUnavailable(number: int)
    | HeadUnavailable(number: int)
    | RebaseError(number: int)
    | Unconfirmed(number: int)

  datatype Outcome = Completed | Blocked(blocker: Blocker) | Broken(trouble: Trouble)

  // The environment.

  ghost predicate NoOutside(env: Env) {
    forall i: nat, prs :: env.outside(i, prs) == prs
  }

  /** Nobody interferes and nothing fails. */
  ghost predicate Calm(env: Env) {
    && NoOutside(env)
    && forall i: nat :: env.lease(i) && env.readable(i) && env.write(i) == WriteReply(true, true)
         && env.rebase(i) in {AlreadyBased, Moved}
  }

  // What is to be done.

  ghost predicate Covers(list: seq<PullRequest>, order: seq<int>) {
    forall i | 0 <= i < |order| :: order[i] in ByNumber(list)
  }

  /** The head of the one before, or for the first its own base. */
  function TargetOf(list: seq<PullRequest>, order: seq<int>, i: nat): string
    requires i < |order| && order[i] in ByNumber(list) && (i > 0 ==> order[i - 1] in ByNumber(list))
  {
    if i == 0 then ByNumber(list)[order[0]].base else ByNumber(list)[order[i - 1]].head
  }

  predicate ForceAllowed(policy: ForcePolicy, branch: string) {
    policy.allowForcePush && branch in policy.ownedBranches
  }

  ghost function RebaseEvent(list: seq<PullRequest>, order: seq<int>, policy: ForcePolicy, i: nat, done: bool): Event
    requires i < |order| && Covers(list, order)
  {
    var head := ByNumber(list)[order[i]].head;
    Rebased(order[i], head, TargetOf(list, order, i), policy.allowForcePush && head in policy.ownedBranches, done)
  }

  ghost function RebaseEvents(list: seq<PullRequest>, order: seq<int>, policy: ForcePolicy, k: nat): (r: seq<Event>)
    requires k <= |order| && Covers(list, order)
    ensures |r| == k
  {
    seq(k, i requires 0 <= i < k => RebaseEvent(list, order, policy, i, true))
  }

  ghost function WriteEvents(updates: seq<BaseUpdate>): (r: seq<Event>)
    ensures |r| == |updates|
  {
    seq(|updates|, i requires 0 <= i < |updates| => WroteBase(updates[i].pullRequest, updates[i].toBranch))
  }

  /** Some of the updates, each at most once. */
  ghost predicate IsSelection(updates: seq<BaseUpdate>, some: seq<BaseUpdate>) {
    && (forall u | u in some :: u in updates)
    && forall i, j | 0 <= i < j < |some| :: some[i].pullRequest < some[j].pullRequest
  }

  function WriteBase(prs: Remotes, number: int, base: string): Remotes {
    if number in prs then prs[number := prs[number].(base := Some(base))] else prs
  }

  ghost function WriteAll(prs: Remotes, updates: seq<BaseUpdate>): Remotes {
    if updates == [] then prs
    else
      var u := updates[|updates| - 1];
      WriteBase(WriteAll(prs, updates[..|updates| - 1]), u.pullRequest, u.toBranch)
  }

  /** The updates not carried out yet. */
  function Pending(updates: seq<BaseUpdate>, prs: Remotes): seq<BaseUpdate> {
    if updates == [] then []
    else
      var u := updates[|updates| - 1];
      Pending(updates[..|updates| - 1], prs)
      + if u.pullRequest in prs && prs[u.pullRequest].base == Some(u.fromBranch) then [u] else []
  }

  /** An open pull request whose base is still the old one or already the new one. */
  ghost predicate UpdateFits(u: BaseUpdate, prs: Remotes) {
    && u.pullRequest in prs && prs[u.pullRequest].open && !prs[u.pullRequest].merged
    && prs[u.pullRequest].base in {Some(u.fromBranch), Some(u.toBranch)}
  }

  ghost predicate UpdatesFit(updates: seq<BaseUpdate>, prs: Remotes) {
    forall i | 0 <= i < |updates| :: UpdateFits(updates[i], prs)
  }

  predicate UpdateIsPending(updates: seq<BaseUpdate>, number: int, base: string, target: string) {
    BaseUpdate(number, base, target) in updates
  }

  /** What the remote shows has nothing against rebasing this branch. */
  ghost predicate RemoteFits(list: seq<PullRequest>, plan: StackPlan, repository: string, remote: Remote, i: nat)
    requires i < |plan.mergeOrder| && Covers(list, plan.mergeOrder)
  {
    var number := plan.mergeOrder[i];
    && remote.open && !remote.merged && remote.headRepository == Some(repository)
    && remote.head == Some(ByNumber(list)[number].head) && remote.base.Some?
    && (remote.base.value == TargetOf(list, plan.mergeOrder, i)
        || BaseUpdate(number, remote.base.value, TargetOf(list, plan.mergeOrder, i)) in plan.baseUpdates)
  }

  /** Nothing stands against rebasing this branch. */
  ghost predicate BranchFits(
      list: seq<PullRequest>, plan: StackPlan, repository: string, prs: Remotes, i: nat)
    requires i < |plan.mergeOrder| && Covers(list, plan.mergeOrder)
  {
    plan.mergeOrder[i] in prs && RemoteFits(list, plan, repository, prs[plan.mergeOrder[i]], i)
  }

  /** What each outcome of one branch says about what the remote showed; the checks come in this order. */
  ghost predicate BranchVerdict(
      list: seq<PullRequest>, plan: StackPlan, repository: string, seen: Option<Remote>, i: nat, r: Outcome)
    requires i < |plan.mergeOrder| && Covers(list, plan.mergeOrder)
  {
    var number := plan.mergeOrder[i];
    var listed, target := ByNumber(list)[number].head, TargetOf(list, plan.mergeOrder, i);
    if seen.None? then r == Broken(LeaseLost) || r == Broken(ReadFailed(number))
    else
      var remote := seen.value;
      if !remote.open || remote.merged then r == Blocked(NotOpen(number))
      else if remote.headRepository != Some(repository) then r == Blocked(ForkHead(number))
      else if remote.head.None? then r == Broken(HeadUnavailable(number))
      else if remote.head.value != listed then r == Blocked(HeadChanged(number, listed, remote.head.value))
      else if remote.base.None? then r == Broken(BaseUnavailable(number))
      else if remote.base.value != target && BaseUpdate(number, remote.base.value, target) !in plan.baseUpdates
      then r == Blocked(WrongBase(number, remote.base.value, target))
      else r == Completed || r == Blocked(ForcePushNeeded(listed, target)) || r == Broken(RebaseError(number))
  }

  /** The writes stop at a lost lease, or at the update just sent, which was not confirmed. */
  ghost predicate WriteStops(env: Env, pending: seq<BaseUpdate>, first: nat, k: nat, r: Outcome) {
    || (r == Broken(LeaseLost) && !env.lease(first + 2 * k))
    || (0 < k <= |pending| && r == Broken(Unconfirmed(pending[k - 1].pullRequest)))
  }

  /** What the answer to a rebase means for the run. */
  ghost predicate ReplyVerdict(list: seq<PullRequest>, plan: StackPlan, i: nat, reply: RebaseReply, r: Outcome)
    requires i < |plan.mergeOrder| && Covers(list, plan.mergeOrder)
  {
    var number := plan.mergeOrder[i];
    match reply
    case AlreadyBased => r == Completed
    case Moved => r == Completed
    case NeedsForcePush => r == Blocked(ForcePushNeeded(ByNumber(list)[number].head, TargetOf(list, plan.mergeOrder, i)))
    case RebaseFailed => r == Broken(RebaseError(number))
  }

  /** What was seen of this branch, which without outside changes is what the table shows, stands against it. */
  ghost predicate BranchStops(
      env: Env, list: seq<PullRequest>, plan: StackPlan, repository: string, prs: Remotes, i: nat, r: Outcome)
    requires i < |plan.mergeOrder| && Covers(list, plan.mergeOrder)
  {
    !r.Completed? && exists seen ::
      (NoOutside(env) ==> Shows(prs, plan.mergeOrder[i], seen)) && BranchVerdict(list, plan, repository, seen, i, r)
  }

  ghost predicate UpdateStops(env: Env, u: BaseUpdate, prs: Remotes, error: Trouble) {
    exists seen :: (NoOutside(env) ==> Shows(prs, u.pullRequest, seen)) && UpdateVerdict(u, seen, Failure(error))
  }

  /** The same for one base update. */
  ghost predicate UpdateVerdict(u: BaseUpdate, seen: Option<Remote>, r: Result<bool, Trouble>) {
    if seen.None? then r == Failure(LeaseLost) || r == Failure(ReadFailed(u.pullRequest))
    else
      var remote := seen.value;
      if !remote.open || remote.merged then r == Failure(NoLongerOpen(u.pullRequest))
      else if remote.base.None? then r == Failure(BaseUnavailable(u.pullRequest))
      else if remote.base == Some(u.fromBranch) then r == Success(true)
      else if remote.base == Some(u.toBranch) then r == Success(false)
      else r == Failure(BaseChanged(u, remote.base.value))
  }

  /** What was seen of a pull request is what the table shows. */
  ghost predicate Shows(prs: Remotes, number: int, seen: Option<Remote>) {
    seen.Some? ==> number in prs && prs[number] == seen.value
  }

  ghost predicate BranchesFit(list: seq<PullRequest>, plan: StackPlan, repository: string, prs: Remotes)
    requires Covers(list, plan.mergeOrder)
  {
    forall i: nat | i < |plan.mergeOrder| :: BranchFits(list, plan, repository, prs, i)
  }

  // Shapes of what a run does.

  /** All done, or stopped at branch k with at most one attempt that did not succeed. */
  ghost predicate RebaseShape(list: seq<PullRequest>, order: seq<int>, policy: ForcePolicy, events: seq<Event>, all: bool)
    requires Covers(list, order)
  {
    if all then events == RebaseEvents(list, order, policy, |order|)
    else exists k: nat :: k < |order| && StoppedAt(list, order, policy, events, k)
  }

  ghost predicate StoppedAt(list: seq<PullRequest>, order: seq<int>, policy: ForcePolicy, events: seq<Event>, k: nat)
    requires k < |order| && Covers(list, order)
  {
    || events == RebaseEvents(list, order, policy, k)
    || events == RebaseEvents(list, order, policy, k) + [RebaseEvent(list, order, policy, k, false)]
  }

  /** Writes of selected updates from the first on; all of them when the run completes. */
  ghost predicate WriteShape(updates: seq<BaseUpdate>, events: seq<Event>, all: bool) {
    exists pending, k: nat ::
      IsSelection(updates, pending) && k <= |pending| && events == WriteEvents(pending[..k]) && (all ==> k == |pending|)
  }

  /** Nothing, or rebases only, or every rebase and then writes. */
  ghost predicate RunShape(list: seq<PullRequest>, plan: StackPlan, policy: ForcePolicy, outcome: Outcome, events: seq<Event>)
    requires Covers(list, plan.mergeOrder)
  {
    if outcome.Completed? then RebasedThenWrote(list, plan, policy, events, true)
    else
      || events == []
      || RebaseShape(list, plan.mergeOrder, policy, events, false)
      || RebasedThenWrote(list, plan, policy, events, false)
  }

  ghost predicate RebasedThenWrote(list: seq<PullRequest>, plan: StackPlan, policy: ForcePolicy, events: seq<Event>, all: bool)
    requires Covers(list, plan.mergeOrder)
  {
    exists rebases, writes ::
      && events == rebases + writes
      && RebaseShape(list, plan.mergeOrder, policy, rebases, true) && WriteShape(plan.baseUpdates, writes, all)
  }

  ghost predicate IsPlan(list: seq<PullRequest>, plan: StackPlan) {
    IsMergeOrder(list, plan.mergeOrder) && AreCorrections(list, plan.baseUpdates)
  }

  lemma OrderIsCovered(list: seq<PullRequest>, order: seq<int>)
    requires IsMergeOrder(list, order)
    ensures Covers(list, order)
  {
    forall i | 0 <= i < |order|
      ensures order[i] in ByNumber(list)
    {
      assert order[i] in Elements(order);
    }
  }

  /** One worker's dealings with the remote repository. */
  class Session {
    const env: Env
    const repository: string
    var prs: Remotes
    var calls: nat
    var log: seq<Event>

    constructor (env: Env, repository: string, prs: Remotes)
      ensures this.env == env && this.repository == repository && this.prs == prs && calls == 0 && log == []
    {
      this.env, this.repository, this.prs, calls, log := env, repository, prs, 0, [];
    }

    // Single calls.

    method EnsureLease() returns (held: bool)
      modifies this`prs, this`calls
      ensures prs == env.outside(old(calls), old(prs)) && (NoOutside(env) ==> prs == old(prs))
      ensures held == env.lease(old(calls)) && calls == old(calls) + 1
      ensures Calm(env) ==> held
    {
      prs := env.outside(calls, prs);
      held := env.lease(calls);
      calls := calls + 1;
    }

    method GetPullRequest(number: int) returns (r: Option<Remote>)
      modifies this`prs, this`calls
      ensures prs == env.outside(old(calls), old(prs)) && (NoOutside(env) ==> prs == old(prs))
      ensures Shows(prs, number, r) && calls == old(calls) + 1 && (r.Some? <==> env.readable(old(calls)) && number in prs)
      ensures Calm(env) && number in old(prs) ==> r.Some?
    {
      prs := env.outside(calls, prs);
      r := if env.readable(calls) && number in prs then Some(prs[number]) else None;
      calls := calls + 1;
    }

    method RebaseOnto(number: int, branch: string, target: string, force: bool) returns (reply: RebaseReply)
      modifies this`prs, this`calls, this`log
      ensures log == old(log) + [Rebased(number, branch, target, force, reply in {AlreadyBased, Moved})]
      ensures calls == old(calls) + 1
      ensures prs == env.outside(old(calls), old(prs)) && (NoOutside(env) ==> prs == old(prs)) && reply == env.rebase(old(calls))
      ensures Calm(env) ==> reply in {AlreadyBased, Moved}
    {
      prs := env.outside(calls, prs);
      reply := env.rebase(calls);
      log := log + [Rebased(number, branch, target, force, reply in {AlreadyBased, Moved})];
      calls := calls + 1;
    }

    method UpdateBase(number: int, base: string) returns (r: Option<Remote>)
      modifies this`prs, this`calls, this`log
      ensures log == old(log) + [WroteBase(number, base)] && calls == old(calls) + 1
      ensures var found := env.outside(old(calls), old(prs));
              && prs == (if env.write(old(calls)).applied then WriteBase(found, number, base) else found)
              && (r.Some? <==> env.write(old(calls)).answered && number in prs) && (r.Some? ==> r == Some(prs[number]))
      ensures NoOutside(env) ==> prs == old(prs) || prs == WriteBase(old(prs), number, base)
      ensures NoOutside(env) && r.Some? && r.value.base == Some(base) ==> prs == WriteBase(old(prs), number, base)
      ensures Calm(env) && number in old(prs) ==> r.Some? && r.value.base == Some(base)
    {
      prs := env.outside(calls, prs);
      var reply := env.write(calls);
      ghost var before := prs;
      if reply.applied {
        prs := WriteBase(prs, number, base);
      }
      r := if reply.answered && number in prs then Some(prs[number]) else None;
      assert r.Some? && r.value.base == Some(base) ==> prs == WriteBase(before, number, base);
      log := log + [WroteBase(number, base)];
      calls := calls + 1;
    }

    // Phase one: which updates are still to be done.

    method ClassifyOne(u: BaseUpdate) returns (r: Result<bool, Trouble>, ghost seen: Option<Remote>)
      modifies this`prs, this`calls
      ensures NoOutside(env) ==> prs == old(prs)
      ensures UpdateVerdict(u, seen, r) && Shows(prs, u.pullRequest, seen)
      ensures if env.lease(old(calls)) then r != Failure(LeaseLost) else r == Failure(LeaseLost)
      ensures r.Success? ==> env.lease(old(calls)) && calls == old(calls) + 2 && UpdateFits(u, prs)
      ensures r.Success? ==>
                u.pullRequest in prs && (r.value <==> prs[u.pullRequest].base == Some(u.fromBranch))
                && (!r.value ==> prs[u.pullRequest].base == Some(u.toBranch))
      ensures Calm(env) && UpdateFits(u, old(prs)) ==> r.Success?
    {
      hide NoOutside, Calm;
      CalmIsQuiet(env);
      seen := None;
      var held := EnsureLease();
      if !held {
        return Failure(LeaseLost), None;
      }
      var current := GetPullRequest(u.pullRequest);
      if current.None? {
        return Failure(ReadFailed(u.pullRequest)), None;
      }
      seen := current;
      if !current.value.open || current.value.merged {
        return Failure(NoLongerOpen(u.pullRequest)), seen;
      }
      match current.value.base {
        case Some(base) =>
          if base == u.fromBranch {
            return Success(true), seen;
          } else if base == u.toBranch {
            return Success(false), seen;
          }
          return Failure(BaseChanged(u, base)), seen;
        case None =>
          return Failure(BaseUnavailable(u.pullRequest)), seen;
      }
    }

    method ClassifyUpdates(updates: seq<BaseUpdate>) returns (r: Result<seq<BaseUpdate>, Trouble>)
      requires IsSelection(updates, updates)
      modifies this`prs, this`calls
      ensures NoOutside(env) ==> prs == old(prs)
      ensures r.Success? ==> IsSelection(updates, r.value)
      ensures NoOutside(env) && r.Success? ==>
                r.value == Pending(updates, prs) && Classified(updates, prs) && UpdatesFit(updates, prs)
      ensures r.Failure? ==> exists m | 0 <= m < |updates| :: UpdateStops(env, updates[m], prs, r.error)
      ensures r.Success? ==>
                calls == old(calls) + 2 * |updates| && forall m | 0 <= m < |updates| :: env.lease(old(calls) + 2 * m)
      ensures Calm(env) && UpdatesFit(updates, old(prs)) ==> r.Success?
    {
      hide NoOutside, Calm, IsSelection, Pending, UpdateFits, Classified, Shows, UpdateVerdict;
      CalmIsQuiet(env);
      var pending := [];
      NothingSelected(updates);
      NothingPending(updates, prs);
      for i := 0 to |updates|
        invariant NoOutside(env) ==> prs == old(prs)
        invariant IsSelection(updates[..i], pending)
        invariant NoOutside(env) ==> pending == Pending(updates[..i], prs) && Classified(updates[..i], prs)
        invariant NoOutside(env) ==> forall m | 0 <= m < i :: UpdateFits(updates[m], prs)
        invariant calls == old(calls) + 2 * i && forall m | 0 <= m < i :: env.lease(old(calls) + 2 * m)
      {
        ghost var seen;
        var one;
        one, seen := ClassifyOne(updates[i]);
        if one.Failure? {
          assert UpdateStops(env, updates[i], prs, one.error);
          return Failure(one.error);
        }
        SelectNext(updates, i, pending);
        if NoOutside(env) {
          FitsMeans(updates[i], prs);
          PendingNext(updates, i, prs);
        }
        if one.value {
          pending := pending + [updates[i]];
        }
      }
      assert updates[..|updates|] == updates;
      return Success(pending);
    }

    // Phase two: every branch, in merge order.

    method RebaseOne(list: seq<PullRequest>, plan: StackPlan, policy: ForcePolicy, i: nat)
      returns (r: Outcome, ghost events: seq<Event>, ghost seen: Option<Remote>)
      requires i < |plan.mergeOrder| && Covers(list, plan.mergeOrder)
      modifies this`prs, this`calls, this`log
      ensures NoOutside(env) ==> prs == old(prs) && Shows(prs, plan.mergeOrder[i], seen)
      ensures BranchVerdict(list, plan, repository, seen, i, r)
      ensures events != [] ==> seen.Some? && RemoteFits(list, plan, repository, seen.value, i)
      ensures NoOutside(env) && events != [] ==> BranchFits(list, plan, repository, prs, i)
      ensures if env.lease(old(calls)) then r != Broken(LeaseLost) else r == Broken(LeaseLost) && events == []
      ensures events != [] ==> ReplyVerdict(list, plan, i, env.rebase(old(calls) + 2), r)
      ensures r.Completed? ==> calls == old(calls) + 3
      ensures log == old(log) + events
      ensures if r.Completed? then events == [RebaseEvent(list, plan.mergeOrder, policy, i, true)]
              else events == [] || events == [RebaseEvent(list, plan.mergeOrder, policy, i, false)]
      ensures Calm(env) && BranchFits(list, plan, repository, old(prs), i) ==> r.Completed?
    {
      hide NoOutside, Calm, ByNumber, TargetOf;
      CalmIsQuiet(env);
      events, seen := [], None;
      var number := plan.mergeOrder[i];
      var target := TargetOf(list, plan.mergeOrder, i);
      var held := EnsureLease();
      if !held {
        return Broken(LeaseLost), [], None;
      }
      var read := GetPullRequest(number);
      if read.None? {
        return Broken(ReadFailed(number)), [], None;
      }
      var current := read.value;
      seen := read;
      if !current.open || current.merged {
        return Blocked(NotOpen(number)), [], seen;
      }
      if current.headRepository != Some(repository) {
        return Blocked(ForkHead(number)), [], seen;
      }
      if current.head.None? {
        return Broken(HeadUnavailable(number)), [], seen;
      }
      var branch := current.head.value;
      if branch != ByNumber(list)[number].head {
        return Blocked(HeadChanged(number, ByNumber(list)[number].head, branch)), [], seen;
      }
      if current.base.None? {
        return Broken(BaseUnavailable(number)), [], seen;
      }
      if current.base.value != target && !UpdateIsPending(plan.baseUpdates, number, current.base.value, target) {
        return Blocked(WrongBase(number, current.base.value, target)), [], seen;
      }
      var reply := RebaseOnto(number, branch, target, ForceAllowed(policy, branch));
      events := [Rebased(number, branch, target, ForceAllowed(policy, branch), reply in {AlreadyBased, Moved})];
      match reply {
        case AlreadyBased => return Completed, events, seen;
        case Moved => return Completed, events, seen;
        case NeedsForcePush => return Blocked(ForcePushNeeded(branch, target)), events, seen;
        case RebaseFailed => return Broken(RebaseError(number)), events, seen;
      }
    }

    method RebaseAll(list: seq<PullRequest>, plan: StackPlan, policy: ForcePolicy)
      returns (r: Outcome, ghost events: seq<Event>)
      requires Covers(list, plan.mergeOrder)
      modifies this`prs, this`calls, this`log
      ensures NoOutside(env) ==> prs == old(prs)
      ensures log == old(log) + events
      ensures RebaseShape(list, plan.mergeOrder, policy, events, r.Completed?)
      ensures |events| <= |plan.mergeOrder| && forall m: nat | m < |events| :: env.lease(old(calls) + 3 * m)
      ensures NoOutside(env) ==> forall m: nat | m < |events| :: BranchFits(list, plan, repository, prs, m)
      ensures r.Completed? ==> |events| == |plan.mergeOrder| && calls == old(calls) + 3 * |plan.mergeOrder|
      ensures !r.Completed? ==>
                exists i: nat | i < |plan.mergeOrder| && i <= |events| <= i + 1 :: BranchStops(env, list, plan, repository, prs, i, r)
      ensures Calm(env) && BranchesFit(list, plan, repository, old(prs)) ==> r.Completed?
    {
      hide NoOutside, Calm, Covers, RebaseEvents, RebaseEvent, RebaseShape, BranchFits, RemoteFits, BranchVerdict, Shows;
      CalmIsQuiet(env);
      events := [];
      NoRebases(list, plan.mergeOrder, policy);
      for i := 0 to |plan.mergeOrder|
        invariant NoOutside(env) ==> prs == old(prs)
        invariant log == old(log) + events && events == RebaseEvents(list, plan.mergeOrder, policy, i)
        invariant calls == old(calls) + 3 * i && forall m: nat | m < i :: env.lease(old(calls) + 3 * m)
        invariant NoOutside(env) ==> forall m: nat | m < i :: BranchFits(list, plan, repository, prs, m)
      {
        ghost var more, seen;
        r, more, seen := RebaseOne(list, plan, policy, i);
        RebaseNext(list, plan.mergeOrder, policy, i, more, r.Completed?);
        events := events + more;
        if !r.Completed? {
          assert BranchStops(env, list, plan, repository, prs, i, r);
          return;
        }
      }
      AllRebased(list, plan.mergeOrder, policy);
      r := Completed;
    }

    // Phase three: the bases.

    method WriteBases(pending: seq<BaseUpdate>) returns (r: Outcome, ghost k: nat)
      modifies this`prs, this`calls, this`log
      ensures k <= |pending| && log == old(log) + WriteEvents(pending[..k]) && (r.Completed? ==> k == |pending|)
      ensures forall m | 0 <= m < k :: env.lease(old(calls) + 2 * m)
      ensures if r.Completed? then k == |pending| else WriteStops(env, pending, old(calls), k, r)
      ensures NoOutside(env) ==> SomeWritten(old(prs), pending, prs, r.Completed?)
      ensures Calm(env) && AllIn(pending, old(prs)) ==> r.Completed?
    {
      hide NoOutside, Calm, WriteBase, WriteAll, WriteEvents, SomeWritten;
      CalmIsQuiet(env);
      r, k := Completed, 0;
      NothingWritten(prs, pending);
      for i := 0 to |pending|
        invariant k == i && r.Completed? && log == old(log) + WriteEvents(pending[..i])
        invariant calls == old(calls) + 2 * i && forall m | 0 <= m < i :: env.lease(old(calls) + 2 * m)
        invariant NoOutside(env) ==> prs == WriteAll(old(prs), pending[..i])
      {
        var held := EnsureLease();
        if !held {
          WrittenSoFar(old(prs), pending, i, prs);
          return Broken(LeaseLost), i;
        }
        WriteNext(old(prs), pending, i);
        var updated := UpdateBase(pending[i].pullRequest, pending[i].toBranch);
        k := i + 1;
        if updated.None? || updated.value.base != Some(pending[i].toBranch) {
          WrittenSoFar(old(prs), pending, i, prs);
          WrittenSoFar(old(prs), pending, i + 1, prs);
          return Broken(Unconfirmed(pending[i].pullRequest)), i + 1;
        }
      }
      assert pending[..|pending|] == pending;
      WrittenSoFar(old(prs), pending, |pending|, prs);
    }
  }

  lemma FitsMeans(u: BaseUpdate, prs: Remotes)
    requires UpdateFits(u, prs)
    ensures u.pullRequest in prs && prs[u.pullRequest].base in {Some(u.fromBranch), Some(u.toBranch)}
  {
  }

  lemma CalmIsQuiet(env: Env)
    ensures Calm(env) ==> NoOutside(env)
  {
  }

  /** Every update's pull request has the old or the new base. */
  ghost predicate Classified(updates: seq<BaseUpdate>, prs: Remotes) {
    forall u | u in updates ::
      u.pullRequest in prs && prs[u.pullRequest].base in {Some(u.fromBranch), Some(u.toBranch)}
  }

  lemma NothingSelected(updates: seq<BaseUpdate>)
    ensures IsSelection(updates[..0], [])
  {
  }

  lemma SelectNext(updates: seq<BaseUpdate>, i: nat, pending: seq<BaseUpdate>)
    requires i < |updates| && IsSelection(updates, updates) && IsSelection(updates[..i], pending)
    ensures IsSelection(updates[..i + 1], pending) && IsSelection(updates[..i + 1], pending + [updates[i]])
  {
    assert forall u :: u in updates[..i + 1] <==> u in updates[..i] || u == updates[i];
    forall j | 0 <= j < |pending|
      ensures pending[j].pullRequest < updates[i].pullRequest
    {
      assert pending[j] in updates[..i];
    }
  }

  lemma NothingPending(updates: seq<BaseUpdate>, prs: Remotes)
    ensures Pending(updates[..0], prs) == [] && Classified(updates[..0], prs)
  {
  }

  lemma PendingNext(updates: seq<BaseUpdate>, i: nat, prs: Remotes)
    requires i < |updates| && Classified(updates[..i], prs)
    ensures var u := updates[i];
            u.pullRequest in prs && prs[u.pullRequest].base in {Some(u.fromBranch), Some(u.toBranch)} ==>
              && Classified(updates[..i + 1], prs)
              && Pending(updates[..i + 1], prs)
                 == Pending(updates[..i], prs) + if prs[u.pullRequest].base == Some(u.fromBranch) then [u] else []
  {
    assert updates[..i + 1][..i] == updates[..i];
    assert forall u :: u in updates[..i + 1] <==> u in updates[..i] || u == updates[i];
  }

  lemma NoRebases(list: seq<PullRequest>, order: seq<int>, policy: ForcePolicy)
    requires Covers(list, order)
    ensures RebaseEvents(list, order, policy, 0) == []
  {
  }

  lemma RebaseNext(list: seq<PullRequest>, order: seq<int>, policy: ForcePolicy, i: nat, more: seq<Event>, done: bool)
    requires i < |order| && Covers(list, order)
    requires if done then more == [RebaseEvent(list, order, policy, i, true)]
             else more == [] || more == [RebaseEvent(list, order, policy, i, false)]
    ensures if done then RebaseEvents(list, order, policy, i) + more == RebaseEvents(list, order, policy, i + 1)
            else RebaseShape(list, order, policy, RebaseEvents(list, order, policy, i) + more, false)
  {
    hide RebaseEvent, Covers;
    if !done {
      assert StoppedAt(list, order, policy, RebaseEvents(list, order, policy, i) + more, i);
    }
  }

  lemma AllRebased(list: seq<PullRequest>, order: seq<int>, policy: ForcePolicy)
    requires Covers(list, order)
    ensures RebaseShape(list, order, policy, RebaseEvents(list, order, policy, |order|), true)
  {
  }

  /** The updates up to some point have been written; all of them when the phase completed. */
  ghost predicate SomeWritten(before: Remotes, pending: seq<BaseUpdate>, after: Remotes, all: bool) {
    exists m: nat :: m <= |pending| && after == WriteAll(before, pending[..m]) && (all ==> m == |pending|)
  }

  ghost predicate AllIn(updates: seq<BaseUpdate>, prs: Remotes) {
    forall i | 0 <= i < |updates| :: updates[i].pullRequest in prs
  }

  lemma NothingWritten(prs: Remotes, pending: seq<BaseUpdate>)
    ensures WriteAll(prs, pending[..0]) == prs && WriteEvents(pending[..0]) == []
  {
  }

  lemma WriteNext(prs: Remotes, pending: seq<BaseUpdate>, i: nat)
    requires i < |pending|
    ensures WriteAll(prs, pending[..i + 1]) == WriteBase(WriteAll(prs, pending[..i]), pending[i].pullRequest, pending[i].toBranch)
    ensures WriteEvents(pending[..i + 1]) == WriteEvents(pending[..i]) + [WroteBase(pending[i].pullRequest, pending[i].toBranch)]
    ensures WriteAll(prs, pending[..i]).Keys == prs.Keys
  {
    assert pending[..i + 1][..i] == pending[..i];
    WriteKeys(prs, pending[..i]);
  }

  lemma {:induction false} WriteKeys(prs: Remotes, updates: seq<BaseUpdate>)
    ensures WriteAll(prs, updates).Keys == prs.Keys
  {
    if updates != [] {
      WriteKeys(prs, updates[..|updates| - 1]);
    }
  }

  lemma WrittenSoFar(before: Remotes, pending: seq<BaseUpdate>, i: nat, after: Remotes)
    requires i <= |pending|
    ensures after == WriteAll(before, pending[..i]) ==> SomeWritten(before, pending, after, i == |pending|)
    ensures after == WriteAll(before, pending[..i]) ==> SomeWritten(before, pending, after, false)
  {
    hide WriteAll;
  }
}
