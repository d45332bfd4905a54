/** Deriving one linear merge order (src/stack.rs). */
module StackPlanner {
  import opened Basics
  import opened Ordering
  import opened ParentChains

  datatype PullRequest = PullRequest(number: int, head: string, base: string, explicitParent: Option<int>)

  datatype BaseUpdate = BaseUpdate(pullRequest: int, fromBranch: string, toBranch: string)

  datatype StackPlan = StackPlan(mergeOrder: seq<int>, baseUpdates: seq<BaseUpdate>)

  datatype StackError =
    | EmptyStack
    | DuplicatePullRequest(number: int)
    | MissingParent(pullRequest: int, parent: int)
    | AmbiguousParents(pullRequest: int, candidates: seq<int>)
    | ConflictingParent(pullRequest: int, explicitParent: int, inferredParent: int)
    | CycleDetected(cycle: seq<int>)
    | AmbiguousOrder(pullRequests: seq<int>)

  // What a stack is, said of the list alone.

  ghost predicate DistinctNumbers(prs: seq<PullRequest>) {
    forall i, j | 0 <= i < j < |prs| :: prs[i].number != prs[j].number
  }

  ghost function Numbers(prs: seq<PullRequest>): set<int> {
    set pr | pr in prs :: pr.number
  }

  /** A declared parent is the parent; otherwise the pull request whose head is this one's base is. */
  ghost predicate IsParent(parent: PullRequest, child: PullRequest) {
    if child.explicitParent.Some? then parent.number == child.explicitParent.value else parent.head == child.base
  }

  /** Its base matches at most one head; a declared parent exists and agrees with that head. */
  ghost predicate WellDeclared(prs: seq<PullRequest>, child: PullRequest) {
    && (forall a, b | a in prs && b in prs && a.head == child.base && b.head == child.base :: a.number == b.number)
    && (child.explicitParent.Some? ==>
          && child.explicitParent.value in Numbers(prs)
          && forall a | a in prs && a.head == child.base :: a.number == child.explicitParent.value)
  }

  /** Every pull request once, each right after its only parent; the first has none. */
  ghost predicate IsMergeOrder(prs: seq<PullRequest>, order: seq<int>) {
    && Distinct(order)
    && Elements(order) == Numbers(prs)
    && forall i | 0 <= i < |order| :: FollowsParent(prs, order, i)
  }

  ghost predicate FollowsParent(prs: seq<PullRequest>, order: seq<int>, i: int)
    requires 0 <= i < |order|
  {
    forall child, parent | child in prs && child.number == order[i] && parent in prs ::
      IsParent(parent, child) <==> Before(order, i) == Some(parent.number)
  }

  ghost predicate IsStack(prs: seq<PullRequest>) {
    && prs != []
    && DistinctNumbers(prs)
    && (forall child | child in prs :: WellDeclared(prs, child))
    && exists order :: IsMergeOrder(prs, order)
  }

  /** A declared parent whose head is not the child's base calls for this correction. */
  ghost predicate IsCorrection(prs: seq<PullRequest>, u: BaseUpdate) {
    exists child, parent ::
      && child in prs && parent in prs
      && child.explicitParent == Some(parent.number)
      && child.base != parent.head
      && u == BaseUpdate(child.number, child.base, parent.head)
  }

  /** Every correction once, by ascending pull request. */
  ghost predicate AreCorrections(prs: seq<PullRequest>, updates: seq<BaseUpdate>) {
    && (forall u :: u in updates <==> IsCorrection(prs, u))
    && (forall i, j | 0 <= i < j < |updates| :: updates[i].pullRequest < updates[j].pullRequest)
  }

  // The two indexes built over the list.

  /** Later entries replace earlier ones. */
  function ByNumber(prs: seq<PullRequest>): (r: map<int, PullRequest>)
    ensures r.Keys == Numbers(prs)
  {
    if prs == [] then map[]
    else
      var front, last := prs[..|prs| - 1], prs[|prs| - 1];
      assert prs == front + [last];
      ByNumber(front)[last.number := last]
  }

  /** The numbers of the pull requests with this head branch, in list order. */
  ghost function HeadsOn(prs: seq<PullRequest>, branch: string): seq<int> {
    if prs == [] then []
    else HeadsOn(prs[..|prs| - 1], branch) + if prs[|prs| - 1].head == branch then [prs[|prs| - 1].number] else []
  }

  lemma {:induction false} ByNumberMember(prs: seq<PullRequest>, n: int)
    requires n in ByNumber(prs)
    ensures ByNumber(prs)[n] in prs && ByNumber(prs)[n].number == n
  {
    var front, last := prs[..|prs| - 1], prs[|prs| - 1];
    assert prs == front + [last];
    if n != last.number {
      ByNumberMember(front, n);
    }
  }

  lemma SameNumber(prs: seq<PullRequest>, a: PullRequest, b: PullRequest)
    requires DistinctNumbers(prs) && a in prs && b in prs && a.number == b.number
    ensures a == b
  {
    var i :| 0 <= i < |prs| && prs[i] == a;
    var j :| 0 <= j < |prs| && prs[j] == b;
    assert i == j;
  }

  lemma ByNumberExact(prs: seq<PullRequest>, pr: PullRequest)
    requires DistinctNumbers(prs) && pr in prs
    ensures pr.number in ByNumber(prs) && ByNumber(prs)[pr.number] == pr
  {
    assert pr.number in Numbers(prs);
    ByNumberMember(prs, pr.number);
    SameNumber(prs, pr, ByNumber(prs)[pr.number]);
  }

  lemma {:induction false} HeadsOnContains(prs: seq<PullRequest>, branch: string, pr: PullRequest)
    requires pr in prs && pr.head == branch
    ensures pr.number in HeadsOn(prs, branch)
  {
    var front, last := prs[..|prs| - 1], prs[|prs| - 1];
    assert prs == front + [last];
    if pr != last {
      HeadsOnContains(front, branch, pr);
    }
  }

  lemma {:induction false} HeadsOnMember(prs: seq<PullRequest>, branch: string, i: nat) returns (pr: PullRequest)
    requires i < |HeadsOn(prs, branch)|
    ensures pr in prs && pr.head == branch && pr.number == HeadsOn(prs, branch)[i]
  {
    var front, last := prs[..|prs| - 1], prs[|prs| - 1];
    assert prs == front + [last];
    if i < |HeadsOn(front, branch)| {
      pr := HeadsOnMember(front, branch, i);
    } else {
      pr := last;
    }
  }

  lemma {:induction false} HeadsOnTwo(prs: seq<PullRequest>, branch: string)
    requires DistinctNumbers(prs) && |HeadsOn(prs, branch)| > 1
    ensures HeadsOn(prs, branch)[0] != HeadsOn(prs, branch)[1]
  {
    var front, last := prs[..|prs| - 1], prs[|prs| - 1];
    var r := HeadsOn(front, branch);
    if |r| > 1 {
      HeadsOnTwo(front, branch);
    } else {
      var first := HeadsOnMember(front, branch, 0);
      var i :| 0 <= i < |front| && front[i] == first;
      assert prs[i] == first;
    }
  }

  /** A base implies a parent exactly when one head carries it. */
  lemma HeadsOnSingle(prs: seq<PullRequest>, branch: string)
    requires DistinctNumbers(prs)
    ensures |HeadsOn(prs, branch)| > 1 ==>
              exists a, b :: a in prs && b in prs && a.head == branch && b.head == branch && a.number != b.number
    ensures |HeadsOn(prs, branch)| == 1 ==>
              forall pr | pr in prs :: pr.head == branch <==> pr.number == HeadsOn(prs, branch)[0]
    ensures |HeadsOn(prs, branch)| == 0 ==> forall pr | pr in prs :: pr.head != branch
  {
    var r := HeadsOn(prs, branch);
    if |r| > 1 {
      HeadsOnTwo(prs, branch);
      var a := HeadsOnMember(prs, branch, 0);
      var b := HeadsOnMember(prs, branch, 1);
    } else {
      forall pr | pr in prs
        ensures pr.head == branch <==> pr.number in r
      {
        if pr.head == branch {
          HeadsOnContains(prs, branch, pr);
        }
        if pr.number in r {
          var other := HeadsOnMember(prs, branch, 0);
          SameNumber(prs, pr, other);
        }
      }
    }
  }

  /** One entry of the parent map, or the reason it cannot be decided. */
  ghost function Resolve(prs: seq<PullRequest>, child: PullRequest): Result<Option<int>, StackError> {
    var inferred := HeadsOn(prs, child.base);
    if |inferred| > 1 then Failure(AmbiguousParents(child.number, inferred))
    else match child.explicitParent
      case None => Success(if inferred == [] then None else Some(inferred[0]))
      case Some(parent) =>
        if parent !in ByNumber(prs) then Failure(MissingParent(child.number, parent))
        else if inferred != [] && inferred[0] != parent then Failure(ConflictingParent(child.number, parent, inferred[0]))
        else Success(Some(parent))
  }

  lemma ResolveMeaning(prs: seq<PullRequest>, child: PullRequest)
    requires DistinctNumbers(prs)
    ensures Resolve(prs, child).Success? <==> WellDeclared(prs, child)
    ensures Resolve(prs, child).Success? ==>
              forall parent | parent in prs ::
                IsParent(parent, child) <==> Resolve(prs, child).value == Some(parent.number)
    ensures Resolve(prs, child).Success? && Resolve(prs, child).value.Some? ==>
              Resolve(prs, child).value.value in Numbers(prs)
  {
    HeadsOnSingle(prs, child.base);
    if |HeadsOn(prs, child.base)| == 1 {
      var only := HeadsOnMember(prs, child.base, 0);
    }
  }

  /** The parent map the planner has built holds the resolved parent of every pull request. */
  ghost predicate Resolved(prs: seq<PullRequest>, parents: Parents) {
    && parents.Keys == Numbers(prs)
    && forall child | child in prs :: Resolve(prs, child) == Success(parents[child.number])
  }

  /** Merge orders of the list are the chains of its parent map. */
  lemma MergeOrderIsChain(prs: seq<PullRequest>, parents: Parents, order: seq<int>)
    requires DistinctNumbers(prs) && Resolved(prs, parents)
    ensures ClosedParents(parents)
    ensures IsMergeOrder(prs, order) <==> IsChain(parents, order)
  {
    forall child | child in prs
      ensures parents[child.number].Some? ==> parents[child.number].value in parents
    {
      ResolveMeaning(prs, child);
    }
    if IsChain(parents, order) {
      ChainToMergeOrder(prs, parents, order);
    }
    if IsMergeOrder(prs, order) {
      MergeOrderToChain(prs, parents, order);
    }
  }

  lemma ChainToMergeOrder(prs: seq<PullRequest>, parents: Parents, order: seq<int>)
    requires DistinctNumbers(prs) && Resolved(prs, parents) && IsChain(parents, order)
    ensures IsMergeOrder(prs, order)
  {
    forall i | 0 <= i < |order|
      ensures FollowsParent(prs, order, i)
    {
      assert AfterParent(parents, order, i);
      forall child | child in prs && child.number == order[i]
        ensures Resolve(prs, child) == Success(Before(order, i))
        ensures forall parent | parent in prs :: IsParent(parent, child) <==> Before(order, i) == Some(parent.number)
      {
        ResolveMeaning(prs, child);
      }
    }
  }

  lemma MergeOrderToChain(prs: seq<PullRequest>, parents: Parents, order: seq<int>)
    requires DistinctNumbers(prs) && Resolved(prs, parents) && IsMergeOrder(prs, order)
    ensures IsChain(parents, order)
  {
    forall i | 0 <= i < |order|
      ensures AfterParent(parents, order, i)
    {
      var child := MemberAt(prs, order, i);
      ResolveMeaning(prs, child);
      assert FollowsParent(prs, order, i);
      if i > 0 {
        var parent := MemberAt(prs, order, i - 1);
        assert IsParent(parent, child);
      } else {
        forall parent | parent in prs
          ensures parents[child.number] != Some(parent.number)
        {
          assert IsParent(parent, child) <==> Before(order, i) == Some(parent.number);
        }
      }
    }
  }

  lemma MemberAt(prs: seq<PullRequest>, order: seq<int>, i: int) returns (pr: PullRequest)
    requires Elements(order) == Numbers(prs) && 0 <= i < |order|
    ensures pr in prs && pr.number == order[i]
  {
    assert order[i] in Elements(order);
    pr :| pr in prs && pr.number == order[i];
  }

  /** A stack has one merge order. */
  lemma MergeOrderUnique(prs: seq<PullRequest>, a: seq<int>, b: seq<int>)
    requires IsStack(prs) && IsMergeOrder(prs, a) && IsMergeOrder(prs, b)
    ensures a == b
  {
    var parents := ParentMap(prs);
    MergeOrderIsChain(prs, parents, a);
    MergeOrderIsChain(prs, parents, b);
    ChainUnique(parents, a, b);
  }

  ghost function ParentMap(prs: seq<PullRequest>): (r: Parents)
    requires DistinctNumbers(prs) && forall child | child in prs :: WellDeclared(prs, child)
    ensures Resolved(prs, r)
  {
    var r := map n | n in ByNumber(prs) :: ResolvedParent(prs, n);
    assert Resolved(prs, r) by {
      forall child | child in prs
        ensures Resolve(prs, child) == Success(r[child.number])
      {
        ByNumberExact(prs, child);
        ResolveMeaning(prs, child);
      }
    }
    r
  }

  ghost function ResolvedParent(prs: seq<PullRequest>, n: int): Option<int>
    requires n in ByNumber(prs)
  {
    var r := Resolve(prs, ByNumber(prs)[n]);
    if r.Success? then r.value else None
  }

  // What each refusal says about the list.

  /** The first number, in ascending order, whose parent cannot be decided is the one reported. */
  ghost predicate FirstUnresolved(prs: seq<PullRequest>, error: StackError) {
    exists child :: child in prs && Resolve(prs, child) == Failure(error)
      && forall other | other in prs && other.number < child.number :: Resolve(prs, other).Success?
  }

  ghost predicate FirstDuplicate(prs: seq<PullRequest>, n: int) {
    exists i :: 0 <= i < |prs| && prs[i].number == n && n in Numbers(prs[..i]) && DistinctNumbers(prs[..i])
  }

  ghost predicate AreRoots(parents: Parents, roots: seq<int>) {
    Ascending(roots) && forall n :: n in roots <==> n in parents && parents[n].None?
  }

  ghost predicate AreChildren(parents: Parents, parent: int, children: seq<int>) {
    Ascending(children) && forall n :: n in children <==> n in parents && parents[n] == Some(parent)
  }

  ghost predicate OneChildBelow(parents: Parents, bound: int) {
    forall a, b | a in parents && b in parents && parents[a].Some? && parents[a] == parents[b]
      && parents[a].value < bound :: a == b
  }

  /** Two or more children of one parent, the least such parent. */
  ghost predicate FirstSiblings(parents: Parents, siblings: seq<int>) {
    && |siblings| > 1
    && (exists parent ::
          parent in parents && AreChildren(parents, parent, siblings) && OneChildBelow(parents, parent))
  }

  /** The parent map of the list is acyclic, and these are its roots, or the first siblings in it. */
  ghost predicate Branches(parents: Parents, ns: seq<int>) {
    && Acyclic(parents)
    && |ns| > 1
    && (AreRoots(parents, ns) || (exists root :: AreRoots(parents, [root]) && FirstSiblings(parents, ns)))
  }

  ghost predicate Explains(prs: seq<PullRequest>, error: StackError) {
    match error
    case EmptyStack => prs == []
    case DuplicatePullRequest(n) => FirstDuplicate(prs, n)
    case CycleDetected(cycle) =>
      DistinctNumbers(prs) && exists parents :: Resolved(prs, parents) && IsFirstCycle(parents, cycle)
    case AmbiguousOrder(ns) =>
      DistinctNumbers(prs) && exists parents :: Resolved(prs, parents) && Branches(parents, ns)
    case _ => DistinctNumbers(prs) && FirstUnresolved(prs, error)
  }

  /** Every explained refusal is of a list that is no stack. */
  lemma ExplainedIsNoStack(prs: seq<PullRequest>, error: StackError)
    requires Explains(prs, error)
    ensures !IsStack(prs)
  {
    match error
    case EmptyStack =>
    case DuplicatePullRequest(n) =>
      var i :| 0 <= i < |prs| && prs[i].number == n && n in Numbers(prs[..i]);
      var pr :| pr in prs[..i] && pr.number == n;
      var j :| 0 <= j < i && prs[..i][j] == pr;
      assert prs[j].number == prs[i].number;
    case CycleDetected(cycle) =>
      var parents :| Resolved(prs, parents) && IsFirstCycle(parents, cycle);
      CycleRefutesAcyclic(parents, cycle);
      TangledIsNoStack(prs, parents);
    case AmbiguousOrder(ns) =>
      var parents :| Resolved(prs, parents) && Branches(parents, ns);
      assert ns[0] in ns && ns[1] in ns && ns[0] < ns[1];
      TangledIsNoStack(prs, parents);
    case _ =>
      var child :| child in prs && Resolve(prs, child) == Failure(error);
      ResolveMeaning(prs, child);
  }

  lemma TangledIsNoStack(prs: seq<PullRequest>, parents: Parents)
    requires DistinctNumbers(prs) && Resolved(prs, parents)
    requires !Acyclic(parents)
      || (exists a, b :: a in parents && b in parents && a != b && parents[a] == parents[b])
    ensures !IsStack(prs)
  {
    if prs != [] {
      forall order
        ensures !IsMergeOrder(prs, order)
      {
        MergeOrderIsChain(prs, parents, order);
        if IsMergeOrder(prs, order) {
          NonEmptyOrder(prs, order);
          ChainShape(parents, order);
        }
      }
    }
  }

  lemma NonEmptyOrder(prs: seq<PullRequest>, order: seq<int>)
    requires prs != [] && Elements(order) == Numbers(prs)
    ensures order != []
  {
    assert prs[0] in prs;
    assert prs[0].number in Numbers(prs);
  }

  // The planner.

  method Plan(prs: seq<PullRequest>) returns (r: Result<StackPlan, StackError>)
    ensures r.Success? <==> IsStack(prs)
    ensures r.Success? ==> IsMergeOrder(prs, r.value.mergeOrder) && AreCorrections(prs, r.value.baseUpdates)
    ensures r.Failure? ==> Explains(prs, r.error)
  {
    if prs == [] {
      return Failure(EmptyStack);
    }
    var indexed, byNumber, byHead := IndexPullRequests(prs);
    if indexed.Failure? {
      ExplainedIsNoStack(prs, indexed.error);
      return Failure(indexed.error);
    }
    var numbers := AscendInts(byNumber.Keys);
    var resolved, parents, updates := ResolveParents(prs, byNumber, byHead, numbers);
    if resolved.Failure? {
      ExplainedIsNoStack(prs, resolved.error);
      return Failure(resolved.error);
    }
    SomeMember(prs, parents);
    var ordered := OrderParents(parents);
    if ordered.Failure? {
      ExplainedIsNoStack(prs, ordered.error);
      return Failure(ordered.error);
    }
    ChainIsStack(prs, parents, ordered.value);
    return Success(StackPlan(ordered.value, updates));
  }

  lemma SomeMember(prs: seq<PullRequest>, parents: Parents)
    requires prs != [] && DistinctNumbers(prs) && Resolved(prs, parents)
    ensures parents.Keys != {} && ClosedParents(parents)
  {
    assert prs[0] in prs;
    MergeOrderIsChain(prs, parents, []);
  }

  lemma ChainIsStack(prs: seq<PullRequest>, parents: Parents, order: seq<int>)
    requires prs != [] && DistinctNumbers(prs) && Resolved(prs, parents) && IsChain(parents, order)
    ensures IsStack(prs) && IsMergeOrder(prs, order)
  {
    ChainToMergeOrder(prs, parents, order);
    forall child | child in prs
      ensures WellDeclared(prs, child)
    {
      ResolveMeaning(prs, child);
    }
  }

  ghost predicate IndexesHeads(prs: seq<PullRequest>, byHead: map<string, seq<int>>) {
    forall branch :: Heads(byHead, branch) == HeadsOn(prs, branch)
  }

  function Heads(byHead: map<string, seq<int>>, branch: string): seq<int> {
    if branch in byHead then byHead[branch] else []
  }

  /** Entering one more pull request in both indexes. */
  lemma IndexNext(prs: seq<PullRequest>, i: nat, byHead: map<string, seq<int>>)
    requires i < |prs| && IndexesHeads(prs[..i], byHead)
    ensures ByNumber(prs[..i + 1]) == ByNumber(prs[..i])[prs[i].number := prs[i]]
    ensures IndexesHeads(prs[..i + 1], byHead[prs[i].head := Heads(byHead, prs[i].head) + [prs[i].number]])
  {
    assert prs[..i + 1][..i] == prs[..i] && prs[..i + 1][i] == prs[i];
    var more := byHead[prs[i].head := Heads(byHead, prs[i].head) + [prs[i].number]];
    forall branch
      ensures Heads(more, branch) == HeadsOn(prs[..i + 1], branch)
    {
      assert Heads(byHead, branch) == HeadsOn(prs[..i], branch);
    }
  }

  lemma DuplicateFound(prs: seq<PullRequest>, i: nat)
    requires i < |prs| && DistinctNumbers(prs[..i]) && prs[i].number in ByNumber(prs[..i])
    ensures Explains(prs, DuplicatePullRequest(prs[i].number)) && !DistinctNumbers(prs)
  {
    assert FirstDuplicate(prs, prs[i].number);
    var earlier :| earlier in prs[..i] && earlier.number == prs[i].number;
    var j :| 0 <= j < i && prs[..i][j] == earlier;
    assert prs[j].number == prs[i].number;
  }

  lemma StillDistinct(prs: seq<PullRequest>, i: nat)
    requires i < |prs| && DistinctNumbers(prs[..i]) && prs[i].number !in ByNumber(prs[..i])
    ensures DistinctNumbers(prs[..i + 1])
  {
    forall j | 0 <= j < i
      ensures prs[j].number != prs[i].number
    {
      assert prs[j] == prs[..i][j] && prs[j] in prs[..i];
      assert prs[j].number in Numbers(prs[..i]);
    }
    assert forall j | 0 <= j < i :: prs[..i + 1][j] == prs[..i][j];
  }

  method IndexPullRequests(prs: seq<PullRequest>)
    returns (r: Result<(), StackError>, byNumber: map<int, PullRequest>, byHead: map<string, seq<int>>)
    ensures r.Success? <==> DistinctNumbers(prs)
    ensures r.Success? ==> byNumber == ByNumber(prs) && IndexesHeads(prs, byHead)
    ensures r.Failure? ==> Explains(prs, r.error)
  {
    byNumber, byHead := map[], map[];
    hide DistinctNumbers, IndexesHeads, Explains;
    IndexNothing(prs);
    for i := 0 to |prs|
      invariant DistinctNumbers(prs[..i]) && byNumber == ByNumber(prs[..i]) && IndexesHeads(prs[..i], byHead)
    {
      if prs[i].number in byNumber {
        DuplicateFound(prs, i);
        return Failure(DuplicatePullRequest(prs[i].number)), byNumber, byHead;
      }
      StillDistinct(prs, i);
      IndexNext(prs, i, byHead);
      byNumber := byNumber[prs[i].number := prs[i]];
      byHead := byHead[prs[i].head := Heads(byHead, prs[i].head) + [prs[i].number]];
    }
    assert prs[..|prs|] == prs;
    return Success(()), byNumber, byHead;
  }

  lemma IndexNothing(prs: seq<PullRequest>)
    ensures DistinctNumbers(prs[..0]) && ByNumber(prs[..0]) == map[] && IndexesHeads(prs[..0], map[])
  {
  }

  /** The correction of one pull request, read off the index. */
  function Correction(byNumber: map<int, PullRequest>, child: PullRequest): Option<BaseUpdate> {
    if child.explicitParent.Some? && child.explicitParent.value in byNumber
       && child.base != byNumber[child.explicitParent.value].head
    then Some(BaseUpdate(child.number, child.base, byNumber[child.explicitParent.value].head))
    else None
  }

  lemma CorrectionMeaning(prs: seq<PullRequest>, u: BaseUpdate)
    requires DistinctNumbers(prs)
    ensures IsCorrection(prs, u) <==>
              u.pullRequest in ByNumber(prs) && Correction(ByNumber(prs), ByNumber(prs)[u.pullRequest]) == Some(u)
  {
    var byNumber := ByNumber(prs);
    if IsCorrection(prs, u) {
      var child, parent :| child in prs && parent in prs && child.explicitParent == Some(parent.number)
        && child.base != parent.head && u == BaseUpdate(child.number, child.base, parent.head);
      ByNumberExact(prs, child);
      ByNumberExact(prs, parent);
    }
    if u.pullRequest in byNumber && Correction(byNumber, byNumber[u.pullRequest]) == Some(u) {
      ByNumberMember(prs, u.pullRequest);
      ByNumberMember(prs, byNumber[u.pullRequest].explicitParent.value);
    }
  }

  method ResolveOne(
    prs: seq<PullRequest>, byNumber: map<int, PullRequest>, byHead: map<string, seq<int>>, child: PullRequest)
    returns (r: Result<Option<int>, StackError>, correction: Option<BaseUpdate>)
    requires byNumber == ByNumber(prs) && IndexesHeads(prs, byHead)
    ensures r == Resolve(prs, child)
    ensures r.Success? ==> correction == Correction(byNumber, child)
  {
    correction := None;
    var inferred := Heads(byHead, child.base);
    if |inferred| > 1 {
      return Failure(AmbiguousParents(child.number, inferred)), correction;
    }
    match child.explicitParent
    case Some(declared) =>
      if declared !in byNumber {
        return Failure(MissingParent(child.number, declared)), correction;
      }
      if inferred != [] && inferred[0] != declared {
        return Failure(ConflictingParent(child.number, declared, inferred[0])), correction;
      }
      if child.base != byNumber[declared].head {
        correction := Some(BaseUpdate(child.number, child.base, byNumber[declared].head));
      }
      return Success(Some(declared)), correction;
    case None =>
      return Success(if inferred == [] then None else Some(inferred[0])), correction;
  }

  /** What the loop over the numbers has settled so far. */
  ghost predicate Settled(
    prs: seq<PullRequest>, byNumber: map<int, PullRequest>, done: set<int>, parents: Parents, updates: seq<BaseUpdate>)
  {
    && parents.Keys == done <= byNumber.Keys
    && (forall n | n in done :: Resolve(prs, byNumber[n]) == Success(parents[n]))
    && (forall u :: u in updates <==> u.pullRequest in done && Correction(byNumber, byNumber[u.pullRequest]) == Some(u))
    && (forall i, j | 0 <= i < j < |updates| :: updates[i].pullRequest < updates[j].pullRequest)
  }

  method ResolveParents(
    prs: seq<PullRequest>, byNumber: map<int, PullRequest>, byHead: map<string, seq<int>>, numbers: seq<int>)
    returns (r: Result<(), StackError>, parents: Parents, updates: seq<BaseUpdate>)
    requires DistinctNumbers(prs) && byNumber == ByNumber(prs) && IndexesHeads(prs, byHead)
    requires Ascending(numbers) && Elements(numbers) == Numbers(prs)
    ensures r.Success? ==> Resolved(prs, parents) && AreCorrections(prs, updates)
    ensures r.Failure? ==> Explains(prs, r.error)
  {
    parents, updates := map[], [];
    for i := 0 to |numbers|
      invariant Settled(prs, byNumber, Elements(numbers[..i]), parents, updates)
    {
      AscendStep(numbers, i);
      ByNumberMember(prs, numbers[i]);
      var parent, correction := ResolveOne(prs, byNumber, byHead, byNumber[numbers[i]]);
      if parent.Failure? {
        UnresolvedFirst(prs, numbers, i, parents, updates, parent.error);
        return Failure(parent.error), parents, updates;
      }
      SettleNext(prs, byNumber, Elements(numbers[..i]), parents, updates, numbers[i], parent.value, correction);
      parents := parents[numbers[i] := parent.value];
      if correction.Some? {
        updates := updates + [correction.value];
      }
    }
    assert numbers[..|numbers|] == numbers;
    AllSettled(prs, parents, updates);
    return Success(()), parents, updates;
  }

  lemma SettleNext(
    prs: seq<PullRequest>, byNumber: map<int, PullRequest>, done: set<int>, parents: Parents, updates: seq<BaseUpdate>,
    n: int, parent: Option<int>, correction: Option<BaseUpdate>)
    requires Settled(prs, byNumber, done, parents, updates)
    requires n in byNumber && byNumber[n].number == n && n !in done && forall m | m in done :: m < n
    requires Resolve(prs, byNumber[n]) == Success(parent) && correction == Correction(byNumber, byNumber[n])
    ensures Settled(prs, byNumber, done + {n}, parents[n := parent],
                    if correction.Some? then updates + [correction.value] else updates)
  {
    assert forall i | 0 <= i < |updates| :: updates[i] in updates;
  }

  lemma UnresolvedFirst(
    prs: seq<PullRequest>, numbers: seq<int>, i: nat, parents: Parents, updates: seq<BaseUpdate>, error: StackError)
    requires DistinctNumbers(prs) && Ascending(numbers) && Elements(numbers) == Numbers(prs) && i < |numbers|
    requires Settled(prs, ByNumber(prs), Elements(numbers[..i]), parents, updates)
    requires numbers[i] in ByNumber(prs) && Resolve(prs, ByNumber(prs)[numbers[i]]) == Failure(error)
    ensures Explains(prs, error)
  {
    AscendStep(numbers, i);
    ByNumberMember(prs, numbers[i]);
    var child := ByNumber(prs)[numbers[i]];
    forall other | other in prs && other.number < child.number
      ensures Resolve(prs, other).Success?
    {
      ByNumberExact(prs, other);
      assert other.number in Elements(numbers);
    }
    assert FirstUnresolved(prs, error);
  }

  lemma AllSettled(prs: seq<PullRequest>, parents: Parents, updates: seq<BaseUpdate>)
    requires DistinctNumbers(prs) && Settled(prs, ByNumber(prs), Numbers(prs), parents, updates)
    ensures Resolved(prs, parents) && AreCorrections(prs, updates)
  {
    forall child | child in prs
      ensures Resolve(prs, child) == Success(parents[child.number])
    {
      ByNumberExact(prs, child);
    }
    forall u
      ensures u in updates <==> IsCorrection(prs, u)
    {
      CorrectionMeaning(prs, u);
    }
  }

  /** From the parent map to the order: cycles, roots, siblings, then the walk down. */
  method OrderParents(parents: Parents) returns (r: Result<seq<int>, StackError>)
    requires ClosedParents(parents) && parents.Keys != {}
    ensures r.Success? ==> IsChain(parents, r.value)
    ensures r.Failure? ==>
              || (r.error.CycleDetected? && IsFirstCycle(parents, r.error.cycle))
              || (r.error.AmbiguousOrder? && Branches(parents, r.error.pullRequests))
  {
    var cycle := RejectCycles(parents);
    if cycle.Some? {
      return Failure(CycleDetected(cycle.value));
    }
    var roots := Roots(parents);
    if |roots| != 1 {
      AcyclicHasRoot(parents);
      return Failure(AmbiguousOrder(roots));
    }
    assert roots == [roots[0]];
    var children := Children(parents);
    var siblings := FirstSiblingGroup(parents, children);
    if siblings.Some? {
      var root := roots[0];
      assert AreRoots(parents, [root]);
      assert FirstSiblings(parents, siblings.value);
      return Failure(AmbiguousOrder(siblings.value));
    }
    var order := WalkDown(parents, children, roots[0]);
    AllOrdered(parents, roots[0], order);
    if |order| != |parents| {
      // the omitted pull requests: never any
      assert false;
    }
    return Success(order);
  }

  /** The walk from the only root of an acyclic map leaves nothing out. */
  lemma AllOrdered(parents: Parents, root: int, order: seq<int>)
    requires ClosedParents(parents) && Acyclic(parents) && AreRoots(parents, [root])
    requires Distinct(order) && Elements(order) <= parents.Keys && root in Elements(order)
    requires forall n | n in parents && parents[n].Some? && parents[n].value in Elements(order) :: n in Elements(order)
    ensures Elements(order) == parents.Keys && |order| == |parents|
  {
    forall n | n in parents && parents[n].None?
      ensures n in Elements(order)
    {
      assert n in [root];
    }
    AcyclicCovers(parents, Elements(order));
    DistinctCount(order);
  }

  method Roots(parents: Parents) returns (roots: seq<int>)
    ensures AreRoots(parents, roots)
  {
    var numbers := AscendInts(parents.Keys);
    roots := [];
    for i := 0 to |numbers|
      invariant Ascending(roots)
      invariant forall n :: n in roots <==> n in Elements(numbers[..i]) && n in parents && parents[n].None?
    {
      AscendStep(numbers, i);
      if parents[numbers[i]].None? {
        AscendPush(roots, numbers[i]);
        roots := roots + [numbers[i]];
      }
    }
    assert numbers[..|numbers|] == numbers;
  }

  ghost predicate GroupsChildren(parents: Parents, children: map<int, seq<int>>) {
    && (forall p | p in children :: p in parents && children[p] != [] && AreChildren(parents, p, children[p]))
    && (forall n | n in parents && parents[n].Some? :: parents[n].value in children)
  }

  /** The same, for the members seen so far. */
  ghost predicate GroupsBelow(parents: Parents, seen: set<int>, children: map<int, seq<int>>) {
    && (forall p | p in children :: p in parents && children[p] != [] && GroupOf(parents, seen, p, children[p]))
    && (forall n | n in seen && n in parents && parents[n].Some? :: parents[n].value in children)
  }

  ghost predicate GroupOf(parents: Parents, seen: set<int>, p: int, group: seq<int>) {
    && Ascending(group)
    && forall n :: n in group <==> n in seen && n in parents && parents[n] == Some(p)
  }

  method Children(parents: Parents) returns (children: map<int, seq<int>>)
    requires ClosedParents(parents)
    ensures GroupsChildren(parents, children)
  {
    var numbers := AscendInts(parents.Keys);
    children := map[];
    hide Ascending, GroupsBelow;
    GroupNothing(parents);
    for i := 0 to |numbers|
      invariant GroupsBelow(parents, Elements(numbers[..i]), children)
    {
      var child := numbers[i];
      AscendStep(numbers, i);
      GroupNext(parents, Elements(numbers[..i]), children, child);
      if parents[child].Some? {
        var known := if parents[child].value in children then children[parents[child].value] else [];
        children := children[parents[child].value := known + [child]];
      }
    }
    assert numbers[..|numbers|] == numbers;
    AllGrouped(parents, children);
  }

  lemma GroupNothing(parents: Parents)
    ensures GroupsBelow(parents, Elements<int>([]), map[])
  {
  }

  lemma AllGrouped(parents: Parents, children: map<int, seq<int>>)
    requires GroupsBelow(parents, parents.Keys, children)
    ensures GroupsChildren(parents, children)
  {
    forall p | p in children
      ensures p in parents && children[p] != [] && AreChildren(parents, p, children[p])
    {
      assert GroupOf(parents, parents.Keys, p, children[p]);
    }
  }

  lemma GroupNext(parents: Parents, seen: set<int>, children: map<int, seq<int>>, child: int)
    requires ClosedParents(parents) && GroupsBelow(parents, seen, children)
    requires child in parents && forall n | n in seen :: n < child
    ensures parents[child].None? ==> GroupsBelow(parents, seen + {child}, children)
    ensures parents[child].Some? ==>
              var p := parents[child].value;
              GroupsBelow(parents, seen + {child}, children[p := (if p in children then children[p] else []) + [child]])
  {
    forall p | p in children
      ensures GroupOf(parents, seen, p, children[p])
      ensures parents[child] != Some(p) ==> GroupOf(parents, seen + {child}, p, children[p])
    {
    }
    if parents[child].Some? {
      var p := parents[child].value;
      var known := if p in children then children[p] else [];
      assert GroupOf(parents, seen, p, known);
      AscendPush(known, child);
      assert GroupOf(parents, seen + {child}, p, known + [child]);
    }
  }

  method FirstSiblingGroup(parents: Parents, children: map<int, seq<int>>) returns (r: Option<seq<int>>)
    requires GroupsChildren(parents, children)
    ensures r.Some? ==> FirstSiblings(parents, r.value)
    ensures r.None? ==> forall p | p in children :: |children[p]| <= 1
  {
    var groups := AscendInts(children.Keys);
    hide Ascending, GroupsChildren, FirstSiblings;
    for i := 0 to |groups|
      invariant forall p | p in Elements(groups[..i]) :: p in children && |children[p]| <= 1
    {
      AscendStep(groups, i);
      if |children[groups[i]]| > 1 {
        SiblingsFound(parents, children, groups[i]);
        return Some(children[groups[i]]);
      }
    }
    assert groups[..|groups|] == groups;
    assert forall p | p in children :: p in Elements(groups);
    return None;
  }

  lemma SiblingsFound(parents: Parents, children: map<int, seq<int>>, parent: int)
    requires GroupsChildren(parents, children) && parent in children && |children[parent]| > 1
    requires forall p | p in children && p < parent :: |children[p]| <= 1
    ensures FirstSiblings(parents, children[parent])
  {
    hide Ascending;
    assert AreChildren(parents, parent, children[parent]);
    assert OneChildBelow(parents, parent) by {
      forall a, b | a in parents && b in parents && parents[a].Some? && parents[a] == parents[b] && parents[a].value < parent
        ensures a == b
      {
        var p := parents[a].value;
        assert p in children && AreChildren(parents, p, children[p]);
        assert a in children[p] && b in children[p];
      }
    }
  }

  /** From the root, child after child, until a pull request has none. */
  method WalkDown(parents: Parents, children: map<int, seq<int>>, root: int) returns (order: seq<int>)
    requires GroupsChildren(parents, children) && AreRoots(parents, [root])
    requires forall p | p in children :: |children[p]| <= 1
    ensures Downwards(parents, order) && Elements(order) <= parents.Keys && root in Elements(order)
    ensures forall n | n in parents && parents[n].Some? && parents[n].value in Elements(order) :: n in Elements(order)
  {
    hide Downwards, GroupsChildren;
    StartDown(parents, root);
    order := [];
    var current := root;
    while true
      invariant Downwards(parents, order + [current]) && current in parents && current !in Elements(order)
      invariant Elements(order) <= parents.Keys && root in Elements(order + [current])
      invariant forall n | n in parents && parents[n].Some? && parents[n].value in Elements(order) ::
                  n in Elements(order) + {current}
      decreases parents.Keys - Elements(order)
    {
      ghost var unseen := parents.Keys - Elements(order);
      ghost var done := Elements(order);
      order := order + [current];
      assert Elements(order) == done + {current};
      assert parents.Keys - Elements(order) == unseen - {current} && current in unseen;
      if current !in children {
        NoChildren(parents, children, current);
        break;
      }
      OnlyChild(parents, children, current);
      var child := children[current][0];
      ChildIsNew(parents, order, child);
      current := child;
    }
  }

  /** Each member right after its parent, the first a root. */
  ghost predicate Downwards(parents: Parents, order: seq<int>) {
    Distinct(order) && forall i | 0 <= i < |order| :: AfterParent(parents, order, i)
  }

  lemma StartDown(parents: Parents, root: int)
    requires AreRoots(parents, [root])
    ensures Downwards(parents, [] + [root]) && root in parents
  {
    assert root in [root];
  }

  lemma NoChildren(parents: Parents, children: map<int, seq<int>>, current: int)
    requires GroupsChildren(parents, children) && current !in children
    ensures forall n | n in parents :: parents[n] != Some(current)
  {
  }

  lemma OnlyChild(parents: Parents, children: map<int, seq<int>>, current: int)
    requires GroupsChildren(parents, children) && current in children && |children[current]| <= 1
    ensures |children[current]| == 1
    ensures forall n :: n in parents && parents[n] == Some(current) <==> n == children[current][0]
  {
    assert children[current] == [children[current][0]];
    assert AreChildren(parents, current, children[current]);
  }

  lemma ChildIsNew(parents: Parents, order: seq<int>, child: int)
    requires order != [] && Downwards(parents, order)
    requires child in parents && parents[child] == Some(order[|order| - 1])
    ensures child !in Elements(order) && Downwards(parents, order + [child])
  {
    forall i | 0 <= i < |order|
      ensures order[i] != child
    {
      assert AfterParent(parents, order, i);
    }
    forall i | 0 <= i < |order + [child]|
      ensures AfterParent(parents, order + [child], i)
    {
      assert i < |order| ==> AfterParent(parents, order, i);
    }
  }
}
