/** Whatever the planner refuses, every detail of its refusal follows from the list (src/stack.rs). */
module StackRefusals {
  import opened Basics
  import opened Ordering
  import opened ParentChains
  import opened StackPlanner

  lemma OneParentMap(prs: seq<PullRequest>, a: Parents, b: Parents)
    requires Resolved(prs, a) && Resolved(prs, b)
    ensures a == b
  {
    forall n | n in a
      ensures n in b && a[n] == b[n]
    {
      var child :| child in prs && child.number == n;
      assert Resolve(prs, child) == Success(a[child.number]);
    }
  }

  lemma OneDuplicate(prs: seq<PullRequest>, a: int, b: int)
    requires FirstDuplicate(prs, a) && FirstDuplicate(prs, b)
    ensures a == b && !DistinctNumbers(prs)
  {
    var i :| 0 <= i < |prs| && prs[i].number == a && a in Numbers(prs[..i]) && DistinctNumbers(prs[..i]);
    var j :| 0 <= j < |prs| && prs[j].number == b && b in Numbers(prs[..j]) && DistinctNumbers(prs[..j]);
    RepeatedBefore(prs, i);
    RepeatedBefore(prs, j);
    if i < j {
      StillRepeated(prs, i, j);
    } else if j < i {
      StillRepeated(prs, j, i);
    }
  }

  lemma RepeatedBefore(prs: seq<PullRequest>, i: nat)
    requires i < |prs| && prs[i].number in Numbers(prs[..i])
    ensures exists k | 0 <= k < i :: prs[k].number == prs[i].number
    ensures !DistinctNumbers(prs)
  {
    var pr :| pr in prs[..i] && pr.number == prs[i].number;
    var k :| 0 <= k < i && prs[..i][k] == pr;
    assert prs[k].number == prs[i].number;
  }

  lemma StillRepeated(prs: seq<PullRequest>, i: nat, j: nat)
    requires i < j <= |prs| && exists k | 0 <= k < i :: prs[k].number == prs[i].number
    ensures !DistinctNumbers(prs[..j])
  {
    var k :| 0 <= k < i && prs[k].number == prs[i].number;
    assert prs[..j][k].number == prs[..j][i].number;
  }

  lemma OneUnresolved(prs: seq<PullRequest>, a: StackError, b: StackError)
    requires DistinctNumbers(prs) && FirstUnresolved(prs, a) && FirstUnresolved(prs, b)
    ensures a == b
  {
    hide Resolve;
    var x :| x in prs && Resolve(prs, x) == Failure(a)
      && forall other | other in prs && other.number < x.number :: Resolve(prs, other).Success?;
    var y :| y in prs && Resolve(prs, y) == Failure(b)
      && forall other | other in prs && other.number < y.number :: Resolve(prs, other).Success?;
    SameNumber(prs, x, y);
  }

  lemma OneBranching(parents: Parents, a: seq<int>, b: seq<int>)
    requires Branches(parents, a) && Branches(parents, b)
    ensures a == b
  {
    hide Acyclic, Ascending, OneChildBelow;
    if AreRoots(parents, a) {
      OnlyRoots(parents, a, b);
    } else if AreRoots(parents, b) {
      OnlyRoots(parents, b, a);
    } else {
      OneSiblingGroup(parents, a, b);
    }
  }

  lemma SameAscending(a: seq<int>, b: seq<int>)
    requires Ascending(a) && Ascending(b) && forall n :: n in a <==> n in b
    ensures a == b
  {
    forall n
      ensures n in Elements(a) <==> n in Elements(b)
    {
      assert n in Elements(a) <==> n in a;
      assert n in Elements(b) <==> n in b;
    }
    assert Elements(a) == Elements(b);
    AscendingUnique(a, b);
  }

  lemma OnlyRoots(parents: Parents, roots: seq<int>, other: seq<int>)
    requires AreRoots(parents, roots) && |roots| > 1 && Branches(parents, other)
    ensures roots == other
  {
    hide FirstSiblings, Acyclic, Ascending;
    if AreRoots(parents, other) {
      SameAscending(roots, other);
    } else {
      var root :| AreRoots(parents, [root]) && FirstSiblings(parents, other);
      SameAscending(roots, [root]);
    }
  }

  lemma OneSiblingGroup(parents: Parents, a: seq<int>, b: seq<int>)
    requires FirstSiblings(parents, a) && FirstSiblings(parents, b)
    ensures a == b
  {
    var p :| p in parents && AreChildren(parents, p, a) && OneChildBelow(parents, p);
    var q :| q in parents && AreChildren(parents, q, b) && OneChildBelow(parents, q);
    if p < q {
      TwoChildren(parents, p, a, q);
    } else if q < p {
      TwoChildren(parents, q, b, p);
    }
    SameAscending(a, b);
  }

  lemma TwoChildren(parents: Parents, p: int, children: seq<int>, bound: int)
    requires AreChildren(parents, p, children) && |children| > 1 && p < bound
    ensures !OneChildBelow(parents, bound)
  {
    assert children[0] in children && children[1] in children && children[0] < children[1];
  }

  /** What kind of refusal it is follows from the list. */
  lemma SameKindOfRefusal(prs: seq<PullRequest>, a: StackError, b: StackError)
    requires Explains(prs, a) && Explains(prs, b)
    ensures a.EmptyStack? == b.EmptyStack? && a.DuplicatePullRequest? == b.DuplicatePullRequest?
    ensures a.CycleDetected? == b.CycleDetected? && a.AmbiguousOrder? == b.AmbiguousOrder?
  {
    hide FirstDuplicate, FirstUnresolved, Resolved, IsFirstCycle, Branches, DistinctNumbers;
    OnlyKind(prs, a);
    OnlyKind(prs, b);
  }

  ghost predicate SomeDuplicate(prs: seq<PullRequest>) {
    prs != [] && !DistinctNumbers(prs)
  }

  ghost predicate SomeCycle(prs: seq<PullRequest>) {
    exists parents :: Resolved(prs, parents) && !Acyclic(parents)
  }

  ghost predicate Decided(prs: seq<PullRequest>) {
    exists parents :: Resolved(prs, parents)
  }

  /** Each kind has its own condition on the list. */
  lemma OnlyKind(prs: seq<PullRequest>, error: StackError)
    requires Explains(prs, error)
    ensures error.EmptyStack? <==> prs == []
    ensures error.DuplicatePullRequest? <==> SomeDuplicate(prs)
    ensures error.CycleDetected? <==> prs != [] && DistinctNumbers(prs) && SomeCycle(prs)
    ensures error.AmbiguousOrder? <==> prs != [] && DistinctNumbers(prs) && Decided(prs) && !SomeCycle(prs)
  {
    match error
    case EmptyStack =>
    case DuplicatePullRequest(n) =>
      OneDuplicate(prs, n, n);
    case CycleDetected(cycle) =>
      var parents :| Resolved(prs, parents) && IsFirstCycle(parents, cycle);
      CycleRefutesAcyclic(parents, cycle);
      NotEmptyMap(prs, parents);
    case AmbiguousOrder(ns) =>
      var parents :| Resolved(prs, parents) && Branches(parents, ns);
      NoOtherMap(prs, parents);
      NotEmptyMap(prs, parents);
    case _ =>
      var child :| child in prs && Resolve(prs, child) == Failure(error);
  }

  lemma NotEmptyMap(prs: seq<PullRequest>, parents: Parents)
    requires Resolved(prs, parents) && (!Acyclic(parents) || exists ns :: Branches(parents, ns))
    ensures prs != []
  {
    hide Acyclic, Branches;
    if Acyclic(parents) {
      var ns :| Branches(parents, ns);
      BranchMember(parents, ns);
    } else {
      CyclicMember(parents);
    }
  }

  lemma BranchMember(parents: Parents, ns: seq<int>)
    requires Branches(parents, ns)
    ensures parents != map[]
  {
    assert ns[0] in ns;
  }

  lemma CyclicMember(parents: Parents)
    requires !Acyclic(parents)
    ensures parents != map[]
  {
  }

  lemma NoOtherMap(prs: seq<PullRequest>, parents: Parents)
    requires Resolved(prs, parents) && Acyclic(parents)
    ensures !SomeCycle(prs)
  {
    hide Resolved, Acyclic;
    if other :| Resolved(prs, other) && !Acyclic(other) {
      OneParentMap(prs, parents, other);
    }
  }

  /** A list that is no stack is refused for one reason: every detail of the error follows from the list. */
  lemma OneRefusal(prs: seq<PullRequest>, a: StackError, b: StackError)
    requires Explains(prs, a) && Explains(prs, b)
    ensures a == b
  {
    SameKindOfRefusal(prs, a, b);
    hide FirstDuplicate, FirstUnresolved, Resolved, IsFirstCycle, Branches, DistinctNumbers;
    match a
    case EmptyStack =>
    case DuplicatePullRequest(n) =>
      OneDuplicate(prs, a.number, b.number);
    case CycleDetected(cycle) =>
      var p :| Resolved(prs, p) && IsFirstCycle(p, a.cycle);
      var q :| Resolved(prs, q) && IsFirstCycle(q, b.cycle);
      OneParentMap(prs, p, q);
      FirstCycleUnique(p, a.cycle, b.cycle);
    case AmbiguousOrder(ns) =>
      var p :| Resolved(prs, p) && Branches(p, a.pullRequests);
      var q :| Resolved(prs, q) && Branches(q, b.pullRequests);
      OneParentMap(prs, p, q);
      OneBranching(p, a.pullRequests, b.pullRequests);
    case _ =>
      OneUnresolved(prs, a, b);
  }
}
