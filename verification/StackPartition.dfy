/** Splitting observed pull requests into independent stacks (src/stack.rs, partition). */
module StackPartition {
  import opened Basics
  import opened Ordering
  import opened StackPlanner

  /** The pull request this one is attached to: its declared parent, else the only head its base names. */
  ghost function Candidate(prs: seq<PullRequest>, pr: PullRequest): Option<int> {
    if pr.explicitParent.Some? then pr.explicitParent
    else if |HeadsOn(prs, pr.base)| == 1 then Some(HeadsOn(prs, pr.base)[0])
    else None
  }

  /** The declared parent when there is one; else the number of the only pull request whose head is this one's base. */
  ghost predicate IsCandidate(prs: seq<PullRequest>, pr: PullRequest, n: int) {
    if pr.explicitParent.Some? then pr.explicitParent == Some(n) else exists i :: OnlyHead(prs, pr.base, i) && prs[i].number == n
  }

  ghost predicate OnlyHead(prs: seq<PullRequest>, branch: string, i: int) {
    0 <= i < |prs| && prs[i].head == branch && forall j | 0 <= j < |prs| && j != i :: prs[j].head != branch
  }

  lemma {:induction false} HeadsOnNone(prs: seq<PullRequest>, branch: string)
    ensures HeadsOn(prs, branch) == [] <==> forall j | 0 <= j < |prs| :: prs[j].head != branch
  {
    if prs != [] {
      var front, last := prs[..|prs| - 1], |prs| - 1;
      HeadsOnNone(front, branch);
      assert forall j | 0 <= j < last :: front[j] == prs[j];
      assert prs[last].head == branch ==> HeadsOn(prs, branch) == HeadsOn(front, branch) + [prs[last].number] != [];
      assert prs[last].head != branch ==> HeadsOn(prs, branch) == HeadsOn(front, branch);
      hide HeadsOn;
    }
  }

  lemma {:induction false} HeadsOnOnly(prs: seq<PullRequest>, branch: string, n: int)
    ensures HeadsOn(prs, branch) == [n] <==> exists i :: OnlyHead(prs, branch, i) && prs[i].number == n
  {
    if prs != [] {
      var front, last := prs[..|prs| - 1], |prs| - 1;
      HeadsOnNone(front, branch);
      if prs[last].head == branch {
        LastHead(HeadsOn(front, branch), prs[last].number, n);
        forall i | OnlyHead(prs, branch, i)
          ensures i == last && HeadsOn(front, branch) == []
        {
          assert forall j | 0 <= j < last :: front[j] == prs[j];
        }
        assert HeadsOn(front, branch) == [] ==> OnlyHead(prs, branch, last) by {
          assert forall j | 0 <= j < last :: front[j] == prs[j];
        }
      } else {
        HeadsOnOnly(front, branch, n);
        assert forall i | 0 <= i < last :: OnlyHead(prs, branch, i) <==> OnlyHead(front, branch, i);
      }
    }
  }

  lemma LastHead(heads: seq<int>, last: int, n: int)
    ensures heads + [last] == [n] <==> heads == [] && last == n
  {
    if heads + [last] == [n] {
      assert |heads + [last]| == 1 && (heads + [last])[0] == n;
    }
  }

  lemma CandidateIs(prs: seq<PullRequest>, pr: PullRequest, n: int)
    ensures Candidate(prs, pr) == Some(n) <==> IsCandidate(prs, pr, n)
  {
    hide HeadsOn, OnlyHead;
    HeadsOnOnly(prs, pr.base, n);
    assert |[n]| == 1;
    if pr.explicitParent.None? && |HeadsOn(prs, pr.base)| == 1 {
      assert HeadsOn(prs, pr.base) == [HeadsOn(prs, pr.base)[0]];
    }
  }

  /** One pull request of the list is attached to another of the list, in either direction. */
  ghost predicate Linked(prs: seq<PullRequest>, a: int, b: int) {
    exists pr :: pr in prs && Attaches(prs, pr, a, b)
  }

  ghost predicate Attaches(prs: seq<PullRequest>, pr: PullRequest, a: int, b: int) {
    && a in Numbers(prs) && b in Numbers(prs)
    && ((pr.number == a && IsCandidate(prs, pr, b)) || (pr.number == b && IsCandidate(prs, pr, a)))
  }

  ghost predicate IsPath(prs: seq<PullRequest>, path: seq<int>) {
    path != [] && forall i | 0 <= i < |path| - 1 :: LinkAt(prs, path, i)
  }

  ghost predicate LinkAt(prs: seq<PullRequest>, path: seq<int>, i: int)
    requires 0 <= i < |path| - 1
  {
    Linked(prs, path[i], path[i + 1])
  }

  ghost predicate Joined(prs: seq<PullRequest>, a: int, b: int) {
    exists path :: IsPath(prs, path) && path[0] == a && path[|path| - 1] == b
  }

  /** A set no link leaves. */
  ghost predicate Closed(prs: seq<PullRequest>, s: set<int>) {
    forall a, b | a in s && Linked(prs, a, b) :: b in s
  }

  lemma {:induction false} ClosedKeepsPaths(prs: seq<PullRequest>, s: set<int>, path: seq<int>)
    requires Closed(prs, s) && IsPath(prs, path) && path[0] in s
    ensures path[|path| - 1] in s
  {
    if |path| > 1 {
      assert LinkAt(prs, path, 0);
      forall i | 0 <= i < |path[1..]| - 1
        ensures LinkAt(prs, path[1..], i)
      {
        assert LinkAt(prs, path, i + 1);
      }
      ClosedKeepsPaths(prs, s, path[1..]);
    }
  }

  lemma JoinedSelf(prs: seq<PullRequest>, a: int)
    ensures Joined(prs, a, a)
  {
    assert IsPath(prs, [a]);
  }

  lemma JoinedLink(prs: seq<PullRequest>, a: int, b: int, c: int)
    requires Joined(prs, a, b) && Linked(prs, b, c)
    ensures Joined(prs, a, c)
  {
    var path :| IsPath(prs, path) && path[0] == a && path[|path| - 1] == b;
    var longer := path + [c];
    forall i | 0 <= i < |longer| - 1
      ensures LinkAt(prs, longer, i)
    {
      assert i < |path| - 1 ==> LinkAt(prs, path, i);
    }
    assert IsPath(prs, longer);
  }

  lemma JoinedSymmetric(prs: seq<PullRequest>, a: int, b: int)
    requires Joined(prs, a, b)
    ensures Joined(prs, b, a)
  {
    var path :| IsPath(prs, path) && path[0] == a && path[|path| - 1] == b;
    var n := |path|;
    var back := seq(n, i requires 0 <= i < n => path[n - 1 - i]);
    forall i | 0 <= i < |back| - 1
      ensures LinkAt(prs, back, i)
    {
      assert LinkAt(prs, path, n - 2 - i);
    }
    assert IsPath(prs, back);
  }

  lemma {:induction false} JoinedTransitive(prs: seq<PullRequest>, a: int, path: seq<int>)
    requires IsPath(prs, path) && Joined(prs, a, path[0])
    ensures Joined(prs, a, path[|path| - 1])
    decreases |path|
  {
    if |path| > 1 {
      var front := path[..|path| - 1];
      forall i | 0 <= i < |front| - 1
        ensures LinkAt(prs, front, i)
      {
        assert LinkAt(prs, path, i);
      }
      JoinedTransitive(prs, a, front);
      assert LinkAt(prs, path, |path| - 2);
      JoinedLink(prs, a, front[|front| - 1], path[|path| - 1]);
    }
  }

  /** Ascending numbers, each with the record the list holds for it. */
  ghost predicate IsComponentList(prs: seq<PullRequest>, component: seq<PullRequest>) {
    && component != []
    && (forall pr | pr in component :: pr.number in ByNumber(prs) && ByNumber(prs)[pr.number] == pr)
    && (forall i, j | 0 <= i < j < |component| :: component[i].number < component[j].number)
  }

  /** Holding one number, a component holds exactly the numbers joined to it. */
  ghost predicate IsJoinedClass(prs: seq<PullRequest>, s: set<int>) {
    && s <= Numbers(prs)
    && forall a, b | a in s :: b in s <==> Joined(prs, a, b)
  }

  /**
   * The connected components of the attachment graph: every number in one of them, two in the same one
   * exactly when a path joins them, ordered by their least number.
   */
  ghost predicate IsPartition(prs: seq<PullRequest>, components: seq<seq<PullRequest>>) {
    && (forall c | c in components :: IsComponentList(prs, c) && IsJoinedClass(prs, Numbers(c)))
    && (forall n | n in Numbers(prs) :: exists c :: c in components && n in Numbers(c))
    && (forall i, j | 0 <= i < j < |components| :: FirstBelow(components[i], components[j]))
  }

  ghost predicate FirstBelow(a: seq<PullRequest>, b: seq<PullRequest>) {
    a != [] && b != [] && a[0].number < b[0].number
  }

  /** Two components share no number. */
  lemma PartitionDisjoint(prs: seq<PullRequest>, components: seq<seq<PullRequest>>, i: nat, j: nat)
    requires IsPartition(prs, components) && i < j < |components|
    ensures Numbers(components[i]) !! Numbers(components[j])
  {
    var a, b := components[i], components[j];
    assert a in components && b in components;
    forall n | n in Numbers(a)
      ensures n !in Numbers(b)
    {
      if n in Numbers(b) {
        SharedNumber(prs, a, b, n);
        SharedNumber(prs, b, a, n);
      }
    }
  }

  lemma SharedNumber(prs: seq<PullRequest>, a: seq<PullRequest>, b: seq<PullRequest>, n: int)
    requires IsComponentList(prs, a) && IsComponentList(prs, b)
    requires IsJoinedClass(prs, Numbers(a)) && IsJoinedClass(prs, Numbers(b))
    requires n in Numbers(a) && n in Numbers(b)
    ensures a[0].number <= b[0].number
  {
    assert b[0] in b;
    assert b[0].number in Numbers(b) && Joined(prs, n, b[0].number);
    assert b[0].number in Numbers(a);
    var pr :| pr in a && pr.number == b[0].number;
    var k :| 0 <= k < |a| && a[k] == pr;
  }

  /** A list that plans as one stack is one component. */
  lemma StackIsOneComponent(prs: seq<PullRequest>, components: seq<seq<PullRequest>>)
    requires IsStack(prs) && IsPartition(prs, components)
    ensures |components| == 1 && Numbers(components[0]) == Numbers(prs)
  {
    hide *;
    var c, at := FirstComponent(prs, components);
    forall m | m in Numbers(prs)
      ensures m in Numbers(c)
    {
      StackJoined(prs, prs[0].number, m);
    }
    OnlyComponent(prs, components, at);
  }

  lemma FirstComponent(prs: seq<PullRequest>, components: seq<seq<PullRequest>>) returns (c: seq<PullRequest>, at: nat)
    requires IsStack(prs) && IsPartition(prs, components)
    ensures prs != [] && at < |components| && components[at] == c && Numbers(c) <= Numbers(prs)
    ensures prs[0].number in Numbers(prs)
    ensures forall m :: m in Numbers(c) <==> Joined(prs, prs[0].number, m)
  {
    assert prs[0] in prs;
    assert prs[0].number in Numbers(prs);
    c :| c in components && prs[0].number in Numbers(c);
    at :| 0 <= at < |components| && components[at] == c;
    assert IsJoinedClass(prs, Numbers(c));
  }

  lemma OnlyComponent(prs: seq<PullRequest>, components: seq<seq<PullRequest>>, at: nat)
    requires IsPartition(prs, components) && at < |components| && Numbers(prs) <= Numbers(components[at])
    ensures |components| == 1 && at == 0 && Numbers(components[0]) == Numbers(prs)
  {
    ComponentHasNumber(prs, components, at);
    if at > 0 {
      ComponentHasNumber(prs, components, 0);
      PartitionDisjoint(prs, components, 0, at);
    } else if |components| > 1 {
      ComponentHasNumber(prs, components, 1);
      PartitionDisjoint(prs, components, 0, 1);
    }
  }

  lemma ComponentHasNumber(prs: seq<PullRequest>, components: seq<seq<PullRequest>>, i: nat)
    requires IsPartition(prs, components) && i < |components|
    ensures Numbers(components[i]) != {} && Numbers(components[i]) <= Numbers(prs)
  {
    var c := components[i];
    assert c in components && c[0] in c;
    assert c[0].number in Numbers(c);
  }

  lemma StackJoined(prs: seq<PullRequest>, a: int, b: int)
    requires IsStack(prs) && a in Numbers(prs) && b in Numbers(prs)
    ensures Joined(prs, a, b)
  {
    var order :| IsMergeOrder(prs, order);
    assert a in Elements(order) && b in Elements(order);
    var i :| 0 <= i < |order| && order[i] == a;
    var j :| 0 <= j < |order| && order[j] == b;
    if i <= j {
      StretchJoined(prs, order, i, j);
    } else {
      StretchJoined(prs, order, j, i);
      JoinedSymmetric(prs, b, a);
    }
  }

  lemma StretchJoined(prs: seq<PullRequest>, order: seq<int>, low: nat, high: nat)
    requires IsStack(prs) && IsMergeOrder(prs, order) && low <= high < |order|
    ensures Joined(prs, order[low], order[high])
  {
    hide IsStack, IsMergeOrder, Linked;
    var path := order[low..high + 1];
    forall k | 0 <= k < |path| - 1
      ensures LinkAt(prs, path, k)
    {
      NeighboursLinked(prs, order, low + k + 1);
    }
    assert IsPath(prs, path);
  }

  lemma NeighboursLinked(prs: seq<PullRequest>, order: seq<int>, i: int)
    requires IsStack(prs) && IsMergeOrder(prs, order) && 0 < i < |order|
    ensures Linked(prs, order[i - 1], order[i])
  {
    var child := MemberAt(prs, order, i);
    var parent := MemberAt(prs, order, i - 1);
    assert FollowsParent(prs, order, i);
    assert IsParent(parent, child);
    if child.explicitParent.None? {
      ResolveMeaning(prs, child);
      HeadsOnContains(prs, child.base, parent);
    }
    CandidateIs(prs, child, parent.number);
    assert Attaches(prs, child, order[i - 1], order[i]);
  }

  // The partitioning loops.

  method Partition(prs: seq<PullRequest>) returns (components: seq<seq<PullRequest>>)
    ensures IsPartition(prs, components)
  {
    var byNumber, byHead := IndexAll(prs);
    var adjacency := Adjacency(prs, byNumber, byHead);
    var numbers := AscendInts(byNumber.Keys);
    components := [];
    var visited: set<int> := {};
    NothingPartitioned(prs);
    hide PartlyPartitioned, IsPartition, IsAdjacency, IsComponentList, IsJoinedClass, Closed;
    for i := 0 to |numbers|
      invariant PartlyPartitioned(prs, Elements(numbers[..i]), visited, components)
    {
      AscendStep(numbers, i);
      VisitedSoFar(prs, Elements(numbers[..i]), visited, components);
      if numbers[i] !in visited {
        var found := Reach(prs, adjacency, numbers[i], visited);
        var component := Records(prs, byNumber, found);
        AddComponent(prs, Elements(numbers[..i]), visited, components, numbers[i], found, component);
        visited := visited + found;
        components := components + [component];
      } else {
        PassedAgain(prs, Elements(numbers[..i]), visited, components, numbers[i]);
      }
    }
    assert numbers[..|numbers|] == numbers;
    FullyPartitioned(prs, visited, components);
  }

  lemma NothingPartitioned(prs: seq<PullRequest>)
    ensures PartlyPartitioned(prs, Elements<int>([]), {}, [])
  {
  }

  lemma VisitedSoFar(prs: seq<PullRequest>, passed: set<int>, visited: set<int>, components: seq<seq<PullRequest>>)
    requires PartlyPartitioned(prs, passed, visited, components)
    ensures visited <= Numbers(prs) && Closed(prs, visited)
  {
  }

  lemma PassedAgain(
    prs: seq<PullRequest>, passed: set<int>, visited: set<int>, components: seq<seq<PullRequest>>, n: int)
    requires PartlyPartitioned(prs, passed, visited, components) && n in visited
    ensures PartlyPartitioned(prs, passed + {n}, visited, components)
  {
    forall c: seq<PullRequest> | c in components
      ensures GoodComponent(prs, passed + {n}, c)
    {
      assert GoodComponent(prs, passed, c);
    }
  }

  lemma FullyPartitioned(prs: seq<PullRequest>, visited: set<int>, components: seq<seq<PullRequest>>)
    requires PartlyPartitioned(prs, Numbers(prs), visited, components)
    ensures IsPartition(prs, components)
  {
    forall n | n in Numbers(prs)
      ensures exists c :: c in components && n in Numbers(c)
    {
      assert InComponent(components, n);
    }
  }

  ghost predicate InComponent(components: seq<seq<PullRequest>>, n: int) {
    exists c :: c in components && n in Numbers(c)
  }

  ghost predicate GoodComponent(prs: seq<PullRequest>, passed: set<int>, c: seq<PullRequest>) {
    IsComponentList(prs, c) && IsJoinedClass(prs, Numbers(c)) && c[0].number in passed
  }

  /** The state between two starts: the numbers passed are in components, and those are complete. */
  ghost predicate PartlyPartitioned(
    prs: seq<PullRequest>, passed: set<int>, visited: set<int>, components: seq<seq<PullRequest>>)
  {
    && passed <= visited <= Numbers(prs) && Closed(prs, visited)
    && (forall c: seq<PullRequest> | c in components :: GoodComponent(prs, passed, c))
    && (forall n :: n in visited <==> InComponent(components, n))
    && (forall i, j | 0 <= i < j < |components| :: FirstBelow(components[i], components[j]))
  }

  lemma AddComponent(
    prs: seq<PullRequest>, passed: set<int>, visited: set<int>, components: seq<seq<PullRequest>>,
    start: int, found: set<int>, component: seq<PullRequest>)
    requires PartlyPartitioned(prs, passed, visited, components)
    requires start in Numbers(prs) - visited && forall n | n in passed :: n < start
    requires forall n | n in Numbers(prs) && n < start :: n in passed
    requires start in found && found !! visited && Closed(prs, visited + found) && IsJoinedClass(prs, found)
    requires IsComponentList(prs, component) && Numbers(component) == found
    ensures PartlyPartitioned(prs, passed + {start}, visited + found, components + [component])
  {
    assert component[0] in component && component[0].number in found;
    ComponentStart(prs, passed, visited, start, found, component);
    AddedInOrder(prs, passed, components, start, component);
    forall n
      ensures n in visited + found <==> InComponent(components + [component], n)
    {
      AnotherComponent(components, component, n);
    }
  }

  lemma AddedInOrder(
    prs: seq<PullRequest>, passed: set<int>, components: seq<seq<PullRequest>>, start: int, component: seq<PullRequest>)
    requires forall c: seq<PullRequest> | c in components :: GoodComponent(prs, passed, c)
    requires forall i, j | 0 <= i < j < |components| :: FirstBelow(components[i], components[j])
    requires forall n | n in passed :: n < start
    requires GoodComponent(prs, {start}, component)
    ensures forall c: seq<PullRequest> | c in components + [component] :: GoodComponent(prs, passed + {start}, c)
    ensures var longer := components + [component];
            forall i, j | 0 <= i < j < |longer| :: FirstBelow(longer[i], longer[j])
  {
    var longer := components + [component];
    forall i, j | 0 <= i < j < |longer|
      ensures FirstBelow(longer[i], longer[j])
    {
      assert longer[i] in components && GoodComponent(prs, passed, longer[i]);
    }
    forall c: seq<PullRequest> | c in longer
      ensures GoodComponent(prs, passed + {start}, c)
    {
      assert c in components ==> GoodComponent(prs, passed, c);
    }
  }

  lemma AnotherComponent(components: seq<seq<PullRequest>>, component: seq<PullRequest>, n: int)
    ensures InComponent(components + [component], n) <==> InComponent(components, n) || n in Numbers(component)
  {
    var longer := components + [component];
    if InComponent(components, n) {
      var c :| c in components && n in Numbers(c);
      assert c in longer;
    }
    assert component in longer;
  }

  lemma ComponentStart(
    prs: seq<PullRequest>, passed: set<int>, visited: set<int>, start: int, found: set<int>, component: seq<PullRequest>)
    requires passed <= visited && found !! visited && found <= Numbers(prs)
    requires forall n | n in Numbers(prs) && n < start :: n in passed
    requires IsComponentList(prs, component) && Numbers(component) == found && start in found
    ensures component[0].number == start
  {
    assert component[0] in component && component[0].number in found;
    var k :| k in component && k.number == start;
    var j :| 0 <= j < |component| && component[j] == k;
  }

  method IndexAll(prs: seq<PullRequest>) returns (byNumber: map<int, PullRequest>, byHead: map<string, seq<int>>)
    ensures byNumber == ByNumber(prs) && IndexesHeads(prs, byHead)
  {
    byNumber, byHead := map[], map[];
    hide IndexesHeads;
    IndexNothing(prs);
    for i := 0 to |prs|
      invariant byNumber == ByNumber(prs[..i]) && IndexesHeads(prs[..i], byHead)
    {
      IndexNext(prs, i, byHead);
      byNumber := byNumber[prs[i].number := prs[i]];
      byHead := byHead[prs[i].head := Heads(byHead, prs[i].head) + [prs[i].number]];
    }
    assert prs[..|prs|] == prs;
  }

  ghost predicate IsAdjacency(prs: seq<PullRequest>, adjacency: map<int, set<int>>) {
    adjacency.Keys == Numbers(prs) && forall a, b | a in adjacency :: b in adjacency[a] <==> Linked(prs, a, b)
  }

  /** The links laid by the first `count` entries. */
  ghost predicate LinksUpTo(prs: seq<PullRequest>, count: nat, adjacency: map<int, set<int>>)
    requires count <= |prs|
  {
    && adjacency.Keys == Numbers(prs)
    && (forall a, b | a in adjacency && b in adjacency[a] :: Linked(prs, a, b))
    && (forall i, a, b | 0 <= i < count && Attaches(prs, prs[i], a, b) :: b in adjacency[a])
  }

  method Adjacency(prs: seq<PullRequest>, byNumber: map<int, PullRequest>, byHead: map<string, seq<int>>)
    returns (adjacency: map<int, set<int>>)
    requires byNumber == ByNumber(prs) && IndexesHeads(prs, byHead)
    ensures IsAdjacency(prs, adjacency)
  {
    adjacency := map n | n in byNumber :: {};
    NoLinksYet(prs, adjacency);
    hide LinksUpTo;
    for i := 0 to |prs|
      invariant LinksUpTo(prs, i, adjacency)
    {
      var pr := prs[i];
      assert pr in prs;
      var heads := Heads(byHead, pr.base);
      var inferred := if |heads| == 1 then Some(heads[0]) else None;
      var candidate := if pr.explicitParent.Some? then pr.explicitParent else inferred;
      LayLink(prs, i, adjacency);
      if candidate.Some? && candidate.value in byNumber {
        adjacency := Lay(adjacency, pr.number, candidate.value);
      }
    }
    LinksComplete(prs, adjacency);
  }

  /** Enter a link at both its ends. */
  function Lay(adjacency: map<int, set<int>>, a: int, b: int): map<int, set<int>> {
    var once := adjacency[a := (if a in adjacency then adjacency[a] else {}) + {b}];
    once[b := (if b in once then once[b] else {}) + {a}]
  }

  lemma NoLinksYet(prs: seq<PullRequest>, adjacency: map<int, set<int>>)
    requires adjacency == map n | n in ByNumber(prs) :: {}
    ensures LinksUpTo(prs, 0, adjacency)
  {
  }

  lemma LinksComplete(prs: seq<PullRequest>, adjacency: map<int, set<int>>)
    requires LinksUpTo(prs, |prs|, adjacency)
    ensures IsAdjacency(prs, adjacency)
  {
    forall a, b | a in adjacency && Linked(prs, a, b)
      ensures b in adjacency[a]
    {
      var pr :| pr in prs && Attaches(prs, pr, a, b);
      var i :| 0 <= i < |prs| && prs[i] == pr;
    }
  }

  lemma LayLink(prs: seq<PullRequest>, i: nat, adjacency: map<int, set<int>>)
    requires i < |prs| && LinksUpTo(prs, i, adjacency)
    ensures var candidate := Candidate(prs, prs[i]);
            && prs[i].number in Numbers(prs)
            && LinksUpTo(prs, i + 1, if candidate.Some? && candidate.value in Numbers(prs)
                                     then Lay(adjacency, prs[i].number, candidate.value) else adjacency)
  {
    hide IsCandidate, Candidate;
    var n, candidate := prs[i].number, Candidate(prs, prs[i]);
    assert prs[i] in prs && n in Numbers(prs);
    forall m
      ensures candidate == Some(m) <==> IsCandidate(prs, prs[i], m)
    {
      CandidateIs(prs, prs[i], m);
    }
    if candidate.Some? && candidate.value in Numbers(prs) {
      assert Attaches(prs, prs[i], n, candidate.value) && Attaches(prs, prs[i], candidate.value, n);
      assert Linked(prs, n, candidate.value) && Linked(prs, candidate.value, n);
    }
  }

  /** Depth-first: everything joined to the start. */
  method Reach(prs: seq<PullRequest>, adjacency: map<int, set<int>>, start: int, before: set<int>)
    returns (found: set<int>)
    requires IsAdjacency(prs, adjacency) && start in Numbers(prs) - before
    requires before <= Numbers(prs) && Closed(prs, before)
    ensures start in found && found !! before && Closed(prs, before + found) && IsJoinedClass(prs, found)
  {
    var visited := before + {start};
    var queue := [start];
    found := {};
    JoinedSelf(prs, start);
    while queue != []
      invariant found !! before && visited == before + found + Elements(queue) && found !! Elements(queue)
      invariant start in found + Elements(queue) && found <= Numbers(prs) && Elements(queue) <= Numbers(prs)
      invariant Distinct(queue) && Elements(queue) !! before
      invariant forall n | n in found + Elements(queue) :: Joined(prs, start, n)
      invariant forall a, b | a in found && Linked(prs, a, b) :: b in visited
      decreases Numbers(prs) - found
    {
      ghost var unseen := Numbers(prs) - found;
      var current := queue[|queue| - 1];
      assert Elements(queue) == Elements(queue[..|queue| - 1]) + {current};
      assert current in Elements(queue) && current !in Elements(queue[..|queue| - 1]);
      queue := queue[..|queue| - 1];
      found := found + {current};
      assert Numbers(prs) - found == unseen - {current};
      queue, visited := PushNeighbours(adjacency, current, queue, visited);
      assert Elements(queue) <= Numbers(prs) by {
        NeighboursKnown(prs, adjacency, current);
      }
      forall n | n in adjacency[current]
        ensures Joined(prs, start, n)
      {
        JoinedLink(prs, start, current, n);
      }
      assert forall b | Linked(prs, current, b) :: b in adjacency[current];
    }
    ReachedClass(prs, before, found, start);
  }

  lemma NeighboursKnown(prs: seq<PullRequest>, adjacency: map<int, set<int>>, current: int)
    requires IsAdjacency(prs, adjacency) && current in adjacency
    ensures adjacency[current] <= Numbers(prs)
  {
    forall n | n in adjacency[current]
      ensures n in Numbers(prs)
    {
      assert Linked(prs, current, n);
      var pr :| pr in prs && Attaches(prs, pr, current, n);
    }
  }

  method PushNeighbours(adjacency: map<int, set<int>>, current: int, queue: seq<int>, visited: set<int>)
    returns (q: seq<int>, v: set<int>)
    requires current in adjacency && Distinct(queue) && Elements(queue) <= visited
    ensures Distinct(q) && v == visited + adjacency[current]
    ensures Elements(q) == Elements(queue) + (adjacency[current] - visited)
  {
    q, v := queue, visited;
    var neighbours := AscendInts(adjacency[current]);
    for i := 0 to |neighbours|
      invariant v == visited + Elements(neighbours[..i])
      invariant Distinct(q) && Elements(q) == Elements(queue) + (Elements(neighbours[..i]) - visited)
    {
      AscendStep(neighbours, i);
      if neighbours[i] !in v {
        assert forall k | 0 <= k < |q| :: q[k] in Elements(q);
        assert Elements(q + [neighbours[i]]) == Elements(q) + {neighbours[i]};
        q, v := q + [neighbours[i]], v + {neighbours[i]};
      }
    }
    assert neighbours[..|neighbours|] == neighbours;
  }

  lemma ReachedClass(prs: seq<PullRequest>, before: set<int>, found: set<int>, start: int)
    requires before <= Numbers(prs) && Closed(prs, before) && found !! before
    requires start in found && found <= Numbers(prs) && forall n | n in found :: Joined(prs, start, n)
    requires forall a, b | a in found && Linked(prs, a, b) :: b in before + found
    ensures Closed(prs, before + found) && IsJoinedClass(prs, found)
  {
    forall a, b | a in found && Linked(prs, a, b)
      ensures b in found
    {
      LinkedSymmetric(prs, a, b);
    }
    assert Closed(prs, found);
    forall a, b | a in found
      ensures b in found <==> Joined(prs, a, b)
    {
      if Joined(prs, a, b) {
        var path :| IsPath(prs, path) && path[0] == a && path[|path| - 1] == b;
        ClosedKeepsPaths(prs, found, path);
      }
      if b in found {
        JoinedSymmetric(prs, start, a);
        var path :| IsPath(prs, path) && path[0] == start && path[|path| - 1] == b;
        JoinedTransitive(prs, a, path);
      }
    }
  }

  lemma LinkedSymmetric(prs: seq<PullRequest>, a: int, b: int)
    requires Linked(prs, a, b)
    ensures Linked(prs, b, a)
  {
    var pr :| pr in prs && Attaches(prs, pr, a, b);
    assert Attaches(prs, pr, b, a);
  }

  method Records(prs: seq<PullRequest>, byNumber: map<int, PullRequest>, numbers: set<int>)
    returns (component: seq<PullRequest>)
    requires byNumber == ByNumber(prs) && numbers <= Numbers(prs) && numbers != {}
    ensures IsComponentList(prs, component) && Numbers(component) == numbers
  {
    var sorted := AscendInts(numbers);
    component := [];
    for i := 0 to |sorted|
      invariant |component| == i
      invariant forall j | 0 <= j < i :: sorted[j] in byNumber && component[j] == byNumber[sorted[j]]
    {
      AscendStep(sorted, i);
      component := component + [byNumber[sorted[i]]];
    }
    RecordsExact(prs, numbers, sorted, component);
  }

  lemma RecordsExact(prs: seq<PullRequest>, numbers: set<int>, sorted: seq<int>, component: seq<PullRequest>)
    requires numbers <= Numbers(prs) && numbers != {} && Ascending(sorted) && Elements(sorted) == numbers
    requires |component| == |sorted|
    requires forall j | 0 <= j < |sorted| :: sorted[j] in ByNumber(prs) && component[j] == ByNumber(prs)[sorted[j]]
    ensures IsComponentList(prs, component) && Numbers(component) == numbers
  {
    forall j | 0 <= j < |sorted|
      ensures component[j].number == sorted[j]
    {
      ByNumberMember(prs, sorted[j]);
    }
    SameNumbers(sorted, component);
    SomeNumber(numbers, sorted);
  }

  lemma SameNumbers(sorted: seq<int>, component: seq<PullRequest>)
    requires |component| == |sorted| && forall j | 0 <= j < |sorted| :: component[j].number == sorted[j]
    ensures Numbers(component) == Elements(sorted)
  {
    forall n | n in Elements(sorted)
      ensures n in Numbers(component)
    {
      var j :| 0 <= j < |sorted| && sorted[j] == n;
      assert component[j] in component;
    }
  }

  lemma SomeNumber(numbers: set<int>, sorted: seq<int>)
    requires numbers != {} && Elements(sorted) == numbers
    ensures sorted != []
  {
    assert sorted == [] ==> Elements(sorted) == {};
  }
}
