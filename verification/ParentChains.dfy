/** Parent maps: walks, cycles and chains. */
module ParentChains {
  import opened Basics
  import opened Ordering

  type Parents = map<int, Option<int>>

  /** The k-th ancestor, or None when the walk from `n` ends before k steps. */
  ghost function Climb(p: Parents, n: int, k: nat): (r: Option<int>)
    decreases k
  {
    if k == 0 then Some(n)
    else
      var m := Climb(p, n, k - 1);
      if m.Some? && m.value in p then p[m.value] else None
  }

  /** The walk from `n` towards the root ends. */
  ghost predicate Grounded(p: Parents, n: int) {
    exists k: nat :: Climb(p, n, k).None?
  }

  ghost predicate Acyclic(p: Parents) {
    forall n | n in p :: Grounded(p, n)
  }

  /** The members of `cycle` are exactly the distinct members of one parent cycle, ascending. */
  ghost predicate IsCycle(p: Parents, cycle: seq<int>) {
    && cycle != []
    && Ascending(cycle)
    && exists walk: seq<int> :: ClosedWalk(p, walk) && Distinct(walk) && Elements(walk) == Elements(cycle)
  }

  /** The walk from `n` comes to a member of `cycle`. */
  ghost predicate ComesTo(p: Parents, n: int, cycle: seq<int>) {
    exists k: nat :: Climb(p, n, k).Some? && Climb(p, n, k).value in cycle
  }

  /** The cycle that the walk from the least member whose walk does not end comes to. */
  ghost predicate IsFirstCycle(p: Parents, cycle: seq<int>) {
    && IsCycle(p, cycle)
    && exists n :: n in p && ComesTo(p, n, cycle) && GroundedBelow(p, n)
  }

  ghost predicate GroundedBelow(p: Parents, n: int) {
    forall m | m in p && m < n :: Grounded(p, m)
  }

  /** Each member's parent is the next one, and the last one's parent is the first. */
  ghost predicate ClosedWalk(p: Parents, walk: seq<int>) {
    && walk != []
    && ParentWalk(p, walk)
    && walk[|walk| - 1] in p && p[walk[|walk| - 1]] == Some(walk[0])
  }

  ghost predicate ParentWalk(p: Parents, walk: seq<int>) {
    forall i | 0 <= i < |walk| - 1 :: StepsUp(p, walk, i)
  }

  ghost predicate StepsUp(p: Parents, walk: seq<int>, i: int)
    requires 0 <= i < |walk| - 1
  {
    walk[i] in p && p[walk[i]] == Some(walk[i + 1])
  }

  /** Every named parent is itself a member. */
  ghost predicate ClosedParents(p: Parents) {
    forall n | n in p && p[n].Some? :: p[n].value in p
  }

  /** `order` lists every member once, each right after its parent; the first has none. */
  ghost predicate IsChain(p: Parents, order: seq<int>) {
    && Distinct(order)
    && Elements(order) == p.Keys
    && forall i | 0 <= i < |order| :: AfterParent(p, order, i)
  }

  ghost predicate AfterParent(p: Parents, order: seq<int>, i: int)
    requires 0 <= i < |order|
  {
    order[i] in p && p[order[i]] == Before(order, i)
  }

  /** What stands before position `i`, if anything. */
  ghost function Before(order: seq<int>, i: int): Option<int>
    requires 0 <= i < |order|
  {
    if i == 0 then None else Some(order[i - 1])
  }

  // Walks that end stay ended; walks around a cycle never end.

  lemma {:induction false} ClimbPlus(p: Parents, n: int, i: nat, k: nat)
    requires Climb(p, n, i).Some?
    ensures Climb(p, n, i + k) == Climb(p, Climb(p, n, i).value, k)
    decreases k
  {
    if k > 0 {
      ClimbPlus(p, n, i, k - 1);
      assert i + (k - 1) == (i + k) - 1;
    }
  }

  lemma {:induction false} ClimbStays(p: Parents, n: int, i: nat, k: nat)
    requires Climb(p, n, i).None? && i <= k
    ensures Climb(p, n, k).None?
    decreases k
  {
    if i < k {
      ClimbStays(p, n, i, k - 1);
    }
  }

  lemma {:induction false} ClimbWalk(p: Parents, walk: seq<int>, k: nat)
    requires ParentWalk(p, walk) && k < |walk|
    ensures Climb(p, walk[0], k) == Some(walk[k])
    decreases k
  {
    if k > 0 {
      ClimbWalk(p, walk, k - 1);
      assert StepsUp(p, walk, k - 1);
    }
  }

  lemma {:induction false} CycleNeverEnds(p: Parents, walk: seq<int>, k: nat)
    requires ClosedWalk(p, walk)
    ensures Climb(p, walk[0], k).Some?
    decreases k
  {
    var n := |walk|;
    ClimbWalk(p, walk, n - 1);
    if k < n {
      ClimbWalk(p, walk, k);
    } else {
      assert Climb(p, walk[0], n) == Some(walk[0]);
      CycleNeverEnds(p, walk, k - n);
      ClimbPlus(p, walk[0], n, k - n);
    }
  }

  /** A parent map has no cycle exactly when every walk ends. */
  lemma CycleRefutesAcyclic(p: Parents, cycle: seq<int>)
    requires IsCycle(p, cycle)
    ensures !Acyclic(p)
  {
    var walk: seq<int> :| ClosedWalk(p, walk) && Distinct(walk) && Elements(walk) == Elements(cycle);
    forall k: nat
      ensures Climb(p, walk[0], k).Some?
    {
      CycleNeverEnds(p, walk, k);
    }
    assert walk[0] in p by {
      if |walk| > 1 {
        assert StepsUp(p, walk, 0);
      }
    }
    assert !Grounded(p, walk[0]);
  }

  // The first cycle is one.

  /** From one member of a cycle the walk comes to every member, and to nothing else. */
  lemma AroundTheCycle(p: Parents, walk: seq<int>, i: nat, j: nat)
    requires ClosedWalk(p, walk) && i < |walk| && j < |walk|
    ensures Climb(p, walk[i], |walk| - i + j) == Some(walk[j])
  {
    var n := |walk|;
    ClimbWalk(p, walk, i);
    ClimbWalk(p, walk, j);
    ClimbWalk(p, walk, n - 1);
    assert Climb(p, walk[0], n) == Some(walk[0]);
    ClimbPlus(p, walk[0], i, n - i);
    assert Climb(p, walk[i], n - i) == Some(walk[0]);
    ClimbPlus(p, walk[i], n - i, j);
  }

  lemma {:induction false} StaysOnCycle(p: Parents, walk: seq<int>, n: int, k: nat)
    requires ClosedWalk(p, walk) && n in walk
    ensures Climb(p, n, k).Some? && Climb(p, n, k).value in walk
    decreases k
  {
    if k > 0 {
      StaysOnCycle(p, walk, n, k - 1);
      var i: nat :| i < |walk| && walk[i] == Climb(p, n, k - 1).value;
      if i < |walk| - 1 {
        assert StepsUp(p, walk, i);
      }
    }
  }

  lemma SharedMember(p: Parents, a: seq<int>, b: seq<int>, n: int)
    requires ClosedWalk(p, a) && ClosedWalk(p, b) && n in a && n in b
    ensures forall m | m in a :: m in b
  {
    var i: nat :| i < |a| && a[i] == n;
    forall m | m in a
      ensures m in b
    {
      var j: nat :| j < |a| && a[j] == m;
      AroundTheCycle(p, a, i, j);
      StaysOnCycle(p, b, n, |a| - i + j);
    }
  }

  /** A walk comes to at most one cycle. */
  lemma OneCycleOnTheWay(p: Parents, n: int, a: seq<int>, b: seq<int>)
    requires ClosedWalk(p, a) && ClosedWalk(p, b) && ComesTo(p, n, a) && ComesTo(p, n, b)
    ensures Elements(a) == Elements(b)
  {
    var i: nat :| Climb(p, n, i).Some? && Climb(p, n, i).value in a;
    var j: nat :| Climb(p, n, j).Some? && Climb(p, n, j).value in b;
    var k := if i <= j then j else i;
    ClimbPlus(p, n, i, k - i);
    ClimbPlus(p, n, j, k - j);
    StaysOnCycle(p, a, Climb(p, n, i).value, k - i);
    StaysOnCycle(p, b, Climb(p, n, j).value, k - j);
    assert i + (k - i) == k && j + (k - j) == k;
    var m := Climb(p, n, k).value;
    SharedMember(p, a, b, m);
    SharedMember(p, b, a, m);
    assert forall x :: x in Elements(a) <==> x in Elements(b);
  }

  lemma ComesToNeverEnds(p: Parents, n: int, walk: seq<int>)
    requires ClosedWalk(p, walk) && ComesTo(p, n, walk)
    ensures !Grounded(p, n)
  {
    var i: nat :| Climb(p, n, i).Some? && Climb(p, n, i).value in walk;
    forall k: nat
      ensures Climb(p, n, k).Some?
    {
      if k < i {
        if Climb(p, n, k).None? {
          ClimbStays(p, n, k, i);
        }
      } else {
        ClimbPlus(p, n, i, k - i);
        StaysOnCycle(p, walk, Climb(p, n, i).value, k - i);
      }
    }
  }

  lemma CycleWalk(p: Parents, cycle: seq<int>) returns (walk: seq<int>)
    requires IsCycle(p, cycle)
    ensures ClosedWalk(p, walk) && Elements(walk) == Elements(cycle)
    ensures forall n :: ComesTo(p, n, cycle) <==> ComesTo(p, n, walk)
  {
    walk :| ClosedWalk(p, walk) && Distinct(walk) && Elements(walk) == Elements(cycle);
    assert forall m :: m in walk <==> m in Elements(walk);
    assert forall m :: m in cycle <==> m in Elements(cycle);
  }

  /** A parent map has at most one first cycle. */
  lemma FirstCycleUnique(p: Parents, a: seq<int>, b: seq<int>)
    requires IsFirstCycle(p, a) && IsFirstCycle(p, b)
    ensures a == b
  {
    hide ClosedWalk, Climb, Grounded;
    var m :| m in p && ComesTo(p, m, a) && GroundedBelow(p, m);
    var n :| n in p && ComesTo(p, n, b) && GroundedBelow(p, n);
    var v := CycleWalk(p, a);
    var w := CycleWalk(p, b);
    hide IsCycle, ComesTo;
    ComesToNeverEnds(p, m, v);
    ComesToNeverEnds(p, n, w);
    assert m == n;
    OneCycleOnTheWay(p, m, v, w);
    AscendingCycles(p, a, b);
  }

  lemma AscendingCycles(p: Parents, a: seq<int>, b: seq<int>)
    requires IsCycle(p, a) && IsCycle(p, b) && Elements(a) == Elements(b)
    ensures a == b
  {
    AscendingUnique(a, b);
  }

  lemma {:induction false} GroundedAbove(p: Parents, n: int, k: nat)
    requires Climb(p, n, k).None? && n in p && p[n].Some?
    ensures k > 0 && Climb(p, p[n].value, k - 1).None?
  {
    ClimbPlus(p, n, 1, k - 1);
  }

  lemma GroundedStep(p: Parents, n: int)
    requires n in p && (p[n].None? || Grounded(p, p[n].value))
    ensures Grounded(p, n)
  {
    if p[n].None? {
      assert Climb(p, n, 1).None?;
    } else {
      var k: nat :| Climb(p, p[n].value, k).None?;
      ClimbPlus(p, n, 1, k);
      assert Climb(p, n, 1 + k).None?;
    }
  }

  /** Walk up from every member, remembering the positions on the way. */
  method RejectCycles(p: Parents) returns (r: Option<seq<int>>)
    ensures r.None? <==> Acyclic(p)
    ensures r.Some? ==> IsFirstCycle(p, r.value)
  {
    var starts := AscendInts(p.Keys);
    hide Ascending, IsCycle, Grounded, ComesTo;
    for s := 0 to |starts|
      invariant forall n | n in starts[..s] :: Grounded(p, n)
    {
      assert starts[..s + 1] == starts[..s] + [starts[s]];
      r := WalkUp(p, starts[s]);
      if r.Some? {
        CycleRefutesAcyclic(p, r.value);
        AscendStep(starts, s);
        assert forall n | n in p :: n in Elements(starts);
        assert GroundedBelow(p, starts[s]);
        return;
      }
    }
    assert starts[..|starts|] == starts;
    assert forall n | n in p :: n in Elements(starts);
    return None;
  }

  /** One walk: it ends at a root, or it comes back to a position it has passed. */
  method WalkUp(p: Parents, start: int) returns (r: Option<seq<int>>)
    ensures r.None? ==> Grounded(p, start)
    ensures r.Some? ==> IsCycle(p, r.value) && ComesTo(p, start, r.value)
  {
    var path: seq<int> := [];
    var positions: map<int, nat> := map[];
    var current := start;
    while true
      invariant Distinct(path) && positions.Keys == Elements(path) <= p.Keys
      invariant forall n | n in positions :: positions[n] < |path| && path[positions[n]] == n
      invariant ParentWalk(p, path + [current]) && (path + [current])[0] == start
      decreases p.Keys - positions.Keys
    {
      ghost var walk := path + [current];
      if current in positions {
        var tail := path[positions[current]..];
        var cycle := AscendInts(Elements(tail));
        TailIsCycle(p, path, current, positions[current], cycle);
        ClimbWalk(p, walk, |path|);
        assert tail[0] in Elements(tail) && current in cycle;
        return Some(cycle);
      }
      ClimbWalk(p, walk, |path|);
      if current !in p || p[current].None? {
        assert Climb(p, start, |path| + 1).None?;
        return None;
      }
      ExtendWalk(p, path, current);
      ghost var unseen := p.Keys - positions.Keys;
      positions := positions[current := |path|];
      assert p.Keys - positions.Keys == unseen - {current} && current in unseen;
      path := path + [current];
      current := p[current].value;
    }
  }

  lemma TailIsCycle(p: Parents, path: seq<int>, current: int, at: nat, cycle: seq<int>)
    requires Distinct(path) && ParentWalk(p, path + [current]) && at < |path| && path[at] == current
    requires Ascending(cycle) && Elements(cycle) == Elements(path[at..])
    ensures IsCycle(p, cycle)
  {
    var walk, tail := path + [current], path[at..];
    assert tail[0] == current;
    forall i | 0 <= i < |tail| - 1
      ensures StepsUp(p, tail, i)
    {
      assert StepsUp(p, walk, at + i);
    }
    assert StepsUp(p, walk, |path| - 1);
    assert ClosedWalk(p, tail);
    SomeElement(tail);
    assert cycle != [] by {
      assert tail[0] in Elements(cycle);
    }
  }

  lemma ExtendWalk(p: Parents, path: seq<int>, current: int)
    requires ParentWalk(p, path + [current]) && current in p && p[current].Some?
    requires current !in Elements(path) && Distinct(path)
    ensures ParentWalk(p, path + [current] + [p[current].value])
    ensures Distinct(path + [current]) && Elements(path + [current]) == Elements(path) + {current}
  {
    var walk, next := path + [current], path + [current] + [p[current].value];
    forall i | 0 <= i < |next| - 1
      ensures StepsUp(p, next, i)
    {
      assert i < |path| ==> StepsUp(p, walk, i);
    }
    assert forall i | 0 <= i < |path| :: path[i] in Elements(path);
  }

  // Chains.

  lemma {:induction false} ChainGrounded(p: Parents, order: seq<int>, i: nat)
    requires IsChain(p, order) && i < |order|
    ensures Grounded(p, order[i])
    decreases i
  {
    assert AfterParent(p, order, i);
    if i > 0 {
      ChainGrounded(p, order, i - 1);
    }
    GroundedStep(p, order[i]);
  }

  /** A chain has no cycle, one root, and at most one child per parent. */
  lemma ChainShape(p: Parents, order: seq<int>)
    requires IsChain(p, order) && order != []
    ensures Acyclic(p)
    ensures forall n | n in p :: p[n].None? <==> n == order[0]
    ensures forall a, b | a in p && b in p && p[a].Some? && p[a] == p[b] :: a == b
    ensures ClosedParents(p)
  {
    forall n | n in p
      ensures Grounded(p, n)
      ensures p[n].None? <==> n == order[0]
      ensures p[n].Some? ==> p[n].value in p
    {
      var i := ChainIndex(p, order, n);
      ChainGrounded(p, order, i);
    }
    forall a, b | a in p && b in p && p[a].Some? && p[a] == p[b]
      ensures a == b
    {
      var i := ChainIndex(p, order, a);
      var j := ChainIndex(p, order, b);
      assert order[i - 1] == order[j - 1];
    }
  }

  lemma ChainIndex(p: Parents, order: seq<int>, n: int) returns (i: nat)
    requires IsChain(p, order) && n in p
    ensures i < |order| && order[i] == n
    ensures p[n] == Before(order, i)
  {
    assert n in Elements(order);
    i :| 0 <= i < |order| && order[i] == n;
    assert AfterParent(p, order, i);
  }

  /** A member set holding every root and every child of its members holds all of an acyclic map. */
  lemma {:induction false} DownwardClosedCovers(p: Parents, s: set<int>, n: int, k: nat)
    requires ClosedParents(p) && n in p && Climb(p, n, k).None?
    requires forall m | m in p && p[m].None? :: m in s
    requires forall m | m in p && p[m].Some? && p[m].value in s :: m in s
    ensures n in s
    decreases k
  {
    if p[n].Some? {
      GroundedAbove(p, n, k);
      DownwardClosedCovers(p, s, p[n].value, k - 1);
    }
  }

  lemma AcyclicCovers(p: Parents, s: set<int>)
    requires ClosedParents(p) && Acyclic(p)
    requires forall m | m in p && p[m].None? :: m in s
    requires forall m | m in p && p[m].Some? && p[m].value in s :: m in s
    ensures p.Keys <= s
  {
    forall n | n in p
      ensures n in s
    {
      var k: nat :| Climb(p, n, k).None?;
      DownwardClosedCovers(p, s, n, k);
    }
  }

  /** An acyclic non-empty map has a root. */
  lemma AcyclicHasRoot(p: Parents)
    requires ClosedParents(p) && Acyclic(p) && p != map[]
    ensures exists n :: n in p && p[n].None?
  {
    if !exists n :: n in p && p[n].None? {
      AcyclicCovers(p, {});
    }
  }

  /** There is at most one chain. */
  lemma ChainUnique(p: Parents, a: seq<int>, b: seq<int>)
    requires IsChain(p, a) && IsChain(p, b)
    ensures a == b
  {
    DistinctCount(a);
    DistinctCount(b);
    forall i | 0 <= i < |a|
      ensures a[i] == b[i]
    {
      ChainAgrees(p, a, b, i);
    }
  }

  lemma {:induction false} ChainAgrees(p: Parents, a: seq<int>, b: seq<int>, i: nat)
    requires IsChain(p, a) && IsChain(p, b) && i < |a| == |b|
    ensures a[i] == b[i]
    decreases i
  {
    assert AfterParent(p, a, i);
    var j := ChainIndex(p, b, a[i]);
    if i > 0 {
      ChainAgrees(p, a, b, i - 1);
      assert b[j - 1] == b[i - 1];
    } else {
      assert j == 0;
    }
  }
}
