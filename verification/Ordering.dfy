/** Ordered iteration over the keys of a map or a set: the order of Rust's BTreeMap and BTreeSet. */
module Ordering {
  import opened Basics

  /** A strict total order. */
  ghost predicate StrictTotal<T(!new)>(less: (T, T) -> bool) {
    && (forall x :: !less(x, x))
    && (forall x, y, z :: less(x, y) && less(y, z) ==> less(x, z))
    && (forall x, y :: x != y ==> less(x, y) || less(y, x))
  }

  ghost predicate Sorted<T(!new)>(less: (T, T) -> bool, s: seq<T>) {
    forall i, j | 0 <= i < j < |s| :: less(s[i], s[j])
  }

  function Insert<T(!new)>(less: (T, T) -> bool, x: T, s: seq<T>): (r: seq<T>)
    requires StrictTotal(less) && Sorted(less, s) && x !in s
    ensures Sorted(less, r) && Elements(r) == Elements(s) + {x} && |r| == |s| + 1
  {
    if s == [] then [x]
    else if less(x, s[0]) then
      assert Elements([x] + s) == Elements(s) + {x};
      [x] + s
    else
      var rest := Insert(less, x, s[1..]);
      assert Elements([s[0]] + rest) == {s[0]} + Elements(rest) && Elements(s) == {s[0]} + Elements(s[1..]);
      assert forall y | y in Elements(s[1..]) + {x} :: less(s[0], y);
      assert forall i | 0 <= i < |rest| :: rest[i] in Elements(rest);
      [s[0]] + rest
  }

  /** The elements of `s`, smallest first. */
  method Ascend<T(!new, ==)>(less: (T, T) -> bool, s: set<T>) returns (r: seq<T>)
    requires StrictTotal(less)
    ensures Sorted(less, r) && Elements(r) == s && |r| == |s|
  {
    r := [];
    var rest := s;
    while rest != {}
      invariant rest <= s && Sorted(less, r) && Elements(r) == s - rest && |r| + |rest| == |s|
      decreases rest
    {
      var x :| x in rest;
      assert x !in Elements(r);
      r := Insert(less, x, r);
      rest := rest - {x};
    }
  }

  lemma SomeElement<T(!new)>(s: seq<T>)
    requires s != []
    ensures Elements(s) != {}
  {
    assert s[0] in Elements(s);
  }

  ghost predicate StrictOrder<T(!new)>(less: (T, T) -> bool) {
    (forall x :: !less(x, x)) && forall x, y, z :: less(x, y) && less(y, z) ==> less(x, z)
  }

  /** A set has at most one sorted enumeration. */
  lemma {:induction false} SortedUnique<T(!new)>(less: (T, T) -> bool, a: seq<T>, b: seq<T>)
    requires StrictOrder(less) && Sorted(less, a) && Sorted(less, b) && Elements(a) == Elements(b)
    ensures a == b
  {
    if a == [] {
      if b != [] {
        SomeElement(b);
      }
    } else {
      assert a[0] in Elements(a) && a[0] in b;
      assert b[0] in Elements(b) && b[0] in a;
      assert a[0] == b[0];
      forall x
        ensures x in a[1..] <==> x in b[1..]
      {
        assert x in a <==> x in Elements(a);
        assert x in b <==> x in Elements(b);
        assert x in a <==> x == a[0] || x in a[1..];
        assert x in b <==> x == b[0] || x in b[1..];
      }
      assert Elements(a[1..]) == Elements(b[1..]);
      SortedUnique(less, a[1..], b[1..]);
      assert a == [a[0]] + a[1..] && b == [b[0]] + b[1..];
    }
  }

  function IntLess(x: int, y: int): bool {
    x < y
  }

  lemma IntLessIsTotal()
    ensures StrictTotal(IntLess)
  {
  }

  method AscendInts(s: set<int>) returns (r: seq<int>)
    ensures Ascending(r) && Elements(r) == s && |r| == |s|
  {
    IntLessIsTotal();
    r := Ascend(IntLess, s);
    forall i, j | 0 <= i < j < |r|
      ensures r[i] < r[j]
    {
      assert IntLess(r[i], r[j]);
    }
  }

  ghost predicate Ascending(s: seq<int>) {
    forall i, j | 0 <= i < j < |s| :: s[i] < s[j]
  }

  lemma AscendingUnique(a: seq<int>, b: seq<int>)
    requires Ascending(a) && Ascending(b) && Elements(a) == Elements(b)
    ensures a == b
  {
    IntLessIsTotal();
    SortedUnique(IntLess, a, b);
  }

  /** One step of a loop over an ascending list: what is done lies below what is next. */
  lemma AscendStep(s: seq<int>, i: nat)
    requires Ascending(s) && i < |s|
    ensures s[i] in Elements(s) && s[i] !in Elements(s[..i])
    ensures forall x | x in Elements(s[..i]) :: x < s[i]
    ensures forall x | x in Elements(s) && x < s[i] :: x in Elements(s[..i])
    ensures s[..i + 1] == s[..i] + [s[i]] && Elements(s[..i + 1]) == Elements(s[..i]) + {s[i]}
  {
    forall x | x in Elements(s) && x < s[i]
      ensures x in Elements(s[..i])
    {
      var j :| 0 <= j < |s| && s[j] == x;
      assert s[..i][j] == x;
    }
  }

  lemma AscendPush(s: seq<int>, x: int)
    requires Ascending(s) && forall y | y in s :: y < x
    ensures Ascending(s + [x])
    ensures forall y :: y in s + [x] <==> y in s || y == x
  {
    assert forall i | 0 <= i < |s| :: s[i] in s;
  }
}
