/** Sorting and removing repetitions as Rust's sort_by and dedup_by do, and the order of strings. */
module Sorting {
  import opened Basics
  import opened Ordering

  /** A strict order in which being equally placed is transitive too. */
  ghost predicate StrictWeak<T(!new)>(less: (T, T) -> bool) {
    && (forall x :: !less(x, x))
    && (forall x, y, z :: less(x, y) && less(y, z) ==> less(x, z))
    && (forall x, y, z :: less(x, z) ==> less(x, y) || less(y, z))
  }

  ghost predicate InOrder<T(!new)>(less: (T, T) -> bool, s: seq<T>) {
    forall i, j | 0 <= i < j < |s| :: !less(s[j], s[i])
  }

  /** Behind everything that is not greater. */
  function InsertLast<T(!new)>(less: (T, T) -> bool, x: T, s: seq<T>): seq<T> {
    if s == [] then [x]
    else if less(x, s[0]) then [x] + s
    else [s[0]] + InsertLast(less, x, s[1..])
  }

  /** The stable sort. */
  function StableSort<T(!new)>(less: (T, T) -> bool, s: seq<T>): seq<T> {
    if s == [] then [] else InsertLast(less, s[|s| - 1], StableSort(less, s[..|s| - 1]))
  }

  lemma {:induction false} InsertLastElements<T(!new)>(less: (T, T) -> bool, x: T, s: seq<T>)
    ensures Elements(InsertLast(less, x, s)) == Elements(s) + {x}
    ensures |InsertLast(less, x, s)| == |s| + 1
  {
    if s != [] {
      assert Elements(s) == {s[0]} + Elements(s[1..]);
      if less(x, s[0]) {
        assert Elements([x] + s) == Elements(s) + {x};
      } else {
        var rest := InsertLast(less, x, s[1..]);
        InsertLastElements(less, x, s[1..]);
        assert Elements([s[0]] + rest) == {s[0]} + Elements(rest);
      }
    }
  }

  lemma {:induction false} InsertLastInOrder<T(!new)>(less: (T, T) -> bool, x: T, s: seq<T>)
    requires StrictWeak(less) && InOrder(less, s)
    ensures InOrder(less, InsertLast(less, x, s))
  {
    if s != [] {
      if less(x, s[0]) {
        forall j | 0 <= j < |s|
          ensures !less(s[j], x)
        {
        }
      } else {
        var rest := InsertLast(less, x, s[1..]);
        InsertLastInOrder(less, x, s[1..]);
        InsertLastElements(less, x, s[1..]);
        forall j | 0 <= j < |rest|
          ensures !less(rest[j], s[0])
        {
          assert rest[j] in Elements(s[1..]) + {x};
        }
      }
    }
  }

  lemma {:induction false} StableSortSorts<T(!new)>(less: (T, T) -> bool, s: seq<T>)
    requires StrictWeak(less)
    ensures InOrder(less, StableSort(less, s)) && Elements(StableSort(less, s)) == Elements(s)
    ensures |StableSort(less, s)| == |s|
  {
    hide StrictWeak, InsertLast;
    if s != [] {
      var front, x := s[..|s| - 1], s[|s| - 1];
      StableSortSorts(less, front);
      InsertLastInOrder(less, x, StableSort(less, front));
      InsertLastElements(less, x, StableSort(less, front));
      assert Elements(s) == Elements(front) + {x};
    }
  }

  /** One element of each run of elements equally placed, the first of them. */
  function Dedup<T(!new)>(less: (T, T) -> bool, s: seq<T>): seq<T> {
    if |s| < 2 then s
    else
      var front, x := s[..|s| - 1], s[|s| - 1];
      if less(s[|s| - 2], x) then Dedup(less, front) + [x] else Dedup(less, front)
  }

  /** Some element of `s` has the place of x. */
  ghost predicate HasPlace<T(!new)>(less: (T, T) -> bool, s: seq<T>, x: T) {
    exists y :: y in s && !less(x, y) && !less(y, x)
  }

  /** After a sort, the elements left have different places. */
  lemma {:induction false} DedupSorted<T(!new)>(less: (T, T) -> bool, s: seq<T>)
    requires StrictWeak(less) && InOrder(less, s)
    ensures Sorted(less, Dedup(less, s)) && Elements(Dedup(less, s)) <= Elements(s)
  {
    if |s| >= 2 {
      var front, x := s[..|s| - 1], s[|s| - 1];
      DedupSorted(less, front);
      assert Elements(s) == Elements(front) + {x};
      var d := Dedup(less, front);
      if less(s[|s| - 2], x) {
        forall k | 0 <= k < |d|
          ensures less(d[k], x)
        {
          assert d[k] in Elements(front);
          var m :| 0 <= m < |front| && front[m] == d[k];
          assert m < |s| - 2 ==> !less(s[|s| - 2], s[m]);
        }
      }
    }
  }

  /** And no place is lost. */
  lemma {:induction false} DedupKeepsPlaces<T(!new)>(less: (T, T) -> bool, s: seq<T>, x: T)
    requires StrictWeak(less) && InOrder(less, s) && x in s
    ensures HasPlace(less, Dedup(less, s), x)
  {
    var n := |s|;
    if n >= 2 {
      var front := s[..n - 1];
      if x in front {
        DedupKeepsPlaces(less, front, x);
      } else if !less(s[n - 2], x) {
        assert front[n - 2] == s[n - 2] && x == s[n - 1];
        DedupKeepsPlaces(less, front, s[n - 2]);
        SamePlace(less, Dedup(less, front), s[n - 2], x);
      } else {
        assert x in Dedup(less, s);
      }
    } else {
      assert x in Dedup(less, s);
    }
  }

  lemma SamePlace<T(!new)>(less: (T, T) -> bool, s: seq<T>, x: T, z: T)
    requires StrictWeak(less) && !less(x, z) && !less(z, x) && HasPlace(less, s, x)
    ensures HasPlace(less, s, z)
  {
    var y :| y in s && !less(x, y) && !less(y, x);
    assert !less(z, y) && !less(y, z);
  }

  /** In a total order: exactly the elements, once each, in order. */
  lemma SortDedupMeaning<T(!new)>(less: (T, T) -> bool, s: seq<T>)
    requires StrictWeak(less) && StrictTotal(less)
    ensures Sorted(less, Dedup(less, StableSort(less, s)))
    ensures forall x :: x in Dedup(less, StableSort(less, s)) <==> x in s
  {
    hide StableSort, Dedup, InOrder, StrictWeak;
    var sorted := StableSort(less, s);
    StableSortSorts(less, s);
    DedupSorted(less, sorted);
    forall x
      ensures x in Dedup(less, sorted) <==> x in s
    {
      assert x in s <==> x in Elements(s);
      assert x in sorted <==> x in Elements(sorted);
      assert x in Dedup(less, sorted) ==> x in Elements(Dedup(less, sorted));
      if x in s {
        DedupKeepsPlaces(less, sorted, x);
      }
    }
  }

  // Strings, character by character.

  predicate StringLess(a: string, b: string) {
    b != "" && (a == "" || a[0] < b[0] || (a[0] == b[0] && StringLess(a[1..], b[1..])))
  }

  lemma {:induction false} StringIrreflexive(a: string)
    ensures !StringLess(a, a)
  {
    if a != "" {
      StringIrreflexive(a[1..]);
    }
  }

  lemma {:induction false} StringTransitive(a: string, b: string, c: string)
    requires StringLess(a, b) && StringLess(b, c)
    ensures StringLess(a, c)
  {
    if a != "" && a[0] == b[0] == c[0] {
      StringTransitive(a[1..], b[1..], c[1..]);
    }
  }

  lemma {:induction false} StringTotal(a: string, b: string)
    requires a != b
    ensures StringLess(a, b) || StringLess(b, a)
  {
    if a != "" && b != "" && a[0] == b[0] {
      assert [a[0]] + a[1..] == a && [b[0]] + b[1..] == b;
      StringTotal(a[1..], b[1..]);
    }
  }

  lemma StringLessIsTotal()
    ensures StrictTotal(StringLess) && StrictWeak(StringLess)
  {
    hide StringLess;
    forall a, b, c
      ensures !StringLess(a, a)
      ensures StringLess(a, b) && StringLess(b, c) ==> StringLess(a, c)
      ensures a != b ==> StringLess(a, b) || StringLess(b, a)
      ensures StringLess(a, c) ==> StringLess(a, b) || StringLess(b, c)
    {
      StringOrder(a, b, c);
      StringOrder(b, a, c);
      StringOrder(a, c, b);
    }
  }

  lemma StringOrder(a: string, b: string, c: string)
    ensures !StringLess(a, a) && (StringLess(a, b) && StringLess(b, c) ==> StringLess(a, c))
    ensures a != b ==> StringLess(a, b) || StringLess(b, a)
    ensures b != c ==> StringLess(b, c) || StringLess(c, b)
  {
    hide StringLess;
    StringIrreflexive(a);
    if StringLess(a, b) && StringLess(b, c) {
      StringTransitive(a, b, c);
    }
    if a != b {
      StringTotal(a, b);
    }
    if b != c {
      StringTotal(b, c);
    }
  }
}
