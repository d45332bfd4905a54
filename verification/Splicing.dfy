/** Non-overlapping replacements in one forward pass. */
module Splicing {
  /** Keep `gap` elements, then the elements `gone` give way to `come`. */
  datatype Edit<T> = Edit(gap: nat, gone: seq<T>, come: seq<T>) {
    ghost function Reach(): nat {
      gap + |gone|
    }

    ghost function Growth(): int {
      |come| - |gone|
    }

    ghost function Flip(): Edit<T> {
      Edit(gap, come, gone)
    }
  }

  ghost predicate FitsHead<T>(s: seq<T>, e: Edit<T>) {
    e.Reach() <= |s| && s[e.gap..e.Reach()] == e.gone
  }

  /** Every edit finds the elements it expects. */
  ghost predicate Fits<T>(s: seq<T>, edits: seq<Edit<T>>) {
    edits == [] || (FitsHead(s, edits[0]) && Fits(s[edits[0].Reach()..], edits[1..]))
  }

  ghost function Take<T>(s: seq<T>, n: nat): seq<T> {
    if n <= |s| then s[..n] else s
  }

  ghost function Drop<T>(s: seq<T>, n: nat): seq<T> {
    if n <= |s| then s[n..] else []
  }

  /** What the pass writes. */
  ghost function Pass<T>(s: seq<T>, edits: seq<Edit<T>>): seq<T>
    decreases |edits|
  {
    if edits == [] then s
    else Take(s, edits[0].gap) + edits[0].come + Pass(Drop(s, edits[0].Reach()), edits[1..])
  }

  // Splicing one by one.

  /** The edits made one by one in place, the last one first; `at` is where the first gap begins. */
  ghost function Spliced<T>(s: seq<T>, edits: seq<Edit<T>>, at: nat): seq<T> {
    if edits == [] then s
    else
      var inner := Spliced(s, edits[1..], at + edits[0].Reach());
      Take(inner, at + edits[0].gap) + edits[0].come + Drop(inner, at + edits[0].Reach())
  }

  lemma {:induction false} PassIsSpliced<T>(front: seq<T>, s: seq<T>, edits: seq<Edit<T>>)
    requires Fits(s, edits)
    ensures Spliced(front + s, edits, |front|) == front + Pass(s, edits)
    decreases |edits|
  {
    hide *;
    if edits == [] {
      PassNone(s);
      SplicedNone(front + s, edits, |front|);
    } else {
      var e := edits[0];
      FitsUnfolds(s, edits);
      var head, rest := s[..e.Reach()], s[e.Reach()..];
      var later := Pass(rest, edits[1..]);
      assert (front + head) + rest == front + s && head[..e.gap] == s[..e.gap];
      PassIsSpliced(front + head, rest, edits[1..]);
      SplicedUnfolds(front + s, edits, |front|, front + head + later);
      SpliceAt(front, head, e, later);
    }
  }

  lemma PassNone<T>(s: seq<T>)
    ensures Pass(s, []) == s
  {
  }

  lemma SplicedNone<T>(s: seq<T>, edits: seq<Edit<T>>, at: nat)
    requires edits == []
    ensures Spliced(s, edits, at) == s
  {
  }

  lemma FitsUnfolds<T>(s: seq<T>, edits: seq<Edit<T>>)
    requires Fits(s, edits) && edits != []
    ensures var e := edits[0];
            && FitsHead(s, e) && e.gap <= e.Reach() <= |s| && Fits(s[e.Reach()..], edits[1..])
            && Pass(s, edits) == s[..e.gap] + e.come + Pass(s[e.Reach()..], edits[1..])
  {
  }

  lemma SplicedUnfolds<T>(s: seq<T>, edits: seq<Edit<T>>, at: nat, inner: seq<T>)
    requires edits != [] && inner == Spliced(s, edits[1..], at + edits[0].Reach())
    ensures Spliced(s, edits, at)
            == Take(inner, at + edits[0].gap) + edits[0].come + Drop(inner, at + edits[0].Reach())
  {
  }

  lemma SpliceAt<T>(front: seq<T>, head: seq<T>, e: Edit<T>, rest: seq<T>)
    requires |head| == e.Reach()
    ensures var inner := front + head + rest;
            Take(inner, |front| + e.gap) + e.come + Drop(inner, |front| + e.Reach())
            == front + (head[..e.gap] + e.come + rest)
  {
    var inner := front + head + rest;
    assert inner[..|front| + e.gap] == front + head[..e.gap];
    assert inner[|front| + e.Reach()..] == rest;
  }

  // Accounting.

  ghost function Growth<T>(edits: seq<Edit<T>>): int {
    if edits == [] then 0 else edits[0].Growth() + Growth(edits[1..])
  }

  lemma {:induction false} PassLength<T>(s: seq<T>, edits: seq<Edit<T>>)
    requires Fits(s, edits)
    ensures |Pass(s, edits)| == |s| + Growth(edits)
  {
    if edits != [] {
      PassLength(s[edits[0].Reach()..], edits[1..]);
    }
  }

  /** Element i lies in the part some edit takes out. */
  ghost predicate Covered<T>(edits: seq<Edit<T>>, i: nat) {
    && edits != [] && i >= edits[0].gap
    && (i < edits[0].Reach() || Covered(edits[1..], i - edits[0].Reach()))
  }

  /** How far element i moves: the growth of the edits before it. */
  ghost function Moved<T>(edits: seq<Edit<T>>, i: nat): int {
    if edits == [] || i < edits[0].Reach() then 0
    else edits[0].Growth() + Moved(edits[1..], i - edits[0].Reach())
  }

  /** An element no edit covers is kept, moved by exactly the edits before it. */
  lemma {:induction false} UncoveredKept<T>(s: seq<T>, edits: seq<Edit<T>>, i: nat)
    requires Fits(s, edits) && i < |s| && !Covered(edits, i)
    ensures 0 <= i + Moved(edits, i) < |Pass(s, edits)|
    ensures Pass(s, edits)[i + Moved(edits, i)] == s[i]
  {
    hide *;
    if edits == [] {
      PassNone(s);
      MovedUnfolds(edits, i);
    } else {
      var e := edits[0];
      FitsUnfolds(s, edits);
      MovedUnfolds(edits, i);
      var rest := Pass(s[e.Reach()..], edits[1..]);
      if i < e.gap {
        assert (s[..e.gap] + e.come + rest)[i] == s[i];
      } else {
        var j := i - e.Reach();
        UncoveredKept(s[e.Reach()..], edits[1..], j);
        Behind(s[..e.gap] + e.come, rest, j + Moved(edits[1..], j));
      }
    }
  }

  lemma MovedUnfolds<T>(edits: seq<Edit<T>>, i: nat)
    requires !Covered(edits, i)
    ensures edits == [] || i < edits[0].gap ==> Moved(edits, i) == 0
    ensures edits != [] && i >= edits[0].gap ==>
              var e, j := edits[0], i - edits[0].Reach();
              && j >= 0 && e.Growth() == |e.come| - |e.gone| && e.Reach() == e.gap + |e.gone|
              && Moved(edits, i) == e.Growth() + Moved(edits[1..], j) && !Covered(edits[1..], j)
  {
  }

  lemma Behind<T>(front: seq<T>, rest: seq<T>, i: int)
    requires 0 <= i < |rest|
    ensures (front + rest)[|front| + i] == rest[i]
  {
  }

  // Inverting.

  ghost function Flipped<T>(edits: seq<Edit<T>>): (r: seq<Edit<T>>) {
    if edits == [] then [] else [edits[0].Flip()] + Flipped(edits[1..])
  }

  /** The flipped edits fit what the edits have written, and give back what there was. */
  lemma {:induction false} FlipRestores<T>(s: seq<T>, edits: seq<Edit<T>>)
    requires Fits(s, edits)
    ensures Fits(Pass(s, edits), Flipped(edits))
    ensures Pass(Pass(s, edits), Flipped(edits)) == s
  {
    if edits != [] {
      FlipRestores(s[edits[0].Reach()..], edits[1..]);
      FlipUnfolds(s, edits);
    }
  }

  lemma FlipUnfolds<T>(s: seq<T>, edits: seq<Edit<T>>)
    requires edits != [] && FitsHead(s, edits[0])
    requires var rest := Pass(s[edits[0].Reach()..], edits[1..]);
             Fits(rest, Flipped(edits[1..])) && Pass(rest, Flipped(edits[1..])) == s[edits[0].Reach()..]
    ensures Fits(Pass(s, edits), Flipped(edits)) && Pass(Pass(s, edits), Flipped(edits)) == s
  {
    var e, back := edits[0], Flipped(edits);
    var rest := Pass(s[e.Reach()..], edits[1..]);
    var t := s[..e.gap] + e.come + rest;
    assert back[0] == e.Flip() && back[1..] == Flipped(edits[1..]);
    FlipHead(s, e, rest);
    assert Pass(s, edits) == t;
  }

  lemma FlipHead<T>(s: seq<T>, e: Edit<T>, rest: seq<T>)
    requires FitsHead(s, e)
    ensures var t := s[..e.gap] + e.come + rest;
            && FitsHead(t, e.Flip()) && t[e.Flip().Reach()..] == rest
            && t[..e.gap] + e.gone + s[e.Reach()..] == s
  {
    var t := s[..e.gap] + e.come + rest;
    assert t[e.gap..e.gap + |e.come|] == e.come;
    assert t[..e.gap] == s[..e.gap];
    assert s == s[..e.gap] + s[e.gap..e.Reach()] + s[e.Reach()..];
  }

  /** On an empty list, edits keep nothing; one extra element behind changes nothing before it. */
  lemma {:induction false} FitsNothing<T>(edits: seq<Edit<T>>, x: T)
    requires Fits([], edits)
    ensures Fits([x], edits) && Pass([x], edits) == Pass([], edits) + [x]
  {
    if edits != [] {
      FitsNothing(edits[1..], x);
    }
  }
}
