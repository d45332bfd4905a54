/** What redaction hides does not show in its output: tokens, secrets and keys (src/ci.rs). */
module Secrecy {
  import opened Basics
  import opened Text
  import opened Redaction
  import opened CiEvidence

  // White space keeps all ten passes apart.

  lemma {:induction false} LineIsRedactedWordByWord(a: string, c: char, b: string, i: nat)
    requires i <= |MARKERS| && IsWhitespace(c)
    ensures WithoutMarkers(a + [c] + b, i) == WithoutMarkers(a, i) + [c] + WithoutMarkers(b, i)
    decreases |MARKERS| - i
  {
    hide WithoutMarker, IsMarker, IsWord, IsWhitespace;
    if i < |MARKERS| {
      MarkersAreMarkers(i);
      MarkersAreWords(i);
      WordsAreRedactedApart(a, c, b, MARKERS[i]);
      LineIsRedactedWordByWord(WithoutMarker(a, MARKERS[i]), c, WithoutMarker(b, MARKERS[i]), i + 1);
    }
  }

  ghost predicate NoSpace(s: string) {
    forall i | 0 <= i < |s| :: !IsWhitespace(s[i])
  }

  // Two different markers never overlap.

  /** No marker's first letter stands inside another, but for the s of ghs_. */
  lemma InnerLetters(j: nat, d: nat)
    requires j < |MARKERS| && 0 < d < |MARKERS[j]|
    ensures MARKERS[j][d] !in {'g', 'n', 'e'}
    ensures MARKERS[j][d] == 's' ==> j == 2 && d == 2
    ensures MARKERS[j][d] == 'A' ==> j == 7
  {
  }

  lemma FirstLetters(i: nat)
    requires i < |MARKERS|
    ensures MARKERS[i] != ""
    ensures MARKERS[i][0] == if i < 6 then 'g' else if i == 6 then 's' else if i == 7 then 'A' else if i == 8 then 'n' else 'e'
  {
  }

  lemma SameStart(i: nat, j: nat)
    requires i < |MARKERS| && j < |MARKERS| && i != j
    ensures exists t: nat :: t < |MARKERS[i]| && t < |MARKERS[j]| && MARKERS[i][t] != MARKERS[j][t]
  {
    FirstLetters(i);
    FirstLetters(j);
    if i < 6 && j < 6 {
      assert |MARKERS[i]| > 2 && |MARKERS[j]| > 2;
      if MARKERS[i][1] == MARKERS[j][1] {
        assert MARKERS[i][2] != MARKERS[j][2];
      }
    } else {
      assert MARKERS[i][0] != MARKERS[j][0];
    }
  }

  /** Marker i, laid over marker j from its letter d on, meets a letter that differs. */
  lemma MarkersClash(i: nat, j: nat, d: nat)
    requires i < |MARKERS| && j < |MARKERS| && i != j && d < |MARKERS[j]|
    ensures exists t: nat :: t < |MARKERS[i]| && d + t < |MARKERS[j]| && MARKERS[i][t] != MARKERS[j][d + t]
  {
    if d == 0 {
      SameStart(i, j);
      var t: nat :| t < |MARKERS[i]| && t < |MARKERS[j]| && MARKERS[i][t] != MARKERS[j][t];
      assert MARKERS[i][t] != MARKERS[j][d + t];
    } else {
      FirstLetters(i);
      InnerLetters(j, d);
      if MARKERS[i][0] == MARKERS[j][d] {
        assert MARKERS[6][1] != MARKERS[2][2 + 1];
      } else {
        assert MARKERS[i][0] != MARKERS[j][d + 0];
      }
    }
  }

  /** Where marker j stands, no other marker reaches in. */
  lemma NoOtherReachesIn(s: string, i: nat, k: nat, j: nat, q: nat)
    requires i < |MARKERS| && j < |MARKERS| && i != j && OccursAt(s, MARKERS[i], k) && OccursAt(s, MARKERS[j], q)
    ensures k + |MARKERS[i]| <= q || q + |MARKERS[j]| <= k
  {
    if q <= k < q + |MARKERS[j]| {
      Clashes(s, i, k, j, q);
    } else if k < q < k + |MARKERS[i]| {
      Clashes(s, j, q, i, k);
    }
  }

  lemma Clashes(s: string, i: nat, k: nat, j: nat, q: nat)
    requires i < |MARKERS| && j < |MARKERS| && i != j && OccursAt(s, MARKERS[j], q) && q <= k < q + |MARKERS[j]|
    ensures !OccursAt(s, MARKERS[i], k)
  {
    hide *;
    MarkersClash(i, j, k - q);
    var t: nat :| t < |MARKERS[i]| && k - q + t < |MARKERS[j]| && MARKERS[i][t] != MARKERS[j][k - q + t];
    ClashAt(s, MARKERS[i], k, MARKERS[j], q, t);
  }

  lemma ClashAt(s: string, a: string, k: nat, b: string, q: nat, t: nat)
    requires q <= k && t < |a| && k - q + t < |b| && a[t] != b[k - q + t] && OccursAt(s, b, q)
    ensures !OccursAt(s, a, k)
  {
    assert s[q..q + |b|][k - q + t] == s[k + t];
    if k + |a| <= |s| {
      assert s[k..k + |a|][t] == s[k + t];
    }
  }

  // Behind a token marker.

  /** A marker already complete in the front is found there, whatever follows. */
  lemma FoundInFront(front: string, x: string, marker: string)
    requires marker != "" && Has(front, marker)
    ensures Find(front + x, marker) == Find(front, marker) && Find(front, marker).Some?
    ensures Find(front, marker).value <= |front|
  {
    FindMeaning(front, marker);
    var k := Find(front, marker).value;
    assert (front + x)[..|front|] == front;
    forall j: nat
      ensures j + |marker| <= |front| ==> (OccursAt(front + x, marker, j) <==> OccursAt(front, marker, j))
    {
      if j + |marker| <= |front| {
        OccursHead(front + x, |front|, marker, j);
      }
    }
    OccursInside(front, marker, k);
    hide OccursAt;
    FindIs(front + x, marker, k);
  }

  lemma {:induction false} WholeWord(s: string)
    requires NoSpace(s)
    ensures WordEnd(s) == |s|
  {
    if s != "" {
      WholeWord(s[1..]);
    }
  }

  /** In one word the first marker takes everything behind it. */
  lemma WordIsCut(s: string, marker: string)
    requires IsMarker(marker) && NoSpace(s) && Find(s, marker).Some?
    ensures Find(s, marker).value <= |s| && WithoutMarker(s, marker) == s[..Find(s, marker).value] + REDACTED
  {
    hide IsMarker, WordEnd, Find, IsWhitespace;
    WithoutMarkerUnfolds(s, marker);
    var k := Find(s, marker).value;
    WholeWord(s[k..]);
    assert s[k + WordEnd(s[k..])..] == "";
    MarkerNotEmpty(marker);
    EmptyHasNone(marker);
    WithoutMarkerSame("", marker);
    assert s[..k] + REDACTED + "" == s[..k] + REDACTED;
  }

  /** In a word that holds marker j, a pass of another marker that is not in front of it leaves the front alone. */
  lemma FrontStays(p: string, j: nat, x: string, i: nat) returns (rest: string)
    requires i < |MARKERS| && j < |MARKERS| && i != j && NoSpace(p + MARKERS[j] + x)
    requires IsMarker(MARKERS[i]) && !Has(p + MARKERS[j], MARKERS[i])
    ensures WithoutMarker(p + MARKERS[j] + x, MARKERS[i]) == p + MARKERS[j] + rest
    ensures NoSpace(p + MARKERS[j] + rest)
  {
    var s := p + MARKERS[j] + x;
    MarkerNotEmpty(MARKERS[i]);
    FindMeaning(s, MARKERS[i]);
    if Find(s, MARKERS[i]).None? {
      WithoutMarkerSame(s, MARKERS[i]);
      rest := x;
    } else {
      var k := Find(s, MARKERS[i]).value;
      OtherIsBehind(p, j, x, i, k);
      WordIsCut(s, MARKERS[i]);
      rest := x[..k - |p| - |MARKERS[j]|] + REDACTED;
      CutBehind(p + MARKERS[j], x, k);
    }
  }

  lemma CutBehind(front: string, x: string, k: nat)
    requires |front| <= k <= |front| + |x| && NoSpace(front + x)
    ensures (front + x)[..k] + REDACTED == front + (x[..k - |front|] + REDACTED)
    ensures NoSpace(front + (x[..k - |front|] + REDACTED))
  {
    hide IsWhitespace;
    RedactedHasNoSpace();
    var cut := front + (x[..k - |front|] + REDACTED);
    forall i | 0 <= i < |cut|
      ensures !IsWhitespace(cut[i])
    {
      if i < k {
        assert (front + x)[i] == cut[i];
      } else {
        assert cut[i] == REDACTED[i - k];
      }
    }
  }

  lemma RedactedHasNoSpace()
    ensures NoSpace(REDACTED)
  {
  }

  lemma OtherIsBehind(p: string, j: nat, x: string, i: nat, k: nat)
    requires i < |MARKERS| && j < |MARKERS| && i != j && !Has(p + MARKERS[j], MARKERS[i])
    requires OccursAt(p + MARKERS[j] + x, MARKERS[i], k)
    ensures |p| + |MARKERS[j]| <= k <= |p + MARKERS[j] + x|
  {
    var s := p + MARKERS[j] + x;
    assert s[|p|..|p| + |MARKERS[j]|] == MARKERS[j];
    NoOtherReachesIn(s, i, k, j, |p|);
    var front := p + MARKERS[j];
    assert s[..|front|] == front;
    if k + |MARKERS[i]| <= |front| {
      OccursHead(s, |front|, MARKERS[i], k);
      HasAt(front, MARKERS[i], k);
    }
  }

  /** Through all passes, the rest of a word behind a marker has no effect. */
  lemma {:induction false} TailOfWord(p: string, j: nat, x: string, y: string, i: nat)
    requires i <= j < |MARKERS| && NoSpace(p + MARKERS[j] + x) && NoSpace(p + MARKERS[j] + y)
    ensures WithoutMarkers(p + MARKERS[j] + x, i) == WithoutMarkers(p + MARKERS[j] + y, i)
    decreases |MARKERS| - i
  {
    MarkersAreMarkers(i);
    hide IsMarker, WithoutMarker, Find, NoSpace, Has, WithoutMarkers;
    var front, marker := p + MARKERS[j], MARKERS[i];
    MarkerNotEmpty(marker);
    PassUnfolds(front + x, i);
    PassUnfolds(front + y, i);
    if Has(front, marker) {
      FoundInFront(front, x, marker);
      FoundInFront(front, y, marker);
      WordIsCut(front + x, marker);
      WordIsCut(front + y, marker);
      assert (front + x)[..Find(front, marker).value] == (front + y)[..Find(front, marker).value];
    } else {
      FrontHas(p, j);
      var restX := FrontStays(p, j, x, i);
      var restY := FrontStays(p, j, y, i);
      TailOfWord(p, j, restX, restY, i + 1);
    }
  }

  lemma PassUnfolds(s: string, i: nat)
    requires i < |MARKERS| && IsMarker(MARKERS[i])
    ensures WithoutMarkers(s, i) == WithoutMarkers(WithoutMarker(s, MARKERS[i]), i + 1)
  {
  }

  lemma FrontHas(p: string, j: nat)
    requires j < |MARKERS|
    ensures Has(p + MARKERS[j], MARKERS[j])
  {
    var s := p + MARKERS[j];
    assert s[|p|..|p| + |MARKERS[j]|] == MARKERS[j];
    HasAt(s, MARKERS[j], |p|);
  }

  /** The text ends here, or white space follows. */
  ghost predicate EndsWord(after: string) {
    after != "" ==> IsWhitespace(after[0])
  }

  /** Whatever stands before and behind: two lines that differ in the rest of a word behind a marker come out the same. */
  lemma {:induction false} TokenDoesNotShow(before: string, j: nat, x: string, y: string, after: string)
    requires j < |MARKERS| && NoSpace(x) && NoSpace(y) && EndsWord(after)
    ensures WithoutMarkers(before + MARKERS[j] + x + after, 0) == WithoutMarkers(before + MARKERS[j] + y + after, 0)
    ensures RedactedLine(before + MARKERS[j] + x + after) == RedactedLine(before + MARKERS[j] + y + after)
    decreases |before| + |after|
  {
    hide WithoutMarkers, NamesSecret, Separator, IsWhitespace, RedactedLine, NoSpace;
    var marker := MARKERS[j];
    if after != "" {
      var c, rest := after[0], after[1..];
      assert before + marker + x + after == (before + marker + x) + [c] + rest;
      assert before + marker + y + after == (before + marker + y) + [c] + rest;
      LineIsRedactedWordByWord(before + marker + x, c, rest, 0);
      LineIsRedactedWordByWord(before + marker + y, c, rest, 0);
      assert EndsWord("");
      TokenDoesNotShow(before, j, x, y, "");
      assert before + marker + x + "" == before + marker + x && before + marker + y + "" == before + marker + y;
    } else if k :| 0 <= k < |before| && IsWhitespace(before[k]) {
      var a, c, rest := before[..k], before[k], before[k + 1..];
      assert before == a + [c] + rest;
      assert before + marker + x + after == a + [c] + (rest + marker + x + "");
      assert before + marker + y + after == a + [c] + (rest + marker + y + "");
      LineIsRedactedWordByWord(a, c, rest + marker + x + "", 0);
      LineIsRedactedWordByWord(a, c, rest + marker + y + "", 0);
      TokenDoesNotShow(rest, j, x, y, "");
    } else {
      OneWord(before, j, x);
      OneWord(before, j, y);
      assert before + marker + x + after == before + marker + x && before + marker + y + after == before + marker + y;
      TailOfWord(before, j, x, y, 0);
    }
    SameClean(before + marker + x + after, before + marker + y + after);
  }

  lemma OneWord(before: string, j: nat, x: string)
    requires j < |MARKERS| && NoSpace(x) && NoSpace(before)
    ensures NoSpace(before + MARKERS[j] + x)
  {
    MarkersAreWords(j);
  }

  lemma SameClean(a: string, b: string)
    requires WithoutMarkers(a, 0) == WithoutMarkers(b, 0)
    ensures RedactedLine(a) == RedactedLine(b)
  {
    hide WithoutMarkers, NamesSecret, Separator;
    RedactedLineUnfolds(a);
    RedactedLineUnfolds(b);
  }

  // Behind the name of a secret.

  /** A character no marker holds. */
  ghost predicate Apart(c: char) {
    IsSeparator(c) || IsWhitespace(c)
  }

  lemma MarkersHoldNoSeparator(i: nat, t: nat)
    requires i < |MARKERS| && t < |MARKERS[i]|
    ensures !Apart(MARKERS[i][t])
  {
    MarkersAreWords(i);
    hide IsWhitespace;
    NoSeparatorIn(i, t);
  }

  lemma NoSeparatorIn(i: nat, t: nat)
    requires i < |MARKERS| && t < |MARKERS[i]|
    ensures !IsSeparator(MARKERS[i][t])
  {
  }

  /** A clean front that ends apart is untouched by a pass. */
  lemma CleanFrontStays(front: string, x: string, i: nat)
    requires i < |MARKERS| && IsMarker(MARKERS[i]) && front != "" && Apart(front[|front| - 1]) && !Has(front, MARKERS[i])
    ensures WithoutMarker(front + x, MARKERS[i]) == front + WithoutMarker(x, MARKERS[i])
  {
    hide *;
    MarkerNotEmpty(MARKERS[i]);
    FindBehindFront(front, x, i);
    WithoutMarkerUnfolds(front + x, MARKERS[i]);
    WithoutMarkerUnfolds(x, MARKERS[i]);
    if Find(x, MARKERS[i]).Some? {
      var k := Find(x, MARKERS[i]).value;
      SameBehind(front, x, k);
      SameBehind(front, x, k + WordEnd(x[k..]));
      Regrouped(front, x[..k], WithoutMarker(x[k + WordEnd(x[k..])..], MARKERS[i]));
    }
  }

  lemma SameBehind(front: string, x: string, k: nat)
    requires k <= |x|
    ensures (front + x)[|front| + k..] == x[k..] && (front + x)[..|front| + k] == front + x[..k]
  {
  }

  lemma Regrouped(front: string, kept: string, rest: string)
    ensures front + kept + REDACTED + rest == front + (kept + REDACTED + rest)
  {
  }

  lemma FindBehindFront(front: string, x: string, i: nat)
    requires i < |MARKERS| && front != "" && Apart(front[|front| - 1]) && !Has(front, MARKERS[i]) && MARKERS[i] != ""
    ensures Find(front + x, MARKERS[i]) == if Find(x, MARKERS[i]).Some? then Some(|front| + Find(x, MARKERS[i]).value) else None
  {
    hide *;
    FindMeaning(x, MARKERS[i]);
    FindMeaning(front + x, MARKERS[i]);
    forall k: nat | OccursAt(front + x, MARKERS[i], k)
      ensures k >= |front| && OccursAt(x, MARKERS[i], k - |front|) && Has(x, MARKERS[i])
    {
      BehindFront(front, x, i, k);
      HasAt(x, MARKERS[i], k - |front|);
    }
    if Find(x, MARKERS[i]).Some? {
      var k := Find(x, MARKERS[i]).value;
      SameBehind(front, x, 0);
      OccursTail(front + x, |front|, MARKERS[i], k);
      SameTail(x);
      FindIs(front + x, MARKERS[i], |front| + k);
    }
  }

  lemma SameTail(x: string)
    ensures x[0..] == x
  {
  }

  lemma BehindFront(front: string, x: string, i: nat, k: nat)
    requires i < |MARKERS| && front != "" && Apart(front[|front| - 1]) && !Has(front, MARKERS[i])
    requires OccursAt(front + x, MARKERS[i], k)
    ensures k >= |front| && OccursAt(x, MARKERS[i], k - |front|)
  {
    var s, marker := front + x, MARKERS[i];
    assert s[..|front|] == front && s[|front|..] == x;
    if k + |marker| <= |front| {
      OccursHead(s, |front|, marker, k);
      HasAt(front, marker, k);
    } else if k < |front| {
      assert s[k..k + |marker|][|front| - 1 - k] == front[|front| - 1];
      MarkersHoldNoSeparator(i, |front| - 1 - k);
    } else {
      OccursTail(s, |front|, marker, k - |front|);
    }
  }

  lemma {:induction false} CleanFrontStaysThroughout(front: string, x: string, i: nat) returns (rest: string)
    requires i <= |MARKERS| && front != "" && Apart(front[|front| - 1]) && FreeOfFirst(front, |MARKERS|)
    ensures WithoutMarkers(front + x, i) == front + rest
    decreases |MARKERS| - i
  {
    hide WithoutMarker, IsMarker, Has, Apart;
    if i == |MARKERS| {
      rest := x;
    } else {
      MarkersAreMarkers(i);
      CleanFrontStays(front, x, i);
      rest := CleanFrontStaysThroughout(front, WithoutMarker(x, MARKERS[i]), i + 1);
    }
  }

  /** The text begins here, or white space stands before. */
  ghost predicate BeginsWord(before: string) {
    before != "" ==> IsWhitespace(before[|before| - 1])
  }

  /**
   * Behind the name of a secret and a separator or white space, whatever stands there is gone. Only the last
   * word in front must hold no marker; tokens in earlier words are redacted, and the name is looked for then.
   */
  lemma SecretDoesNotShow(before: string, word: string, x: string)
    requires BeginsWord(before) && word != "" && Apart(word[|word| - 1]) && MarkerFree(word)
    requires NamesSecret(WithoutMarkers(before + word, 0))
    ensures var front := WithoutMarkers(before + word, 0);
            Separator(front) < |front| && RedactedLine(before + word + x) == front[..Separator(front) + 1] + REDACTED
  {
    hide WithoutMarkers, Apart, NamesSecret, MarkerFree, FreeOfFirst, Separator, RedactedLine;
    var front := WithoutMarkers(before + word, 0);
    var rest := FrontThenRest(before, word, x);
    SecretHasSeparator(front);
    SeparatorInFront(front, rest, Separator(front));
    NamedInFront(front, rest);
    RedactedLineUnfolds(before + word + x);
    assert (front + rest)[..Separator(front) + 1] == front[..Separator(front) + 1];
  }

  /** The ten passes leave the redacted front and something behind it. */
  lemma FrontThenRest(before: string, word: string, x: string) returns (rest: string)
    requires BeginsWord(before) && word != "" && Apart(word[|word| - 1]) && MarkerFree(word)
    ensures WithoutMarkers(before + word + x, 0) == WithoutMarkers(before + word, 0) + rest
  {
    hide WithoutMarkers, Apart, MarkerFree, FreeOfFirst, IsWhitespace;
    FreeOfAll(word);
    rest := CleanFrontStaysThroughout(word, x, 0);
    WithoutMarkersSame(word, 0);
    if before == "" {
      assert before + word == word;
    } else {
      var a, c := before[..|before| - 1], before[|before| - 1];
      LineIsRedactedWordByWord(a, c, word, 0);
      LineIsRedactedWordByWord(a, c, word + x, 0);
      assert before == a + [c];
      assert before + word == a + [c] + word && before + word + x == a + [c] + (word + x);
      assert WithoutMarkers(a, 0) + [c] + (word + rest) == WithoutMarkers(a, 0) + [c] + word + rest;
    }
  }

  lemma SeparatorInFront(front: string, rest: string, n: nat)
    requires n == Separator(front) && SeparatorAt(front, n)
    ensures n < |front| && Separator(front + rest) == n
    decreases |front|
  {
    assert (front + rest)[0] == front[0];
    if n > 0 {
      assert (front + rest)[1..] == front[1..] + rest;
      SeparatorInFront(front[1..], rest, n - 1);
    }
  }

  lemma NamedInFront(front: string, rest: string)
    requires NamesSecret(front)
    ensures NamesSecret(front + rest)
  {
    var i :| 0 <= i < |SECRET_WORDS| && Has(Lower(front), SECRET_WORDS[i]);
    assert Lower(front + rest)[..|front|] == Lower(front);
    PrefixHas(Lower(front + rest), |front|, SECRET_WORDS[i]);
  }

  // Inside a private key block.

  lemma SameFlags(lines: seq<string>, i: nat, other: string, k: nat)
    requires i < |lines| && (Begins(other) <==> Begins(lines[i])) && (Ends(other) <==> Ends(lines[i]))
    ensures InBlock(lines[i := other], k) <==> InBlock(lines, k)
  {
    hide Begins, Ends;
    var changed := lines[i := other];
    assert forall m | 0 <= m < |lines| :: (Begins(changed[m]) <==> Begins(lines[m])) && (Ends(changed[m]) <==> Ends(lines[m]));
    forall b: nat
      ensures OpenFrom(changed, b, k) <==> OpenFrom(lines, b, k)
    {
    }
  }

  /** A line of a block may hold anything that does not begin or end one: the output is the same. */
  lemma BlockDoesNotShow(lines: seq<string>, i: nat, other: string)
    requires i < |lines| && InBlock(lines, i)
    requires (Begins(other) <==> Begins(lines[i])) && (Ends(other) <==> Ends(lines[i]))
    ensures LinesAfter(lines[i := other]) == LinesAfter(lines)
  {
    hide Begins, Ends, InBlock, RedactedLine;
    forall k | 0 <= k < |lines|
      ensures LinesAfter(lines[i := other])[k] == LinesAfter(lines)[k]
    {
      SameFlags(lines, i, other, k);
    }
  }

  /** Outside a block, so may two lines that come out the same. */
  lemma LineDoesNotShow(lines: seq<string>, i: nat, other: string)
    requires i < |lines| && RedactedLine(other) == RedactedLine(lines[i])
    requires (Begins(other) <==> Begins(lines[i])) && (Ends(other) <==> Ends(lines[i]))
    ensures LinesAfter(lines[i := other]) == LinesAfter(lines)
  {
    hide Begins, Ends, InBlock, RedactedLine;
    forall k | 0 <= k < |lines|
      ensures LinesAfter(lines[i := other])[k] == LinesAfter(lines)[k]
    {
      SameFlags(lines, i, other, k);
    }
  }
}
