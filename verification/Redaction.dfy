/** Redacting credentials in one line of CI evidence before it leaves the service (src/ci.rs). */
module Redaction {
  import opened Basics
  import opened Text

  const REDACTED := "[REDACTED]"

  const MARKERS: seq<string> :=
    ["ghp_", "github_pat_", "ghs_", "gho_", "ghu_", "ghr_", "sk-proj-", "AKIA", "npm_", "eyJ"]

  const SECRET_WORDS: seq<string> :=
    ["authorization: bearer", "password=", "token=", "secret=", "private_key="]

  predicate HasAny(s: string, patterns: seq<string>) {
    exists i | 0 <= i < |patterns| :: Has(s, patterns[i])
  }

  ghost predicate MarkerFree(s: string) {
    !HasAny(s, MARKERS)
  }

  // Lines.

  /** Rust's lines(): a final line break ends the last line, and a carriage return before a break goes with it. */
  function Lines(text: string): seq<string> {
    if text == "" then []
    else
      var pieces := Split(text, '\n');
      var last := pieces[|pieces| - 1];
      WithoutReturns(pieces[..|pieces| - 1]) + if last == "" then [] else [last]
  }

  function WithoutReturns(lines: seq<string>): (r: seq<string>)
    ensures |r| == |lines|
  {
    seq(|lines|, i requires 0 <= i < |lines| => WithoutReturn(lines[i]))
  }

  function WithoutReturn(line: string): string {
    if line != "" && line[|line| - 1] == '\r' then line[..|line| - 1] else line
  }

  // One marker.

  /** The end of the word beginning at the front. */
  function WordEnd(s: string): (n: nat)
    ensures n <= |s|
  {
    if s == "" || IsWhitespace(s[0]) then 0 else 1 + WordEnd(s[1..])
  }

  predicate IsMarker(marker: string) {
    && marker != "" && !IsWhitespace(marker[0]) && '[' !in marker && ']' !in marker
    && exists j | 0 <= j < |marker| :: marker[j] !in REDACTED
  }

  lemma MarkersAreMarkers(i: nat)
    requires i < |MARKERS|
    ensures IsMarker(MARKERS[i]) && '\n' !in MARKERS[i]
  {
    assert MARKERS[i][1] !in REDACTED;
  }

  /** Where `pattern` first stands. */
  function Find(s: string, pattern: string): Option<nat> {
    if pattern == "" then Some(0)
    else
      var found := SplitOnce(s, pattern);
      if found.None? then None else Some(|found.value.0|)
  }

  lemma FindMeaning(s: string, pattern: string)
    requires pattern != ""
    ensures Find(s, pattern).None? <==> !Has(s, pattern)
    ensures Find(s, pattern).Some? ==>
              var k := Find(s, pattern).value;
              && OccursAt(s, pattern, k) && !Has(s[..k], pattern)
              && forall j | 0 <= j < k :: !OccursAt(s, pattern, j)
  {
    SplitOnceFirst(s, pattern);
    hide SplitOnce;
    if Find(s, pattern).Some? {
      FrontHasNone(s, Find(s, pattern).value, pattern);
    }
  }

  /** What stands before a first occurrence has none. */
  lemma FrontHasNone(s: string, n: nat, pattern: string)
    requires n <= |s| && pattern != "" && forall k | 0 <= k < n :: !OccursAt(s, pattern, k)
    ensures !Has(s[..n], pattern)
  {
    hide OccursAt;
    if Has(s[..n], pattern) {
      var k :| 0 <= k <= |s[..n]| - |pattern| && OccursAt(s[..n], pattern, k);
      OccursHead(s, n, pattern, k);
    }
  }

  /** The word that a found marker begins is not empty. */
  lemma FoundWord(s: string, marker: string)
    requires IsMarker(marker) && Find(s, marker).Some?
    ensures Find(s, marker).value <= |s| && 0 < WordEnd(s[Find(s, marker).value..])
  {
    FindMeaning(s, marker);
    var k := Find(s, marker).value;
    assert s[k..][0] == s[k..k + |marker|][0];
  }

  /** From the first occurrence to the end of its word, then on behind it. */
  ghost function WithoutMarker(s: string, marker: string): string
    requires IsMarker(marker)
    decreases |s|
  {
    var found := Find(s, marker);
    if found.None? then s
    else
      FoundWord(s, marker);
      var k := found.value;
      s[..k] + REDACTED + WithoutMarker(s[k + WordEnd(s[k..])..], marker)
  }

  /** No marker lies across or inside a redaction. */
  lemma AcrossRedaction(a: string, b: string, marker: string)
    requires IsMarker(marker) && Has(a + REDACTED + b, marker)
    ensures Has(a, marker) || Has(b, marker)
  {
    var s := a + REDACTED + b;
    var k :| 0 <= k <= |s| - |marker| && OccursAt(s, marker, k);
    assert s[|a|..|a| + 10] == REDACTED && s[..|a|] == a && s[|a| + 10..] == b;
    OverRedaction(s, |a|, k, marker);
    hide OccursAt;
    if k + |marker| <= |a| {
      OccursHead(s, |a|, marker, k);
    } else {
      OccursTail(s, |a| + 10, marker, k - |a| - 10);
    }
  }

  /** An occurrence that meets the redaction would hold a bracket, or lie inside its letters. */
  lemma OverRedaction(s: string, at: nat, k: nat, marker: string)
    requires at + 10 <= |s| && s[at..at + 10] == REDACTED && IsMarker(marker)
    requires OccursAt(s, marker, k)
    ensures k + |marker| <= at || k >= at + 10
  {
    var j :| 0 <= j < |marker| && marker[j] !in REDACTED;
    if k <= at < k + |marker| {
      SameChar(s, at, k, marker, 0);
    } else if k <= at + 9 < k + |marker| {
      SameChar(s, at, k, marker, 9);
    } else if at <= k + j < at + 10 {
      SameChar(s, at, k, marker, k + j - at);
    }
  }

  lemma SameChar(s: string, at: nat, k: nat, marker: string, i: nat)
    requires at + 10 <= |s| && s[at..at + 10] == REDACTED && OccursAt(s, marker, k)
    requires i < 10 && k <= at + i < k + |marker|
    ensures marker[at + i - k] == REDACTED[i]
  {
    assert s[k..k + |marker|][at + i - k] == s[at + i] == s[at..at + 10][i];
  }

  /** The marker is gone, and no other marker that was absent appears. */
  lemma {:induction false} WithoutMarkerHasNone(s: string, marker: string, other: string)
    requires IsMarker(marker) && IsMarker(other) && (other == marker || !Has(s, other))
    ensures !Has(WithoutMarker(s, marker), other)
    decreases |s|
  {
    hide *;
    WithoutMarkerUnfolds(s, marker);
    MarkerNotEmpty(marker);
    FindMeaning(s, marker);
    if Find(s, marker).Some? {
      var k := Find(s, marker).value;
      var n := k + WordEnd(s[k..]);
      if other != marker && Has(s[n..], other) {
        SuffixHas(s, n, other);
      }
      WithoutMarkerHasNone(s[n..], marker, other);
      if Has(s[..k], other) {
        PrefixHas(s, k, other);
      }
      if Has(s[..k] + REDACTED + WithoutMarker(s[n..], marker), other) {
        AcrossRedaction(s[..k], WithoutMarker(s[n..], marker), other);
      }
    }
  }

  lemma WithoutMarkerUnfolds(s: string, marker: string)
    requires IsMarker(marker)
    ensures Find(s, marker).None? ==> WithoutMarker(s, marker) == s
    ensures Find(s, marker).Some? ==>
              var k := Find(s, marker).value;
              && k <= |s| && 0 < WordEnd(s[k..])
              && WithoutMarker(s, marker) == s[..k] + REDACTED + WithoutMarker(s[k + WordEnd(s[k..])..], marker)
  {
    hide Find, IsMarker, WordEnd;
    if Find(s, marker).Some? {
      FoundWord(s, marker);
    }
  }

  lemma MarkerNotEmpty(marker: string)
    requires IsMarker(marker)
    ensures marker != ""
  {
  }

  /** Text without the marker is left alone. */
  lemma WithoutMarkerSame(s: string, marker: string)
    requires IsMarker(marker) && !Has(s, marker)
    ensures WithoutMarker(s, marker) == s
  {
    hide Find, Has, IsMarker, WordEnd;
    MarkerNotEmpty(marker);
    FindMeaning(s, marker);
  }

  /** What the loop is after, when it has come to `from`. */
  ghost function Goal(value: string, from: nat, marker: string): string
    requires IsMarker(marker) && from <= |value|
  {
    value[..from] + WithoutMarker(value[from..], marker)
  }

  /** One redaction on the way, with the search to go on at `next`. */
  ghost predicate OneRedaction(value: string, from: nat, marker: string, r: string, next: nat)
    requires IsMarker(marker) && from <= |value|
  {
    next <= |r| && |r| - next < |value| - from && Goal(r, next, marker) == Goal(value, from, marker)
  }

  /** The in-place loop over one line. */
  method RedactTokenMarker(value: string, marker: string) returns (r: string)
    requires IsMarker(marker)
    ensures r == WithoutMarker(value, marker)
  {
    r := value;
    var searchFrom: nat := 0;
    GoalAtStart(value, marker);
    var more := true;
    hide *;
    while more
      invariant searchFrom <= |r| && Goal(r, searchFrom, marker) == WithoutMarker(value, marker)
      invariant !more ==> r == WithoutMarker(value, marker)
      decreases more, |r| - searchFrom
    {
      ghost var before, from := r, searchFrom;
      more, r, searchFrom := RedactNext(r, searchFrom, marker);
      OneRedactionMeans(before, from, marker, r, searchFrom);
    }
  }

  lemma GoalAtStart(value: string, marker: string)
    requires IsMarker(marker)
    ensures Goal(value, 0, marker) == WithoutMarker(value, marker)
  {
    assert value[0..] == value;
  }

  lemma OneRedactionMeans(value: string, from: nat, marker: string, r: string, next: nat)
    requires IsMarker(marker) && from <= |value|
    ensures OneRedaction(value, from, marker, r, next) ==>
              next <= |r| && |r| - next < |value| - from && Goal(r, next, marker) == Goal(value, from, marker)
  {
    hide Goal;
  }

  /** The word at `start` replaced. */
  function WordReplaced(value: string, start: nat): string
    requires start <= |value|
  {
    value[..start] + REDACTED + value[start + WordEnd(value[start..])..]
  }

  /** One replacement, and where the search goes on. */
  method RedactNext(value: string, from: nat, marker: string) returns (more: bool, r: string, next: nat)
    requires IsMarker(marker) && from <= |value|
    ensures !more ==> r == value == Goal(value, from, marker) && next == from
    ensures more ==> OneRedaction(value, from, marker, r, next)
  {
    hide *;
    var relative := Find(value[from..], marker);
    if relative.None? {
      NothingLeft(value, from, marker);
      more, r, next := false, value, from;
    } else {
      RedactionStep(value, from, marker);
      var start := from + relative.value;
      more, r, next := true, WordReplaced(value, start), start + |REDACTED|;
    }
  }

  lemma NothingLeft(value: string, from: nat, marker: string)
    requires IsMarker(marker) && from <= |value| && Find(value[from..], marker).None?
    ensures value == Goal(value, from, marker)
  {
    WithoutMarkerUnfolds(value[from..], marker);
    hide WithoutMarker;
    assert value[..from] + value[from..] == value;
  }

  lemma RedactionStep(value: string, from: nat, marker: string)
    requires IsMarker(marker) && from <= |value| && Find(value[from..], marker).Some?
    ensures var start := from + Find(value[from..], marker).value;
            start <= |value| && OneRedaction(value, from, marker, WordReplaced(value, start), start + |REDACTED|)
  {
    hide WithoutMarker, WordEnd, IsMarker, Find;
    WithoutMarkerUnfolds(value[from..], marker);
    Redacted(value, from, Find(value[from..], marker).value, marker);
  }

  lemma Redacted(value: string, from: nat, k: nat, marker: string)
    requires IsMarker(marker) && from + k <= |value| && 0 < WordEnd(value[from..][k..])
    requires WithoutMarker(value[from..], marker)
             == value[from..][..k] + REDACTED + WithoutMarker(value[from..][k + WordEnd(value[from..][k..])..], marker)
    ensures OneRedaction(value, from, marker, WordReplaced(value, from + k), from + k + |REDACTED|)
  {
    hide WithoutMarker, WordEnd, IsMarker;
    var start := from + k;
    assert value[from..][k..] == value[start..];
    var end := start + WordEnd(value[start..]);
    var next := WordReplaced(value, start);
    var rest := WithoutMarker(value[end..], marker);
    assert value[from..][k + WordEnd(value[start..])..] == value[end..] == next[start + 10..];
    assert next[..start + 10] == value[..from] + (value[from..][..k] + REDACTED);
    assert (value[..from] + (value[from..][..k] + REDACTED)) + rest == value[..from] + (value[from..][..k] + REDACTED + rest);
  }

  // Word by word.

  ghost predicate IsWord(s: string) {
    s != "" && forall i | 0 <= i < |s| :: !IsWhitespace(s[i])
  }

  lemma MarkersAreWords(i: nat)
    requires i < |MARKERS|
    ensures IsWord(MARKERS[i])
  {
  }

  lemma FindIs(s: string, pattern: string, k: nat)
    requires pattern != "" && OccursAt(s, pattern, k) && forall j | 0 <= j < k :: !OccursAt(s, pattern, j)
    ensures Find(s, pattern) == Some(k)
  {
    hide Find, OccursAt;
    FindMeaning(s, pattern);
    HasAt(s, pattern, k);
  }

  lemma {:induction false} WordEndBefore(a: string, c: char, b: string)
    requires IsWhitespace(c)
    ensures WordEnd(a + [c] + b) == WordEnd(a)
  {
    if a != "" {
      assert (a + [c] + b)[1..] == a[1..] + [c] + b;
      WordEndBefore(a[1..], c, b);
    }
  }

  /** A word stands in one of the two parts. */
  lemma WordBesideSpace(a: string, c: char, b: string, word: string, k: nat)
    requires IsWord(word) && IsWhitespace(c)
    ensures k + |word| <= |a| ==> (OccursAt(a + [c] + b, word, k) <==> OccursAt(a, word, k))
    ensures k <= |a| < k + |word| ==> !OccursAt(a + [c] + b, word, k)
    ensures OccursAt(a + [c] + b, word, |a| + 1 + k) <==> OccursAt(b, word, k)
  {
    var s := a + [c] + b;
    assert s[..|a|] == a && s[|a| + 1..] == b;
    OccursTail(s, |a| + 1, word, k);
    if k + |word| <= |a| {
      OccursHead(s, |a|, word, k);
    } else if k <= |a| && OccursAt(s, word, k) {
      assert s[k..k + |word|][|a| - k] == s[|a|];
    }
  }

  lemma FindBesideSpace(a: string, c: char, b: string, word: string)
    requires IsWord(word) && IsWhitespace(c)
    ensures Find(a + [c] + b, word)
            == if Find(a, word).Some? then Find(a, word)
               else if Find(b, word).Some? then Some(|a| + 1 + Find(b, word).value) else None
  {
    hide Find, OccursAt, IsWhitespace;
    var s := a + [c] + b;
    FindMeaning(a, word);
    FindMeaning(b, word);
    FindMeaning(s, word);
    forall k: nat | OccursAt(s, word, k)
      ensures || (k + |word| <= |a| && OccursAt(a, word, k) && Has(a, word))
              || (k > |a| && OccursAt(b, word, k - |a| - 1) && Has(b, word))
    {
      WordBesideSpace(a, c, b, word, k);
      if k + |word| <= |a| {
        HasAt(a, word, k);
      } else {
        WordBesideSpace(a, c, b, word, k - |a| - 1);
        HasAt(b, word, k - |a| - 1);
      }
    }
    if Find(a, word).Some? {
      WordBesideSpace(a, c, b, word, Find(a, word).value);
      OccursInside(a, word, Find(a, word).value);
      FindIs(s, word, Find(a, word).value);
    } else if Find(b, word).Some? {
      WordBesideSpace(a, c, b, word, Find(b, word).value);
      FindIs(s, word, |a| + 1 + Find(b, word).value);
    }
  }

  lemma OccursInside(s: string, pattern: string, k: nat)
    requires OccursAt(s, pattern, k)
    ensures k + |pattern| <= |s|
  {
  }

  /** White space keeps redactions apart: what stands on one side has no effect on the other. */
  lemma {:induction false} WordsAreRedactedApart(a: string, c: char, b: string, marker: string)
    requires IsMarker(marker) && IsWord(marker) && IsWhitespace(c)
    ensures WithoutMarker(a + [c] + b, marker) == WithoutMarker(a, marker) + [c] + WithoutMarker(b, marker)
    decreases |a|
  {
    hide *;
    WithoutMarkerUnfolds(a, marker);
    WithoutMarkerUnfolds(a + [c] + b, marker);
    FindBesideSpace(a, c, b, marker);
    if Find(a, marker).Some? {
      var k := Find(a, marker).value;
      var n := k + WordEnd(a[k..]);
      WordEndBefore(a[k..], c, b);
      SlicesInFront(a, c, b, k, n);
      WordsAreRedactedApart(a[n..], c, b, marker);
      Regroup(a[..k], WithoutMarker(a[n..], marker), c, WithoutMarker(b, marker));
    } else {
      WithoutMarkerUnfolds(b, marker);
      if Find(b, marker).Some? {
        SlicesBehind(a, c, b, Find(b, marker).value, WordEnd(b[Find(b, marker).value..]));
        Regrouped(a, c, b[..Find(b, marker).value],
                  WithoutMarker(b[Find(b, marker).value + WordEnd(b[Find(b, marker).value..])..], marker));
      }
    }
  }

  lemma SlicesInFront(a: string, c: char, b: string, k: nat, n: nat)
    requires k <= n <= |a|
    ensures var s := a + [c] + b; s[..k] == a[..k] && s[k..] == a[k..] + [c] + b && s[n..] == a[n..] + [c] + b
  {
  }

  lemma SlicesBehind(a: string, c: char, b: string, k: nat, n: nat)
    requires k + n <= |b|
    ensures var s, m := a + [c] + b, |a| + 1 + k; s[..m] == a + [c] + b[..k] && s[m..] == b[k..] && s[m + n..] == b[k + n..]
  {
  }

  lemma Regroup(front: string, rest: string, c: char, last: string)
    ensures front + REDACTED + (rest + [c] + last) == front + REDACTED + rest + [c] + last
  {
  }

  lemma Regrouped(a: string, c: char, front: string, rest: string)
    ensures a + [c] + front + REDACTED + rest == a + [c] + (front + REDACTED + rest)
  {
  }

  // All markers.

  /** The markers from number i on, one after the other. */
  ghost function WithoutMarkers(s: string, i: nat): string
    requires i <= |MARKERS|
    decreases |MARKERS| - i
  {
    if i == |MARKERS| then s
    else
      MarkersAreMarkers(i);
      WithoutMarkers(WithoutMarker(s, MARKERS[i]), i + 1)
  }

  ghost predicate FreeOfFirst(s: string, n: nat)
    requires n <= |MARKERS|
  {
    forall j | 0 <= j < n :: !Has(s, MARKERS[j])
  }

  /** A later marker's pass does not bring an earlier marker back. */
  lemma {:induction false} WithoutMarkersHasNone(s: string, i: nat)
    requires i <= |MARKERS| && FreeOfFirst(s, i)
    ensures FreeOfFirst(WithoutMarkers(s, i), |MARKERS|)
    decreases |MARKERS| - i
  {
    hide WithoutMarker, Has, IsMarker;
    if i < |MARKERS| {
      MarkersAreMarkers(i);
      var t := WithoutMarker(s, MARKERS[i]);
      forall j | 0 <= j < i + 1
        ensures !Has(t, MARKERS[j])
      {
        MarkersAreMarkers(j);
        WithoutMarkerHasNone(s, MARKERS[i], MARKERS[j]);
      }
      WithoutMarkersHasNone(t, i + 1);
    }
  }

  /** No character but those of the redaction is added. */
  lemma {:induction false} WithoutMarkerKeepsFree(s: string, marker: string, c: char)
    requires IsMarker(marker) && Free(s, c) && Free(REDACTED, c)
    ensures Free(WithoutMarker(s, marker), c)
    decreases |s|
  {
    hide WithoutMarker, IsMarker, Find, WordEnd;
    WithoutMarkerUnfolds(s, marker);
    if Find(s, marker).Some? {
      var k := Find(s, marker).value;
      WithoutMarkerKeepsFree(s[k + WordEnd(s[k..])..], marker, c);
    }
  }

  lemma {:induction false} WithoutMarkersKeepsFree(s: string, i: nat, c: char)
    requires i <= |MARKERS| && Free(s, c) && Free(REDACTED, c)
    ensures Free(WithoutMarkers(s, i), c)
    decreases |MARKERS| - i
  {
    hide WithoutMarker, IsMarker;
    if i < |MARKERS| {
      MarkersAreMarkers(i);
      WithoutMarkerKeepsFree(s, MARKERS[i], c);
      WithoutMarkersKeepsFree(WithoutMarker(s, MARKERS[i]), i + 1, c);
    }
  }

  lemma {:induction false} WithoutMarkersSame(s: string, i: nat)
    requires i <= |MARKERS| && FreeOfFirst(s, |MARKERS|)
    ensures WithoutMarkers(s, i) == s
    decreases |MARKERS| - i
  {
    hide WithoutMarker, IsMarker, Has;
    if i < |MARKERS| {
      MarkersAreMarkers(i);
      WithoutMarkerSame(s, MARKERS[i]);
      WithoutMarkersSame(s, i + 1);
    }
  }

  lemma FreeOfAll(s: string)
    ensures MarkerFree(s) <==> FreeOfFirst(s, |MARKERS|)
  {
    hide Has;
  }

  // One line.

  predicate IsSeparator(c: char) {
    c == '=' || c == ':'
  }

  /** The first separator, or the length. */
  function Separator(line: string): (n: nat)
    ensures n <= |line|
  {
    if line == "" || IsSeparator(line[0]) then 0 else 1 + Separator(line[1..])
  }

  predicate NamesSecret(line: string) {
    HasAny(Lower(line), SECRET_WORDS)
  }

  ghost predicate SeparatorAt(line: string, k: nat) {
    k < |line| && IsSeparator(line[k])
  }

  lemma {:induction false} SeparatorIsFirst(line: string, k: nat)
    requires SeparatorAt(line, k)
    ensures Separator(line) <= k && SeparatorAt(line, Separator(line))
  {
    if !IsSeparator(line[0]) {
      SeparatorIsFirst(line[1..], k - 1);
    }
  }

  /** Every secret word holds a separator, so a line that names one has a place to be cut. */
  lemma SecretHasSeparator(line: string)
    requires NamesSecret(line)
    ensures SeparatorAt(line, Separator(line))
  {
    var word := SecretWord(Lower(line));
    var k :| 0 <= k <= |Lower(line)| - |word| && OccursAt(Lower(line), word, k);
    var j: nat :| j < |word| && IsSeparator(word[j]);
    assert Lower(line)[k..k + |word|][j] == Lower(line)[k + j];
    LowerSeparator(line, k + j);
    SeparatorIsFirst(line, k + j);
  }

  lemma SecretWord(s: string) returns (word: string)
    requires HasAny(s, SECRET_WORDS)
    ensures Has(s, word) && exists j: nat | j < |word| :: IsSeparator(word[j])
  {
    hide Has;
    var i :| 0 <= i < |SECRET_WORDS| && Has(s, SECRET_WORDS[i]);
    word := SECRET_WORDS[i];
    assert SECRET_WORDS[0][13] == ':' && SECRET_WORDS[1][8] == '=' && SECRET_WORDS[2][5] == '='
        && SECRET_WORDS[3][6] == '=' && SECRET_WORDS[4][11] == '=';
  }

  lemma LowerSeparator(line: string, k: nat)
    requires k < |line| && IsSeparator(Lower(line)[k])
    ensures IsSeparator(line[k])
  {
  }

  /** Tokens go first; a line that still names a secret is cut behind its first separator. */
  ghost function RedactedLine(line: string): string {
    var clean := WithoutMarkers(line, 0);
    if NamesSecret(clean) then
      SecretHasSeparator(clean);
      clean[..Separator(clean) + 1] + REDACTED
    else
      clean
  }

  lemma RedactedLineHasNoMarker(line: string)
    ensures MarkerFree(RedactedLine(line))
  {
    hide *;
    var clean := WithoutMarkers(line, 0);
    FreeOfNone(line);
    WithoutMarkersHasNone(line, 0);
    RedactedLineUnfolds(line);
    if NamesSecret(clean) {
      CutHasNoMarker(clean, Separator(clean) + 1);
    }
    FreeOfAll(RedactedLine(line));
  }

  lemma FreeOfNone(s: string)
    ensures FreeOfFirst(s, 0)
  {
  }

  lemma RedactedLineUnfolds(line: string)
    ensures var clean := WithoutMarkers(line, 0);
            && (NamesSecret(clean) ==> Separator(clean) < |clean| && RedactedLine(line) == clean[..Separator(clean) + 1] + REDACTED)
            && (!NamesSecret(clean) ==> RedactedLine(line) == clean)
  {
    hide NamesSecret, WithoutMarkers, Separator;
    if NamesSecret(WithoutMarkers(line, 0)) {
      SecretHasSeparator(WithoutMarkers(line, 0));
    }
  }

  lemma CutHasNoMarker(s: string, n: nat)
    requires n <= |s| && FreeOfFirst(s, |MARKERS|)
    ensures FreeOfFirst(s[..n] + REDACTED, |MARKERS|)
  {
    hide Has, IsMarker;
    forall j | 0 <= j < |MARKERS|
      ensures !Has(s[..n] + REDACTED, MARKERS[j])
    {
      MarkersAreMarkers(j);
      CutHasNone(s, n, MARKERS[j]);
    }
  }

  lemma CutHasNone(s: string, n: nat, marker: string)
    requires n <= |s| && IsMarker(marker) && !Has(s, marker)
    ensures !Has(s[..n] + REDACTED, marker)
  {
    hide Has, IsMarker;
    if Has(s[..n] + REDACTED, marker) {
      assert s[..n] + REDACTED == s[..n] + REDACTED + "";
      AcrossRedaction(s[..n], "", marker);
      MarkerNotEmpty(marker);
      EmptyHasNone(marker);
      PrefixHas(s, n, marker);
    }
  }

  lemma EmptyHasNone(pattern: string)
    requires pattern != ""
    ensures !Has("", pattern)
  {
  }
}
