/** The redacted text sent on as CI evidence (src/ci.rs). */
module CiEvidence {
  import opened Basics
  import opened Text
  import opened Redaction
  import opened TextFacts

  const MAX_CI_LOG_BYTES: nat := 128 * 1024

  const MAX_EVIDENCE_BYTES: nat := if MAX_CI_LOG_BYTES <= 48 * 1024 then MAX_CI_LOG_BYTES else 48 * 1024

  // One line, in place.

  method RedactLine(original: string) returns (line: string)
    ensures line == RedactedLine(original)
  {
    hide *;
    line := RedactMarkers(original);
    RedactedLineUnfolds(original);
    if NamesSecret(line) {
      line := line[..Separator(line) + 1] + REDACTED;
    }
  }

  method RedactMarkers(original: string) returns (line: string)
    ensures line == WithoutMarkers(original, 0)
  {
    hide WithoutMarker, IsMarker;
    line := original;
    var i := 0;
    while i < |MARKERS|
      invariant i <= |MARKERS| && WithoutMarkers(line, i) == WithoutMarkers(original, 0)
    {
      MarkersAreMarkers(i);
      line := RedactTokenMarker(line, MARKERS[i]);
      i := i + 1;
    }
  }

  // Private key blocks.

  ghost predicate Begins(line: string) {
    AnyCase(line, "-----begin ")
  }

  ghost predicate Ends(line: string) {
    AnyCase(line, "-----end ")
  }

  lemma BoundsAre(line: string)
    ensures Begins(line) <==> Has(Lower(line), "-----begin ")
    ensures Ends(line) <==> Has(Lower(line), "-----end ")
  {
    AnyCaseMeans(line, "-----begin ");
    AnyCaseMeans(line, "-----end ");
  }

  /** Line b opens a block and no line from it up to i, which is left out, closes it. */
  ghost predicate OpenFrom(lines: seq<string>, b: nat, i: nat) {
    b < |lines| && Begins(lines[b]) && forall e | b <= e < i && e < |lines| :: !Ends(lines[e])
  }

  /** Line i belongs to a block. */
  ghost predicate InBlock(lines: seq<string>, i: nat) {
    exists b: nat :: b <= i && OpenFrom(lines, b, i)
  }

  /** A block is open on arrival at line i. */
  ghost predicate OpenAt(lines: seq<string>, i: nat) {
    exists b: nat :: b < i && OpenFrom(lines, b, i)
  }

  lemma OpenStep(lines: seq<string>, i: nat)
    requires i < |lines|
    ensures InBlock(lines, i) <==> OpenAt(lines, i) || Begins(lines[i])
    ensures OpenAt(lines, i + 1) <==> InBlock(lines, i) && !Ends(lines[i])
  {
    hide Begins, Ends;
    if Begins(lines[i]) {
      assert OpenFrom(lines, i, i);
    }
    if OpenAt(lines, i + 1) {
      var b: nat :| b < i + 1 && OpenFrom(lines, b, i + 1);
      assert OpenFrom(lines, b, i);
    }
    if InBlock(lines, i) && !Ends(lines[i]) {
      var b: nat :| b <= i && OpenFrom(lines, b, i);
      assert OpenFrom(lines, b, i + 1);
    }
  }

  /** What becomes of one line. */
  ghost function LineAfter(lines: seq<string>, i: nat): string
    requires i < |lines|
  {
    if InBlock(lines, i) then "[REDACTED]" else RedactedLine(lines[i])
  }

  ghost function LinesAfter(lines: seq<string>): (r: seq<string>)
    ensures |r| == |lines|
  {
    seq(|lines|, i requires 0 <= i < |lines| => LineAfter(lines, i))
  }

  ghost predicate LinesDone(lines: seq<string>, i: nat, done: seq<string>) {
    i <= |lines| && |done| == i && forall j | 0 <= j < i :: done[j] == LineAfter(lines, j)
  }

  /** The line loop. */
  method RedactCiText(value: string) returns (r: string)
    ensures r == Join(LinesAfter(Lines(value)), '\n')
  {
    hide *;
    var lines, done, inPem := Lines(value), [], false;
    var i := 0;
    NothingDone(lines);
    while i < |lines|
      invariant i <= |lines| && LinesDone(lines, i, done) && inPem == OpenAt(lines, i)
    {
      OpenStep(lines, i);
      BoundsAre(lines[i]);
      var line := "[REDACTED]";
      if inPem || Has(Lower(lines[i]), "-----begin ") {
        inPem := !Has(Lower(lines[i]), "-----end ");
      } else {
        line := RedactLine(lines[i]);
      }
      OneMoreDone(lines, i, done, line);
      done := done + [line];
      i := i + 1;
    }
    AllDone(lines, done);
    r := Join(done, '\n');
  }

  lemma NothingDone(lines: seq<string>)
    ensures LinesDone(lines, 0, []) && !OpenAt(lines, 0)
  {
  }

  lemma OneMoreDone(lines: seq<string>, i: nat, done: seq<string>, line: string)
    requires i < |lines| && LinesDone(lines, i, done)
    requires line == if InBlock(lines, i) then "[REDACTED]" else RedactedLine(lines[i])
    ensures LinesDone(lines, i + 1, done + [line])
  {
    hide InBlock, RedactedLine;
  }

  lemma AllDone(lines: seq<string>, done: seq<string>)
    requires LinesDone(lines, |lines|, done)
    ensures done == LinesAfter(lines)
  {
    hide LineAfter;
  }

  /** A block goes from its first line through its last; behind it only a new block hides a whole line. */
  lemma BlockIsReplaced(lines: seq<string>, b: nat, e: nat)
    requires b <= e < |lines| && OpenFrom(lines, b, e)
    ensures forall i | b <= i <= e :: LinesAfter(lines)[i] == "[REDACTED]"
    ensures Ends(lines[e]) && e + 1 < |lines| ==> (InBlock(lines, e + 1) <==> Begins(lines[e + 1]))
  {
    hide Begins, Ends, RedactedLine;
    forall i | b <= i <= e
      ensures LinesAfter(lines)[i] == "[REDACTED]"
    {
      assert OpenFrom(lines, b, i);
    }
    OpenStep(lines, e);
    if e + 1 < |lines| {
      OpenStep(lines, e + 1);
    }
  }

  /** A block that is never closed hides everything behind it. */
  lemma UnclosedBlockHidesTheRest(lines: seq<string>, b: nat)
    requires b < |lines| && OpenFrom(lines, b, |lines|)
    ensures forall i | b <= i < |lines| :: LinesAfter(lines)[i] == "[REDACTED]"
  {
    hide Begins, Ends, RedactedLine;
    assert OpenFrom(lines, b, |lines| - 1);
    BlockIsReplaced(lines, b, |lines| - 1);
  }

  /** Clean lines pass as they are. */
  lemma CleanLineIsKept(lines: seq<string>, i: nat)
    requires i < |lines| && !InBlock(lines, i) && MarkerFree(lines[i]) && !NamesSecret(lines[i])
    ensures LinesAfter(lines)[i] == lines[i]
  {
    hide InBlock, NamesSecret, MarkerFree;
    FreeOfAll(lines[i]);
    WithoutMarkersSame(lines[i], 0);
  }

  // The whole text.

  /** A pattern without line breaks stands in a joined text only inside a line. */
  lemma {:induction false} JoinHas(pieces: seq<string>, pattern: string)
    requires pattern != "" && Free(pattern, '\n') && Has(Join(pieces, '\n'), pattern)
    ensures exists i | 0 <= i < |pieces| :: Has(pieces[i], pattern)
  {
    hide Has, Free;
    if pieces == [] {
      EmptyHasNone(pattern);
    } else if |pieces| > 1 {
      AcrossBreak(pieces[0], Join(pieces[1..], '\n'), pattern);
      if !Has(pieces[0], pattern) {
        JoinHas(pieces[1..], pattern);
        var i :| 0 <= i < |pieces[1..]| && Has(pieces[1..][i], pattern);
        assert pieces[1..][i] == pieces[i + 1];
      }
    }
  }

  lemma AcrossBreak(a: string, b: string, pattern: string)
    requires pattern != "" && Free(pattern, '\n') && Has(a + ['\n'] + b, pattern)
    ensures Has(a, pattern) || Has(b, pattern)
  {
    var s := a + ['\n'] + b;
    var k :| 0 <= k <= |s| - |pattern| && OccursAt(s, pattern, k);
    assert s[..|a|] == a && s[|a| + 1..] == b;
    OverBreak(s, k, |a|, pattern);
    hide OccursAt;
    if k + |pattern| <= |a| {
      OccursHead(s, |a|, pattern, k);
    } else {
      OccursTail(s, |a| + 1, pattern, k - |a| - 1);
    }
  }

  lemma OverBreak(s: string, k: nat, at: nat, pattern: string)
    requires Free(pattern, '\n') && OccursAt(s, pattern, k) && at < |s| && s[at] == '\n'
    ensures k + |pattern| <= at || at < k
  {
  }

  lemma RedactedIsFree()
    ensures MarkerFree(REDACTED) && Free(REDACTED, '\n')
  {
    forall i | 0 <= i < |MARKERS|
      ensures !Has(REDACTED, MARKERS[i])
    {
      MarkersAreMarkers(i);
      var marker := MARKERS[i];
      assert REDACTED == "" + REDACTED + "";
      if Has(REDACTED, marker) {
        AcrossRedaction("", "", marker);
      }
    }
  }

  /** Whatever the input: no token marker is left in the output. */
  lemma RedactedTextHasNoMarker(value: string)
    ensures MarkerFree(Join(LinesAfter(Lines(value)), '\n'))
  {
    hide Has, RedactedLine, IsMarker, InBlock;
    var after := LinesAfter(Lines(value));
    forall i | 0 <= i < |MARKERS|
      ensures !Has(Join(after, '\n'), MARKERS[i])
    {
      if Has(Join(after, '\n'), MARKERS[i]) {
        MarkersAreMarkers(i);
        MarkerNotEmpty(MARKERS[i]);
        JoinHas(after, MARKERS[i]);
        var j :| 0 <= j < |after| && Has(after[j], MARKERS[i]);
        RedactedLineHasNoMarker(Lines(value)[j]);
        RedactedIsFree();
      }
    }
  }

  /** Every input line has its own output line: splitting the output gives them back in order. Empty text stays empty. */
  lemma OutputLines(value: string)
    ensures Lines(value) == [] <==> value == ""
    ensures Split(Join(LinesAfter(Lines(value)), '\n'), '\n') == if value == "" then [""] else LinesAfter(Lines(value))
  {
    hide InBlock, RedactedLine, MarkerFree;
    LinesAreFree(value);
    var lines := Lines(value);
    var after := LinesAfter(lines);
    forall i | 0 <= i < |after|
      ensures Free(after[i], '\n')
    {
      assert Free(lines[i], '\n');
      RedactedIsFree();
      RedactedLineKeepsFree(lines[i]);
    }
    if value != "" {
      SplitJoin(after, '\n');
    }
  }

  lemma LinesAreFree(value: string)
    ensures AllFree(Lines(value), '\n')
    ensures value != "" ==> Lines(value) != []
  {
    if value != "" {
      hide Split, Join, WithoutReturns, AllFree;
      SplitIsFree(value, '\n');
      JoinSplit(value, '\n');
      var pieces := Split(value, '\n');
      var n := |pieces| - 1;
      if n == 0 {
        JoinOne(pieces, '\n');
      }
      PartsAreFree(pieces, n);
    }
  }

  lemma PartsAreFree(pieces: seq<string>, n: nat)
    requires n < |pieces| && AllFree(pieces, '\n')
    ensures AllFree(WithoutReturns(pieces[..n]) + (if pieces[n] == "" then [] else [pieces[n]]), '\n')
  {
    hide Free;
    var lines := WithoutReturns(pieces[..n]) + if pieces[n] == "" then [] else [pieces[n]];
    forall i | 0 <= i < |lines|
      ensures Free(lines[i], '\n')
    {
      assert Free(pieces[i], '\n');
      if i < n {
        ReturnKeepsFree(pieces[i]);
      }
    }
  }

  lemma ReturnKeepsFree(line: string)
    requires Free(line, '\n')
    ensures Free(WithoutReturn(line), '\n')
  {
  }

  lemma JoinOne(pieces: seq<string>, sep: char)
    requires |pieces| == 1
    ensures Join(pieces, sep) == pieces[0]
  {
  }

  lemma RedactedLineKeepsFree(line: string)
    requires Free(line, '\n')
    ensures Free(RedactedLine(line), '\n')
  {
    hide WithoutMarkers, NamesSecret, MarkerFree;
    RedactedIsFree();
    WithoutMarkersKeepsFree(line, 0, '\n');
    RedactedLineUnfolds(line);
  }

  // Truncation by encoded length.

  /** The bytes of a character in UTF-8. */
  function ByteWidth(c: char): (w: nat)
    ensures 1 <= w <= 4
  {
    if c < '\U{0080}' then 1 else if c < '\U{0800}' then 2 else if c < '\U{10000}' then 3 else 4
  }

  function ByteLength(s: string): nat {
    if s == "" then 0 else ByteWidth(s[0]) + ByteLength(s[1..])
  }

  /** The characters before a byte position, when it lies on a character boundary. */
  function Boundary(s: string, at: nat): Option<nat>
    decreases |s|
  {
    if at == 0 then Some(0)
    else if s == "" || at < ByteWidth(s[0]) then None
    else
      var rest := Boundary(s[1..], at - ByteWidth(s[0]));
      if rest.None? then None else Some(rest.value + 1)
  }

  lemma {:induction false} BoundaryMeaning(s: string, at: nat, k: nat)
    requires k <= |s|
    ensures Boundary(s, at) == Some(k) <==> ByteLength(s[..k]) == at
  {
    if k > 0 {
      assert s[..k][1..] == s[1..][..k - 1];
      if at >= ByteWidth(s[0]) {
        BoundaryMeaning(s[1..], at - ByteWidth(s[0]), k - 1);
      }
    }
  }

  lemma {:induction false} BoundaryInside(s: string, at: nat)
    requires Boundary(s, at).Some?
    ensures Boundary(s, at).value <= |s|
  {
    if at > 0 {
      BoundaryInside(s[1..], at - ByteWidth(s[0]));
    }
  }

  lemma {:induction false} LongerPrefix(s: string, j: nat, k: nat)
    requires j < k <= |s|
    ensures ByteLength(s[..j]) + ByteWidth(s[j]) <= ByteLength(s[..k])
    ensures k == j + 1 ==> ByteLength(s[..j]) + ByteWidth(s[j]) == ByteLength(s[..k])
  {
    assert s[..k][1..] == s[1..][..k - 1];
    if j > 0 {
      assert s[..j][1..] == s[1..][..j - 1];
      LongerPrefix(s[1..], j - 1, k - 1);
    }
  }

  /** The longest prefix that fits. */
  ghost predicate IsTruncation(value: string, maximum: nat, r: string) {
    && r <= value && ByteLength(r) <= maximum
    && forall k | |r| < k <= |value| :: ByteLength(value[..k]) > maximum
  }

  ghost predicate NoBoundaryIn(value: string, end: nat, maximum: nat) {
    forall k | 0 <= k <= |value| :: ByteLength(value[..k]) <= end || ByteLength(value[..k]) > maximum
  }

  method TruncateUtf8(value: string, maximum: nat) returns (r: string)
    ensures IsTruncation(value, maximum, r)
  {
    if ByteLength(value) <= maximum {
      assert value[..|value|] == value;
      return value;
    }
    var end: nat := maximum;
    while end > 0 && Boundary(value, end).None?
      invariant end <= maximum && NoBoundaryIn(value, end, maximum)
    {
      forall k | 0 <= k <= |value|
        ensures ByteLength(value[..k]) != end
      {
        BoundaryMeaning(value, end, k);
      }
      end := end - 1;
    }
    BoundaryInside(value, end);
    r := value[..Boundary(value, end).value];
    CutIsTruncation(value, maximum, end);
  }

  lemma CutIsTruncation(value: string, maximum: nat, end: nat)
    requires end <= maximum && NoBoundaryIn(value, end, maximum) && Boundary(value, end).Some?
    requires Boundary(value, end).value <= |value|
    ensures IsTruncation(value, maximum, value[..Boundary(value, end).value])
  {
    var n := Boundary(value, end).value;
    BoundaryMeaning(value, end, n);
    hide Boundary, ByteLength;
    forall k | n < k <= |value|
      ensures ByteLength(value[..k]) > maximum
    {
      LongerPrefix(value, n, k);
    }
  }

  /** There is one longest prefix, and it is all of the text or within three bytes of the limit. */
  lemma TruncationIsTight(value: string, maximum: nat, r: string, other: string)
    requires IsTruncation(value, maximum, r) && IsTruncation(value, maximum, other)
    ensures r == other
    ensures r != value ==> maximum < ByteLength(r) + 4
  {
    hide ByteLength, ByteWidth;
    assert value[..|r|] == r && value[..|other|] == other;
    if r != value {
      assert ByteLength(value[..|r| + 1]) > maximum;
      LongerPrefix(value, |r|, |r| + 1);
    }
  }

  /** Cutting brings no marker back. */
  lemma TruncationKeepsMarkerFree(value: string, maximum: nat, r: string)
    requires IsTruncation(value, maximum, r) && MarkerFree(value)
    ensures MarkerFree(r)
  {
    hide Has, ByteLength;
    assert value[..|r|] == r;
    forall i | 0 <= i < |MARKERS|
      ensures !Has(r, MARKERS[i])
    {
      if Has(r, MARKERS[i]) {
        PrefixHas(value, |r|, MARKERS[i]);
      }
    }
  }

  /** The evidence as it is sent; the argument is the serialised envelope. */
  method PrepareCiEvidence(serialized: string) returns (r: string)
    ensures IsTruncation(Join(LinesAfter(Lines(serialized)), '\n'), 49152, r)
    ensures MarkerFree(r) && ByteLength(r) <= 49152
  {
    hide MarkerFree, Has, Lines, Join, ByteLength, LinesAfter;
    var redacted := RedactCiText(serialized);
    r := TruncateUtf8(redacted, MAX_EVIDENCE_BYTES);
    RedactedTextHasNoMarker(serialized);
    TruncationKeepsMarkerFree(redacted, MAX_EVIDENCE_BYTES, r);
  }
}
