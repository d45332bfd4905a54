/** What the characters of a patch mean. */
module PatchText {
  import opened Basics
  import opened Text
  import opened TextFacts
  import opened Patch
  import opened PatchParser
  import opened PatchPrinter

  // Body lines.

  /** The lines that begin with one of two characters, without it. */
  ghost function Side(body: seq<string>, a: char, b: char): seq<string> {
    if body == [] then []
    else
      var last := body[|body| - 1];
      Side(body[..|body| - 1], a, b) + if last != "" && last[0] in {a, b} then [last[1..]] else []
  }

  /** In a hunk that was read, a minus removes, a plus adds, a space keeps, and the rest of the line is the text. */
  lemma BodyLineMeans(lines: seq<string>, h: Hunk, k: nat)
    requires DescribesHunk(lines, h) && k < |h.lines|
    ensures lines[1 + k] != "" && h.lines[k].text == lines[1 + k][1..]
    ensures lines[1 + k][0] == '-' <==> h.lines[k].Remove?
    ensures lines[1 + k][0] == '+' <==> h.lines[k].Add?
    ensures lines[1 + k][0] == ' ' <==> h.lines[k].Context?
  {
    hide ParseHunkHeader, OldLines, NewLines;
    assert lines[1 + k] == LineText(h.lines[k]);
  }

  /** Such a line can be nothing else, and a line that begins otherwise is no body line. */
  lemma ParseLineMeans(line: string)
    ensures ParseLine(line).Some? <==> line != "" && line[0] in {' ', '-', '+'}
    ensures line != "" && line[0] == ' ' ==> ParseLine(line) == Some(Context(line[1..]))
    ensures line != "" && line[0] == '-' ==> ParseLine(line) == Some(Remove(line[1..]))
    ensures line != "" && line[0] == '+' ==> ParseLine(line) == Some(Add(line[1..]))
  {
  }

  lemma {:induction false} SidesOfBody(body: seq<string>, lines: seq<HunkLine>)
    requires |body| == |lines| && forall k | 0 <= k < |body| :: body[k] == LineText(lines[k])
    ensures OldLines(lines) == Side(body, ' ', '-') && NewLines(lines) == Side(body, ' ', '+')
  {
    if body != [] {
      var n := |body| - 1;
      SidesOfBody(body[..n], lines[..n]);
      assert body[n] == LineText(lines[n]);
      assert body[n][1..] == lines[n].text;
    }
  }

  /** The old lines of a hunk are its lines that begin with a space or a minus, the new ones with a space or a plus. */
  lemma HunkSides(lines: seq<string>, h: Hunk)
    requires DescribesHunk(lines, h)
    ensures OldLines(h.lines) == Side(lines[1..], ' ', '-') && NewLines(h.lines) == Side(lines[1..], ' ', '+')
    ensures h.oldCount == |Side(lines[1..], ' ', '-')| && h.newCount == |Side(lines[1..], ' ', '+')|
  {
    hide ParseHunkHeader, OldLines, NewLines;
    assert forall k | 0 <= k < |h.lines| :: lines[1..][k] == lines[1 + k];
    SidesOfBody(lines[1..], h.lines);
    CountsMean(h);
  }

  lemma CountsMean(h: Hunk)
    requires CountsOld(h) && CountsNew(h)
    ensures |OldLines(h.lines)| == h.oldCount && |NewLines(h.lines)| == h.newCount
  {
  }

  /** Every hunk of a patch that was read stands in its lines, one after the other. */
  lemma {:induction false} HunkStands(lines: seq<string>, hunks: seq<Hunk>, k: nat) returns (at: nat)
    requires DescribesHunks(lines, hunks) && k < |hunks|
    ensures at + 1 + |hunks[k].lines| <= |lines| && DescribesHunk(lines[at..at + 1 + |hunks[k].lines|], hunks[k])
    decreases k
  {
    hide DescribesHunk;
    if k == 0 {
      at := 0;
    } else {
      var n := 1 + |hunks[0].lines|;
      var rest := HunkStands(lines[n..], hunks[1..], k - 1);
      at := n + rest;
      assert lines[at..at + 1 + |hunks[k].lines|] == lines[n..][rest..rest + 1 + |hunks[k].lines|];
    }
  }

  // Headers.

  /** Start and count, separated by a comma; without a comma the count is one. */
  lemma RangeMeans(a: string, b: string)
    requires a != "" && Digits(a) && b != "" && Digits(b)
    ensures Value(a) <= USIZE_MAX && Value(b) <= USIZE_MAX ==>
              ParseRange(a + "," + b) == Some((Value(a), Value(b)))
    ensures Value(a) <= USIZE_MAX ==> ParseRange(a) == Some((Value(a), 1))
    ensures Value(a) > USIZE_MAX ==> ParseRange(a).None?
  {
    hide ParseUnsigned, SplitOnce, Value, Digits;
    CommaFirst(a, b);
    ParseUnsignedMeans(a, USIZE_MAX);
    ParseUnsignedMeans(b, USIZE_MAX);
    OneIsOne();
    ParseUnsignedMeans("1", USIZE_MAX);
  }

  lemma OneIsOne()
    ensures Digits("1") && Value("1") == 1
  {
    assert "1"[1..] == "";
  }

  lemma CommaFirst(a: string, b: string)
    requires Digits(a) && Digits(b)
    ensures SplitOnce(a + "," + b, ",") == Some((a, b)) && SplitOnce(a, ",") == None
  {
    var s := a + "," + b;
    forall k | 0 <= k < |a|
      ensures !OccursAt(s, ",", k)
    {
      assert s[k..k + 1][0] == a[k];
    }
    SplitOnceAt(a, ",", b);
    assert Free(a, ',');
    NoOccurrence(a, ",");
  }

  ghost predicate IsRange(range: string, start: nat, count: nat) {
    exists a, b :: IsRangeOf(range, a, b, start, count)
  }

  ghost predicate IsRangeOf(range: string, a: string, b: string, start: nat, count: nat) {
    && a != "" && Digits(a) && Value(a) == start
    && ((range == a + "," + b && b != "" && Digits(b) && Value(b) == count) || (range == a && count == 1))
  }

  /** A header gives the old start and both counts, as decimal numbers, and anything may follow the second @@. */
  lemma HeaderMeans(
      old_: string, new_: string, oldStart: nat, oldCount: nat, newStart: nat, newCount: nat, section: string)
    requires IsRange(old_, oldStart, oldCount) && IsRange(new_, newStart, newCount)
    requires oldStart <= USIZE_MAX && oldCount <= USIZE_MAX && newStart <= USIZE_MAX && newCount <= USIZE_MAX
    requires oldStart == 0 ==> oldCount == 0
    ensures ParseHunkHeader("@@ -" + old_ + " +" + new_ + " @@" + section) == Some((oldStart, oldCount, newCount))
  {
    hide *;
    RangeIsRead(old_, oldStart, oldCount);
    RangeIsRead(new_, newStart, newCount);
    RangesFree(old_, new_);
    DelimiterLast("-" + old_ + " +" + new_, section);
    FieldsSplit(old_, new_);
    ParseFields("-" + old_ + " +" + new_, section, old_, new_, oldStart, oldCount, newStart, newCount);
    HeaderIsNested(old_, new_, section);
  }

  lemma HeaderIsNested(old_: string, new_: string, section: string)
    ensures "@@ -" + old_ + " +" + new_ + " @@" + section == "@@ " + (("-" + old_ + " +" + new_) + " @@" + section)
  {
  }

  lemma RangeIsRead(range: string, start: nat, count: nat)
    requires IsRange(range, start, count) && start <= USIZE_MAX && count <= USIZE_MAX
    ensures ParseRange(range) == Some((start, count)) && Free(range, '@') && Free(range, ' ')
  {
    var a, b :| IsRangeOf(range, a, b, start, count);
    RangeOfIsRead(range, a, b, start, count);
  }

  lemma RangeOfIsRead(range: string, a: string, b: string, start: nat, count: nat)
    requires IsRangeOf(range, a, b, start, count) && start <= USIZE_MAX && count <= USIZE_MAX
    ensures ParseRange(range) == Some((start, count)) && Free(range, '@') && Free(range, ' ')
  {
    hide ParseRange, Value;
    RangeMeans(a, if range == a then a else b);
    assert Digits(a);
  }

  /** The largest number a header may give. */
  lemma WordSize()
    ensures USIZE_MAX == 18446744073709551615
  {
  }

  // Paths.

  /** A path with an empty, "." or ".." component, wherever it stands, is refused; so are backslash and NUL. */
  lemma PathMeans(before: string, part: string, after: string)
    requires part in {"", ".", ".."}
    ensures !ValidPath(before + "/" + part + "/" + after) && !ValidPath(part + "/" + after) && !ValidPath(before + "/" + part)
    ensures !ValidPath(part)
    ensures !ValidPath(before + "\\" + after) && !ValidPath(before + "\0" + after)
  {
    hide Split;
    Parts(before, part, after);
  }

  lemma Parts(before: string, part: string, after: string)
    requires part in {"", ".", ".."}
    ensures part in Split(before + "/" + part + "/" + after, '/') && part in Split(part + "/" + after, '/')
    ensures part in Split(before + "/" + part, '/') && part in Split(part, '/')
  {
    hide Split;
    SplitFree(part, '/');
    SplitConcat(part, after, '/');
    SplitConcat(before, part, '/');
    SplitConcat(before, part + "/" + after, '/');
    assert before + "/" + part + "/" + after == before + ['/'] + (part + "/" + after);
    assert part + "/" + after == part + ['/'] + after && before + "/" + part == before + ['/'] + part;
    assert [part][0] == part;
    assert part in [part];
  }

  /** Any other sequence of components is a path. */
  lemma PathIsValid(parts: seq<string>)
    requires parts != [] && AllFree(parts, '/')
    requires forall i | 0 <= i < |parts| :: parts[i] !in {"", ".", ".."} && '\\' !in parts[i] && '\0' !in parts[i]
    ensures ValidPath(Join(parts, '/'))
  {
    SplitJoin(parts, '/');
    NotInJoin(parts, '\\');
    NotInJoin(parts, '\0');
    hide Split;
    if Join(parts, '/') == "" {
      SplitFree("", '/');
    }
  }

  lemma {:induction false} NotInJoin(parts: seq<string>, c: char)
    requires c != '/' && forall i | 0 <= i < |parts| :: c !in parts[i]
    ensures c !in Join(parts, '/')
  {
    if |parts| > 1 {
      NotInJoin(parts[1..], c);
    }
  }

  // Where a hunk takes hold.

  /** Lines are counted from one, and a hunk without old lines comes in behind the line it names. */
  ghost function Place(h: Hunk): nat {
    if h.oldCount == 0 then h.oldStart else if h.oldStart == 0 then 0 else h.oldStart - 1
  }

  /** A hunk takes the place of its old lines. */
  lemma OneHunk(source: seq<string>, h: Hunk)
    requires HunksFit(source, [h], 0)
    ensures Place(h) + |OldLines(h.lines)| <= |source|
    ensures source[Place(h)..Place(h) + |OldLines(h.lines)|] == OldLines(h.lines)
    ensures Applied(source, [h]) == source[..Place(h)] + NewLines(h.lines) + source[Place(h) + |OldLines(h.lines)|..]
  {
    hide *;
    FitsAtStart(source, h);
    PassIsSplicing(source, [h]);
    SplicedOne(source, h);
  }

  lemma FitsAtStart(source: seq<string>, h: Hunk)
    requires HunksFit(source, [h], 0)
    ensures Start(h) == Place(h) && End(h) == Place(h) + |OldLines(h.lines)| <= |source|
    ensures source[Place(h)..Place(h) + |OldLines(h.lines)|] == OldLines(h.lines)
  {
    hide OldLines;
    assert [h][0] == h;
  }

  lemma SplicedOne(source: seq<string>, h: Hunk)
    requires Start(h) <= End(h) <= |source|
    ensures SplicedHunks(source, [h]) == source[..Start(h)] + NewLines(h.lines) + source[End(h)..]
  {
    hide OldLines, NewLines, Start, End;
    assert [h][1..] == [];
    assert SplicedHunks(source, []) == source;
  }
}
