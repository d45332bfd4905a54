/** Printing a patch so that it reads back as printed. */
module PatchPrinter {
  import opened Basics
  import opened Text
  import opened Patch
  import opened PatchParser

  /** A range of one line is its number alone; any other is number and count. */
  ghost function RangeText(start: nat, count: nat): string {
    if count == 1 then Decimal(start) else Decimal(start) + "," + Decimal(count)
  }

  ghost function HeaderText(h: Hunk, newStart: nat): string {
    "@@ -" + RangeText(h.oldStart, h.oldCount) + " +" + RangeText(newStart, h.newCount) + " @@"
  }

  /** Where the hunk's new lines begin, given how far the hunks before it have moved it. */
  ghost function NewStart(h: Hunk, shift: int): nat {
    InvertHunk(h, shift).oldStart
  }

  ghost function BodyText(lines: seq<HunkLine>): seq<string> {
    if lines == [] then [] else [LineText(lines[0])] + BodyText(lines[1..])
  }

  ghost function HunksText(hunks: seq<Hunk>, shift: int): seq<string> {
    if hunks == [] then []
    else
      [HeaderText(hunks[0], NewStart(hunks[0], shift))] + BodyText(hunks[0].lines)
      + HunksText(hunks[1..], shift + |NewLines(hunks[0].lines)| - |OldLines(hunks[0].lines)|)
  }

  ghost function PrintPatch(patch: ParsedPatch): string {
    Join(["--- a/" + patch.path, "+++ b/" + patch.path] + HunksText(patch.hunks, 0), '\n')
  }

  /** Counts agree with the body, numbers fit the machine word, lines hold no line break. */
  ghost predicate PrintableHunk(h: Hunk, newStart: nat) {
    && CountsOld(h) && CountsNew(h) && CleanLines(h.lines)
    && h.oldStart <= USIZE_MAX && h.oldCount <= USIZE_MAX && h.newCount <= USIZE_MAX && newStart <= USIZE_MAX
    && (h.oldStart == 0 ==> h.oldCount == 0)
  }

  ghost predicate PrintableHunks(hunks: seq<Hunk>, shift: int) {
    hunks == []
    || (PrintableHunk(hunks[0], NewStart(hunks[0], shift))
        && PrintableHunks(hunks[1..], shift + |NewLines(hunks[0].lines)| - |OldLines(hunks[0].lines)|))
  }

  ghost predicate WellFormed(patch: ParsedPatch) {
    ValidPath(patch.path) && Free(patch.path, '\n') && patch.hunks != [] && PrintableHunks(patch.hunks, 0)
  }

  // Numbers and ranges.

  lemma DigitsFree(s: string, c: char)
    requires AllDigits(s) && !IsDigit(c)
    ensures Free(s, c)
  {
  }

  lemma RangeFree(start: nat, count: nat, c: char)
    requires !IsDigit(c) && c != ','
    ensures Free(RangeText(start, count), c)
  {
    DigitsFree(Decimal(start), c);
    DigitsFree(Decimal(count), c);
  }

  lemma NoOccurrence(s: string, pattern: string)
    requires pattern != "" && Free(s, pattern[0])
    ensures SplitOnce(s, pattern) == None
    decreases |s|
  {
    if |s| >= |pattern| {
      assert s[..|pattern|][0] == s[0];
      NoOccurrence(s[1..], pattern);
    }
  }

  lemma RangeRoundTrip(start: nat, count: nat)
    requires start <= USIZE_MAX && count <= USIZE_MAX
    ensures ParseRange(RangeText(start, count)) == Some((start, count))
  {
    ParseDecimal(start, USIZE_MAX);
    ParseDecimal(count, USIZE_MAX);
    DigitsFree(Decimal(start), ',');
    if count == 1 {
      NoOccurrence(Decimal(start), ",");
      assert Decimal(1) == "1";
    } else {
      var s := Decimal(start) + "," + Decimal(count);
      forall k | 0 <= k < |Decimal(start)|
        ensures !OccursAt(s, ",", k)
      {
        assert s[k..k + 1][0] == Decimal(start)[k];
      }
      SplitOnceAt(Decimal(start), ",", Decimal(count));
    }
  }

  /** No header delimiter begins inside text without an at sign. */
  lemma DelimiterLast(a: string, b: string)
    requires Free(a, '@')
    ensures SplitOnce(a + " @@" + b, " @@") == Some((a, b))
  {
    var s := a + " @@" + b;
    forall k | 0 <= k < |a|
      ensures !OccursAt(s, " @@", k)
    {
      if k + 3 <= |s| {
        assert s[k..k + 3][1] == s[k + 1];
        assert s[k + 1] != '@';
      }
    }
    SplitOnceAt(a, " @@", b);
  }

  /** Reading a printed header gives the hunk's numbers, whatever section text follows the delimiter. */
  lemma HeaderRoundTrip(h: Hunk, newStart: nat, section: string)
    requires PrintableHunk(h, newStart)
    ensures ParseHunkHeader(HeaderText(h, newStart) + section) == Some((h.oldStart, h.oldCount, h.newCount))
  {
    hide *;
    PrintableNumbers(h, newStart);
    var old_, new_ := RangeText(h.oldStart, h.oldCount), RangeText(newStart, h.newCount);
    var ranges := "-" + old_ + " +" + new_;
    RangeRoundTrip(h.oldStart, h.oldCount);
    RangeRoundTrip(newStart, h.newCount);
    RangeFree(h.oldStart, h.oldCount, '@');
    RangeFree(newStart, h.newCount, '@');
    RangeFree(h.oldStart, h.oldCount, ' ');
    RangeFree(newStart, h.newCount, ' ');
    HeaderShape(h, newStart, section);
    RangesFree(old_, new_);
    DelimiterLast(ranges, section);
    FieldsSplit(old_, new_);
    ParseFields(ranges, section, old_, new_, h.oldStart, h.oldCount, newStart, h.newCount);
  }

  lemma PrintableNumbers(h: Hunk, newStart: nat)
    requires PrintableHunk(h, newStart)
    ensures h.oldStart <= USIZE_MAX && h.oldCount <= USIZE_MAX && h.newCount <= USIZE_MAX && newStart <= USIZE_MAX
    ensures h.oldStart == 0 ==> h.oldCount == 0
    ensures forall c :: IsDigit(c) <==> '0' <= c <= '9'
  {
  }

  lemma HeaderShape(h: Hunk, newStart: nat, section: string)
    ensures HeaderText(h, newStart) + section
            == "@@ " + (("-" + RangeText(h.oldStart, h.oldCount) + " +" + RangeText(newStart, h.newCount)) + " @@" + section)
  {
    hide RangeText;
  }

  lemma RangesFree(a: string, b: string)
    requires Free(a, '@') && Free(b, '@')
    ensures Free("-" + a + " +" + b, '@')
  {
  }

  lemma FieldsSplit(a: string, b: string)
    requires Free(a, ' ') && Free(b, ' ')
    ensures Split("-" + a + " +" + b, ' ') == ["-" + a, "+" + b]
  {
    hide Split;
    assert "-" + a + " +" + b == ("-" + a) + [' '] + ("+" + b);
    SplitConcat("-" + a, "+" + b, ' ');
    SplitFree("-" + a, ' ');
    SplitFree("+" + b, ' ');
  }

  lemma ParseFields(
    ranges: string, section: string, a: string, b: string, oldStart: nat, oldCount: nat, newStart: nat, newCount: nat)
    requires SplitOnce(ranges + " @@" + section, " @@") == Some((ranges, section))
    requires Split(ranges, ' ') == ["-" + a, "+" + b]
    requires ParseRange(a) == Some((oldStart, oldCount)) && ParseRange(b) == Some((newStart, newCount))
    requires oldStart == 0 ==> oldCount == 0
    ensures ParseHunkHeader("@@ " + (ranges + " @@" + section)) == Some((oldStart, oldCount, newCount))
  {
    hide SplitOnce, Split, ParseRange;
    var header := "@@ " + (ranges + " @@" + section);
    assert StripPrefix(header, "@@ ") == Some(ranges + " @@" + section);
    assert ("-" + a)[1..] == a && ("+" + b)[1..] == b;
  }

  // The whole patch.

  lemma {:induction false} BodyTextLines(lines: seq<HunkLine>)
    ensures |BodyText(lines)| == |lines| && forall k | 0 <= k < |lines| :: BodyText(lines)[k] == LineText(lines[k])
  {
    if lines != [] {
      BodyTextLines(lines[1..]);
    }
  }

  lemma HunkDescribed(h: Hunk, newStart: nat)
    requires PrintableHunk(h, newStart)
    ensures DescribesHunk([HeaderText(h, newStart)] + BodyText(h.lines), h)
    ensures AllFree([HeaderText(h, newStart)] + BodyText(h.lines), '\n')
  {
    HeaderRoundTrip(h, newStart, "");
    BodyTextLines(h.lines);
    HeaderFree(h, newStart);
    hide ParseHunkHeader, HeaderText, BodyText, OldLines, NewLines;
    var header := HeaderText(h, newStart);
    assert header + "" == header;
    BodyFree(h.lines, BodyText(h.lines));
    AllFreeConcat([header], BodyText(h.lines));
  }

  lemma HeaderFree(h: Hunk, newStart: nat)
    ensures Free(HeaderText(h, newStart), '\n')
  {
    RangeFree(h.oldStart, h.oldCount, '\n');
    RangeFree(newStart, h.newCount, '\n');
    hide RangeText;
  }

  lemma BodyFree(lines: seq<HunkLine>, text: seq<string>)
    requires CleanLines(lines) && |text| == |lines| && forall k | 0 <= k < |lines| :: text[k] == LineText(lines[k])
    ensures AllFree(text, '\n')
  {
    forall k | 0 <= k < |text|
      ensures Free(text[k], '\n')
    {
      assert Free(lines[k].text, '\n');
    }
  }

  lemma {:induction false} HunksDescribed(hunks: seq<Hunk>, shift: int)
    requires PrintableHunks(hunks, shift)
    ensures DescribesHunks(HunksText(hunks, shift), hunks) && AllFree(HunksText(hunks, shift), '\n')
  {
    hide *;
    if hunks == [] {
      NothingDescribed(hunks, shift);
    } else {
      var h, more := hunks[0], shift + |NewLines(hunks[0].lines)| - |OldLines(hunks[0].lines)|;
      var head, rest := [HeaderText(h, NewStart(h, shift))] + BodyText(h.lines), HunksText(hunks[1..], more);
      PrintUnfolds(hunks, shift);
      HunkDescribed(h, NewStart(h, shift));
      HunksDescribed(hunks[1..], more);
      BodyTextLines(h.lines);
      HeadThenRest(head, rest, hunks);
      AllFreeConcat(head, rest);
    }
  }

  lemma NothingDescribed(hunks: seq<Hunk>, shift: int)
    requires hunks == []
    ensures DescribesHunks(HunksText(hunks, shift), hunks) && AllFree(HunksText(hunks, shift), '\n')
  {
  }

  lemma PrintUnfolds(hunks: seq<Hunk>, shift: int)
    requires hunks != [] && PrintableHunks(hunks, shift)
    ensures var h, more := hunks[0], shift + |NewLines(hunks[0].lines)| - |OldLines(hunks[0].lines)|;
            && PrintableHunk(h, NewStart(h, shift)) && PrintableHunks(hunks[1..], more)
            && HunksText(hunks, shift)
               == [HeaderText(h, NewStart(h, shift))] + BodyText(h.lines) + HunksText(hunks[1..], more)
  {
  }

  lemma HeadThenRest(head: seq<string>, rest: seq<string>, hunks: seq<Hunk>)
    requires hunks != [] && |head| == 1 + |hunks[0].lines| && DescribesHunk(head, hunks[0])
    requires DescribesHunks(rest, hunks[1..])
    ensures DescribesHunks(head + rest, hunks)
  {
    hide DescribesHunk;
    assert (head + rest)[..|head|] == head && (head + rest)[|head|..] == rest;
  }

  /** The reader gives back every well-formed patch the printer prints, and nothing else. */
  lemma PrintParse(patch: ParsedPatch, read: ParsedPatch)
    requires WellFormed(patch)
    ensures Describes(Split(PrintPatch(patch), '\n'), read) <==> read == patch
  {
    var names := ["--- a/" + patch.path, "+++ b/" + patch.path];
    var body := HunksText(patch.hunks, 0);
    var lines := names + body;
    HunksDescribed(patch.hunks, 0);
    PrintedLines(patch, names, body);
    assert lines[2..] == body;
    hide HunksText, DescribesHunks, ValidPath, Split, PrintableHunks;
    assert NamesPath(lines, patch.path);
    assert Describes(lines, patch);
    if Describes(lines, read) {
      DescribesUnique(body, patch.hunks, read.hunks);
      assert ("--- a/" + patch.path)[6..] == patch.path && ("--- a/" + read.path)[6..] == read.path;
    }
  }

  lemma PrintedLines(patch: ParsedPatch, names: seq<string>, body: seq<string>)
    requires Free(patch.path, '\n') && names == ["--- a/" + patch.path, "+++ b/" + patch.path]
    requires body == HunksText(patch.hunks, 0) && AllFree(body, '\n')
    ensures Split(PrintPatch(patch), '\n') == names + body
  {
    hide HunksText, Split, Join;
    assert Free("--- a/" + patch.path, '\n') && Free("+++ b/" + patch.path, '\n');
    AllFreeConcat(names, body);
    SplitJoin(names + body, '\n');
  }

  // Printing what was read.

  /** The new starts, which the reader drops and the printer computes, fit the machine word. */
  ghost predicate NewStartsFit(hunks: seq<Hunk>, shift: int) {
    hunks == []
    || (NewStart(hunks[0], shift) <= USIZE_MAX
        && NewStartsFit(hunks[1..], shift + |NewLines(hunks[0].lines)| - |OldLines(hunks[0].lines)|))
  }

  lemma ReadNumbersFit(header: string)
    requires ParseHunkHeader(header).Some?
    ensures var (oldStart, oldCount, newCount) := ParseHunkHeader(header).value;
            oldStart <= USIZE_MAX && oldCount <= USIZE_MAX && newCount <= USIZE_MAX && (oldStart == 0 ==> oldCount == 0)
  {
    hide SplitOnce, Split, ParseRange;
    var fields := Split(SplitOnce(header[3..], " @@").value.0, ' ');
    RangeFits(fields[0][1..]);
    RangeFits(fields[1][1..]);
  }

  lemma RangeFits(range: string)
    requires ParseRange(range).Some?
    ensures ParseRange(range).value.0 <= USIZE_MAX && ParseRange(range).value.1 <= USIZE_MAX
  {
    hide SplitOnce, DigitsValue;
  }

  lemma {:induction false} ReadHunksPrintable(lines: seq<string>, hunks: seq<Hunk>, shift: int)
    requires DescribesHunks(lines, hunks) && CleanHunks(hunks)
    ensures PrintableHunks(hunks, shift) <==> NewStartsFit(hunks, shift)
    decreases |hunks|
  {
    hide ParseHunkHeader, NewStart, OldLines, NewLines, CleanLines;
    if hunks != [] {
      var h := hunks[0];
      FirstHunkLines(lines, hunks);
      ReadNumbersFit(lines[0]);
      assert CleanLines(h.lines);
      CleanTail(hunks);
      ReadHunksPrintable(lines[1 + |h.lines|..], hunks[1..], shift + |NewLines(h.lines)| - |OldLines(h.lines)|);
    }
  }

  /** Every patch the reader accepts is well formed, exactly when its new starts fit. */
  lemma ReadIsWellFormed(text: string, patch: ParsedPatch)
    requires Describes(Split(text, '\n'), patch)
    ensures WellFormed(patch) <==> NewStartsFit(patch.hunks, 0)
  {
    var lines := Split(text, '\n');
    SplitIsFree(text, '\n');
    PathIsFree(lines, patch.path);
    AllFreeTail(lines);
    hide Split, AllFree, ParseHunkHeader, PrintableHunks, NewStartsFit, CleanHunks, DescribesHunks, ValidPath, NamesPath;
    DescribedClean(lines[2..], patch.hunks);
    ReadHunksPrintable(lines[2..], patch.hunks, 0);
  }

  lemma PathIsFree(lines: seq<string>, path: string)
    requires AllFree(lines, '\n') && NamesPath(lines, path)
    ensures Free(path, '\n')
  {
    assert Free(lines[0], '\n');
    assert lines[0][6..] == path;
  }

  lemma AllFreeTail(lines: seq<string>)
    requires AllFree(lines, '\n') && |lines| >= 2
    ensures AllFree(lines[2..], '\n')
  {
    forall k | 0 <= k < |lines[2..]|
      ensures Free(lines[2..][k], '\n')
    {
      assert Free(lines[k + 2], '\n');
    }
  }

  /** So printing what was read and reading it again gives the same patch, and no other. */
  lemma ReadPrintRead(text: string, patch: ParsedPatch, read: ParsedPatch)
    requires Describes(Split(text, '\n'), patch) && NewStartsFit(patch.hunks, 0)
    ensures Describes(Split(PrintPatch(patch), '\n'), read) <==> read == patch
  {
    ReadIsWellFormed(text, patch);
    PrintParse(patch, read);
  }
}
