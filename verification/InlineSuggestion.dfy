/** Inline suggestions, and their agreement with hunks. */
module InlineSuggestion {
  import opened Basics
  import opened Text
  import opened Splicing
  import opened Patch

  datatype InlineError = CarriageReturn | OutsideFile

  ghost predicate EndsWithNewline(s: string) {
    s != "" && s[|s| - 1] == '\n'
  }

  /** The lines of a file, not counting a final line break. */
  ghost function FileLines(original: string): seq<string> {
    var source := if EndsWithNewline(original) then original[..|original| - 1] else original;
    if source == "" then [] else Split(source, '\n')
  }

  ghost function SuggestedLines(suggestion: string): seq<string> {
    if suggestion == "" then [] else Split(suggestion, '\n')
  }

  /** The range lies inside the file and nothing holds a carriage return. */
  ghost predicate InlineApplies(original: string, startLine: nat, endLine: nat, suggestion: string) {
    && '\r' !in original && '\r' !in suggestion
    && 1 <= startLine <= endLine <= |FileLines(original)|
  }

  /** Lines startLine to endLine, counted from 1, give way to the suggestion. */
  ghost function InlineText(original: string, startLine: nat, endLine: nat, suggestion: string): string
    requires InlineApplies(original, startLine, endLine, suggestion)
  {
    var lines := FileLines(original);
    var kept := lines[..startLine - 1] + SuggestedLines(suggestion) + lines[endLine..];
    Join(kept, '\n') + if EndsWithNewline(original) && kept != [] then "\n" else ""
  }

  method ApplyInlineSuggestion(original: string, startLine: nat, endLine: nat, suggestion: string)
    returns (r: Result<string, InlineError>)
    requires startLine >= 1
    ensures r.Success? <==> InlineApplies(original, startLine, endLine, suggestion)
    ensures r.Success? ==> r.value == InlineText(original, startLine, endLine, suggestion)
    ensures r == Failure(CarriageReturn) <==> '\r' in original || '\r' in suggestion
  {
    if '\r' in original || '\r' in suggestion {
      return Failure(CarriageReturn);
    }
    var hasTrailingNewline := original != "" && original[|original| - 1] == '\n';
    var source := if hasTrailingNewline then original[..|original| - 1] else original;
    var lines := if source == "" then [] else Split(source, '\n');
    var start, end := startLine - 1, endLine;
    if end > |lines| || start >= end {
      return Failure(OutsideFile);
    }
    var replacement := if suggestion == "" then [] else Split(suggestion, '\n');
    lines := lines[..start] + replacement + lines[end..];
    var repaired := Join(lines, '\n');
    if hasTrailingNewline && lines != [] {
      repaired := repaired + "\n";
    }
    return Success(repaired);
  }

  // The same change as a hunk.

  ghost function Removals(lines: seq<string>): seq<HunkLine> {
    if lines == [] then [] else Removals(lines[..|lines| - 1]) + [Remove(lines[|lines| - 1])]
  }

  ghost function Additions(lines: seq<string>): seq<HunkLine> {
    if lines == [] then [] else Additions(lines[..|lines| - 1]) + [Add(lines[|lines| - 1])]
  }

  /** Remove those lines, add the suggestion. */
  ghost function SuggestionHunk(original: string, startLine: nat, endLine: nat, suggestion: string): Hunk
    requires InlineApplies(original, startLine, endLine, suggestion)
  {
    var old_ := FileLines(original)[startLine - 1..endLine];
    Hunk(startLine, |old_|, |SuggestedLines(suggestion)|, Removals(old_) + Additions(SuggestedLines(suggestion)))
  }

  lemma BodyPush(lines: seq<HunkLine>, line: HunkLine)
    ensures OldLines(lines + [line]) == OldLines(lines) + if line.Add? then [] else [line.text]
    ensures NewLines(lines + [line]) == NewLines(lines) + if line.Remove? then [] else [line.text]
  {
    var longer := lines + [line];
    assert longer[..|longer| - 1] == lines;
  }

  lemma {:induction false} RemovalsBody(lines: seq<string>)
    ensures OldLines(Removals(lines)) == lines && NewLines(Removals(lines)) == []
  {
    if lines != [] {
      var front, last := lines[..|lines| - 1], lines[|lines| - 1];
      assert Removals(lines) == Removals(front) + [Remove(last)];
      RemovalsBody(front);
      hide OldLines, NewLines, Removals;
      BodyPush(Removals(front), Remove(last));
    }
  }

  lemma {:induction false} ChangeBody(old_: seq<string>, new_: seq<string>)
    ensures OldLines(Removals(old_) + Additions(new_)) == old_
    ensures NewLines(Removals(old_) + Additions(new_)) == new_
  {
    hide OldLines, NewLines, Removals;
    if new_ == [] {
      RemovalsBody(old_);
      assert Removals(old_) + Additions(new_) == Removals(old_);
    } else {
      var front, last := new_[..|new_| - 1], new_[|new_| - 1];
      ChangeBody(old_, front);
      BodyPush(Removals(old_) + Additions(front), Add(last));
      assert Removals(old_) + Additions(new_) == Removals(old_) + Additions(front) + [Add(last)];
    }
  }

  /** How a file splits into lines, with and without a final line break. */
  lemma FileSplits(original: string)
    requires FileLines(original) != []
    ensures Split(original, '\n') == FileLines(original) + if EndsWithNewline(original) then [""] else []
  {
    if EndsWithNewline(original) {
      var source := original[..|original| - 1];
      assert original == source + ['\n'] + "";
      SplitConcat(source, "", '\n');
      SplitFree("", '\n');
    }
  }

  /** Joining with and without the empty line after a final line break. */
  lemma JoinWithTail(kept: seq<string>, trailing: bool)
    ensures Join(kept + (if trailing then [""] else []), '\n')
            == Join(kept, '\n') + if trailing && kept != [] then "\n" else ""
  {
    if trailing {
      if kept == [] {
        assert kept + [""] == [""];
      } else {
        JoinAppend(kept, "", '\n');
      }
    } else {
      assert kept + [] == kept;
    }
  }

  lemma OneHunkFits(source: seq<string>, h: Hunk)
    requires FitsAfter(source, h, 0)
    ensures HunksFit(source, [h], 0)
    ensures Start(h) <= End(h) <= |source|
    ensures Applied(source, [h]) == source[..Start(h)] + NewLines(h.lines) + source[End(h)..]
  {
    assert [h][1..] == [] && source[0..] == source;
    assert HunksFit(source, [], End(h));
    PassHead(source, [h], 0);
    assert Pass(source[End(h)..], []) == source[End(h)..];
  }

  /** Whenever the suggestion applies, so does the hunk, with the same text. */
  lemma InlineAgreesWithHunk(original: string, startLine: nat, endLine: nat, suggestion: string)
    requires InlineApplies(original, startLine, endLine, suggestion)
    ensures TextApplied(original, [SuggestionHunk(original, startLine, endLine, suggestion)])
            == Some(InlineText(original, startLine, endLine, suggestion))
  {
    var lines, new_ := FileLines(original), SuggestedLines(suggestion);
    var trailing := EndsWithNewline(original);
    var h := SuggestionHunk(original, startLine, endLine, suggestion);
    var kept := lines[..startLine - 1] + new_ + lines[endLine..];
    hide FileLines, SuggestedLines, Split, Join, OldLines, NewLines, HunksFit, Applied, Removals, Additions, FitsAfter,
         Start, End;
    FileSplits(original);
    SuggestionFits(original, startLine, endLine, suggestion, if trailing then [""] else []);
    OneHunkFits(Split(original, '\n'), h);
    JoinWithTail(kept, trailing);
  }

  lemma SuggestionFits(original: string, startLine: nat, endLine: nat, suggestion: string, tail: seq<string>)
    requires InlineApplies(original, startLine, endLine, suggestion)
    ensures var h := SuggestionHunk(original, startLine, endLine, suggestion);
            var lines, source := FileLines(original), FileLines(original) + tail;
            && FitsAfter(source, h, 0) && Start(h) <= End(h) <= |source|
            && source[..Start(h)] + NewLines(h.lines) + source[End(h)..]
               == lines[..startLine - 1] + SuggestedLines(suggestion) + lines[endLine..] + tail
  {
    var lines, new_ := FileLines(original), SuggestedLines(suggestion);
    ChangeBody(lines[startLine - 1..endLine], new_);
    CutsWithTail(lines, startLine - 1, endLine, new_, tail);
    hide FileLines, SuggestedLines, OldLines, NewLines, Removals, Additions;
    var h := SuggestionHunk(original, startLine, endLine, suggestion);
    assert Start(h) == startLine - 1 && End(h) == endLine;
  }

  lemma CutsWithTail(lines: seq<string>, start: nat, end: nat, new_: seq<string>, tail: seq<string>)
    requires start <= end <= |lines|
    ensures (lines + tail)[start..end] == lines[start..end]
    ensures (lines + tail)[..start] + new_ + (lines + tail)[end..] == lines[..start] + new_ + lines[end..] + tail
  {
  }
}
