/** Applying unified-diff hunks, and undoing them. */
module Patch {
  import opened Basics
  import opened Text
  import opened Splicing

  datatype HunkLine = Context(text: string) | Remove(text: string) | Add(text: string)

  datatype Hunk = Hunk(oldStart: nat, oldCount: nat, newCount: nat, lines: seq<HunkLine>)

  datatype PatchError =
    | OutOfPlace         // hunks overlap or address lines outside the file
    | StaleLine(line: nat)
    | CountChanged       // new hunk count changed during application

  /** The lines a hunk body expects in the old file, and those it leaves in the new one. */
  function OldLines(lines: seq<HunkLine>): seq<string> {
    if lines == [] then []
    else OldLines(lines[..|lines| - 1]) + if lines[|lines| - 1].Add? then [] else [lines[|lines| - 1].text]
  }

  function NewLines(lines: seq<HunkLine>): seq<string> {
    if lines == [] then []
    else NewLines(lines[..|lines| - 1]) + if lines[|lines| - 1].Remove? then [] else [lines[|lines| - 1].text]
  }

  /** Where the hunk begins, counted from 0: an empty old range names the line before it. */
  function Start(h: Hunk): nat {
    if h.oldCount == 0 then h.oldStart else if h.oldStart == 0 then 0 else h.oldStart - 1
  }

  function End(h: Hunk): nat {
    Start(h) + |OldLines(h.lines)|
  }

  /** `part` stands in `whole` at position `at`. */
  ghost predicate StandsAt(whole: seq<string>, at: nat, part: seq<string>) {
    at + |part| <= |whole| && whole[at..at + |part|] == part
  }

  /** The hunk lies at or after the cursor, inside the file, on the lines it expects, and keeps its count. */
  ghost predicate FitsAfter(source: seq<string>, h: Hunk, cursor: nat) {
    && cursor <= Start(h)
    && StandsAt(source, Start(h), OldLines(h.lines))
    && |NewLines(h.lines)| == h.newCount
  }

  /** Every hunk fits after the one before it. */
  ghost predicate HunksFit(source: seq<string>, hunks: seq<Hunk>, cursor: nat) {
    && cursor <= |source|
    && (hunks == [] || (FitsAfter(source, hunks[0], cursor) && HunksFit(source, hunks[1..], End(hunks[0]))))
  }

  /** The hunks as edits of the lines from the cursor on. */
  ghost function Edits(hunks: seq<Hunk>, cursor: nat): seq<Edit<string>> {
    if hunks == [] then []
    else [EditOf(hunks[0], cursor)] + Edits(hunks[1..], End(hunks[0]))
  }

  ghost function EditOf(h: Hunk, cursor: nat): Edit<string> {
    Edit(AtLeastZero(Start(h) - cursor), OldLines(h.lines), NewLines(h.lines))
  }

  ghost function Applied(source: seq<string>, hunks: seq<Hunk>): seq<string> {
    Pass(source, Edits(hunks, 0))
  }

  /** The whole operation on text. */
  ghost function TextApplied(original: string, hunks: seq<Hunk>): Option<string> {
    var source := Split(original, '\n');
    if HunksFit(source, hunks, 0) then Some(Join(Applied(source, hunks), '\n')) else None
  }

  /** What each refusal says about the hunk refused. */
  ghost predicate Refused(source: seq<string>, h: Hunk, cursor: nat, error: PatchError) {
    match error
    case OutOfPlace => Start(h) < cursor || Start(h) > |source|
    case StaleLine(line) =>
      && cursor <= Start(h) < line <= End(h)
      && StandsAt(source, Start(h), OldLines(h.lines)[..line - 1 - Start(h)])
      && (line > |source| || source[line - 1] != OldLines(h.lines)[line - 1 - Start(h)])
    case CountChanged =>
      && cursor <= Start(h)
      && StandsAt(source, Start(h), OldLines(h.lines))
      && |NewLines(h.lines)| != h.newCount
  }

  /** The first hunk that does not fit is refused for this reason. */
  ghost predicate FirstRefused(source: seq<string>, hunks: seq<Hunk>, cursor: nat, error: PatchError) {
    && hunks != []
    && (Refused(source, hunks[0], cursor, error)
        || (FitsAfter(source, hunks[0], cursor) && FirstRefused(source, hunks[1..], End(hunks[0]), error)))
  }

  lemma RefusedDoesNotFit(source: seq<string>, h: Hunk, cursor: nat, error: PatchError)
    requires Refused(source, h, cursor, error)
    ensures !FitsAfter(source, h, cursor)
  {
    if error.StaleLine? && End(h) <= |source| {
      var stale := error.line - 1;
      assert source[Start(h)..End(h)][stale - Start(h)] == source[stale];
    }
  }

  lemma {:induction false} FirstRefusedDoesNotFit(source: seq<string>, hunks: seq<Hunk>, cursor: nat, error: PatchError)
    requires FirstRefused(source, hunks, cursor, error)
    ensures !HunksFit(source, hunks, cursor)
    decreases |hunks|
  {
    if Refused(source, hunks[0], cursor, error) {
      RefusedDoesNotFit(source, hunks[0], cursor, error);
    } else {
      FirstRefusedDoesNotFit(source, hunks[1..], End(hunks[0]), error);
    }
  }

  /** How the pass stands before hunk k. */
  ghost predicate Underway(source: seq<string>, hunks: seq<Hunk>, k: nat, cursor: nat, result: seq<string>)
    requires k <= |hunks|
  {
    && cursor <= |source|
    && (HunksFit(source, hunks[k..], cursor) ==> HunksFit(source, hunks, 0))
    && (forall error :: FirstRefused(source, hunks[k..], cursor, error) ==> FirstRefused(source, hunks, 0, error))
    && result + Pass(source[cursor..], Edits(hunks[k..], cursor)) == Applied(source, hunks)
  }

  lemma UnderwayNext(source: seq<string>, hunks: seq<Hunk>, k: nat, cursor: nat, result: seq<string>)
    requires k < |hunks| && Underway(source, hunks, k, cursor, result)
    requires FitsAfter(source, hunks[k], cursor)
    ensures cursor <= Start(hunks[k]) <= End(hunks[k]) <= |source|
    ensures Underway(source, hunks, k + 1, End(hunks[k]),
                     result + source[cursor..Start(hunks[k])] + NewLines(hunks[k].lines))
  {
    var h := hunks[k];
    assert hunks[k..][0] == h && hunks[k..][1..] == hunks[k + 1..];
    PassHead(source, hunks[k..], cursor);
    var rest := Pass(source[End(h)..], Edits(hunks[k + 1..], End(h)));
    Regroup(result, source[cursor..Start(h)], NewLines(h.lines), rest);
    assert forall error :: FirstRefused(source, hunks[k + 1..], End(h), error) ==> FirstRefused(source, hunks[k..], cursor, error);
  }

  lemma Regroup<T>(a: seq<T>, b: seq<T>, c: seq<T>, d: seq<T>)
    ensures a + (b + c + d) == (a + b + c) + d
  {
  }

  /** The pass over the first of several hunks. */
  lemma PassHead(source: seq<string>, hunks: seq<Hunk>, cursor: nat)
    requires hunks != [] && cursor <= |source| && FitsAfter(source, hunks[0], cursor)
    ensures var h := hunks[0];
            && cursor <= Start(h) <= End(h) <= |source|
            && FitsHead(source[cursor..], EditOf(h, cursor))
            && source[cursor..][EditOf(h, cursor).Reach()..] == source[End(h)..]
            && Pass(source[cursor..], Edits(hunks, cursor))
               == source[cursor..Start(h)] + NewLines(h.lines) + Pass(source[End(h)..], Edits(hunks[1..], End(h)))
  {
    hide *;
    HeadPlace(source, hunks, cursor);
    PassUnfolds(source[cursor..], Edits(hunks, cursor));
  }

  /** Where the first edit stands in the rest of the file. */
  lemma HeadPlace(source: seq<string>, hunks: seq<Hunk>, cursor: nat)
    requires hunks != [] && cursor <= |source| && FitsAfter(source, hunks[0], cursor)
    ensures var h, s, edits := hunks[0], source[cursor..], Edits(hunks, cursor);
            && cursor <= Start(h) <= End(h) <= |source|
            && edits != [] && edits[0] == EditOf(h, cursor) && edits[1..] == Edits(hunks[1..], End(h))
            && edits[0].come == NewLines(h.lines)
            && edits[0].gap <= edits[0].Reach() <= |s|
            && FitsHead(s, edits[0])
            && s[..edits[0].gap] == source[cursor..Start(h)] && s[edits[0].Reach()..] == source[End(h)..]
  {
    hide OldLines, NewLines;
    var h, s := hunks[0], source[cursor..];
    var e := EditOf(h, cursor);
    assert e.Reach() == End(h) - cursor;
    assert s[e.gap..e.Reach()] == source[Start(h)..End(h)];
  }

  lemma PassUnfolds(s: seq<string>, edits: seq<Edit<string>>)
    requires edits != [] && edits[0].Reach() <= |s|
    ensures edits[0].gap <= edits[0].Reach()
    ensures Pass(s, edits) == s[..edits[0].gap] + edits[0].come + Pass(s[edits[0].Reach()..], edits[1..])
  {
  }

  method ApplyHunks(original: string, hunks: seq<Hunk>) returns (r: Result<string, PatchError>)
    ensures r.Success? ==> TextApplied(original, hunks) == Some(r.value)
    ensures r.Failure? ==> TextApplied(original, hunks).None?
    ensures r.Failure? ==> FirstRefused(Split(original, '\n'), hunks, 0, r.error)
  {
    var source := Split(original, '\n');
    var result: seq<string> := [];
    var cursor: nat := 0;
    UnderwayStart(source, hunks);
    hide Underway, HunksFit, Applied, FitsAfter, Refused, FirstRefused, Split, Join;
    for k := 0 to |hunks|
      invariant Underway(source, hunks, k, cursor, result)
    {
      UnderwayCursor(source, hunks, k, cursor, result);
      var error, copied, produced, end := ApplyOne(source, hunks[k], cursor);
      if error.Some? {
        UnderwayRefused(source, hunks, k, cursor, result, error.value);
        return Failure(error.value);
      }
      UnderwayNext(source, hunks, k, cursor, result);
      result := result + copied + produced;
      cursor := end;
    }
    UnderwayDone(source, hunks, cursor, result);
    result := result + source[cursor..];
    return Success(Join(result, '\n'));
  }

  lemma UnderwayStart(source: seq<string>, hunks: seq<Hunk>)
    ensures Underway(source, hunks, 0, 0, [])
  {
    assert hunks[0..] == hunks && source[0..] == source;
  }

  lemma UnderwayCursor(source: seq<string>, hunks: seq<Hunk>, k: nat, cursor: nat, result: seq<string>)
    requires k <= |hunks| && Underway(source, hunks, k, cursor, result)
    ensures cursor <= |source|
  {
  }

  lemma UnderwayRefused(
    source: seq<string>, hunks: seq<Hunk>, k: nat, cursor: nat, result: seq<string>, error: PatchError)
    requires k < |hunks| && Underway(source, hunks, k, cursor, result) && Refused(source, hunks[k], cursor, error)
    ensures FirstRefused(source, hunks, 0, error) && !HunksFit(source, hunks, 0)
  {
    assert hunks[k..][0] == hunks[k];
    FirstRefusedDoesNotFit(source, hunks, 0, error);
  }

  lemma UnderwayDone(source: seq<string>, hunks: seq<Hunk>, cursor: nat, result: seq<string>)
    requires Underway(source, hunks, |hunks|, cursor, result)
    ensures cursor <= |source| && HunksFit(source, hunks, 0) && Applied(source, hunks) == result + source[cursor..]
  {
    assert hunks[|hunks|..] == [];
  }

  /** One turn of the pass: the lines copied before the hunk, the lines it produces, the next cursor. */
  method ApplyOne(source: seq<string>, hunk: Hunk, cursor: nat)
    returns (error: Option<PatchError>, copied: seq<string>, produced: seq<string>, end: nat)
    requires cursor <= |source|
    ensures error.None? ==>
              && FitsAfter(source, hunk, cursor) && Start(hunk) <= |source|
              && copied == source[cursor..Start(hunk)] && produced == NewLines(hunk.lines) && end == End(hunk)
    ensures error.Some? ==> Refused(source, hunk, cursor, error.value)
  {
    copied, produced, end := [], [], cursor;
    var start := if hunk.oldCount == 0 then hunk.oldStart
                 else if hunk.oldStart == 0 then 0 else hunk.oldStart - 1;
    if start < cursor || start > |source| {
      return Some(OutOfPlace), copied, produced, end;
    }
    copied := source[cursor..start];
    var stale;
    hide OldLines, NewLines;
    stale, produced, end := MatchHunk(source, hunk.lines, start);
    if stale.Some? {
      return Some(StaleLine(stale.value + 1)), copied, produced, end;
    }
    if |produced| != hunk.newCount {
      return Some(CountChanged), copied, produced, end;
    }
    error := None;
  }

  /** One hunk body against the file: the first index that does not match, or what it produces. */
  method MatchHunk(source: seq<string>, lines: seq<HunkLine>, start: nat)
    returns (stale: Option<nat>, produced: seq<string>, end: nat)
    requires start <= |source|
    ensures stale.None? ==>
              && StandsAt(source, start, OldLines(lines)) && produced == NewLines(lines)
              && end == start + |OldLines(lines)|
    ensures stale.Some? ==>
              && start <= stale.value < start + |OldLines(lines)|
              && StandsAt(source, start, OldLines(lines)[..stale.value - start])
              && (stale.value >= |source| || source[stale.value] != OldLines(lines)[stale.value - start])
  {
    produced, end := [], start;
    hide OldLines, NewLines;
    BodyStart(lines);
    for i := 0 to |lines|
      invariant StandsAt(source, start, OldLines(lines[..i])) && produced == NewLines(lines[..i])
      invariant end == start + |OldLines(lines[..i])|
    {
      OldLinesPrefix(lines, i + 1);
      BodyNext(lines, i);
      match lines[i]
      case Context(expected) =>
        if end >= |source| || source[end] != expected {
          return Some(end), produced, end;
        }
        produced := produced + [expected];
        end := end + 1;
      case Remove(expected) =>
        if end >= |source| || source[end] != expected {
          return Some(end), produced, end;
        }
        end := end + 1;
      case Add(value) =>
        produced := produced + [value];
    }
    assert lines[..|lines|] == lines;
    stale := None;
  }

  lemma BodyStart(lines: seq<HunkLine>)
    ensures OldLines(lines[..0]) == [] && NewLines(lines[..0]) == []
  {
  }

  lemma BodyNext(lines: seq<HunkLine>, i: nat)
    requires i < |lines|
    ensures OldLines(lines[..i + 1]) == OldLines(lines[..i]) + if lines[i].Add? then [] else [lines[i].text]
    ensures NewLines(lines[..i + 1]) == NewLines(lines[..i]) + if lines[i].Remove? then [] else [lines[i].text]
  {
    assert lines[..i + 1][..i] == lines[..i];
  }

  lemma {:induction false} OldLinesPrefix(lines: seq<HunkLine>, i: nat)
    requires i <= |lines|
    ensures OldLines(lines[..i]) <= OldLines(lines)
    decreases |lines|
  {
    if i < |lines| {
      OldLinesPrefix(lines[..|lines| - 1], i);
      assert lines[..|lines| - 1][..i] == lines[..i];
    } else {
      assert lines[..i] == lines;
    }
  }

  // The single pass is the same as splicing hunk by hunk, last to first.

  lemma {:induction false} HunksFitEdits(source: seq<string>, hunks: seq<Hunk>, cursor: nat)
    requires HunksFit(source, hunks, cursor)
    ensures cursor <= |source| && Fits(source[cursor..], Edits(hunks, cursor))
    decreases |hunks|
  {
    if hunks != [] {
      PassHead(source, hunks, cursor);
      HunksFitEdits(source, hunks[1..], End(hunks[0]));
      assert Edits(hunks, cursor)[1..] == Edits(hunks[1..], End(hunks[0]));
    }
  }

  /** Hunks k and later replaced by their new lines, the last one first. */
  ghost function SplicedHunks(lines: seq<string>, hunks: seq<Hunk>): seq<string> {
    if hunks == [] then lines
    else
      var inner := SplicedHunks(lines, hunks[1..]);
      Take(inner, Start(hunks[0])) + NewLines(hunks[0].lines) + Drop(inner, End(hunks[0]))
  }

  /** One pass over the file is the splicing of its hunks at their own positions, last to first. */
  lemma PassIsSplicing(source: seq<string>, hunks: seq<Hunk>)
    requires HunksFit(source, hunks, 0)
    ensures Applied(source, hunks) == SplicedHunks(source, hunks)
  {
    HunksFitEdits(source, hunks, 0);
    assert source[0..] == source && [] + source == source;
    PassIsSpliced([], source, Edits(hunks, 0));
    SplicedByHunk(source, hunks, 0);
    assert [] + Pass(source, Edits(hunks, 0)) == Pass(source, Edits(hunks, 0));
  }

  lemma {:induction false} SplicedByHunk(source: seq<string>, hunks: seq<Hunk>, cursor: nat)
    requires HunksFit(source, hunks, cursor)
    ensures Spliced(source, Edits(hunks, cursor), cursor) == SplicedHunks(source, hunks)
    decreases |hunks|
  {
    hide *;
    if hunks == [] {
      SplicedNone(source, [], cursor);
      NoHunks(source, hunks, cursor);
    } else {
      FitUnfolds(source, hunks, cursor);
      EditsUnfold(hunks, cursor);
      var edits := Edits(hunks, cursor);
      SplicedByHunk(source, hunks[1..], End(hunks[0]));
      SplicedUnfolds(source, edits, cursor, Spliced(source, edits[1..], End(hunks[0])));
      SplicedHunksUnfold(source, hunks);
    }
  }

  lemma NoHunks(source: seq<string>, hunks: seq<Hunk>, cursor: nat)
    requires hunks == []
    ensures Edits(hunks, cursor) == [] && SplicedHunks(source, hunks) == source
  {
  }

  lemma SplicedHunksUnfold(lines: seq<string>, hunks: seq<Hunk>)
    requires hunks != []
    ensures var inner := SplicedHunks(lines, hunks[1..]);
            SplicedHunks(lines, hunks)
            == Take(inner, Start(hunks[0])) + NewLines(hunks[0].lines) + Drop(inner, End(hunks[0]))
  {
  }

  lemma FitUnfolds(source: seq<string>, hunks: seq<Hunk>, cursor: nat)
    requires HunksFit(source, hunks, cursor) && hunks != []
    ensures var h := hunks[0];
            && FitsAfter(source, h, cursor) && HunksFit(source, hunks[1..], End(h))
            && cursor <= Start(h) <= End(h) <= |source| && |NewLines(h.lines)| == h.newCount
  {
  }

  lemma EditsUnfold(hunks: seq<Hunk>, cursor: nat)
    requires hunks != [] && cursor <= Start(hunks[0])
    ensures var h, edits := hunks[0], Edits(hunks, cursor);
            && edits != [] && edits[1..] == Edits(hunks[1..], End(h))
            && edits[0] == Edit(Start(h) - cursor, OldLines(h.lines), NewLines(h.lines))
            && cursor + edits[0].gap == Start(h) && cursor + edits[0].Reach() == End(h)
  {
    assert ([EditOf(hunks[0], cursor)] + Edits(hunks[1..], End(hunks[0])))[1..] == Edits(hunks[1..], End(hunks[0]));
  }

  // Line accounting.

  /** The sum of new minus old counts. */
  ghost function LineGrowth(hunks: seq<Hunk>): int {
    if hunks == [] then 0
    else |NewLines(hunks[0].lines)| - |OldLines(hunks[0].lines)| + LineGrowth(hunks[1..])
  }

  lemma {:induction false} EditGrowth(hunks: seq<Hunk>, cursor: nat)
    ensures Growth(Edits(hunks, cursor)) == LineGrowth(hunks)
    decreases |hunks|
  {
    if hunks != [] {
      EditGrowth(hunks[1..], End(hunks[0]));
      assert Edits(hunks, cursor)[1..] == Edits(hunks[1..], End(hunks[0]));
    }
  }

  /** The line count changes by exactly the sum of new minus old counts. */
  lemma LineCount(source: seq<string>, hunks: seq<Hunk>)
    requires HunksFit(source, hunks, 0)
    ensures |Applied(source, hunks)| == |source| + LineGrowth(hunks)
  {
    HunksFitEdits(source, hunks, 0);
    assert source[0..] == source;
    EditGrowth(hunks, 0);
    PassLength(source, Edits(hunks, 0));
  }

  /** Line i lies inside the old lines of some hunk. */
  ghost predicate InHunk(hunks: seq<Hunk>, i: nat) {
    exists k :: 0 <= k < |hunks| && Start(hunks[k]) <= i < End(hunks[k])
  }

  /** The growth of the hunks that end at or before line i. */
  ghost function GrowthBefore(hunks: seq<Hunk>, i: nat): int {
    if hunks == [] || i < Start(hunks[0]) then 0
    else |NewLines(hunks[0].lines)| - |OldLines(hunks[0].lines)| + GrowthBefore(hunks[1..], i)
  }

  /** A line outside every hunk keeps its text, moved by the hunks before it. */
  lemma UntouchedLine(source: seq<string>, hunks: seq<Hunk>, i: nat)
    requires HunksFit(source, hunks, 0) && i < |source| && !InHunk(hunks, i)
    ensures 0 <= i + GrowthBefore(hunks, i) < |Applied(source, hunks)|
    ensures Applied(source, hunks)[i + GrowthBefore(hunks, i)] == source[i]
  {
    HunksFitEdits(source, hunks, 0);
    assert source[0..] == source;
    NotCovered(source, hunks, 0, i);
    UncoveredKept(source, Edits(hunks, 0), i);
  }

  lemma {:induction false} NotCovered(source: seq<string>, hunks: seq<Hunk>, cursor: nat, i: nat)
    requires HunksFit(source, hunks, cursor) && cursor <= i && !InHunk(hunks, i)
    ensures !Covered(Edits(hunks, cursor), i - cursor)
    ensures Moved(Edits(hunks, cursor), i - cursor) == GrowthBefore(hunks, i)
    decreases |hunks|
  {
    if hunks != [] {
      var h, edits := hunks[0], Edits(hunks, cursor);
      assert edits[0] == EditOf(h, cursor) && edits[1..] == Edits(hunks[1..], End(h));
      assert !(Start(hunks[0]) <= i < End(hunks[0]));
      if i >= End(h) {
        forall k | 0 <= k < |hunks[1..]|
          ensures !(Start(hunks[1..][k]) <= i < End(hunks[1..][k]))
        {
          assert hunks[1..][k] == hunks[k + 1];
        }
        NotCovered(source, hunks[1..], End(h), i);
      }
    }
  }

  // Inverting a patch.

  ghost function FlipLine(line: HunkLine): HunkLine {
    match line
    case Context(t) => Context(t)
    case Remove(t) => Add(t)
    case Add(t) => Remove(t)
  }

  ghost function FlipLines(lines: seq<HunkLine>): seq<HunkLine> {
    if lines == [] then [] else FlipLines(lines[..|lines| - 1]) + [FlipLine(lines[|lines| - 1])]
  }

  lemma {:induction false} FlipSwaps(lines: seq<HunkLine>)
    ensures OldLines(FlipLines(lines)) == NewLines(lines)
    ensures NewLines(FlipLines(lines)) == OldLines(lines)
  {
    if lines != [] {
      var front := lines[..|lines| - 1];
      FlipSwaps(front);
      var flipped := FlipLines(front) + [FlipLine(lines[|lines| - 1])];
      assert flipped[..|flipped| - 1] == FlipLines(front);
    }
  }

  /** Add and remove exchanged, counts exchanged, the start shifted by the hunks before. */
  ghost function InvertHunk(h: Hunk, shift: int): Hunk {
    var at := AtLeastZero(Start(h) + shift);
    Hunk(if h.newCount == 0 then at else at + 1, h.newCount, h.oldCount, FlipLines(h.lines))
  }

  ghost function Invert(hunks: seq<Hunk>, shift: int): (r: seq<Hunk>) {
    if hunks == [] then []
    else [InvertHunk(hunks[0], shift)]
         + Invert(hunks[1..], shift + |NewLines(hunks[0].lines)| - |OldLines(hunks[0].lines)|)
  }

  /** The header counts its old lines correctly; the parser admits no other hunk. */
  ghost predicate CountsOld(h: Hunk) {
    |OldLines(h.lines)| == h.oldCount
  }

  ghost predicate AllCountOld(hunks: seq<Hunk>) {
    hunks == [] || (CountsOld(hunks[0]) && AllCountOld(hunks[1..]))
  }

  lemma InvertUnfolds(hunks: seq<Hunk>, shift: int)
    requires hunks != [] && Start(hunks[0]) + shift >= 0 && |NewLines(hunks[0].lines)| == hunks[0].newCount
    ensures var h, back := hunks[0], Invert(hunks, shift);
            && back != [] && back[1..] == Invert(hunks[1..], shift + h.newCount - |OldLines(h.lines)|)
            && Start(back[0]) == Start(h) + shift && End(back[0]) == Start(h) + shift + h.newCount
            && OldLines(back[0].lines) == NewLines(h.lines) && NewLines(back[0].lines) == OldLines(h.lines)
            && back[0].newCount == h.oldCount
  {
    FlipSwaps(hunks[0].lines);
    hide OldLines, NewLines, FlipLines;
    var later := Invert(hunks[1..], shift + hunks[0].newCount - |OldLines(hunks[0].lines)|);
    assert ([InvertHunk(hunks[0], shift)] + later)[1..] == later;
  }

  /** The inverse hunks are the flipped edits, and fit when every header counts its old lines. */
  lemma {:induction false} InvertFits(source: seq<string>, hunks: seq<Hunk>, cursor: nat, before: seq<string>)
    requires HunksFit(source, hunks, cursor)
    ensures cursor <= |source|
    ensures var target := before + Pass(source[cursor..], Edits(hunks, cursor));
            var back := Invert(hunks, |before| - cursor);
            && Edits(back, |before|) == Flipped(Edits(hunks, cursor))
            && (HunksFit(target, back, |before|) <==> AllCountOld(hunks))
    decreases |hunks|
  {
    hide *;
    if hunks == [] {
      InvertNone(source, hunks, cursor, before);
    } else {
      var h, shift := hunks[0], |before| - cursor;
      FitUnfolds(source, hunks, cursor);
      PassHead(source, hunks, cursor);
      InvertUnfolds(hunks, shift);
      var gap := source[cursor..Start(h)];
      var longer, rest := before + gap + NewLines(h.lines), Pass(source[End(h)..], Edits(hunks[1..], End(h)));
      Regroup(before, gap, NewLines(h.lines), rest);
      InvertFits(source, hunks[1..], End(h), longer);
      EndLength(h);
      assert |longer| - End(h) == shift + h.newCount - |OldLines(h.lines)|;
      InvertStep(hunks, cursor, |before|, |longer|);
      InvertFitsHead(h, cursor, before, gap, rest, Invert(hunks, shift));
      AllCountUnfolds(hunks);
    }
  }

  lemma EndLength(h: Hunk)
    ensures End(h) == Start(h) + |OldLines(h.lines)|
  {
  }

  lemma AllCountUnfolds(hunks: seq<Hunk>)
    requires hunks != []
    ensures AllCountOld(hunks) <==> CountsOld(hunks[0]) && AllCountOld(hunks[1..])
  {
  }

  lemma InvertNone(source: seq<string>, hunks: seq<Hunk>, cursor: nat, before: seq<string>)
    requires hunks == [] && HunksFit(source, hunks, cursor)
    ensures cursor <= |source| && AllCountOld(hunks)
    ensures var target := before + Pass(source[cursor..], Edits(hunks, cursor));
            var back := Invert(hunks, |before| - cursor);
            Edits(back, |before|) == Flipped(Edits(hunks, cursor)) && HunksFit(target, back, |before|)
  {
  }

  lemma InvertStep(hunks: seq<Hunk>, cursor: nat, before: nat, longer: nat)
    requires hunks != [] && cursor <= Start(hunks[0]) && |NewLines(hunks[0].lines)| == hunks[0].newCount
    requires longer == before + Start(hunks[0]) - cursor + hunks[0].newCount
    requires Edits(Invert(hunks[1..], longer - End(hunks[0])), longer) == Flipped(Edits(hunks[1..], End(hunks[0])))
    ensures Edits(Invert(hunks, before - cursor), before) == Flipped(Edits(hunks, cursor))
  {
    hide *;
    var h, back := hunks[0], Invert(hunks, before - cursor);
    InvertUnfolds(hunks, before - cursor);
    EndLength(h);
    EditsUnfold(hunks, cursor);
    EditsUnfold(back, before);
    var edits, flipped := Edits(hunks, cursor), Edits(back, before);
    FlippedUnfolds(edits);
    assert flipped == [flipped[0]] + flipped[1..];
  }

  lemma FlippedUnfolds(edits: seq<Edit<string>>)
    requires edits != []
    ensures Flipped(edits) == [Edit(edits[0].gap, edits[0].come, edits[0].gone)] + Flipped(edits[1..])
  {
  }

  lemma InvertFitsHead(
    h: Hunk, cursor: nat, before: seq<string>, gap: seq<string>, rest: seq<string>, back: seq<Hunk>)
    requires |gap| == Start(h) - cursor
    requires back != [] && Start(back[0]) == |before| + |gap| && OldLines(back[0].lines) == NewLines(h.lines)
    requires NewLines(back[0].lines) == OldLines(h.lines) && back[0].newCount == h.oldCount
    ensures var target := before + gap + NewLines(h.lines) + rest;
            && (FitsAfter(target, back[0], |before|) <==> CountsOld(h))
            && (HunksFit(target, back, |before|) <==> CountsOld(h) && HunksFit(target, back[1..], End(back[0])))
  {
    hide OldLines, NewLines;
    var target := before + gap + NewLines(h.lines) + rest;
    var at := |before| + |gap|;
    assert target[at..at + |NewLines(h.lines)|] == NewLines(h.lines);
  }

  /** On lines: the inverse patch restores the file exactly when every header counts its old lines. */
  lemma InvertRestores(source: seq<string>, hunks: seq<Hunk>)
    requires HunksFit(source, hunks, 0)
    ensures HunksFit(Applied(source, hunks), Invert(hunks, 0), 0) <==> AllCountOld(hunks)
    ensures Applied(Applied(source, hunks), Invert(hunks, 0)) == source
  {
    HunksFitEdits(source, hunks, 0);
    assert source[0..] == source;
    InvertFits(source, hunks, 0, []);
    assert [] + Applied(source, hunks) == Applied(source, hunks);
    FlipRestores(source, Edits(hunks, 0));
  }

  // The same on text.

  ghost predicate CleanLines(lines: seq<HunkLine>) {
    forall i | 0 <= i < |lines| :: Free(lines[i].text, '\n')
  }

  ghost predicate CleanHunks(hunks: seq<Hunk>) {
    forall k | 0 <= k < |hunks| :: CleanLines(hunks[k].lines)
  }

  lemma {:induction false} CleanNewLines(lines: seq<HunkLine>)
    requires CleanLines(lines)
    ensures AllFree(NewLines(lines), '\n')
  {
    if lines != [] {
      CleanNewLines(lines[..|lines| - 1]);
    }
  }

  lemma {:induction false} CleanPass(source: seq<string>, hunks: seq<Hunk>, cursor: nat)
    requires AllFree(source, '\n') && CleanHunks(hunks) && HunksFit(source, hunks, cursor)
    ensures cursor <= |source| && AllFree(Pass(source[cursor..], Edits(hunks, cursor)), '\n')
    decreases |hunks|
  {
    if hunks != [] {
      var h := hunks[0];
      PassHead(source, hunks, cursor);
      assert CleanLines(h.lines);
      CleanNewLines(h.lines);
      CleanTail(hunks);
      CleanPass(source, hunks[1..], End(h));
      AllFreeConcat(source[cursor..Start(h)], NewLines(h.lines));
      AllFreeConcat(source[cursor..Start(h)] + NewLines(h.lines), Pass(source[End(h)..], Edits(hunks[1..], End(h))));
    }
  }

  lemma CleanTail(hunks: seq<Hunk>)
    requires hunks != [] && CleanHunks(hunks)
    ensures CleanHunks(hunks[1..])
  {
    forall k | 0 <= k < |hunks[1..]|
      ensures CleanLines(hunks[1..][k].lines)
    {
      assert CleanLines(hunks[k + 1].lines);
    }
  }

  lemma AllFreeConcat(a: seq<string>, b: seq<string>)
    requires AllFree(a, '\n') && AllFree(b, '\n')
    ensures AllFree(a + b, '\n')
  {
  }

  /**
   * On text, for hunks that count their old lines: applying the inverse restores the text exactly when
   * the patch leaves at least one line, since an empty list of lines reads back as one empty line.
   */
  lemma InvertRestoresText(original: string, hunks: seq<Hunk>)
    requires CleanHunks(hunks) && AllCountOld(hunks) && TextApplied(original, hunks).Some?
    ensures TextApplied(TextApplied(original, hunks).value, Invert(hunks, 0)) == Some(original)
            <==> |Split(original, '\n')| + LineGrowth(hunks) > 0
  {
    var source := Split(original, '\n');
    var target := Applied(source, hunks);
    LineCount(source, hunks);
    SplitIsFree(original, '\n');
    InvertRestores(source, hunks);
    JoinSplit(original, '\n');
    CleanPass(source, hunks, 0);
    assert source[0..] == source;
    hide HunksFit, Applied, Split, Join, AllFree, Invert;
    if target != [] {
      SplitJoin(target, '\n');
    } else {
      InvertOfNothing(source, hunks);
      JoinAppend(source, "", '\n');
    }
  }

  /** When nothing is left, the re-read empty line stays behind the restored ones. */
  lemma InvertOfNothing(source: seq<string>, hunks: seq<Hunk>)
    requires HunksFit([], Invert(hunks, 0), 0) && Applied([], Invert(hunks, 0)) == source
    ensures Split(Join([], '\n'), '\n') == [""]
    ensures HunksFit([""], Invert(hunks, 0), 0) && Applied([""], Invert(hunks, 0)) == source + [""]
  {
    FitsEmptyFile(Invert(hunks, 0), 0);
    HunksFitEdits([], Invert(hunks, 0), 0);
    FitsNothing(Edits(Invert(hunks, 0), 0), "");
  }

  lemma {:induction false} FitsEmptyFile(hunks: seq<Hunk>, cursor: nat)
    requires HunksFit([], hunks, cursor)
    ensures HunksFit([""], hunks, cursor)
    decreases |hunks|
  {
    if hunks != [] {
      FitsEmptyFile(hunks[1..], End(hunks[0]));
    }
  }

  /** Removing the only line of "a" is such a patch: the inverse gives back the line and one empty line behind it. */
  lemma InverseOfRemovingAll()
    ensures var hunks := [Hunk(1, 1, 0, [Remove("a")])];
            && CleanHunks(hunks) && AllCountOld(hunks) && TextApplied("a", hunks) == Some("")
            && TextApplied("", Invert(hunks, 0)) != Some("a")
  {
    var h := Hunk(1, 1, 0, [Remove("a")]);
    SplitFree("a", '\n');
    assert h.lines[..0] == [];
    assert OldLines(h.lines) == ["a"] && NewLines(h.lines) == [];
    OneRemoval(h);
    InvertRestoresText("a", [h]);
  }

  lemma OneRemoval(h: Hunk)
    requires h == Hunk(1, 1, 0, [Remove("a")]) && OldLines(h.lines) == ["a"] && NewLines(h.lines) == []
    ensures HunksFit(["a"], [h], 0) && Applied(["a"], [h]) == [] && LineGrowth([h]) == -1
  {
    assert [h][1..] == [];
    assert ["a"][0..1] == ["a"];
    assert LineGrowth([]) == 0;
    LineCount(["a"], [h]);
  }
}
