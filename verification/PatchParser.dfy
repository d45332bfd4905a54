/** Reading a unified patch (src/feedback.rs). */
module PatchParser {
  import opened Basics
  import opened Text
  import opened Patch

  const USIZE_MAX: nat := 0xFFFF_FFFF_FFFF_FFFF

  datatype ParsedPatch = ParsedPatch(path: string, hunks: seq<Hunk>)

  datatype ParseError = MalformedPatch | InvalidPath

  // The grammar, line by line.

  /** Non-empty, relative, no parent or current directory components, nothing to normalise. */
  predicate ValidPath(path: string) {
    && path != "" && '\\' !in path && '\0' !in path
    && forall i | 0 <= i < |Split(path, '/')| :: Split(path, '/')[i] !in {"", ".", ".."}
  }

  ghost function LineText(line: HunkLine): string {
    match line
    case Context(t) => " " + t
    case Remove(t) => "-" + t
    case Add(t) => "+" + t
  }

  function ParseLine(line: string): Option<HunkLine> {
    if line == "" then None
    else if line[0] == ' ' then Some(Context(line[1..]))
    else if line[0] == '-' then Some(Remove(line[1..]))
    else if line[0] == '+' then Some(Add(line[1..]))
    else None
  }

  function ParseRange(range: string): Option<(nat, nat)> {
    var parts := SplitOnce(range, ",");
    var start := ParseUnsigned(if parts.Some? then parts.value.0 else range, USIZE_MAX);
    var count := ParseUnsigned(if parts.Some? then parts.value.1 else "1", USIZE_MAX);
    if start.Some? && count.Some? then Some((start.value, count.value)) else None
  }

  /** Old start, old count and new count; the new start is read and dropped, as is any section text. */
  function ParseHunkHeader(header: string): Option<(nat, nat, nat)> {
    var rest := StripPrefix(header, "@@ ");
    if rest.None? then None
    else
      var ranges := SplitOnce(rest.value, " @@");
      if ranges.None? then None
      else
        var fields := Split(ranges.value.0, ' ');
        if |fields| != 2 || !StartsWith(fields[0], "-") || !StartsWith(fields[1], "+") then None
        else
          var old_, new_ := ParseRange(fields[0][1..]), ParseRange(fields[1][1..]);
          if old_.None? || new_.None? || (old_.value.0 == 0 && old_.value.1 != 0) then None
          else Some((old_.value.0, old_.value.1, new_.value.1))
  }

  /** The lines are this one hunk: a header, then a body with the counts the header gives. */
  ghost predicate DescribesHunk(lines: seq<string>, h: Hunk) {
    && |lines| == 1 + |h.lines|
    && ParseHunkHeader(lines[0]) == Some((h.oldStart, h.oldCount, h.newCount))
    && (forall k | 0 <= k < |h.lines| :: lines[1 + k] == LineText(h.lines[k]))
    && CountsOld(h) && CountsNew(h)
  }

  ghost predicate CountsNew(h: Hunk) {
    |NewLines(h.lines)| == h.newCount
  }

  ghost predicate DescribesHunks(lines: seq<string>, hunks: seq<Hunk>) {
    if hunks == [] then lines == []
    else
      && |lines| >= 1 + |hunks[0].lines|
      && DescribesHunk(lines[..1 + |hunks[0].lines|], hunks[0])
      && DescribesHunks(lines[1 + |hunks[0].lines|..], hunks[1..])
  }

  ghost predicate NamesPath(lines: seq<string>, path: string) {
    |lines| >= 2 && lines[0] == "--- a/" + path && lines[1] == "+++ b/" + path
  }

  /** The lines are exactly this patch. */
  ghost predicate Describes(lines: seq<string>, patch: ParsedPatch) {
    && NamesPath(lines, patch.path) && ValidPath(patch.path)
    && patch.hunks != [] && DescribesHunks(lines[2..], patch.hunks)
  }

  // The grammar leaves the reader no choice.

  lemma HeaderIsNoBodyLine(header: string)
    requires ParseHunkHeader(header).Some?
    ensures StartsWith(header, "@@") && ParseLine(header).None?
  {
    hide SplitOnce, ParseRange, Split;
    assert header[0] == "@@ "[0];
  }

  /** Where a line that is neither body nor left over stands, the body of the first hunk ends. */
  lemma BodyForced(lines: seq<string>, body: seq<HunkLine>, hunks: seq<Hunk>)
    requires lines != [] && DescribesHunks(lines, hunks)
    requires |body| < |lines| && forall k | 0 <= k < |body| :: lines[1 + k] == LineText(body[k])
    requires 1 + |body| < |lines| ==> ParseLine(lines[1 + |body|]).None?
    ensures hunks != [] && hunks[0].lines == body
    ensures 1 + |body| < |lines| ==> ParseHunkHeader(lines[1 + |body|]).Some?
  {
    FirstHunkLines(lines, hunks);
    hide DescribesHunks, ParseHunkHeader;
    var h := hunks[0];
    var m := |h.lines|;
    if m < |body| {
      LineTextParses(body[m]);
      HeaderIsNoBodyLine(lines[1 + m]);
    } else if m > |body| {
      LineTextParses(h.lines[|body|]);
    }
    assert m == |body|;
    forall k | 0 <= k < m
      ensures h.lines[k] == body[k]
    {
      LineTextParses(body[k]);
      LineTextParses(h.lines[k]);
    }
  }

  /** Reading a body line and printing one are inverse. */
  lemma ParseLineText(line: string)
    ensures ParseLine(line).Some? ==> LineText(ParseLine(line).value) == line
    ensures ParseLine(line).None? <==> line == "" || line[0] !in {' ', '-', '+'}
  {
  }

  lemma LineTextParses(h: HunkLine)
    ensures ParseLine(LineText(h)) == Some(h)
  {
  }

  /** The first hunk takes a header and its body; another header follows, or nothing. */
  lemma FirstHunkLines(lines: seq<string>, hunks: seq<Hunk>)
    requires lines != [] && DescribesHunks(lines, hunks)
    ensures hunks != [] && |lines| >= 1 + |hunks[0].lines|
    ensures ParseHunkHeader(lines[0]) == Some((hunks[0].oldStart, hunks[0].oldCount, hunks[0].newCount))
    ensures forall k | 0 <= k < |hunks[0].lines| :: lines[1 + k] == LineText(hunks[0].lines[k])
    ensures CountsOld(hunks[0]) && CountsNew(hunks[0])
    ensures |lines| > 1 + |hunks[0].lines| ==> ParseHunkHeader(lines[1 + |hunks[0].lines|]).Some?
    ensures DescribesHunks(lines[1 + |hunks[0].lines|..], hunks[1..])
  {
    var h := hunks[0];
    var head, rest := lines[..1 + |h.lines|], lines[1 + |h.lines|..];
    forall k | 0 <= k < |h.lines|
      ensures lines[1 + k] == LineText(h.lines[k])
    {
      assert head[1 + k] == lines[1 + k];
    }
    if rest != [] {
      assert DescribesHunk(rest[..1 + |hunks[1].lines|], hunks[1..][0]);
      assert rest[0] == lines[1 + |h.lines|];
    }
  }

  /** A list of lines describes at most one list of hunks. */
  lemma {:induction false} DescribesUnique(lines: seq<string>, a: seq<Hunk>, b: seq<Hunk>)
    requires DescribesHunks(lines, a) && DescribesHunks(lines, b)
    ensures a == b
    decreases |lines|
  {
    if lines != [] {
      DescribedTails(lines, a, b);
      hide *;
      DescribesUnique(lines[1 + |a[0].lines|..], a[1..], b[1..]);
      assert a == [a[0]] + a[1..] && b == [b[0]] + b[1..];
    }
  }

  lemma DescribedTails(lines: seq<string>, a: seq<Hunk>, b: seq<Hunk>)
    requires lines != [] && DescribesHunks(lines, a) && DescribesHunks(lines, b)
    ensures a != [] && b != [] && a[0] == b[0] && |lines| >= 1 + |a[0].lines|
    ensures DescribesHunks(lines[1 + |a[0].lines|..], a[1..]) && DescribesHunks(lines[1 + |a[0].lines|..], b[1..])
  {
    hide *;
    FirstHunkNumbers(lines, a);
    FirstHunkNumbers(lines, b);
    SameBody(lines, a, b);
  }

  lemma FirstHunkNumbers(lines: seq<string>, hunks: seq<Hunk>)
    requires lines != [] && DescribesHunks(lines, hunks)
    ensures hunks != [] && |lines| >= 1 + |hunks[0].lines|
    ensures ParseHunkHeader(lines[0]) == Some((hunks[0].oldStart, hunks[0].oldCount, hunks[0].newCount))
    ensures DescribesHunks(lines[1 + |hunks[0].lines|..], hunks[1..])
  {
    hide *;
    FirstHunkLines(lines, hunks);
  }

  lemma SameBody(lines: seq<string>, a: seq<Hunk>, b: seq<Hunk>)
    requires lines != [] && DescribesHunks(lines, a) && DescribesHunks(lines, b)
    ensures a != [] && b != [] && a[0].lines == b[0].lines
  {
    hide *;
    FirstHunkLines(lines, a);
    if 1 + |a[0].lines| < |lines| {
      HeaderIsNoBodyLine(lines[1 + |a[0].lines|]);
    }
    BodyForced(lines, a[0].lines, b);
  }

  // The reader.

  /** No list of hunks reads from these lines. */
  ghost predicate Unreadable(lines: seq<string>) {
    forall all :: !DescribesHunks(lines, all)
  }

  /** The hunks the lines describe, if any. */
  ghost predicate IsReading(lines: seq<string>, r: Option<seq<Hunk>>) {
    forall all :: DescribesHunks(lines, all) <==> r == Some(all)
  }

  /** The hunks read so far are what any reading of all the lines must begin with. */
  ghost predicate ReadUpTo(lines: seq<string>, i: nat, hunks: seq<Hunk>)
    requires i <= |lines|
  {
    && (forall tail :: DescribesHunks(lines[i..], tail) ==> DescribesHunks(lines, hunks + tail))
    && (forall all :: DescribesHunks(lines, all) ==> hunks <= all && DescribesHunks(lines[i..], all[|hunks|..]))
  }

  lemma ReadNext(lines: seq<string>, i: nat, hunks: seq<Hunk>, h: Hunk)
    requires i + 1 + |h.lines| <= |lines| && ReadUpTo(lines, i, hunks)
    requires DescribesHunk(lines[i..i + 1 + |h.lines|], h)
    requires i + 1 + |h.lines| < |lines| ==> ParseLine(lines[i + 1 + |h.lines|]).None?
    ensures ReadUpTo(lines, i + 1 + |h.lines|, hunks + [h])
  {
    hide DescribesHunk, DescribesHunks, ParseHunkHeader;
    var j := i + 1 + |h.lines|;
    forall tail | DescribesHunks(lines[j..], tail)
      ensures DescribesHunks(lines, hunks + [h] + tail)
    {
      DescribesCons(lines, i, h, tail);
      assert hunks + [h] + tail == hunks + ([h] + tail);
    }
    forall all | DescribesHunks(lines, all)
      ensures hunks + [h] <= all && DescribesHunks(lines[j..], all[|hunks + [h]|..])
    {
      NextHunkForced(lines, i, h, all[|hunks|..]);
      PrefixNext(hunks, h, all);
    }
  }

  lemma PrefixNext<T>(s: seq<T>, x: T, all: seq<T>)
    requires s <= all && |s| < |all| && all[|s|..][0] == x
    ensures s + [x] <= all && all[|s|..][1..] == all[|s + [x]|..]
  {
  }

  lemma DescribesCons(lines: seq<string>, i: nat, h: Hunk, tail: seq<Hunk>)
    requires i + 1 + |h.lines| <= |lines| && DescribesHunk(lines[i..i + 1 + |h.lines|], h)
    requires DescribesHunks(lines[i + 1 + |h.lines|..], tail)
    ensures DescribesHunks(lines[i..], [h] + tail)
  {
    hide DescribesHunk;
    var here := lines[i..];
    assert here[..1 + |h.lines|] == lines[i..i + 1 + |h.lines|];
    assert here[1 + |h.lines|..] == lines[i + 1 + |h.lines|..];
    assert ([h] + tail)[1..] == tail && ([h] + tail)[0] == h;
  }

  lemma NextHunkForced(lines: seq<string>, i: nat, h: Hunk, rest: seq<Hunk>)
    requires i + 1 + |h.lines| <= |lines| && DescribesHunk(lines[i..i + 1 + |h.lines|], h)
    requires i + 1 + |h.lines| < |lines| ==> ParseLine(lines[i + 1 + |h.lines|]).None?
    requires DescribesHunks(lines[i..], rest)
    ensures rest != [] && rest[0] == h && DescribesHunks(lines[i + 1 + |h.lines|..], rest[1..])
  {
    hide DescribesHunks, ParseHunkHeader, OldLines, NewLines;
    var here := lines[i..];
    var head := lines[i..i + 1 + |h.lines|];
    assert here[0] == head[0];
    forall k | 0 <= k < |h.lines|
      ensures here[1 + k] == LineText(h.lines[k])
    {
      assert here[1 + k] == head[1 + k];
    }
    BodyForced(here, h.lines, rest);
    FirstHunkLines(here, rest);
    assert here[1 + |h.lines|..] == lines[i + 1 + |h.lines|..];
  }

  method ParseUnifiedPatch(source: string) returns (r: Result<ParsedPatch, ParseError>)
    ensures r.Success? ==> Describes(Split(source, '\n'), r.value)
    ensures r.Failure? ==> forall patch :: !Describes(Split(source, '\n'), patch)
    ensures r == Failure(InvalidPath) <==> exists path :: NamesPath(Split(source, '\n'), path) && !ValidPath(path)
  {
    var lines := Split(source, '\n');
    if !StartsWith(lines[0], "--- a/") {
      return Failure(MalformedPatch);
    }
    if |lines| < 2 || !StartsWith(lines[1], "+++ b/") {
      return Failure(MalformedPatch);
    }
    var oldPath, newPath := lines[0][6..], lines[1][6..];
    OnlyPath(lines);
    if oldPath != newPath {
      return Failure(MalformedPatch);
    }
    assert NamesPath(lines, oldPath);
    if !ValidPath(oldPath) {
      return Failure(InvalidPath);
    }
    var hunks := ParseHunks(lines[2..]);
    assert hunks.Some? ==> DescribesHunks(lines[2..], hunks.value);
    if hunks.None? || hunks.value == [] {
      NoHunksRead(lines, hunks);
      return Failure(MalformedPatch);
    }
    return Success(ParsedPatch(oldPath, hunks.value));
  }

  lemma OnlyPath(lines: seq<string>)
    requires |lines| >= 2 && StartsWith(lines[0], "--- a/") && StartsWith(lines[1], "+++ b/")
    ensures forall path :: NamesPath(lines, path) <==> path == lines[0][6..] && path == lines[1][6..]
  {
    assert lines[0] == "--- a/" + lines[0][6..] && lines[1] == "+++ b/" + lines[1][6..];
    forall path | NamesPath(lines, path)
      ensures path == lines[0][6..] && path == lines[1][6..]
    {
      assert ("--- a/" + path)[6..] == path && ("+++ b/" + path)[6..] == path;
    }
  }

  lemma NoHunksRead(lines: seq<string>, hunks: Option<seq<Hunk>>)
    requires |lines| >= 2
    requires IsReading(lines[2..], hunks)
    requires hunks.None? || hunks.value == []
    ensures forall patch :: !Describes(lines, patch)
  {
    hide DescribesHunks;
  }

  method ParseHunks(lines: seq<string>) returns (r: Option<seq<Hunk>>)
    ensures IsReading(lines, r)
  {
    hide *;
    var hunks: seq<Hunk> := [];
    var i: nat := 0;
    ReadNothing(lines);
    while i < |lines|
      invariant i <= |lines| && ReadUpTo(lines, i, hunks)
      decreases |lines| - i
    {
      var ok;
      ok, i, hunks := ParseNext(lines, i, hunks);
      if !ok {
        return None;
      }
    }
    ReadAll(lines, hunks);
    return Some(hunks);
  }

  method ParseNext(lines: seq<string>, i: nat, hunks: seq<Hunk>) returns (ok: bool, next: nat, more: seq<Hunk>)
    requires i < |lines| && ReadUpTo(lines, i, hunks)
    ensures ok ==> i < next <= |lines| && ReadUpTo(lines, next, more)
    ensures !ok ==> IsReading(lines, None)
  {
    hide *;
    var h, j := ParseHunk(lines, i);
    if h.None? {
      ReadNone(lines, i, hunks);
      return false, i, hunks;
    }
    ReadNext(lines, i, hunks, h.value);
    return true, j, hunks + [h.value];
  }

  /** One hunk from line i, or none that any reading could have there. */
  method ParseHunk(lines: seq<string>, i: nat) returns (r: Option<Hunk>, j: nat)
    requires i < |lines|
    ensures r.Some? ==>
              && j == i + 1 + |r.value.lines| <= |lines| && DescribesHunk(lines[i..j], r.value)
              && (j < |lines| ==> ParseLine(lines[j]).None?)
    ensures r.None? ==> Unreadable(lines[i..])
  {
    hide *;
    j := i;
    var header := if lines[i] == "" then None else ParseHunkHeader(lines[i]);
    if header.None? {
      NoHeader(lines, i);
      return None, j;
    }
    var body;
    body, j := ParseBody(lines, i + 1);
    if body.None? {
      BadBody(lines, i, j);
      return None, j;
    }
    var h := Hunk(header.value.0, header.value.1, header.value.2, body.value);
    var counted := CheckCounts(lines, i, h);
    r := if counted then Some(h) else None;
  }

  method CheckCounts(lines: seq<string>, i: nat, h: Hunk) returns (ok: bool)
    requires i + 1 + |h.lines| <= |lines| && IsBody(lines, i + 1, h.lines)
    requires i + 1 + |h.lines| < |lines| ==> StartsWith(lines[i + 1 + |h.lines|], "@@")
    requires ParseHunkHeader(lines[i]) == Some((h.oldStart, h.oldCount, h.newCount))
    ensures ok ==> DescribesHunk(lines[i..i + 1 + |h.lines|], h)
    ensures !ok ==> Unreadable(lines[i..])
    ensures i + 1 + |h.lines| < |lines| ==> ParseLine(lines[i + 1 + |h.lines|]).None?
  {
    hide *;
    var actualOld, actualNew := CountBody(h.lines);
    CountsMeaning(h);
    NoBodyLine(lines, i, h);
    if actualOld != h.oldCount || actualNew != h.newCount {
      BadCounts(lines, i, h);
      return false;
    }
    HunkRead(lines, i, h);
    return true;
  }

  lemma CountsMeaning(h: Hunk)
    ensures CountsOld(h) <==> |OldLines(h.lines)| == h.oldCount
    ensures CountsNew(h) <==> |NewLines(h.lines)| == h.newCount
  {
  }

  lemma ReadNone(lines: seq<string>, i: nat, hunks: seq<Hunk>)
    requires i <= |lines| && ReadUpTo(lines, i, hunks)
    requires Unreadable(lines[i..])
    ensures IsReading(lines, None)
  {
    hide DescribesHunks;
  }

  lemma ReadNothing(lines: seq<string>)
    ensures ReadUpTo(lines, 0, [])
  {
    assert lines[0..] == lines;
    forall tail: seq<Hunk>
      ensures [] + tail == tail && tail[0..] == tail
    {
    }
  }

  lemma ReadAll(lines: seq<string>, hunks: seq<Hunk>)
    requires ReadUpTo(lines, |lines|, hunks)
    ensures IsReading(lines, Some(hunks))
  {
    assert lines[|lines|..] == [] && hunks + [] == hunks;
    assert DescribesHunks([], []);
    forall all | DescribesHunks(lines, all)
      ensures all == hunks
    {
      var rest := all[|hunks|..];
      assert rest == [];
      assert all == all[..|hunks|] + rest;
    }
  }

  lemma NoHeader(lines: seq<string>, i: nat)
    requires i < |lines|
    requires lines[i] == "" || ParseHunkHeader(lines[i]).None?
    ensures Unreadable(lines[i..])
  {
    hide DescribesHunks, DescribesHunk, ParseHunkHeader, IsBody, ParseLine, CountsOld, CountsNew;
    forall rest
      ensures !DescribesHunks(lines[i..], rest)
    {
      if DescribesHunks(lines[i..], rest) {
        FirstHunkLines(lines[i..], rest);
        HeaderIsNotEmpty(lines[i]);
      }
    }
  }

  lemma HeaderIsNotEmpty(header: string)
    requires ParseHunkHeader(header).Some?
    ensures header != ""
  {
  }

  /** The body lines from i up to the next line beginning with @@; None when one of them has no valid prefix. */
  method ParseBody(lines: seq<string>, i: nat) returns (body: Option<seq<HunkLine>>, j: nat)
    requires i <= |lines|
    ensures i <= j <= |lines|
    ensures body.Some? ==>
              && |body.value| == j - i && IsBody(lines, i, body.value)
              && (j < |lines| ==> StartsWith(lines[j], "@@"))
    ensures body.None? ==>
              && j < |lines| && !StartsWith(lines[j], "@@") && ParseLine(lines[j]).None?
              && exists read :: |read| == j - i && IsBody(lines, i, read)
  {
    hide ParseLine, StartsWith;
    j := i;
    var read: seq<HunkLine> := [];
    while j < |lines| && !StartsWith(lines[j], "@@")
      invariant i <= j <= |lines| && |read| == j - i && IsBody(lines, i, read)
    {
      var parsed := ParseLine(lines[j]);
      if parsed.None? {
        return None, j;
      }
      ParseLineText(lines[j]);
      read := read + [parsed.value];
      j := j + 1;
    }
    body := Some(read);
  }

  ghost predicate IsBody(lines: seq<string>, i: nat, body: seq<HunkLine>) {
    i + |body| <= |lines| && forall k | 0 <= k < |body| :: lines[i + k] == LineText(body[k])
  }

  lemma BadBody(lines: seq<string>, i: nat, j: nat)
    requires i < j < |lines|
    requires !StartsWith(lines[j], "@@") && ParseLine(lines[j]).None?
    requires exists read :: |read| == j - (i + 1) && IsBody(lines, i + 1, read)
    ensures Unreadable(lines[i..])
  {
    hide DescribesHunks, DescribesHunk, ParseHunkHeader, IsBody, ParseLine, CountsOld, CountsNew;
    var read :| |read| == j - (i + 1) && IsBody(lines, i + 1, read);
    var here := lines[i..];
    BodyHere(lines, i, read);
    assert here[1 + |read|] == lines[j];
    BodyRoom(lines, i, read);
    forall rest
      ensures !DescribesHunks(here, rest)
    {
      if DescribesHunks(here, rest) {
        BodyForced(here, read, rest);
        HeaderIsNoBodyLine(here[1 + |read|]);
      }
    }
  }

  lemma BodyRoom(lines: seq<string>, i: nat, body: seq<HunkLine>)
    requires i < |lines| && IsBody(lines, i + 1, body)
    ensures i + 1 + |body| <= |lines|
  {
  }

  lemma BodyHere(lines: seq<string>, i: nat, body: seq<HunkLine>)
    requires i < |lines| && IsBody(lines, i + 1, body)
    ensures forall k | 0 <= k < |body| :: lines[i..][1 + k] == LineText(body[k])
  {
    forall k | 0 <= k < |body|
      ensures lines[i..][1 + k] == LineText(body[k])
    {
      assert lines[i + 1 + k] == LineText(body[k]);
    }
  }

  lemma BadCounts(lines: seq<string>, i: nat, h: Hunk)
    requires i + 1 + |h.lines| <= |lines| && IsBody(lines, i + 1, h.lines)
    requires i + 1 + |h.lines| < |lines| ==> ParseLine(lines[i + 1 + |h.lines|]).None?
    requires ParseHunkHeader(lines[i]) == Some((h.oldStart, h.oldCount, h.newCount))
    requires !CountsOld(h) || !CountsNew(h)
    ensures Unreadable(lines[i..])
  {
    hide DescribesHunks, DescribesHunk, ParseHunkHeader, IsBody, ParseLine, CountsOld, CountsNew;
    var here := lines[i..];
    BodyHere(lines, i, h.lines);
    forall rest
      ensures !DescribesHunks(here, rest)
    {
      if DescribesHunks(here, rest) {
        FirstHunkLines(here, rest);
        var g := rest[0];
        BodyForced(here, h.lines, rest);
        SameCounts(h, g);
      }
    }
  }

  lemma SameCounts(g: Hunk, h: Hunk)
    requires g.lines == h.lines && g.oldCount == h.oldCount && g.newCount == h.newCount
    ensures CountsOld(g) == CountsOld(h) && CountsNew(g) == CountsNew(h)
  {
  }

  lemma NoBodyLine(lines: seq<string>, i: nat, h: Hunk)
    requires i + 1 + |h.lines| < |lines| ==> StartsWith(lines[i + 1 + |h.lines|], "@@")
    ensures i + 1 + |h.lines| < |lines| ==> ParseLine(lines[i + 1 + |h.lines|]).None?
  {
    if i + 1 + |h.lines| < |lines| {
      var line := lines[i + 1 + |h.lines|];
      assert line[0] == "@@"[0];
    }
  }

  lemma HunkRead(lines: seq<string>, i: nat, h: Hunk)
    requires i + 1 + |h.lines| <= |lines| && IsBody(lines, i + 1, h.lines)
    requires ParseHunkHeader(lines[i]) == Some((h.oldStart, h.oldCount, h.newCount))
    requires CountsOld(h) && CountsNew(h)
    ensures DescribesHunk(lines[i..i + 1 + |h.lines|], h)
  {
  }

  method CountBody(body: seq<HunkLine>) returns (old_: nat, new_: nat)
    ensures old_ == |OldLines(body)| && new_ == |NewLines(body)|
  {
    old_, new_ := 0, 0;
    for i := 0 to |body|
      invariant old_ == |OldLines(body[..i])| && new_ == |NewLines(body[..i])|
    {
      BodyNext(body, i);
      old_ := old_ + if body[i].Add? then 0 else 1;
      new_ := new_ + if body[i].Remove? then 0 else 1;
    }
    assert body[..|body|] == body;
  }

  // What a patch that has been read is worth to the applier.

  lemma {:induction false} DescribedCounts(lines: seq<string>, hunks: seq<Hunk>)
    requires DescribesHunks(lines, hunks)
    ensures AllCountOld(hunks) && forall k | 0 <= k < |hunks| :: CountsNew(hunks[k])
    decreases |hunks|
  {
    if hunks != [] {
      DescribedCounts(lines[1 + |hunks[0].lines|..], hunks[1..]);
      forall k | 0 <= k < |hunks|
        ensures CountsNew(hunks[k])
      {
        if k > 0 {
          assert hunks[k] == hunks[1..][k - 1];
        }
      }
    }
  }

  /** A patch that was read is never refused because its counts changed. */
  lemma ReadPatchKeepsCounts(text: string, patch: ParsedPatch, source: seq<string>)
    requires Describes(Split(text, '\n'), patch)
    ensures !FirstRefused(source, patch.hunks, 0, CountChanged)
  {
    DescribedCounts(Split(text, '\n')[2..], patch.hunks);
    CountsNeverChange(source, patch.hunks, 0);
  }

  lemma {:induction false} CountsNeverChange(source: seq<string>, hunks: seq<Hunk>, cursor: nat)
    requires forall k | 0 <= k < |hunks| :: CountsNew(hunks[k])
    ensures !FirstRefused(source, hunks, cursor, CountChanged)
    decreases |hunks|
  {
    if hunks != [] {
      assert CountsNew(hunks[0]);
      forall k | 0 <= k < |hunks[1..]|
        ensures CountsNew(hunks[1..][k])
      {
        assert CountsNew(hunks[k + 1]);
      }
      CountsNeverChange(source, hunks[1..], End(hunks[0]));
    }
  }

  lemma {:induction false} DescribedClean(lines: seq<string>, hunks: seq<Hunk>)
    requires DescribesHunks(lines, hunks) && AllFree(lines, '\n')
    ensures CleanHunks(hunks)
    decreases |hunks|
  {
    if hunks != [] {
      FirstHunkLines(lines, hunks);
      var rest := lines[1 + |hunks[0].lines|..];
      forall k | 0 <= k < |rest|
        ensures Free(rest[k], '\n')
      {
        assert Free(lines[1 + |hunks[0].lines| + k], '\n');
      }
      DescribedClean(rest, hunks[1..]);
      CleanFirst(lines, hunks[0]);
      forall k | 0 <= k < |hunks|
        ensures CleanLines(hunks[k].lines)
      {
        if k > 0 {
          assert CleanLines(hunks[1..][k - 1].lines);
        }
      }
    }
  }

  lemma CleanFirst(lines: seq<string>, h: Hunk)
    requires AllFree(lines, '\n') && |lines| >= 1 + |h.lines|
    requires forall k | 0 <= k < |h.lines| :: lines[1 + k] == LineText(h.lines[k])
    ensures CleanLines(h.lines)
  {
    forall k | 0 <= k < |h.lines|
      ensures Free(h.lines[k].text, '\n')
    {
      assert Free(lines[1 + k], '\n');
      assert h.lines[k].text == LineText(h.lines[k])[1..];
    }
  }

  /** Whatever patch was read and applied, its inverse restores the text unless no line was left. */
  lemma ReadPatchInverts(text: string, patch: ParsedPatch, original: string)
    requires Describes(Split(text, '\n'), patch) && TextApplied(original, patch.hunks).Some?
    ensures TextApplied(TextApplied(original, patch.hunks).value, Invert(patch.hunks, 0)) == Some(original)
            <==> |Split(original, '\n')| + LineGrowth(patch.hunks) > 0
  {
    var lines := Split(text, '\n');
    SplitIsFree(text, '\n');
    forall k | 0 <= k < |lines[2..]|
      ensures Free(lines[2..][k], '\n')
    {
      assert Free(lines[2 + k], '\n');
    }
    DescribedCounts(lines[2..], patch.hunks);
    DescribedClean(lines[2..], patch.hunks);
    InvertRestoresText(original, patch.hunks);
  }
}
