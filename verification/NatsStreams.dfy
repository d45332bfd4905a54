/** Whole NATS streams, however they are cut into chunks. */
module NatsStreams {
  import opened Basics
  import opened Text
  import opened Nats

  // More input behind a step already possible changes nothing about it.

  lemma {:induction false} SplitOnceStable(a: string, pattern: string, b: string)
    requires pattern != "" && SplitOnce(a, pattern).Some?
    ensures SplitOnce(a + b, pattern) == Some((SplitOnce(a, pattern).value.0, SplitOnce(a, pattern).value.1 + b))
  {
    assert (a + b)[..|pattern|] == a[..|pattern|];
    if a[..|pattern|] == pattern {
      assert (a + b)[|pattern|..] == a[|pattern|..] + b;
    } else {
      assert (a + b)[1..] == a[1..] + b;
      SplitOnceStable(a[1..], pattern, b);
    }
  }

  /** A line once complete does not turn into a message. */
  lemma NotMessageStable(a: string, b: string)
    requires !StartsWith(a, "MSG ") && SplitOnce(a, CRLF).Some?
    ensures !StartsWith(a + b, "MSG ")
  {
    var line := SplitOnce(a, CRLF).value.0;
    var rest := SplitOnce(a, CRLF).value.1;
    assert a == line + CRLF + rest;
    if |a| < 4 {
      assert a[|line|] == '\r' && (a + b)[|line|] == '\r';
    } else {
      assert (a + b)[..4] == a[..4];
    }
  }

  lemma StepStable(a: string, b: string, size: SizeReader, auth: Option<(string, string)>)
    ensures var step := FrontStep(a, size, auth);
            && (step.Stuck? ==> FrontStep(a + b, size, auth) == Stuck)
            && (step.Advance? ==> FrontStep(a + b, size, auth) == Advance(step.rest + b, step.actions))
  {
    if SplitOnce(a, CRLF).Some? {
      SplitOnceStable(a, CRLF, b);
      if StartsWith(a, "MSG ") {
        assert (a + b)[..4] == a[..4];
        MessageStable(a, b, size);
      } else {
        NotMessageStable(a, b);
      }
    }
  }

  lemma MessageStable(a: string, b: string, size: SizeReader)
    requires SplitOnce(a, CRLF).Some?
    requires SplitOnce(a + b, CRLF) == Some((SplitOnce(a, CRLF).value.0, SplitOnce(a, CRLF).value.1 + b))
    ensures var step := MessageStep(a, size);
            && (step.Stuck? ==> MessageStep(a + b, size) == Stuck)
            && (step.Advance? ==> MessageStep(a + b, size) == Advance(step.rest + b, step.actions))
  {
    hide SplitOnce, Split;
    var parts, tail := Split(SplitOnce(a, CRLF).value.0, ' '), SplitOnce(a, CRLF).value.1;
    var length := size(parts[|parts| - 1]);
    if length.Some? && length.value + 2 <= |tail| {
      assert (tail + b)[length.value + 2..] == tail[length.value + 2..] + b;
      assert (tail + b)[..length.value] == tail[..length.value];
    }
  }

  /** Draining first and then with more is draining it all, unless the front is stuck for good. */
  lemma {:induction false} DrainInTwo(a: string, b: string, size: SizeReader, auth: Option<(string, string)>)
    ensures var first := Drained(a, size, auth);
            Drained(a + b, size, auth) ==
              if first.stuck then Outcome(first.actions, first.rest + b, true)
              else
                var second := Drained(first.rest + b, size, auth);
                Outcome(first.actions + second.actions, second.rest, second.stuck)
    decreases |a|
  {
    hide *;
    DrainUnfolds(a, size, auth);
    DrainUnfolds(a + b, size, auth);
    StepStable(a, b, size, auth);
    var step := FrontStep(a, size, auth);
    if step.Advance? {
      DrainInTwo(step.rest, b, size, auth);
      var later := Drained(step.rest, size, auth);
      Associative(step.actions, later.actions, Drained(later.rest + b, size, auth).actions);
    }
  }

  lemma Associative<T>(a: seq<T>, b: seq<T>, c: seq<T>)
    ensures a + (b + c) == (a + b) + c
  {
  }

  /** The buffer and log after a list of pushes, as NatsParser.Push leaves them. */
  ghost function Fed(buffer: string, chunks: seq<string>, size: SizeReader, auth: Option<(string, string)>): Outcome
    decreases |chunks|
  {
    if chunks == [] then Outcome([], buffer, Drained(buffer, size, auth).stuck)
    else
      var now := Drained(buffer + chunks[0], size, auth);
      var more := Fed(now.rest, chunks[1..], size, auth);
      Outcome(now.actions + more.actions, more.rest, more.stuck)
  }

  ghost function Concatenated(chunks: seq<string>): string {
    if chunks == [] then "" else chunks[0] + Concatenated(chunks[1..])
  }

  ghost predicate AllBadSize(actions: seq<Action>) {
    forall i | 0 <= i < |actions| :: actions[i] == BadSize
  }

  /**
   * However a stream is cut, the parser performs the actions of the whole stream and keeps the same
   * buffer; after the first invalid size every later chunk only repeats the refusal.
   */
  lemma {:induction false} ChunkingDoesNotMatter(
    buffer: string, chunks: seq<string>, size: SizeReader, auth: Option<(string, string)>)
    requires FrontStep(buffer, size, auth).Wait? && chunks != []
    ensures var fed, whole := Fed(buffer, chunks, size, auth), Drained(buffer + Concatenated(chunks), size, auth);
            && fed.rest == whole.rest
            && (!whole.stuck ==> fed.actions == whole.actions)
            && (whole.stuck ==> whole.actions <= fed.actions && AllBadSize(fed.actions[|whole.actions|..]))
    decreases |chunks|
  {
    hide *;
    var first := buffer + chunks[0];
    var now := Drained(first, size, auth);
    FedUnfolds(buffer, chunks, size, auth);
    if |chunks| == 1 {
      OnlyChunk(chunks, now, size, auth);
    } else {
      var tail := Concatenated(chunks[1..]);
      ConcatUnfolds(chunks);
      assert buffer + (chunks[0] + tail) == first + tail;
      DrainInTwo(first, tail, size, auth);
      DrainEnds(first, size, auth);
      if now.stuck {
        StuckStays(now.rest, chunks[1..], size, auth);
        AfterPrefix(now.actions, Fed(now.rest, chunks[1..], size, auth).actions);
      } else {
        ChunkingDoesNotMatter(now.rest, chunks[1..], size, auth);
        var more, rest := Fed(now.rest, chunks[1..], size, auth), Drained(now.rest + tail, size, auth);
        if rest.stuck {
          PrefixUnder(now.actions, rest.actions, more.actions);
        }
      }
    }
  }

  lemma FedUnfolds(buffer: string, chunks: seq<string>, size: SizeReader, auth: Option<(string, string)>)
    requires chunks != []
    ensures var now := Drained(buffer + chunks[0], size, auth);
            var more := Fed(now.rest, chunks[1..], size, auth);
            Fed(buffer, chunks, size, auth) == Outcome(now.actions + more.actions, more.rest, more.stuck)
  {
  }

  lemma ConcatUnfolds(chunks: seq<string>)
    requires chunks != []
    ensures Concatenated(chunks) == chunks[0] + Concatenated(chunks[1..])
  {
  }

  lemma OnlyChunk(chunks: seq<string>, now: Outcome, size: SizeReader, auth: Option<(string, string)>)
    requires |chunks| == 1
    ensures Concatenated(chunks) == chunks[0]
    ensures Fed(now.rest, chunks[1..], size, auth).actions == [] && Fed(now.rest, chunks[1..], size, auth).rest == now.rest
    ensures now.actions + [] == now.actions && AllBadSize((now.actions + [])[|now.actions|..])
  {
    assert chunks[1..] == [];
    assert chunks[0] + "" == chunks[0];
  }

  /** What is left after draining can take no step: it waits, or is stuck. */
  lemma {:induction false} DrainEnds(buffer: string, size: SizeReader, auth: Option<(string, string)>)
    ensures var all := Drained(buffer, size, auth);
            FrontStep(all.rest, size, auth) == if all.stuck then Stuck else Wait
    decreases |buffer|
  {
    DrainUnfolds(buffer, size, auth);
    hide Drained;
    var step := FrontStep(buffer, size, auth);
    if step.Advance? {
      DrainEnds(step.rest, size, auth);
    }
  }

  lemma {:induction false} StuckStays(buffer: string, chunks: seq<string>, size: SizeReader, auth: Option<(string, string)>)
    requires FrontStep(buffer, size, auth).Stuck?
    ensures AllBadSize(Fed(buffer, chunks, size, auth).actions)
    ensures Fed(buffer, chunks, size, auth).rest == buffer + Concatenated(chunks)
    decreases |chunks|
  {
    hide *;
    if chunks == [] {
      NoChunks(buffer, chunks, size, auth);
    } else {
      var longer := buffer + chunks[0];
      StepStable(buffer, chunks[0], size, auth);
      DrainUnfolds(longer, size, auth);
      FedUnfolds(buffer, chunks, size, auth);
      ConcatUnfolds(chunks);
      StuckStays(longer, chunks[1..], size, auth);
      assert buffer + (chunks[0] + Concatenated(chunks[1..])) == longer + Concatenated(chunks[1..]);
      OneMoreBadSize(Fed(longer, chunks[1..], size, auth).actions);
    }
  }

  lemma NoChunks(buffer: string, chunks: seq<string>, size: SizeReader, auth: Option<(string, string)>)
    requires chunks == []
    ensures AllBadSize(Fed(buffer, chunks, size, auth).actions)
    ensures Fed(buffer, chunks, size, auth).rest == buffer + Concatenated(chunks)
  {
    hide Drained;
    assert buffer + "" == buffer;
  }

  lemma OneMoreBadSize(actions: seq<Action>)
    requires AllBadSize(actions)
    ensures AllBadSize([BadSize] + actions)
  {
  }

  lemma AfterPrefix(a: seq<Action>, b: seq<Action>)
    requires AllBadSize(b)
    ensures a <= a + b && AllBadSize((a + b)[|a|..])
  {
    assert (a + b)[|a|..] == b;
  }

  lemma PrefixUnder(a: seq<Action>, b: seq<Action>, c: seq<Action>)
    requires b <= c && AllBadSize(c[|b|..])
    ensures a + b <= a + c && AllBadSize((a + c)[|a + b|..])
  {
    assert (a + c)[|a + b|..] == c[|b|..];
  }

  // Frames.

  datatype Frame =
    | Line(text: string)
    | Msg(subject: string, sid: string, reply: Option<string>, payload: string)

  /** No field separator and no carriage return. */
  ghost predicate IsToken(s: string) {
    Free(s, ' ') && Free(s, '\r')
  }

  /** A line that is no message, or a message whose fields are tokens and whose payload fits. */
  ghost predicate WellFormed(f: Frame) {
    match f
    case Line(text) => !StartsWith(text + "\r\n", "MSG ") && Free(text, '\r')
    case Msg(subject, sid, reply, payload) =>
      IsToken(subject) && IsToken(sid) && (reply.Some? ==> IsToken(reply.value)) && |payload| <= 262144
  }

  ghost function Header(f: Frame): string
    requires f.Msg?
  {
    "MSG " + f.subject + " " + f.sid + " " + (if f.reply.Some? then f.reply.value + " " else "") + Decimal(|f.payload|)
  }

  ghost function Encode(f: Frame): string {
    match f
    case Line(text) => text + "\r\n"
    case Msg(_, _, _, payload) => Header(f) + "\r\n" + payload + "\r\n"
  }

  /** An introduction is answered with a connect, a ping with a pong; an error ends the connection; the rest is ignored. */
  ghost function FrameActions(f: Frame, auth: Option<(string, string)>): seq<Action> {
    match f
    case Line(text) =>
      if |text| >= 5 && text[..5] == "INFO " then [Connect(auth)]
      else if text == "PING" then [Pong]
      else if text == "-ERR" then [Rejected]
      else []
    case Msg(_, _, reply, payload) => if reply.Some? then [Process(reply.value, payload)] else []
  }

  ghost function EncodeAll(frames: seq<Frame>): string {
    if frames == [] then "" else Encode(frames[0]) + EncodeAll(frames[1..])
  }

  ghost function AllActions(frames: seq<Frame>, auth: Option<(string, string)>): seq<Action> {
    if frames == [] then [] else FrameActions(frames[0], auth) + AllActions(frames[1..], auth)
  }

  /** The size reader reads plain decimal numbers as what they are. */
  ghost predicate ReadsDecimals(size: SizeReader) {
    forall n: nat | n <= 262144 :: size(Decimal(n)) == Some(n)
  }

  lemma LineSplits(line: string, rest: string)
    requires Free(line, '\r')
    ensures SplitOnce(line + CRLF + rest, CRLF) == Some((line, rest))
  {
    var s := line + CRLF + rest;
    forall k | 0 <= k < |line|
      ensures !OccursAt(s, CRLF, k)
    {
      assert s[k] == line[k];
      NoBreakHere(s, k);
    }
    hide OccursAt;
    SplitOnceAt(line, CRLF, rest);
  }

  lemma NoBreakHere(s: string, k: nat)
    requires k < |s| && s[k] != '\r'
    ensures !OccursAt(s, CRLF, k)
  {
    if k + 2 <= |s| {
      assert s[k..k + 2][0] == s[k];
    }
  }

  lemma HeaderFields(f: Frame)
    requires f.Msg? && WellFormed(f)
    ensures Free(Header(f), '\r')
    ensures Split(Header(f), ' ')
            == (if f.reply.Some? then ["MSG", f.subject, f.sid, f.reply.value] else ["MSG", f.subject, f.sid])
               + [Decimal(|f.payload|)]
  {
    var n := Decimal(|f.payload|);
    assert Free(n, ' ') && Free(n, '\r');
    hide *;
    TokensFree(f);
    var fields := if f.reply.Some? then ["MSG", f.subject, f.sid, f.reply.value, n] else ["MSG", f.subject, f.sid, n];
    HeaderIsJoin(f, n);
    FieldsFree(fields);
    SplitJoin(fields, ' ');
    JoinFree(fields);
  }

  lemma TokensFree(f: Frame)
    requires f.Msg? && WellFormed(f)
    ensures Free(f.subject, ' ') && Free(f.subject, '\r') && Free(f.sid, ' ') && Free(f.sid, '\r')
    ensures f.reply.Some? ==> Free(f.reply.value, ' ') && Free(f.reply.value, '\r')
    ensures Free("MSG", ' ') && Free("MSG", '\r')
  {
  }

  lemma HeaderIsJoin(f: Frame, n: string)
    requires f.Msg? && n == Decimal(|f.payload|)
    ensures Header(f)
            == Join(if f.reply.Some? then ["MSG", f.subject, f.sid, f.reply.value, n] else ["MSG", f.subject, f.sid, n], ' ')
  {
    hide Join, Decimal;
    JoinOne(n);
    if f.reply.Some? {
      JoinCons([f.reply.value, n], f.reply.value, [n]);
      JoinCons([f.sid, f.reply.value, n], f.sid, [f.reply.value, n]);
      JoinCons([f.subject, f.sid, f.reply.value, n], f.subject, [f.sid, f.reply.value, n]);
      JoinCons(["MSG", f.subject, f.sid, f.reply.value, n], "MSG", [f.subject, f.sid, f.reply.value, n]);
      Nested(f.subject, f.sid, f.reply.value + " " + n);
      assert f.reply.value + " " + n == (f.reply.value + " ") + n;
      assert Header(f) == "MSG " + f.subject + " " + f.sid + " " + (f.reply.value + " " + n);
    } else {
      JoinCons([f.sid, n], f.sid, [n]);
      JoinCons([f.subject, f.sid, n], f.subject, [f.sid, n]);
      JoinCons(["MSG", f.subject, f.sid, n], "MSG", [f.subject, f.sid, n]);
      Nested(f.subject, f.sid, n);
      assert "MSG " + f.subject + " " + f.sid + " " + "" + n == "MSG " + f.subject + " " + f.sid + " " + n;
    }
  }

  lemma Nested(subject: string, sid: string, tail: string)
    ensures "MSG " + subject + " " + sid + " " + tail == "MSG" + " " + (subject + " " + (sid + " " + tail))
  {
  }

  lemma JoinOne(a: string)
    ensures Join([a], ' ') == a
  {
  }

  lemma JoinCons(all: seq<string>, a: string, rest: seq<string>)
    requires rest != [] && all == [a] + rest
    ensures Join(all, ' ') == a + " " + Join(rest, ' ')
  {
    assert all[1..] == rest;
  }

  lemma FieldsFree(fields: seq<string>)
    requires forall i | 0 <= i < |fields| :: Free(fields[i], ' ')
    ensures AllFree(fields, ' ')
  {
  }

  lemma {:induction false} JoinFree(fields: seq<string>)
    requires forall i | 0 <= i < |fields| :: Free(fields[i], '\r')
    ensures Free(Join(fields, ' '), '\r')
  {
    if |fields| > 1 {
      JoinFree(fields[1..]);
    } else if fields != [] {
      assert Free(fields[0], '\r');
    }
  }

  lemma FrameStep(f: Frame, rest: string, size: SizeReader, auth: Option<(string, string)>)
    requires WellFormed(f) && ReadsDecimals(size)
    ensures FrontStep(Encode(f) + rest, size, auth) == Advance(rest, FrameActions(f, auth))
  {
    match f
    case Line(text) =>
      assert Encode(f) + rest == text + CRLF + rest;
      LineSplits(text, rest);
      NoMessageInFront(text, rest);
    case Msg(_, _, _, payload) =>
      HeaderFields(f);
      var after := payload + CRLF + rest;
      assert Encode(f) + rest == Header(f) + CRLF + after;
      LineSplits(Header(f), after);
      MessageInFront(f, after);
      assert after[|payload| + 2..] == rest && after[..|payload|] == payload;
      hide Split, SplitOnce, Decimal, Header;
      assert size(Decimal(|payload|)) == Some(|payload|);
  }

  lemma NoMessageInFront(text: string, rest: string)
    requires !StartsWith(text + CRLF, "MSG ") && Free(text, '\r')
    ensures !StartsWith(text + CRLF + rest, "MSG ")
  {
    var s := text + CRLF + rest;
    if |text + CRLF| >= 4 {
      assert s[..4] == (text + CRLF)[..4];
    } else {
      assert s[|text|] == '\r';
    }
  }

  lemma MessageInFront(f: Frame, after: string)
    requires f.Msg?
    ensures StartsWith(Header(f) + CRLF + after, "MSG ")
  {
  }

  /**
   * Any message line: the last field is its size; two bytes behind the payload are dropped, whatever they are;
   * the payload is handed on with the fourth field when there are five, and dropped otherwise.
   */
  lemma MessageMeans(
      line: string, payload: string, ending: string, rest: string, size: SizeReader, auth: Option<(string, string)>)
    requires Free(line, '\r') && |line| >= 4 && line[..4] == "MSG " && |ending| == 2 && |payload| <= 262144
    requires size(Split(line, ' ')[|Split(line, ' ')| - 1]) == Some(|payload|)
    ensures var parts := Split(line, ' ');
            FrontStep(line + "\r\n" + payload + ending + rest, size, auth)
            == Advance(rest, if |parts| == 5 then [Process(parts[3], payload)] else [])
  {
    var after := payload + ending + rest;
    assert line + "\r\n" + payload + ending + rest == line + CRLF + after;
    LineSplits(line, after);
    assert (line + CRLF + after)[..4] == line[..4];
    assert after[..|payload|] == payload && after[|payload| + 2..] == rest;
    hide Split, SplitOnce;
  }

  /** A message whose size cannot be read or is above 262144 is refused, and stays in front for good. */
  lemma BadSizeMeans(line: string, rest: string, size: SizeReader, auth: Option<(string, string)>)
    requires Free(line, '\r') && |line| >= 4 && line[..4] == "MSG "
    requires var n := size(Split(line, ' ')[|Split(line, ' ')| - 1]); n.None? || n.value > 262144
    ensures Drained(line + "\r\n" + rest, size, auth) == Outcome([BadSize], line + "\r\n" + rest, true)
  {
    assert line + "\r\n" + rest == line + CRLF + rest;
    LineSplits(line, rest);
    assert (line + CRLF + rest)[..4] == line[..4];
    hide Split, SplitOnce;
  }

  /** Well-formed frames decode to exactly their actions, and nothing is left over. */
  lemma {:induction false} FramesDecode(frames: seq<Frame>, size: SizeReader, auth: Option<(string, string)>)
    requires (forall i | 0 <= i < |frames| :: WellFormed(frames[i])) && ReadsDecimals(size)
    ensures Drained(EncodeAll(frames), size, auth) == Outcome(AllActions(frames, auth), "", false)
  {
    if frames == [] {
      assert FrontStep("", size, auth).Wait?;
    } else {
      assert WellFormed(frames[0]);
      FrameStep(frames[0], EncodeAll(frames[1..]), size, auth);
      FramesDecode(frames[1..], size, auth);
      DrainUnfolds(EncodeAll(frames), size, auth);
    }
  }

  /** The two together: frames arriving in any chunks are decoded one by one, in order. */
  lemma FramesDecodeInChunks(
    frames: seq<Frame>, chunks: seq<string>, size: SizeReader, auth: Option<(string, string)>)
    requires (forall i | 0 <= i < |frames| :: WellFormed(frames[i])) && ReadsDecimals(size)
    requires Concatenated(chunks) == EncodeAll(frames)
    ensures Fed("", chunks, size, auth).actions == AllActions(frames, auth)
    ensures Fed("", chunks, size, auth).rest == ""
  {
    FramesDecode(frames, size, auth);
    assert "" + Concatenated(chunks) == Concatenated(chunks);
    if chunks != [] {
      assert FrontStep("", size, auth).Wait?;
      ChunkingDoesNotMatter("", chunks, size, auth);
    } else {
      DrainUnfolds("", size, auth);
    }
  }

  /** The parser object, pushed chunk by chunk. */
  method PushAll(parser: NatsParser, chunks: seq<string>)
    modifies parser
    ensures var fed := Fed(old(parser.buffer), chunks, parser.size, parser.Auth());
            parser.log == old(parser.log) + fed.actions && parser.buffer == fed.rest
  {
    ghost var whole := Fed(parser.buffer, chunks, parser.size, parser.Auth());
    for i := 0 to |chunks|
      invariant parser.log + Fed(parser.buffer, chunks[i..], parser.size, parser.Auth()).actions == old(parser.log) + whole.actions
      invariant Fed(parser.buffer, chunks[i..], parser.size, parser.Auth()).rest == whole.rest
    {
      FedUnfolds(parser.buffer, chunks[i..], parser.size, parser.Auth());
      assert chunks[i..][1..] == chunks[i + 1..];
      ghost var now := Drained(parser.buffer + chunks[i], parser.size, parser.Auth());
      Associative(parser.log, now.actions, Fed(now.rest, chunks[i + 1..], parser.size, parser.Auth()).actions);
      parser.Push(chunks[i]);
    }
    assert chunks[|chunks|..] == [];
  }
}
