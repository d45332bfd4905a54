/** The incremental NATS stream parser (workers/pi/src/nats-worker.ts); a string stands for bytes, one character each. */
module Nats {
  import opened Basics
  import opened Text

  const MAX_PAYLOAD: nat := 256 * 1024
  const CRLF := "\r\n"

  /** What the parser does to the outside, in order. */
  datatype Action =
    | Connect(auth: Option<(string, string)>)  // CONNECT, SUB and PING
    | Pong
    | Rejected                                 // socket destroyed: connection rejected
    | BadSize                                  // socket destroyed: message size is invalid
    | Process(reply: string, payload: string)  // a request handed to the runtime

  /** What can be done with the front of the buffer: nothing yet, nothing ever, or this. */
  datatype Step = Wait | Stuck | Advance(rest: string, actions: seq<Action>)

  /** The size field as a number, when it is a safe integer in range: JavaScript's Number, not modelled. */
  type SizeReader = string -> Option<nat>

  function LineAction(line: string, auth: Option<(string, string)>): seq<Action> {
    if StartsWith(line, "INFO ") then [Connect(auth)]
    else if line == "PING" then [Pong]
    else if line == "-ERR" then [Rejected]
    else []
  }

  function MessageStep(buffer: string, size: SizeReader): Step {
    var split := SplitOnce(buffer, CRLF);
    if split.None? then Wait
    else
      var parts := Split(split.value.0, ' ');
      var length := size(parts[|parts| - 1]);
      if length.None? || length.value > MAX_PAYLOAD then Stuck
      else if |split.value.1| < length.value + 2 then Wait
      else Advance(split.value.1[length.value + 2..],
                   if |parts| == 5 then [Process(parts[3], split.value.1[..length.value])] else [])
  }

  function FrontStep(buffer: string, size: SizeReader, auth: Option<(string, string)>): Step {
    if StartsWith(buffer, "MSG ") then MessageStep(buffer, size)
    else
      var split := SplitOnce(buffer, CRLF);
      if split.None? then Wait else Advance(split.value.1, LineAction(split.value.0, auth))
  }

  datatype Outcome = Outcome(actions: seq<Action>, rest: string, stuck: bool)

  lemma {:induction false} SplitShorter(s: string, pattern: string)
    requires pattern != "" && SplitOnce(s, pattern).Some?
    ensures |SplitOnce(s, pattern).value.1| < |s|
  {
  }

  lemma StepShorter(buffer: string, size: SizeReader, auth: Option<(string, string)>)
    requires FrontStep(buffer, size, auth).Advance?
    ensures |FrontStep(buffer, size, auth).rest| < |buffer|
  {
    SplitShorter(buffer, CRLF);
  }

  /** Take steps until none can be taken. */
  ghost function Drained(buffer: string, size: SizeReader, auth: Option<(string, string)>): Outcome
    decreases |buffer|
  {
    match FrontStep(buffer, size, auth)
    case Wait => Outcome([], buffer, false)
    case Stuck => Outcome([BadSize], buffer, true)
    case Advance(rest, actions) =>
      StepShorter(buffer, size, auth);
      var more := Drained(rest, size, auth);
      Outcome(actions + more.actions, more.rest, more.stuck)
  }

  class NatsParser {
    var buffer: string
    var infoReceived: bool
    /** Everything written to the socket or handed on so far. */
    var log: seq<Action>
    const size: SizeReader
    const username: Option<string>
    const password: Option<string>

    constructor (size: SizeReader, username: Option<string>, password: Option<string>)
      ensures buffer == "" && !infoReceived && log == [] && this.size == size
      ensures Auth() == if username.Some? && password.Some? then Some((username.value, password.value)) else None
    {
      buffer, infoReceived, log := "", false, [];
      this.size, this.username, this.password := size, username, password;
    }

    static function AuthOf(username: Option<string>, password: Option<string>): Option<(string, string)> {
      if username.Some? && password.Some? then Some((username.value, password.value)) else None
    }

    function Auth(): Option<(string, string)> {
      AuthOf(username, password)
    }

    method Push(chunk: string)
      modifies this
      ensures var all := Drained(old(buffer) + chunk, size, Auth());
              log == old(log) + all.actions && buffer == all.rest
    {
      buffer := buffer + chunk;
      Drain();
    }

    method Drain()
      modifies this
      ensures var all := Drained(old(buffer), size, Auth());
              log == old(log) + all.actions && buffer == all.rest
    {
      ghost var start := Drained(buffer, size, Auth());
      while true
        invariant log + Drained(buffer, size, Auth()).actions == old(log) + start.actions
        invariant Drained(buffer, size, Auth()).rest == start.rest
        decreases |buffer|
      {
        var more := TakeStep();
        if !more {
          return;
        }
      }
    }

    /** One turn of the drain loop; false when it returns. */
    method TakeStep() returns (more: bool)
      modifies this
      ensures more ==> |buffer| < |old(buffer)|
      ensures log + (if more then Drained(buffer, size, Auth()).actions else [])
              == old(log) + Drained(old(buffer), size, Auth()).actions
      ensures Drained(buffer, size, Auth()).rest == Drained(old(buffer), size, Auth()).rest
      ensures !more ==> buffer == Drained(old(buffer), size, Auth()).rest
    {
      ghost var step := FrontStep(buffer, size, Auth());
      DrainUnfolds(buffer, size, Auth());
      hide Drained, SplitOnce, Split;
      if StartsWith(buffer, "MSG ") {
        more := ConsumeMessage();
        return;
      }
      var split := SplitOnce(buffer, CRLF);
      if split.None? {
        return false;
      }
      SplitShorter(buffer, CRLF);
      var line := split.value.0;
      buffer := split.value.1;
      if StartsWith(line, "INFO ") {
        infoReceived := true;
        var auth := AuthFields();
        log := log + [Connect(auth)];
      } else if line == "PING" {
        log := log + [Pong];
      } else if line == "-ERR" {
        log := log + [Rejected];
      }
      assert log == old(log) + step.actions;
      return true;
    }

    method ConsumeMessage() returns (more: bool)
      requires StartsWith(buffer, "MSG ")
      modifies this
      ensures var step := MessageStep(old(buffer), size);
              && (more <==> step.Advance?)
              && (step.Wait? ==> buffer == old(buffer) && log == old(log))
              && (step.Stuck? ==> buffer == old(buffer) && log == old(log) + [BadSize])
              && (step.Advance? ==> |buffer| < |old(buffer)| && buffer == step.rest && log == old(log) + step.actions)
    {
      var split := SplitOnce(buffer, CRLF);
      if split.None? {
        return false;
      }
      SplitShorter(buffer, CRLF);
      var parts := Split(split.value.0, ' ');
      var length := size(parts[|parts| - 1]);
      if length.None? || length.value > MAX_PAYLOAD {
        log := log + [BadSize];
        return false;
      }
      if |split.value.1| < length.value + 2 {
        return false;
      }
      var payload := split.value.1[..length.value];
      buffer := split.value.1[length.value + 2..];
      if |parts| == 5 {
        log := log + [Process(parts[3], payload)];
      }
      return true;
    }

    /** The credentials, only once the server has introduced itself. */
    method AuthFields() returns (auth: Option<(string, string)>)
      ensures auth == if infoReceived then Auth() else None
    {
      auth := if !infoReceived then None else AuthOf(username, password);
    }
  }

  lemma DrainUnfolds(buffer: string, size: SizeReader, auth: Option<(string, string)>)
    ensures var step, all := FrontStep(buffer, size, auth), Drained(buffer, size, auth);
            && (step.Wait? ==> all == Outcome([], buffer, false))
            && (step.Stuck? ==> all == Outcome([BadSize], buffer, true))
            && (step.Advance? ==>
                  && |step.rest| < |buffer|
                  && all.actions == step.actions + Drained(step.rest, size, auth).actions
                  && all.rest == Drained(step.rest, size, auth).rest && all.stuck == Drained(step.rest, size, auth).stuck)
  {
    if FrontStep(buffer, size, auth).Advance? {
      StepShorter(buffer, size, auth);
    }
  }
}
