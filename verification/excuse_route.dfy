/** The `POST` handler of the excuse route: it builds the two-message prompt, calls
    the inference service with streaming on, and relays the service's
    newline-delimited `data:` event stream to its own caller as plain text
    fragments, through the controller of the response stream. */
module ExcuseRoute {
  import opened Wrappers
  import opened Streams
  import opened LineSplit

  // ---------------------------------------------------------------- prompt

  const SystemPrompt := "You are a creative excuse generator. Generate a funny and clever excuse based on the given context. But it should be practical. Return just the excuse. No quotes."
  const UserLead := "Generate a creative excuse for the context: "
  const DefaultContext := "general situation"

  datatype Message = Message(role: string, content: string)

  /** The body sent to the inference service. */
  datatype InferenceRequest = InferenceRequest(messages: seq<Message>, stream: bool)

  /** `context || 'general situation'` for the `context` field of the request body
      (`None` when the field is absent or null). */
  function EffectiveContext(context: Option<string>): (c: string)
    ensures c != ""
    ensures context.Some? && context.value != "" ==> c == context.value
    ensures context.None? || context.value == "" ==> c == DefaultContext
  {
    if context.Some? && context.value != "" then context.value else DefaultContext
  }

  /** The request the route sends: a fixed system message, then a user message
      that names the effective context after a fixed lead, with streaming on. */
  function BuildRequest(context: Option<string>): (r: InferenceRequest)
    ensures r.stream && |r.messages| == 2
    ensures r.messages[0] == Message("system", SystemPrompt) && r.messages[1].role == "user"
    ensures var u := r.messages[1].content;
      |u| > |UserLead| && u[..|UserLead|] == UserLead && u[|UserLead|..] == EffectiveContext(context)
  {
    InferenceRequest([Message("system", SystemPrompt), Message("user", UserLead + EffectiveContext(context))], true)
  }

  /** Two request bodies produce the same prompt exactly when they name the same
      effective context: an empty or missing context is the default one. */
  lemma SamePromptIffSameContext(c1: Option<string>, c2: Option<string>)
    ensures BuildRequest(c1) == BuildRequest(c2) <==> EffectiveContext(c1) == EffectiveContext(c2)
  {
    if BuildRequest(c1) == BuildRequest(c2) {
      var u1, u2 := BuildRequest(c1).messages[1].content, BuildRequest(c2).messages[1].content;
      assert u1[|UserLead|..] == u2[|UserLead|..];
    }
  }

  // ---------------------------------------------------------- event lines

  const Fallback := "Failed to generate excuse. Please try again."
  const DataPrefix := "data:"
  const Sentinel := " [DONE]"

  /** A JSON value in the position of the `response` field whose conversion to
      text succeeds: a string, or any other value, described by its JavaScript
      truthiness and by the text the encoder makes of it. A truthy value whose
      conversion throws is not a `Value`: its payload parses to `Threw`. */
  datatype Value =
    | Str(s: string)
    | NonString(truthy: bool, shown: string)
  {
    /** `if (data.response)`. */
    predicate Truthy() {
      match this
      case Str(s) => s != ""
      case NonString(t, _) => t
    }

    /** The text `encoder.encode(data.response)` writes. */
    function Text(): string {
      match this
      case Str(s) => s
      case NonString(_, shown) => shown
    }
  }

  /** What the inner `try` makes of a payload: `JSON.parse(payload)`, the read of
      `data.response` and, when it is truthy, its conversion to text by
      `encoder.encode`. `Threw` is a throw from `JSON.parse` (a syntax error) or
      from that conversion (say `{"response":{"toString":0}}`); `NullVal` is
      `null`, whose `.response` throws; `Obj` is any other value, whose
      `response` property is either undefined or a value that converts. */
  datatype Parsed = Threw | NullVal | Obj(response: Option<Value>)

  /** `line.startsWith('data:')`. */
  predicate IsDataLine(line: string) {
    |line| >= |DataPrefix| && line[..|DataPrefix|] == DataPrefix
  }

  /** What the relay does with one complete line. */
  datatype Action = Ignore | Stop | Emit(fragment: string)

  /** The body of the `for (const line of lines)` loop (its meaning is stated by
      `LineActionMeaning`). */
  function LineAction(line: string, parse: string -> Parsed): Action {
    if !IsDataLine(line) then Ignore
    else
      var payload := line[|DataPrefix|..];
      if payload == Sentinel then Stop
      else
        match parse(payload)
        case Threw => Emit(payload)
        case NullVal => Emit(payload)
        case Obj(response) =>
          if response.Some? && response.value.Truthy() then Emit(response.value.Text()) else Ignore
  }

  /** Non-`data:` lines are ignored; exactly the line `data: [DONE]` ends the
      relay; any other `data:` line yields the truthy `response` of what its
      payload parses to, nothing when that is missing or falsy, and the raw
      payload when parsing, the property read or the conversion to text throws. */
  lemma LineActionMeaning(line: string, parse: string -> Parsed)
    ensures !IsDataLine(line) ==> LineAction(line, parse) == Ignore
    ensures LineAction(line, parse) == Stop <==> line == DataPrefix + Sentinel
    ensures LineAction(line, parse).Emit? ==> IsDataLine(line)
    ensures IsDataLine(line) && line != DataPrefix + Sentinel ==>
      match parse(line[|DataPrefix|..])
      case Obj(response) =>
        LineAction(line, parse) ==
          if response.Some? && response.value.Truthy() then Emit(response.value.Text()) else Ignore
      case _ => LineAction(line, parse) == Emit(line[|DataPrefix|..])
  {
    if IsDataLine(line) {
      assert line == DataPrefix + line[|DataPrefix|..];
    }
  }

  /** The fragments a run of complete lines produces, and whether one of them
      was the sentinel (nothing after it is looked at). */
  datatype Scan = Scan(fragments: seq<string>, stopped: bool)

  function ScanLines(lines: seq<string>, parse: string -> Parsed): (r: Scan)
    ensures |r.fragments| <= |lines|
  {
    if lines == [] then Scan([], false)
    else
      match LineAction(lines[0], parse)
      case Stop => Scan([], true)
      case Ignore => ScanLines(lines[1..], parse)
      case Emit(f) =>
        var rest := ScanLines(lines[1..], parse);
        Scan([f] + rest.fragments, rest.stopped)
  }

  /** Lines are handled one at a time, in order, each exactly once: scanning two
      runs of lines one after the other is scanning them together, and once the
      sentinel is seen the second run contributes nothing. */
  lemma {:induction false} ScanAppend(a: seq<string>, b: seq<string>, parse: string -> Parsed)
    ensures ScanLines(a + b, parse) ==
      if ScanLines(a, parse).stopped then ScanLines(a, parse)
      else Scan(ScanLines(a, parse).fragments + ScanLines(b, parse).fragments, ScanLines(b, parse).stopped)
  {
    if a == [] {
      assert a + b == b;
    } else {
      assert (a + b)[0] == a[0] && (a + b)[1..] == a[1..] + b;
      ScanAppend(a[1..], b, parse);
    }
  }

  /** The `data:` lines among `lines`, in their order. */
  function DataOnly(lines: seq<string>): (d: seq<string>)
    ensures forall k :: 0 <= k < |d| ==> IsDataLine(d[k])
    ensures forall l :: l in d <==> l in lines && IsDataLine(l)
  {
    if lines == [] then []
    else if IsDataLine(lines[0]) then [lines[0]] + DataOnly(lines[1..])
    else DataOnly(lines[1..])
  }

  /** Filtering two runs of lines is filtering each, in order. */
  lemma {:induction false} DataOnlyAppend(a: seq<string>, b: seq<string>)
    ensures DataOnly(a + b) == DataOnly(a) + DataOnly(b)
  {
    if a == [] {
      assert a + b == b;
    } else {
      assert (a + b)[0] == a[0] && (a + b)[1..] == a[1..] + b;
      DataOnlyAppend(a[1..], b);
    }
  }

  /** Only `data:` lines matter: dropping every other line changes nothing. */
  lemma {:induction false} OtherLinesIgnored(lines: seq<string>, parse: string -> Parsed)
    ensures ScanLines(lines, parse) == ScanLines(DataOnly(lines), parse)
  {
    if lines != [] {
      OtherLinesIgnored(lines[1..], parse);
      if IsDataLine(lines[0]) {
        assert ([lines[0]] + DataOnly(lines[1..]))[1..] == DataOnly(lines[1..]);
      }
    }
  }

  // ---------------------------------------------------- the whole relay

  /** What the `try` block of `start(controller)` enqueues, and whether it throws. */
  datatype Attempt = Attempt(sent: seq<string>, threw: bool)

  /** The `try` block as a function of the service's reply: a rejected fetch, a
      non-OK status or a missing body throw before anything is sent. */
  function TryBlock(reply: Reply, parse: string -> Parsed): (r: Attempt)
    ensures !r.threw ==> reply.Responded? && IsOk(reply.status) && reply.body.Some?
    ensures r.sent != [] ==> reply.Responded? && IsOk(reply.status) && reply.body.Some?
  {
    if reply.FetchFailed? || !IsOk(reply.status) || reply.body.None? then Attempt([], true)
    else ReadAll(reply.body.value, parse)
  }

  /** The read loop and the final flush as a function of the body: the complete
      lines of the whole streamed text are scanned; the sentinel returns at once;
      a failing read throws after the fragments sent so far; a clean end flushes
      the unfinished tail, when non-empty, verbatim. */
  function ReadAll(body: Body, parse: string -> Parsed): (r: Attempt)
    ensures r.threw ==> body.broken
    ensures |r.sent| <= |Lines(Concat(body.chunks))| + 1
  {
    var text := Concat(body.chunks);
    var scan := ScanLines(Lines(text), parse);
    if scan.stopped then Attempt(scan.fragments, false)
    else if body.broken then Attempt(scan.fragments, true)
    else Attempt(scan.fragments + (if Unfinished(text) == "" then [] else [Unfinished(text)]), false)
  }

  /** Everything the route's caller receives: the `try` block's fragments, then
      the fallback text when it threw. */
  function Respond(reply: Reply, parse: string -> Parsed): seq<string> {
    var a := TryBlock(reply, parse);
    if a.threw then a.sent + [Fallback] else a.sent
  }

  /** Error paths: a rejected fetch, a non-OK status or an unreadable body give the
      fallback text alone; a read that fails mid-stream (before any sentinel)
      appends it after the fragments of the complete lines, without flushing the
      unfinished tail. */
  lemma ErrorPaths(reply: Reply, parse: string -> Parsed)
    ensures reply.FetchFailed? || !IsOk(reply.status) || reply.body.None? ==> Respond(reply, parse) == [Fallback]
    ensures reply.Responded? && IsOk(reply.status) && reply.body.Some? && reply.body.value.broken ==>
      var text := Concat(reply.body.value.chunks);
      var scan := ScanLines(Lines(text), parse);
      Respond(reply, parse) == if scan.stopped then scan.fragments else scan.fragments + [Fallback]
  {
  }

  /** The same streamed text cut into chunks in any other way reaches the caller
      as the same fragments: the sentinel, the flush of the tail and a failing
      last read behave alike. */
  lemma ChunkingIrrelevant(status: int, cs1: seq<string>, cs2: seq<string>, broken: bool, parse: string -> Parsed)
    requires Concat(cs1) == Concat(cs2)
    ensures Respond(Responded(status, Some(Body(cs1, broken))), parse) ==
      Respond(Responded(status, Some(Body(cs2, broken))), parse)
  {
  }

  /** The sentinel cuts the relay off: when the streamed text holds complete lines
      `pre` (none of them the sentinel) and then a complete `data: [DONE]` line,
      the caller gets exactly the fragments of `pre`, whatever follows, later reads
      failing included, and the unfinished tail is never flushed. */
  lemma SentinelCutsOff(pre: seq<string>, after: string, status: int, chunks: seq<string>, broken: bool, parse: string -> Parsed)
    requires IsOk(status) && AllNoNewline(pre) && !ScanLines(pre, parse).stopped
    requires Concat(chunks) == Framed(pre) + (DataPrefix + Sentinel + "\n" + after)
    ensures Respond(Responded(status, Some(Body(chunks, broken))), parse) == ScanLines(pre, parse).fragments
  {
    var stopLine := DataPrefix + Sentinel;
    var rest := stopLine + "\n" + after;
    LinesFramed(pre, rest);
    assert NoNewline(stopLine);
    SplitAfterLine(stopLine, after);
    assert Lines(rest) == [stopLine] + Lines(after);
    var lines := Lines(Concat(chunks));
    assert lines == pre + ([stopLine] + Lines(after));
    ScanAppend(pre, [stopLine] + Lines(after), parse);
  }

  /** A stream without a sentinel that ends cleanly relays the fragments of its
      complete lines and then its unfinished tail verbatim, even when the tail
      looks like an event line. */
  lemma TailFlushedVerbatim(lines: seq<string>, tail: string, status: int, chunks: seq<string>, parse: string -> Parsed)
    requires IsOk(status) && AllNoNewline(lines) && NoNewline(tail) && !ScanLines(lines, parse).stopped
    requires Concat(chunks) == Framed(lines) + tail
    ensures Respond(Responded(status, Some(Body(chunks, false))), parse) ==
      ScanLines(lines, parse).fragments + (if tail == "" then [] else [tail])
  {
    LinesFramed(lines, tail);
    SplitNoNewline(tail);
    assert Lines(tail) == [];
    assert lines + [] == lines;
  }

  /** The event lines carrying the given payloads. */
  function EventLines(payloads: seq<string>): (ls: seq<string>)
    ensures |ls| == |payloads|
    ensures forall k :: 0 <= k < |ls| ==> ls[k] == DataPrefix + payloads[k]
  {
    if payloads == [] then [] else [DataPrefix + payloads[0]] + EventLines(payloads[1..])
  }

  /** The usual stream: one `data:` event per token whose JSON payload carries a
      non-empty `response` string, then the sentinel. The caller receives exactly
      those strings, in order, and nothing after the sentinel. */
  lemma {:induction false} TokensRelayedInOrder(payloads: seq<string>, tokens: seq<string>, parse: string -> Parsed)
    requires |payloads| == |tokens|
    requires forall k :: 0 <= k < |payloads| ==>
      payloads[k] != Sentinel && tokens[k] != "" && parse(payloads[k]) == Obj(Some(Str(tokens[k])))
    ensures ScanLines(EventLines(payloads), parse) == Scan(tokens, false)
  {
    if payloads != [] {
      var line := DataPrefix + payloads[0];
      assert line[..|DataPrefix|] == DataPrefix && line[|DataPrefix|..] == payloads[0];
      TokensRelayedInOrder(payloads[1..], tokens[1..], parse);
      assert EventLines(payloads)[1..] == EventLines(payloads[1..]);
      assert [tokens[0]] + tokens[1..] == tokens;
    }
  }

  lemma TokenStreamRelayed(payloads: seq<string>, tokens: seq<string>, after: string, status: int, chunks: seq<string>, broken: bool, parse: string -> Parsed)
    requires IsOk(status) && |payloads| == |tokens|
    requires forall k :: 0 <= k < |payloads| ==>
      NoNewline(payloads[k]) && payloads[k] != Sentinel && tokens[k] != "" && parse(payloads[k]) == Obj(Some(Str(tokens[k])))
    requires Concat(chunks) == Framed(EventLines(payloads)) + (DataPrefix + Sentinel + "\n" + after)
    ensures Respond(Responded(status, Some(Body(chunks, broken))), parse) == tokens
  {
    var ls := EventLines(payloads);
    TokensRelayedInOrder(payloads, tokens, parse);
    assert AllNoNewline(ls) by {
      forall k | 0 <= k < |ls| ensures NoNewline(ls[k]) {
        assert ls[k] == DataPrefix + payloads[k];
      }
    }
    SentinelCutsOff(ls, after, status, chunks, broken, parse);
  }

  /** Three event lines and the sentinel line, each followed by a newline. */
  lemma ThreeEventsFramed(p0: string, p1: string, p2: string)
    ensures Framed(EventLines([p0, p1, p2])) + (DataPrefix + Sentinel + "\n" + "") ==
      "data:" + p0 + "\n" + "data:" + p1 + "\n" + "data:" + p2 + "\n" + "data: [DONE]" + "\n"
  {
    var ls := EventLines([p0, p1, p2]);
    assert ls == ["data:" + p0, "data:" + p1, "data:" + p2];
    assert ls[1..][1..][1..] == [];
    assert Framed(ls[1..][1..]) == ls[2] + "\n";
    assert Framed(ls[1..]) == ls[1] + "\n" + ls[2] + "\n";
    assert DataPrefix + Sentinel == "data: [DONE]";
  }

  /** Three token events and the sentinel, however the text is cut into chunks,
      reach the caller as exactly the three tokens, in order. */
  lemma ThreeTokenExample(status: int, chunks: seq<string>, broken: bool, parse: string -> Parsed)
    requires IsOk(status)
    requires parse("{\"response\":\"My \"}") == Obj(Some(Str("My ")))
    requires parse("{\"response\":\"alarm\"}") == Obj(Some(Str("alarm")))
    requires parse("{\"response\":\" broke.\"}") == Obj(Some(Str(" broke.")))
    requires Concat(chunks) == "data:" + "{\"response\":\"My \"}" + "\n" + "data:" + "{\"response\":\"alarm\"}" + "\n"
      + "data:" + "{\"response\":\" broke.\"}" + "\n" + "data: [DONE]" + "\n"
    ensures Respond(Responded(status, Some(Body(chunks, broken))), parse) == ["My ", "alarm", " broke."]
  {
    var payloads := ["{\"response\":\"My \"}", "{\"response\":\"alarm\"}", "{\"response\":\" broke.\"}"];
    ThreeEventsFramed(payloads[0], payloads[1], payloads[2]);
    TokenStreamRelayed(payloads, ["My ", "alarm", " broke."], "", status, chunks, broken, parse);
  }

  // ------------------------------------------------ the imperative relay

  /** The part of a `ReadableStreamDefaultController` the route uses: what has been
      enqueued, and whether it is closed. Enqueuing into or closing a closed
      controller throws, so both require it open. */
  class Controller {
    var sent: seq<string>
    var closed: bool
    /** How many times `close()` was called, for the proofs. */
    ghost var closes: nat

    constructor ()
      ensures sent == [] && !closed && closes == 0
    {
      sent := [];
      closed := false;
      closes := 0;
    }

    method Enqueue(fragment: string)
      requires !closed
      modifies this
      ensures sent == old(sent) + [fragment] && !closed && closes == old(closes)
    {
      sent := sent + [fragment];
    }

    method Close()
      requires !closed
      modifies this
      ensures closed && sent == old(sent) && closes == old(closes) + 1
    {
      closed := true;
      closes := closes + 1;
    }
  }

  /** One more line that is not the sentinel adds its fragment, if any. */
  lemma ScanSnoc(done: seq<string>, line: string, parse: string -> Parsed)
    requires !ScanLines(done, parse).stopped && LineAction(line, parse) != Stop
    ensures !ScanLines(done + [line], parse).stopped
    ensures ScanLines(done + [line], parse).fragments == ScanLines(done, parse).fragments +
      match LineAction(line, parse) case Emit(f) => [f] case _ => []
  {
    ScanAppend(done, [line], parse);
    assert [line][1..] == [];
  }

  /** The `for (const line of lines)` loop over the complete lines of one read.
      It reports whether it met the sentinel, on which `start(controller)`
      returns at once. */
  method RelayLines(c: Controller, lines: seq<string>, parse: string -> Parsed) returns (stopped: bool)
    requires !c.closed
    modifies c
    ensures !c.closed && c.closes == old(c.closes)
    ensures c.sent == old(c.sent) + ScanLines(lines, parse).fragments
    ensures stopped == ScanLines(lines, parse).stopped
  {
    var j := 0;
    while j < |lines|
      invariant j <= |lines| && !c.closed && c.closes == old(c.closes)
      invariant !ScanLines(lines[..j], parse).stopped
      invariant c.sent == old(c.sent) + ScanLines(lines[..j], parse).fragments
    {
      var line := lines[j];
      assert lines[..j + 1] == lines[..j] + [line];
      if IsDataLine(line) {
        var payload := line[5..];
        if payload == Sentinel {
          StopsHere(lines[..j], line, lines[j + 1..], parse);
          assert lines == lines[..j] + [line] + lines[j + 1..];
          return true;
        }
        ScanSnoc(lines[..j], line, parse);
        match parse(payload)
        case Threw =>
          c.Enqueue(payload);
        case NullVal =>
          c.Enqueue(payload);
        case Obj(response) =>
          if response.Some? && response.value.Truthy() {
            c.Enqueue(response.value.Text());
          }
      } else {
        ScanSnoc(lines[..j], line, parse);
      }
      j := j + 1;
    }
    assert lines[..j] == lines;
    return false;
  }

  /** Stops at the sentinel: the fragments are those of the lines before it. */
  lemma StopsHere(done: seq<string>, line: string, later: seq<string>, parse: string -> Parsed)
    requires !ScanLines(done, parse).stopped && LineAction(line, parse) == Stop
    ensures ScanLines(done + [line] + later, parse) == Scan(ScanLines(done, parse).fragments, true)
  {
    ScanAppend(done, [line] + later, parse);
    assert done + [line] + later == done + ([line] + later);
  }

  /** One read: the complete lines of the text so far grow by the complete lines
      of the old buffer with the new chunk, whose tail is the new buffer. */
  lemma ReadStep(text: string, chunk: string, parse: string -> Parsed)
    requires !ScanLines(Lines(text), parse).stopped
    ensures var pending := Unfinished(text) + chunk;
      && Unfinished(text + chunk) == Unfinished(pending)
      && ScanLines(Lines(text + chunk), parse).fragments ==
         ScanLines(Lines(text), parse).fragments + ScanLines(Lines(pending), parse).fragments
      && ScanLines(Lines(text + chunk), parse).stopped == ScanLines(Lines(pending), parse).stopped
  {
    StreamStep(text, chunk);
    ScanAppend(Lines(text), Lines(Unfinished(text) + chunk), parse);
  }

  /** The complete lines of the whole text are those of the first `i` chunks,
      then those of their tail followed by the remaining chunks. */
  lemma LinesOfSplitRead(chunks: seq<string>, i: nat)
    requires i <= |chunks|
    ensures var seen := Concat(chunks[..i]);
      Lines(Concat(chunks)) == Lines(seen) + Lines(Unfinished(seen) + Concat(chunks[i..]))
  {
    assert chunks == chunks[..i] + chunks[i..];
    ConcatAppend(chunks[..i], chunks[i..]);
    StreamStep(Concat(chunks[..i]), Concat(chunks[i..]));
  }

  /** Once the complete lines read so far hold the sentinel, the rest of the text
      changes nothing. */
  lemma StoppedEarly(chunks: seq<string>, i: nat, parse: string -> Parsed)
    requires i <= |chunks| && ScanLines(Lines(Concat(chunks[..i])), parse).stopped
    ensures ScanLines(Lines(Concat(chunks)), parse) == ScanLines(Lines(Concat(chunks[..i])), parse)
  {
    var seen := Concat(chunks[..i]);
    LinesOfSplitRead(chunks, i);
    ScanAppend(Lines(seen), Lines(Unfinished(seen) + Concat(chunks[i..])), parse);
  }

  /** The `try` block of `start(controller)`: the status and body checks, then
      the read loop. */
  method Pump(c: Controller, reply: Reply, parse: string -> Parsed) returns (threw: bool)
    requires !c.closed
    modifies c
    ensures !c.closed && c.closes == old(c.closes)
    ensures c.sent == old(c.sent) + TryBlock(reply, parse).sent
    ensures threw == TryBlock(reply, parse).threw
  {
    if reply.FetchFailed? || !IsOk(reply.status) || reply.body.None? {
      return true;
    }
    threw := ReadBody(c, reply.body.value, parse);
  }

  /** The read loop and what follows it: a failing read throws, a clean end
      flushes what is left in the buffer. */
  method ReadBody(c: Controller, body: Body, parse: string -> Parsed) returns (threw: bool)
    requires !c.closed
    modifies c
    ensures !c.closed && c.closes == old(c.closes)
    ensures c.sent == old(c.sent) + ReadAll(body, parse).sent
    ensures threw == ReadAll(body, parse).threw
  {
    var buffer, stopped := ReadLoop(c, body.chunks, parse);
    if stopped {
      return false;
    }
    if body.broken {
      return true;
    }
    if buffer != "" {
      c.Enqueue(buffer);
    }
    return false;
  }

  /** The body of the read loop: `buffer += chunk`, then `const lines =
      buffer.split('\n'); buffer = lines.pop() || ''`, then the loop over `lines`.
      It relays the complete lines of the old buffer with the chunk appended and
      keeps their unfinished tail as the new buffer. */
  method ReadOnce(c: Controller, buffer: string, chunk: string, parse: string -> Parsed) returns (rest: string, stopped: bool)
    requires !c.closed
    modifies c
    ensures !c.closed && c.closes == old(c.closes)
    ensures var scan := ScanLines(Lines(buffer + chunk), parse);
      c.sent == old(c.sent) + scan.fragments && stopped == scan.stopped
    ensures rest == Unfinished(buffer + chunk)
  {
    var pending := buffer + chunk;
    var parts := Split(pending);
    var lines := parts[..|parts| - 1];
    rest := parts[|parts| - 1];
    stopped := RelayLines(c, lines, parse);
  }

  /** The `while (true)` loop over the reads: append each chunk to `buffer`, relay
      its complete lines, keep the unfinished tail. It ends at the sentinel or
      when the chunks run out. */
  method ReadLoop(c: Controller, chunks: seq<string>, parse: string -> Parsed) returns (buffer: string, stopped: bool)
    requires !c.closed
    modifies c
    ensures !c.closed && c.closes == old(c.closes)
    ensures var scan := ScanLines(Lines(Concat(chunks)), parse);
      c.sent == old(c.sent) + scan.fragments && stopped == scan.stopped
    ensures !stopped ==> buffer == Unfinished(Concat(chunks))
  {
    buffer := "";
    var i := 0;
    ghost var text := "";
    while i < |chunks|
      invariant i <= |chunks| && !c.closed && c.closes == old(c.closes)
      invariant text == Concat(chunks[..i])
      invariant buffer == Unfinished(text)
      invariant !ScanLines(Lines(text), parse).stopped
      invariant c.sent == old(c.sent) + ScanLines(Lines(text), parse).fragments
    {
      ghost var before := ScanLines(Lines(text), parse).fragments;
      ghost var added := ScanLines(Lines(buffer + chunks[i]), parse).fragments;
      ReadStep(text, chunks[i], parse);
      buffer, stopped := ReadOnce(c, buffer, chunks[i], parse);
      AppendAssoc(old(c.sent), before, added);
      ConcatSnoc(chunks, i);
      text := text + chunks[i];
      if stopped {
        StoppedEarly(chunks, i + 1, parse);
        return;
      }
      i := i + 1;
    }
    assert chunks[..i] == chunks;
    stopped := false;
  }

  /** `start(controller)`: the `try` block, the fallback text in `catch`, and
      `close()` in `finally`. The caller receives exactly `Respond` of the
      service's reply to the built request, which depends on the streamed text
      alone and not on how it was cut into chunks; `close()` is called exactly
      once, and the controller ends closed. */
  method Start(c: Controller, context: Option<string>, service: InferenceRequest -> Reply, parse: string -> Parsed)
    requires !c.closed && c.sent == []
    modifies c
    ensures c.closed && c.closes == old(c.closes) + 1
    ensures c.sent == Respond(service(BuildRequest(context)), parse)
  {
    var reply := service(BuildRequest(context));
    var threw := Pump(c, reply, parse);
    if threw {
      c.Enqueue(Fallback);
    }
    c.Close();
  }
}
