/**
 * The event-stream format as the chat client reads it (parseSseChunk in
 * src/api/chat.api.ts): a chunk of text is cut into blocks at "\n\n" and each
 * block into lines at "\n"; `event:` lines name the block, `data:` lines carry
 * its JSON payload, and each block makes at most one call to a handler.
 *
 * This is a cut-down form of the event-stream format of the WHATWG HTML Living
 * Standard (section 9.2.6, "Interpreting an event stream"): data lines are joined
 * with no newline, every value is trimmed on both sides, lines end only at "\n",
 * and `id:`, `retry:` and comment lines have no meaning.
 */
module SseFormat {
  import opened Wrappers
  import opened JsValue
  import opened JsString
  import opened Sequences

  /** Why onError is called. */
  datatype Failure =
    | InvalidJson    // JSON.parse threw on a block's data
    | NullPayload    // a "token" block's data was JSON null, so reading `content` threw
    | StartRejected  // the response was not ok or had no body: Error("Unable to start stream.")
    | FetchRejected  // fetch itself rejected
    | ReadRejected   // reading the body rejected part-way through

  /** One call to one of the caller's handlers. */
  datatype Callback = Token(content: Json) | Done(payload: Json) | Error(failure: Failure)

  /** What parsing depends on besides the text: JSON.parse, and whether the caller supplied onError. */
  datatype Env = Env(jsonParse: string -> Option<Json>, hasOnError: bool)

  /** `handlers.onError?.(error)`: one call to onError when there is one, none otherwise. */
  function ErrorLog(f: Failure, env: Env): (r: seq<Callback>)
    ensures |r| <= 1 && (r != [] <==> env.hasOnError)
    ensures forall k :: 0 <= k < |r| ==> r[k] == Error(f)
  {
    if env.hasOnError then [Error(f)] else []
  }

  const BlockDelimiter := "\n\n"
  const LineDelimiter := "\n"
  const DefaultEventName := "message"

  predicate IsEventLine(line: string) { StartsWith(line, "event:") }
  predicate IsDataLine(line: string) { StartsWith(line, "data:") }

  /** No line is both: the two prefixes differ in their first character. */
  lemma EventLineIsNotDataLine(line: string)
    ensures IsEventLine(line) ==> !IsDataLine(line)
  {
    if IsEventLine(line) && |line| >= 5 {
      assert line[..6][0] == line[0] == line[..5][0];
    }
  }

  /** `line.replace("event:", "").trim()`: the line starts with the prefix, so that is the occurrence removed. */
  function EventValue(line: string): string
    requires IsEventLine(line)
  {
    Trim(line[6..])
  }

  /** `line.replace("data:", "").trim()` */
  function DataValue(line: string): string
    requires IsDataLine(line)
  {
    Trim(line[5..])
  }

  /** The event name once `lines` are read: each event line overwrites it, starting from "message". */
  function NameOf(lines: seq<string>): string
  {
    if lines == [] then DefaultEventName
    else
      var last := lines[|lines| - 1];
      if IsEventLine(last) then EventValue(last) else NameOf(lines[..|lines| - 1])
  }

  /** The data once `lines` are read: each data line's value is appended, with nothing between. */
  function DataOf(lines: seq<string>): string
  {
    if lines == [] then ""
    else
      var last := lines[|lines| - 1];
      DataOf(lines[..|lines| - 1]) + (if IsDataLine(last) then DataValue(last) else "")
  }

  /** `data.content ?? ""`, with None where reading `content` throws because the payload is null. */
  function ContentOf(payload: Json): (r: Option<Json>)
    ensures r.None? <==> payload.JNull?
    ensures r.Some? ==> r.value != JNull
    ensures payload.JObject? && HasValue(payload.fields, "content") ==> r == Some(payload.fields["content"])
    ensures !payload.JNull? && !(payload.JObject? && HasValue(payload.fields, "content")) ==> r == Some(JString(""))
  {
    match payload
    case JNull => None
    case JObject(fields) => if HasValue(fields, "content") then Some(fields["content"]) else Some(JString(""))
    case _ => Some(JString(""))
  }

  /**
   * The calls one block makes, given its event name and data: none for empty data;
   * otherwise one onError if the data is not JSON (or is null in a "token" block),
   * one onToken for "token", one onDone with the payload as parsed for "done",
   * and none for any other name.
   */
  function Dispatch(name: string, data: string, env: Env): (r: seq<Callback>)
    ensures |r| <= 1
    ensures data == "" ==> r == []
    ensures (r != [] && r[0].Error?) <==>
      env.hasOnError && data != "" && (env.jsonParse(data).None? || (name == "token" && env.jsonParse(data).value == JNull))
    ensures (r != [] && r[0].Token?) <==>
      data != "" && name == "token" && env.jsonParse(data).Some? && env.jsonParse(data).value != JNull
    ensures (r != [] && r[0].Done?) <==> data != "" && name == "done" && env.jsonParse(data).Some?
    ensures r != [] && r[0].Token? ==> Some(r[0].content) == ContentOf(env.jsonParse(data).value)
    ensures r != [] && r[0].Done? ==> env.jsonParse(data) == Some(r[0].payload)
    ensures r != [] && r[0].Error? ==> r[0].failure == if env.jsonParse(data).None? then InvalidJson else NullPayload
  {
    if data == "" then []
    else
      match env.jsonParse(data)
      case None => ErrorLog(InvalidJson, env)
      case Some(payload) =>
        if name == "token" then
          match ContentOf(payload)
          case None => ErrorLog(NullPayload, env)
          case Some(content) => [Token(content)]
        else if name == "done" then [Done(payload)]
        else []
  }

  function Lines(block: string): seq<string> {
    SplitOn(block, LineDelimiter)
  }

  /** The calls for a block made of `lines`. */
  function LinesEvents(lines: seq<string>, env: Env): seq<Callback> {
    Dispatch(NameOf(lines), DataOf(lines), env)
  }

  function BlockEvents(block: string, env: Env): seq<Callback> {
    LinesEvents(Lines(block), env)
  }

  /** `filter(Boolean)` on strings: the non-empty ones, in order. */
  function NonEmpty(pieces: seq<string>): (r: seq<string>)
    ensures forall k :: 0 <= k < |r| ==> r[k] != []
    ensures forall x :: x in r <==> x in pieces && x != []
  {
    if pieces == [] then []
    else (if pieces[0] == [] then [] else [pieces[0]]) + NonEmpty(pieces[1..])
  }

  /** Filtering a single piece keeps it exactly when it is not empty. */
  lemma NonEmptySingle(x: string)
    ensures NonEmpty([x]) == if x == [] then [] else [x]
  {
    assert [x][1..] == [];
  }

  /** Filtering two runs is filtering each: the pieces kept stay in order, each as often as before. */
  lemma {:induction false} NonEmptyAppend(a: seq<string>, b: seq<string>)
    ensures NonEmpty(a + b) == NonEmpty(a) + NonEmpty(b)
    decreases |a|
  {
    if a == [] {
      assert a + b == b;
    } else {
      var head := if a[0] == [] then [] else [a[0]];
      calc {
        NonEmpty(a + b);
        { assert (a + b)[0] == a[0]; assert (a + b)[1..] == a[1..] + b; }
        head + NonEmpty(a[1..] + b);
        { NonEmptyAppend(a[1..], b); }
        head + (NonEmpty(a[1..]) + NonEmpty(b));
        { AppendAssociates(head, NonEmpty(a[1..]), NonEmpty(b)); }
        (head + NonEmpty(a[1..])) + NonEmpty(b);
        NonEmpty(a) + NonEmpty(b);
      }
    }
  }

  /** `chunk.split("\n\n").filter(Boolean)` */
  function Blocks(chunk: string): seq<string> {
    NonEmpty(SplitOn(chunk, BlockDelimiter))
  }

  function EventsOf(blocks: seq<string>, env: Env): seq<Callback> {
    if blocks == [] then [] else BlockEvents(blocks[0], env) + EventsOf(blocks[1..], env)
  }

  /** The calls parseSseChunk makes for `chunk`: the blocks' calls, block after block. */
  function ChunkEvents(chunk: string, env: Env): seq<Callback> {
    EventsOf(Blocks(chunk), env)
  }

  /**
   * A second reading of the same format, line by line: `current` holds the lines
   * of the block being read, and an empty line ends it.
   */
  function EventsByLines(current: seq<string>, rest: seq<string>, env: Env): seq<Callback>
    decreases |rest|
  {
    if rest == [] then LinesEvents(current, env)
    else if rest[0] == "" then LinesEvents(current, env) + EventsByLines([], rest[1..], env)
    else EventsByLines(current + [rest[0]], rest[1..], env)
  }

  ghost predicate HasEventLine(lines: seq<string>) {
    exists i :: 0 <= i < |lines| && IsEventLine(lines[i])
  }

  /** No line but the last is empty. */
  ghost predicate BlankOnlyAtEnd(lines: seq<string>) {
    forall k :: 0 <= k < |lines| - 1 ==> lines[k] != []
  }

  /** Text that nothing has been cut from yet, or that ends with a block delimiter. */
  ghost predicate AfterBoundary(text: string) {
    text == [] || (|text| >= 2 && text[|text| - 2..] == BlockDelimiter)
  }

  // ---------------------------------------------------------------------------
  // One block: the event name and the data

  /** Without an event line the name stays "message". */
  lemma {:induction false} NameWithoutEventLine(lines: seq<string>)
    requires !HasEventLine(lines)
    ensures NameOf(lines) == DefaultEventName
    decreases |lines|
  {
    if lines != [] {
      var init := lines[..|lines| - 1];
      assert !IsEventLine(lines[|lines| - 1]);
      assert !HasEventLine(init) by {
        forall k | 0 <= k < |init| ensures !IsEventLine(init[k]) {
          assert init[k] == lines[k];
        }
      }
      NameWithoutEventLine(init);
    }
  }

  /** The name is the value of the last event line. */
  lemma {:induction false} NameIsLastEventLine(lines: seq<string>, i: nat)
    requires i < |lines| && IsEventLine(lines[i])
    requires forall j :: i < j < |lines| ==> !IsEventLine(lines[j])
    ensures NameOf(lines) == EventValue(lines[i])
    decreases |lines|
  {
    if i < |lines| - 1 {
      var init := lines[..|lines| - 1];
      assert !IsEventLine(lines[|lines| - 1]);
      assert init[i] == lines[i];
      forall j | i < j < |init| ensures !IsEventLine(init[j]) {
        assert init[j] == lines[j];
      }
      NameIsLastEventLine(init, i);
    }
  }

  /** Lines read later override the name only when they contain an event line. */
  lemma {:induction false} NameOfAppend(a: seq<string>, b: seq<string>)
    ensures NameOf(a + b) == if HasEventLine(b) then NameOf(b) else NameOf(a)
    decreases |b|
  {
    if b == [] {
      assert a + b == a;
    } else {
      var b' := b[..|b| - 1];
      assert (a + b)[..|a + b| - 1] == a + b';
      assert (a + b)[|a + b| - 1] == b[|b| - 1];
      NameOfAppend(a, b');
      if !IsEventLine(b[|b| - 1]) {
        assert HasEventLine(b) <==> HasEventLine(b') by {
          if HasEventLine(b) {
            var i :| 0 <= i < |b| && IsEventLine(b[i]);
            assert b'[i] == b[i];
          }
          if HasEventLine(b') {
            var i :| 0 <= i < |b'| && IsEventLine(b'[i]);
            assert b[i] == b'[i];
          }
        }
      } else {
        assert HasEventLine(b);
      }
    }
  }

  /** The data of consecutive lines is the data of the first part followed by that of the second. */
  lemma {:induction false} DataOfAppend(a: seq<string>, b: seq<string>)
    ensures DataOf(a + b) == DataOf(a) + DataOf(b)
    decreases |b|
  {
    if b == [] {
      assert a + b == a;
    } else {
      var b' := b[..|b| - 1];
      assert (a + b)[..|a + b| - 1] == a + b';
      assert (a + b)[|a + b| - 1] == b[|b| - 1];
      DataOfAppend(a, b');
    }
  }

  /** Without a data line a block has no data. */
  lemma {:induction false} DataOfWithoutDataLines(lines: seq<string>)
    requires forall i :: 0 <= i < |lines| ==> !IsDataLine(lines[i])
    ensures DataOf(lines) == ""
    decreases |lines|
  {
    if lines != [] {
      DataOfWithoutDataLines(lines[..|lines| - 1]);
    }
  }

  /** An empty line at either end of a block changes nothing. */
  lemma LinesEventsIgnoreEmpty(lines: seq<string>, env: Env)
    ensures LinesEvents([""] + lines, env) == LinesEvents(lines, env)
    ensures LinesEvents(lines + [""], env) == LinesEvents(lines, env)
  {
    assert [""][..0] == [];
    assert NameOf([""]) == DefaultEventName && DataOf([""]) == "";
    NameOfAppend([""], lines);
    DataOfAppend([""], lines);
    if !HasEventLine(lines) {
      NameWithoutEventLine(lines);
    }
    assert NameOf([""] + lines) == NameOf(lines);
    assert DataOf([""] + lines) == DataOf(lines);
    assert (lines + [""])[..|lines|] == lines;
    assert NameOf(lines + [""]) == NameOf(lines);
    assert DataOf(lines + [""]) == DataOf(lines);
  }

  // ---------------------------------------------------------------------------
  // The two readings agree

  /** Lines with no empty line inside form a single block. */
  lemma {:induction false} ReadBlockByLines(current: seq<string>, rest: seq<string>, env: Env)
    requires BlankOnlyAtEnd(rest)
    ensures EventsByLines(current, rest, env) == LinesEvents(current + rest, env)
    decreases |rest|
  {
    if rest == [] {
      assert current + rest == current;
    } else if rest[0] == "" {
      assert |rest| == 1;
      assert current + rest == current + [""];
      LinesEventsIgnoreEmpty(current, env);
    } else {
      assert BlankOnlyAtEnd(rest[1..]);
      ReadBlockByLines(current + [rest[0]], rest[1..], env);
      assert current + [rest[0]] + rest[1..] == current + rest;
    }
  }

  /** An empty line between two runs of lines separates their calls. */
  lemma {:induction false} EventsByLinesAround(current: seq<string>, a: seq<string>, b: seq<string>, env: Env)
    ensures EventsByLines(current, a + [""] + b, env) == EventsByLines(current, a, env) + EventsByLines([], b, env)
    decreases |a|
  {
    if a == [] {
      assert a + [""] + b == [""] + b;
      assert ([""] + b)[1..] == b;
    } else {
      assert (a + [""] + b)[0] == a[0];
      assert (a + [""] + b)[1..] == a[1..] + [""] + b;
      if a[0] == "" {
        EventsByLinesAround([], a[1..], b, env);
      } else {
        EventsByLinesAround(current + [a[0]], a[1..], b, env);
      }
    }
  }

  /** The lines of text that neither holds "\n\n" nor starts with "\n" have no empty line before the last. */
  lemma {:induction false} LinesBlankOnlyAtEnd(p: string)
    requires !Contains(p, BlockDelimiter)
    requires p == [] || p[0] != '\n'
    ensures BlankOnlyAtEnd(Lines(p))
    decreases |p|
  {
    match IndexOf(p, LineDelimiter)
    case None =>
    case Some(i) =>
      assert p[i..i + 1] == LineDelimiter;
      var rest := p[i + 1..];
      ContainsInSuffix(p, BlockDelimiter, i + 1);
      assert !OccursAt(p, BlockDelimiter, i);
      assert rest == [] || rest[0] != '\n' by {
        assert rest == [] || p[i..i + 2] == [p[i], rest[0]];
      }
      LinesBlankOnlyAtEnd(rest);
      assert Lines(p) == [p[..i]] + Lines(rest);
      assert i > 0;
      assert p[..i] != [];
  }

  /** For a block with no "\n\n" inside, both readings give the same calls. */
  lemma BlockEventsByLines(p: string, env: Env)
    requires !Contains(p, BlockDelimiter)
    ensures BlockEvents(p, env) == EventsByLines([], Lines(p), env)
  {
    if p != [] && p[0] == '\n' {
      assert OccursAt(p, LineDelimiter, 0);
      var rest := p[1..];
      assert Lines(p) == [""] + Lines(rest);
      ContainsInSuffix(p, BlockDelimiter, 1);
      assert !OccursAt(p, BlockDelimiter, 0);
      assert rest == [] || rest[0] != '\n' by {
        assert rest == [] || p[..2] == [p[0], rest[0]];
      }
      LinesBlankOnlyAtEnd(rest);
      ReadBlockByLines([], Lines(rest), env);
      LinesEventsIgnoreEmpty(Lines(rest), env);
      assert ([""] + Lines(rest))[1..] == Lines(rest);
      assert [] + Lines(rest) == Lines(rest);
      assert LinesEvents([], env) == [];
    } else {
      var lines := Lines(p);
      LinesBlankOnlyAtEnd(p);
      ReadBlockByLines([], lines, env);
      assert [] + lines == lines;
    }
  }

  /** The block delimiter is an empty line between the lines before it and the lines after it. */
  lemma LinesAroundBoundary(p: string, y: string)
    ensures Lines(p + BlockDelimiter + y) == Lines(p) + [""] + Lines(y)
  {
    var q := [] + ['\n'] + y;
    TwoNewlines(p, y);
    SplitOnAround(p, '\n', q);
    SplitOnAround([], '\n', y);
    assert Lines([]) == [""];
    AppendAssociates(Lines(p), [""], Lines(y));
  }

  lemma TwoNewlines(p: string, y: string)
    ensures p + BlockDelimiter + y == p + ['\n'] + ([] + ['\n'] + y)
  {
  }

  /** The empty chunk has no block. */
  lemma EmptyChunk(env: Env)
    ensures Lines([]) == [""] && Blocks([]) == [] && ChunkEvents([], env) == []
  {
    assert IndexOf([], LineDelimiter) == None;
    assert IndexOf([], BlockDelimiter) == None;
    var pieces: seq<string> := [[]];
    assert SplitOn([], BlockDelimiter) == pieces;
    assert pieces[1..] == [];
  }

  /** A chunk with no delimiter is one block (or none, when it is empty). */
  lemma ChunkEventsSingleBlock(s: string, env: Env)
    requires IndexOf(s, BlockDelimiter).None?
    ensures ChunkEvents(s, env) == EventsByLines([], Lines(s), env)
  {
    assert SplitOn(s, BlockDelimiter) == [s];
    assert !Contains(s, BlockDelimiter);
    if s == [] {
      EmptyChunk(env);
    } else {
      var pieces := [s];
      assert pieces[1..] == [];
      assert NonEmpty(pieces) == pieces;
      assert EventsOf(pieces, env) == BlockEvents(s, env) + EventsOf([], env);
      BlockEventsByLines(s, env);
    }
  }

  /** The blocks of a chunk are its first piece, if it is not empty, then the blocks of the rest. */
  lemma BlocksUnfold(s: string, i: nat)
    requires IndexOf(s, BlockDelimiter) == Some(i)
    ensures s == s[..i] + BlockDelimiter + s[i + 2..]
    ensures Blocks(s) == (if s[..i] == [] then [] else [s[..i]]) + Blocks(s[i + 2..])
    ensures !Contains(s[..i], BlockDelimiter)
  {
    var pieces := SplitOn(s, BlockDelimiter);
    SplitOnFirst(s, BlockDelimiter, i);
    assert pieces[0] == s[..i];
    assert pieces[1..] == SplitOn(s[i + 2..], BlockDelimiter);
    BeforeFirstOccurrence(s, BlockDelimiter, i);
    SplitThree(s, i, i + 2);
  }

  /** parseSseChunk reads a chunk exactly as the line-by-line reading does. */
  lemma {:induction false} ChunkEventsByLines(s: string, env: Env)
    ensures ChunkEvents(s, env) == EventsByLines([], Lines(s), env)
    decreases |s|
  {
    match IndexOf(s, BlockDelimiter)
    case None =>
      ChunkEventsSingleBlock(s, env);
    case Some(i) =>
      var p := s[..i];
      var rest := s[i + 2..];
      BlocksUnfold(s, i);
      ChunkEventsByLines(rest, env);
      LinesAroundBoundary(p, rest);
      EventsByLinesAround([], Lines(p), Lines(rest), env);
      BlockEventsByLines(p, env);
      var tail := Blocks(rest);
      if p == [] {
        EmptyChunk(env);
        var none: seq<string> := [];
        assert LinesEvents(none, env) == [];
        assert [""][1..] == none;
        assert EventsByLines([], [""], env) == LinesEvents(none, env) + EventsByLines([], none, env);
        assert EventsByLines([], Lines(p), env) == [];
        assert Blocks(s) == Blocks(rest);
        assert Lines(s) == Lines(p) + [""] + Lines(rest);
        assert EventsByLines([], Lines(s), env) == EventsByLines([], Lines(rest), env);
      } else {
        assert ([p] + tail)[1..] == tail;
        assert EventsOf([p] + tail, env) == BlockEvents(p, env) + EventsOf(tail, env);
      }
  }

  // ---------------------------------------------------------------------------
  // What the read loop relies on

  /** Text cut at a block delimiter: the calls for the whole are those for the part before, then those for the part after. */
  lemma ChunkEventsAtBoundary(p: string, y: string, env: Env)
    ensures ChunkEvents(p + BlockDelimiter + y, env) == ChunkEvents(p, env) + ChunkEvents(y, env)
  {
    ChunkEventsByLines(p + BlockDelimiter + y, env);
    ChunkEventsByLines(p, env);
    ChunkEventsByLines(y, env);
    LinesAroundBoundary(p, y);
    EventsByLinesAround([], Lines(p), Lines(y), env);
  }

  /** A delimiter at the end of a chunk adds no call. */
  lemma ChunkEventsTrailingDelimiter(p: string, env: Env)
    ensures ChunkEvents(p + BlockDelimiter, env) == ChunkEvents(p, env)
  {
    ChunkEventsAtBoundary(p, [], env);
    assert p + BlockDelimiter + [] == p + BlockDelimiter;
    EmptyChunk(env);
  }

  /** Text that ends at a delimiter can be read apart from what follows it. */
  lemma ChunkEventsAppend(x: string, y: string, env: Env)
    requires AfterBoundary(x)
    ensures ChunkEvents(x + y, env) == ChunkEvents(x, env) + ChunkEvents(y, env)
  {
    if x == [] {
      assert x + y == y;
      EmptyChunk(env);
    } else {
      var p := x[..|x| - 2];
      assert x == p + BlockDelimiter;
      assert x + y == p + BlockDelimiter + y;
      ChunkEventsAtBoundary(p, y, env);
      ChunkEventsTrailingDelimiter(p, env);
    }
  }

  /** Whitespace-only text makes no call: none of its lines is a data line. */
  lemma BlankTextIsSilent(s: string, env: Env)
    requires AllWhitespace(s)
    ensures ChunkEvents(s, env) == []
  {
    ChunkEventsByLines(s, env);
    WhitespaceHasNoDataLine(s);
    SilentLines([], Lines(s), env);
  }

  lemma WhitespaceHasNoDataLine(s: string)
    requires AllWhitespace(s)
    ensures forall k :: 0 <= k < |Lines(s)| ==> !IsDataLine(Lines(s)[k])
  {
    SplitOnKeepsWhitespace(s, LineDelimiter);
    var lines := Lines(s);
    forall k | 0 <= k < |lines| ensures !IsDataLine(lines[k]) {
      WhitespaceIsNotDataLine(lines[k]);
    }
  }

  lemma WhitespaceIsNotDataLine(line: string)
    requires AllWhitespace(line)
    ensures !IsDataLine(line)
  {
    if |line| >= 5 {
      assert line[..5][0] == line[0];
    }
  }

  /** Lines none of which carries data make no call. */
  lemma {:induction false} SilentLines(current: seq<string>, rest: seq<string>, env: Env)
    requires forall i :: 0 <= i < |current| ==> !IsDataLine(current[i])
    requires forall i :: 0 <= i < |rest| ==> !IsDataLine(rest[i])
    ensures EventsByLines(current, rest, env) == []
    decreases |rest|
  {
    DataOfWithoutDataLines(current);
    if rest != [] {
      if rest[0] == "" {
        SilentLines([], rest[1..], env);
      } else {
        SilentLines(current + [rest[0]], rest[1..], env);
      }
    }
  }

  // ---------------------------------------------------------------------------
  // Properties of the format

  /** The calls for a chunk, spread over its blocks. */
  lemma {:induction false} EventsOfAppend(a: seq<string>, b: seq<string>, env: Env)
    ensures EventsOf(a + b, env) == EventsOf(a, env) + EventsOf(b, env)
    decreases |a|
  {
    if a == [] {
      assert a + b == b;
    } else {
      assert (a + b)[0] == a[0];
      assert (a + b)[1..] == a[1..] + b;
      EventsOfAppend(a[1..], b, env);
    }
  }

  /** The calls for the first n + 1 blocks: those for the first n, then those for block n. */
  lemma EventsOfPrefix(blocks: seq<string>, n: nat, env: Env)
    requires n < |blocks|
    ensures EventsOf(blocks[..n + 1], env) == EventsOf(blocks[..n], env) + BlockEvents(blocks[n], env)
  {
    var block := blocks[n];
    EventsOfAppend(blocks[..n], [block], env);
    assert [block][1..] == [];
    assert EventsOf([block], env) == BlockEvents(block, env) + EventsOf([], env);
    assert blocks[..n + 1] == blocks[..n] + [block];
  }

  /** A newline at the end of a chunk adds no call: it only ends the last line. */
  lemma ChunkEventsTrailingNewline(p: string, env: Env)
    ensures ChunkEvents(p + LineDelimiter, env) == ChunkEvents(p, env)
  {
    assert p + LineDelimiter == p + ['\n'] + [];
    SplitOnAround(p, '\n', []);
    EmptyChunk(env);
    ChunkEventsByLines(p + LineDelimiter, env);
    ChunkEventsByLines(p, env);
    var none: seq<string> := [];
    assert Lines(p) + [""] == Lines(p) + [""] + none;
    EventsByLinesAround([], Lines(p), none, env);
    assert EventsByLines([], none, env) == LinesEvents([], env) == [];
  }

  /** A block whose data is not JSON costs one onError and leaves the blocks around it as they were. */
  lemma MalformedBlockIsolated(before: string, bad: string, after: string, env: Env)
    requires !Contains(bad, BlockDelimiter)
    requires DataOf(Lines(bad)) != "" && env.jsonParse(DataOf(Lines(bad))).None?
    ensures ChunkEvents(before + BlockDelimiter + bad + BlockDelimiter + after, env)
         == ChunkEvents(before, env) + ErrorLog(InvalidJson, env) + ChunkEvents(after, env)
  {
    var tail := bad + BlockDelimiter + after;
    AroundMiddle(before, bad, after);
    ChunkEventsAtBoundary(before, tail, env);
    ChunkEventsAtBoundary(bad, after, env);
    MalformedBlockEvents(bad, env);
    AppendAssociates(ChunkEvents(before, env), ErrorLog(InvalidJson, env), ChunkEvents(after, env));
  }

  /** A lone block whose data is not JSON makes one onError. */
  lemma MalformedBlockEvents(bad: string, env: Env)
    requires !Contains(bad, BlockDelimiter)
    requires DataOf(Lines(bad)) != "" && env.jsonParse(DataOf(Lines(bad))).None?
    ensures ChunkEvents(bad, env) == ErrorLog(InvalidJson, env)
  {
    ChunkEventsByLines(bad, env);
    BlockEventsByLines(bad, env);
  }

  lemma AroundMiddle(before: string, middle: string, after: string)
    ensures before + BlockDelimiter + middle + BlockDelimiter + after
         == before + BlockDelimiter + (middle + BlockDelimiter + after)
  {
  }

  /** A chunk none of whose lines is a data line makes no call, whatever its event lines say. */
  lemma NoDataNoCall(chunk: string, env: Env)
    requires forall k :: 0 <= k < |Lines(chunk)| ==> !IsDataLine(Lines(chunk)[k])
    ensures ChunkEvents(chunk, env) == []
  {
    ChunkEventsByLines(chunk, env);
    SilentLines([], Lines(chunk), env);
  }

  /** Text with no newline is a single line. */
  lemma OneLine(s: string)
    requires '\n' !in s
    ensures Lines(s) == [s]
  {
    forall i | 0 <= i < |s| ensures !OccursAt(s, LineDelimiter, i) {
      assert s[i..i + 1][0] == s[i];
    }
    assert IndexOf(s, LineDelimiter) == None;
  }

  function EventLine(name: string): string { "event: " + name }
  function DataLine(payload: string): string { "data: " + payload }

  /** The block the server sends for one event: an event line, then one data line. */
  function EventBlock(name: string, payload: string): string {
    EventLine(name) + LineDelimiter + DataLine(payload)
  }

  lemma EventLineReads(name: string)
    requires IsTrimmed(name) && '\n' !in name
    ensures IsEventLine(EventLine(name)) && !IsDataLine(EventLine(name))
    ensures EventValue(EventLine(name)) == name
    ensures Lines(EventLine(name)) == [EventLine(name)]
  {
    var e := EventLine(name);
    assert e[..6] == "event:" && e[6..] == [' '] + name;
    assert e[0] == 'e';
    assert '\n' !in e;
    OneLine(e);
    TrimAfterSpace(name);
  }

  lemma DataLineReads(payload: string)
    requires IsTrimmed(payload) && '\n' !in payload
    ensures IsDataLine(DataLine(payload)) && !IsEventLine(DataLine(payload))
    ensures DataValue(DataLine(payload)) == payload
    ensures Lines(DataLine(payload)) == [DataLine(payload)]
  {
    var d := DataLine(payload);
    assert d[..5] == "data:" && d[5..] == [' '] + payload;
    assert d[0] == 'd';
    assert '\n' !in d;
    OneLine(d);
    TrimAfterSpace(payload);
  }

  /** The lines of an event block are its event line and its data line. */
  lemma EventBlockLines(name: string, payload: string)
    requires IsTrimmed(name) && IsTrimmed(payload)
    requires '\n' !in name && '\n' !in payload
    ensures Lines(EventBlock(name, payload)) == [EventLine(name), DataLine(payload)]
  {
    var e := EventLine(name);
    var d := DataLine(payload);
    EventLineReads(name);
    DataLineReads(payload);
    assert EventBlock(name, payload) == e + ['\n'] + d;
    SplitOnAround(e, '\n', d);
  }

  /** An event line followed by a data line: the name is the first's value, the data the second's. */
  lemma EventThenData(e: string, d: string)
    requires IsEventLine(e) && !IsDataLine(e) && IsDataLine(d) && !IsEventLine(d)
    ensures NameOf([e, d]) == EventValue(e) && DataOf([e, d]) == DataValue(d)
  {
    var lines := [e, d];
    assert lines[..1] == [e] && [e][..0] == [];
    assert DataOf([e]) == "";
    assert DataOf(lines) == DataOf([e]) + DataValue(d);
  }

  /** An event block's name and data are the ones it was built from. */
  lemma EventBlockReads(name: string, payload: string)
    requires IsTrimmed(name) && IsTrimmed(payload)
    requires '\n' !in name && '\n' !in payload
    ensures NameOf(Lines(EventBlock(name, payload))) == name
    ensures DataOf(Lines(EventBlock(name, payload))) == payload
    ensures BlankOnlyAtEnd(Lines(EventBlock(name, payload)))
  {
    var e := EventLine(name);
    var d := DataLine(payload);
    EventLineReads(name);
    DataLineReads(payload);
    EventBlockLines(name, payload);
    EventThenData(e, d);
    FirstLineNotBlank(e, d);
  }

  lemma FirstLineNotBlank(e: string, d: string)
    requires IsEventLine(e)
    ensures BlankOnlyAtEnd([e, d])
  {
    assert |e| >= 6;
  }

  /**
   * An event block makes exactly the call Dispatch gives for its name and
   * payload, whether or not the delimiter after it has arrived.
   */
  lemma OneEventBlock(name: string, payload: string, env: Env)
    requires IsTrimmed(name) && IsTrimmed(payload)
    requires '\n' !in name && '\n' !in payload
    ensures ChunkEvents(EventBlock(name, payload), env) == Dispatch(name, payload, env)
    ensures ChunkEvents(EventBlock(name, payload) + BlockDelimiter, env) == Dispatch(name, payload, env)
  {
    var block := EventBlock(name, payload);
    var lines := Lines(block);
    EventBlockReads(name, payload);
    ReadBlockByLines([], lines, env);
    assert [] + lines == lines;
    ChunkEventsByLines(block, env);
    ChunkEventsTrailingDelimiter(block, env);
  }

  /** An event line with no data line after it makes no call. */
  lemma EventWithoutDataIsSkipped(name: string, env: Env)
    requires '\n' !in name
    ensures ChunkEvents(EventLine(name) + BlockDelimiter, env) == []
  {
    var e := EventLine(name);
    assert '\n' !in e;
    OneLine(e);
    assert e[0] == 'e';
    NoDataNoCall(e, env);
    ChunkEventsTrailingDelimiter(e, env);
  }

  /** The names the server uses are single trimmed words. */
  lemma PlainNames()
    ensures IsTrimmed("token") && '\n' !in "token"
    ensures IsTrimmed("done") && '\n' !in "done"
  {
  }

  /** A token event as the server sends it: one onToken call with the content its payload carries. */
  lemma TokenEvent(payload: string, text: string, env: Env)
    requires payload != "" && IsTrimmed(payload) && '\n' !in payload
    requires env.jsonParse(payload) == Some(JObject(map["content" := JString(text)]))
    ensures ChunkEvents(EventBlock("token", payload) + BlockDelimiter, env) == [Token(JString(text))]
  {
    PlainNames();
    OneEventBlock("token", payload, env);
  }

  /** A token event whose payload has no content, or a null one, delivers the empty string. */
  lemma TokenEventWithoutContent(payload: string, value: Json, env: Env)
    requires payload != "" && IsTrimmed(payload) && '\n' !in payload
    requires env.jsonParse(payload) == Some(value) && value != JNull
    requires !(value.JObject? && HasValue(value.fields, "content"))
    ensures ChunkEvents(EventBlock("token", payload) + BlockDelimiter, env) == [Token(JString(""))]
  {
    PlainNames();
    OneEventBlock("token", payload, env);
  }
}
