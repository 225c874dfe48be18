/**
 * streamMessage in src/api/chat.api.ts: the body of the streaming response is
 * read piece by piece into a buffer; whenever the buffer holds a block delimiter,
 * everything before the last one is parsed and the rest is kept for later.
 */
module ChatApi {
  import opened JsValue
  import opened Wrappers
  import opened JsString
  import opened Sequences
  import opened SseFormat

  /** What one call to streamMessage has read but not yet parsed, and the handler calls made so far. */
  class StreamSession {
    const env: Env
    var buffer: string
    var log: seq<Callback>

    /** The buffer never holds a whole delimiter: the read loop parses up to the last one. */
    ghost predicate Valid()
      reads this
    {
      !Contains(buffer, BlockDelimiter)
    }

    constructor(env: Env)
      ensures this.env == env && buffer == [] && log == []
      ensures Valid()
    {
      this.env := env;
      buffer := [];
      log := [];
    }

    /** The lines of one block, read in order: the last event line names it, the data lines' values are joined. */
    static method ReadBlock(lines: seq<string>) returns (name: string, data: string)
      ensures name == NameOf(lines) && data == DataOf(lines)
    {
      name := DefaultEventName;
      data := "";
      var j := 0;
      while j < |lines|
        invariant 0 <= j <= |lines|
        invariant name == NameOf(lines[..j]) && data == DataOf(lines[..j])
      {
        var line := lines[j];
        ghost var read := lines[..j + 1];
        assert read[..j] == lines[..j] && read[j] == line;
        EventLineIsNotDataLine(line);
        if IsEventLine(line) {
          name := EventValue(line);
        } else if IsDataLine(line) {
          data := data + DataValue(line);
        }
        j := j + 1;
      }
      assert lines[..|lines|] == lines;
    }

    /** One block of parseSseChunk: its name and data are read, and a block with data is dispatched. */
    method ParseBlock(block: string)
      modifies this`log
      ensures log == old(log) + BlockEvents(block, env)
    {
      var name, data := ReadBlock(Lines(block));
      if data == "" {
        return;
      }
      log := log + Dispatch(name, data, env);
    }

    /** parseSseChunk: the calls for `chunk` are made, block after block. */
    method ParseChunk(chunk: string)
      modifies this`log
      ensures log == old(log) + ChunkEvents(chunk, env)
    {
      var blocks := Blocks(chunk);
      var n := 0;
      while n < |blocks|
        invariant 0 <= n <= |blocks|
        invariant log == old(log) + EventsOf(blocks[..n], env)
      {
        ParseBlock(blocks[n]);
        EventsOfPrefix(blocks, n, env);
        AppendAssociates(old(log), EventsOf(blocks[..n], env), BlockEvents(blocks[n], env));
        n := n + 1;
      }
      assert blocks[..|blocks|] == blocks;
    }

    /**
     * One read from the body: the text is appended to the buffer, and if the
     * buffer now holds a delimiter, the text before the last one is parsed and
     * only what follows it is kept.
     */
    method Receive(text: string)
      requires Valid()
      modifies this`buffer, this`log
      ensures Valid()
      ensures buffer == Kept(old(buffer) + text)
      ensures log == old(log) + ChunkEvents(ParsedBefore(old(buffer) + text), env)
    {
      buffer := buffer + text;
      SplitAtLastDelimiter(buffer);
      var boundary := LastIndexOf(buffer, BlockDelimiter);
      if boundary == -1 {
        EmptyChunk(env);
        return;
      }
      var chunk := buffer[..boundary];
      buffer := buffer[boundary + 2..];
      ParseChunk(chunk);
    }

    /**
     * The read loop over a whole body, from an empty buffer: the calls made are
     * those for the text before the last delimiter, and the calls for the text
     * left in the buffer complete those for the whole body.
     */
    method ReceiveAll(pieces: seq<string>)
      requires Valid() && buffer == [] && log == []
      modifies this`buffer, this`log
      ensures Valid()
      ensures log == ChunkEvents(ParsedBefore(Concat(pieces)), env)
      ensures log + ChunkEvents(buffer, env) == ChunkEvents(Concat(pieces), env)
    {
      ghost var consumed := "";
      EmptyChunk(env);
      var n := 0;
      while n < |pieces|
        invariant 0 <= n <= |pieces|
        invariant Valid()
        invariant consumed + buffer == Concat(pieces[..n])
        invariant AfterBoundary(consumed)
        invariant log == ChunkEvents(consumed, env)
      {
        var text := pieces[n];
        ghost var whole := buffer + text;
        ConcatStep(pieces, n);
        AppendAssociates(consumed, buffer, text);
        Receive(text);
        ReceiveStepText(consumed, whole);
        ReceiveStepEvents(consumed, whole, env);
        consumed := Consumed(consumed, whole);
        n := n + 1;
      }
      assert pieces[..n] == pieces;
      ConsumedIsParsedBefore(consumed, buffer, env);
      ChunkEventsAppend(consumed, buffer, env);
    }

    /** After the last read: what is left in the buffer is parsed unless it is only whitespace. */
    method Finish()
      modifies this`log
      ensures log == old(log) + ChunkEvents(buffer, env)
    {
      TrimFacts(buffer);
      if Trim(buffer) != [] {
        ParseChunk(buffer);
      } else {
        BlankTextIsSilent(buffer, env);
      }
    }
  }

  /** How reading the body ends. */
  datatype Ending = EndOfStream | ReadFailure

  /** What fetch gives: a rejection, or a response with its status, whether it has a body, and the body's text as read. */
  datatype Connection =
    | Unreachable
    | Answered(ok: bool, hasBody: bool, pieces: seq<string>, ending: Ending)

  /** The text of all pieces read, in order. */
  function Concat(pieces: seq<string>): string
  {
    if pieces == [] then "" else Concat(pieces[..|pieces| - 1]) + pieces[|pieces| - 1]
  }

  lemma ConcatStep(pieces: seq<string>, n: nat)
    requires n < |pieces|
    ensures Concat(pieces[..n + 1]) == Concat(pieces[..n]) + pieces[n]
  {
    assert pieces[..n + 1][..n] == pieces[..n];
  }

  /** The text before the last delimiter: what has been parsed once all of `text` has been read. */
  function ParsedBefore(text: string): string {
    var boundary := LastIndexOf(text, BlockDelimiter);
    if boundary == -1 then [] else text[..boundary]
  }

  /** The text after the last delimiter: what stays in the buffer. */
  function Kept(text: string): string {
    var boundary := LastIndexOf(text, BlockDelimiter);
    if boundary == -1 then text else text[boundary + 2..]
  }

  /**
   * Text is what comes before its last delimiter, that delimiter, and what
   * follows it, which holds no delimiter; text without a delimiter is all kept.
   */
  lemma SplitAtLastDelimiter(text: string)
    ensures LastIndexOf(text, BlockDelimiter) == -1 ==> ParsedBefore(text) == [] && Kept(text) == text
    ensures LastIndexOf(text, BlockDelimiter) != -1 ==> text == ParsedBefore(text) + BlockDelimiter + Kept(text)
    ensures !Contains(Kept(text), BlockDelimiter)
  {
    var boundary := LastIndexOf(text, BlockDelimiter);
    if boundary != -1 {
      AfterLastOccurrence(text, BlockDelimiter);
      SplitThree(text, boundary, boundary + 2);
    }
  }

  /** After the text up to a delimiter comes text without one: the last delimiter is that one or starts one character later. */
  lemma LastDelimiterAfter(p: string, rest: string)
    requires !Contains(rest, BlockDelimiter)
    ensures |p| <= LastIndexOf(p + BlockDelimiter + rest, BlockDelimiter) <= |p| + 1
    ensures LastIndexOf(p + BlockDelimiter + rest, BlockDelimiter) == |p| + 1 ==> rest != [] && rest[0] == '\n'
  {
    var whole := p + BlockDelimiter + rest;
    var last := LastIndexOf(whole, BlockDelimiter);
    assert whole[|p|..|p| + 2] == BlockDelimiter;
    assert OccursAt(whole, BlockDelimiter, |p|);
    var k := |p| + 2;
    assert whole[k..] == rest;
    OccursInSuffix(whole, BlockDelimiter, k);
    assert last < k;
    if last == |p| + 1 {
      assert whole[last..last + 2][1] == whole[k] == rest[0];
    }
  }

  /** Whatever the reads, the text consumed up to a delimiter has the calls of the text up to the last delimiter. */
  lemma ConsumedIsParsedBefore(consumed: string, rest: string, env: Env)
    requires AfterBoundary(consumed) && !Contains(rest, BlockDelimiter)
    ensures ChunkEvents(consumed, env) == ChunkEvents(ParsedBefore(consumed + rest), env)
  {
    if consumed == [] {
      assert consumed + rest == rest;
      EmptyChunk(env);
    } else {
      var p := consumed[..|consumed| - 2];
      var whole := consumed + rest;
      DelimiterPrefixes(consumed, rest);
      LastDelimiterAfter(p, rest);
      var last := LastIndexOf(whole, BlockDelimiter);
      assert ParsedBefore(whole) == whole[..last];
      ChunkEventsTrailingDelimiter(p, env);
      assert ChunkEvents(consumed, env) == ChunkEvents(p, env);
      if last == |p| {
        assert whole[..last] == p;
      } else {
        assert whole[..last] == p + LineDelimiter;
        ChunkEventsTrailingNewline(p, env);
      }
    }
  }

  /** Text ending in a delimiter, followed by more: its prefixes up to the delimiter and into it. */
  lemma DelimiterPrefixes(consumed: string, rest: string)
    requires |consumed| >= 2 && consumed[|consumed| - 2..] == BlockDelimiter
    ensures consumed == consumed[..|consumed| - 2] + BlockDelimiter
    ensures consumed + rest == consumed[..|consumed| - 2] + BlockDelimiter + rest
    ensures (consumed + rest)[..|consumed| - 2] == consumed[..|consumed| - 2]
    ensures (consumed + rest)[..|consumed| - 1] == consumed[..|consumed| - 2] + LineDelimiter
  {
    SplitThree(consumed, |consumed| - 2, |consumed|);
  }

  /** The text consumed once `whole` is in the buffer: up to and including its last delimiter, if any. */
  ghost function Consumed(consumed: string, whole: string): string {
    if LastIndexOf(whole, BlockDelimiter) == -1 then consumed
    else consumed + ParsedBefore(whole) + BlockDelimiter
  }

  /** One read keeps the read loop's invariant on text: the consumed text and the buffer make up all text read. */
  lemma ReceiveStepText(consumed: string, whole: string)
    requires AfterBoundary(consumed)
    ensures AfterBoundary(Consumed(consumed, whole))
    ensures Consumed(consumed, whole) + Kept(whole) == consumed + whole
  {
    SplitAtLastDelimiter(whole);
    if LastIndexOf(whole, BlockDelimiter) != -1 {
      var chunk := ParsedBefore(whole);
      var kept := Kept(whole);
      EndsWith(consumed + chunk, BlockDelimiter);
      AppendAssociates(consumed + chunk, BlockDelimiter, kept);
      AppendAssociates(consumed, chunk, BlockDelimiter + kept);
      AppendAssociates(chunk, BlockDelimiter, kept);
    }
  }

  /** One read keeps the read loop's invariant on calls: they are those of the consumed text. */
  lemma ReceiveStepEvents(consumed: string, whole: string, env: Env)
    requires AfterBoundary(consumed)
    ensures ChunkEvents(Consumed(consumed, whole), env) == ChunkEvents(consumed, env) + ChunkEvents(ParsedBefore(whole), env)
  {
    EmptyChunk(env);
    if LastIndexOf(whole, BlockDelimiter) != -1 {
      var chunk := ParsedBefore(whole);
      ChunkEventsAppend(consumed, chunk + BlockDelimiter, env);
      AppendAssociates(consumed, chunk, BlockDelimiter);
      ChunkEventsTrailingDelimiter(chunk, env);
    } else {
      assert ChunkEvents(consumed, env) + [] == ChunkEvents(consumed, env);
    }
  }

  /**
   * streamMessage, handler calls in order: one onError if fetch rejects or the
   * response cannot be streamed; otherwise the calls for the whole body text,
   * however it was split into reads, or, if a read fails, the calls for the
   * text up to the last delimiter followed by one onError.
   */
  method StreamMessage(conn: Connection, env: Env) returns (log: seq<Callback>)
    ensures conn.Unreachable? ==> log == ErrorLog(FetchRejected, env)
    ensures conn.Answered? && !(conn.ok && conn.hasBody) ==> log == ErrorLog(StartRejected, env)
    ensures conn.Answered? && conn.ok && conn.hasBody && conn.ending.EndOfStream? ==>
      log == ChunkEvents(Concat(conn.pieces), env)
    ensures conn.Answered? && conn.ok && conn.hasBody && conn.ending.ReadFailure? ==>
      log == ChunkEvents(ParsedBefore(Concat(conn.pieces)), env) + ErrorLog(ReadRejected, env)
  {
    if conn.Unreachable? {
      return ErrorLog(FetchRejected, env);
    }
    if !conn.ok || !conn.hasBody {
      return ErrorLog(StartRejected, env);
    }
    var session := new StreamSession(env);
    session.ReceiveAll(conn.pieces);
    if conn.ending.ReadFailure? {
      return session.log + ErrorLog(ReadRejected, env);
    }
    session.Finish();
    return session.log;
  }

  /** An event block whose data line is cut in two by the reads: the whole text is one event block. */
  lemma DataCutAcrossReads(name: string, head: string, tail: string, env: Env)
    requires IsTrimmed(name) && IsTrimmed(head + tail)
    requires '\n' !in name && '\n' !in head + tail
    ensures ChunkEvents(Concat([EventLine(name) + LineDelimiter + "data: " + head, tail + BlockDelimiter]), env)
         == Dispatch(name, head + tail, env)
  {
    var first := EventLine(name) + LineDelimiter + "data: " + head;
    var second := tail + BlockDelimiter;
    var pieces := [first, second];
    assert pieces[..1] == [first] && [first][..0] == [];
    assert Concat([first]) == first;
    assert Concat(pieces) == Concat([first]) + second;
    assert first + second == EventBlock(name, head + tail) + BlockDelimiter;
    OneEventBlock(name, head + tail, env);
  }

  /** A token whose JSON is cut in two by the reads is still delivered once, whole. */
  method SplitToken(head: string, tail: string, text: string, env: Env) returns (log: seq<Callback>)
    requires head + tail != "" && IsTrimmed(head + tail) && '\n' !in head + tail
    requires env.jsonParse(head + tail) == Some(JObject(map["content" := JString(text)]))
    ensures log == [Token(JString(text))]
  {
    var pieces := [EventLine("token") + LineDelimiter + "data: " + head, tail + BlockDelimiter];
    log := StreamMessage(Answered(true, true, pieces, EndOfStream), env);
    PlainNames();
    DataCutAcrossReads("token", head, tail, env);
  }

  /** A done event whose delimiter never arrives is still delivered when the body ends. */
  method UnterminatedDone(payload: string, env: Env) returns (log: seq<Callback>)
    requires payload != "" && IsTrimmed(payload) && '\n' !in payload && env.jsonParse(payload).Some?
    ensures log == [Done(env.jsonParse(payload).value)]
  {
    var only := EventBlock("done", payload);
    log := StreamMessage(Answered(true, true, [only], EndOfStream), env);
    assert [only][..0] == [];
    assert Concat([only]) == only;
    PlainNames();
    OneEventBlock("done", payload, env);
  }
}
