/** The dev watcher's logger: a stream arriving in chunks, logged line by line. */
module ProxyLogging {
  import opened Text

  /** Pieces between newlines of a text already split once: the reference for what gets logged. */
  function Lines(text: string): seq<string> {
    Split(text, '\n')
  }

  function DropEmptyEnd(pieces: seq<string>): seq<string>
    requires pieces != []
  {
    if pieces[|pieces| - 1] == "" then pieces[..|pieces| - 1] else pieces
  }

  function Concat(chunks: seq<string>): string {
    if chunks == [] then "" else Concat(chunks[..|chunks| - 1]) + chunks[|chunks| - 1]
  }

  lemma ConcatMeans(chunks: seq<string>, chunk: string)
    ensures Concat([]) == "" && Concat(chunks + [chunk]) == Concat(chunks) + chunk
  {
    assert (chunks + [chunk])[..|chunks|] == chunks;
  }

  /** Each line as it stood in the stream, with its newline. */
  function Unsplit(lines: seq<string>): string {
    if lines == [] then "" else lines[0] + "\n" + Unsplit(lines[1..])
  }

  lemma {:induction false} UnsplitAppend(lines: seq<string>, line: string)
    ensures Unsplit(lines + [line]) == Unsplit(lines) + line + "\n"
  {
    if lines == [] {
      assert lines + [line] == [line] && [line][1..] == [];
    } else {
      UnsplitAppend(lines[1..], line);
      assert (lines + [line])[1..] == lines[1..] + [line];
    }
  }

  lemma FirstLine(line: string, tail: string)
    requires Free(line, '\n')
    ensures Lines(line + "\n" + tail) == [line] + Lines(tail)
  {
    var text := line + "\n" + tail;
    assert text == line + ("\n" + tail);
    IndexOfAppend(line, "\n" + tail, '\n');
    assert IndexOf(line, '\n') == |line| && ("\n" + tail)[0] == '\n';
    assert text[..|line|] == line && text[|line| + 1..] == tail;
  }

  lemma UnfinishedLine(rest: string)
    requires Free(rest, '\n')
    ensures Lines(Unsplit([]) + rest) == [] + [rest]
  {
    assert Unsplit([]) + rest == rest;
    assert IndexOf(rest, '\n') == |rest|;
  }

  lemma UnsplitHead(lines: seq<string>, rest: string)
    requires lines != []
    ensures Unsplit(lines) + rest == lines[0] + "\n" + (Unsplit(lines[1..]) + rest)
  {
    Regroup(lines[0] + "\n", Unsplit(lines[1..]), rest);
  }

  /** Complete lines followed by an unfinished one split into exactly those. */
  lemma {:induction false} LinesOfUnsplit(lines: seq<string>, rest: string)
    requires (forall line | line in lines :: Free(line, '\n')) && Free(rest, '\n')
    ensures Lines(Unsplit(lines) + rest) == lines + [rest]
  {
    hide Lines, Unsplit, Free;
    if lines == [] {
      UnfinishedLine(rest);
    } else {
      assert lines[0] in lines && forall line | line in lines[1..] :: line in lines;
      LinesOfUnsplit(lines[1..], rest);
      UnsplitHead(lines, rest);
      FirstLine(lines[0], Unsplit(lines[1..]) + rest);
      assert [lines[0]] + (lines[1..] + [rest]) == lines + [rest];
    }
  }

  /** Logged lines and an unfinished one make up a text in one way only. */
  ghost predicate Accounts(logged: seq<string>, buffer: string, text: string) {
    && (forall line | line in logged :: Free(line, '\n'))
    && Unsplit(logged) + buffer == text
  }

  lemma ChunkAccounts(logged: seq<string>, buffer: string, text: string, chunk: string)
    requires Accounts(logged, buffer, text)
    ensures Accounts(logged, buffer + chunk, text + chunk)
  {
    Regroup(Unsplit(logged), buffer, chunk);
  }

  lemma LineAccounts(logged: seq<string>, buffer: string, text: string)
    requires var end := IndexOf(buffer, '\n'); Accounts(logged, buffer, text) && end < |buffer|
    ensures var end := IndexOf(buffer, '\n'); Accounts(logged + [buffer[..end]], buffer[end + 1..], text)
  {
    var end := IndexOf(buffer, '\n');
    var line, rest := buffer[..end], buffer[end + 1..];
    UnsplitAppend(logged, line);
    assert buffer == line + "\n" + rest;
    Regroup(line, "\n", rest);
    Regroup(Unsplit(logged), line, "\n" + rest);
    Regroup(Unsplit(logged) + line, "\n", rest);
  }

  lemma AccountedLines(logged: seq<string>, buffer: string, text: string)
    requires Accounts(logged, buffer, text) && Free(buffer, '\n')
    ensures Lines(text) == logged + [buffer]
  {
    LinesOfUnsplit(logged, buffer);
  }

  class ProxyLogger {
    var buffer: string
    /** The lines passed to the log callback. */
    var log: seq<string>
    /** The log before the current text, the lines of the current text, and that text so far. */
    ghost var past: seq<string>
    ghost var current: seq<string>
    ghost var received: string

    /** Between events: logged lines plus buffer are all input so far, and the buffer holds no newline. */
    ghost predicate Valid()
      reads this
    {
      log == past + current && Accounts(current, buffer, received) && Free(buffer, '\n')
    }

    constructor ()
      ensures Valid() && received == "" && log == []
    {
      buffer, log, past, current, received := "", [], [], [], "";
    }

    /** The 'data' listener. */
    method OnData(chunk: string)
      requires Valid()
      modifies this
      ensures Valid() && received == old(received) + chunk && past == old(past)
      ensures log + [buffer] == past + Lines(received)
      ensures old(log) <= log
    {
      hide Accounts, Lines;
      ChunkAccounts(current, buffer, received, chunk);
      buffer := buffer + chunk;
      received := received + chunk;
      var lineEnd := IndexOf(buffer, '\n');
      while lineEnd < |buffer|
        invariant lineEnd == IndexOf(buffer, '\n')
        invariant log == past + current && Accounts(current, buffer, received)
        invariant received == old(received) + chunk && past == old(past) && old(log) <= log
        decreases |buffer|
      {
        LineAccounts(current, buffer, received);
        var line := buffer[..lineEnd];
        log := log + [line];
        current := current + [line];
        buffer := buffer[lineEnd + 1..];
        lineEnd := IndexOf(buffer, '\n');
      }
      AccountedLines(current, buffer, received);
      Regroup(past, current, [buffer]);
    }

    /** The 'end' listener: an unfinished last line is logged too, an empty one is not. */
    method OnEnd()
      requires Valid()
      modifies this
      ensures Valid() && received == "" && buffer == ""
      ensures log == old(past) + DropEmptyEnd(Lines(old(received))) && past == log
    {
      AccountedLines(current, buffer, received);
      hide Accounts, Lines;
      assert (current + [buffer])[..|current|] == current;
      if |buffer| > 0 {
        log := log + [buffer];
        buffer := "";
      }
      past, current, received := log, [], "";
    }
  }

  /** However a stream is cut, what is logged by its end is the newline split of the whole text. */
  method LogStream(chunks: seq<string>) returns (lines: seq<string>)
    ensures lines == DropEmptyEnd(Lines(Concat(chunks)))
    ensures var pieces := Split(Concat(chunks), '\n');
      var last := |pieces| - 1;
      lines == if pieces[last] == "" then pieces[..last] else pieces
  {
    var logger := new ProxyLogger();
    assert logger.past == [];
    var i := 0;
    while i < |chunks|
      invariant 0 <= i <= |chunks| && logger.Valid() && fresh(logger)
      invariant logger.received == Concat(chunks[..i]) && logger.past == []
    {
      logger.OnData(chunks[i]);
      assert chunks[..i + 1][..i] == chunks[..i];
      i := i + 1;
    }
    assert chunks[..i] == chunks;
    logger.OnEnd();
    lines := logger.log;
  }
}
