/** The chunk-buffering step of `createSSEConnection`
    (packages/common/src/axios/sse.ts): every chunk read from the response is
    appended to a text buffer, the buffer is split on "\n\n", the complete
    frames are handed on in order and the last piece becomes the new buffer.
    Chunks are taken as already-decoded text. */
module SseBuffer {
  import opened Wrappers
  import opened Text
  import opened SseFrame

  const FrameSeparator: string := "\n\n"

  /** The frames a step hands on, and the buffer it keeps */
  datatype Buffered = Buffered(frames: seq<string>, buffer: string)

  /** `buffer += chunk; messages = buffer.split("\n\n"); buffer = messages.pop() || ""`.
      (`pop` returns the last piece, and `"" || ""` is `""`, so the new buffer
      is the last piece in every case.) */
  function FeedChunk(buffer: string, chunk: string): Buffered {
    var messages := Split(buffer + chunk, FrameSeparator);
    Buffered(Init(messages), Last(messages))
  }

  /** One step loses and invents nothing: joining the frames and the new
      buffer back with the separator gives exactly the old buffer followed by
      the chunk, and neither the frames nor the kept buffer contain a separator */
  lemma FeedChunkSpec(buffer: string, chunk: string)
    ensures var r := FeedChunk(buffer, chunk);
            && Join(r.frames + [r.buffer], FrameSeparator) == buffer + chunk
            && !Contains(r.buffer, FrameSeparator)
            && forall i :: 0 <= i < |r.frames| ==> !Contains(r.frames[i], FrameSeparator)
  {
    var messages := Split(buffer + chunk, FrameSeparator);
    SplitJoin(buffer + chunk, FrameSeparator);
    SplitPiecesClean(buffer + chunk, FrameSeparator);
    assert messages == Init(messages) + [Last(messages)];
  }

  /** Feeding the chunks one after the other, collecting the frames in order */
  function FeedAll(buffer: string, chunks: seq<string>): Buffered
    decreases |chunks|
  {
    if |chunks| == 0 then Buffered([], buffer)
    else
      var first := FeedChunk(buffer, chunks[0]);
      var rest := FeedAll(first.buffer, chunks[1..]);
      Buffered(first.frames + rest.frames, rest.buffer)
  }

  function Concat(chunks: seq<string>): string {
    if |chunks| == 0 then "" else chunks[0] + Concat(chunks[1..])
  }

  /** Chunking does not matter: however the stream is cut into chunks, the
      frames handed on and the final buffer are those of one single chunk
      holding the whole text. The starting buffer is one a previous step
      kept (initially ""), so it holds no separator. */
  lemma {:induction false} ChunkingInvariance(buffer: string, chunks: seq<string>)
    requires !Contains(buffer, FrameSeparator)
    ensures FeedAll(buffer, chunks) == FeedChunk(buffer, Concat(chunks))
    decreases |chunks|
  {
    if |chunks| == 0 {
      assert buffer + "" == buffer;
      IndexOfSpec(buffer, FrameSeparator);
    } else {
      var first := FeedChunk(buffer, chunks[0]);
      KeptBufferHasNoSeparator(buffer, chunks[0]);
      ChunkingInvariance(first.buffer, chunks[1..]);
      FeedChunkAppend(buffer, chunks[0], Concat(chunks[1..]));
    }
  }

  lemma KeptBufferHasNoSeparator(buffer: string, chunk: string)
    ensures !Contains(FeedChunk(buffer, chunk).buffer, FrameSeparator)
  {
    SplitPiecesClean(buffer + chunk, FrameSeparator);
  }

  /** Feeding `c + more` at once equals feeding `c`, then `more` */
  lemma FeedChunkAppend(buffer: string, c: string, more: string)
    ensures var first := FeedChunk(buffer, c);
            var second := FeedChunk(first.buffer, more);
            FeedChunk(buffer, c + more) == Buffered(first.frames + second.frames, second.buffer)
  {
    var s1 := Split(buffer + c, FrameSeparator);
    SplitAppend(buffer + c, more, FrameSeparator);
    assert buffer + (c + more) == (buffer + c) + more;
    var tail := Split(Last(s1) + more, FrameSeparator);
    assert Init(Init(s1) + tail) == Init(s1) + Init(tail);
  }

  /** Two chunks give what their concatenation gives */
  lemma TwoChunks(buffer: string, s1: string, s2: string)
    requires !Contains(buffer, FrameSeparator)
    ensures var one := FeedChunk(buffer, s1);
            var two := FeedChunk(one.buffer, s2);
            one.frames + two.frames == FeedChunk(buffer, s1 + s2).frames
            && two.buffer == FeedChunk(buffer, s1 + s2).buffer
  {
    ChunkingInvariance(buffer, [s1, s2]);
    assert Concat([s1, s2]) == s1 + s2 by {
      assert Concat([s2]) == s2 + "";
    }
    assert [s1, s2][1..] == [s2];
    assert FeedAll(FeedChunk(buffer, s1).buffer, [s2]).frames == FeedChunk(FeedChunk(buffer, s1).buffer, s2).frames + [];
  }

  /** The events the inner `for (const message of messages)` loop hands to
      `onMessage`: frames are taken in order, white-space-only frames are
      skipped and frames that parse to no event are dropped */
  function Deliver(frames: seq<string>): seq<MessageEvent> {
    if |frames| == 0 then []
    else
      var here := if !IsBlank(frames[0]) then ParseSSEMessage(frames[0]) else None;
      (if here.Some? then [here.value] else []) + Deliver(frames[1..])
  }

  /** The events of the frames, parsed one by one with no white-space test */
  function ParsedEvents(frames: seq<string>): seq<MessageEvent> {
    if |frames| == 0 then []
    else
      var here := ParseSSEMessage(frames[0]);
      (if here.Some? then [here.value] else []) + ParsedEvents(frames[1..])
  }

  /** Skipping white-space-only frames changes nothing: such a frame has no
      data line, so it would parse to no event anyway */
  lemma {:induction false} DeliverIgnoresBlankTest(frames: seq<string>)
    ensures Deliver(frames) == ParsedEvents(frames)
  {
    if |frames| > 0 {
      if IsBlank(frames[0]) {
        BlankFrameHasNoEvent(frames[0]);
      }
      DeliverIgnoresBlankTest(frames[1..]);
    }
  }

  /** Events are handed on in arrival order: the events of two batches of
      frames are the events of the first followed by those of the second */
  lemma {:induction false} DeliverAppend(a: seq<string>, b: seq<string>)
    ensures Deliver(a + b) == Deliver(a) + Deliver(b)
  {
    if |a| == 0 {
      assert a + b == b;
    } else {
      assert (a + b)[0] == a[0];
      assert (a + b)[1..] == a[1..] + b;
      DeliverAppend(a[1..], b);
    }
  }

  /** Every delivered event comes from some frame, which has a data line */
  lemma {:induction false} DeliveredComeFromFrames(frames: seq<string>)
    ensures forall e :: e in Deliver(frames) ==> exists i :: 0 <= i < |frames| && ParseSSEMessage(frames[i]) == Some(e)
  {
    if |frames| > 0 {
      DeliveredComeFromFrames(frames[1..]);
      forall e | e in Deliver(frames)
        ensures exists i :: 0 <= i < |frames| && ParseSSEMessage(frames[i]) == Some(e)
      {
        var here := if !IsBlank(frames[0]) then ParseSSEMessage(frames[0]) else None;
        if here.Some? && e == here.value {
          assert ParseSSEMessage(frames[0]) == Some(e);
        } else {
          assert e in Deliver(frames[1..]);
          var j :| 0 <= j < |frames[1..]| && ParseSSEMessage(frames[1..][j]) == Some(e);
          assert ParseSSEMessage(frames[j + 1]) == Some(e);
        }
      }
    }
  }
}
