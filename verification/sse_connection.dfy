/** The lifecycle of `createSSEConnection` (packages/common/src/axios/sse.ts)
    as a sequential state machine. The promise chain (request, the read loop,
    the `catch`/`finally` guards) and the user's `close()` are stepped by
    signals, one at a time, and every step records the callbacks it invokes.
    The transport (the request, the abort signal, the stream reader and the
    text decoder) is outside: its outcomes are the signals. */
module SseConnection {
  import opened Wrappers
  import opened Text
  import opened SseFrame
  import opened SseBuffer

  /** Where the promise chain stands: the request is pending, the read loop is
      awaiting `reader.read()`, or the chain has settled */
  datatype Phase = Requesting | Reading | Finished

  /** `isClosed`, whether the abort controller fired, the chain's phase and
      the read loop's text buffer */
  datatype Connection = Connection(isClosed: bool, aborted: bool, phase: Phase, buffer: string)

  const Initial: Connection := Connection(false, false, Requesting, "")

  datatype Callback = OnOpen | OnMessage(event: MessageEvent) | OnError(error: string) | OnClose

  /** Which of the optional callbacks the caller supplied; a missing one is
      skipped by the optional call `cb?.()` */
  datatype Handlers = Handlers(onMessage: bool, onOpen: bool, onError: bool, onClose: bool)

  /** What can happen next: the user calls `close()`, the request settles
      either way, or the pending read yields a chunk, reports `done` or throws */
  datatype Signal =
    | Close
    | ResponseArrives
    | RequestFails(error: string)
    | ChunkRead(chunk: string)
    | ReadDone
    | ReadFails(error: string)

  datatype Step = Step(next: Connection, out: seq<Callback>)

  function Fire(h: Handlers, cb: Callback): seq<Callback> {
    match cb
    case OnOpen => if h.onOpen then [cb] else []
    case OnMessage(_) => if h.onMessage then [cb] else []
    case OnError(_) => if h.onError then [cb] else []
    case OnClose => if h.onClose then [cb] else []
  }

  function Messages(h: Handlers, events: seq<MessageEvent>): seq<Callback> {
    if |events| == 0 then [] else Fire(h, OnMessage(events[0])) + Messages(h, events[1..])
  }

  /** One signal. A signal that cannot happen in the current phase (a chunk
      before the response, a second response) leaves everything as it is. */
  function StepOn(h: Handlers, c: Connection, sig: Signal): Step {
    match sig
    case Close =>
      // close(): only the first call sets the flag, aborts and fires onClose
      if c.isClosed then Step(c, [])
      else Step(c.(isClosed := true, aborted := true), Fire(h, OnClose))
    case ResponseArrives =>
      if c.phase != Requesting then Step(c, [])
      else if c.isClosed then Step(c.(phase := Finished), [])
      else Step(c.(phase := Reading, buffer := ""), Fire(h, OnOpen))
    case RequestFails(e) =>
      // the outer catch
      if c.phase != Requesting then Step(c, [])
      else if c.isClosed then Step(c.(phase := Finished), [])
      else Step(c.(phase := Finished), Fire(h, OnError(e)) + Fire(h, OnClose))
    case ChunkRead(chunk) =>
      // the loop body runs to its end whatever close() did meanwhile; the
      // loop test then ends the loop, and the finally block fires nothing
      if c.phase != Reading then Step(c, [])
      else
        var b := FeedChunk(c.buffer, chunk);
        var phase := if c.isClosed then Finished else Reading;
        Step(c.(phase := phase, buffer := b.buffer), Messages(h, Deliver(b.frames)))
    case ReadDone =>
      // break; the buffer's remainder is dropped unparsed
      if c.phase != Reading then Step(c, [])
      else if c.isClosed then Step(c.(phase := Finished), [])
      else Step(c.(phase := Finished), Fire(h, OnClose))
    case ReadFails(e) =>
      // the inner catch, then the finally block
      if c.phase != Reading then Step(c, [])
      else if c.isClosed then Step(c.(phase := Finished), [])
      else Step(c.(phase := Finished), Fire(h, OnError(e)) + Fire(h, OnClose))
  }

  /** A whole trace of signals: the final state and every callback, in order */
  function Run(h: Handlers, c: Connection, sigs: seq<Signal>): Step
    decreases |sigs|
  {
    if |sigs| == 0 then Step(c, [])
    else
      var first := StepOn(h, c, sigs[0]);
      var rest := Run(h, first.next, sigs[1..]);
      Step(rest.next, first.out + rest.out)
  }

  /** The abort controller fires exactly when the connection is closed */
  predicate Valid(c: Connection) {
    c.aborted == c.isClosed
  }

  lemma {:induction false} RunKeepsValid(h: Handlers, c: Connection, sigs: seq<Signal>)
    requires Valid(c)
    ensures Valid(Run(h, c, sigs).next)
    ensures c.isClosed ==> Run(h, c, sigs).next.isClosed
    decreases |sigs|
  {
    if |sigs| > 0 {
      RunKeepsValid(h, StepOn(h, c, sigs[0]).next, sigs[1..]);
    }
  }

  /** close() is idempotent: the first call closes, aborts and fires onClose;
      a second call does nothing at all */
  lemma CloseIsIdempotent(h: Handlers, c: Connection)
    requires !c.isClosed
    ensures var first := StepOn(h, c, Close);
            && first.next.isClosed && first.next.aborted
            && first.out == (if h.onClose then [OnClose] else [])
            && StepOn(h, first.next, Close) == Step(first.next, [])
  {
  }

  predicate IsLifecycle(cb: Callback) {
    cb.OnOpen? || cb.OnError? || cb.OnClose?
  }

  /** Once closed, nothing the response, read or catch paths do invokes
      onOpen, onError or onClose; only onMessage for a chunk already read */
  lemma {:induction false} ClosedIsSilent(h: Handlers, c: Connection, sigs: seq<Signal>)
    requires c.isClosed
    ensures forall i :: 0 <= i < |Run(h, c, sigs).out| ==> !IsLifecycle(Run(h, c, sigs).out[i])
    decreases |sigs|
  {
    if |sigs| > 0 {
      var first := StepOn(h, c, sigs[0]);
      ClosedIsSilent(h, first.next, sigs[1..]);
      MessagesOnlyMessages(h, Deliver(FeedChunk(c.buffer, if sigs[0].ChunkRead? then sigs[0].chunk else "").frames));
      assert forall i :: 0 <= i < |first.out| ==> !IsLifecycle(first.out[i]);
    }
  }

  lemma {:induction false} MessagesOnlyMessages(h: Handlers, events: seq<MessageEvent>)
    ensures forall i :: 0 <= i < |Messages(h, events)| ==> Messages(h, events)[i].OnMessage?
  {
    if |events| > 0 {
      MessagesOnlyMessages(h, events[1..]);
    }
  }

  /** A natural end of the stream does not set `isClosed`, so a later close()
      fires onClose a second time */
  lemma EndThenCloseFiresTwice(h: Handlers, c: Connection)
    requires !c.isClosed && c.phase == Reading && h.onClose
    ensures Run(h, c, [ReadDone, Close]).out == [OnClose, OnClose]
  {
    var first := StepOn(h, c, ReadDone);
    assert [ReadDone, Close][1..] == [Close];
    assert Run(h, first.next, [Close]).out == [OnClose];
  }

  /** A failed request does not set `isClosed` either: onError, onClose, and
      onClose again from a later close() */
  lemma FailThenCloseFiresTwice(h: Handlers, e: string)
    requires h.onError && h.onClose
    ensures Run(h, Initial, [RequestFails(e), Close]).out == [OnError(e), OnClose, OnClose]
  {
    var first := StepOn(h, Initial, RequestFails(e));
    assert [RequestFails(e), Close][1..] == [Close];
    assert Run(h, first.next, [Close]).out == [OnClose];
  }

  function Count(out: seq<Callback>, p: Callback -> bool): nat {
    if |out| == 0 then 0 else (if p(out[0]) then 1 else 0) + Count(out[1..], p)
  }

  lemma {:induction false} CountAppend(a: seq<Callback>, b: seq<Callback>, p: Callback -> bool)
    ensures Count(a + b, p) == Count(a, p) + Count(b, p)
  {
    if |a| == 0 {
      assert a + b == b;
    } else {
      assert (a + b)[1..] == a[1..] + b;
      CountAppend(a[1..], b, p);
    }
  }

  lemma {:induction false} CountMessages(h: Handlers, events: seq<MessageEvent>, p: Callback -> bool)
    requires forall e :: !p(OnMessage(e))
    ensures Count(Messages(h, events), p) == 0
  {
    if |events| > 0 {
      CountMessages(h, events[1..], p);
      CountAppend(Fire(h, OnMessage(events[0])), Messages(h, events[1..]), p);
    }
  }

  function IsOpen(cb: Callback): bool { cb.OnOpen? }
  function IsError(cb: Callback): bool { cb.OnError? }
  function IsClose(cb: Callback): bool { cb.OnClose? }

  /** How many onOpen, onError and onClose calls a state can still produce */
  function OpensLeft(c: Connection): nat {
    if c.phase == Requesting && !c.isClosed then 1 else 0
  }

  function ErrorsLeft(c: Connection): nat {
    if c.phase != Finished && !c.isClosed then 1 else 0
  }

  function ClosesLeft(c: Connection): nat {
    (if c.isClosed then 0 else 1) + (if c.phase != Finished && !c.isClosed then 1 else 0)
  }

  /** One signal spends at most what it takes from each budget */
  lemma StepBudget(h: Handlers, c: Connection, sig: Signal)
    ensures var s := StepOn(h, c, sig);
            && Count(s.out, IsOpen) + OpensLeft(s.next) <= OpensLeft(c)
            && Count(s.out, IsError) + ErrorsLeft(s.next) <= ErrorsLeft(c)
            && Count(s.out, IsClose) + ClosesLeft(s.next) <= ClosesLeft(c)
  {
    StepOpens(h, c, sig);
    StepErrors(h, c, sig);
    StepCloses(h, c, sig);
  }

  /** What a step fires, apart from the messages of a chunk */
  function Lifecycle(h: Handlers, c: Connection, sig: Signal): seq<Callback> {
    match sig
    case ChunkRead(_) => []
    case _ => StepOn(h, c, sig).out
  }

  /** The callbacks of a step are its messages and its lifecycle callbacks,
      and `p` counts no message */
  lemma StepCount(h: Handlers, c: Connection, sig: Signal, p: Callback -> bool)
    requires forall e :: !p(OnMessage(e))
    ensures Count(StepOn(h, c, sig).out, p) == Count(Lifecycle(h, c, sig), p)
  {
    match sig
    case ChunkRead(chunk) =>
      if c.phase == Reading {
        CountMessages(h, Deliver(FeedChunk(c.buffer, chunk).frames), p);
      }
    case _ =>
  }

  lemma StepOpens(h: Handlers, c: Connection, sig: Signal)
    ensures var s := StepOn(h, c, sig);
            Count(s.out, IsOpen) + OpensLeft(s.next) <= OpensLeft(c)
  {
    StepCount(h, c, sig, IsOpen);
    if sig.RequestFails? || sig.ReadFails? {
      CountAppend(Fire(h, OnError(sig.error)), Fire(h, OnClose), IsOpen);
    }
  }

  lemma StepErrors(h: Handlers, c: Connection, sig: Signal)
    ensures var s := StepOn(h, c, sig);
            Count(s.out, IsError) + ErrorsLeft(s.next) <= ErrorsLeft(c)
  {
    StepCount(h, c, sig, IsError);
    if sig.RequestFails? || sig.ReadFails? {
      CountAppend(Fire(h, OnError(sig.error)), Fire(h, OnClose), IsError);
    }
  }

  lemma StepCloses(h: Handlers, c: Connection, sig: Signal)
    ensures var s := StepOn(h, c, sig);
            Count(s.out, IsClose) + ClosesLeft(s.next) <= ClosesLeft(c)
  {
    StepCount(h, c, sig, IsClose);
    match sig
    case RequestFails(e) =>
      CountAppend(Fire(h, OnError(e)), Fire(h, OnClose), IsClose);
    case ReadFails(e) =>
      CountAppend(Fire(h, OnError(e)), Fire(h, OnClose), IsClose);
    case _ =>
  }

  /** Over any trace from a fresh connection, onOpen and onError fire at most
      once each, and onClose at most twice: once from the response path and
      once from close() */
  lemma {:induction false} RunBudget(h: Handlers, c: Connection, sigs: seq<Signal>)
    ensures var r := Run(h, c, sigs);
            && Count(r.out, IsOpen) <= OpensLeft(c)
            && Count(r.out, IsError) <= ErrorsLeft(c)
            && Count(r.out, IsClose) <= ClosesLeft(c)
    decreases |sigs|
  {
    if |sigs| > 0 {
      var first := StepOn(h, c, sigs[0]);
      var rest := Run(h, first.next, sigs[1..]);
      StepBudget(h, c, sigs[0]);
      RunBudget(h, first.next, sigs[1..]);
      CountAppend(first.out, rest.out, IsOpen);
      CountAppend(first.out, rest.out, IsError);
      CountAppend(first.out, rest.out, IsClose);
    }
  }

  lemma FreshConnectionBudget(h: Handlers, sigs: seq<Signal>)
    ensures var r := Run(h, Initial, sigs);
            Count(r.out, IsOpen) <= 1 && Count(r.out, IsError) <= 1 && Count(r.out, IsClose) <= 2
  {
    RunBudget(h, Initial, sigs);
  }

  function Reads(chunks: seq<string>): seq<Signal>
    ensures |Reads(chunks)| == |chunks|
  {
    if |chunks| == 0 then [] else [ChunkRead(chunks[0])] + Reads(chunks[1..])
  }

  /** While the connection stays open, reading chunks delivers exactly the
      events of the frames that buffering the chunks emits, in order, and
      keeps the buffer buffering leaves */
  lemma {:induction false} ReadsDeliverFrames(h: Handlers, c: Connection, chunks: seq<string>)
    requires c.phase == Reading && !c.isClosed
    ensures var r := Run(h, c, Reads(chunks));
            var fed := FeedAll(c.buffer, chunks);
            && r.out == Messages(h, Deliver(fed.frames))
            && r.next == c.(buffer := fed.buffer)
    decreases |chunks|
  {
    if |chunks| > 0 {
      var b := FeedChunk(c.buffer, chunks[0]);
      var c1 := c.(buffer := b.buffer);
      assert Reads(chunks)[1..] == Reads(chunks[1..]);
      ReadsDeliverFrames(h, c1, chunks[1..]);
      DeliverAppend(b.frames, FeedAll(b.buffer, chunks[1..]).frames);
      MessagesAppend(h, Deliver(b.frames), Deliver(FeedAll(b.buffer, chunks[1..]).frames));
    }
  }

  lemma {:induction false} MessagesAppend(h: Handlers, a: seq<MessageEvent>, b: seq<MessageEvent>)
    ensures Messages(h, a + b) == Messages(h, a) + Messages(h, b)
  {
    if |a| == 0 {
      assert a + b == b;
    } else {
      assert (a + b)[1..] == a[1..] + b;
      MessagesAppend(h, a[1..], b);
    }
  }

  /** From the moment the response arrives, the events delivered by a stream
      of chunks do not depend on how the stream was cut: they are the events
      of the whole text's complete frames. The trailing piece without a
      closing "\n\n" stays in the buffer, and ending the stream drops it: a
      final `done` delivers nothing more and fires onClose. */
  lemma OpenedStreamDelivers(h: Handlers, chunks: seq<string>)
    ensures var r := Run(h, Initial, [ResponseArrives] + Reads(chunks) + [ReadDone]);
            var whole := FeedChunk("", Concat(chunks));
            r.out == Fire(h, OnOpen) + Messages(h, Deliver(whole.frames)) + Fire(h, OnClose)
  {
    var rest := Reads(chunks) + [ReadDone];
    AppendAssoc([ResponseArrives], Reads(chunks), [ReadDone]);
    OpenStep(h, rest);
    RunAppend(h, Opened, Reads(chunks), [ReadDone]);
    ReadsDeliverFrames(h, Opened, chunks);
    IndexOfSpec("", SseBuffer.FrameSeparator);
    ChunkingInvariance("", chunks);
    DoneCloses(h, Run(h, Opened, Reads(chunks)).next);
    AppendAssoc(Fire(h, OnOpen), Messages(h, Deliver(FeedChunk("", Concat(chunks)).frames)), Fire(h, OnClose));
  }

  /** The connection right after the response arrives */
  const Opened: Connection := Connection(false, false, Reading, "")

  lemma OpenStep(h: Handlers, rest: seq<Signal>)
    ensures var r := Run(h, Opened, rest);
            Run(h, Initial, [ResponseArrives] + rest) == Step(r.next, Fire(h, OnOpen) + r.out)
  {
    TailOfAppend([ResponseArrives], rest);
  }

  lemma DoneCloses(h: Handlers, c: Connection)
    requires c.phase == Reading && !c.isClosed
    ensures Run(h, c, [ReadDone]).out == Fire(h, OnClose)
  {
    assert [ReadDone][1..] == [];
  }

  lemma {:induction false} RunAppend(h: Handlers, c: Connection, a: seq<Signal>, b: seq<Signal>)
    ensures var ra := Run(h, c, a);
            var rb := Run(h, ra.next, b);
            Run(h, c, a + b) == Step(rb.next, ra.out + rb.out)
    decreases |a|
  {
    if |a| == 0 {
      EmptyFirst(a, b);
      EmptyFirst(Run(h, c, a).out, Run(h, c, b).out);
    } else {
      var first := StepOn(h, c, a[0]);
      TailOfAppend(a, b);
      RunAppend(h, first.next, a[1..], b);
      var ra := Run(h, first.next, a[1..]);
      AppendAssoc(first.out, ra.out, Run(h, ra.next, b).out);
    }
  }
}
