/** The three streaming loops of the client: `RequestAsynch` (one callback
    started per frame), `RequestAsync` (frames sent on a channel it creates,
    stoppable through a context) and `RequestAsync2` (frames sent on a
    channel the caller passes in). The response body is what the line reader
    returns, read after read; the sinks are sequences that grow. */
module Dispatch {
  import opened Wrappers
  import opened Framing

  /** A response body as `bufio.Reader.ReadBytes('\n')` cuts it: the lines
      it returns without an error, each ending in '\n', then the fragment it
      returns together with `io.EOF` or a read error. */
  datatype Body = Body(lines: seq<string>, tail: string)

  /** What one call of `ReadBytes('\n')` returns: the bytes read, and
      whether an error (end of stream included) came with them. */
  datatype ReadResult = ReadResult(chunk: string, failed: bool)

  /** The `cursor`-th read of the body. */
  function ReadBytes(body: Body, cursor: nat): ReadResult {
    if cursor < |body.lines| then ReadResult(body.lines[cursor], false)
    else ReadResult(body.tail, true)
  }

  /** Every line the reader returns without an error ends in '\n'. */
  ghost predicate WellFormed(body: Body) {
    forall j :: 0 <= j < |body.lines| ==> IsLine(body.lines[j])
  }

  /** `ctx.Done()` is first ready at loop iteration `cancelAt.value`, if
      ever, and stays ready from then on. */
  predicate Cancelled(cancelAt: Option<nat>, iteration: nat) {
    cancelAt.Some? && cancelAt.value <= iteration
  }

  /** How many lines the cancellable loop reads before it stops. */
  function LinesRead(lineCount: nat, cancelAt: Option<nat>): nat {
    if cancelAt.Some? && cancelAt.value < lineCount then cancelAt.value else lineCount
  }

  /** An unbuffered Go channel of frames, seen as the frames sent on it so
      far and whether it has been closed. */
  class FrameChannel {
    var sent: seq<string>
    var closed: bool

    /** `make(chan []byte)`. */
    constructor ()
      ensures sent == [] && !closed
    {
      sent, closed := [], false;
    }

    /** `ch <- frame`; sending on a closed channel panics in Go. */
    method Send(frame: string)
      requires !closed
      modifies this
      ensures sent == old(sent) + [frame] && !closed
    {
      sent := sent + [frame];
    }

    /** `close(ch)`; closing twice panics in Go. */
    method Close()
      requires !closed
      modifies this
      ensures closed && sent == old(sent)
    {
      closed := true;
    }
  }

  /** `RequestAsynch`: the marker is looked for in the whole accumulated
      text. The result lists the frames handed to `go args.Callback`, in the
      order the callbacks were started. */
  method RequestAsynch(body: Body) returns (spawned: seq<string>)
    ensures spawned == AccRun(body.lines).frames
    ensures WellFormed(body) ==> spawned == Frames(body.lines)
  {
    var messageAux := "";
    spawned := [];
    var cursor := 0;
    while true
      invariant cursor <= |body.lines|
      invariant Session(spawned, messageAux) == AccRun(body.lines[..cursor])
      decreases |body.lines| - cursor
    {
      var read := ReadBytes(body, cursor);
      if read.failed {
        break;
      }
      assert body.lines[..cursor + 1][..cursor] == body.lines[..cursor];
      messageAux := messageAux + read.chunk;
      if HasDelimiter(messageAux) {
        spawned := spawned + [messageAux];
        messageAux := "";
      }
      cursor := cursor + 1;
    }
    assert body.lines[..cursor] == body.lines;
    if WellFormed(body) {
      AccumulatedAgreesWithPerLine(body.lines);
    }
  }

  /** `RequestAsync`: a nil response gives no channel at all. Otherwise the
      loop (run here to its end) reads lines until the reader fails or the
      context is cancelled, sends a frame each time the new line holds the
      marker, and closes the channel. */
  method RequestAsync(response: Option<Body>, cancelAt: Option<nat>)
    returns (resp: Option<Body>, offers: FrameChannel?)
    ensures response.None? ==> resp.None? && offers == null
    ensures response.Some? ==> resp == response && offers != null && fresh(offers)
    ensures response.Some? ==> offers.closed
    ensures response.Some? ==>
      var lines := response.value.lines;
      && offers.sent == Frames(lines[..LinesRead(|lines|, cancelAt)])
      && offers.sent <= Frames(lines)
  {
    if response.None? {
      return None, null;
    }
    var body := response.value;
    offers := new FrameChannel();
    var buf := "";
    var cursor := 0;
    while true
      invariant cursor <= |body.lines|
      invariant cancelAt.Some? ==> cursor <= cancelAt.value
      invariant !offers.closed
      invariant offers.sent == Frames(body.lines[..cursor])
      invariant buf == Pending(body.lines[..cursor])
      decreases |body.lines| - cursor
    {
      if Cancelled(cancelAt, cursor) {
        break;
      }
      var read := ReadBytes(body, cursor);
      if read.failed {
        break;
      }
      assert body.lines[..cursor + 1] == body.lines[..cursor] + [read.chunk];
      FeedStep(body.lines[..cursor], read.chunk);
      buf := buf + read.chunk;
      if HasDelimiter(read.chunk) {
        offers.Send(buf);
        buf := "";
      }
      cursor := cursor + 1;
    }
    offers.Close();
    assert body.lines == body.lines[..cursor] + body.lines[cursor..];
    FramesGrowByExtension(body.lines[..cursor], body.lines[cursor..]);
    resp := response;
  }

  /** `RequestAsync2`: the same per-line loop without cancellation, sending
      on the caller's channel, which is closed at the end. */
  method RequestAsync2(body: Body, responseChannel: FrameChannel)
    requires !responseChannel.closed
    modifies responseChannel
    ensures responseChannel.sent == old(responseChannel.sent) + Frames(body.lines)
    ensures responseChannel.closed
  {
    ghost var before := responseChannel.sent;
    var buf := "";
    var cursor := 0;
    while true
      invariant cursor <= |body.lines|
      invariant !responseChannel.closed
      invariant responseChannel.sent == before + Frames(body.lines[..cursor])
      invariant buf == Pending(body.lines[..cursor])
      decreases |body.lines| - cursor
    {
      var read := ReadBytes(body, cursor);
      if read.failed {
        break;
      }
      assert body.lines[..cursor + 1] == body.lines[..cursor] + [read.chunk];
      FeedStep(body.lines[..cursor], read.chunk);
      buf := buf + read.chunk;
      if HasDelimiter(read.chunk) {
        AppendAssoc(before, Frames(body.lines[..cursor]), [buf]);
        responseChannel.Send(buf);
        buf := "";
      }
      cursor := cursor + 1;
    }
    assert body.lines[..cursor] == body.lines;
    responseChannel.Close();
  }

  /** Cancelling the loop early hands on a prefix of the frames an
      uncancelled loop would, and never a partly filled buffer. */
  lemma CancelledFramesArePrefix(body: Body, cancelAt: Option<nat>)
    ensures var read := body.lines[..LinesRead(|body.lines|, cancelAt)];
      && Frames(read) <= Frames(body.lines)
      && forall k :: 0 <= k < |Frames(read)| ==> HasDelimiter(Frames(read)[k])
  {
    var n := LinesRead(|body.lines|, cancelAt);
    assert body.lines == body.lines[..n] + body.lines[n..];
    FramesGrowByExtension(body.lines[..n], body.lines[n..]);
    FramesKeepDelimiter(body.lines[..n]);
  }
}
