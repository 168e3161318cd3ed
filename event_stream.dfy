/**
 * The event-stream encoder of the text route: every chunk of generated text becomes one
 * `data:` event (the field convention of section 9.2, Server-sent events, of the WHATWG HTML
 * Living Standard) whose data is the JSON object `{"message":{"content":…}}`, and the events
 * are written to the response stream in arrival order before the stream is closed.
 */
module EventStream {
  import opened Wrappers
  import opened Js
  import opened JsonString
  import opened Upstream

  /** The line of the event for one chunk, without its terminating blank line. */
  function EventLine(text: string): string {
    "data: " + MessageJson(text)
  }

  /** `data: ${JSON.stringify({ message: { content: chunk.text } })}\n\n` */
  function Frame(text: string): string {
    EventLine(text) + "\n\n"
  }

  /** A frame is one newline-free event line followed by exactly two newlines. */
  lemma FrameShape(text: string)
    ensures Frame(text) == EventLine(text) + "\n\n"
    ensures '\n' !in EventLine(text)
    ensures forall i :: 0 <= i < |Frame(text)| && Frame(text)[i] == '\n' ==> i >= |Frame(text)| - 2
  {
    MessageJsonNoNewline(text);
    var f, l := Frame(text), EventLine(text);
    forall i | 0 <= i < |l| ensures l[i] != '\n' {
      if i >= 6 { assert l[i] == MessageJson(text)[i - 6]; }
    }
  }

  function Frames(chunks: seq<string>): (fs: seq<string>)
    ensures |fs| == |chunks| && forall i :: 0 <= i < |chunks| ==> fs[i] == Frame(chunks[i])
  {
    seq(|chunks|, i requires 0 <= i < |chunks| => Frame(chunks[i]))
  }

  lemma FramesAppend(chunks: seq<string>, c: string)
    ensures Frames(chunks + [c]) == Frames(chunks) + [Frame(c)]
  {
  }

  datatype StreamState = Readable | Closed | Errored(reason: string)

  /** The part of a ReadableStream's default controller the route uses. */
  class StreamController {
    /** What has been enqueued, in order. */
    var queue: seq<string>
    var state: StreamState

    constructor ()
      ensures queue == [] && state == Readable
    {
      queue := [];
      state := Readable;
    }

    method Enqueue(chunk: string)
      requires state == Readable
      modifies this
      ensures queue == old(queue) + [chunk] && state == Readable
    {
      queue := queue + [chunk];
    }

    method Close()
      requires state == Readable
      modifies this
      ensures state == Closed && queue == old(queue)
    {
      state := Closed;
    }

    /** What the stream undergoes when its `start` callback rejects. */
    method Error(reason: string)
      requires state == Readable
      modifies this
      ensures state == Errored(reason) && queue == old(queue)
    {
      state := Errored(reason);
    }
  }

  /**
   * The stream's `start`: one frame per chunk, in arrival order, then `close()`. When the
   * upstream iteration raises after its chunks, `close()` is never reached and the stream errors.
   */
  method Start(controller: StreamController, source: ChunkSource)
    requires controller.state == Readable
    modifies controller
    ensures controller.queue == old(controller.queue) + Frames(source.chunks)
    ensures controller.state == if source.failure.None? then Closed else Errored(source.failure.value)
  {
    var i := 0;
    while i < |source.chunks|
      invariant 0 <= i <= |source.chunks|
      invariant controller.state == Readable
      invariant controller.queue == old(controller.queue) + Frames(source.chunks[..i])
    {
      assert source.chunks[..i + 1] == source.chunks[..i] + [source.chunks[i]];
      controller.Enqueue(Frame(source.chunks[i]));
      i := i + 1;
    }
    assert source.chunks[..i] == source.chunks;
    match source.failure {
      case None => controller.Close();
      case Some(e) => controller.Error(e);
    }
  }

  /** The text of a stream that delivered all of `chunks`. */
  function StreamText(chunks: seq<string>): string {
    Concat(Frames(chunks))
  }
}
