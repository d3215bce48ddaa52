/** The livestream endpoint of stream_app.py: a one-slot queue that
    always holds the latest encoded preview frame, and the multipart
    chunks served from it. */
module StreamApp {
  import opened Common
  import opened Queues

  type Byte = b: int | 0 <= b < 256

  /** The bytes of a text made of characters below 256. */
  function Latin1(s: string): (b: seq<Byte>)
    requires forall i :: 0 <= i < |s| ==> s[i] as int < 256
    ensures |b| == |s| && forall i :: 0 <= i < |s| ==> b[i] == s[i] as int
  {
    seq(|s|, i requires 0 <= i < |s| => s[i] as int)
  }

  /** The boundary delimiter and part header in front of every frame. */
  function PartHead(): (h: seq<Byte>)
    ensures |h| == 37
  {
    Latin1("--frame\r\nContent-Type: image/jpeg\r\n\r\n")
  }

  function CrLf(): (t: seq<Byte>)
    ensures t == [13, 10]
  {
    Latin1("\r\n")
  }

  /** One chunk of the `multipart/x-mixed-replace; boundary=frame` body. */
  function Part(body: seq<Byte>): (c: seq<Byte>)
    ensures |c| == |body| + 39
    ensures c[..37] == PartHead() && c[37..|c| - 2] == body && c[|c| - 2..] == [13, 10]
  {
    PartHead() + body + CrLf()
  }

  /** Recover the body of a chunk, if it is framed as a part. */
  function ParsePart(chunk: seq<Byte>): (body: Option<seq<Byte>>)
    ensures body.Some? ==> |body.value| + |PartHead()| + 2 == |chunk|
  {
    if |chunk| >= |PartHead()| + 2 && chunk[..|PartHead()|] == PartHead() && chunk[|chunk| - 2..] == CrLf()
    then Some(chunk[|PartHead()|..|chunk| - 2])
    else None
  }

  /** Every chunk parses back to the frame bytes it carries. */
  lemma ParsePartRoundTrip(body: seq<Byte>)
    ensures ParsePart(Part(body)) == Some(body)
  {
    var c := Part(body);
    assert c[..|PartHead()|] == PartHead();
    assert c[|c| - 2..] == CrLf();
    assert c[|PartHead()|..|c| - 2] == body;
  }

  /** A chunk that parses is exactly the part of its body. */
  lemma ParsePartExact(chunk: seq<Byte>)
    requires ParsePart(chunk).Some?
    ensures Part(ParsePart(chunk).value) == chunk
  {
    var h := |PartHead()|;
    assert chunk == chunk[..h] + chunk[h..|chunk| - 2] + chunk[|chunk| - 2..];
  }

  /** Different frames give different chunks. */
  lemma PartInjective(a: seq<Byte>, b: seq<Byte>)
    requires Part(a) == Part(b)
    ensures a == b
  {
    ParsePartRoundTrip(a);
    ParsePartRoundTrip(b);
  }

  /** The module-level `frame_queue` of capacity 1. */
  class StreamServer {
    const frameQueue: BoundedQueue<seq<Byte>>

    ghost predicate Valid()
      reads this, frameQueue
    {
      frameQueue.Valid() && frameQueue.maxsize == 1
    }

    constructor ()
      ensures Valid() && fresh(frameQueue) && frameQueue.items == [] && frameQueue.unfinished == 0
    {
      frameQueue := new BoundedQueue(1);
    }

    /** `update_frame`: drop the queued frame, if any, then queue the new
        encoding when the encoder succeeded (`encoded` is None when it did
        not). The dropped frame is never acknowledged. */
    method UpdateFrame(encoded: Option<seq<Byte>>)
      requires Valid()
      modifies frameQueue
      ensures Valid()
      ensures frameQueue.items == (if encoded.Some? then [encoded.value] else [])
      ensures frameQueue.unfinished == old(frameQueue.unfinished) + (if encoded.Some? then 1 else 0)
    {
      if frameQueue.items != [] {
        var _ := frameQueue.GetNowait();
      }
      if encoded.Some? {
        frameQueue.Put(encoded.value);
      }
    }

    /** One pass of `generate_frames`: the queued frame framed as a part
        and acknowledged, or, when nothing arrives in time, an empty part. */
    method NextChunk() returns (chunk: seq<Byte>)
      requires Valid()
      modifies frameQueue
      ensures Valid()
      ensures old(frameQueue.items) == [] ==>
                chunk == Part([]) && frameQueue.items == [] && frameQueue.unfinished == old(frameQueue.unfinished)
      ensures old(frameQueue.items) != [] ==>
                && chunk == Part(old(frameQueue.items)[0])
                && frameQueue.items == [] && frameQueue.unfinished == old(frameQueue.unfinished) - 1
    {
      var next := frameQueue.GetNowait();
      if next.None? {
        return Part([]);
      }
      chunk := Part(next.value);
      frameQueue.TaskDone();
    }
  }
}
