/** The two buffering structures the threads share: Python's thread-safe
    `queue.Queue` (used here one call at a time) and `collections.deque`
    with a `maxlen`, used as the ring buffer of recent frames. */
module Queues {
  import opened Common

  /** `queue.Queue(maxsize)`. A `maxsize` of 0 means unbounded. `unfinished`
      counts the items put and not yet acknowledged with `task_done`. */
  class BoundedQueue<T> {
    var items: seq<T>
    const maxsize: nat
    var unfinished: nat

    ghost predicate Valid()
      reads this
    {
      && (maxsize > 0 ==> |items| <= maxsize)
      && |items| <= unfinished
    }

    constructor (maxsize: nat)
      ensures Valid() && this.maxsize == maxsize
      ensures items == [] && unfinished == 0
    {
      this.maxsize := maxsize;
      items := [];
      unfinished := 0;
    }

    /** `full()`: the queue is bounded and at its capacity. */
    predicate Full()
      reads this
    {
      0 < maxsize <= |items|
    }

    /** `put(x)`. A put on a full queue would block for ever in a single
        thread, so callers must first see that there is room. */
    method Put(x: T)
      requires Valid() && !Full()
      modifies this
      ensures Valid()
      ensures items == old(items) + [x]
      ensures unfinished == old(unfinished) + 1
    {
      items := items + [x];
      unfinished := unfinished + 1;
    }

    /** `get_nowait()`, and `get(timeout=...)` with nobody else putting:
        the oldest item, or None where Python raises `queue.Empty`. */
    method GetNowait() returns (r: Option<T>)
      requires Valid()
      modifies this
      ensures Valid()
      ensures old(items) == [] ==> r == None && items == []
      ensures old(items) != [] ==> r == Some(old(items)[0]) && items == old(items)[1..]
      ensures unfinished == old(unfinished)
    {
      if items == [] {
        r := None;
      } else {
        r := Some(items[0]);
        items := items[1..];
      }
    }

    /** `task_done()`, called once for an item already taken off the queue. */
    method TaskDone()
      requires Valid() && |items| < unfinished
      modifies this
      ensures Valid()
      ensures items == old(items) && unfinished == old(unfinished) - 1
    {
      unfinished := unfinished - 1;
    }
  }

  /** The last `n` elements of `s` (all of `s` when it is shorter). */
  function Window<T>(s: seq<T>, n: nat): (w: seq<T>)
    ensures |w| == if |s| < n then |s| else n
    ensures w == s[|s| - |w|..]
  {
    if |s| <= n then s else s[|s| - n..]
  }

  /** Appending to a full window evicts exactly the oldest element. */
  lemma AppendToFullWindow<T>(s: seq<T>, x: T, n: nat)
    requires |s| == n > 0
    ensures Window(s + [x], n) == s[1..] + [x]
  {
    assert (s + [x])[1..] == s[1..] + [x];
  }

  /** Appending to a window that has room keeps everything. */
  lemma AppendToRoomyWindow<T>(s: seq<T>, x: T, n: nat)
    requires |s| < n
    ensures Window(s + [x], n) == s + [x]
  {
  }

  /** In a window of two, the element that was newest before an append is
      the oldest after it. */
  lemma WindowOfTwo<T>(s: seq<T>, x: T)
    requires |s| > 0
    ensures Window(s + [x], 2) == [s[|s| - 1], x]
  {
    assert Window(s + [x], 2) == (s + [x])[|s| - 1..];
  }

  /** A ring buffer of frames: `deque(maxlen=...)` holding references to
      the camera's frame arrays. */
  class RingBuffer {
    var frames: seq<Frame>
    const maxlen: nat

    ghost predicate Valid()
      reads this
    {
      |frames| <= maxlen
    }

    constructor (maxlen: nat)
      ensures Valid() && this.maxlen == maxlen && frames == []
    {
      this.maxlen := maxlen;
      frames := [];
    }

    /** `append(f)`: add at the newest end, dropping the oldest when full. */
    method Append(f: Frame)
      requires Valid()
      modifies this
      ensures Valid()
      ensures frames == Window(old(frames) + [f], maxlen)
      ensures maxlen > 0 ==> frames[|frames| - 1] == f && Newest() == Some(f.Snapshot())
    {
      frames := Window(frames + [f], maxlen);
    }

    /** `ring[0]`, copied: the oldest buffered frame, if any. */
    function Oldest(): (d: Option<FrameData>)
      reads this, frames
      ensures d.Some? <==> |frames| > 0
      ensures d.Some? ==> d.value == frames[0].Snapshot()
    {
      if |frames| > 0 then Some(frames[0].Snapshot()) else None
    }

    /** `ring[-1]`, copied: the newest buffered frame, if any. */
    function Newest(): (d: Option<FrameData>)
      reads this, frames
      ensures d.Some? <==> |frames| > 0
      ensures d.Some? ==> d.value == frames[|frames| - 1].Snapshot()
    {
      if |frames| > 0 then Some(frames[|frames| - 1].Snapshot()) else None
    }
  }
}
