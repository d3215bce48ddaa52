/** The background threads of threads/workers.py, each loop pass one
    method call: the video sender and the command poller, which share the
    server-connectivity flag, and the Bluetooth trigger listener, which
    submits the oldest buffered frame for processing on each key-down. */
module Workers {
  import opened Common
  import opened Queues

  // ----- the connectivity flag -----

  /** The messages printed when the flag changes. */
  datatype Notice = SenderLost | PollerLost | Restored

  predicate IsLoss(n: Notice)
  {
    n != Restored
  }

  /** What the two threads observe about the server. A poll answer with a
      truthy timestamp is a heartbeat; `stale` says whether more than 5
      seconds have passed since the last one. */
  datatype LinkEvent = SendFailed | PollAnswered(heartbeat: bool) | PollFailed(stale: bool)

  /** The effect of one observation on the flag, and the message printed. */
  function Transition(connected: bool, e: LinkEvent): (r: (bool, Option<Notice>))
    ensures r.1.Some? <==> r.0 != connected
    ensures r.1.Some? ==> (IsLoss(r.1.value) <==> connected)
    ensures e.SendFailed? ==> !r.0
    ensures e.PollAnswered? ==> r.0 == (connected || e.heartbeat)
    ensures e.PollFailed? ==> r.0 == (connected && !e.stale)
  {
    match e
    case SendFailed => if connected then (false, Some(SenderLost)) else (false, None)
    case PollAnswered(heartbeat) =>
      if heartbeat then (true, if connected then None else Some(Restored)) else (connected, None)
    case PollFailed(stale) =>
      if stale && connected then (false, Some(PollerLost)) else (connected, None)
  }

  function NoticeSeq(n: Option<Notice>): seq<Notice>
  {
    if n.Some? then [n.value] else []
  }

  /** The flag and the messages after a run of observations. */
  function Replay(connected: bool, events: seq<LinkEvent>): (bool, seq<Notice>)
    decreases |events|
  {
    if events == [] then (connected, [])
    else
      var (c, n) := Transition(connected, events[0]);
      var (final, rest) := Replay(c, events[1..]);
      (final, NoticeSeq(n) + rest)
  }

  /** Loss and recovery messages alternate, starting with a loss when the
      flag starts set. */
  predicate Alternates(connected: bool, notices: seq<Notice>)
  {
    forall i :: 0 <= i < |notices| ==> (IsLoss(notices[i]) <==> (connected == (i % 2 == 0)))
  }

  /** However the observations interleave, a drop is reported once and a
      recovery once: the messages alternate, and the final flag is the
      initial one flipped once per message. */
  lemma {:induction false} ReplayAlternates(connected: bool, events: seq<LinkEvent>)
    ensures var (final, notices) := Replay(connected, events);
            Alternates(connected, notices) && final == (connected == (|notices| % 2 == 0))
    decreases |events|
  {
    if events != [] {
      var (c, n) := Transition(connected, events[0]);
      var (final, rest) := Replay(c, events[1..]);
      ReplayAlternates(c, events[1..]);
      if n.Some? {
        var notices := [n.value] + rest;
        forall i | 0 <= i < |notices|
          ensures IsLoss(notices[i]) <==> (connected == (i % 2 == 0))
        {
          if i > 0 {
            assert notices[i] == rest[i - 1];
          }
        }
      }
    }
  }

  /** `SERVER_IS_CONNECTED`, written by both threads, with the messages
      they printed. */
  class Link {
    var connected: bool
    var notices: seq<Notice>

    constructor (connected: bool)
      ensures this.connected == connected && notices == []
    {
      this.connected := connected;
      notices := [];
    }

    method Report(e: LinkEvent)
      modifies this
      ensures connected == Transition(old(connected), e).0
      ensures notices == old(notices) + NoticeSeq(Transition(old(connected), e).1)
    {
      match e
      case SendFailed =>
        if connected {
          notices := notices + [SenderLost];
          connected := false;
        }
      case PollAnswered(heartbeat) =>
        if heartbeat {
          if !connected {
            notices := notices + [Restored];
          }
          connected := true;
        }
      case PollFailed(stale) =>
        if stale && connected {
          notices := notices + [PollerLost];
          connected := false;
        }
    }
  }

  // ----- the video sender -----

  class SenderWorker {
    const frameQueue: BoundedQueue<Jpeg>
    const link: Link
    var running: bool
    /** Every JPEG handed to an upload request, in order. */
    var uploads: seq<Jpeg>

    ghost predicate Valid()
      reads this, frameQueue
    {
      frameQueue.Valid()
    }

    constructor (frameQueue: BoundedQueue<Jpeg>, link: Link)
      requires frameQueue.Valid()
      ensures Valid() && this.frameQueue == frameQueue && this.link == link
      ensures running && uploads == []
    {
      this.frameQueue := frameQueue;
      this.link := link;
      running := true;
      uploads := [];
    }

    method Stop()
      modifies this
      ensures !running && uploads == old(uploads)
    {
      running := false;
    }

    /** One pass of `run`. While the flag is clear nothing is taken off the
        queue. Otherwise the oldest JPEG is uploaded and acknowledged, and a
        failed upload (`delivered` false) clears the flag. */
    method Iterate(delivered: bool) returns (sent: Option<Jpeg>)
      requires Valid()
      modifies this, frameQueue, link
      ensures Valid() && running == old(running)
      ensures !old(running) || !old(link.connected) || old(frameQueue.items) == [] ==>
                && sent == None && uploads == old(uploads)
                && frameQueue.items == old(frameQueue.items) && frameQueue.unfinished == old(frameQueue.unfinished)
                && link.connected == old(link.connected) && link.notices == old(link.notices)
      ensures old(running) && old(link.connected) && old(frameQueue.items) != [] ==>
                && sent == Some(old(frameQueue.items)[0])
                && frameQueue.items == old(frameQueue.items)[1..]
                && frameQueue.unfinished == old(frameQueue.unfinished) - 1
                && uploads == old(uploads) + [sent.value]
                && link.connected == delivered
                && link.notices == old(link.notices) + (if delivered then [] else [SenderLost])
    {
      if !running {
        return None;
      }
      if !link.connected {
        return None;
      }
      sent := frameQueue.GetNowait();
      if sent.None? {
        return None;
      }
      uploads := uploads + [sent.value];
      if !delivered {
        link.Report(SendFailed);
      }
      frameQueue.TaskDone();
    }
  }

  // ----- the command poller -----

  /** What a GET of /get_command produced: a request exception, or a
      response with its status code and the two JSON fields looked at. */
  datatype PollResponse =
    | RequestFailed
    | Response(status: int, timestamp: Option<real>, command: Option<string>)

  /** Python truthiness of the two fields. */
  predicate HasHeartbeat(r: PollResponse)
  {
    r.Response? && r.status == 200 && r.timestamp.Some? && r.timestamp.value != 0.0
  }

  predicate HasCommand(r: PollResponse)
  {
    r.Response? && r.status == 200 && r.command.Some? && r.command.value != ""
  }

  /** Seconds without a heartbeat after which a failed poll counts as a drop. */
  const HeartbeatTimeout: real := 5.0

  class CommandPoller {
    /** The command queue, created without a size bound. */
    const commandQueue: BoundedQueue<string>
    const link: Link
    var running: bool
    var lastHeartbeat: real

    ghost predicate Valid()
      reads this, commandQueue
    {
      commandQueue.Valid() && commandQueue.maxsize == 0
    }

    constructor (commandQueue: BoundedQueue<string>, link: Link)
      requires commandQueue.Valid() && commandQueue.maxsize == 0
      ensures Valid() && this.commandQueue == commandQueue && this.link == link
      ensures running && lastHeartbeat == 0.0
    {
      this.commandQueue := commandQueue;
      this.link := link;
      running := true;
      lastHeartbeat := 0.0;
    }

    method Stop()
      modifies this
      ensures !running && lastHeartbeat == old(lastHeartbeat)
    {
      running := false;
    }

    /** The observation one poll makes at time `now`. */
    function Observation(response: PollResponse, now: real): (e: LinkEvent)
      reads this
      ensures e.PollFailed? <==> response.RequestFailed?
      ensures e.PollAnswered? ==> (e.heartbeat <==> HasHeartbeat(response))
      ensures e.PollFailed? ==> (e.stale <==> now - lastHeartbeat > HeartbeatTimeout)
    {
      if response.RequestFailed? then PollFailed(now - lastHeartbeat > HeartbeatTimeout)
      else PollAnswered(HasHeartbeat(response))
    }

    /** One pass of `run` at time `now`: a heartbeat sets the flag and is
        recorded, a command is queued, and a failed request clears the flag
        once the last heartbeat is more than 5 seconds old. */
    method Iterate(response: PollResponse, now: real)
      requires Valid()
      modifies this, commandQueue, link
      ensures Valid() && running == old(running)
      ensures !old(running) ==>
                && lastHeartbeat == old(lastHeartbeat) && commandQueue.items == old(commandQueue.items)
                && commandQueue.unfinished == old(commandQueue.unfinished)
                && link.connected == old(link.connected) && link.notices == old(link.notices)
      ensures old(running) ==>
                && link.connected == Transition(old(link.connected), old(Observation(response, now))).0
                && link.notices == old(link.notices) + NoticeSeq(Transition(old(link.connected), old(Observation(response, now))).1)
                && lastHeartbeat == (if HasHeartbeat(response) then now else old(lastHeartbeat))
                && commandQueue.items == old(commandQueue.items) + (if HasCommand(response) then [response.command.value] else [])
                && commandQueue.unfinished == old(commandQueue.unfinished) + (if HasCommand(response) then 1 else 0)
    {
      if !running {
        return;
      }
      if response.RequestFailed? {
        link.Report(PollFailed(now - lastHeartbeat > HeartbeatTimeout));
        return;
      }
      if response.status == 200 {
        if response.timestamp.Some? && response.timestamp.value != 0.0 {
          link.Report(PollAnswered(true));
          lastHeartbeat := now;
        }
        if response.command.Some? && response.command.value != "" {
          commandQueue.Put(response.command.value);
        }
      }
    }
  }

  /** A failed poll within 5 seconds of the last heartbeat leaves the
      flag as it is and prints nothing. */
  lemma RecentFailureKeepsLink(p: CommandPoller, connected: bool, now: real)
    requires now - p.lastHeartbeat <= HeartbeatTimeout
    ensures Transition(connected, p.Observation(RequestFailed, now)) == (connected, None)
  {
  }

  /** Before any heartbeat the last one is taken to be at time 0, so a
      failed poll at any time after the first 5 seconds of the epoch is
      stale and clears a set flag. */
  lemma FailureBeforeHeartbeat(p: CommandPoller, now: real)
    requires p.lastHeartbeat == 0.0 && now > HeartbeatTimeout
    ensures p.Observation(RequestFailed, now) == PollFailed(true)
    ensures Transition(true, p.Observation(RequestFailed, now)) == (false, Some(PollerLost))
  {
  }

  /** A poller that has not seen a heartbeat and whose flag is set, polled
      after the first 5 seconds: a failed request clears the flag with one
      loss message. */
  method FirstFailedPoll(p: CommandPoller, now: real)
    requires p.Valid() && p.running && p.lastHeartbeat == 0.0 && p.link.connected
    requires now > HeartbeatTimeout
    modifies p, p.commandQueue, p.link
    ensures !p.link.connected && p.link.notices == old(p.link.notices) + [PollerLost]
  {
    FailureBeforeHeartbeat(p, now);
    p.Iterate(RequestFailed, now);
  }

  // ----- the trigger listener -----

  datatype Device = Device(name: string, path: string)

  /** An input event: type, code and value (1 for a key-down). */
  datatype InputEvent = InputEvent(kind: int, code: int, value: int)

  const EvKey: int := 1
  const KeyVolumeDown: int := 114
  const DeviceKeyword: string := "AB Shutter3"

  /** Only a key-down of the volume-down key triggers a capture. */
  predicate IsTrigger(e: InputEvent)
  {
    e.kind == EvKey && e.code == KeyVolumeDown && e.value == 1
  }

  /** `str.lower()` on the ASCII letters. */
  function Lower(s: string): (r: string)
    ensures |r| == |s|
    ensures forall i :: 0 <= i < |s| ==> ('A' <= s[i] <= 'Z' ==> r[i] as int == s[i] as int + 32)
    ensures forall i :: 0 <= i < |s| ==> (!('A' <= s[i] <= 'Z') ==> r[i] == s[i])
  {
    seq(|s|, i requires 0 <= i < |s| => if 'A' <= s[i] <= 'Z' then (s[i] as int + 32) as char else s[i])
  }

  /** ASCII upper-casing, used to state that matching ignores case. */
  function Upper(s: string): (r: string)
    ensures |r| == |s|
  {
    seq(|s|, i requires 0 <= i < |s| => if 'a' <= s[i] <= 'z' then (s[i] as int - 32) as char else s[i])
  }

  /** Lower-casing leaves no ASCII capital and forgets the case of every
      ASCII letter. */
  lemma LowerIgnoresCase(s: string)
    ensures forall i :: 0 <= i < |s| ==> !('A' <= Lower(s)[i] <= 'Z')
    ensures Lower(Upper(s)) == Lower(s)
    ensures Lower(Lower(s)) == Lower(s)
  {
  }

  /** `needle in haystack` for strings. */
  predicate IsSubstring(needle: string, haystack: string)
  {
    exists i :: 0 <= i <= |haystack| && needle <= haystack[i..]
  }

  predicate MatchesKeyword(d: Device)
  {
    IsSubstring(Lower(DeviceKeyword), Lower(d.name))
  }

  /** The first listed device whose name contains the keyword, ignoring case. */
  function FindTrigger(devices: seq<Device>): (r: Option<Device>)
    ensures r.Some? ==> r.value in devices && MatchesKeyword(r.value)
    ensures r.Some? ==> exists i :: 0 <= i < |devices| && devices[i] == r.value
                                    && forall j :: 0 <= j < i ==> !MatchesKeyword(devices[j])
    ensures r.None? ==> forall d :: d in devices ==> !MatchesKeyword(d)
  {
    if devices == [] then None
    else if MatchesKeyword(devices[0]) then Some(devices[0])
    else
      var r := FindTrigger(devices[1..]);
      if r.Some? then
        var i :| 0 <= i < |devices[1..]| && devices[1..][i] == r.value
                 && forall j :: 0 <= j < i ==> !MatchesKeyword(devices[1..][j]);
        assert devices[i + 1] == r.value;
        r
      else r
  }

  /** Whether a device matches does not depend on the letter case of its name. */
  lemma MatchIgnoresCase(d: Device)
    ensures MatchesKeyword(d.(name := Upper(d.name))) == MatchesKeyword(d)
    ensures MatchesKeyword(d.(name := Lower(d.name))) == MatchesKeyword(d)
  {
    LowerIgnoresCase(d.name);
  }

  /** A name that contains "ab shutter3" in any letter case is found. */
  lemma FindsShutterByName(other: Device, path: string)
    requires !MatchesKeyword(other)
    ensures FindTrigger([other, Device("AB Shutter3 Keyboard", path)]) == Some(Device("AB Shutter3 Keyboard", path))
  {
    var name := "AB Shutter3 Keyboard";
    var k := Lower(DeviceKeyword);
    assert |k| == 11;
    forall i | 0 <= i < 11
      ensures Lower(name)[i] == k[i]
    {
    }
    assert k <= Lower(name)[0..];
  }

  /** The jobs a run of events adds: one per trigger, each the oldest
      buffered frame with the capture time and calibrated centre, while the
      buffer is non-empty and the queue is not full. */
  function Admit(items: seq<QueuedItem>, capacity: nat, events: seq<InputEvent>,
                 oldest: Option<FrameData>, now: Timestamp, center: Option<Point>): (r: seq<QueuedItem>)
    ensures |items| <= |r| && r[..|items|] == items
    ensures oldest.None? ==> r == items
    ensures oldest.Some? ==> forall k :: |items| <= k < |r| ==> r[k] == Triple(oldest.value, now, center)
    ensures 0 < capacity && |items| <= capacity ==> |r| <= capacity
    ensures |r| <= |items| + |events|
    decreases |events|
  {
    if events == [] then items
    else if IsTrigger(events[0]) && oldest.Some? && !(0 < capacity <= |items|) then
      Admit(items + [Triple(oldest.value, now, center)], capacity, events[1..], oldest, now, center)
    else Admit(items, capacity, events[1..], oldest, now, center)
  }

  function TriggerCount(events: seq<InputEvent>): (n: nat)
    ensures n <= |events|
  {
    if events == [] then 0 else (if IsTrigger(events[0]) then 1 else 0) + TriggerCount(events[1..])
  }

  function Min(a: nat, b: nat): nat
  {
    if a < b then a else b
  }

  /** How many jobs are admitted: none without a buffered frame, one per
      trigger on an unbounded queue, and no more than the room left on a
      bounded one. */
  function Admitted(queued: nat, capacity: nat, triggers: nat, present: bool): nat
  {
    if !present then 0
    else if capacity == 0 then triggers
    else if queued >= capacity then 0
    else Min(triggers, capacity - queued)
  }

  lemma AppendRepeated<T>(items: seq<T>, x: T, k: nat)
    ensures (items + [x]) + seq(k, _ => x) == items + seq(k + 1, _ => x)
  {
    assert [x] + seq(k, _ => x) == seq(k + 1, _ => x);
  }

  /** The queue after a run of events is the old queue followed by as many
      copies of the job as `Admitted` allows: only key-down presses count,
      the capacity is never exceeded and an empty buffer adds nothing. */
  lemma {:induction false} AdmitShape(items: seq<QueuedItem>, capacity: nat, events: seq<InputEvent>,
                                      oldest: Option<FrameData>, now: Timestamp, center: Option<Point>)
    requires oldest.Some?
    ensures var k := Admitted(|items|, capacity, TriggerCount(events), true);
            Admit(items, capacity, events, oldest, now, center)
              == items + seq(k, _ => Triple(oldest.value, now, center))
    decreases |events|
  {
    var job := Triple(oldest.value, now, center);
    if events != [] {
      var rest := TriggerCount(events[1..]);
      if IsTrigger(events[0]) && !(0 < capacity <= |items|) {
        assert TriggerCount(events) == rest + 1;
        var k := Admitted(|items| + 1, capacity, rest, true);
        assert Admitted(|items|, capacity, rest + 1, true) == k + 1;
        AdmitShape(items + [job], capacity, events[1..], oldest, now, center);
        AppendRepeated(items, job, k);
      } else {
        assert Admitted(|items|, capacity, TriggerCount(events), true) == Admitted(|items|, capacity, rest, true);
        AdmitShape(items, capacity, events[1..], oldest, now, center);
      }
    }
  }

  /** Key-ups, auto-repeats and other keys add no job. */
  lemma {:induction false} NonTriggersIgnored(items: seq<QueuedItem>, capacity: nat, events: seq<InputEvent>,
                                              oldest: Option<FrameData>, now: Timestamp, center: Option<Point>)
    requires forall i :: 0 <= i < |events| ==> !IsTrigger(events[i])
    ensures Admit(items, capacity, events, oldest, now, center) == items
    decreases |events|
  {
    if events != [] {
      assert !IsTrigger(events[0]);
      NonTriggersIgnored(items, capacity, events[1..], oldest, now, center);
    }
  }

  /** What one pass of the listener's loop did. */
  datatype ListenerStep = Stopped | Searching | Lost | Blocked | Listened(admitted: nat)

  /** What reading the grabbed device produced: a batch of events, no
      event ready (BlockingIOError), or a disconnection (OSError). */
  datatype ReadResult = Events(events: seq<InputEvent>) | WouldBlock | ReadFailed

  class TriggerListener {
    const processingQueue: BoundedQueue<QueuedItem>
    const ring: RingBuffer
    var running: bool
    /** The grabbed input device, if any. */
    var device: Option<Device>

    ghost predicate Valid()
      reads this, processingQueue
    {
      processingQueue.Valid()
    }

    constructor (processingQueue: BoundedQueue<QueuedItem>, ring: RingBuffer)
      requires processingQueue.Valid()
      ensures Valid() && this.processingQueue == processingQueue && this.ring == ring
      ensures running && device == None
    {
      this.processingQueue := processingQueue;
      this.ring := ring;
      running := true;
      device := None;
    }

    method Stop()
      modifies this
      ensures !running && device == old(device)
    {
      running := false;
    }

    /** `find_trigger_device`: the first matching device, by a loop over
        the list. */
    method FindTriggerDevice(devices: seq<Device>) returns (r: Option<Device>)
      ensures r == FindTrigger(devices)
    {
      var i := 0;
      while i < |devices|
        invariant 0 <= i <= |devices|
        invariant FindTrigger(devices) == FindTrigger(devices[i..])
      {
        if MatchesKeyword(devices[i]) {
          return Some(devices[i]);
        }
        assert devices[i..][1..] == devices[i + 1..];
        i := i + 1;
      }
      return None;
    }

    /** The `for event in self.device.read()` loop: each trigger enqueues a
        copy of the oldest buffered frame while there is one and the queue
        is not full. */
    method HandleEvents(events: seq<InputEvent>, now: Timestamp, center: Option<Point>) returns (admitted: nat)
      requires Valid()
      modifies processingQueue
      ensures Valid()
      ensures processingQueue.items ==
                Admit(old(processingQueue.items), processingQueue.maxsize, events, ring.Oldest(), now, center)
      ensures |processingQueue.items| == |old(processingQueue.items)| + admitted
      ensures processingQueue.unfinished == old(processingQueue.unfinished) + admitted
    {
      admitted := 0;
      var i := 0;
      while i < |events|
        invariant 0 <= i <= |events|
        invariant processingQueue.Valid()
        invariant Admit(processingQueue.items, processingQueue.maxsize, events[i..], ring.Oldest(), now, center)
               == Admit(old(processingQueue.items), processingQueue.maxsize, events, ring.Oldest(), now, center)
        invariant |processingQueue.items| == |old(processingQueue.items)| + admitted
        invariant processingQueue.unfinished == old(processingQueue.unfinished) + admitted
      {
        var e := events[i];
        assert events[i..][1..] == events[i + 1..];
        if e.kind == EvKey && e.code == KeyVolumeDown && e.value == 1 {
          if |ring.frames| > 0 && !processingQueue.Full() {
            var frame := ring.frames[0].Snapshot();
            processingQueue.Put(Triple(frame, now, center));
            admitted := admitted + 1;
          }
        }
        i := i + 1;
      }
    }

    /** One pass of `run`: look for and grab a device when there is none
        (a failed grab drops it again), then read it; a disconnection drops
        the device, no pending event keeps it. */
    method Iterate(available: seq<Device>, grabbed: bool, read: ReadResult, now: Timestamp,
                   center: Option<Point>) returns (step: ListenerStep)
      requires Valid()
      modifies this, processingQueue
      ensures Valid() && running == old(running)
      ensures step.Listened? ==>
                && read.Events?
                && processingQueue.items == Admit(old(processingQueue.items), processingQueue.maxsize, read.events, ring.Oldest(), now, center)
                && |processingQueue.items| == |old(processingQueue.items)| + step.admitted
                && processingQueue.unfinished == old(processingQueue.unfinished) + step.admitted
      ensures !step.Listened? ==> processingQueue.items == old(processingQueue.items)
                                  && processingQueue.unfinished == old(processingQueue.unfinished)
      ensures var d := if old(device).None? then FindTrigger(available) else old(device);
              && (!old(running) ==> step == Stopped && device == old(device))
              && (old(running) && d.None? ==> step == Searching && device == None)
              && (old(running) && d.Some? && old(device).None? && !grabbed ==> step == Lost && device == None)
              && (old(running) && d.Some? && (old(device).Some? || grabbed) ==>
                    && (read.ReadFailed? ==> step == Lost && device == None)
                    && (read.WouldBlock? ==> step == Blocked && device == d)
                    && (read.Events? ==> step.Listened? && device == d))
    {
      if !running {
        return Stopped;
      }
      if device.None? {
        device := FindTriggerDevice(available);
        if device.None? {
          return Searching;
        }
        if !grabbed {
          device := None;
          return Lost;
        }
      }
      match read
      case WouldBlock =>
        return Blocked;
      case ReadFailed =>
        device := None;
        return Lost;
      case Events(events) =>
        var n := HandleEvents(events, now, center);
        return Listened(n);
    }
  }
}
