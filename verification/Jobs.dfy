/**
  The receive job: one chunk, then what a complete message does to the connection. A run of jobs is
  driven by the number of bytes the socket had read at each of them, which depends on how the
  network cut the stream.
 */
module Jobs {
  import opened Bytes
  import opened Errors
  import opened Buffers
  import opened Chunk
  import opened Packets

  datatype AckWindowSize = AckWindowSize(window: u32, acked: u64)

  /** Should the bytes read so far be acknowledged? The subtraction is 64-bit. */
  predicate ShouldAckRead(a: AckWindowSize, received: nat) {
    a.window > 0 && (received - a.acked) % TWO_64 > a.window
  }

  datatype JobState = JobState(streams: Streams, inChunkSize: u32, inAckSize: AckWindowSize)

  predicate SizeInRange(size: u32) {
    MIN_CHUNK_SIZE <= size <= MAX_CHUNK_SIZE
  }

  ghost predicate ValidJob(j: JobState) {
    ValidStreams(j.streams) && SizeInRange(j.inChunkSize)
  }

  /** The messages the job looks into. */
  predicate IsNegotiation(m: Message) {
    m.header.messageType in {MSG_SET_CHUNK_SIZE, MSG_USER_CONTROL, MSG_WINDOW_ACK_SIZE}
  }

  /** What a complete message changes, when it is looked into. */
  function Negotiate(j: JobState, m: Message): (r: Result<JobState>)
    requires SizeInRange(j.inChunkSize)
    ensures r.Success? ==> SizeInRange(r.value.inChunkSize) && r.value.streams == j.streams
  {
    if !IsNegotiation(m) then Success(j)
    else
      var p :- DecodePacket(m.header.messageType, m.Body());
      if p.Some? && p.value.SetChunkSize? then
        ChunkSizeDecoded(m);
        Success(j.(inChunkSize := p.value.size))
      else if p.Some? && p.value.SetWindowAckSize? && p.value.size > 0 then
        Success(j.(inAckSize := j.inAckSize.(window := p.value.size)))
      else Success(j)
  }

  /**
    A complete message. A due acknowledgement is "answered" first, by nothing, and then the message
    is not looked into.
   */
  function OnRecvMessage(j: JobState, m: Message, received: nat): (r: Result<JobState>)
    requires SizeInRange(j.inChunkSize)
    ensures r.Success? ==> SizeInRange(r.value.inChunkSize) && r.value.streams == j.streams
  {
    if ShouldAckRead(j.inAckSize, received) then Success(j) else Negotiate(j, m)
  }

  /** A decoded chunk size is in range. */
  lemma ChunkSizeDecoded(m: Message)
    requires IsNegotiation(m)
    ensures var p := DecodePacket(m.header.messageType, m.Body());
            p.Success? && p.value.Some? && p.value.value.SetChunkSize? ==>
              SizeInRange(p.value.value.size) && m.header.messageType == MSG_SET_CHUNK_SIZE && |m.Body()| >= 4
              && p.value.value.size == GetU32(m.Body()[..4])
  {
  }

  /** A chunk size, a window size or a user control event that cannot be decoded. */
  predicate Malformed(m: Message) {
    var b := m.Body();
    || (m.header.messageType == 1 && (|b| < 4 || !(128 <= GetU32(b[..4]) <= 65536)))
    || (m.header.messageType == 4 && (|b| < 6 || (b[..2] == [0, 3] && |b| < 10)))
    || (m.header.messageType == 5 && |b| < 4)
  }

  /** Four big-endian bytes at the start of the payload. */
  predicate Asks(m: Message, value: u32) {
    var b := m.Body();
    |b| >= 4 && b[0] as int * 0x100_0000 + b[1] as int * 0x1_0000 + b[2] as int * 0x100 + b[3] == value
  }

  lemma DecodesControl(m: Message)
    requires m.header.messageType in {1, 4, 5}
    ensures var r := DecodePacket(m.header.messageType, m.Body());
            && (r.Failure? <==> Malformed(m))
            && (r.Success? ==> r.value.Some?)
            && (r.Success? && m.header.messageType == 1 ==> r.value.value.SetChunkSize? && Asks(m, r.value.value.size))
            && (r.Success? && m.header.messageType == 4 ==> r.value.value.UserControl?)
            && (r.Success? && m.header.messageType == 5 ==> r.value.value.SetWindowAckSize? && Asks(m, r.value.value.size))
  {
    hide GetBE;
    var b := m.Body();
    if |b| >= 4 {
      Be2(b[..2]);
      Be4(b[..4]);
    }
  }

  /**
    What a complete message does, in literal terms. When more than a window of bytes was read since
    the last acknowledgement nothing is looked into; otherwise type 1 sets the chunk size, type 5 a
    window that is not zero, and a malformed message of type 1, 4 or 5 is an error.
   */
  lemma OnRecvMeans(j: JobState, m: Message, received: nat)
    requires SizeInRange(j.inChunkSize) && j.inAckSize.acked <= received < 0x1_0000_0000_0000_0000
    ensures var r := OnRecvMessage(j, m, received);
            var due := j.inAckSize.window > 0 && received - j.inAckSize.acked > j.inAckSize.window;
            && (due ==> r == Success(j))
            && (r.Failure? <==> !due && Malformed(m))
            && (!due && r.Success? ==>
                  && r.value.inAckSize.acked == j.inAckSize.acked
                  && (m.header.messageType == 1 ==> Asks(m, r.value.inChunkSize))
                  && (m.header.messageType != 1 ==> r.value.inChunkSize == j.inChunkSize)
                  && (m.header.messageType == 5 && !Asks(m, 0) ==> Asks(m, r.value.inAckSize.window))
                  && (m.header.messageType != 5 || Asks(m, 0) ==> r.value.inAckSize == j.inAckSize))
  {
    hide DecodePacket, GetBE;
    if IsNegotiation(m) {
      DecodesControl(m);
    }
  }

  lemma OnlyMalformedFails(j: JobState, m: Message, received: nat)
    requires SizeInRange(j.inChunkSize)
    ensures OnRecvMessage(j, m, received).Failure? ==> Malformed(m)
  {
    hide DecodePacket, ShouldAckRead, Malformed;
    if IsNegotiation(m) {
      DecodesControl(m);
    }
  }

  /** A message the job puts into the queue, and whether it was passed over by an acknowledgement. */
  datatype Entry = Entry(msg: Message, due: bool)

  datatype JobStep = Waiting | Failed(error: ErrorCode) | Took(state: JobState, size: nat, entry: Option<Entry>)

  /** Empty messages are dropped. */
  predicate HasContent(m: Message) {
    m.received > 0 && m.header.payloadLength > 0
  }

  function RecvJob(j: JobState, b: bytes, received: nat): (r: JobStep)
    requires ValidJob(j)
    ensures r.Took? ==> ValidJob(r.state) && 0 < r.size <= |b|
  {
    match Step(j.streams, j.inChunkSize, b)
    case NeedMore => Waiting
    case Fail(e) => Failed(e)
    case Ok(r, n) =>
      var j1 := j.(streams := r.streams);
      if r.done.None? || !HasContent(r.done.value) then Took(j1, n, None)
      else
        match OnRecvMessage(j1, r.done.value, received)
        case Failure(e) => Failed(e)
        case Success(j2) => Took(j2, n, Some(Entry(r.done.value, ShouldAckRead(j.inAckSize, received))))
  }

  // ----- runs -----

  datatype Status = Running | Stopped(error: ErrorCode)

  datatype JobRun = JobRun(state: JobState, rest: bytes, log: seq<Entry>, status: Status)

  /** One more job, unless the run has stopped. */
  function NextJob(r: JobRun, received: nat): (r': JobRun)
    requires ValidJob(r.state)
    ensures ValidJob(r'.state)
  {
    if r.status.Stopped? then r
    else
      match RecvJob(r.state, r.rest, received)
      case Waiting => r.(status := Stopped(SocketClosed))
      case Failed(e) => r.(status := Stopped(e))
      case Took(state, n, entry) =>
        JobRun(state, r.rest[n..], r.log + (if entry.Some? then [entry.value] else []), Running)
  }

  /** The first `|counts|` jobs on the stream `b`; `counts[i]` is the socket's count at the i-th. */
  function RunJobs(j: JobState, b: bytes, counts: seq<nat>): (r: JobRun)
    requires ValidJob(j)
    ensures ValidJob(r.state)
  {
    if counts == [] then JobRun(j, b, [], Running)
    else NextJob(RunJobs(j, b, counts[..|counts| - 1]), counts[|counts| - 1])
  }

  // ----- negotiation -----

  /** The chunk size that a log of queued messages asks for. */
  function LastChunkSize(log: seq<Entry>, initial: u32): u32 {
    if log == [] then initial
    else
      var e := log[|log| - 1];
      if !e.due && e.msg.header.messageType == MSG_SET_CHUNK_SIZE && |e.msg.Body()| >= 4
      then GetU32(e.msg.Body()[..4])
      else LastChunkSize(log[..|log| - 1], initial)
  }

  lemma LastChunkSizeSnoc(log: seq<Entry>, e: Entry, initial: u32)
    ensures LastChunkSize(log + [e], initial) ==
            if !e.due && e.msg.header.messageType == MSG_SET_CHUNK_SIZE && |e.msg.Body()| >= 4
            then GetU32(e.msg.Body()[..4]) else LastChunkSize(log, initial)
  {
    assert (log + [e])[..|log|] == log;
  }

  /** What one job does to the chunk size, the window and the log. */
  lemma JobEffect(j: JobState, b: bytes, received: nat)
    requires ValidJob(j) && RecvJob(j, b, received).Took?
    ensures var r := RecvJob(j, b, received);
            && r.state.inAckSize.acked == j.inAckSize.acked
            && (j.inAckSize.window > 0 ==> r.state.inAckSize.window > 0)
            && (r.entry.None? ==> r.state.inChunkSize == j.inChunkSize && r.state.inAckSize == j.inAckSize)
            && (r.entry.Some? ==>
                  && r.entry.value.due == ShouldAckRead(j.inAckSize, received)
                  && (r.entry.value.due ==> r.state.inChunkSize == j.inChunkSize && r.state.inAckSize == j.inAckSize)
                  && r.state.inChunkSize == LastChunkSize([r.entry.value], j.inChunkSize))
  {
    hide Step, LastChunkSize, DecodePacket;
    var r := RecvJob(j, b, received);
    if r.entry.Some? {
      var e := r.entry.value;
      LastChunkSizeSnoc([], e, j.inChunkSize);
      assert [] + [e] == [e];
      NoLog(j.inChunkSize);
      if IsNegotiation(e.msg) {
        ChunkSizeDecoded(e.msg);
        ControlTypes(e.msg);
      }
    }
  }

  lemma NoLog(initial: u32)
    ensures LastChunkSize([], initial) == initial
  {
  }

  lemma ControlTypes(m: Message)
    requires IsNegotiation(m)
    ensures var p := DecodePacket(m.header.messageType, m.Body());
            p.Success? ==> p.value.Some? && (p.value.value.SetChunkSize? <==> m.header.messageType == MSG_SET_CHUNK_SIZE)
  {
  }

  /** Over any run the chunk size stays in range and is the last one processed. */
  lemma {:induction false} ChunkSizeIsLastProcessed(j: JobState, b: bytes, counts: seq<nat>)
    requires ValidJob(j)
    ensures var r := RunJobs(j, b, counts);
            && SizeInRange(r.state.inChunkSize)
            && r.state.inChunkSize == LastChunkSize(r.log, j.inChunkSize)
            && r.state.inAckSize.acked == j.inAckSize.acked
            && (j.inAckSize.window > 0 ==> r.state.inAckSize.window > 0)
    decreases |counts|
  {
    hide RecvJob, LastChunkSize, SizeInRange;
    if counts == [] {
      NoLog(j.inChunkSize);
    } else {
      var before := RunJobs(j, b, counts[..|counts| - 1]);
      ChunkSizeIsLastProcessed(j, b, counts[..|counts| - 1]);
      var step := RecvJob(before.state, before.rest, counts[|counts| - 1]);
      if before.status.Running? && step.Took? {
        JobEffect(before.state, before.rest, counts[|counts| - 1]);
        if step.entry.Some? {
          LastChunkSizeSnoc(before.log, step.entry.value, j.inChunkSize);
          LastChunkSizeSnoc([], step.entry.value, before.state.inChunkSize);
          assert [] + [step.entry.value] == [step.entry.value];
          NoLog(before.state.inChunkSize);
        } else {
          assert before.log + [] == before.log;
        }
      }
    }
  }

  /** Socket counts of a run: they never fall, and 64 bits hold them. */
  predicate Counts(counts: seq<nat>) {
    && (forall i, k :: 0 <= i <= k < |counts| ==> counts[i] <= counts[k])
    && (forall i :: 0 <= i < |counts| ==> counts[i] < TWO_64)
  }

  /** Between two points of a run the negotiated values did not change and every message was passed over. */
  predicate Frozen(r: JobRun, r': JobRun) {
    && r'.state.inChunkSize == r.state.inChunkSize && r'.state.inAckSize == r.state.inAckSize
    && |r.log| <= |r'.log| && r'.log[..|r.log|] == r.log
    && (forall k :: |r.log| <= k < |r'.log| ==> r'.log[k].due)
  }

  lemma FrozenOnce(r: JobRun, received: nat)
    requires ValidJob(r.state) && ShouldAckRead(r.state.inAckSize, received)
    ensures Frozen(r, NextJob(r, received))
  {
    hide RecvJob, ValidJob, ShouldAckRead;
    if r.status.Running? && RecvJob(r.state, r.rest, received).Took? {
      JobEffect(r.state, r.rest, received);
    }
  }

  lemma FrozenTwice(r: JobRun, r1: JobRun, r2: JobRun)
    requires Frozen(r, r1) && Frozen(r1, r2)
    ensures Frozen(r, r2)
  {
    assert r2.log[..|r.log|] == r2.log[..|r1.log|][..|r.log|];
    forall k | |r.log| <= k < |r2.log|
      ensures r2.log[k].due
    {
      if k < |r1.log| {
        assert r2.log[k] == r2.log[..|r1.log|][k];
      }
    }
  }

  /**
    A due acknowledgement is for good: nothing ever advances the acknowledged count, so from the
    moment it is due, chunk size and window are frozen and every queued message is passed over.
   */
  lemma {:induction false} DueIsForever(j: JobState, b: bytes, counts: seq<nat>, i: nat)
    requires ValidJob(j) && j.inAckSize.acked == 0 && Counts(counts) && i < |counts|
    requires ShouldAckRead(RunJobs(j, b, counts[..i]).state.inAckSize, counts[i])
    ensures Frozen(RunJobs(j, b, counts[..i]), RunJobs(j, b, counts))
    decreases |counts|
  {
    hide NextJob, ValidJob, Frozen, ShouldAckRead;
    var last := |counts| - 1;
    var start, before := RunJobs(j, b, counts[..i]), RunJobs(j, b, counts[..last]);
    ChunkSizeIsLastProcessed(j, b, counts[..last]);
    if i < last {
      assert counts[..last][..i] == counts[..i] && counts[..last][i] == counts[i];
      DueIsForever(j, b, counts[..last], i);
      FrozenWindow(start, before);
      StillDue(before.state.inAckSize, counts[i], counts[last]);
      FrozenOnce(before, counts[last]);
      FrozenTwice(start, before, RunJobs(j, b, counts));
    } else {
      FrozenOnce(before, counts[last]);
    }
  }

  lemma FrozenWindow(r: JobRun, r': JobRun)
    requires Frozen(r, r')
    ensures r'.state.inAckSize == r.state.inAckSize
  {
  }

  lemma StillDue(a: AckWindowSize, n: nat, m: nat)
    requires a.acked == 0 && ShouldAckRead(a, n) && n <= m < TWO_64
    ensures ShouldAckRead(a, m)
  {
  }

  /** A stopped run stays as it is. */
  lemma {:induction false} StoppedStays(j: JobState, b: bytes, counts: seq<nat>, i: nat)
    requires ValidJob(j) && i <= |counts| && RunJobs(j, b, counts[..i]).status.Stopped?
    ensures RunJobs(j, b, counts) == RunJobs(j, b, counts[..i])
    decreases |counts|
  {
    hide RecvJob;
    if i < |counts| {
      var last := |counts| - 1;
      assert counts[..last][..i] == counts[..i];
      StoppedStays(j, b, counts[..last], i);
    } else {
      assert counts[..i] == counts;
    }
  }
}
