/**
  What the receive jobs put into the queue: over the encoding of any sequence of messages, each cut
  with the chunk size the receiver has by then, exactly the messages with a payload, in order.
 */
module Delivery {
  import opened Bytes
  import opened Errors
  import opened Chunk
  import opened Sending
  import opened RoundTrip
  import opened Packets
  import opened Jobs
  import opened Mismatch

  // ----- runs, from the front -----

  function RunOn(r: JobRun, counts: seq<nat>): (r': JobRun)
    requires ValidJob(r.state)
    ensures ValidJob(r'.state)
    decreases |counts|
  {
    if counts == [] then r else RunOn(NextJob(r, counts[0]), counts[1..])
  }

  lemma RunOnce(r: JobRun, counts: seq<nat>)
    requires ValidJob(r.state) && counts != []
    ensures RunOn(r, counts) == RunOn(NextJob(r, counts[0]), counts[1..])
  {
    hide NextJob;
  }

  lemma RunOne(r: JobRun, count: nat)
    requires ValidJob(r.state)
    ensures RunOn(r, [count]) == NextJob(r, count)
  {
    hide NextJob;
    assert [count][1..] == [];
  }

  lemma {:induction false} RunOnConcat(r: JobRun, a: seq<nat>, b: seq<nat>)
    requires ValidJob(r.state)
    ensures RunOn(r, a + b) == RunOn(RunOn(r, a), b)
    decreases |a|
  {
    hide NextJob;
    if a == [] {
      assert a + b == b;
    } else {
      assert (a + b)[1..] == a[1..] + b;
      RunOnConcat(NextJob(r, a[0]), a[1..], b);
    }
  }

  lemma {:induction false} RunOnStopped(r: JobRun, counts: seq<nat>)
    requires ValidJob(r.state) && r.status.Stopped?
    ensures RunOn(r, counts) == r
  {
    hide RecvJob;
    if counts != [] {
      RunOnStopped(r, counts[1..]);
    }
  }

  lemma {:induction false} RunJobsFromFront(j: JobState, b: bytes, counts: seq<nat>)
    requires ValidJob(j)
    ensures RunJobs(j, b, counts) == RunOn(JobRun(j, b, [], Running), counts)
    decreases |counts|
  {
    hide NextJob;
    if counts != [] {
      var last := |counts| - 1;
      RunJobsFromFront(j, b, counts[..last]);
      RunOnConcat(JobRun(j, b, [], Running), counts[..last], [counts[last]]);
      assert counts[..last] + [counts[last]] == counts;
      RunOne(RunOn(JobRun(j, b, [], Running), counts[..last]), counts[last]);
    }
  }

  // ----- one message -----

  /** The chunks of a message from payload offset `from` on. */
  function Left(m: Message, from: nat, size: nat): bytes
    requires from <= |m.Body()| && size > 0
  {
    if from == 0 then Encoded(m, size) else Continuation(m, from, size)
  }

  /** ... and how many they are. */
  function Rounds(length: nat, from: nat, size: nat): (n: nat)
    requires from <= length && size > 0
    ensures n > 0
    decreases length - from
  {
    var to := from + Min(size, length - from);
    if to == length then 1 else 1 + Rounds(length, to, size)
  }

  lemma LeftOnce(m: Message, from: nat, size: nat)
    requires (from < |m.Body()| || from == |m.Body()| == 0) && size > 0
    ensures var to := from + |NextPiece(m, from, size)|;
            && to <= |m.Body()|
            && (to < |m.Body()| ==> 0 < to && Left(m, from, size) == ChunkAt(m, from, size) + Left(m, to, size))
            && (to == |m.Body()| ==> Left(m, from, size) == ChunkAt(m, from, size))
  {
    hide Fmt0Header, Fmt3Header;
    var chunk, to := ChunkAt(m, from, size), from + |NextPiece(m, from, size)|;
    if to == |m.Body()| {
      assert Continuation(m, to, size) == [];
      assert chunk + [] == chunk;
    }
  }

  /** The message as it arrives. */
  function Got(m: Message): Message {
    Arrived(m, WireHeader(m.header), |m.Body()|).(cid := m.cid)
  }

  /** The receiver when `n` more chunks, the last one at payload offset `to`, have arrived. */
  function Moved(j: JobState, m: Message, n: nat, to: nat): JobState
    requires to <= |m.Body()|
  {
    var c := Lookup(j.streams, m.cid);
    j.(streams := j.streams[m.cid := Halfway(m, c.cid, c.count + n, to)])
  }

  /** One chunk, on the stream of a message in progress or an idle one. */
  lemma ChunkArrives(s: Streams, m: Message, from: nat, size: u32, rest: bytes)
    requires from < |m.Body()| || from == |m.Body()| == 0
    requires ValidStreams(s) && Sendable(m) && size > 0 && Ready(s, m, from)
    ensures var c := Lookup(s, m.cid);
            var to := from + |NextPiece(m, from, size)|;
            Carries(s, size, ChunkAt(m, from, size), rest, m, WireHeader(m.header),
                    Halfway(m, c.cid, c.count + 1, to), to)
  {
    hide Step, Arrived, Fmt0Header, Fmt3Header, Stage;
    if from == 0 {
      FirstChunkBack(s, m, size, rest);
    } else {
      NextChunkBack(s, m, s[m.cid].count, from, size, rest);
    }
  }

  /** What the last chunk of a message with a payload does. */
  ghost predicate Queued(r: JobRun, j1: JobState, m: Message, count: nat, rest: bytes, r': JobRun)
    requires SizeInRange(j1.inChunkSize)
  {
    match OnRecvMessage(j1, Got(m), count)
    case Failure(e) => r'.status == Stopped(e)
    case Success(j2) => r' == JobRun(j2, rest, r.log + [Entry(Got(m), ShouldAckRead(j1.inAckSize, count))], Running)
  }

  /** The job that takes a chunk. Nothing is queued before the last chunk, nor for an empty payload. */
  lemma ChunkJob(r: JobRun, m: Message, from: nat, count: nat, rest: bytes)
    requires from < |m.Body()| || from == |m.Body()| == 0
    requires r.status.Running? && ValidJob(r.state) && Sendable(m) && Ready(r.state.streams, m, from)
    requires r.rest == ChunkAt(m, from, r.state.inChunkSize) + rest
    ensures var to := from + |NextPiece(m, from, r.state.inChunkSize)|;
            var j1 := Moved(r.state, m, 1, to);
            && (to < |m.Body()| || m.Body() == [] ==> NextJob(r, count) == JobRun(j1, rest, r.log, Running))
            && (0 < to == |m.Body()| ==> Queued(r, j1, m, count, rest, NextJob(r, count)))
  {
    hide Step, OnRecvMessage, ShouldAckRead, Stage, ChunkAt;
    var size := r.state.inChunkSize;
    var chunk := ChunkAt(m, from, size);
    ChunkArrives(r.state.streams, m, from, size, rest);
    assert r.rest[|chunk|..] == rest;
    assert r.log + [] == r.log;
  }

  lemma MovedTwice(j: JobState, m: Message, n: nat, from: nat, k: nat, to: nat)
    requires from <= |m.Body()| && to <= |m.Body()|
    ensures Moved(Moved(j, m, n, from), m, k, to) == Moved(j, m, n + k, to)
  {
    hide Arrived;
    var c := Lookup(j.streams, m.cid);
    var a, b := Halfway(m, c.cid, c.count + n, from), Halfway(m, c.cid, c.count + n + k, to);
    assert j.streams[m.cid := a][m.cid := b] == j.streams[m.cid := b];
  }

  lemma MovedReady(j: JobState, m: Message, to: nat)
    requires 0 < to <= |m.Body()|
    ensures Ready(Moved(j, m, 1, to).streams, m, to)
  {
  }

  /** The jobs of one message, from any of its chunks to its last. */
  lemma {:induction false} MessageJobs(r: JobRun, m: Message, from: nat, counts: seq<nat>, rest: bytes)
    requires from < |m.Body()| || from == |m.Body()| == 0
    requires r.status.Running? && ValidJob(r.state) && Sendable(m) && Ready(r.state.streams, m, from)
    requires r.rest == Left(m, from, r.state.inChunkSize) + rest
    requires |counts| == Rounds(|m.Body()|, from, r.state.inChunkSize)
    ensures var j1 := Moved(r.state, m, |counts|, |m.Body()|);
            && (m.Body() == [] ==> RunOn(r, counts) == JobRun(j1, rest, r.log, Running))
            && (m.Body() != [] ==> Queued(r, j1, m, counts[|counts| - 1], rest, RunOn(r, counts)))
    decreases |m.Body()| - from
  {
    hide NextJob, Queued, Moved, Ready, Left, ChunkAt, ValidStreams, RunOn;
    var size := r.state.inChunkSize;
    var to := from + |NextPiece(m, from, size)|;
    LeftOnce(m, from, size);
    if to == |m.Body()| {
      ChunkJob(r, m, from, counts[0], rest);
      assert counts == [counts[0]];
      RunOne(r, counts[0]);
    } else {
      assert r.rest == ChunkAt(m, from, size) + (Left(m, to, size) + rest);
      ChunkJob(r, m, from, counts[0], Left(m, to, size) + rest);
      RunOnce(r, counts);
      MovedReady(r.state, m, to);
      SameSize(r.state, m, 1, to);
      SameSize(r.state, m, |counts|, |m.Body()|);
      MessageJobs(NextJob(r, counts[0]), m, to, counts[1..], rest);
      MovedTwice(r.state, m, 1, to, |counts| - 1, |m.Body()|);
      QueuedLater(r, NextJob(r, counts[0]), Moved(r.state, m, |counts|, |m.Body()|), m, counts[|counts| - 1], rest,
                  RunOn(r, counts));
    }
  }

  lemma SameSize(j: JobState, m: Message, n: nat, to: nat)
    requires to <= |m.Body()|
    ensures Moved(j, m, n, to).inChunkSize == j.inChunkSize
  {
  }

  lemma QueuedLater(r: JobRun, r1: JobRun, j1: JobState, m: Message, count: nat, rest: bytes, r': JobRun)
    requires SizeInRange(j1.inChunkSize) && r1.log == r.log
    ensures Queued(r1, j1, m, count, rest, r') == Queued(r, j1, m, count, rest, r')
  {
  }

  // ----- sequences of messages -----

  type PositiveSize = x: int | 0 < x < TWO_32 witness 128

  /** Each message cut with its own chunk size. */
  function EncodedWith(ms: seq<Message>, sizes: seq<PositiveSize>): bytes
    requires |sizes| == |ms|
  {
    if ms == [] then [] else Encoded(ms[0], sizes[0]) + EncodedWith(ms[1..], sizes[1..])
  }

  /**
    The sizes are those the receiver has when it gets to each message, and there is one socket count
    for every chunk.
   */
  ghost predicate Paced(j: JobState, ms: seq<Message>, sizes: seq<PositiveSize>, counts: seq<nat>)
    requires ValidJob(j)
    decreases |ms|
  {
    if ms == [] then sizes == [] && counts == []
    else
      && |sizes| == |ms| && sizes[0] == j.inChunkSize
      && var n := Rounds(|ms[0].Body()|, 0, j.inChunkSize);
         && n <= |counts|
         && var r := RunJobs(j, Encoded(ms[0], j.inChunkSize), counts[..n]);
            r.status.Running? ==> Paced(r.state, ms[1..], sizes[1..], counts[n..])
  }

  /** The messages that carry a payload, in order. */
  function WithPayload(ms: seq<Message>): seq<Message> {
    if ms == [] then []
    else (if ms[0].Body() == [] then [] else [ms[0]]) + WithPayload(ms[1..])
  }

  function Messages(log: seq<Entry>): seq<Message> {
    seq(|log|, i requires 0 <= i < |log| => log[i].msg)
  }

  /** One message: the run goes on behind it, or stops. */
  lemma OneMessage(r: JobRun, m: Message, counts: seq<nat>, rest: bytes)
    requires r.status.Running? && ValidJob(r.state) && Sendable(m) && Idle(r.state.streams, m.cid)
    requires r.rest == Encoded(m, r.state.inChunkSize) + rest
    requires |counts| == Rounds(|m.Body()|, 0, r.state.inChunkSize)
    ensures var r' := RunOn(r, counts);
            && (r'.status.Running? ==>
                  && r'.rest == rest
                  && (forall cid :: Idle(r.state.streams, cid) ==> Idle(r'.state.streams, cid))
                  && (m.Body() == [] ==> r'.log == r.log)
                  && (m.Body() != [] ==>
                        && |r'.log| == |r.log| + 1 && r'.log[..|r.log|] == r.log
                        && SameMessage(r'.log[|r.log|].msg, m)))
            && (!Malformed(m) ==> r'.status.Running?)
            && (m.header.messageType !in {1, 4, 5} ==> r'.state.inChunkSize == r.state.inChunkSize)
  {
    hide Encoded, RunOn, Step, DecodePacket, ShouldAckRead, SameMessage, Arrived, ValidStreams, Malformed;
    MessageJobs(r, m, 0, counts, rest);
    Whole(m, WireHeader(m.header));
    OnlyMalformedFails(Moved(r.state, m, |counts|, |m.Body()|), Got(m), counts[|counts| - 1]);
    MalformedAlike(m);
  }

  lemma MalformedAlike(m: Message)
    requires m.header.payloadLength == |m.Body()|
    ensures Malformed(Got(m)) == Malformed(m)
  {
    hide GetU32;
    Whole(m, WireHeader(m.header));
  }

  /** The state behind a message does not depend on what follows it, or on what was queued before. */
  lemma SameState(j: JobState, m: Message, counts: seq<nat>, rest: bytes, log: seq<Entry>)
    requires ValidJob(j) && Sendable(m) && Idle(j.streams, m.cid)
    requires |counts| == Rounds(|m.Body()|, 0, j.inChunkSize)
    ensures var first := Encoded(m, j.inChunkSize);
            var r := RunOn(JobRun(j, first + rest, log, Running), counts);
            r.status.Running? ==> RunJobs(j, first, counts).status.Running? && RunJobs(j, first, counts).state == r.state
  {
    hide Encoded, ValidJob, RunOn, OnRecvMessage, ShouldAckRead, Moved, Got, RunJobs;
    var first := Encoded(m, j.inChunkSize);
    RunJobsFromFront(j, first, counts);
    assert first + [] == first;
    MessageJobs(JobRun(j, first, [], Running), m, 0, counts, []);
    MessageJobs(JobRun(j, first + rest, log, Running), m, 0, counts, rest);
  }

  lemma MessagesSnoc(log: seq<Entry>, k: nat, m: Message, later: seq<Message>)
    requires k < |log| && SameMessage(log[k].msg, m) && SameMessages(Messages(log[k + 1..]), later)
    ensures SameMessages(Messages(log[k..]), [m] + later)
  {
    hide SameMessage;
    forall i | 0 <= i < |log| - k
      ensures SameMessage(Messages(log[k..])[i], ([m] + later)[i])
    {
      assert log[k..][i] == log[k + i];
      if i > 0 {
        assert log[k + 1..][i - 1] == log[k + i];
        assert Messages(log[k + 1..])[i - 1] == log[k + i].msg;
      }
    }
  }

  lemma {:induction false} RunDelivers(r: JobRun, ms: seq<Message>, sizes: seq<PositiveSize>, counts: seq<nat>)
    requires r.status.Running? && ValidJob(r.state) && Paced(r.state, ms, sizes, counts)
    requires |sizes| == |ms| && r.rest == EncodedWith(ms, sizes)
    requires forall m :: m in ms ==> Sendable(m) && Idle(r.state.streams, m.cid)
    ensures var r' := RunOn(r, counts);
            r'.status.Running? ==>
              && r'.rest == []
              && |r.log| <= |r'.log| && r'.log[..|r.log|] == r.log
              && SameMessages(Messages(r'.log[|r.log|..]), WithPayload(ms))
    ensures (forall m :: m in ms ==> !Malformed(m)) ==> RunOn(r, counts).status.Running?
    decreases |ms|
  {
    hide Encoded, ValidStreams, RunOn, RunJobs, Idle, Sendable, SameMessage, Rounds, Malformed;
    if ms == [] {
      NothingRuns(r);
    } else {
      var n := Rounds(|ms[0].Body()|, 0, r.state.inChunkSize);
      var later := EncodedWith(ms[1..], sizes[1..]);
      assert counts == counts[..n] + counts[n..];
      RunOnConcat(r, counts[..n], counts[n..]);
      OneMessage(r, ms[0], counts[..n], later);
      var r1 := RunOn(r, counts[..n]);
      if r1.status.Stopped? {
        RunOnStopped(r1, counts[n..]);
      } else {
        SameState(r.state, ms[0], counts[..n], later, r.log);
        assert r == JobRun(r.state, Encoded(ms[0], r.state.inChunkSize) + later, r.log, Running);
        RunDelivers(r1, ms[1..], sizes[1..], counts[n..]);
        var r' := RunOn(r, counts);
        if r'.status.Running? {
          Extends(r.log, r1.log, r'.log);
          if ms[0].Body() != [] {
            assert r'.log[|r.log|] == r1.log[|r.log|];
            MessagesSnoc(r'.log, |r.log|, ms[0], WithPayload(ms[1..]));
          } else {
            assert [] + WithPayload(ms[1..]) == WithPayload(ms[1..]);
          }
        }
      }
    }
  }

  lemma NothingRuns(r: JobRun)
    requires ValidJob(r.state)
    ensures RunOn(r, []) == r
  {
  }

  lemma Extends(a: seq<Entry>, b: seq<Entry>, c: seq<Entry>)
    requires |a| <= |b| <= |c| && b[..|a|] == a && c[..|b|] == b
    ensures c[..|a|] == a
  {
    assert c[..|a|] == c[..|b|][..|a|];
  }

  /**
    The jobs on the encoding of any messages: if they do not stop, the queue gets exactly the messages
    that carry a payload, in order and unchanged, and no bytes are left. They do not stop unless a
    control message is malformed.
   */
  lemma JobsDeliver(j: JobState, ms: seq<Message>, sizes: seq<PositiveSize>, counts: seq<nat>)
    requires ValidJob(j) && Paced(j, ms, sizes, counts)
    requires |sizes| == |ms|
    requires forall m :: m in ms ==> Sendable(m) && Idle(j.streams, m.cid)
    ensures var r := RunJobs(j, EncodedWith(ms, sizes), counts);
            && (r.status.Running? ==> r.rest == [] && SameMessages(Messages(r.log), WithPayload(ms)))
            && ((forall m :: m in ms ==> !Malformed(m)) ==> r.status.Running?)
  {
    hide ValidJob, RunOn, RunJobs, Paced, Malformed, EncodedWith, SameMessages, WithPayload, Messages, Sendable, Idle;
    var r := JobRun(j, EncodedWith(ms, sizes), [], Running);
    RunJobsFromFront(j, EncodedWith(ms, sizes), counts);
    RunDelivers(r, ms, sizes, counts);
    var r' := RunOn(r, counts);
    assert r'.log[0..] == r'.log;
  }

  // ----- messages the jobs do not look into -----

  /** The chunks of a sequence of messages. */
  function AllRounds(ms: seq<Message>, size: nat): nat
    requires size > 0
  {
    if ms == [] then 0 else Rounds(|ms[0].Body()|, 0, size) + AllRounds(ms[1..], size)
  }

  lemma Ordinary(m: Message)
    requires m.header.messageType !in {1, 4, 5}
    ensures !Malformed(m)
  {
  }

  lemma {:induction false} OrdinaryRun(r: JobRun, ms: seq<Message>, counts: seq<nat>)
    requires r.status.Running? && ValidJob(r.state) && r.rest == EncodedAll(ms, r.state.inChunkSize)
    requires forall m :: m in ms ==> Sendable(m) && Idle(r.state.streams, m.cid) && m.header.messageType !in {1, 4, 5}
    requires |counts| == AllRounds(ms, r.state.inChunkSize)
    ensures var r' := RunOn(r, counts);
            && r'.status.Running? && r'.rest == []
            && |r.log| <= |r'.log| && r'.log[..|r.log|] == r.log
            && SameMessages(Messages(r'.log[|r.log|..]), WithPayload(ms))
    decreases |ms|
  {
    hide Encoded, RunOn, Idle, Sendable, SameMessage, Rounds, ValidStreams, Malformed;
    if ms == [] {
      NothingRuns(r);
    } else {
      var size := r.state.inChunkSize;
      var n := Rounds(|ms[0].Body()|, 0, size);
      assert counts == counts[..n] + counts[n..];
      RunOnConcat(r, counts[..n], counts[n..]);
      OneMessage(r, ms[0], counts[..n], EncodedAll(ms[1..], size));
      Ordinary(ms[0]);
      var r1 := RunOn(r, counts[..n]);
      OrdinaryRun(r1, ms[1..], counts[n..]);
      var r' := RunOn(r, counts);
      Extends(r.log, r1.log, r'.log);
      if ms[0].Body() != [] {
        assert r'.log[|r.log|] == r1.log[|r.log|];
        MessagesSnoc(r'.log, |r.log|, ms[0], WithPayload(ms[1..]));
      } else {
        assert [] + WithPayload(ms[1..]) == WithPayload(ms[1..]);
      }
    }
  }

  /**
    Audio, video, data and commands: the jobs never stop, one for each chunk, and the queue gets the
    messages that carry a payload, in order, whatever the socket counts.
   */
  lemma OrdinaryMessagesDelivered(j: JobState, ms: seq<Message>, counts: seq<nat>)
    requires ValidJob(j)
    requires forall m :: m in ms ==> Sendable(m) && Idle(j.streams, m.cid) && m.header.messageType !in {1, 4, 5}
    requires |counts| == AllRounds(ms, j.inChunkSize)
    ensures var r := RunJobs(j, EncodedAll(ms, j.inChunkSize), counts);
            r.status.Running? && r.rest == [] && SameMessages(Messages(r.log), WithPayload(ms))
  {
    hide RunOn, RunJobs, EncodedAll, AllRounds, SameMessages, WithPayload, Messages, Sendable, Idle;
    var r := JobRun(j, EncodedAll(ms, j.inChunkSize), [], Running);
    RunJobsFromFront(j, EncodedAll(ms, j.inChunkSize), counts);
    OrdinaryRun(r, ms, counts);
    var r' := RunOn(r, counts);
    assert r'.log[0..] == r'.log;
  }
}
