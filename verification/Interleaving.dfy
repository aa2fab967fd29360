/**
  Interleaving: chunks of different chunk streams may be mixed in any order. Each stream yields what
  it yields alone, and the messages come out in the order of their final chunks.
 */
module Interleaving {
  import opened Bytes
  import opened Errors
  import opened Chunk
  import opened Prefix
  import opened RoundTrip
  import opened Reassembly

  /** The chunk stream a chunk belongs to. */
  function CidOf(chunk: bytes): int {
    if BasicHeader(chunk).Ok? then BasicHeader(chunk).value.cid else -1
  }

  datatype Fed = Fed(streams: Streams, msgs: seq<Message>)

  /** Receives the given chunks, each of which must be exactly one chunk; `None` if one is not. */
  function Feed(s: Streams, chunkSize: nat, chunks: seq<bytes>): (r: Option<Fed>)
    requires ValidStreams(s) && chunkSize > 0
    ensures r.Some? ==> ValidStreams(r.value.streams)
  {
    if chunks == [] then Some(Fed(s, []))
    else
      var last := chunks[|chunks| - 1];
      var before := Feed(s, chunkSize, chunks[..|chunks| - 1]);
      if before.None? then None
      else
        var step := Step(before.value.streams, chunkSize, last);
        if step.Ok? && step.size == |last|
        then Some(Fed(step.value.streams, before.value.msgs + Delivered(step.value.done)))
        else None
  }

  function Delivered(m: Option<Message>): seq<Message> {
    if m.Some? then [m.value] else []
  }

  /** The chunks of one chunk stream, in their order. */
  function OnStream(chunks: seq<bytes>, cid: int): seq<bytes> {
    if chunks == [] then []
    else
      var last := chunks[|chunks| - 1];
      OnStream(chunks[..|chunks| - 1], cid) + if CidOf(last) == cid then [last] else []
  }

  function ByCid(msgs: seq<Message>, cid: int): seq<Message> {
    if msgs == [] then []
    else
      var last := msgs[|msgs| - 1];
      ByCid(msgs[..|msgs| - 1], cid) + if last.cid == cid then [last] else []
  }

  /** Every chunk stream's own chunks are in order, taken alone. */
  ghost predicate EachAlone(s: Streams, chunkSize: nat, chunks: seq<bytes>)
    requires ValidStreams(s) && chunkSize > 0
  {
    forall cid :: Feed(s, chunkSize, OnStream(chunks, cid)).Some?
  }

  /**
    The reference order: chunk by chunk, append what that chunk completes when only the chunks of its
    own stream are received.
   */
  function InOrderOfFinalChunks(s: Streams, chunkSize: nat, chunks: seq<bytes>): seq<Message>
    requires ValidStreams(s) && chunkSize > 0
  {
    if chunks == [] then []
    else
      var before := chunks[..|chunks| - 1];
      var cid := CidOf(chunks[|chunks| - 1]);
      var had := Feed(s, chunkSize, OnStream(before, cid));
      var has := Feed(s, chunkSize, OnStream(chunks, cid));
      InOrderOfFinalChunks(s, chunkSize, before) +
      if had.Some? && has.Some? && |had.value.msgs| <= |has.value.msgs|
      then has.value.msgs[|had.value.msgs|..] else []
  }

  /** The outcome of a chunk depends on its own chunk stream only. */
  lemma StepIsLocal(s: Streams, t: Streams, chunkSize: nat, b: bytes)
    requires ValidStreams(s) && ValidStreams(t) && chunkSize > 0
    requires Lookup(s, CidOf(b)) == Lookup(t, CidOf(b))
    ensures var p, q := Step(s, chunkSize, b), Step(t, chunkSize, b);
            && p.Ok? == q.Ok?
            && (p.Ok? ==>
                  && p.size == q.size && p.value.done == q.value.done && p.value.cid == q.value.cid == CidOf(b)
                  && Lookup(p.value.streams, CidOf(b)) == Lookup(q.value.streams, CidOf(b))
                  && (p.value.done.Some? ==> p.value.done.value.cid == CidOf(b)))
  {
    hide ChunkBody;
  }

  lemma LastOf<T>(xs: seq<T>, x: T)
    ensures (xs + [x])[..|xs|] == xs && (xs + [x])[|xs|] == x
  {
  }

  lemma ByCidSnoc(msgs: seq<Message>, m: Option<Message>, cid: int)
    ensures ByCid(msgs + Delivered(m), cid) ==
            ByCid(msgs, cid) + if m.Some? && m.value.cid == cid then Delivered(m) else []
  {
    if m.Some? {
      LastOf(msgs, m.value);
    } else {
      assert msgs + [] == msgs;
    }
  }

  /** From the mixture to each stream alone. */
  lemma {:induction false} Projection(s: Streams, chunkSize: nat, chunks: seq<bytes>, cid: int)
    requires ValidStreams(s) && chunkSize > 0 && Feed(s, chunkSize, chunks).Some?
    ensures var all, alone := Feed(s, chunkSize, chunks), Feed(s, chunkSize, OnStream(chunks, cid));
            && alone.Some?
            && alone.value.msgs == ByCid(all.value.msgs, cid)
            && Lookup(alone.value.streams, cid) == Lookup(all.value.streams, cid)
    decreases |chunks|
  {
    hide Step, CidOf, Lookup, ByCid;
    if chunks == [] {
      ByCidSnoc([], None, cid);
      assert ByCid([], cid) == [] by { NoneByCid(cid); }
    } else {
      var last, before := chunks[|chunks| - 1], chunks[..|chunks| - 1];
      Projection(s, chunkSize, before, cid);
      var f, g := Feed(s, chunkSize, before).value, Feed(s, chunkSize, OnStream(before, cid)).value;
      var step := Step(f.streams, chunkSize, last);
      ByCidSnoc(f.msgs, step.value.done, cid);
      StepIsLocal(f.streams, f.streams, chunkSize, last);
      OtherStreamsKept(f.streams, chunkSize, last, cid);
      if CidOf(last) == cid {
        StepIsLocal(f.streams, g.streams, chunkSize, last);
        LastOf(OnStream(before, cid), last);
      } else {
        assert OnStream(chunks, cid) == OnStream(before, cid);
      }
    }
  }

  lemma NoneByCid(cid: int)
    ensures ByCid([], cid) == []
  {
  }

  /** Dropping the last chunk of the mixture leaves every stream in order. */
  lemma EachAloneBefore(s: Streams, chunkSize: nat, chunks: seq<bytes>)
    requires ValidStreams(s) && chunkSize > 0 && chunks != [] && EachAlone(s, chunkSize, chunks)
    ensures EachAlone(s, chunkSize, chunks[..|chunks| - 1])
  {
    hide Step, CidOf;
    var before, last := chunks[..|chunks| - 1], chunks[|chunks| - 1];
    forall cid
      ensures Feed(s, chunkSize, OnStream(before, cid)).Some?
    {
      assert Feed(s, chunkSize, OnStream(chunks, cid)).Some?;
      if CidOf(last) == cid {
        LastOf(OnStream(before, cid), last);
      } else {
        assert OnStream(chunks, cid) == OnStream(before, cid);
      }
    }
  }

  /** From each stream alone to the mixture, and the order of what comes out. */
  lemma {:induction false} Mixture(s: Streams, chunkSize: nat, chunks: seq<bytes>)
    requires ValidStreams(s) && chunkSize > 0 && EachAlone(s, chunkSize, chunks)
    ensures var all := Feed(s, chunkSize, chunks);
            all.Some? && all.value.msgs == InOrderOfFinalChunks(s, chunkSize, chunks)
    decreases |chunks|
  {
    hide Step, CidOf, Lookup;
    if chunks != [] {
      var before, last := chunks[..|chunks| - 1], chunks[|chunks| - 1];
      var cid := CidOf(last);
      EachAloneBefore(s, chunkSize, chunks);
      Mixture(s, chunkSize, before);
      Projection(s, chunkSize, before, cid);
      var f, g := Feed(s, chunkSize, before).value, Feed(s, chunkSize, OnStream(before, cid)).value;
      LastOf(OnStream(before, cid), last);
      assert Feed(s, chunkSize, OnStream(chunks, cid)).Some?;
      StepIsLocal(f.streams, g.streams, chunkSize, last);
    }
  }

  /** Feeding chunk by chunk is what the receiver does with the concatenated bytes. */
  function Concat(chunks: seq<bytes>): bytes {
    if chunks == [] then [] else Concat(chunks[..|chunks| - 1]) + chunks[|chunks| - 1]
  }

  lemma RunStep(s: Streams, chunkSize: nat, b: bytes)
    requires ValidStreams(s) && chunkSize > 0 && Step(s, chunkSize, b).Ok?
    ensures var step := Step(s, chunkSize, b);
            var later := Run(step.value.streams, chunkSize, b[step.size..]);
            Run(s, chunkSize, b) == later.(msgs := Delivered(step.value.done) + later.msgs)
  {
    hide Step;
    var step := Step(s, chunkSize, b);
    var later := Run(step.value.streams, chunkSize, b[step.size..]);
    assert [] + later.msgs == later.msgs;
  }

  lemma {:induction false} FeedThenRun(s: Streams, chunkSize: nat, chunks: seq<bytes>, rest: bytes)
    requires ValidStreams(s) && chunkSize > 0 && Feed(s, chunkSize, chunks).Some?
    ensures var f := Feed(s, chunkSize, chunks).value;
            var later := Run(f.streams, chunkSize, rest);
            Run(s, chunkSize, Concat(chunks) + rest) == later.(msgs := f.msgs + later.msgs)
    decreases |chunks|
  {
    hide Step, Run;
    if chunks == [] {
      assert Concat(chunks) + rest == rest;
      assert [] + Run(s, chunkSize, rest).msgs == Run(s, chunkSize, rest).msgs;
    } else {
      var last, before := chunks[|chunks| - 1], chunks[..|chunks| - 1];
      var f := Feed(s, chunkSize, before).value;
      FeedThenRun(s, chunkSize, before, last + rest);
      assert Concat(chunks) + rest == Concat(before) + (last + rest);
      StepPrefix(f.streams, chunkSize, last, rest);
      assert (last + rest)[|last|..] == rest;
      RunStep(f.streams, chunkSize, last + rest);
      var step := Step(f.streams, chunkSize, last).value;
      var later := Run(step.streams, chunkSize, rest).msgs;
      assert f.msgs + Delivered(step.done) + later == f.msgs + (Delivered(step.done) + later);
    }
  }

  /**
    The interleaving theorem: if every chunk stream's own chunks are in order, then the receiver, on
    the mixed bytes, takes every chunk, delivers the messages each stream delivers alone in the order
    of their final chunks, and leaves each stream as it would be alone.
   */
  lemma AnyInterleaving(s: Streams, chunkSize: nat, chunks: seq<bytes>)
    requires ValidStreams(s) && chunkSize > 0 && EachAlone(s, chunkSize, chunks)
    ensures var r := Run(s, chunkSize, Concat(chunks));
            && r.rest == [] && r.error.None?
            && r.msgs == InOrderOfFinalChunks(s, chunkSize, chunks)
            && (forall cid ::
                  var alone := Feed(s, chunkSize, OnStream(chunks, cid)).value;
                  ByCid(r.msgs, cid) == alone.msgs && Lookup(r.streams, cid) == Lookup(alone.streams, cid))
  {
    hide Run, Feed, OnStream, ByCid, Lookup;
    Mixture(s, chunkSize, chunks);
    FeedThenRun(s, chunkSize, chunks, []);
    assert Concat(chunks) + [] == Concat(chunks);
    var f := Feed(s, chunkSize, chunks).value;
    RunEmpty(f.streams, chunkSize);
    assert f.msgs + [] == f.msgs;
    forall cid
      ensures var alone := Feed(s, chunkSize, OnStream(chunks, cid)).value;
              ByCid(f.msgs, cid) == alone.msgs && Lookup(f.streams, cid) == Lookup(alone.streams, cid)
    {
      Projection(s, chunkSize, chunks, cid);
    }
  }

  /** In order taken together, exactly when in order each alone. */
  lemma TogetherIffEachAlone(s: Streams, chunkSize: nat, chunks: seq<bytes>)
    requires ValidStreams(s) && chunkSize > 0
    ensures Feed(s, chunkSize, chunks).Some? <==> EachAlone(s, chunkSize, chunks)
  {
    hide Feed, OnStream;
    if Feed(s, chunkSize, chunks).Some? {
      forall cid
        ensures Feed(s, chunkSize, OnStream(chunks, cid)).Some?
      {
        Projection(s, chunkSize, chunks, cid);
      }
    } else if EachAlone(s, chunkSize, chunks) {
      Mixture(s, chunkSize, chunks);
    }
  }
}
