/**
  The interleaved round trip: messages on several chunk streams, each cut by a conforming peer or by
  our own sender, arrive complete and in the order of their final chunks, however the chunks of the
  streams are mixed.
 */
module Mixing {
  import opened Bytes
  import opened Errors
  import opened Chunk
  import opened Sending
  import opened RoundTrip
  import opened Interleaving
  import opened Compression

  /** A chunk, and the message it is the final chunk of. */
  datatype Tagged = Tagged(chunk: bytes, last: Option<Message>)

  function Untag(list: seq<Tagged>): (chunks: seq<bytes>)
    ensures |chunks| == |list|
  {
    if list == [] then [] else Untag(list[..|list| - 1]) + [list[|list| - 1].chunk]
  }

  /** The messages of the final chunks, in their order. */
  function Finals(list: seq<Tagged>): seq<Message> {
    if list == [] then [] else Finals(list[..|list| - 1]) + Delivered(list[|list| - 1].last)
  }

  function OfStream(list: seq<Tagged>, cid: int): seq<Tagged> {
    if list == [] then []
    else
      var last := list[|list| - 1];
      OfStream(list[..|list| - 1], cid) + if CidOf(last.chunk) == cid then [last] else []
  }

  // ----- lists that are received as they are tagged -----

  predicate Matches(done: Option<Message>, last: Option<Message>) {
    done.Some? == last.Some? && (done.Some? ==> SameMessage(done.value, last.value))
  }

  /** Every chunk is taken whole and completes the message it is tagged with. */
  predicate Good(s: Streams, chunkSize: nat, list: seq<Tagged>)
    requires ValidStreams(s) && chunkSize > 0
  {
    list == [] ||
    var before, last := list[..|list| - 1], list[|list| - 1];
    && Good(s, chunkSize, before)
    && var f := Feed(s, chunkSize, Untag(before));
    && f.Some?
    && var step := Step(f.value.streams, chunkSize, last.chunk);
    && step.Ok? && step.size == |last.chunk| && Matches(step.value.done, last.last)
  }

  lemma {:induction false} GoodMeans(s: Streams, chunkSize: nat, list: seq<Tagged>)
    requires ValidStreams(s) && chunkSize > 0 && Good(s, chunkSize, list)
    ensures Feed(s, chunkSize, Untag(list)).Some?
    ensures SameMessages(Feed(s, chunkSize, Untag(list)).value.msgs, Finals(list))
    decreases |list|
  {
    hide Step, SameMessage, Feed, SameMessages;
    if list == [] {
      FeedNothing(s, chunkSize);
    } else {
      var before, last := list[..|list| - 1], list[|list| - 1];
      GoodMeans(s, chunkSize, before);
      var f := Feed(s, chunkSize, Untag(before)).value;
      FeedSnoc(s, chunkSize, Untag(before), last.chunk);
      SameSnoc(f.msgs, Finals(before), Step(f.streams, chunkSize, last.chunk).value.done, last.last);
    }
  }

  lemma FeedNothing(s: Streams, chunkSize: nat)
    requires ValidStreams(s) && chunkSize > 0
    ensures Feed(s, chunkSize, []) == Some(Fed(s, [])) && SameMessages([], [])
  {
  }

  lemma FeedSnoc(s: Streams, chunkSize: nat, chunks: seq<bytes>, x: bytes)
    requires ValidStreams(s) && chunkSize > 0 && Feed(s, chunkSize, chunks).Some?
    requires var step := Step(Feed(s, chunkSize, chunks).value.streams, chunkSize, x); step.Ok? && step.size == |x|
    ensures var f := Feed(s, chunkSize, chunks).value;
            var step := Step(f.streams, chunkSize, x).value;
            Feed(s, chunkSize, chunks + [x]) == Some(Fed(step.streams, f.msgs + Delivered(step.done)))
  {
    hide Step;
    LastOf(chunks, x);
  }

  lemma SameSnoc(got: seq<Message>, sent: seq<Message>, done: Option<Message>, last: Option<Message>)
    requires SameMessages(got, sent) && Matches(done, last)
    ensures SameMessages(got + Delivered(done), sent + Delivered(last))
  {
    hide SameMessage;
  }

  /** The streams a list leaves. */
  function End(s: Streams, chunkSize: nat, list: seq<Tagged>): (s': Streams)
    requires ValidStreams(s) && chunkSize > 0 && Good(s, chunkSize, list)
    ensures ValidStreams(s')
  {
    GoodMeans(s, chunkSize, list);
    Feed(s, chunkSize, Untag(list)).value.streams
  }

  /** One more chunk. */
  lemma GoodSnoc(s: Streams, chunkSize: nat, list: seq<Tagged>, x: Tagged)
    requires ValidStreams(s) && chunkSize > 0 && Good(s, chunkSize, list)
    requires var step := Step(End(s, chunkSize, list), chunkSize, x.chunk);
             step.Ok? && step.size == |x.chunk| && Matches(step.value.done, x.last)
    ensures Good(s, chunkSize, list + [x])
    ensures End(s, chunkSize, list + [x]) == Step(End(s, chunkSize, list), chunkSize, x.chunk).value.streams
  {
    hide Step, Matches, Feed;
    GoodMeans(s, chunkSize, list);
    LastOf(list, x);
    FeedSnoc(s, chunkSize, Untag(list), x.chunk);
  }

  lemma GoodLast(s: Streams, chunkSize: nat, list: seq<Tagged>, x: Tagged)
    requires ValidStreams(s) && chunkSize > 0 && Good(s, chunkSize, list + [x])
    ensures Good(s, chunkSize, list)
    ensures var step := Step(End(s, chunkSize, list), chunkSize, x.chunk);
            step.Ok? && step.size == |x.chunk| && Matches(step.value.done, x.last)
  {
    hide Step, Matches, Feed;
    LastOf(list, x);
  }

  lemma {:induction false} GoodConcat(s: Streams, chunkSize: nat, a: seq<Tagged>, b: seq<Tagged>)
    requires ValidStreams(s) && chunkSize > 0 && Good(s, chunkSize, a)
    requires Good(End(s, chunkSize, a), chunkSize, b)
    ensures Good(s, chunkSize, a + b)
    ensures End(s, chunkSize, a + b) == End(End(s, chunkSize, a), chunkSize, b)
    decreases |b|
  {
    hide Step, Matches, Good, End;
    if b == [] {
      assert a + b == a;
      EndOfNothing(End(s, chunkSize, a), chunkSize);
    } else {
      var before, last := b[..|b| - 1], b[|b| - 1];
      assert b == before + [last];
      GoodLast(End(s, chunkSize, a), chunkSize, before, last);
      GoodConcat(s, chunkSize, a, before);
      assert a + b == (a + before) + [last];
      GoodSnoc(s, chunkSize, a + before, last);
      GoodSnoc(End(s, chunkSize, a), chunkSize, before, last);
    }
  }

  lemma EndOfNothing(s: Streams, chunkSize: nat)
    requires ValidStreams(s) && chunkSize > 0
    ensures Good(s, chunkSize, []) && End(s, chunkSize, []) == s
  {
    FeedNothing(s, chunkSize);
  }

  /** A single chunk. */
  lemma GoodOne(s: Streams, chunkSize: nat, x: Tagged)
    requires ValidStreams(s) && chunkSize > 0
    requires var step := Step(s, chunkSize, x.chunk);
             step.Ok? && step.size == |x.chunk| && Matches(step.value.done, x.last)
    ensures Good(s, chunkSize, [x])
    ensures End(s, chunkSize, [x]) == Step(s, chunkSize, x.chunk).value.streams
  {
    hide Step, Matches, Good, End;
    assert [] + [x] == [x];
    EndOfNothing(s, chunkSize);
    GoodSnoc(s, chunkSize, [], x);
  }

  // ----- one message -----

  /** The type 3 chunks of a message, tagged. */
  function MoreChunks(m: Message, sent: nat, chunkSize: nat, extension: bytes): seq<Tagged>
    requires 2 <= m.cid <= 65599 && sent <= |m.Body()| && chunkSize > 0
    decreases |m.Body()| - sent
  {
    if sent == |m.Body()| then []
    else
      var piece := NextPiece(m, sent, chunkSize);
      var to := sent + |piece|;
      [Tagged(BasicBytes(3, m.cid) + extension + piece, if to == |m.Body()| then Some(m) else None)]
      + MoreChunks(m, to, chunkSize, extension)
  }

  function MessageChunks(cache: Cache, m: Message, format: nat, chunkSize: nat): seq<Tagged>
    requires Conforms(cache, m, format) && chunkSize > 0
  {
    var to := |NextPiece(m, 0, chunkSize)|;
    [Tagged(First(cache, m, format, chunkSize), if to == |m.Body()| then Some(m) else None)]
    + MoreChunks(m, to, chunkSize, Extension(Delta(cache, m, format)))
  }

  /** A carried chunk is good, tagged with the message it completes. */
  lemma CarriedIsGood(
    s: Streams, chunkSize: nat, chunk: bytes, m: Message, h: Header, c': ChunkStream, to: nat) returns (x: Tagged)
    requires ValidStreams(s) && chunkSize > 0 && to <= |m.Body()|
    requires Carries(s, chunkSize, chunk, [], m, h, c', to)
    requires SameHeader(h, m.header) && h.payloadLength == |m.Body()|
    ensures x == Tagged(chunk, if to == |m.Body()| then Some(m) else None)
    ensures Good(s, chunkSize, [x]) && End(s, chunkSize, [x]) == s[m.cid := c']
  {
    hide Step, Arrived, SameMessage, Good;
    assert chunk + [] == chunk;
    x := Tagged(chunk, if to == |m.Body()| then Some(m) else None);
    if to == |m.Body()| {
      Whole(m, h);
    }
    GoodOne(s, chunkSize, x);
  }

  /** The stream of a message whose chunks are all in. */
  predicate Complete(c: ChunkStream, h: Header, extended: bool) {
    c.msg.None? && c.count > 0 && c.header == h && c.extended == extended
  }

  lemma {:induction false} MoreIsGood(
    s: Streams, m: Message, h: Header, extension: bytes, count: nat, sent: nat, chunkSize: nat)
    requires ValidStreams(s) && chunkSize > 0 && count > 0 && 2 <= m.cid <= 65599
    requires 0 < sent < |m.Body()| && h.payloadLength == |m.Body()| < TWO_24 && SameHeader(h, m.header)
    requires m.cid in s && s[m.cid] == Stage(m, h, s[m.cid].extended, s[m.cid].cid, count, sent)
    requires Repeats(h, s[m.cid].extended, extension)
    ensures var list := MoreChunks(m, sent, chunkSize, extension);
            && Good(s, chunkSize, list)
            && var s' := End(s, chunkSize, list);
            m.cid in s' && s' == s[m.cid := s'[m.cid]] && Complete(s'[m.cid], h, s[m.cid].extended)
    decreases |m.Body()| - sent
  {
    hide Step, Carries, BasicBytes, Arrived, Repeats, Good, End;
    var extended := s[m.cid].extended;
    var piece := NextPiece(m, sent, chunkSize);
    var to := sent + |piece|;
    var c' := Stage(m, h, extended, s[m.cid].cid, count + 1, to);
    MoreBack(s, m, h, extension, count, sent, chunkSize, []);
    var x := CarriedIsGood(s, chunkSize, BasicBytes(3, m.cid) + extension + piece, m, h, c', to);
    var later := MoreChunks(m, to, chunkSize, extension);
    if to < |m.Body()| {
      StageIsValid(m, h, extended, s[m.cid].cid, count + 1, to);
      MoreIsGood(s[m.cid := c'], m, h, extension, count + 1, to, chunkSize);
      GoodConcat(s, chunkSize, [x], later);
    } else {
      assert [x] + later == [x];
    }
  }

  /** The chunks of a message that is understood. */
  lemma MessageIsGood(s: Streams, cache: Cache, m: Message, format: nat, chunkSize: nat)
    requires ValidStreams(s) && chunkSize > 0 && Conforms(cache, m, format) && Understood(cache, m, format)
    requires Agrees(Lookup(s, m.cid), cache, m.cid)
    ensures var list := MessageChunks(cache, m, format, chunkSize);
            && Good(s, chunkSize, list)
            && var s' := End(s, chunkSize, list);
            && m.cid in s' && s' == s[m.cid := s'[m.cid]]
            && Agrees(s'[m.cid], cache[m.cid := Remembered(cache, m, format)], m.cid)
  {
    hide Step, Carries, First, Arrived, Repeats, Good, End, PutBE;
    var h, to := HeardHeader(cache, m, format), |NextPiece(m, 0, chunkSize)|;
    var delta := Delta(cache, m, format);
    var extended, extension := delta >= EXTENDED_TIMESTAMP, Extension(delta);
    UnderstoodIff(cache, m, format);
    HeardRepeats(cache, m, format);
    FirstBack(s, cache, m, format, chunkSize, []);
    var c := Lookup(s, m.cid);
    var c' := Stage(m, h, extended, c.cid, c.count + 1, to);
    var x := CarriedIsGood(s, chunkSize, First(cache, m, format, chunkSize), m, h, c', to);
    var later := MoreChunks(m, to, chunkSize, extension);
    var s1 := s[m.cid := c'];
    if to < |m.Body()| {
      StageIsValid(m, h, extended, c.cid, c.count + 1, to);
      MoreIsGood(s1, m, h, extension, c.count + 1, to, chunkSize);
      GoodConcat(s, chunkSize, [x], later);
    } else {
      assert [x] + later == [x];
    }
    var s' := End(s, chunkSize, MessageChunks(cache, m, format, chunkSize));
    assert Complete(s'[m.cid], h, extended);
    UnderstoodHolds(s'[m.cid], cache, m, format);
  }

  // ----- the messages of one stream -----

  function StreamChunks(cache: Cache, cs: seq<Choice>, chunkSize: nat): seq<Tagged>
    requires AllConform(cache, cs) && chunkSize > 0
    decreases |cs|
  {
    if cs == [] then []
    else MessageChunks(cache, cs[0].msg, cs[0].format, chunkSize) + StreamChunks(After(cache, cs[0]), cs[1..], chunkSize)
  }

  predicate AllOn(cs: seq<Choice>, cid: int) {
    forall i :: 0 <= i < |cs| ==> cs[i].msg.cid == cid
  }

  lemma {:induction false} StreamIsGood(s: Streams, cache: Cache, cs: seq<Choice>, cid: int, chunkSize: nat)
    requires ValidStreams(s) && chunkSize > 0 && AllConform(cache, cs) && AllUnderstood(cache, cs) && AllOn(cs, cid)
    requires Agrees(Lookup(s, cid), cache, cid)
    ensures Good(s, chunkSize, StreamChunks(cache, cs, chunkSize))
    decreases |cs|
  {
    hide Step, MessageChunks, Agrees, Conforms, Understood, Good, End, Remembered;
    if cs == [] {
      EndOfNothing(s, chunkSize);
    } else {
      var m, format := cs[0].msg, cs[0].format;
      MessageIsGood(s, cache, m, format, chunkSize);
      var list := MessageChunks(cache, m, format, chunkSize);
      var s' := End(s, chunkSize, list);
      StreamIsGood(s', After(cache, cs[0]), cs[1..], cid, chunkSize);
      GoodConcat(s, chunkSize, list, StreamChunks(After(cache, cs[0]), cs[1..], chunkSize));
    }
  }

  lemma {:induction false} FinalsConcat(a: seq<Tagged>, b: seq<Tagged>)
    ensures Finals(a + b) == Finals(a) + Finals(b)
    decreases |b|
  {
    hide Finals;
    if b == [] {
      assert a + b == a;
      NoFinals();
    } else {
      var before, last := b[..|b| - 1], b[|b| - 1];
      FinalsConcat(a, before);
      assert b == before + [last] && a + b == (a + before) + [last];
      FinalsSnoc(a + before, last);
      FinalsSnoc(before, last);
    }
  }

  lemma FinalsSnoc(list: seq<Tagged>, x: Tagged)
    ensures Finals(list + [x]) == Finals(list) + Delivered(x.last)
  {
    LastOf(list, x);
  }

  lemma FinalsOne(x: Tagged)
    ensures Finals([x]) == Delivered(x.last)
  {
    assert [x][..0] == [];
    assert Finals([]) == [];
  }

  lemma {:induction false} MoreFinals(m: Message, sent: nat, chunkSize: nat, extension: bytes)
    requires 2 <= m.cid <= 65599 && sent <= |m.Body()| && chunkSize > 0
    ensures Finals(MoreChunks(m, sent, chunkSize, extension)) == if sent < |m.Body()| then [m] else []
    decreases |m.Body()| - sent
  {
    hide Finals, BasicBytes;
    if sent < |m.Body()| {
      var piece := NextPiece(m, sent, chunkSize);
      var to := sent + |piece|;
      MoreFinals(m, to, chunkSize, extension);
      var x := Tagged(BasicBytes(3, m.cid) + extension + piece, if to == |m.Body()| then Some(m) else None);
      FinalsOne(x);
      FinalsConcat([x], MoreChunks(m, to, chunkSize, extension));
    } else {
      NoFinals();
    }
  }

  lemma NoFinals()
    ensures Finals([]) == []
  {
  }

  /** The final chunks of a stream are those of its messages, in order. */
  lemma {:induction false} StreamFinals(cache: Cache, cs: seq<Choice>, chunkSize: nat)
    requires AllConform(cache, cs) && chunkSize > 0
    ensures Finals(StreamChunks(cache, cs, chunkSize)) == Msgs(cs)
    decreases |cs|
  {
    hide Finals, First, MoreChunks;
    if cs == [] {
      NoFinals();
    } else {
      var m, format := cs[0].msg, cs[0].format;
      var to := |NextPiece(m, 0, chunkSize)|;
      var x := Tagged(First(cache, m, format, chunkSize), if to == |m.Body()| then Some(m) else None);
      var more := MoreChunks(m, to, chunkSize, Extension(Delta(cache, m, format)));
      MoreFinals(m, to, chunkSize, Extension(Delta(cache, m, format)));
      FinalsOne(x);
      FinalsConcat([x], more);
      StreamFinals(After(cache, cs[0]), cs[1..], chunkSize);
      FinalsConcat([x] + more, StreamChunks(After(cache, cs[0]), cs[1..], chunkSize));
    }
  }

  // ----- mixtures -----

  lemma {:induction false} UntagStream(list: seq<Tagged>, cid: int)
    ensures OnStream(Untag(list), cid) == Untag(OfStream(list, cid))
    decreases |list|
  {
    hide CidOf;
    if list != [] {
      var before, last := list[..|list| - 1], list[|list| - 1];
      UntagStream(before, cid);
      LastOf(Untag(before), last.chunk);
      if CidOf(last.chunk) == cid {
        LastOf(OfStream(before, cid), last);
      } else {
        assert OfStream(list, cid) == OfStream(before, cid);
        assert OnStream(Untag(list), cid) == OnStream(Untag(before), cid);
      }
    }
  }

  ghost predicate EachGood(s: Streams, chunkSize: nat, list: seq<Tagged>)
    requires ValidStreams(s) && chunkSize > 0
  {
    forall cid :: Good(s, chunkSize, OfStream(list, cid))
  }

  lemma EachGoodBefore(s: Streams, chunkSize: nat, list: seq<Tagged>)
    requires ValidStreams(s) && chunkSize > 0 && list != [] && EachGood(s, chunkSize, list)
    ensures EachGood(s, chunkSize, list[..|list| - 1])
  {
    hide Step, CidOf, Matches, Feed;
    var before, last := list[..|list| - 1], list[|list| - 1];
    forall cid
      ensures Good(s, chunkSize, OfStream(before, cid))
    {
      assert Good(s, chunkSize, OfStream(list, cid));
      if CidOf(last.chunk) == cid {
        LastOf(OfStream(before, cid), last);
      } else {
        assert OfStream(list, cid) == OfStream(before, cid);
      }
    }
  }

  /** If each stream's chunks are good alone, so are all together. */
  lemma {:induction false} MixtureIsGood(s: Streams, chunkSize: nat, mix: seq<Tagged>)
    requires ValidStreams(s) && chunkSize > 0 && EachGood(s, chunkSize, mix)
    ensures Good(s, chunkSize, mix)
    decreases |mix|
  {
    hide Step, CidOf, Lookup, Matches, Feed, OnStream, Untag;
    if mix == [] {
      EndOfNothing(s, chunkSize);
    } else {
      var before, last := mix[..|mix| - 1], mix[|mix| - 1];
      var cid := CidOf(last.chunk);
      EachGoodBefore(s, chunkSize, mix);
      MixtureIsGood(s, chunkSize, before);
      GoodMeans(s, chunkSize, before);
      Projection(s, chunkSize, Untag(before), cid);
      UntagStream(before, cid);
      var f, g := Feed(s, chunkSize, Untag(before)).value, Feed(s, chunkSize, OnStream(Untag(before), cid)).value;
      LastOf(OfStream(before, cid), last);
      assert Good(s, chunkSize, OfStream(mix, cid));
      StepIsLocal(f.streams, g.streams, chunkSize, last.chunk);
      LastOf(before, last);
      assert before + [last] == mix;
    }
  }

  /** What the mixture is made of: for each chunk stream, the chunks of its messages in order. */
  ghost predicate Mixes(mix: seq<Tagged>, cache: Cache, plan: map<int, seq<Choice>>, chunkSize: nat)
    requires chunkSize > 0 && forall cid :: cid in plan ==> AllConform(cache, plan[cid])
  {
    forall cid :: OfStream(mix, cid) == if cid in plan then StreamChunks(cache, plan[cid], chunkSize) else []
  }

  /**
    The interleaved round trip. `plan` says which messages, in which header types, a conforming peer
    sends on each chunk stream; any mixture of their chunks brings all messages, each stream's in its
    order, and all together in the order of their final chunks.
   */
  lemma InterleavedRoundTrip(
    s: Streams, cache: Cache, plan: map<int, seq<Choice>>, mix: seq<Tagged>, chunkSize: nat)
    requires ValidStreams(s) && chunkSize > 0 && AllAgree(s, cache)
    requires forall cid :: cid in plan ==>
               AllConform(cache, plan[cid]) && AllUnderstood(cache, plan[cid]) && AllOn(plan[cid], cid)
    requires Mixes(mix, cache, plan, chunkSize)
    ensures var r := Run(s, chunkSize, Concat(Untag(mix)));
            SameMessages(r.msgs, Finals(mix)) && r.rest == [] && r.error.None?
    ensures forall cid :: cid in plan ==> Finals(OfStream(mix, cid)) == Msgs(plan[cid])
  {
    hide Run, Feed, Good, Agrees, AllConform, AllUnderstood, StreamChunks, Lookup, SameMessage, Finals, Untag, Concat,
         Step, Msgs, OfStream;
    forall cid
      ensures Good(s, chunkSize, OfStream(mix, cid))
    {
      if cid in plan {
        assert Agrees(Lookup(s, cid), cache, cid);
        StreamIsGood(s, cache, plan[cid], cid, chunkSize);
      } else {
        EndOfNothing(s, chunkSize);
      }
    }
    forall cid | cid in plan
      ensures Finals(OfStream(mix, cid)) == Msgs(plan[cid])
    {
      StreamFinals(cache, plan[cid], chunkSize);
    }
    MixtureIsGood(s, chunkSize, mix);
    GoodMeans(s, chunkSize, mix);
    var chunks := Untag(mix);
    FeedThenRun(s, chunkSize, chunks, []);
    assert Concat(chunks) + [] == Concat(chunks);
    var f := Feed(s, chunkSize, chunks).value;
    RunEmpty(f.streams, chunkSize);
    assert f.msgs + [] == f.msgs;
  }

  // ----- the chunks are the encoding -----

  lemma ConcatSnoc(list: seq<Tagged>, x: Tagged)
    ensures Concat(Untag(list + [x])) == Concat(Untag(list)) + x.chunk
  {
    LastOf(list, x);
    LastOf(Untag(list), x.chunk);
  }

  lemma {:induction false} ConcatAll(a: seq<Tagged>, b: seq<Tagged>)
    ensures Concat(Untag(a + b)) == Concat(Untag(a)) + Concat(Untag(b))
    decreases |b|
  {
    hide Concat, Untag;
    if b == [] {
      assert a + b == a;
      NothingMakesUp();
    } else {
      var before, last := b[..|b| - 1], b[|b| - 1];
      ConcatAll(a, before);
      assert b == before + [last] && a + b == (a + before) + [last];
      ConcatSnoc(a + before, last);
      ConcatSnoc(before, last);
    }
  }

  lemma ConcatOne(x: Tagged)
    ensures Concat(Untag([x])) == x.chunk
  {
    assert [x][..0] == [];
    assert Untag([]) == [] && Untag([x]) == [x.chunk];
    assert [x.chunk][..0] == [];
    assert Concat([]) == [];
  }

  lemma {:induction false} MoreMakeUp(m: Message, sent: nat, chunkSize: nat, extension: bytes)
    requires 2 <= m.cid <= 65599 && sent <= |m.Body()| && chunkSize > 0
    ensures Concat(Untag(MoreChunks(m, sent, chunkSize, extension))) == More(m, sent, chunkSize, extension)
    decreases |m.Body()| - sent
  {
    hide Concat, Untag, BasicBytes;
    if sent < |m.Body()| {
      var piece := NextPiece(m, sent, chunkSize);
      var to := sent + |piece|;
      MoreMakeUp(m, to, chunkSize, extension);
      var x := Tagged(BasicBytes(3, m.cid) + extension + piece, if to == |m.Body()| then Some(m) else None);
      ConcatOne(x);
      ConcatAll([x], MoreChunks(m, to, chunkSize, extension));
    } else {
      NothingMakesUp();
    }
  }

  lemma NothingMakesUp()
    ensures Concat(Untag([])) == []
  {
  }

  /** The chunks of a message are its encoding; for a message of our sender, the sender's. */
  lemma ChunksMakeUp(cache: Cache, m: Message, format: nat, chunkSize: nat)
    requires Conforms(cache, m, format) && chunkSize > 0
    ensures Concat(Untag(MessageChunks(cache, m, format, chunkSize))) == Compressed(cache, m, format, chunkSize)
    ensures format == 0 && Sendable(m) ==>
              Concat(Untag(MessageChunks(cache, m, format, chunkSize))) == Encoded(m, chunkSize)
  {
    hide Concat, Untag, First, More, MoreChunks, Encoded;
    var to := |NextPiece(m, 0, chunkSize)|;
    var x := Tagged(First(cache, m, format, chunkSize), if to == |m.Body()| then Some(m) else None);
    var extension := Extension(Delta(cache, m, format));
    ConcatOne(x);
    MoreMakeUp(m, to, chunkSize, extension);
    ConcatAll([x], MoreChunks(m, to, chunkSize, extension));
    if format == 0 && Sendable(m) {
      SenderConforms(cache, m, chunkSize);
    }
  }
}
