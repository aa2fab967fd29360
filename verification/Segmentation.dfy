/**
  Segmentation: does what the receiver does depend on how the network cut the stream? Only through
  the number of bytes the socket had read at each job, which decides whether an acknowledgement is due.
  That number follows from the schedule of pieces: the receiver reads no further than it must look, so
  it has read less than one piece more than that. All schedules of a stream lead to the same run exactly
  when no message that matters arrives while the window lies between the least and the greatest number
  of bytes that can have been read.
 */
module Segmentation {
  import opened Bytes
  import opened Errors
  import opened Buffers
  import opened Chunk
  import opened Packets
  import opened Jobs
  import opened Sending
  import opened RoundTrip
  import Agreement

  // ----- reading -----

  /** A schedule for the stream `b` when its first `held` bytes are buffered already. */
  predicate Cuts(b: bytes, held: nat, pieces: seq<Piece>) {
    held <= |b| && Flatten(pieces) == b[held..]
  }

  /** The bytes of the stream that were read when `want` of them had to be there. */
  function ReadFor(pieces: seq<Piece>, held: nat, want: int): nat {
    held + ReadOf(pieces, held, want)
  }

  /** The least and the greatest number that a schedule can lead to. */
  function Least(length: nat, held: nat, want: int): int {
    Max(held, Min(want, length))
  }

  function Most(length: nat, held: nat, want: int): int {
    if want <= held then held else Min(length, want - 1 + SOCKET_READ_SIZE)
  }

  lemma {:induction false} ReadRange(pieces: seq<Piece>, held: nat, want: int)
    ensures var length := held + |Flatten(pieces)|;
            Least(length, held, want) <= ReadFor(pieces, held, want) <= Most(length, held, want)
    decreases |pieces|
  {
    if held < want && pieces != [] {
      ReadRange(pieces[1..], held + |pieces[0]|, want);
    }
  }

  /** Byte by byte. */
  function Singles(b: bytes): (pieces: seq<Piece>)
    ensures Flatten(pieces) == b
  {
    if b == [] then [] else
      assert [b[0]] + b[1..] == b;
      [[b[0]]] + Singles(b[1..])
  }

  lemma {:induction false} ReadSingles(b: bytes, held: nat, want: int)
    ensures ReadFor(Singles(b), held, want) == Least(held + |b|, held, want)
    decreases |b|
  {
    if held < want && b != [] {
      ReadSingles(b[1..], held + 1, want);
      assert Singles(b)[1..] == Singles(b[1..]);
    }
  }

  /** Byte by byte for `k` bytes, and then as much as one read can return. */
  function Gulp(b: bytes, k: nat): (pieces: seq<Piece>)
    ensures Flatten(pieces) == b
  {
    if b == [] then []
    else if k == 0 then
      var n := Min(|b|, SOCKET_READ_SIZE);
      assert b[..n] + b[n..] == b;
      [b[..n]] + Singles(b[n..])
    else
      assert [b[0]] + b[1..] == b;
      [[b[0]]] + Gulp(b[1..], k - 1)
  }

  lemma {:induction false} ReadGulp(b: bytes, held: nat, k: nat)
    requires k < |b|
    ensures ReadFor(Gulp(b, k), held, held + k + 1) == Most(held + |b|, held, held + k + 1)
    decreases k
  {
    var want := held + k + 1;
    if k == 0 {
      var n := Min(|b|, SOCKET_READ_SIZE);
      assert Gulp(b, k)[1..] == Singles(b[n..]);
      assert LeftOver(Gulp(b, k), held, want) == LeftOver(Singles(b[n..]), held + n, want) == Singles(b[n..]);
    } else {
      ReadGulp(b[1..], held + 1, k - 1);
      assert Gulp(b, k)[1..] == Gulp(b[1..], k - 1);
    }
  }

  // ----- counts -----

  /** How far into the stream the next job looks. */
  function Looks(r: JobRun, length: nat): int
    requires ValidJob(r.state)
  {
    length - |r.rest| + if r.status.Running? then StepWant(r.state.streams, r.state.inChunkSize, r.rest) else 0
  }

  /** How far the jobs so far and the next one look. */
  function Furthest(j: JobState, b: bytes, counts: seq<nat>): int
    requires ValidJob(j)
  {
    Max(Looks(RunJobs(j, b, counts), |b|), if counts == [] then 0 else Furthest(j, b, counts[..|counts| - 1]))
  }

  /** The counts are those of the schedule; `base` bytes were read and done with before the stream. */
  ghost predicate Realises(j: JobState, b: bytes, held: nat, base: nat, pieces: seq<Piece>, counts: seq<nat>)
    requires ValidJob(j)
  {
    forall i :: 0 <= i < |counts| ==> counts[i] == base + ReadFor(pieces, held, Furthest(j, b, counts[..i]))
  }

  /** Every schedule gives a receiver its counts. */
  function CountsOf(j: JobState, b: bytes, held: nat, base: nat, pieces: seq<Piece>, n: nat): (counts: seq<nat>)
    requires ValidJob(j)
    ensures |counts| == n
  {
    if n == 0 then []
    else
      var before := CountsOf(j, b, held, base, pieces, n - 1);
      before + [base + ReadFor(pieces, held, Furthest(j, b, before))]
  }

  lemma RealisesSnoc(
    j: JobState, b: bytes, held: nat, base: nat, pieces: seq<Piece>, counts: seq<nat>, n: nat)
    requires ValidJob(j)
    ensures Realises(j, b, held, base, pieces, counts + [n]) <==>
            && Realises(j, b, held, base, pieces, counts)
            && n == base + ReadFor(pieces, held, Furthest(j, b, counts))
  {
    hide ValidJob, Furthest, ReadFor;
    var all := counts + [n];
    assert all[..|counts|] == counts && all[|counts|] == n;
    assert forall i :: 0 <= i < |counts| ==> all[..i] == counts[..i] && all[i] == counts[i];
    if Realises(j, b, held, base, pieces, all) {
      assert all[|counts|] == base + ReadFor(pieces, held, Furthest(j, b, all[..|counts|]));
      forall i | 0 <= i < |counts|
        ensures counts[i] == base + ReadFor(pieces, held, Furthest(j, b, counts[..i]))
      {
        assert all[i] == base + ReadFor(pieces, held, Furthest(j, b, all[..i]));
      }
    }
  }

  lemma {:induction false} CountsRealise(j: JobState, b: bytes, held: nat, base: nat, pieces: seq<Piece>, n: nat)
    requires ValidJob(j)
    ensures Realises(j, b, held, base, pieces, CountsOf(j, b, held, base, pieces, n))
    decreases n
  {
    hide ValidJob, Furthest, ReadFor, Realises;
    if n == 0 {
      NothingRealised(j, b, held, base, pieces);
    } else {
      var before := CountsOf(j, b, held, base, pieces, n - 1);
      CountsRealise(j, b, held, base, pieces, n - 1);
      RealisesSnoc(j, b, held, base, pieces, before, base + ReadFor(pieces, held, Furthest(j, b, before)));
    }
  }

  lemma NothingRealised(j: JobState, b: bytes, held: nat, base: nat, pieces: seq<Piece>)
    requires ValidJob(j)
    ensures Realises(j, b, held, base, pieces, [])
  {
  }

  lemma RunSnoc(j: JobState, b: bytes, counts: seq<nat>, n: nat)
    requires ValidJob(j)
    ensures RunJobs(j, b, counts + [n]) == NextJob(RunJobs(j, b, counts), n)
    ensures |RunJobs(j, b, counts + [n]).rest| <= |RunJobs(j, b, counts).rest|
  {
    hide RecvJob, ValidJob;
    assert (counts + [n])[..|counts|] == counts;
  }

  // ----- messages that matter -----

  /** A message that changes the negotiated values, or stops the receiver: read off its bytes. */
  predicate Matters(j: JobState, m: Message) {
    var b := m.Body();
    if m.header.messageType == MSG_SET_CHUNK_SIZE then
      |b| < 4 || !SizeInRange(GetU32(b[..4])) || GetU32(b[..4]) != j.inChunkSize
    else if m.header.messageType == MSG_WINDOW_ACK_SIZE then
      |b| < 4 || (GetU32(b[..4]) > 0 && GetU32(b[..4]) != j.inAckSize.window)
    else if m.header.messageType == MSG_USER_CONTROL then
      |b| < 6 || (GetU16(b[..2]) == PCUC_SET_BUFFER_LENGTH && |b| < 10)
    else false
  }

  lemma MattersIff(j: JobState, m: Message)
    requires SizeInRange(j.inChunkSize)
    ensures Matters(j, m) <==> Negotiate(j, m) != Success(j)
  {
    hide GetU16, GetU32;
  }

  // ----- one job -----

  /** The message the next job looks at. */
  function Next(r: JobRun): Option<Message>
    requires ValidJob(r.state)
  {
    var step := Step(r.state.streams, r.state.inChunkSize, r.rest);
    if r.status.Running? && step.Ok? && step.value.done.Some? && HasContent(step.value.done.value)
    then step.value.done else None
  }

  /**
    The next job's message matters, and the window is one that some schedules exceed and others do not;
    `want` is how far the receiver has had to look.
   */
  predicate Sensitive(r: JobRun, want: int, length: nat, held: nat, base: nat)
    requires ValidJob(r.state)
  {
    && Next(r).Some? && Matters(r.state, Next(r).value)
    && var window := r.state.inAckSize.window;
    window > 0 && base + Least(length, held, want) <= window < base + Most(length, held, want)
  }

  /** The same but for the marks on passed-over messages. */
  predicate Same(r: JobRun, r': JobRun) {
    && r.state == r'.state && r.rest == r'.rest && r.status == r'.status
    && |r.log| == |r'.log| && forall i :: 0 <= i < |r.log| ==> r.log[i].msg == r'.log[i].msg
  }

  /** What the next job does, as far as the count matters. */
  lemma JobByCount(r: JobRun, n: nat)
    requires ValidJob(r.state)
    ensures Next(r).None? ==> forall m: nat :: NextJob(r, n) == NextJob(r, m)
    ensures Next(r).Some? ==>
              var step := Step(r.state.streams, r.state.inChunkSize, r.rest);
              var j1 := r.state.(streams := step.value.streams);
              match OnRecvMessage(j1, Next(r).value, n)
              case Failure(e) => NextJob(r, n) == r.(status := Stopped(e))
              case Success(j2) =>
                NextJob(r, n) == JobRun(j2, r.rest[step.size..],
                                        r.log + [Entry(Next(r).value, ShouldAckRead(r.state.inAckSize, n))], Running)
  {
    hide Step, Jobs.OnRecvMessage, HasContent;
  }

  lemma DueWhen(a: AckWindowSize, n: nat)
    requires a.acked == 0 && n < TWO_64
    ensures ShouldAckRead(a, n) <==> a.window > 0 && n > a.window
  {
  }

  /** The marks do not matter to what comes next. */
  lemma SameNext(r: JobRun, r': JobRun, n: nat)
    requires ValidJob(r.state) && Same(r, r')
    ensures Same(NextJob(r, n), NextJob(r', n))
  {
    hide RecvJob, ValidJob;
  }

  /** A job that is not sensitive does the same for every possible count. */
  lemma Insensitive(r: JobRun, want: int, length: nat, held: nat, base: nat, n: nat, m: nat)
    requires ValidJob(r.state) && r.state.inAckSize.acked == 0 && base + length < TWO_64 && held <= length
    requires !Sensitive(r, want, length, held, base)
    requires base + Least(length, held, want) <= n <= base + Most(length, held, want)
    requires base + Least(length, held, want) <= m <= base + Most(length, held, want)
    ensures Same(NextJob(r, n), NextJob(r, m))
  {
    hide Step, RecvJob, NextJob, Matters, Negotiate, ShouldAckRead, HasContent;
    JobByCount(r, n);
    JobByCount(r, m);
    if Next(r).Some? {
      var j1 := r.state.(streams := Step(r.state.streams, r.state.inChunkSize, r.rest).value.streams);
      DueWhen(r.state.inAckSize, n);
      DueWhen(r.state.inAckSize, m);
      MattersIff(j1, Next(r).value);
      MattersByValues(r.state, j1, Next(r).value);
    } else {
      assert NextJob(r, n) == NextJob(r, m);
    }
  }

  lemma MattersByValues(j: JobState, j1: JobState, m: Message)
    requires j1.inChunkSize == j.inChunkSize && j1.inAckSize == j.inAckSize
    ensures Matters(j, m) == Matters(j1, m)
  {
  }

  /** The two ends of the range lead a sensitive job apart. */
  lemma LeadsApart(r: JobRun, want: int, length: nat, held: nat, base: nat)
    requires ValidJob(r.state) && r.state.inAckSize.acked == 0 && base + length < TWO_64 && held <= length
    requires Sensitive(r, want, length, held, base)
    ensures !Same(NextJob(r, base + Least(length, held, want)), NextJob(r, base + Most(length, held, want)))
  {
    hide Step, RecvJob, NextJob, Matters, Negotiate, ShouldAckRead, HasContent;
    var n, m := base + Least(length, held, want), base + Most(length, held, want);
    JobByCount(r, n);
    JobByCount(r, m);
    var j1 := r.state.(streams := Step(r.state.streams, r.state.inChunkSize, r.rest).value.streams);
    DueWhen(r.state.inAckSize, n);
    DueWhen(r.state.inAckSize, m);
    MattersIff(j1, Next(r).value);
    MattersByValues(r.state, j1, Next(r).value);
  }

  // ----- runs -----

  lemma AckedStays(j: JobState, b: bytes, counts: seq<nat>)
    requires ValidJob(j) && j.inAckSize.acked == 0
    ensures RunJobs(j, b, counts).state.inAckSize.acked == 0
  {
    hide RunJobs, ValidJob;
    ChunkSizeIsLastProcessed(j, b, counts);
  }

  /** The run of a receiver that gets the stream byte by byte. */
  function Slowly(j: JobState, b: bytes, held: nat, base: nat, n: nat): (counts: seq<nat>)
    requires ValidJob(j) && held <= |b|
    ensures |counts| == n
  {
    CountsOf(j, b, held, base, Singles(b[held..]), n)
  }

  ghost predicate SensitiveAt(j: JobState, b: bytes, held: nat, base: nat, n: nat)
    requires ValidJob(j) && held <= |b|
  {
    var counts := Slowly(j, b, held, base, n);
    Sensitive(RunJobs(j, b, counts), Furthest(j, b, counts), |b|, held, base)
  }

  /** No job of the byte-by-byte run is sensitive. */
  ghost predicate NeverSensitive(j: JobState, b: bytes, held: nat, base: nat)
    requires ValidJob(j) && held <= |b|
  {
    forall n: nat :: !SensitiveAt(j, b, held, base, n)
  }

  /** As long as no job is sensitive, every run is the byte-by-byte run. */
  lemma {:induction false} AsSlowly(
    j: JobState, b: bytes, held: nat, base: nat, pieces: seq<Piece>, counts: seq<nat>)
    requires ValidJob(j) && j.inAckSize.acked == 0 && base + |b| < TWO_64 && Cuts(b, held, pieces)
    requires Realises(j, b, held, base, pieces, counts)
    requires forall n: nat :: n < |counts| ==> !SensitiveAt(j, b, held, base, n)
    ensures Same(RunJobs(j, b, counts), RunJobs(j, b, Slowly(j, b, held, base, |counts|)))
    ensures Furthest(j, b, counts) == Furthest(j, b, Slowly(j, b, held, base, |counts|))
    decreases |counts|
  {
    hide ValidJob, RunJobs, NextJob, Sensitive, Looks, Same, Realises, ReadFor, Least, Most, Singles;
    if counts == [] {
      SameAsItself(RunJobs(j, b, []));
    } else {
      var k := |counts| - 1;
      var before, last := counts[..k], counts[k];
      assert counts == before + [last];
      RealisesSnoc(j, b, held, base, pieces, before, last);
      AsSlowly(j, b, held, base, pieces, before);
      var slowly := Slowly(j, b, held, base, k);
      var r, slow := RunJobs(j, b, before), RunJobs(j, b, slowly);
      var want := Furthest(j, b, slowly);
      assert !SensitiveAt(j, b, held, base, k);
      AckedStays(j, b, slowly);
      ReadRange(pieces, held, want);
      ReadSingles(b[held..], held, want);
      ReadRange(Singles(b[held..]), held, want);
      var least := base + ReadFor(Singles(b[held..]), held, want);
      Insensitive(slow, want, |b|, held, base, last, least);
      SameNext(r, slow, last);
      RunSnoc(j, b, before, last);
      RunSnoc(j, b, slowly, least);
      SameTwice(RunJobs(j, b, counts), NextJob(slow, last), NextJob(slow, least));
      var next := Slowly(j, b, held, base, k + 1);
      assert next == slowly + [least] && next[..k] == slowly;
      SameLooks(RunJobs(j, b, counts), RunJobs(j, b, next), |b|);
    }
  }

  lemma SameAsItself(r: JobRun)
    ensures Same(r, r)
  {
  }

  lemma SameTwice(r: JobRun, r1: JobRun, r2: JobRun)
    requires Same(r, r1) && Same(r1, r2)
    ensures Same(r, r2)
  {
  }

  lemma SameLooks(r: JobRun, r': JobRun, length: nat)
    requires ValidJob(r.state) && Same(r, r')
    ensures Looks(r, length) == Looks(r', length)
  {
    hide StepWant, ValidJob;
  }

  lemma SameBack(r: JobRun, r': JobRun)
    requires Same(r, r')
    ensures Same(r', r)
  {
  }

  lemma SameStatus(r: JobRun, r': JobRun)
    requires Same(r, r')
    ensures r.status == r'.status
  {
  }

  /** The first sensitive job, if there is one. */
  lemma {:induction false} FirstSensitive(j: JobState, b: bytes, held: nat, base: nat, n: nat) returns (k: nat)
    requires ValidJob(j) && held <= |b| && SensitiveAt(j, b, held, base, n)
    ensures SensitiveAt(j, b, held, base, k) && forall i: nat :: i < k ==> !SensitiveAt(j, b, held, base, i)
    decreases n
  {
    hide ValidJob, SensitiveAt;
    if i: nat :| i < n && SensitiveAt(j, b, held, base, i) {
      k := FirstSensitive(j, b, held, base, i);
    } else {
      k := n;
    }
  }

  /** Two schedules whose runs part at the first sensitive job. */
  lemma Apart(j: JobState, b: bytes, held: nat, base: nat, n: nat)
    returns (p: seq<Piece>, q: seq<Piece>, c: seq<nat>, d: seq<nat>)
    requires ValidJob(j) && j.inAckSize.acked == 0 && base + |b| < TWO_64 && held <= |b|
    requires SensitiveAt(j, b, held, base, n) && forall i: nat :: i < n ==> !SensitiveAt(j, b, held, base, i)
    ensures Cuts(b, held, p) && Cuts(b, held, q) && |c| == |d|
    ensures Realises(j, b, held, base, p, c) && Realises(j, b, held, base, q, d)
    ensures !Same(RunJobs(j, b, c), RunJobs(j, b, d))
  {
    hide ValidJob, RunJobs, NextJob, Looks, Same, Realises, ReadFor, Singles, Gulp, Furthest, Next, Matters;
    var slowly := Slowly(j, b, held, base, n);
    var want := Furthest(j, b, slowly);
    var slow := RunJobs(j, b, slowly);
    p, q := Singles(b[held..]), Gulp(b[held..], want - 1 - held);
    c, d := CountsOf(j, b, held, base, p, n + 1), CountsOf(j, b, held, base, q, n + 1);
    CountsRealise(j, b, held, base, p, n + 1);
    CountsRealise(j, b, held, base, q, n);
    CountsRealise(j, b, held, base, q, n + 1);
    var quickly := CountsOf(j, b, held, base, q, n);
    AsSlowly(j, b, held, base, q, quickly);
    ReadSingles(b[held..], held, want);
    ReadGulp(b[held..], held, want - 1 - held);
    AckedStays(j, b, slowly);
    LeadsApart(slow, want, |b|, held, base);
    var least, most := base + Least(|b|, held, want), base + Most(|b|, held, want);
    RunSnoc(j, b, slowly, least);
    RunSnoc(j, b, quickly, most);
    SameNext(RunJobs(j, b, quickly), slow, most);
    if Same(NextJob(slow, least), NextJob(RunJobs(j, b, quickly), most)) {
      SameTwice(NextJob(slow, least), NextJob(RunJobs(j, b, quickly), most), NextJob(slow, most));
    }
  }

  /** All schedules of the stream lead to the same run, after every job. */
  ghost predicate CuttingIsHarmless(j: JobState, b: bytes, held: nat, base: nat)
    requires ValidJob(j)
  {
    forall p: seq<Piece>, q: seq<Piece>, c: seq<nat>, d: seq<nat> ::
      && Cuts(b, held, p) && Realises(j, b, held, base, p, c)
      && Cuts(b, held, q) && Realises(j, b, held, base, q, d) && |c| == |d|
      ==> Same(RunJobs(j, b, c), RunJobs(j, b, d))
  }

  /**
    When the cutting of the stream does not matter: all schedules of its bytes lead to the same messages,
    state and status after every job exactly when no job of the byte-by-byte run is sensitive.
   */
  lemma SegmentationIff(j: JobState, b: bytes, held: nat, base: nat)
    requires ValidJob(j) && j.inAckSize.acked == 0 && base + |b| < TWO_64 && held <= |b|
    ensures CuttingIsHarmless(j, b, held, base) <==> NeverSensitive(j, b, held, base)
  {
    hide ValidJob, RunJobs, SensitiveAt, Same, Realises, Cuts, Slowly, Furthest;
    if NeverSensitive(j, b, held, base) {
      forall p: seq<Piece>, q: seq<Piece>, c: seq<nat>, d: seq<nat> |
        && Cuts(b, held, p) && Realises(j, b, held, base, p, c)
        && Cuts(b, held, q) && Realises(j, b, held, base, q, d) && |c| == |d|
        ensures Same(RunJobs(j, b, c), RunJobs(j, b, d))
      {
        SameRuns(j, b, held, base, p, q, c, d);
      }
    } else {
      var n: nat :| SensitiveAt(j, b, held, base, n);
      var k := FirstSensitive(j, b, held, base, n);
      var p, q, c, d := Apart(j, b, held, base, k);
    }
  }

  lemma SameRuns(
    j: JobState, b: bytes, held: nat, base: nat, p: seq<Piece>, q: seq<Piece>, c: seq<nat>, d: seq<nat>)
    requires ValidJob(j) && j.inAckSize.acked == 0 && base + |b| < TWO_64
    requires Cuts(b, held, p) && Cuts(b, held, q) && NeverSensitive(j, b, held, base)
    requires Realises(j, b, held, base, p, c) && Realises(j, b, held, base, q, d) && |c| == |d|
    ensures Same(RunJobs(j, b, c), RunJobs(j, b, d))
  {
    hide ValidJob, RunJobs, SensitiveAt, Same, Realises, Slowly, Furthest;
    AsSlowly(j, b, held, base, p, c);
    AsSlowly(j, b, held, base, q, d);
    var slow := RunJobs(j, b, Slowly(j, b, held, base, |c|));
    SameBack(RunJobs(j, b, d), slow);
    SameTwice(RunJobs(j, b, c), slow, RunJobs(j, b, d));
  }

  /** Two receivers of the same bytes, both run to their end. */
  lemma SegmentationIndependence(
    j: JobState, b: bytes, held: nat, base: nat, p: seq<Piece>, q: seq<Piece>, c: seq<nat>, d: seq<nat>)
    requires ValidJob(j) && j.inAckSize.acked == 0 && base + |b| < TWO_64
    requires Cuts(b, held, p) && Cuts(b, held, q) && NeverSensitive(j, b, held, base)
    requires Realises(j, b, held, base, p, c) && Realises(j, b, held, base, q, d)
    requires RunJobs(j, b, c).status.Stopped? && RunJobs(j, b, d).status.Stopped?
    ensures Same(RunJobs(j, b, c), RunJobs(j, b, d))
  {
    hide ValidJob, RunJobs, NeverSensitive, Realises;
    if |c| <= |d| {
      ShorterFirst(j, b, held, base, p, q, c, d);
    } else {
      ShorterFirst(j, b, held, base, q, p, d, c);
      SameBack(RunJobs(j, b, d), RunJobs(j, b, c));
    }
  }

  lemma ShorterFirst(
    j: JobState, b: bytes, held: nat, base: nat, p: seq<Piece>, q: seq<Piece>, c: seq<nat>, d: seq<nat>)
    requires ValidJob(j) && j.inAckSize.acked == 0 && base + |b| < TWO_64
    requires Cuts(b, held, p) && Cuts(b, held, q) && NeverSensitive(j, b, held, base)
    requires Realises(j, b, held, base, p, c) && Realises(j, b, held, base, q, d) && |c| <= |d|
    requires RunJobs(j, b, c).status.Stopped?
    ensures Same(RunJobs(j, b, c), RunJobs(j, b, d))
  {
    hide ValidJob, RunJobs, NeverSensitive, Same;
    RealisesUpTo(j, b, held, base, q, d, |c|);
    SameRuns(j, b, held, base, p, q, c, d[..|c|]);
    SameStatus(RunJobs(j, b, c), RunJobs(j, b, d[..|c|]));
    StoppedStays(j, b, d, |c|);
  }

  lemma RealisesUpTo(j: JobState, b: bytes, held: nat, base: nat, pieces: seq<Piece>, counts: seq<nat>, n: nat)
    requires ValidJob(j) && n <= |counts| && Realises(j, b, held, base, pieces, counts)
    ensures Realises(j, b, held, base, pieces, counts[..n])
  {
    hide ValidJob, Furthest, ReadFor;
    forall i | 0 <= i < n
      ensures counts[..n][i] == base + ReadFor(pieces, held, Furthest(j, b, counts[..n][..i]))
    {
      assert counts[..n][..i] == counts[..i];
      assert counts[i] == base + ReadFor(pieces, held, Furthest(j, b, counts[..i]));
    }
  }

  // ----- two cuttings of one stream -----

  const START := JobState(map[], 128, AckWindowSize(0, 0))

  /** A control message with one number. */
  function Control(kind: byte, value: u32): Message {
    Message(Header(kind, 4, 0, 0, 0), Some(PutBE(value, 4)), 0, CID_PROTOCOL_CONTROL)
  }

  /** Sixteen bytes each: a window of 40 bytes, a chunk size, and one message more. */
  function Stream(): bytes {
    Encoded(Control(MSG_WINDOW_ACK_SIZE, 40), 128)
    + (Encoded(Control(MSG_SET_CHUNK_SIZE, 256), 128) + Encoded(Control(MSG_WINDOW_ACK_SIZE, 40), 128))
  }

  lemma ControlFits(kind: byte, value: u32)
    ensures Sendable(Control(kind, value)) && !Extended(Control(kind, value).header)
    ensures |Control(kind, value).Body()| == 4
    ensures |Encoded(Control(kind, value), 128)| == 16
  {
    var m := Control(kind, value);
    Agreement.OneChunk(m, 128, 128);
    assert NextPiece(m, 0, 128) == m.Body();
  }

  /** The chunk of a control message, at any chunk size. */
  lemma ControlChunk(s: Streams, kind: byte, value: u32, size: u32, rest: bytes)
    requires ValidStreams(s) && SizeInRange(size) && Idle(s, CID_PROTOCOL_CONTROL)
    ensures var r := Step(s, size, Encoded(Control(kind, value), 128) + rest);
            && r.Ok? && r.size == 16 && r.value.done.Some?
            && SameMessage(r.value.done.value, Control(kind, value))
            && Idle(r.value.streams, CID_PROTOCOL_CONTROL)
    ensures StepWant(s, size, Encoded(Control(kind, value), 128) + rest) == 16
  {
    hide Step, StepWant, FirstChunk, Encoded, Arrived, SameMessage, Control;
    var m := Control(kind, value);
    ControlFits(kind, value);
    ControlCid(kind, value);
    Agreement.OneChunk(m, 128, size);
    assert ChunkAt(m, 0, size) == FirstChunk(m, size) by { FirstIsChunk(m, size); }
    FirstChunkBack(s, m, size, rest);
    assert NextPiece(m, 0, size) == m.Body();
    Whole(m, WireHeader(m.header));
    WantOfChunk(s, size, Encoded(m, 128) + rest);
  }

  lemma ControlCid(kind: byte, value: u32)
    ensures Control(kind, value).cid == CID_PROTOCOL_CONTROL
    ensures Control(kind, value).header.messageType == kind && Control(kind, value).Body() == PutBE(value, 4)
  {
  }

  lemma FirstIsChunk(m: Message, size: nat)
    ensures ChunkAt(m, 0, size) == FirstChunk(m, size)
  {
  }

  /** What a control message does, looked into or passed over. */
  lemma ControlJob(r: JobRun, kind: byte, value: u32, rest: bytes, n: nat) returns (r': JobRun)
    requires ValidJob(r.state) && r.status.Running? && Idle(r.state.streams, CID_PROTOCOL_CONTROL)
    requires r.rest == Encoded(Control(kind, value), 128) + rest
    requires if kind == MSG_SET_CHUNK_SIZE then SizeInRange(value) else kind == MSG_WINDOW_ACK_SIZE && value > 0
    ensures r' == NextJob(r, n) && ValidJob(r'.state) && r'.status.Running?
    ensures StepWant(r.state.streams, r.state.inChunkSize, r.rest) == 16
    ensures r'.rest == rest && Idle(r'.state.streams, CID_PROTOCOL_CONTROL)
    ensures var due := ShouldAckRead(r.state.inAckSize, n);
            && r'.state.inChunkSize ==
               (if !due && kind == MSG_SET_CHUNK_SIZE then value else r.state.inChunkSize)
            && r'.state.inAckSize ==
               (if !due && kind == MSG_WINDOW_ACK_SIZE then r.state.inAckSize.(window := value) else r.state.inAckSize)
  {
    hide Step, StepWant, Encoded, SameMessage, Control, ShouldAckRead, Idle, NextJob, Negotiate;
    ControlChunk(r.state.streams, kind, value, r.state.inChunkSize, rest);
    var step := Step(r.state.streams, r.state.inChunkSize, r.rest);
    var m := step.value.done.value;
    GotControl(m, kind, value);
    JobByCount(r, n);
    ControlFits(kind, value);
    assert r.rest[16..] == rest;
    ControlNegotiates(r.state.(streams := step.value.streams), m, kind, value);
    r' := NextJob(r, n);
  }

  lemma GotControl(m: Message, kind: byte, value: u32)
    requires SameMessage(m, Control(kind, value))
    ensures m.header.messageType == kind && m.Body() == PutBE(value, 4) && HasContent(m)
  {
  }

  lemma ControlNegotiates(j: JobState, m: Message, kind: byte, value: u32)
    requires SizeInRange(j.inChunkSize) && m.header.messageType == kind && m.Body() == PutBE(value, 4)
    requires if kind == MSG_SET_CHUNK_SIZE then SizeInRange(value) else kind == MSG_WINDOW_ACK_SIZE && value > 0
    ensures Negotiate(j, m) ==
            Success(if kind == MSG_SET_CHUNK_SIZE then j.(inChunkSize := value)
                    else j.(inAckSize := j.inAckSize.(window := value)))
  {
    hide PutBE, GetU32;
    FieldRoundTrips(0, 0, value, 0);
    assert m.Body()[..4] == PutBE(value, 4);
  }

  /** The run over the three messages, with the socket's counts at each. */
  lemma StreamRun(c: seq<nat>)
    requires |c| == 3 && c[1] < TWO_64 && 40 < c[2] < TWO_64
    ensures ValidJob(START) && |Stream()| == 48
    ensures Furthest(START, Stream(), c[..0]) == 16 && Furthest(START, Stream(), c[..1]) == 32
    ensures Furthest(START, Stream(), c[..2]) == 48
    ensures RunJobs(START, Stream(), c).state.inChunkSize == if c[1] <= 40 then 256 else 128
  {
    hide Encoded, NextJob, Idle, ShouldAckRead, Control, StepWant;
    ControlFits(MSG_WINDOW_ACK_SIZE, 40);
    ControlFits(MSG_SET_CHUNK_SIZE, 256);
    FreshIsIdle();
    var last := Encoded(Control(MSG_WINDOW_ACK_SIZE, 40), 128);
    var later := Encoded(Control(MSG_SET_CHUNK_SIZE, 256), 128) + last;
    var r0 := JobRun(START, Stream(), [], Running);
    var r1 := ControlJob(r0, MSG_WINDOW_ACK_SIZE, 40, later, c[0]);
    var r2 := ControlJob(r1, MSG_SET_CHUNK_SIZE, 256, last, c[1]);
    assert last + [] == last;
    var r3 := ControlJob(r2, MSG_WINDOW_ACK_SIZE, 40, [], c[2]);
    NotDueAtFirst(c[0]);
    DueWhen(r1.state.inAckSize, c[1]);
    DueWhen(r2.state.inAckSize, c[2]);
    RunsOf(START, Stream(), c);
    assert c[..1][..0] == c[..0] && c[..2][..1] == c[..1];
  }

  lemma FreshIsIdle()
    ensures ValidJob(START) && Idle(START.streams, CID_PROTOCOL_CONTROL)
  {
  }

  lemma NotDueAtFirst(n: nat)
    ensures !ShouldAckRead(START.inAckSize, n)
  {
  }

  lemma RunsOf(j: JobState, b: bytes, c: seq<nat>)
    requires ValidJob(j) && |c| == 3
    ensures RunJobs(j, b, c[..0]) == JobRun(j, b, [], Running)
    ensures RunJobs(j, b, c[..1]) == NextJob(RunJobs(j, b, c[..0]), c[0])
    ensures RunJobs(j, b, c[..2]) == NextJob(RunJobs(j, b, c[..1]), c[1])
    ensures RunJobs(j, b, c) == NextJob(RunJobs(j, b, c[..2]), c[2])
  {
    hide NextJob, ValidJob;
    assert c[..1][..0] == c[..0] && c[..2][..1] == c[..1];
  }

  /** Message by message, and in one piece. */
  function ThreePieces(): seq<Piece>
    requires |Stream()| == 48
  {
    [Stream()[..16], Stream()[16..32], Stream()[32..]]
  }

  function OnePiece(): seq<Piece>
    requires |Stream()| == 48
  {
    [Stream()]
  }

  lemma PiecesRead(p: bytes, q: bytes, r: bytes)
    requires |p| == |q| == |r| == 16
    ensures var three: seq<Piece> := [p, q, r];
            && Flatten(three) == p + (q + r)
            && ReadFor(three, 0, 16) == 16 && ReadFor(three, 0, 32) == 32 && ReadFor(three, 0, 48) == 48
  {
    var three: seq<Piece> := [p, q, r];
    assert three[1..] == [q, r] && three[1..][1..] == [r] && three[1..][1..][1..] == [];
    assert LeftOver(three, 0, 16) == LeftOver(three[1..], 16, 16) == three[1..];
    assert LeftOver(three, 0, 32) == LeftOver(three[1..], 16, 32) == LeftOver([r], 32, 32) == [r];
    assert LeftOver(three, 0, 48) == LeftOver(three[1..], 16, 48) == LeftOver([r], 32, 48) == [];
  }

  lemma PieceRead(b: bytes, want: nat)
    requires |b| == 48 && 0 < want <= 48
    ensures var one: seq<Piece> := [b]; Flatten(one) == b && ReadFor(one, 0, want) == 48
  {
    var one: seq<Piece> := [b];
    assert one[1..] == [];
    assert LeftOver(one, 0, want) == LeftOver([], 48, want) == [];
  }

  /**
    The same stream, cut in two ways: read message by message the new chunk size is taken over, read
    in one go it is passed over.
   */
  lemma CuttingMatters()
    ensures ValidJob(START) && |Stream()| == 48
    ensures Cuts(Stream(), 0, ThreePieces()) && Realises(START, Stream(), 0, 0, ThreePieces(), [16, 32, 48])
    ensures Cuts(Stream(), 0, OnePiece()) && Realises(START, Stream(), 0, 0, OnePiece(), [48, 48, 48])
    ensures RunJobs(START, Stream(), [16, 32, 48]).state.inChunkSize == 256
    ensures RunJobs(START, Stream(), [48, 48, 48]).state.inChunkSize == 128
  {
    hide RunJobs, Furthest, Stream, Flatten, ReadFor;
    var c, d := [16, 32, 48], [48, 48, 48];
    StreamRun(c);
    StreamRun(d);
    var b := Stream();
    PiecesRead(b[..16], b[16..32], b[32..]);
    assert b[..16] + (b[16..32] + b[32..]) == b && b[0..] == b;
    PieceRead(b, 16);
    PieceRead(b, 32);
    PieceRead(b, 48);
    FromThree(START, b, ThreePieces(), c);
    FromThree(START, b, OnePiece(), d);
  }

  lemma FromThree(j: JobState, b: bytes, pieces: seq<Piece>, c: seq<nat>)
    requires ValidJob(j) && |c| == 3
    requires c[0] == ReadFor(pieces, 0, Furthest(j, b, c[..0]))
    requires c[1] == ReadFor(pieces, 0, Furthest(j, b, c[..1]))
    requires c[2] == ReadFor(pieces, 0, Furthest(j, b, c[..2]))
    ensures Realises(j, b, 0, 0, pieces, c)
  {
  }
}
