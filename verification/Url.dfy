/**
  The rewriting of `...` in a connect URL: rtmp://host/app...vhost...name becomes
  rtmp://host/app?vhost=name. The source replaces the first occurrence again and again; the result is
  that of one scan from left to right.
 */
module Url {

  /** `...` starts at position `i`. */
  predicate DotsAt(v: string, i: nat) {
    i + 3 <= |v| && v[i] == '.' && v[i + 1] == '.' && v[i + 2] == '.'
  }

  ghost predicate ContainsDots(v: string) {
    exists i: nat :: DotsAt(v, i)
  }

  /** The leftmost occurrence at or after `from`, or the length. */
  function FirstDots(v: string, from: nat): (i: nat)
    requires from <= |v|
    ensures from <= i <= |v|
    ensures i < |v| ==> DotsAt(v, i)
    ensures i == |v| ==> forall k: nat :: from <= k ==> !DotsAt(v, k)
    ensures forall k: nat :: from <= k < i ==> !DotsAt(v, k)
    decreases |v| - from
  {
    if from == |v| then from else if DotsAt(v, from) then from else FirstDots(v, from + 1)
  }

  /** strings.Replace(v, "...", [c], 1) */
  function ReplaceFirst(v: string, c: char): (r: string)
    ensures |r| <= |v|
    ensures ContainsDots(v) ==> |r| == |v| - 2
    ensures !ContainsDots(v) ==> r == v
  {
    var i := FirstDots(v, 0);
    if i < |v| then v[..i] + [c] + v[i + 3..] else v
  }

  /** The separators, in order of use: after an optional `?`, `=` and `&` alternate. */
  function Separator(question: bool, n: nat): char {
    if question && n == 0 then '?'
    else if question then (if n % 2 == 1 then '=' else '&')
    else if n % 2 == 0 then '&' else '='
  }

  /** One greedy scan: the n-th occurrence from the left gets the n-th separator. */
  function Scan(v: string, question: bool, n: nat): string
    decreases |v|
  {
    if v == "" then ""
    else if DotsAt(v, 0) then [Separator(question, n)] + Scan(v[3..], question, n + 1)
    else [v[0]] + Scan(v[1..], question, n)
  }

  lemma ScanChar(v: string, question: bool, n: nat)
    requires v != "" && !DotsAt(v, 0)
    ensures Scan(v, question, n) == [v[0]] + Scan(v[1..], question, n)
  {
  }

  lemma {:induction false} ScanCopies(v: string, question: bool, n: nat, i: nat)
    requires i <= |v| && forall k: nat :: k < i ==> !DotsAt(v, k)
    ensures Scan(v, question, n) == v[..i] + Scan(v[i..], question, n)
    decreases i
  {
    hide Scan;
    if i == 0 {
      assert v[0..] == v;
    } else {
      var rest := v[1..];
      forall k: nat | k < i - 1
        ensures !DotsAt(rest, k)
      {
        assert !DotsAt(v, k + 1);
      }
      ScanChar(v, question, n);
      ScanCopies(rest, question, n, i - 1);
      assert rest[..i - 1] == v[1..i] && rest[i - 1..] == v[i..];
      assert [v[0]] + v[1..i] == v[..i];
    }
  }

  lemma NoDotsUnchanged(v: string, question: bool, n: nat)
    requires !ContainsDots(v)
    ensures Scan(v, question, n) == v
  {
    ScanCopies(v, question, n, |v|);
    assert v[..|v|] == v && v[|v|..] == "";
  }

  lemma ScanDots(v: string, question: bool, n: nat)
    requires DotsAt(v, 0)
    ensures Scan(v, question, n) == [Separator(question, n)] + Scan(v[3..], question, n + 1)
  {
  }

  /** Replacing the first occurrence is one step of the scan. */
  lemma ReplaceIsScanStep(v: string, question: bool, n: nat)
    ensures Scan(v, question, n) == Scan(ReplaceFirst(v, Separator(question, n)), question, n + 1)
  {
    hide Scan;
    var c := Separator(question, n);
    var i := FirstDots(v, 0);
    if i < |v| {
      var rest := v[i + 3..];
      ScanCopies(v, question, n, i);
      assert v[i..][3..] == rest && DotsAt(v[i..], 0);
      ScanDots(v[i..], question, n);
      var w := v[..i] + [c] + rest;
      forall k: nat | k < i + 1
        ensures !DotsAt(w, k)
      {
        if k + 3 <= i {
          assert !DotsAt(v, k);
          assert w[k] == v[k] && w[k + 1] == v[k + 1] && w[k + 2] == v[k + 2];
        } else {
          assert w[i] == c;
        }
      }
      ScanCopies(w, question, n + 1, i + 1);
      assert w[..i + 1] == v[..i] + [c] && w[i + 1..] == rest;
    } else {
      NoDotsUnchanged(v, question, n);
      NoDotsUnchanged(v, question, n + 1);
    }
  }

  /** The scan leaves no `...`. */
  lemma {:induction false} ScanLeavesNoDots(v: string, question: bool, n: nat)
    ensures !ContainsDots(Scan(v, question, n))
    decreases |v|
  {
    if ContainsDots(v) {
      ReplaceIsScanStep(v, question, n);
      ScanLeavesNoDots(ReplaceFirst(v, Separator(question, n)), question, n + 1);
    } else {
      NoDotsUnchanged(v, question, n);
    }
  }

  /** The rewriting, as one scan. */
  function Rewritten(v: string): string {
    Scan(v, '?' !in v, 0)
  }

  /** Rewriting again changes nothing. */
  lemma RewriteIsIdempotent(v: string)
    ensures !ContainsDots(Rewritten(v)) && Rewritten(Rewritten(v)) == Rewritten(v)
  {
    ScanLeavesNoDots(v, '?' !in v, 0);
    NoDotsUnchanged(Rewritten(v), '?' !in Rewritten(v), 0);
  }

  // ----- what the rewriting means -----

  /** The pieces with `...` between them. */
  function Join(pieces: seq<string>): string
    requires pieces != []
  {
    if |pieces| == 1 then pieces[0] else pieces[0] + "..." + Join(pieces[1..])
  }

  /** The pieces with `&` and `=` in turn between them, starting with `&` or not. */
  function Pairs(pieces: seq<string>, ampersand: bool): string
    requires pieces != []
  {
    if |pieces| == 1 then pieces[0]
    else pieces[0] + (if ampersand then "&" else "=") + Pairs(pieces[1..], !ampersand)
  }

  predicate EndsWithDot(v: string) {
    v != "" && v[|v| - 1] == '.'
  }

  /** Pieces that hold no `...`, and that only the last of may end in a dot. */
  ghost predicate Split(pieces: seq<string>) {
    && pieces != []
    && forall i :: 0 <= i < |pieces| ==>
         !ContainsDots(pieces[i]) && (i + 1 < |pieces| ==> !EndsWithDot(pieces[i]))
  }

  /** Every text is such pieces joined. */
  lemma {:induction false} EverythingSplits(v: string) returns (pieces: seq<string>)
    ensures Split(pieces) && Join(pieces) == v
    decreases |v|
  {
    var i := FirstDots(v, 0);
    if i == |v| {
      pieces := [v];
    } else {
      var rest := EverythingSplits(v[i + 3..]);
      var first := v[..i];
      forall k: nat
        ensures !DotsAt(first, k)
      {
        assert k < i ==> !DotsAt(v, k);
      }
      assert i > 0 ==> !DotsAt(v, i - 1);
      pieces := [first] + rest;
      assert pieces[1..] == rest;
      assert v == first + "..." + v[i + 3..];
    }
  }

  /** Up to the first `...` the scan copies the first piece. */
  lemma ScanFirstPiece(p: string, rest: string, question: bool, n: nat)
    requires !ContainsDots(p) && !EndsWithDot(p)
    ensures Scan(p + "..." + rest, question, n) == p + [Separator(question, n)] + Scan(rest, question, n + 1)
  {
    hide Scan;
    var v := p + "..." + rest;
    forall k: nat | k < |p|
      ensures !DotsAt(v, k)
    {
      assert !DotsAt(p, k);
      assert v[|p| - 1] == p[|p| - 1];
    }
    ScanCopies(v, question, n, |p|);
    assert v[..|p|] == p;
    assert DotsAt(v[|p|..], 0) && v[|p|..][3..] == rest;
    ScanDots(v[|p|..], question, n);
  }

  /** The scan from the `n`-th separator on. */
  lemma {:induction false} ScanPairs(pieces: seq<string>, question: bool, n: nat)
    requires Split(pieces) && (question ==> n > 0)
    ensures Scan(Join(pieces), question, n) == Pairs(pieces, n % 2 == 0)
    decreases |pieces|
  {
    hide Scan;
    if |pieces| == 1 {
      NoDotsUnchanged(pieces[0], question, n);
    } else {
      ScanFirstPiece(pieces[0], Join(pieces[1..]), question, n);
      SplitRest(pieces);
      ScanPairs(pieces[1..], question, n + 1);
    }
  }

  lemma SplitRest(pieces: seq<string>)
    requires Split(pieces) && |pieces| > 1
    ensures Split(pieces[1..])
  {
    forall i | 0 <= i < |pieces[1..]|
      ensures !ContainsDots(pieces[1..][i]) && (i + 1 < |pieces[1..]| ==> !EndsWithDot(pieces[1..][i]))
    {
      assert pieces[1..][i] == pieces[i + 1];
    }
  }

  lemma ScanFromStart(pieces: seq<string>, question: bool)
    requires Split(pieces)
    ensures Scan(Join(pieces), question, 0) ==
            if question && |pieces| > 1 then pieces[0] + "?" + Pairs(pieces[1..], false) else Pairs(pieces, true)
  {
    hide Scan;
    if !question {
      ScanPairs(pieces, false, 0);
    } else if |pieces| == 1 {
      NoDotsUnchanged(pieces[0], true, 0);
    } else {
      ScanFirstPiece(pieces[0], Join(pieces[1..]), true, 0);
      SplitRest(pieces);
      ScanPairs(pieces[1..], true, 1);
    }
  }

  /**
    The rewriting in literal separators: a text without `?` gets one at its first `...`, and from
    there on `=` and `&` in turn; a text with `?` gets `&` and `=` in turn from the start.
   */
  lemma RewrittenIs(pieces: seq<string>)
    requires Split(pieces)
    ensures Rewritten(Join(pieces)) ==
            if '?' !in Join(pieces) && |pieces| > 1 then pieces[0] + "?" + Pairs(pieces[1..], false)
            else Pairs(pieces, true)
  {
    hide Scan, Join, Pairs, ContainsDots, EndsWithDot;
    ScanFromStart(pieces, '?' !in Join(pieces));
  }

  /** The source's loop. */
  method RewriteTcUrl(tcUrl: string) returns (v: string)
    ensures v == Rewritten(tcUrl)
    ensures !ContainsDots(v)
  {
    hide Scan, ReplaceFirst, FirstDots, DotsAt;
    v := tcUrl;
    ghost var question, n := '?' !in tcUrl, 0;
    if '?' !in v {
      ReplaceIsScanStep(v, question, 0);
      v := ReplaceFirst(v, '?');
      ReplaceIsScanStep(v, question, 1);
      v := ReplaceFirst(v, '=');
      n := 2;
    }
    while FirstDots(v, 0) < |v|
      invariant Scan(v, question, n) == Rewritten(tcUrl)
      invariant n % 2 == 0 && (question ==> n >= 2)
      decreases |v|
    {
      ReplaceIsScanStep(v, question, n);
      v := ReplaceFirst(v, '&');
      ReplaceIsScanStep(v, question, n + 1);
      v := ReplaceFirst(v, '=');
      n := n + 2;
    }
    NoDotsUnchanged(v, question, n);
  }
}
