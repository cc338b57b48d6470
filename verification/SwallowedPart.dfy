/** Around number 2^32-1 a stream is not only cut short: exactly when what comes out is no prefix. */
module SwallowedPart {
  import opened Bytes
  import opened SequenceNumbers
  import opened Reassembly
  import opened OrderIndependence

  /** No part of one byte, numbered 2^32-1, stands between two others. */
  ghost predicate NoneSwallowed(isn: U32, parts: seq<seq<Byte>>) {
    forall i :: 0 < i < |parts| - 1 && SeqAt(isn, parts, i) == MAX_U32 ==> |parts[i]| != 1
  }

  /** The same stream positions, other bytes. */
  ghost predicate SameCut(parts: seq<seq<Byte>>, others: seq<seq<Byte>>) {
    |parts| == |others| && forall i :: 0 <= i < |parts| ==> |parts[i]| == |others[i]|
  }

  /** Whatever the bytes, and whatever arrives in whatever order, the parts delivered are the first
      ones. */
  ghost predicate AlwaysPrefix(isn: U32, parts: seq<seq<Byte>>) {
    forall others: seq<seq<Byte>>, order: seq<nat> :: SameCut(parts, others) && Indices(order, |others|) ==>
      Run(Fresh(isn), Arrivals(isn, others, order)).delivered <= others
  }

  lemma {:induction false} SameOff(parts: seq<seq<Byte>>, others: seq<seq<Byte>>, i: nat)
    requires SameCut(parts, others) && i <= |parts|
    ensures Off(parts, i) == Off(others, i)
  {
    if i > 0 {
      SameOff(parts, others, i - 1);
      OffStep(parts, i - 1);
      OffStep(others, i - 1);
    } else {
      assert parts[..0] == [] && others[..0] == [];
    }
  }

  lemma SameStream(isn: U32, parts: seq<seq<Byte>>, others: seq<seq<Byte>>)
    requires SameCut(parts, others)
    ensures forall i :: 0 <= i <= |parts| ==> SeqAt(isn, parts, i) == SeqAt(isn, others, i)
    ensures |Flat(parts)| == |Flat(others)| && (NoneEmpty(parts) ==> NoneEmpty(others))
    ensures NoneSwallowed(isn, parts) <==> NoneSwallowed(isn, others)
  {
    forall i | 0 <= i <= |parts|
      ensures SeqAt(isn, parts, i) == SeqAt(isn, others, i)
    {
      SameOff(parts, others, i);
    }
    SameOff(parts, others, |parts|);
    assert parts[..|parts|] == parts && others[..|others|] == others;
  }

  /** b is the first boundary at 2^32-1, or the end. */
  ghost predicate FirstStop(isn: U32, parts: seq<seq<Byte>>, b: nat) {
    && b <= |parts| && (forall i :: 0 < i < b ==> SeqAt(isn, parts, i) != MAX_U32)
    && (b < |parts| ==> 0 < b && SeqAt(isn, parts, b) == MAX_U32)
  }

  lemma AStop(isn: U32, parts: seq<seq<Byte>>) returns (b: nat)
    ensures FirstStop(isn, parts, b)
  {
    if NoBadBoundary(isn, parts) {
      b := |parts|;
    } else {
      b := FirstBad(isn, parts, 1);
    }
  }

  /** Number 0 comes right after 2^32-1. */
  lemma AfterMax(isn: U32, parts: seq<seq<Byte>>, b: nat, i: nat)
    requires NoneEmpty(parts) && Fits(parts) && b <= |parts| && i <= |parts|
    requires SeqAt(isn, parts, b) == MAX_U32 && SeqAt(isn, parts, i) == 0
    ensures Off(parts, i) == Off(parts, b) + 1
  {
    SeqAtDist(isn, parts, b);
    SeqAtDist(isn, parts, i);
    OffMono(parts, b, b);
  }

  /** What is expected after the stop is the number of no part. */
  lemma NoPartThere(isn: U32, parts: seq<seq<Byte>>, b: nat, i: nat)
    requires NoneEmpty(parts) && Fits(parts) && NoneSwallowed(isn, parts) && FirstStop(isn, parts, b) && i < |parts|
    ensures SeqAt(isn, parts, i) != ExpectedAt(isn, parts, b)
  {
    ExpectedAtIs(isn, parts, b);
    if b > 0 && SeqAt(isn, parts, b) == MAX_U32 {
      if SeqAt(isn, parts, i) == 0 {
        AfterMax(isn, parts, b, i);
        OffsApart(parts, b, i);
      }
    } else {
      SeqAtInjective(isn, parts, i, b);
    }
  }

  /** A boundary one byte on is the next one, of a part of one byte. */
  lemma OffsApart(parts: seq<seq<Byte>>, b: nat, i: nat)
    requires NoneEmpty(parts) && b <= |parts| && i < |parts| && Off(parts, i) == Off(parts, b) + 1
    ensures i == b + 1 && |parts[b]| == 1
  {
    if i <= b {
      OffMono(parts, i, b);
    } else {
      OffStep(parts, b);
      OffMono(parts, b + 1, i);
    }
  }

  // ---------------------------------------------------------------------------------------------
  // Without such a part

  ghost predicate OnlyParts(pending: map<U32, seq<Byte>>, isn: U32, parts: seq<seq<Byte>>) {
    forall q :: q in pending ==> IsPart(pending[q], q, isn, parts)
  }

  ghost predicate IsPart(p: seq<Byte>, q: U32, isn: U32, parts: seq<seq<Byte>>) {
    exists i :: 0 <= i < |parts| && q == SeqAt(isn, parts, i) && p == parts[i]
  }

  ghost predicate FirstParts(v: View, isn: U32, parts: seq<seq<Byte>>, b: nat, j: nat) {
    && j <= b <= |parts| && v.expected == ExpectedAt(isn, parts, j) && v.delivered == parts[..j]
    && OnlyParts(v.pending, isn, parts)
  }

  lemma DrainOne(v: View, isn: U32, parts: seq<seq<Byte>>, b: nat, j: nat)
    requires NoneEmpty(parts) && Fits(parts) && NoneSwallowed(isn, parts) && FirstStop(isn, parts, b)
    requires FirstParts(v, isn, parts, b, j) && v.expected in v.pending
    ensures j < b && v.pending[v.expected] == parts[j]
    ensures FirstParts(View(Advance(v.expected, |parts[j]|), v.pending - {v.expected}, v.delivered + [parts[j]]),
                       isn, parts, b, j + 1)
  {
    assert IsPart(v.pending[v.expected], v.expected, isn, parts);
    var i :| 0 <= i < |parts| && v.expected == SeqAt(isn, parts, i) && v.pending[v.expected] == parts[i];
    NoPartThere(isn, parts, b, i);
    ExpectedAtIs(isn, parts, j);
    if i < j {
      SeqAtInjective(isn, parts, i, j);
    } else if j < i {
      SeqAtInjective(isn, parts, j, i);
    }
    assert parts[..j + 1] == parts[..j] + [parts[j]];
  }

  lemma {:induction false} DrainFirst(v: View, isn: U32, parts: seq<seq<Byte>>, b: nat, j: nat) returns (j': nat)
    requires NoneEmpty(parts) && Fits(parts) && NoneSwallowed(isn, parts) && FirstStop(isn, parts, b)
    requires FirstParts(v, isn, parts, b, j)
    ensures FirstParts(Drain(v), isn, parts, b, j')
    decreases |v.pending|
  {
    j' := j;
    if v.expected in v.pending {
      DrainOne(v, isn, parts, b, j);
      MapShrinks(v.pending, v.expected);
      j' := DrainFirst(View(Advance(v.expected, |parts[j]|), v.pending - {v.expected}, v.delivered + [parts[j]]),
                       isn, parts, b, j + 1);
    }
  }

  lemma {:induction false} RunFirst(v: View, isn: U32, parts: seq<seq<Byte>>, b: nat, j: nat, order: seq<nat>) returns (j': nat)
    requires NoneEmpty(parts) && Fits(parts) && NoneSwallowed(isn, parts) && FirstStop(isn, parts, b)
    requires FirstParts(v, isn, parts, b, j) && Indices(order, |parts|)
    ensures FirstParts(Run(v, Arrivals(isn, parts, order)), isn, parts, b, j')
    decreases |order|
  {
    if order == [] {
      j' := j;
    } else {
      var s := PartSeg(isn, parts, order[0]);
      j' := j;
      assert IsPart(s.payload, s.seqNo, isn, parts);
      if Admits(v, s) && s.seqNo == v.expected {
        j' := DrainFirst(Insert(v, s), isn, parts, b, j);
      }
      j' := RunFirst(Accept(v, s), isn, parts, b, j', order[1..]);
    }
  }

  // ---------------------------------------------------------------------------------------------
  // With one

  /** The first j numbers. */
  function Below(j: nat): (r: seq<nat>)
    ensures |r| == j && forall i :: 0 <= i < j ==> r[i] == i
  {
    if j == 0 then [] else Below(j - 1) + [j - 1]
  }

  lemma {:induction false} ArrivalsSnoc(isn: U32, parts: seq<seq<Byte>>, order: seq<nat>, i: nat)
    requires Indices(order, |parts|) && i < |parts|
    ensures Arrivals(isn, parts, order + [i]) == Arrivals(isn, parts, order) + [PartSeg(isn, parts, i)]
    decreases |order|
  {
    if order == [] {
      assert [] + [i] == [i];
    } else {
      assert (order + [i])[1..] == order[1..] + [i];
      ArrivalsSnoc(isn, parts, order[1..], i);
    }
  }

  lemma {:induction false} FirstInOrder(isn: U32, parts: seq<seq<Byte>>, j: nat)
    requires j <= |parts| && forall i :: 0 < i < j ==> SeqAt(isn, parts, i) != MAX_U32
    ensures Run(Fresh(isn), Arrivals(isn, parts, Below(j))) == View(ExpectedAt(isn, parts, j), map[], parts[..j])
  {
    if j == 0 {
      assert parts[..0] == [];
    } else {
      FirstInOrder(isn, parts, j - 1);
      ExpectedAtIs(isn, parts, j - 1);
      InOrderStep(isn, parts, j - 1);
      ArrivalsSnoc(isn, parts, Below(j - 1), j - 1);
      RunSnoc(Fresh(isn), Arrivals(isn, parts, Below(j - 1)), PartSeg(isn, parts, j - 1));
    }
  }

  lemma ByteAtMaxDropped(delivered: seq<seq<Byte>>, p: seq<Byte>)
    ensures Accept(View(0, map[], delivered), Segment(MAX_U32, p)) == View(0, map[], delivered)
  {
    WindowExact(0, WINDOW, MAX_U32);
  }

  lemma NextAtZero(delivered: seq<seq<Byte>>, p: seq<Byte>)
    ensures |Accept(View(0, map[], delivered), Segment(0, p)).delivered| > |delivered|
    ensures Accept(View(0, map[], delivered), Segment(0, p)).delivered[..|delivered| + 1] == delivered + [p]
  {
    WindowExact(0, WINDOW, 0);
    var w := Insert(View(0, map[], delivered), Segment(0, p));
    var next := View(Advance(0, |p|), w.pending - {0}, delivered + [p]);
    assert Drain(w) == Drain(next);
    DrainKeeps(next);
  }

  /** The part after a swallowed one comes out in its place. */
  lemma Swallows(isn: U32, parts: seq<seq<Byte>>, i: nat)
    requires NoneEmpty(parts) && Fits(parts) && 0 < i < |parts| - 1
    requires SeqAt(isn, parts, i) == MAX_U32 && |parts[i]| == 1
    ensures var d := Run(Fresh(isn), Arrivals(isn, parts, Below(i + 2))).delivered;
            |d| > i && d[i] == parts[i + 1]
  {
    forall k | 0 < k < i
      ensures SeqAt(isn, parts, k) != MAX_U32
    {
      SeqAtInjective(isn, parts, k, i);
    }
    FirstInOrder(isn, parts, i);
    ExpectedAtIs(isn, parts, i);
    OffStep(parts, i);
    PlusPlus(isn, Off(parts, i), 1);
    var v := View(0, map[], parts[..i]);
    ArrivalsSnoc(isn, parts, Below(i), i);
    RunSnoc(Fresh(isn), Arrivals(isn, parts, Below(i)), PartSeg(isn, parts, i));
    ByteAtMaxDropped(parts[..i], parts[i]);
    ArrivalsSnoc(isn, parts, Below(i + 1), i + 1);
    RunSnoc(Fresh(isn), Arrivals(isn, parts, Below(i + 1)), PartSeg(isn, parts, i + 1));
    NextAtZero(parts[..i], parts[i + 1]);
    var d := Accept(v, Segment(0, parts[i + 1])).delivered;
    assert d[i] == d[..i + 1][i];
  }

  /** Safety of a cut, exactly: whatever the bytes and the order of arrival, what is delivered is a
      prefix, if and only if no part of one byte numbered 2^32-1 stands between two others. */
  lemma AlwaysPrefixExact(isn: U32, parts: seq<seq<Byte>>)
    requires NoneEmpty(parts) && Fits(parts)
    ensures AlwaysPrefix(isn, parts) <==> NoneSwallowed(isn, parts)
  {
    if NoneSwallowed(isn, parts) {
      forall others: seq<seq<Byte>>, order: seq<nat> | SameCut(parts, others) && Indices(order, |others|)
        ensures Run(Fresh(isn), Arrivals(isn, others, order)).delivered <= others
      {
        SameStream(isn, parts, others);
        var b := AStop(isn, others);
        assert others[..0] == [];
        var j := RunFirst(Fresh(isn), isn, others, b, 0, order);
      }
    } else {
      var i :| 0 < i < |parts| - 1 && SeqAt(isn, parts, i) == MAX_U32 && |parts[i]| == 1;
      var others := parts[i := [if parts[i + 1][0] == 1 then 2 else 1]];
      assert others[i] != others[i + 1];
      SameStream(isn, parts, others);
      Swallows(isn, others, i);
      assert SameCut(parts, others) && Indices(Below(i + 2), |others|);
    }
  }
}
