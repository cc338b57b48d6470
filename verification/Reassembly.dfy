/** What AddTCP does to a buffer, as a function on values, and what that means for a TCP stream. */
module Reassembly {
  import opened Bytes
  import opened SequenceNumbers

  datatype Segment = Segment(seqNo: U32, payload: seq<Byte>)

  /** The writer's side of a buffer; delivered is every payload pushed to the channel so far. */
  datatype View = View(expected: U32, pending: map<U32, seq<Byte>>, delivered: seq<seq<Byte>>)

  function Fresh(expected: U32): View {
    View(expected, map[], [])
  }

  /** Deliver from the expected number on, taking each entry out as it is delivered. */
  function Drain(v: View): View
    decreases |v.pending|
  {
    if v.expected in v.pending then
      assert |v.pending - {v.expected}| < |v.pending| by {
        assert (v.pending - {v.expected}).Keys == v.pending.Keys - {v.expected};
      }
      Drain(View(Advance(v.expected, |v.pending[v.expected]|), v.pending - {v.expected},
                 v.delivered + [v.pending[v.expected]]))
    else v
  }

  predicate Admits(v: View, s: Segment) {
    ValidPackage(v.expected, WINDOW, s.seqNo) && s.seqNo !in v.pending
  }

  function Insert(v: View, s: Segment): View {
    v.(pending := v.pending[s.seqNo := s.payload])
  }

  /** One AddTCP call. */
  function Accept(v: View, s: Segment): View {
    if !Admits(v, s) then v
    else if s.seqNo == v.expected then Drain(Insert(v, s))
    else Insert(v, s)
  }

  function Run(v: View, segs: seq<Segment>): View
    decreases |segs|
  {
    if segs == [] then v else Run(Accept(v, segs[0]), segs[1..])
  }

  lemma {:induction false} RunSnoc(v: View, segs: seq<Segment>, s: Segment)
    ensures Run(v, segs + [s]) == Accept(Run(v, segs), s)
    decreases |segs|
  {
    if segs == [] {
      assert [] + [s] == [s];
    } else {
      assert (segs + [s])[1..] == segs[1..] + [s];
      RunSnoc(Accept(v, segs[0]), segs[1..], s);
    }
  }

  /** A list without the entries in gone. */
  function Rest(m: map<U32, seq<Byte>>, gone: seq<U32>): map<U32, seq<Byte>> {
    map q | q in m && q !in gone :: m[q]
  }

  // ---------------------------------------------------------------------------------------------
  // When the delivery loop, which takes entries out only after its last round, ends at all.

  /** The expected number after n rounds over a list that does not change. */
  ghost function Walk(list: map<U32, seq<Byte>>, e: U32, n: nat): U32 {
    if n == 0 then e
    else
      var q := Walk(list, e, n - 1);
      if q in list then Advance(q, |list[q]|) else q
  }

  /** The loop comes to a number that is not listed. */
  ghost predicate Stops(list: map<U32, seq<Byte>>, e: U32) {
    exists n: nat :: Walk(list, e, n) !in list
  }

  /** The loop, if s starts one, does not come back to an entry that it has delivered and not yet
      taken out. */
  predicate LoopEnds(v: View, s: Segment) {
    Admits(v, s) && s.seqNo == v.expected ==> Drain(Insert(v, s)).expected !in Insert(v, s).pending
  }

  ghost predicate Walked(list: map<U32, seq<Byte>>, e: U32, q: U32, n: nat) {
    exists m: nat :: m < n && Walk(list, e, m) == q
  }

  /** The pending entries are those of the list without the numbers walked over in n rounds. */
  ghost predicate Left(pending: map<U32, seq<Byte>>, list: map<U32, seq<Byte>>, e: U32, n: nat) {
    && (forall q :: q in pending ==> q in list && pending[q] == list[q])
    && (forall q :: q in list && q !in pending ==> Walked(list, e, q, n))
  }

  ghost predicate AllListed(list: map<U32, seq<Byte>>, e: U32, n: nat) {
    forall m: nat :: m < n ==> Walk(list, e, m) in list
  }

  /** v is what Drain has made of the list in n rounds. */
  ghost predicate After(v: View, list: map<U32, seq<Byte>>, e: U32, n: nat) {
    v.expected == Walk(list, e, n) && AllListed(list, e, n) && Left(v.pending, list, e, n)
  }

  lemma LeftStep(pending: map<U32, seq<Byte>>, list: map<U32, seq<Byte>>, e: U32, n: nat)
    requires Left(pending, list, e, n)
    ensures Left(pending - {Walk(list, e, n)}, list, e, n + 1)
  {
    forall q | q in list && q !in pending - {Walk(list, e, n)}
      ensures Walked(list, e, q, n + 1)
    {
      if q != Walk(list, e, n) {
        var m: nat :| m < n && Walk(list, e, m) == q;
      }
    }
  }

  lemma AfterStep(v: View, list: map<U32, seq<Byte>>, e: U32, n: nat)
    requires After(v, list, e, n)
    ensures v.expected in v.pending ==>
              var p := v.pending[v.expected];
              After(View(Advance(v.expected, |p|), v.pending - {v.expected}, v.delivered + [p]), list, e, n + 1)
  {
    LeftStep(v.pending, list, e, n);
  }

  /** Taking an entry out as it is delivered makes the same rounds. */
  lemma {:induction false} DrainWalks(v: View, list: map<U32, seq<Byte>>, e: U32, n: nat) returns (n': nat)
    requires After(v, list, e, n)
    ensures After(Drain(v), list, e, n')
    decreases |v.pending|
  {
    n' := n;
    if v.expected in v.pending {
      AfterStep(v, list, e, n);
      MapShrinks(v.pending, v.expected);
      var p := v.pending[v.expected];
      n' := DrainWalks(View(Advance(v.expected, |p|), v.pending - {v.expected}, v.delivered + [p]), list, e, n + 1);
    }
  }

  /** A walk that comes back to where it was goes round for ever. */
  lemma {:induction false} GoesRound(list: map<U32, seq<Byte>>, e: U32, m: nat, n: nat, i: nat)
    requires m < n && Walk(list, e, m) == Walk(list, e, n)
    requires AllListed(list, e, n)
    ensures Walk(list, e, i) in list
    decreases i
  {
    if i >= n {
      SamePace(list, e, m, n, i - n);
      GoesRound(list, e, m, n, m + (i - n));
    }
  }

  lemma {:induction false} SamePace(list: map<U32, seq<Byte>>, e: U32, m: nat, n: nat, k: nat)
    requires Walk(list, e, m) == Walk(list, e, n)
    ensures Walk(list, e, m + k) == Walk(list, e, n + k)
  {
    if k > 0 {
      SamePace(list, e, m, n, k - 1);
    }
  }

  /** Termination, exactly: LoopEnds says that the loop over the unchanging list stops. */
  lemma LoopEndsExact(v: View, s: Segment)
    requires Admits(v, s) && s.seqNo == v.expected
    ensures LoopEnds(v, s) <==> Stops(Insert(v, s).pending, v.expected)
  {
    var w, list := Insert(v, s), Insert(v, s).pending;
    assert Walk(list, v.expected, 0) == v.expected;
    var n := DrainWalks(w, list, v.expected, 0);
    DrainKeeps(w);
    if Drain(w).expected in list {
      var m: nat :| m < n && Walk(list, v.expected, m) == Drain(w).expected;
      forall i: nat
        ensures Walk(list, v.expected, i) in list
      {
        GoesRound(list, v.expected, m, n, i);
      }
    }
  }

  /** Drain only takes entries out, only appends to what was delivered, and keeps every byte. */
  lemma {:induction false} DrainKeeps(v: View)
    ensures Drain(v).pending.Keys <= v.pending.Keys
    ensures forall q :: q in Drain(v).pending ==> Drain(v).pending[q] == v.pending[q]
    ensures v.delivered <= Drain(v).delivered
    ensures Drain(v).expected !in Drain(v).pending
    ensures |Flat(Drain(v).delivered)| + TotalBytes(Drain(v).pending) == |Flat(v.delivered)| + TotalBytes(v.pending)
    decreases |v.pending|
  {
    if v.expected in v.pending {
      var p := v.pending[v.expected];
      var next := View(Advance(v.expected, |p|), v.pending - {v.expected}, v.delivered + [p]);
      assert next.pending.Keys == v.pending.Keys - {v.expected};
      TotalBytesRemove(v.pending, v.expected);
      FlatSnoc(v.delivered, p);
      DrainKeeps(next);
    }
  }

  ghost predicate NonEmptyPayloads(pending: map<U32, seq<Byte>>) {
    forall q :: q in pending ==> pending[q] != []
  }

  /** Walking less than a whole turn of the sequence space never meets an entry twice. The one
      skipped number costs one more unit, once, before the walk has passed 2^32-1. */
  lemma {:induction false} DrainGoesForward(v: View, origin: U32)
    requires NonEmptyPayloads(v.pending)
    requires Dist(origin, v.expected) + TotalBytes(v.pending) + (if v.expected >= origin then 1 else 0) < TWO32
    ensures Dist(origin, Drain(v).expected) >= Dist(origin, v.expected)
    ensures forall q :: q in v.pending && q !in Drain(v).pending ==> Dist(origin, q) < Dist(origin, Drain(v).expected)
    decreases |v.pending|
  {
    if v.expected in v.pending {
      var p := v.pending[v.expected];
      TotalBytesRemove(v.pending, v.expected);
      var next := View(Advance(v.expected, |p|), v.pending - {v.expected}, v.delivered + [p]);
      assert next.pending.Keys == v.pending.Keys - {v.expected};
      AdvanceExact(v.expected, |p|);
      PlusCases(v.expected, |p|);
      DrainGoesForward(next, origin);
    }
  }

  /** Non-empty payloads, and less than a turn of the sequence space pending, make the loop end. */
  lemma FewBytesEnd(v: View, s: Segment)
    requires NonEmptyPayloads(v.pending) && s.payload != []
    requires TotalBytes(v.pending) + |s.payload| < MAX_U32
    ensures LoopEnds(v, s)
    ensures Admits(v, s) && s.seqNo == v.expected ==> Stops(Insert(v, s).pending, v.expected)
  {
    if Admits(v, s) && s.seqNo == v.expected {
      var w := Insert(v, s);
      TotalBytesAdd(v.pending, s.seqNo, s.payload);
      DrainGoesForward(w, w.expected);
      DrainKeeps(w);
      LoopEndsExact(v, s);
    }
  }

  /** An empty payload at the expected number makes the loop run for ever (except at 2^32-1). */
  lemma EmptyPayloadLoops(v: View)
    requires v.expected !in v.pending && v.expected != MAX_U32
    ensures Admits(v, Segment(v.expected, [])) && !LoopEnds(v, Segment(v.expected, []))
    ensures !Stops(Insert(v, Segment(v.expected, [])).pending, v.expected)
  {
    var s := Segment(v.expected, []);
    WindowExact(v.expected, WINDOW, v.expected);
    AdvanceExact(v.expected, 0);
    var w := Insert(v, s);
    assert w.pending - {v.expected} == v.pending;
    var next := View(v.expected, v.pending, v.delivered + [[]]);
    assert Drain(w) == Drain(next) == next;
    LoopEndsExact(v, s);
  }

  // ---------------------------------------------------------------------------------------------
  // Safety: whatever arrives, in any order, only a prefix of the stream is delivered.

  /** s is a non-empty piece of the stream S whose first byte has number isn, and its last byte
      is not followed by number 2^32-1. */
  ghost predicate IsCut(s: Segment, S: seq<Byte>, isn: U32) {
    var o := Dist(isn, s.seqNo);
    && s.payload != []
    && o + |s.payload| <= |S|
    && s.payload == S[o..o + |s.payload|]
    && Plus(isn, o + |s.payload|) != MAX_U32
  }

  ghost predicate PendingCuts(v: View, S: seq<Byte>, isn: U32) {
    forall q :: q in v.pending ==> IsCut(Segment(q, v.pending[q]), S, isn)
  }

  /** Exactly the first k bytes of S have been delivered. */
  ghost predicate Tracks(v: View, S: seq<Byte>, isn: U32, k: nat) {
    && k <= |S| < TWO32
    && v.expected == Plus(isn, k)
    && Flat(v.delivered) == S[..k]
    && PendingCuts(v, S, isn)
  }

  lemma AdvanceOverCut(s: Segment, S: seq<Byte>, isn: U32, k: nat)
    requires k < |S| < TWO32 && IsCut(s, S, isn) && s.seqNo == Plus(isn, k)
    ensures Dist(isn, s.seqNo) == k && k + |s.payload| <= |S|
    ensures Advance(s.seqNo, |s.payload|) == Plus(isn, k + |s.payload|)
    ensures S[..k] + s.payload == S[..k + |s.payload|]
  {
    DistOfPlus(isn, k);
    AdvanceExact(s.seqNo, |s.payload|);
    PlusPlus(isn, k, |s.payload|);
  }

  /** At the end of the stream nothing is left to deliver, so the expected number is not pending. */
  lemma ExpectedCutIsInside(q: U32, p: seq<Byte>, S: seq<Byte>, isn: U32, k: nat)
    requires k <= |S| < TWO32 && IsCut(Segment(q, p), S, isn) && q == Plus(isn, k)
    ensures k < |S|
  {
    DistOfPlus(isn, k);
  }

  lemma {:induction false} DrainSafe(v: View, S: seq<Byte>, isn: U32, k: nat) returns (k': nat)
    requires Tracks(v, S, isn, k)
    ensures Tracks(Drain(v), S, isn, k') && k <= k'
    ensures forall q :: q in v.pending && q !in Drain(v).pending ==> Dist(isn, q) < k'
    decreases |v.pending|
  {
    k' := k;
    if v.expected in v.pending {
      var p := v.pending[v.expected];
      var next := View(Advance(v.expected, |p|), v.pending - {v.expected}, v.delivered + [p]);
      assert next.pending.Keys == v.pending.Keys - {v.expected};
      ExpectedCutIsInside(v.expected, p, S, isn, k);
      AdvanceOverCut(Segment(v.expected, p), S, isn, k);
      FlatSnoc(v.delivered, p);
      k' := DrainSafe(next, S, isn, k + |p|);
    }
  }

  lemma InsertTracks(v: View, s: Segment, S: seq<Byte>, isn: U32, k: nat)
    requires Tracks(v, S, isn, k) && IsCut(s, S, isn)
    ensures Tracks(Insert(v, s), S, isn, k)
  {
    forall q | q in Insert(v, s).pending
      ensures IsCut(Segment(q, Insert(v, s).pending[q]), S, isn)
    {
    }
  }

  /** The expected number stands past everything taken out, so it cannot be among it. */
  lemma DrainOfStreamEnds(v: View, S: seq<Byte>, isn: U32, k: nat) returns (k': nat)
    requires Tracks(v, S, isn, k)
    ensures Tracks(Drain(v), S, isn, k') && k <= k'
    ensures Drain(v).expected !in v.pending
  {
    k' := DrainSafe(v, S, isn, k);
    var d := Drain(v);
    assert d.expected !in d.pending by { DrainKeeps(v); }
    assert Dist(isn, d.expected) == k' by { DistOfPlus(isn, k'); }
    assert d.expected in v.pending ==> Dist(isn, d.expected) < k';
  }

  /** One AddTCP call on a piece of S: a longer prefix of S is delivered, and the loop ends. */
  lemma AcceptSafe(v: View, s: Segment, S: seq<Byte>, isn: U32, k: nat) returns (k': nat)
    requires Tracks(v, S, isn, k) && IsCut(s, S, isn)
    ensures Tracks(Accept(v, s), S, isn, k') && k <= k'
    ensures LoopEnds(v, s)
  {
    k' := k;
    if Admits(v, s) {
      InsertTracks(v, s, S, isn, k);
      if s.seqNo == v.expected {
        k' := DrainOfStreamEnds(Insert(v, s), S, isn, k);
      }
    }
  }

  ghost predicate AllCuts(segs: seq<Segment>, S: seq<Byte>, isn: U32) {
    forall i :: 0 <= i < |segs| ==> IsCut(segs[i], S, isn)
  }

  /** Reassembly safety: any order, repetition, overlap or loss delivers exactly a prefix of S,
      and the expected number stands right after it. */
  lemma {:induction false} ReassemblySafe(v: View, segs: seq<Segment>, S: seq<Byte>, isn: U32, k: nat) returns (k': nat)
    requires Tracks(v, S, isn, k) && AllCuts(segs, S, isn)
    ensures Tracks(Run(v, segs), S, isn, k') && k <= k'
    decreases |segs|
  {
    if segs == [] {
      k' := k;
    } else {
      k' := AcceptSafe(v, segs[0], S, isn, k);
      k' := ReassemblySafe(Accept(v, segs[0]), segs[1..], S, isn, k');
    }
  }

  lemma FreshTracks(S: seq<Byte>, isn: U32)
    requires |S| < TWO32
    ensures Tracks(Fresh(isn), S, isn, 0)
  {
  }

  // ---------------------------------------------------------------------------------------------
  // Bytes are neither invented nor repeated.

  ghost function ByteCount(v: View): nat {
    |Flat(v.delivered)| + TotalBytes(v.pending)
  }

  lemma AcceptCounts(v: View, s: Segment)
    ensures ByteCount(Accept(v, s)) == ByteCount(v) + (if Admits(v, s) then |s.payload| else 0)
  {
    if Admits(v, s) {
      TotalBytesAdd(v.pending, s.seqNo, s.payload);
      DrainKeeps(Insert(v, s));
    }
  }
}
