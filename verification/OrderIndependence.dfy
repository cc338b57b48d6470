/** A stream cut into parts: which arrival orders deliver all of it. */
module OrderIndependence {
  import opened Bytes
  import opened SequenceNumbers
  import opened Reassembly

  function Off(parts: seq<seq<Byte>>, i: nat): nat
    requires i <= |parts|
  {
    |Flat(parts[..i])|
  }

  function SeqAt(isn: U32, parts: seq<seq<Byte>>, i: nat): U32
    requires i <= |parts|
  {
    Plus(isn, Off(parts, i))
  }

  function PartSeg(isn: U32, parts: seq<seq<Byte>>, i: nat): Segment
    requires i < |parts|
  {
    Segment(SeqAt(isn, parts, i), parts[i])
  }

  ghost predicate Indices(order: seq<nat>, n: nat) {
    forall t :: 0 <= t < |order| ==> order[t] < n
  }

  /** The segments that arrive when the parts come in the given order, repeats included. */
  function Arrivals(isn: U32, parts: seq<seq<Byte>>, order: seq<nat>): seq<Segment>
    requires Indices(order, |parts|)
    decreases |order|
  {
    if order == [] then [] else [PartSeg(isn, parts, order[0])] + Arrivals(isn, parts, order[1..])
  }

  ghost predicate Complete(v: View, parts: seq<seq<Byte>>) {
    Flat(v.delivered) == Flat(parts) && v.pending == map[]
  }

  /** No part but the last is followed by number 2^32-1. */
  ghost predicate NoBadBoundary(isn: U32, parts: seq<seq<Byte>>) {
    forall i :: 0 < i < |parts| ==> SeqAt(isn, parts, i) != MAX_U32
  }

  ghost predicate Fits(parts: seq<seq<Byte>>) {
    |Flat(parts)| + WINDOW + 2 < TWO32
  }

  lemma OffStep(parts: seq<seq<Byte>>, i: nat)
    requires i < |parts|
    ensures Off(parts, i + 1) == Off(parts, i) + |parts[i]|
  {
    assert parts[..i + 1] == parts[..i] + [parts[i]];
    FlatSnoc(parts[..i], parts[i]);
  }

  lemma {:induction false} OffMono(parts: seq<seq<Byte>>, i: nat, j: nat)
    requires NoneEmpty(parts) && i <= j <= |parts|
    ensures i < j ==> Off(parts, i) < Off(parts, j)
    ensures Off(parts, j) <= |Flat(parts)|
    decreases j - i
  {
    if i < j {
      OffStep(parts, j - 1);
      OffMono(parts, i, j - 1);
    }
    FlatAppend(parts[..j], parts[j..]);
    assert parts == parts[..j] + parts[j..];
  }

  lemma SeqAtDist(isn: U32, parts: seq<seq<Byte>>, i: nat)
    requires NoneEmpty(parts) && Fits(parts) && i <= |parts|
    ensures Dist(isn, SeqAt(isn, parts, i)) == Off(parts, i) <= |Flat(parts)|
  {
    OffMono(parts, i, i);
    DistOfPlus(isn, Off(parts, i));
  }

  lemma SeqAtInjective(isn: U32, parts: seq<seq<Byte>>, i: nat, j: nat)
    requires NoneEmpty(parts) && Fits(parts) && i < j <= |parts|
    ensures SeqAt(isn, parts, i) != SeqAt(isn, parts, j)
  {
    SeqAtDist(isn, parts, i);
    SeqAtDist(isn, parts, j);
    OffMono(parts, i, j);
  }

  /** The number expected once the first j parts are delivered. */
  function ExpectedAt(isn: U32, parts: seq<seq<Byte>>, j: nat): U32
    requires j <= |parts|
  {
    if j == 0 then isn else Advance(SeqAt(isn, parts, j - 1), |parts[j - 1]|)
  }

  lemma ExpectedAtIs(isn: U32, parts: seq<seq<Byte>>, j: nat)
    requires j <= |parts|
    ensures SeqAt(isn, parts, 0) == isn
    ensures ExpectedAt(isn, parts, j) ==
            if j > 0 && SeqAt(isn, parts, j) == MAX_U32 then 0 else SeqAt(isn, parts, j)
  {
    assert parts[..0] == [];
    if j > 0 {
      OffStep(parts, j - 1);
      PlusPlus(isn, Off(parts, j - 1), |parts[j - 1]|);
      AdvanceExact(SeqAt(isn, parts, j - 1), |parts[j - 1]|);
    }
  }

  // ---------------------------------------------------------------------------------------------
  // The state after some set A of parts has been admitted: the first j parts are delivered,
  // the other admitted ones wait.

  ghost predicate PartInv(v: View, A: set<nat>, isn: U32, parts: seq<seq<Byte>>, j: nat) {
    && j <= |parts|
    && (forall i :: 0 <= i < j ==> i in A)
    && (forall i :: i in A ==> i < |parts|)
    && v.expected == ExpectedAt(isn, parts, j)
    && v.delivered == parts[..j]
    && Waits(v.pending, A, isn, parts, j)
  }

  /** Exactly the admitted parts from number j on are pending. */
  ghost predicate Waits(pending: map<U32, seq<Byte>>, A: set<nat>, isn: U32, parts: seq<seq<Byte>>, j: nat)
    requires forall i :: i in A ==> i < |parts|
  {
    && (forall i :: i in A && i >= j ==>
          SeqAt(isn, parts, i) in pending && pending[SeqAt(isn, parts, i)] == parts[i])
    && (forall q :: q in pending ==> exists i :: i in A && i >= j && q == SeqAt(isn, parts, i))
  }

  ghost predicate Cuttable(isn: U32, parts: seq<seq<Byte>>) {
    NoneEmpty(parts) && Fits(parts) && NoBadBoundary(isn, parts)
  }

  lemma WaitsStep(pending: map<U32, seq<Byte>>, A: set<nat>, isn: U32, parts: seq<seq<Byte>>, j: nat)
    requires (forall i :: i in A ==> i < |parts|) && NoneEmpty(parts) && Fits(parts) && j < |parts|
    requires Waits(pending, A, isn, parts, j)
    ensures Waits(pending - {SeqAt(isn, parts, j)}, A, isn, parts, j + 1)
  {
    var rest := pending - {SeqAt(isn, parts, j)};
    forall i | i in A && i >= j + 1
      ensures SeqAt(isn, parts, i) in rest && rest[SeqAt(isn, parts, i)] == parts[i]
    {
      SeqAtInjective(isn, parts, j, i);
    }
    forall q | q in rest
      ensures exists i :: i in A && i >= j + 1 && q == SeqAt(isn, parts, i)
    {
      var i :| i in A && i >= j && q == SeqAt(isn, parts, i);
      assert i != j;
    }
  }

  lemma DrainPartStep(v: View, A: set<nat>, isn: U32, parts: seq<seq<Byte>>, j: nat)
    requires Cuttable(isn, parts) && PartInv(v, A, isn, parts, j) && j in A
    ensures v.expected in v.pending && v.pending[v.expected] == parts[j]
    ensures PartInv(View(Advance(v.expected, |parts[j]|), v.pending - {v.expected}, v.delivered + [parts[j]]),
                    A, isn, parts, j + 1)
  {
    ExpectedAtIs(isn, parts, j);
    WaitsStep(v.pending, A, isn, parts, j);
    assert parts[..j + 1] == parts[..j] + [parts[j]];
  }

  lemma {:induction false} DrainPart(v: View, A: set<nat>, isn: U32, parts: seq<seq<Byte>>, j: nat) returns (j': nat)
    requires Cuttable(isn, parts) && PartInv(v, A, isn, parts, j)
    ensures PartInv(Drain(v), A, isn, parts, j') && j' !in A
    decreases |parts| - j
  {
    j' := j;
    ExpectedAtIs(isn, parts, j);
    if j in A {
      DrainPartStep(v, A, isn, parts, j);
      j' := DrainPart(View(Advance(v.expected, |parts[j]|), v.pending - {v.expected}, v.delivered + [parts[j]]),
                      A, isn, parts, j + 1);
    } else if v.expected in v.pending {
      var i :| i in A && i >= j && v.expected == SeqAt(isn, parts, i);
      SeqAtInjective(isn, parts, j, i);
      assert false;
    }
  }

  /** A delivered part that arrives again is outside the window. */
  lemma OldPartRejected(v: View, A: set<nat>, isn: U32, parts: seq<seq<Byte>>, j: nat, i: nat)
    requires Cuttable(isn, parts) && PartInv(v, A, isn, parts, j) && i < j
    ensures !ValidPackage(v.expected, WINDOW, SeqAt(isn, parts, i))
  {
    ExpectedAtIs(isn, parts, j);
    OffMono(parts, i, j);
    DistPlus(isn, Off(parts, j), Off(parts, i));
    WindowExact(v.expected, WINDOW, SeqAt(isn, parts, i));
  }

  /** A part within the window of the start stays within it until it is delivered. */
  lemma NewPartInWindow(v: View, A: set<nat>, isn: U32, parts: seq<seq<Byte>>, j: nat, i: nat)
    requires Cuttable(isn, parts) && PartInv(v, A, isn, parts, j) && j <= i < |parts|
    requires ValidPackage(isn, WINDOW, SeqAt(isn, parts, i))
    ensures ValidPackage(v.expected, WINDOW, SeqAt(isn, parts, i))
  {
    ExpectedAtIs(isn, parts, j);
    if j > 0 {
      SeqAtDist(isn, parts, i);
      WindowExact(isn, WINDOW, SeqAt(isn, parts, i));
      OffMono(parts, 0, j);
      OffMono(parts, j, i);
      DistPlus(isn, Off(parts, j), Off(parts, i));
      WindowExact(v.expected, WINDOW, SeqAt(isn, parts, i));
    }
  }

  lemma InsertPart(v: View, A: set<nat>, isn: U32, parts: seq<seq<Byte>>, j: nat, i: nat)
    requires Cuttable(isn, parts) && PartInv(v, A, isn, parts, j) && j <= i < |parts| && i !in A
    ensures SeqAt(isn, parts, i) !in v.pending
    ensures PartInv(Insert(v, PartSeg(isn, parts, i)), A + {i}, isn, parts, j)
  {
    var w := Insert(v, PartSeg(isn, parts, i));
    forall m | m in A && m >= j
      ensures SeqAt(isn, parts, m) != SeqAt(isn, parts, i)
    {
      if m < i { SeqAtInjective(isn, parts, m, i); } else { SeqAtInjective(isn, parts, i, m); }
    }
    forall q | q in w.pending
      ensures exists m :: m in A + {i} && m >= j && q == SeqAt(isn, parts, m)
    {
      if q in v.pending {
        var m :| m in A && m >= j && q == SeqAt(isn, parts, m);
        assert m in A + {i};
      } else {
        assert i in A + {i};
      }
    }
  }

  /** One arrival of part i. */
  lemma ArrivePart(v: View, A: set<nat>, isn: U32, parts: seq<seq<Byte>>, j: nat, i: nat) returns (A': set<nat>, j': nat)
    requires Cuttable(isn, parts) && PartInv(v, A, isn, parts, j) && j !in A && i < |parts|
    ensures PartInv(Accept(v, PartSeg(isn, parts, i)), A', isn, parts, j') && j' !in A'
    ensures A' == if i !in A && ValidPackage(v.expected, WINDOW, SeqAt(isn, parts, i)) then A + {i} else A
    ensures ValidPackage(isn, WINDOW, SeqAt(isn, parts, i)) ==> i in A'
  {
    A', j' := A, j;
    if i < j {
      OldPartRejected(v, A, isn, parts, j, i);
    } else if i !in A {
      if ValidPackage(isn, WINDOW, SeqAt(isn, parts, i)) {
        NewPartInWindow(v, A, isn, parts, j, i);
      }
      if ValidPackage(v.expected, WINDOW, SeqAt(isn, parts, i)) {
        InsertPart(v, A, isn, parts, j, i);
        A' := A + {i};
        var w := Insert(v, PartSeg(isn, parts, i));
        ExpectedAtIs(isn, parts, j);
        if i == j {
          j' := DrainPart(w, A', isn, parts, j);
        } else {
          SeqAtInjective(isn, parts, j, i);
        }
      }
    }
  }

  lemma {:induction false} ArriveAll(v: View, A: set<nat>, isn: U32, parts: seq<seq<Byte>>, j: nat, order: seq<nat>)
    returns (A': set<nat>, j': nat)
    requires Cuttable(isn, parts) && PartInv(v, A, isn, parts, j) && j !in A && Indices(order, |parts|)
    ensures PartInv(Run(v, Arrivals(isn, parts, order)), A', isn, parts, j') && j' !in A'
    ensures A <= A' && forall i :: i in A' ==> i in A || i in order
    ensures forall i :: i in order && ValidPackage(isn, WINDOW, SeqAt(isn, parts, i)) ==> i in A'
    decreases |order|
  {
    if order == [] {
      A', j' := A, j;
    } else {
      var A1, j1 := ArrivePart(v, A, isn, parts, j, order[0]);
      A', j' := ArriveAll(Accept(v, PartSeg(isn, parts, order[0])), A1, isn, parts, j1, order[1..]);
      assert order == [order[0]] + order[1..];
    }
  }

  ghost predicate Covers(order: seq<nat>, n: nat) {
    Indices(order, n) && forall i: nat :: i < n ==> i in order
  }

  lemma FreshPartInv(isn: U32, parts: seq<seq<Byte>>)
    ensures PartInv(Fresh(isn), {}, isn, parts, 0)
  {
    assert parts[..0] == [];
  }

  /** If every part starts within the window of the start, every order delivers everything. */
  lemma EveryOrderDelivers(isn: U32, parts: seq<seq<Byte>>, order: seq<nat>)
    requires Cuttable(isn, parts) && Covers(order, |parts|)
    requires forall i :: 0 <= i < |parts| ==> ValidPackage(isn, WINDOW, SeqAt(isn, parts, i))
    ensures Complete(Run(Fresh(isn), Arrivals(isn, parts, order)), parts)
  {
    FreshPartInv(isn, parts);
    var A, j := ArriveAll(Fresh(isn), {}, isn, parts, 0, order);
    assert j < |parts| ==> j in order;
    assert parts[..j] == parts;
    var v := Run(Fresh(isn), Arrivals(isn, parts, order));
    assert v.pending.Keys == {};
  }

  /** Which parts start within the window of the start. */
  lemma PartInWindow(isn: U32, parts: seq<seq<Byte>>, i: nat)
    requires NoneEmpty(parts) && Fits(parts) && i < |parts|
    ensures ValidPackage(isn, WINDOW, SeqAt(isn, parts, i)) <==>
            Off(parts, i) <= 65536 || (isn == 0xFFFE_FFFF && Off(parts, i) == 65537)
  {
    SeqAtDist(isn, parts, i);
    WindowExact(isn, WINDOW, SeqAt(isn, parts, i));
  }

  /** If every part starts at most 65536 bytes into the stream, and none but the last is followed by
      number 2^32-1, every order delivers everything. */
  lemma NearPartsDeliver(isn: U32, parts: seq<seq<Byte>>, order: seq<nat>)
    requires NoneEmpty(parts) && |Flat(parts)| + 65538 < 0x1_0000_0000 && Covers(order, |parts|)
    requires forall i :: 0 <= i < |parts| ==> Off(parts, i) <= 65536
    requires forall i :: 0 < i < |parts| ==> (isn + Off(parts, i)) % 0x1_0000_0000 != 0xFFFF_FFFF
    ensures Complete(Run(Fresh(isn), Arrivals(isn, parts, order)), parts)
  {
    forall i | 0 <= i < |parts|
      ensures ValidPackage(isn, WINDOW, SeqAt(isn, parts, i))
    {
      PartInWindow(isn, parts, i);
    }
    EveryOrderDelivers(isn, parts, order);
  }

  /** Every index but i, in order. */
  function AllBut(n: nat, i: nat): (r: seq<nat>)
    ensures Indices(r, n) && i !in r
    ensures forall m: nat :: m < n && m != i ==> m in r
  {
    if n == 0 then [] else AllBut(n - 1, i) + (if n - 1 == i then [] else [n - 1])
  }

  /** A part that starts outside the window and arrives first, once, is lost. */
  lemma FarPartFirstIsLost(isn: U32, parts: seq<seq<Byte>>, i: nat)
    requires Cuttable(isn, parts) && i < |parts|
    requires !ValidPackage(isn, WINDOW, SeqAt(isn, parts, i))
    ensures Covers([i] + AllBut(|parts|, i), |parts|)
    ensures !Complete(Run(Fresh(isn), Arrivals(isn, parts, [i] + AllBut(|parts|, i))), parts)
  {
    var order := [i] + AllBut(|parts|, i);
    assert order[1..] == AllBut(|parts|, i);
    assert Accept(Fresh(isn), PartSeg(isn, parts, i)) == Fresh(isn);
    FreshPartInv(isn, parts);
    var A, j := ArriveAll(Fresh(isn), {}, isn, parts, 0, order[1..]);
    assert j <= i;
    OffMono(parts, j, |parts|);
    assert parts[..|parts|] == parts;
  }

  // ---------------------------------------------------------------------------------------------
  // In-order arrival: exactly which streams survive the modulo 2^32-1 in the advance.

  /** The parts from j on, in order. */
  function InOrder(isn: U32, parts: seq<seq<Byte>>, j: nat): seq<Segment>
    requires j <= |parts|
    decreases |parts| - j
  {
    if j == |parts| then [] else [PartSeg(isn, parts, j)] + InOrder(isn, parts, j + 1)
  }

  lemma InOrderStep(isn: U32, parts: seq<seq<Byte>>, j: nat)
    requires j < |parts| && ExpectedAt(isn, parts, j) == SeqAt(isn, parts, j)
    ensures Accept(View(ExpectedAt(isn, parts, j), map[], parts[..j]), PartSeg(isn, parts, j))
         == View(ExpectedAt(isn, parts, j + 1), map[], parts[..j + 1])
  {
    var s := PartSeg(isn, parts, j);
    var v := View(s.seqNo, map[], parts[..j]);
    WindowExact(s.seqNo, WINDOW, s.seqNo);
    assert parts[..j + 1] == parts[..j] + [parts[j]];
    var next := View(Advance(s.seqNo, |s.payload|), Insert(v, s).pending - {s.seqNo}, parts[..j + 1]);
    assert next.pending == map[];
    assert Drain(Insert(v, s)) == Drain(next) == next;
  }

  lemma {:induction false} InOrderDelivers(isn: U32, parts: seq<seq<Byte>>, j: nat)
    requires j <= |parts| && NoBadBoundary(isn, parts)
    ensures Run(View(ExpectedAt(isn, parts, j), map[], parts[..j]), InOrder(isn, parts, j))
         == View(ExpectedAt(isn, parts, |parts|), map[], parts)
    decreases |parts| - j
  {
    ExpectedAtIs(isn, parts, j);
    if j < |parts| {
      InOrderStep(isn, parts, j);
      InOrderDelivers(isn, parts, j + 1);
    } else {
      assert parts[..j] == parts;
    }
  }

  lemma {:induction false} InOrderCounts(v: View, isn: U32, parts: seq<seq<Byte>>, j: nat)
    requires j <= |parts|
    ensures ByteCount(Run(v, InOrder(isn, parts, j))) <= ByteCount(v) + |Flat(parts)| - Off(parts, j)
    decreases |parts| - j
  {
    if j < |parts| {
      AcceptCounts(v, PartSeg(isn, parts, j));
      OffStep(parts, j);
      InOrderCounts(Accept(v, PartSeg(isn, parts, j)), isn, parts, j + 1);
    } else {
      assert parts[..j] == parts;
    }
  }

  /** From a boundary at 2^32-1 on, the part that starts there is dropped. */
  lemma {:induction false} InOrderLoses(isn: U32, parts: seq<seq<Byte>>, j: nat, bad: nat)
    requires NoneEmpty(parts) && j <= bad < |parts| && 0 < bad
    requires SeqAt(isn, parts, bad) == MAX_U32
    requires forall i :: 0 < i < bad ==> SeqAt(isn, parts, i) != MAX_U32
    ensures |Flat(Run(View(ExpectedAt(isn, parts, j), map[], parts[..j]), InOrder(isn, parts, j)).delivered)| < |Flat(parts)|
    decreases bad - j
  {
    ExpectedAtIs(isn, parts, j);
    if j < bad {
      InOrderStep(isn, parts, j);
      InOrderLoses(isn, parts, j + 1, bad);
    } else {
      var v := View(0, map[], parts[..j]);
      WindowExact(0, WINDOW, MAX_U32);
      assert Accept(v, PartSeg(isn, parts, j)) == v;
      OffStep(parts, j);
      InOrderCounts(v, isn, parts, j + 1);
    }
  }

  /** Parts that arrive in order are all delivered if and only if none but the last is followed by
      number 2^32-1. */
  lemma InOrderExact(isn: U32, parts: seq<seq<Byte>>)
    requires NoneEmpty(parts)
    ensures Flat(Run(Fresh(isn), InOrder(isn, parts, 0)).delivered) == Flat(parts) <==> NoBadBoundary(isn, parts)
  {
    assert parts[..0] == [];
    if NoBadBoundary(isn, parts) {
      InOrderDelivers(isn, parts, 0);
    } else {
      var bad := FirstBad(isn, parts, 1);
      InOrderLoses(isn, parts, 0, bad);
    }
  }

  lemma FirstBad(isn: U32, parts: seq<seq<Byte>>, from: nat) returns (bad: nat)
    requires 0 < from <= |parts|
    requires forall i :: 0 < i < from ==> SeqAt(isn, parts, i) != MAX_U32
    requires !NoBadBoundary(isn, parts)
    ensures 0 < bad < |parts| && SeqAt(isn, parts, bad) == MAX_U32
    ensures forall i :: 0 < i < bad ==> SeqAt(isn, parts, i) != MAX_U32
    decreases |parts| - from
  {
    if from < |parts| && SeqAt(isn, parts, from) == MAX_U32 {
      bad := from;
    } else {
      bad := FirstBad(isn, parts, from + 1);
    }
  }

  /** The numbers from j on, below n. */
  function UpFrom(j: nat, n: nat): (r: seq<nat>)
    requires j <= n
    ensures Indices(r, n) && forall i: nat :: j <= i < n ==> i in r
    decreases n - j
  {
    if j == n then [] else [j] + UpFrom(j + 1, n)
  }

  lemma {:induction false} UpFromIsInOrder(isn: U32, parts: seq<seq<Byte>>, j: nat)
    requires j <= |parts|
    ensures Arrivals(isn, parts, UpFrom(j, |parts|)) == InOrder(isn, parts, j)
    decreases |parts| - j
  {
    if j < |parts| {
      UpFromIsInOrder(isn, parts, j + 1);
      assert UpFrom(j, |parts|)[1..] == UpFrom(j + 1, |parts|);
    }
  }

  /** Every order that brings each part at least once delivers the whole stream and leaves nothing
      pending. */
  ghost predicate AllOrdersDeliver(isn: U32, parts: seq<seq<Byte>>) {
    forall order: seq<nat> :: Covers(order, |parts|) ==> Complete(Run(Fresh(isn), Arrivals(isn, parts, order)), parts)
  }

  /** Order independence, exactly: all orders deliver everything if and only if every part passes
      the window test at the start and none but the last is followed by number 2^32-1. */
  lemma OrderIndependent(isn: U32, parts: seq<seq<Byte>>)
    requires NoneEmpty(parts) && Fits(parts)
    ensures AllOrdersDeliver(isn, parts) <==>
            && NoBadBoundary(isn, parts)
            && forall i :: 0 <= i < |parts| ==> Off(parts, i) <= 65536 || (isn == 0xFFFE_FFFF && Off(parts, i) == 65537)
  {
    forall i | 0 <= i < |parts|
      ensures ValidPackage(isn, WINDOW, SeqAt(isn, parts, i)) <==>
              Off(parts, i) <= 65536 || (isn == 0xFFFE_FFFF && Off(parts, i) == 65537)
    {
      PartInWindow(isn, parts, i);
    }
    if !NoBadBoundary(isn, parts) {
      InOrderExact(isn, parts);
      UpFromIsInOrder(isn, parts, 0);
      assert Covers(UpFrom(0, |parts|), |parts|);
    } else if i :| 0 <= i < |parts| && !ValidPackage(isn, WINDOW, SeqAt(isn, parts, i)) {
      FarPartFirstIsLost(isn, parts, i);
    } else {
      forall order: seq<nat> | Covers(order, |parts|)
        ensures Complete(Run(Fresh(isn), Arrivals(isn, parts, order)), parts)
      {
        EveryOrderDelivers(isn, parts, order);
      }
    }
  }

  /** Two one-byte segments, the first numbered 2^32-2: the second byte never comes out. */
  lemma ByteLostAtMax()
    ensures var parts: seq<seq<Byte>> := [[1], [2]];
            Flat(Run(Fresh(MAX_U32 - 1), InOrder(MAX_U32 - 1, parts, 0)).delivered) != Flat(parts)
  {
    var parts: seq<seq<Byte>> := [[1], [2]];
    OffStep(parts, 0);
    assert parts[..0] == [];
    assert SeqAt(MAX_U32 - 1, parts, 1) == MAX_U32;
    InOrderExact(MAX_U32 - 1, parts);
  }
}
