/** Main results about one direction of a connection, over every run of the two goroutines. */
module PipelineTheorems {
  import opened Bytes
  import opened SequenceNumbers
  import opened R = Reassembly
  import opened Frames
  import opened Pipeline
  import opened PipelineInvariants
  import O = OrderIndependence

  /** End to end: whatever pieces of S arrive, in any order, repeated, overlapping or missing, and
      however the reads interleave, the bytes read are a prefix of S and the frames handed on are a
      prefix of the frames of S. */
  lemma EndToEnd(acts: seq<Action>, S: seq<Byte>, isn: U32)
    requires |S| < TWO32 && OnlyCuts(acts, S, isn)
    ensures var s := Exec(Start(isn), acts);
            s.handed <= S && s.frames <= ParseFrames(S, true)
  {
    var s := Exec(Start(isn), acts);
    StartInv(S, isn);
    ExecKeeps(Start(isn), acts, S, isn);
    var x := Absorbed(s);
    var k := Position(s);
    assert Flat(s.pushed) <= S[..k];
    assert s.handed <= Flat(s.pushed);
    assert x <= s.handed;
    assert x == S[..|x|];
    ParsePrefix(S, |x|, true);
  }

  /** Conservation: at every step of every interleaving the two counters say exactly where the
      bytes are, and neither is negative. */
  lemma CountersConserved(acts: seq<Action>, S: seq<Byte>, isn: U32)
    requires |S| < TWO32 && OnlyCuts(acts, S, isn)
    ensures var s := Exec(Start(isn), acts);
            && s.actual == InFlight(s.writer) + |Flat(s.channel)| + |s.residual| + |Hand(s.reader)|
            && s.size == s.actual - (if s.reader.RSized? then |s.reader.chunk| else 0) + TotalBytes(Waiting(s))
            && s.actual >= 0 && s.size >= 0 && |s.channel| <= 100
  {
    StartInv(S, isn);
    ExecKeeps(Start(isn), acts, S, isn);
  }

  /** The micro-steps refine AddTCP done in one piece: with the packet loop idle, the buffer is
      what Run makes of the segments it was given. */
  lemma MicroStepsRefineRun(acts: seq<Action>, S: seq<Byte>, isn: U32)
    requires |S| < TWO32 && OnlyCuts(acts, S, isn)
    ensures var s := Exec(Start(isn), acts);
            s.writer == WIdle ==> View(s.expected, s.list, s.pushed) == Run(Fresh(isn), s.arrived)
  {
    var s := Exec(Start(isn), acts);
    StartInv(S, isn);
    ExecKeeps(Start(isn), acts, S, isn);
    assert Rest(s.list, []) == s.list;
  }

  // ---------------------------------------------------------------------------------------------
  // Progress: without new segments the two loops come to rest, and then nothing is held back.

  predicate Quiescent(s: State) {
    s.writer == WIdle && s.reader == RAsk && s.residual == [] && s.channel == []
  }

  function WriterRank(w: Writer): nat {
    match w
    case WIdle => 0
    case WListed(_) => 5
    case WLoop(_, gone) => 4 + |gone|
    case WCounted(_, gone) => 3 + |gone|
    case WReady(_, gone) => 7 + |gone|
    case WPushed(_, gone) => 6 + |gone|
    case WRemove(gone) => 1 + |gone|
  }

  function ReaderRank(r: Reader): nat {
    match r
    case RAsk => 0
    case RTook(_) => 2
    case RSized(_) => 1
  }

  /** Steps left, at most; the delivery loop pays for a round with the bytes it moves past. */
  function StepsLeft(s: State, S: seq<Byte>): int {
    8 * (|S| - Position(s)) + WriterRank(s.writer)
    + 3 * (|Unpushed(s.writer)| + |Flat(s.channel)| + |s.residual|) + ReaderRank(s.reader)
  }

  lemma CountedDescends(s: State, S: seq<Byte>)
    requires s.writer.WCounted? && s.writer.at.payload != []
    ensures StepsLeft(WriterNext(s), S) < StepsLeft(s, S)
  {
  }

  lemma ReadyDescends(s: State, S: seq<Byte>)
    requires s.writer.WReady? && WriterNext(s) != s
    ensures StepsLeft(WriterNext(s), S) < StepsLeft(s, S)
  {
    var p := s.writer.at.payload;
    FlatSnoc(s.channel, p);
    FlatSnoc(s.pushed, p);
    assert |s.channel| < CAPACITY;
  }

  lemma OtherWriterDescends(s: State, S: seq<Byte>)
    requires !s.writer.WCounted? && !s.writer.WReady? && s.writer != WIdle
    ensures StepsLeft(WriterNext(s), S) < StepsLeft(s, S)
  {
  }

  lemma WriterDescends(s: State, S: seq<Byte>, isn: U32)
    requires OnStream(s, S, isn) && WriterNext(s) != s
    ensures StepsLeft(WriterNext(s), S) < StepsLeft(s, S)
  {
    if s.writer.WCounted? {
      var at := s.writer.at;
      assert IsCut(Segment(at.seqNo, Eager(s, []).pending[at.seqNo]), S, isn);
      CountedDescends(s, S);
    } else if s.writer.WReady? {
      ReadyDescends(s, S);
    } else {
      OtherWriterDescends(s, S);
    }
  }

  lemma ReaderDescends(s: State, S: seq<Byte>)
    requires NoneEmpty(s.channel) && |s.got| < Want(s.phase) && ReaderNext(s) != s
    ensures StepsLeft(ReaderNext(s), S) < StepsLeft(s, S)
    ensures ReaderNext(s).arrived == s.arrived
  {
    match s.reader
    case RAsk =>
      assert s.residual == [] ==> Flat(s.channel) == s.channel[0] + Flat(s.channel[1..]);
    case RTook(_) =>
    case RSized(chunk) =>
      AbsorbLeavesRest(s.(actual := s.actual - |chunk|), chunk);
  }

  lemma WriterMoves(s: State)
    ensures s.writer != WIdle && |s.channel| < CAPACITY ==> WriterNext(s) != s
  {
    if s.writer.WRemove? && s.writer.gone != [] {
      assert |WriterNext(s).writer.gone| < |s.writer.gone|;
    }
  }

  lemma ReaderMoves(s: State)
    ensures s.reader != RAsk || s.residual != [] || s.channel != [] ==> ReaderNext(s) != s
  {
    if s.reader.RSized? {
      AbsorbLeavesRest(s.(actual := s.actual - |s.reader.chunk|), s.reader.chunk);
    }
  }

  lemma StuckIsQuiescent(s: State)
    requires WriterNext(s) == s && ReaderNext(s) == s
    ensures Quiescent(s)
  {
    WriterMoves(s);
    ReaderMoves(s);
  }

  ghost predicate NoArrival(acts: seq<Action>) {
    forall i :: 0 <= i < |acts| ==> !acts[i].Arrive?
  }

  /** t is nearer to rest than s, and as sound. */
  ghost predicate Nearer(s: State, t: State, S: seq<Byte>, isn: U32) {
    Inv(t, S, isn) && t.arrived == s.arrived && 0 <= StepsLeft(t, S) < StepsLeft(s, S)
  }

  lemma StepsAreLeft(s: State, S: seq<Byte>, isn: U32)
    requires OnStream(s, S, isn)
    ensures StepsLeft(s, S) >= 0
  {
  }

  lemma NearerIf(s: State, t: State, S: seq<Byte>, isn: U32)
    requires Inv(t, S, isn) && t.arrived == s.arrived && StepsLeft(t, S) < StepsLeft(s, S)
    ensures Nearer(s, t, S, isn)
  {
  }

  lemma WriterKeepsArrived(s: State)
    ensures WriterNext(s).arrived == s.arrived
  {
  }

  lemma WriterNearer(s: State, S: seq<Byte>, isn: U32)
    requires Inv(s, S, isn)
    ensures WriterNext(s) != s ==> Nearer(s, WriterNext(s), S, isn)
  {
    if WriterNext(s) == s {
      return;
    }
    WriterKeeps(s, S, isn);
    WriterDescends(s, S, isn);
    WriterKeepsArrived(s);
    NearerIf(s, WriterNext(s), S, isn);
  }

  lemma ReaderNearer(s: State, S: seq<Byte>, isn: U32)
    requires Inv(s, S, isn)
    ensures ReaderNext(s) != s ==> Nearer(s, ReaderNext(s), S, isn)
  {
    if ReaderNext(s) == s {
      return;
    }
    ReaderKeeps(s, S, isn);
    ReaderDescends(s, S);
    NearerIf(s, ReaderNext(s), S, isn);
  }

  lemma OneStepNearer(s: State, S: seq<Byte>, isn: U32) returns (a: Action)
    requires Inv(s, S, isn) && !Quiescent(s)
    ensures !a.Arrive? && Nearer(s, Next(s, a), S, isn)
  {
    if WriterNext(s) != s {
      a := WriterStep;
      WriterNearer(s, S, isn);
    } else {
      a := ReaderStep;
      if ReaderNext(s) == s {
        StuckIsQuiescent(s);
      }
      ReaderNearer(s, S, isn);
    }
  }

  /** How many steps of a run change the state. */
  function Changes(s: State, acts: seq<Action>): nat
    decreases |acts|
  {
    if acts == [] then 0 else (if Next(s, acts[0]) != s then 1 else 0) + Changes(Next(s, acts[0]), acts[1..])
  }

  /** Every run without arrivals, whatever its schedule, changes the state at most StepsLeft times;
      when no goroutine can change it any more, it is at rest. */
  lemma {:induction false} EveryRunRests(s: State, acts: seq<Action>, S: seq<Byte>, isn: U32)
    requires Inv(s, S, isn) && NoArrival(acts)
    ensures Inv(Exec(s, acts), S, isn) && Exec(s, acts).arrived == s.arrived
    ensures Changes(s, acts) + StepsLeft(Exec(s, acts), S) <= StepsLeft(s, S) && StepsLeft(Exec(s, acts), S) >= 0
    ensures var t := Exec(s, acts); WriterNext(t) == t && ReaderNext(t) == t <==> Quiescent(t)
    decreases |acts|
  {
    if acts == [] {
      StepsAreLeft(s, S, isn);
      RestIsQuiescent(s);
    } else {
      var t := Next(s, acts[0]);
      if t != s {
        if acts[0] == WriterStep {
          WriterNearer(s, S, isn);
        } else {
          ReaderNearer(s, S, isn);
        }
      }
      EveryRunRests(t, acts[1..], S, isn);
    }
  }

  lemma RestIsQuiescent(s: State)
    ensures WriterNext(s) == s && ReaderNext(s) == s <==> Quiescent(s)
  {
    if WriterNext(s) == s && ReaderNext(s) == s {
      StuckIsQuiescent(s);
    }
  }

  /** Every step taken brings rest nearer, so from any reachable state rest is reached. */
  lemma {:induction false} ComesToRest(s: State, S: seq<Byte>, isn: U32) returns (acts: seq<Action>)
    requires Inv(s, S, isn)
    ensures NoArrival(acts)
    ensures Quiescent(Exec(s, acts)) && Inv(Exec(s, acts), S, isn)
    ensures Exec(s, acts).arrived == s.arrived
    decreases StepsLeft(s, S)
  {
    acts := [];
    if !Quiescent(s) {
      var a := OneStepNearer(s, S, isn);
      var rest := ComesToRest(Next(s, a), S, isn);
      acts := [a] + rest;
      assert acts[1..] == rest;
    }
  }

  /** At rest, the frames are exactly those of the bytes delivered, nothing readable is left, and
      the size counter is what still waits in the list. */
  lemma AtRest(s: State, S: seq<Byte>, isn: U32)
    requires Inv(s, S, isn) && Quiescent(s)
    ensures var v := Run(Fresh(isn), s.arrived);
            && s.frames == ParseFrames(Flat(v.delivered), true)
            && s.actual == 0 && s.size == TotalBytes(v.pending)
  {
    assert Rest(s.list, []) == s.list;
    assert Absorbed(s) == s.handed == Flat(s.pushed);
  }

  lemma FlatSplit(parts: seq<seq<Byte>>, i: nat)
    requires i < |parts|
    ensures Flat(parts) == Flat(parts[..i]) + parts[i] + Flat(parts[i + 1..])
  {
    FlatAppend(parts[..i], parts[i..]);
    assert parts[..i] + parts[i..] == parts && parts[i..][1..] == parts[i + 1..];
    Assoc(Flat(parts[..i]), parts[i], Flat(parts[i + 1..]));
  }

  lemma PartInPlace(parts: seq<seq<Byte>>, i: nat)
    requires i < |parts|
    ensures var o := O.Off(parts, i);
            o + |parts[i]| <= |Flat(parts)| && Flat(parts)[o..o + |parts[i]|] == parts[i]
  {
    FlatSplit(parts, i);
  }

  lemma CutAt(s: Segment, S: seq<Byte>, isn: U32, o: nat)
    requires Dist(isn, s.seqNo) == o && s.payload != [] && o + |s.payload| <= |S|
    requires S[o..o + |s.payload|] == s.payload && Plus(isn, o + |s.payload|) != MAX_U32
    ensures IsCut(s, S, isn)
  {
  }

  lemma PartIsCut(isn: U32, parts: seq<seq<Byte>>, i: nat)
    requires NoneEmpty(parts) && O.Fits(parts) && i < |parts|
    requires O.SeqAt(isn, parts, i + 1) != MAX_U32
    ensures IsCut(O.PartSeg(isn, parts, i), Flat(parts), isn)
  {
    O.SeqAtDist(isn, parts, i);
    O.OffStep(parts, i);
    PartInPlace(parts, i);
    CutAt(O.PartSeg(isn, parts, i), Flat(parts), isn, O.Off(parts, i));
  }

  /** The bytes of any list of frames, cut anywhere into parts that start within the window, and
      arriving in any order with repeats: once every part has arrived and the loops are at rest,
      exactly those frames have been handed on, and no byte is held. */
  lemma EveryOrderYieldsEveryFrame(fs: seq<FrameBase>, parts: seq<seq<Byte>>, isn: U32,
                                   order: seq<nat>, acts: seq<Action>)
    requires forall i :: 0 <= i < |fs| ==> WellFormed(fs[i], true)
    requires Flat(parts) == StreamLayout(fs)
    requires O.Cuttable(isn, parts) && O.SeqAt(isn, parts, |parts|) != MAX_U32
    requires forall i :: 0 <= i < |parts| ==> ValidPackage(isn, WINDOW, O.SeqAt(isn, parts, i))
    requires OnlyCuts(acts, Flat(parts), isn) && O.Covers(order, |parts|)
    requires Exec(Start(isn), acts).arrived == O.Arrivals(isn, parts, order)
    requires Quiescent(Exec(Start(isn), acts))
    ensures var s := Exec(Start(isn), acts);
            s.frames == fs && s.list == map[] && s.size == 0 && s.actual == 0
  {
    var s, S := Exec(Start(isn), acts), Flat(parts);
    StartInv(S, isn);
    ExecKeeps(Start(isn), acts, S, isn);
    AtRest(s, S, isn);
    O.EveryOrderDelivers(isn, parts, order);
    FramesRoundTrip(fs, true);
    MicroStepsRefineRun(acts, S, isn);
  }
}
