/** What every step of the pipeline keeps, in every interleaving. */
module PipelineInvariants {
  import opened Bytes
  import opened BigEndians
  import opened SequenceNumbers
  import opened R = Reassembly
  import opened Frames
  import opened Pipeline

  // ---------------------------------------------------------------------------------------------
  // The state the packet loop would leave if it ran on alone to the end of its AddTCP call.

  function Eager(s: State, gone: seq<U32>): View {
    View(s.expected, Rest(s.list, gone), s.pushed)
  }

  function Completion(s: State): View {
    match s.writer
    case WIdle => Eager(s, [])
    case WListed(seg) => if seg.seqNo == s.expected then Drain(Eager(s, [])) else Eager(s, [])
    case WLoop(cur, gone) =>
      if cur.Some? && s.expected == cur.value.seqNo then Drain(Eager(s, gone)) else Eager(s, gone)
    case WCounted(_, gone) => Drain(Eager(s, gone))
    case WReady(at, gone) => Drain(Eager(s, gone + [at.seqNo]).(delivered := s.pushed + [at.payload]))
    case WPushed(at, gone) => Drain(Eager(s, gone + [at.seqNo]))
    case WRemove(gone) => Eager(s, gone)
  }

  // ---------------------------------------------------------------------------------------------
  // Position of the packet loop in the stream S that starts at isn.

  function Unpushed(w: Writer): seq<Byte> {
    if w.WReady? then w.at.payload else []
  }

  function Position(s: State): nat {
    |Flat(s.pushed)| + |Unpushed(s.writer)|
  }

  ghost predicate AllBehind(gone: seq<U32>, isn: U32, k: nat) {
    forall i :: 0 <= i < |gone| ==> Dist(isn, gone[i]) < k
  }

  predicate Listed(s: State, seg: Segment) {
    seg.seqNo in s.list && s.list[seg.seqNo] == seg.payload
  }

  ghost predicate Located(s: State, isn: U32, k: nat) {
    match s.writer
    case WIdle => true
    case WListed(seg) => Listed(s, seg)
    case WLoop(cur, gone) =>
      && AllBehind(gone, isn, k)
      && (if cur.Some? then Listed(s, cur.value) else s.expected !in s.list)
    case WCounted(at, gone) => AllBehind(gone, isn, k) && Listed(s, at) && at.seqNo == s.expected
    case WReady(at, gone) =>
      AllBehind(gone, isn, k) && Listed(s, at) && Dist(isn, at.seqNo) < k && at.seqNo !in gone
    case WPushed(at, gone) =>
      AllBehind(gone, isn, k) && Listed(s, at) && Dist(isn, at.seqNo) < k && at.seqNo !in gone
    case WRemove(gone) => AllBehind(gone, isn, k)
  }

  ghost predicate OnStream(s: State, S: seq<Byte>, isn: U32) {
    var k := Position(s);
    && k <= |S| < TWO32
    && s.expected == Plus(isn, k)
    && Flat(s.pushed) + Unpushed(s.writer) == S[..k]
    && PendingCuts(Eager(s, []), S, isn)
    && Located(s, isn, k)
  }

  // ---------------------------------------------------------------------------------------------
  // Where every byte is.

  function Hand(r: Reader): seq<Byte> {
    if r.RAsk? then [] else r.chunk
  }

  function InFlight(w: Writer): nat {
    if w.WCounted? || w.WReady? then |w.at.payload| else 0
  }

  /** Entries listed, counted in size, and not yet delivered. */
  function Waiting(s: State): map<U32, seq<Byte>> {
    match s.writer
    case WIdle => s.list
    case WListed(seg) => Rest(s.list, [seg.seqNo])
    case WLoop(_, gone) => Rest(s.list, gone)
    case WCounted(at, gone) => Rest(s.list, gone + [at.seqNo])
    case WReady(at, gone) => Rest(s.list, gone + [at.seqNo])
    case WPushed(at, gone) => Rest(s.list, gone + [at.seqNo])
    case WRemove(gone) => Rest(s.list, gone)
  }

  function Readable(s: State): nat {
    InFlight(s.writer) + |Flat(s.channel)| + |s.residual|
  }

  ghost predicate CountersExact(s: State) {
    && s.actual == Readable(s) + |Hand(s.reader)|
    && s.size == Readable(s) + (if s.reader.RTook? then |s.reader.chunk| else 0) + TotalBytes(Waiting(s))
  }

  ghost predicate BytesFlow(s: State) {
    && Flat(s.pushed) == s.handed + s.residual + Flat(s.channel)
    && |s.channel| <= CAPACITY
    && NoneEmpty(s.channel)
  }

  // ---------------------------------------------------------------------------------------------
  // The frame loop has cut exactly the frames of the bytes it has absorbed.

  function Partial(s: State): seq<Byte> {
    match s.phase
    case ReadHeader => s.got
    case ReadPayload(raw) => raw + s.got
  }

  ghost predicate Framed(s: State, absorbed: seq<Byte>) {
    && s.handed == absorbed + Hand(s.reader)
    && ParseFrames(absorbed, true) == s.frames
    && Leftover(absorbed) == Partial(s)
    && |s.got| < Want(s.phase) && |s.got| + |Hand(s.reader)| <= Want(s.phase)
    && (s.phase.ReadPayload? ==> |s.phase.raw| == HEADER_SIZE)
  }

  function Absorbed(s: State): seq<Byte> {
    if |Hand(s.reader)| <= |s.handed| then s.handed[..|s.handed| - |Hand(s.reader)|] else []
  }

  /** The packet loop is on the stream, and on its way to what AddTCP does in one piece. */
  ghost predicate Refines(s: State, S: seq<Byte>, isn: U32) {
    && OnStream(s, S, isn)
    && Completion(s) == Run(Fresh(isn), s.arrived)
  }

  ghost predicate Inv(s: State, S: seq<Byte>, isn: U32) {
    && Refines(s, S, isn)
    && CountersExact(s)
    && BytesFlow(s)
    && Framed(s, Absorbed(s))
  }

  // ---------------------------------------------------------------------------------------------
  // Steps of the packet loop

  ghost predicate ReaderUnchanged(s: State, t: State) {
    && t.residual == s.residual && t.reader == s.reader && t.phase == s.phase && t.got == s.got
    && t.frames == s.frames && t.handed == s.handed
  }

  lemma FramedUnchanged(s: State, t: State)
    requires Framed(s, Absorbed(s)) && ReaderUnchanged(s, t)
    ensures Framed(t, Absorbed(t))
  {
  }

  lemma ArriveRefines(s: State, seg: Segment, S: seq<Byte>, isn: U32)
    requires Refines(s, S, isn) && IsCut(seg, S, isn) && s.writer == WIdle
    ensures Refines(ArriveStep(s, seg), S, isn)
  {
    var t := ArriveStep(s, seg);
    assert Rest(s.list, []) == s.list && Rest(t.list, []) == t.list;
    RunSnoc(Fresh(isn), s.arrived, seg);
    if Admits(Completion(s), seg) {
      InsertTracks(Completion(s), seg, S, isn, Position(s));
    }
  }

  lemma ArriveCounters(s: State, seg: Segment)
    requires CountersExact(s) && BytesFlow(s) && s.writer == WIdle
    ensures CountersExact(ArriveStep(s, seg)) && BytesFlow(ArriveStep(s, seg))
  {
    var t := ArriveStep(s, seg);
    if t.writer.WListed? {
      assert Rest(t.list, [seg.seqNo]) == s.list;
    }
  }

  lemma ListedRefines(s: State, S: seq<Byte>, isn: U32)
    requires Refines(s, S, isn) && s.writer.WListed?
    ensures Refines(WriterNext(s), S, isn)
  {
  }

  lemma ListedCounters(s: State)
    requires CountersExact(s) && BytesFlow(s) && s.writer.WListed? && Listed(s, s.writer.seg)
    ensures CountersExact(WriterNext(s)) && BytesFlow(WriterNext(s))
  {
    var seg := s.writer.seg;
    assert Rest(s.list, []) == s.list;
    assert Rest(s.list, [seg.seqNo]) == s.list - {seg.seqNo};
    TotalBytesRemove(s.list, seg.seqNo);
  }

  /** An entry at the expected number is not among those delivered. */
  lemma ExpectedNotGone(s: State, S: seq<Byte>, isn: U32, gone: seq<U32>)
    requires OnStream(s, S, isn) && AllBehind(gone, isn, Position(s))
    ensures s.expected !in gone && Dist(isn, s.expected) == Position(s)
  {
    DistOfPlus(isn, Position(s));
  }

  lemma RestMinus(m: map<U32, seq<Byte>>, gone: seq<U32>, k: U32)
    requires k in Rest(m, gone)
    ensures Rest(m, gone + [k]) == Rest(m, gone) - {k}
    ensures TotalBytes(Rest(m, gone)) == |m[k]| + TotalBytes(Rest(m, gone + [k]))
  {
    assert Rest(m, gone + [k]) == Rest(m, gone) - {k};
    TotalBytesRemove(Rest(m, gone), k);
  }

  lemma LoopRefines(s: State, S: seq<Byte>, isn: U32)
    requires Refines(s, S, isn) && s.writer.WLoop?
    ensures Refines(WriterNext(s), S, isn)
  {
    ExpectedNotGone(s, S, isn, s.writer.gone);
  }

  lemma LoopCounters(s: State)
    requires CountersExact(s) && BytesFlow(s) && s.writer.WLoop?
    requires var cur := s.writer.cur; cur.Some? && s.expected == cur.value.seqNo ==>
               Listed(s, cur.value) && s.expected !in s.writer.gone
    ensures CountersExact(WriterNext(s)) && BytesFlow(WriterNext(s))
  {
    var cur := s.writer.cur;
    if cur.Some? && s.expected == cur.value.seqNo {
      RestMinus(s.list, s.writer.gone, s.expected);
    }
  }

  lemma CountedOnStream(s: State, S: seq<Byte>, isn: U32)
    requires OnStream(s, S, isn) && s.writer.WCounted?
    ensures OnStream(WriterNext(s), S, isn)
  {
    var at, gone, t, k := s.writer.at, s.writer.gone, WriterNext(s), Position(s);
    assert IsCut(at, S, isn) by {
      assert at.seqNo in Eager(s, []).pending && Eager(s, []).pending[at.seqNo] == at.payload;
    }
    ExpectedCutIsInside(at.seqNo, at.payload, S, isn, k);
    AdvanceOverCut(at, S, isn, k);
    assert Position(t) == k + |at.payload|;
    assert AllBehind(gone, isn, Position(t));
    assert Eager(t, []).pending == Eager(s, []).pending;
    ExpectedNotGone(s, S, isn, gone);
  }

  lemma CountedRefines(s: State, S: seq<Byte>, isn: U32)
    requires Refines(s, S, isn) && s.writer.WCounted?
    ensures Refines(WriterNext(s), S, isn)
  {
    CountedOnStream(s, S, isn);
    ExpectedNotGone(s, S, isn, s.writer.gone);
    RestMinus(s.list, s.writer.gone, s.expected);
  }

  lemma ReadyRefines(s: State, S: seq<Byte>, isn: U32)
    requires Refines(s, S, isn) && s.writer.WReady?
    ensures Refines(WriterNext(s), S, isn)
  {
    var at, t := s.writer.at, WriterNext(s);
    assert IsCut(Segment(at.seqNo, Eager(s, []).pending[at.seqNo]), S, isn);
    if t != s {
      FlatSnoc(s.pushed, at.payload);
    }
  }

  lemma ReadyCounters(s: State)
    requires CountersExact(s) && BytesFlow(s) && s.writer.WReady? && s.writer.at.payload != []
    ensures CountersExact(WriterNext(s)) && BytesFlow(WriterNext(s))
  {
    var at, t := s.writer.at, WriterNext(s);
    if t != s {
      SnocFacts([], s.channel, at.payload);
      FlatSnoc(s.pushed, at.payload);
      assert Flat(t.pushed) == t.handed + t.residual + Flat(t.channel);
    }
  }

  lemma PushedRefines(s: State, S: seq<Byte>, isn: U32)
    requires Refines(s, S, isn) && s.writer.WPushed?
    ensures Refines(WriterNext(s), S, isn)
  {
    var gone := s.writer.gone + [s.writer.at.seqNo];
    assert AllBehind(gone, isn, Position(s));
    ExpectedNotGone(s, S, isn, gone);
  }

  lemma RemoveRefines(s: State, S: seq<Byte>, isn: U32)
    requires Refines(s, S, isn) && s.writer.WRemove?
    ensures Refines(WriterNext(s), S, isn)
  {
    var gone, t := s.writer.gone, WriterNext(s);
    if gone != [] {
      assert Rest(t.list, gone[1..]) == Rest(s.list, gone);
      forall q | q in Eager(t, []).pending
        ensures IsCut(Segment(q, Eager(t, []).pending[q]), S, isn)
      {
        assert q in Eager(s, []).pending;
      }
    }
  }

  lemma RemoveCounters(s: State)
    requires CountersExact(s) && BytesFlow(s) && s.writer.WRemove?
    ensures CountersExact(WriterNext(s)) && BytesFlow(WriterNext(s))
  {
    var gone, t := s.writer.gone, WriterNext(s);
    if gone == [] {
      assert Rest(s.list, []) == s.list;
    } else {
      assert Rest(t.list, gone[1..]) == Rest(s.list, gone);
    }
  }

  lemma WriterRefines(s: State, S: seq<Byte>, isn: U32)
    requires Refines(s, S, isn)
    ensures Refines(WriterNext(s), S, isn)
  {
    match s.writer
    case WIdle =>
    case WListed(_) => ListedRefines(s, S, isn);
    case WLoop(_, _) => LoopRefines(s, S, isn);
    case WCounted(_, _) => CountedRefines(s, S, isn);
    case WReady(_, _) => ReadyRefines(s, S, isn);
    case WPushed(_, _) => PushedRefines(s, S, isn);
    case WRemove(_) => RemoveRefines(s, S, isn);
  }

  lemma IdleOrHandingCounters(s: State)
    requires CountersExact(s) && BytesFlow(s) && (s.writer.WIdle? || s.writer.WCounted? || s.writer.WPushed?)
    ensures CountersExact(WriterNext(s)) && BytesFlow(WriterNext(s))
  {
  }

  /** What the counters need to know of where the packet loop stands. */
  ghost predicate Placed(s: State) {
    match s.writer
    case WListed(seg) => Listed(s, seg)
    case WLoop(cur, gone) =>
      cur.Some? && s.expected == cur.value.seqNo ==> Listed(s, cur.value) && s.expected !in gone
    case WReady(at, _) => at.payload != []
    case _ => true
  }

  lemma IsPlaced(s: State, S: seq<Byte>, isn: U32)
    requires OnStream(s, S, isn)
    ensures Placed(s)
  {
    if s.writer.WLoop? {
      ExpectedNotGone(s, S, isn, s.writer.gone);
    } else if s.writer.WReady? {
      assert IsCut(Segment(s.writer.at.seqNo, Eager(s, []).pending[s.writer.at.seqNo]), S, isn);
    }
  }

  lemma WriterCounters(s: State)
    requires Placed(s) && CountersExact(s) && BytesFlow(s)
    ensures CountersExact(WriterNext(s)) && BytesFlow(WriterNext(s))
  {
    match s.writer
    case WListed(_) => ListedCounters(s);
    case WLoop(_, _) => LoopCounters(s);
    case WReady(_, _) => ReadyCounters(s);
    case WRemove(_) => RemoveCounters(s);
    case _ => IdleOrHandingCounters(s);
  }

  lemma WriterLeavesReader(s: State)
    ensures ReaderUnchanged(s, WriterNext(s))
    ensures Framed(s, Absorbed(s)) ==> Framed(WriterNext(s), Absorbed(WriterNext(s)))
  {
  }

  lemma WriterKeeps(s: State, S: seq<Byte>, isn: U32)
    requires Inv(s, S, isn)
    ensures Inv(WriterNext(s), S, isn)
  {
    WriterRefines(s, S, isn);
    IsPlaced(s, S, isn);
    WriterCounters(s);
    WriterLeavesReader(s);
  }

  // ---------------------------------------------------------------------------------------------
  // Steps of the frame loop

  ghost predicate WriterUnchanged(s: State, t: State) {
    && t.expected == s.expected && t.list == s.list && t.writer == s.writer
    && t.arrived == s.arrived && t.pushed == s.pushed
  }

  lemma WriterSideUnchanged(s: State, t: State, S: seq<Byte>, isn: U32)
    requires Refines(s, S, isn) && WriterUnchanged(s, t)
    ensures Refines(t, S, isn)
    ensures Waiting(t) == Waiting(s)
  {
  }

  function Refill(s: State): State
    requires s.channel != []
  {
    s.(residual := s.channel[0], channel := s.channel[1..])
  }

  lemma RefillCounters(s: State)
    requires CountersExact(s) && BytesFlow(s) && s.residual == [] && s.channel != []
    ensures CountersExact(Refill(s)) && BytesFlow(Refill(s))
  {
    var t := Refill(s);
    assert Flat(s.channel) == t.residual + Flat(t.channel);
    Assoc(s.handed, t.residual, Flat(t.channel));
    assert s.handed + s.residual == s.handed;
  }

  lemma RefillFramed(s: State)
    requires Framed(s, Absorbed(s)) && s.channel != []
    ensures Framed(Refill(s), Absorbed(Refill(s)))
  {
  }

  /** Moving the next payload from the channel to the empty residual buffer changes no total. */
  lemma RefillKeeps(s: State, S: seq<Byte>, isn: U32)
    requires Inv(s, S, isn)
    ensures s.residual == [] && s.channel != [] ==> Inv(Refill(s), S, isn)
  {
    if s.residual == [] && s.channel != [] {
      WriterSideUnchanged(s, Refill(s), S, isn);
      RefillCounters(s);
      RefillFramed(s);
    }
  }

  lemma TakeCounters(s: State)
    requires CountersExact(s) && BytesFlow(s) && s.reader.RAsk?
    ensures CountersExact(Take(s, s.residual)) && BytesFlow(Take(s, s.residual))
  {
    var t := Take(s, s.residual);
    assert t.reader.chunk + t.residual == s.residual;
    Assoc(s.handed, t.reader.chunk, t.residual);
  }

  lemma TakeFramed(s: State)
    requires Framed(s, Absorbed(s)) && s.reader.RAsk?
    ensures Framed(Take(s, s.residual), Absorbed(Take(s, s.residual)))
  {
    var t := Take(s, s.residual);
    assert Absorbed(s) == s.handed && Absorbed(t) == s.handed;
  }

  lemma TakeKeeps(s: State, S: seq<Byte>, isn: U32)
    requires Inv(s, S, isn) && s.reader.RAsk?
    ensures Inv(Take(s, s.residual), S, isn)
  {
    WriterSideUnchanged(s, Take(s, s.residual), S, isn);
    TakeCounters(s);
    TakeFramed(s);
  }

  lemma RefillTakes(s: State)
    requires s.reader.RAsk? && s.residual == [] && s.channel != []
    ensures ReaderNext(s) == Take(Refill(s), Refill(s).residual)
  {
  }

  lemma TakeStep(s: State, S: seq<Byte>, isn: U32)
    requires Inv(s, S, isn) && s.reader.RAsk?
    ensures Inv(ReaderNext(s), S, isn)
  {
    if s.residual != [] {
      TakeKeeps(s, S, isn);
    } else if s.channel != [] {
      RefillKeeps(s, S, isn);
      TakeKeeps(Refill(s), S, isn);
      RefillTakes(s);
    }
  }

  lemma RawLength(raw: seq<Byte>, y: seq<Byte>)
    requires |raw| == HEADER_SIZE
    ensures ParseBase(raw, true).Ok? && Want(ReadPayload(raw)) == Decode((raw + y)[..LENGTH_SIZE])
    ensures (raw + y)[..HEADER_SIZE] == raw
  {
    assert (raw + y)[..LENGTH_SIZE] == raw[..LENGTH_SIZE];
  }

  /** Absorbing a chunk completes a frame exactly when the bytes read so far do. */
  lemma AbsorbFrames(s: State, x: seq<Byte>, chunk: seq<Byte>)
    requires ParseFrames(x, true) == s.frames && Leftover(x) == Partial(s)
    requires |s.got| < Want(s.phase) && |s.got| + |chunk| <= Want(s.phase)
    requires s.phase.ReadPayload? ==> |s.phase.raw| == HEADER_SIZE
    ensures var t := Absorb(s, chunk);
            && ParseFrames(x + chunk, true) == t.frames && Leftover(x + chunk) == Partial(t)
            && |t.got| < Want(t.phase)
            && (t.phase.ReadPayload? ==> |t.phase.raw| == HEADER_SIZE)
  {
    ParseAppend(x, chunk, true);
    if s.phase.ReadHeader? {
      AbsorbHeader(s, chunk);
    } else {
      AbsorbPayload(s, chunk);
    }
  }

  lemma AbsorbHeader(s: State, chunk: seq<Byte>)
    requires s.phase.ReadHeader? && |s.got| < HEADER_SIZE && |s.got| + |chunk| <= HEADER_SIZE
    ensures var t := Absorb(s, chunk);
            && t.frames == s.frames + ParseFrames(s.got + chunk, true)
            && Leftover(s.got + chunk) == Partial(t) && |t.got| < Want(t.phase)
            && (t.phase.ReadPayload? ==> |t.phase.raw| == HEADER_SIZE)
  {
    var full := s.got + chunk;
    if |full| == HEADER_SIZE {
      RawLength(full, []);
      assert full + [] == full;
      if HasFrame(full) {
        assert AfterFirst(full) == [];
        assert full[..HEADER_SIZE] == full && full[HEADER_SIZE..HEADER_SIZE] == [];
      }
    }
  }

  lemma AbsorbPayload(s: State, chunk: seq<Byte>)
    requires s.phase.ReadPayload? && |s.phase.raw| == HEADER_SIZE
    requires |s.got| < Want(s.phase) && |s.got| + |chunk| <= Want(s.phase)
    ensures var t := Absorb(s, chunk);
            && t.frames == s.frames + ParseFrames(Partial(s) + chunk, true)
            && Leftover(Partial(s) + chunk) == Partial(t) && |t.got| < Want(t.phase)
            && (t.phase.ReadPayload? ==> |t.phase.raw| == HEADER_SIZE)
  {
    var raw, full := s.phase.raw, s.got + chunk;
    RawLength(raw, full);
    var x := raw + full;
    assert Partial(s) + chunk == x;
    if |full| == Want(s.phase) {
      assert AfterFirst(x) == [];
      assert x[HEADER_SIZE..HEADER_SIZE + |full|] == full;
      assert ParseFrames(x, true) == [FirstFrame(x, true)];
    } else {
      assert !HasFrame(x);
    }
  }

  lemma AbsorbFramed(s: State, chunk: seq<Byte>)
    requires Framed(s, Absorbed(s)) && s.reader == RSized(chunk)
    ensures var t := Absorb(s, chunk); Framed(t, Absorbed(t))
  {
    var t, x := Absorb(s, chunk), Absorbed(s);
    AbsorbFrames(s, x, chunk);
    AbsorbLeavesRest(s, chunk);
    assert Absorbed(t) == t.handed == x + chunk;
  }

  lemma SizedCounters(s: State)
    requires CountersExact(s) && BytesFlow(s) && s.reader.RSized?
    ensures CountersExact(ReaderNext(s)) && BytesFlow(ReaderNext(s))
    ensures WriterUnchanged(s, ReaderNext(s))
  {
    AbsorbLeavesRest(s.(actual := s.actual - |s.reader.chunk|), s.reader.chunk);
  }

  lemma FramedAnyway(s: State, actual: int)
    requires Framed(s, Absorbed(s))
    ensures Framed(s.(actual := actual), Absorbed(s.(actual := actual)))
  {
  }

  lemma SizedFramed(s: State)
    requires Framed(s, Absorbed(s)) && s.reader.RSized?
    ensures Framed(ReaderNext(s), Absorbed(ReaderNext(s)))
  {
    FramedAnyway(s, s.actual - |s.reader.chunk|);
    TakenFramed(s.(actual := s.actual - |s.reader.chunk|), ReaderNext(s), s.reader.chunk);
  }

  lemma TakenFramed(s: State, t: State, chunk: seq<Byte>)
    requires Framed(s, Absorbed(s)) && s.reader == RSized(chunk) && t == Absorb(s, chunk)
    ensures Framed(t, Absorbed(t))
  {
    AbsorbFramed(s, chunk);
  }

  lemma SizedStep(s: State, S: seq<Byte>, isn: U32)
    requires Inv(s, S, isn) && s.reader.RSized?
    ensures Inv(ReaderNext(s), S, isn)
  {
    var t := ReaderNext(s);
    SizedCounters(s);
    SizedFramed(s);
    WriterSideUnchanged(s, t, S, isn);
  }

  lemma AbsorbLeavesRest(s: State, chunk: seq<Byte>)
    ensures var t := Absorb(s, chunk);
            && WriterUnchanged(s, t) && t.channel == s.channel && t.residual == s.residual
            && t.handed == s.handed && t.reader == RAsk && t.size == s.size && t.actual == s.actual
  {
  }

  lemma ReaderKeeps(s: State, S: seq<Byte>, isn: U32)
    requires Inv(s, S, isn)
    ensures Inv(ReaderNext(s), S, isn)
  {
    match s.reader
    case RAsk => TakeStep(s, S, isn);
    case RTook(_) => WriterSideUnchanged(s, ReaderNext(s), S, isn);
    case RSized(_) => SizedStep(s, S, isn);
  }

  // ---------------------------------------------------------------------------------------------
  // Whole runs

  ghost predicate OnlyCuts(acts: seq<Action>, S: seq<Byte>, isn: U32) {
    forall i :: 0 <= i < |acts| && acts[i].Arrive? ==> IsCut(acts[i].seg, S, isn)
  }

  lemma NextKeeps(s: State, a: Action, S: seq<Byte>, isn: U32)
    requires Inv(s, S, isn) && (a.Arrive? ==> IsCut(a.seg, S, isn))
    ensures Inv(Next(s, a), S, isn)
  {
    match a
    case Arrive(seg) => ArriveKeeps(s, seg, S, isn);
    case WriterStep => WriterKeeps(s, S, isn);
    case ReaderStep => ReaderKeeps(s, S, isn);
  }

  lemma ArriveKeeps(s: State, seg: Segment, S: seq<Byte>, isn: U32)
    requires Inv(s, S, isn) && IsCut(seg, S, isn)
    ensures Inv(Next(s, Arrive(seg)), S, isn)
  {
    if s.writer == WIdle {
      ArriveRefines(s, seg, S, isn);
      ArriveCounters(s, seg);
      FramedUnchanged(s, ArriveStep(s, seg));
    }
  }

  lemma StartInv(S: seq<Byte>, isn: U32)
    requires |S| < TWO32
    ensures Inv(Start(isn), S, isn)
  {
    var s := Start(isn);
    assert Rest(map[], []) == map[];
    assert Run(Fresh(isn), []) == Fresh(isn);
    assert s.pushed == [] && Flat(s.pushed) == [];
  }

  lemma {:induction false} ExecKeeps(s: State, acts: seq<Action>, S: seq<Byte>, isn: U32)
    requires Inv(s, S, isn) && OnlyCuts(acts, S, isn)
    ensures Inv(Exec(s, acts), S, isn)
    decreases |acts|
  {
    if acts != [] {
      assert acts[0].Arrive? ==> IsCut(acts[0].seg, S, isn);
      NextKeeps(s, acts[0], S, isn);
      assert OnlyCuts(acts[1..], S, isn);
      ExecKeeps(Next(s, acts[0]), acts[1..], S, isn);
    }
  }
}
