/** One direction of a connection as two goroutines that share a buffer: the packet loop, which
    runs AddTCP, and the frame loop, which reads whole frames. Every atomic step is one step here,
    in any interleaving. */
module Pipeline {
  import opened Bytes
  import opened SequenceNumbers
  import opened R = Reassembly
  import opened Frames

  const CAPACITY := 100

  /** Where the packet loop stands inside AddTCP. */
  datatype Writer =
    | WIdle
    | WListed(seg: Segment)                           // in the list, size not yet raised
    | WLoop(cur: Option<Segment>, gone: seq<U32>)     // at the test of the delivery loop
    | WCounted(at: Segment, gone: seq<U32>)           // actualCanReadSize raised
    | WReady(at: Segment, gone: seq<U32>)             // expectedSeq advanced, push pending
    | WPushed(at: Segment, gone: seq<U32>)            // pushed
    | WRemove(gone: seq<U32>)                         // taking delivered entries out of the list

  /** Where the frame loop stands inside Read. */
  datatype Reader =
    | RAsk
    | RTook(chunk: seq<Byte>)                         // bytes copied, no counter lowered
    | RSized(chunk: seq<Byte>)                        // size lowered

  /** Which part of a frame io.ReadFull is filling. */
  datatype Phase = ReadHeader | ReadPayload(raw: seq<Byte>)

  datatype State = State(
    expected: U32, list: map<U32, seq<Byte>>, channel: seq<seq<Byte>>, size: int, actual: int, writer: Writer,
    residual: seq<Byte>, reader: Reader, phase: Phase, got: seq<Byte>, frames: seq<FrameBase>,
    // history: segments given to AddTCP, payloads pushed, bytes copied out by Read
    arrived: seq<Segment>, pushed: seq<seq<Byte>>, handed: seq<Byte>)

  datatype Action = Arrive(seg: Segment) | WriterStep | ReaderStep

  function Start(isn: U32): State {
    State(isn, map[], [], 0, 0, WIdle, [], RAsk, ReadHeader, [], [], [], [], [])
  }

  function ArriveStep(s: State, seg: Segment): State {
    if s.writer != WIdle then s
    else
      var t := s.(arrived := s.arrived + [seg]);
      if !ValidPackage(s.expected, WINDOW, seg.seqNo) then t
      else if seg.seqNo in s.list then t
      else t.(list := s.list[seg.seqNo := seg.payload], writer := WListed(seg))
  }

  function WriterNext(s: State): State {
    match s.writer
    case WIdle => s
    case WListed(seg) => s.(size := s.size + |seg.payload|, writer := WLoop(Some(seg), []))
    case WLoop(cur, gone) =>
      if cur.Some? && s.expected == cur.value.seqNo
      then s.(actual := s.actual + |cur.value.payload|, writer := WCounted(cur.value, gone))
      else s.(writer := WRemove(gone))
    case WCounted(at, gone) => s.(expected := Advance(at.seqNo, |at.payload|), writer := WReady(at, gone))
    case WReady(at, gone) =>
      if |s.channel| < CAPACITY
      then s.(channel := s.channel + [at.payload], pushed := s.pushed + [at.payload], writer := WPushed(at, gone))
      else s
    case WPushed(at, gone) =>
      var ele := if s.expected in s.list then Some(Segment(s.expected, s.list[s.expected])) else None;
      s.(writer := WLoop(ele, gone + [at.seqNo]))
    case WRemove(gone) =>
      if gone == [] then s.(writer := WIdle)
      else s.(list := s.list - {gone[0]}, writer := WRemove(gone[1..]))
  }

  /** How many bytes the current io.ReadFull wants. */
  function Want(p: Phase): nat {
    match p
    case ReadHeader => HEADER_SIZE
    case ReadPayload(raw) => if ParseBase(raw, true).Ok? then ParseBase(raw, true).value.length else 0
  }

  function Take(s: State, data: seq<Byte>): State {
    var room := if Want(s.phase) >= |s.got| then Want(s.phase) - |s.got| else 0;
    var n := if room < |data| then room else |data|;
    s.(reader := RTook(data[..n]), residual := data[n..], handed := s.handed + data[..n])
  }

  /** The frame loop after a Read returned: io.ReadFull goes on, or its buffer is full. */
  function Absorb(s: State, chunk: seq<Byte>): State {
    var t := s.(reader := RAsk, got := s.got + chunk);
    if |t.got| != Want(t.phase) then t
    else
      match t.phase
      case ReadHeader =>
        if Want(ReadPayload(t.got)) == 0
        then t.(got := [], frames := t.frames + [ParseBase(t.got, true).value.(payload := [])])
        else t.(got := [], phase := ReadPayload(t.got))
      case ReadPayload(raw) =>
        t.(got := [], phase := ReadHeader,
           frames := t.frames + (if ParseBase(raw, true).Ok? then [ParseBase(raw, true).value.(payload := t.got)] else []))
  }

  function ReaderNext(s: State): State {
    match s.reader
    case RAsk =>
      if s.residual != [] then Take(s, s.residual)
      else if s.channel != [] then Take(s.(channel := s.channel[1..]), s.channel[0])
      else s
    case RTook(chunk) => s.(size := s.size - |chunk|, reader := RSized(chunk))
    case RSized(chunk) => Absorb(s.(actual := s.actual - |chunk|), chunk)
  }

  function Next(s: State, a: Action): State {
    match a
    case Arrive(seg) => ArriveStep(s, seg)
    case WriterStep => WriterNext(s)
    case ReaderStep => ReaderNext(s)
  }

  function Exec(s: State, acts: seq<Action>): State
    decreases |acts|
  {
    if acts == [] then s else Exec(Next(s, acts[0]), acts[1..])
  }
}
