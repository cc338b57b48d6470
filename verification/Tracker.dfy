/** Connection tracking as a function on values: which packet reaches which buffer. */
module Tracker {
  import opened Bytes
  import opened SequenceNumbers
  import opened StateMachine
  import R = Reassembly

  datatype Addr = Addr(ip: string, port: U32)
  datatype DirectConn = DirectConn(src: Addr, dst: Addr)
  datatype Dir = DirUnknown | DirIncoming | DirOutcoming

  function Reverse(dc: DirectConn): DirectConn {
    DirectConn(dc.dst, dc.src)
  }

  /** What the packet loop looks at in a packet; dc is source to destination. */
  datatype NetPkg = NetPkg(dc: DirectConn, direction: Dir, seqNo: U32, ackNo: U32,
                           syn: bool, fin: bool, rst: bool, ack: bool, payload: seq<Byte>)

  /** The connection from the client's side, whichever way the packet goes. */
  function Key(p: NetPkg): DirectConn {
    if p.direction == DirOutcoming then Reverse(p.dc) else p.dc
  }

  /** "FOO * HTTP/2.0", blank line, "BA", blank line; and "PRI * HTTP/2.0", blank line, "SM", blank line. */
  const PREFACE_EARLY: seq<Byte> :=
    [0x46, 0x4F, 0x4F, 0x20, 0x2A, 0x20, 0x48, 0x54, 0x54, 0x50, 0x2F, 0x32, 0x2E, 0x30,
     0x0D, 0x0A, 0x0D, 0x0A, 0x42, 0x41, 0x0D, 0x0A, 0x0D, 0x0A]
  const PREFACE_STD: seq<Byte> :=
    [0x50, 0x52, 0x49, 0x20, 0x2A, 0x20, 0x48, 0x54, 0x54, 0x50, 0x2F, 0x32, 0x2E, 0x30,
     0x0D, 0x0A, 0x0D, 0x0A, 0x53, 0x4D, 0x0D, 0x0A, 0x0D, 0x0A]
  const PREFACE_SIZE := 24

  predicate IsConnPreface(payload: seq<Byte>) {
    |payload| >= PREFACE_SIZE && payload[..PREFACE_SIZE] in [PREFACE_EARLY, PREFACE_STD]
  }

  /** The event a packet without payload triggers; the first matching test wins. */
  function EventOf(p: NetPkg): Option<Event> {
    if p.payload != [] then None
    else if p.direction == DirIncoming && p.syn then Some(ReceiveSYN)
    else if p.direction == DirOutcoming && p.syn && p.ack then Some(SendSYNACK)
    else if p.direction == DirIncoming && p.fin then Some(ReceiveFIN)
    else if p.direction == DirOutcoming && p.fin then Some(SendFIN)
    else if p.direction == DirIncoming && p.rst then Some(ReceiveRST)
    else if p.direction == DirOutcoming && p.ack then Some(SendACK)
    else if p.direction == DirIncoming && p.ack then Some(ReceiveACK)
    else None
  }

  /** An entry of ConnStates; the current state is the last of states. */
  datatype Entry = Entry(dc: DirectConn, state: ConnState, states: seq<ConnState>)

  /** The two buffers of an entry of ConnRepository. */
  datatype Buffers = Buffers(input: R.View, output: R.View)

  datatype Tracked = Tracked(connStates: map<DirectConn, Entry>, connRepository: map<DirectConn, Buffers>)

  /** What the loop is given: packets, and the deletions that GOAWAY frames cause from aside. */
  datatype Input = Pkt(pkg: NetPkg) | GoAway(dc: DirectConn)

  function NewEntry(dc: DirectConn): Entry {
    Entry(dc, Listen, [Listen])
  }

  /** Buffers made when the handshake completes with packet p. */
  function NewBuffers(p: NetPkg): Buffers {
    Buffers(R.Fresh(Plus(p.seqNo, 1)), R.Fresh(p.ackNo))
  }

  /** OnEnter: the entry moves to another state, with its effects on the two maps. */
  function Enter(t: Tracked, key: DirectConn, to: ConnState, p: NetPkg): Tracked
    requires key in t.connStates
  {
    var e := t.connStates[key].(state := to, states := t.connStates[key].states + [to]);
    var t1 := t.(connStates := t.connStates[key := e]);
    if to == Established then t1.(connRepository := t1.connRepository[e.dc := NewBuffers(p)])
    else if to == Closed then Tracked(t1.connStates - {e.dc}, t1.connRepository - {e.dc})
    else t1
  }

  function HandleState(t: Tracked, key: DirectConn, p: NetPkg): Tracked
    requires key in t.connStates
  {
    var e := EventOf(p);
    var s := t.connStates[key].state;
    if e.Some? && Moves(s, e.value) then Enter(t, key, Transition(s, e.value).value, p) else t
  }

  /** What a payload does to the buffers of an established connection. */
  function Feed(b: Buffers, recordResponse: bool, p: NetPkg): Buffers {
    if p.direction == DirIncoming then
      if IsConnPreface(p.payload) then b.(input := b.input.(expected := Advance(p.seqNo, |p.payload|)))
      else b.(input := R.Accept(b.input, R.Segment(p.seqNo, p.payload)))
    else if recordResponse && p.direction == DirOutcoming then
      b.(output := R.Accept(b.output, R.Segment(p.seqNo, p.payload)))
    else b
  }

  function ProcessPayload(t: Tracked, recordResponse: bool, p: NetPkg): Tracked {
    var key := Key(p);
    if key in t.connRepository
    then t.(connRepository := t.connRepository[key := Feed(t.connRepository[key], recordResponse, p)])
    else t
  }

  /** The entry of the packet's connection is made if there is none. */
  function WithEntry(t: Tracked, key: DirectConn): Tracked {
    if key in t.connStates then t else t.(connStates := t.connStates[key := NewEntry(key)])
  }

  /** Payloads reach the buffers only while the connection is established. */
  function ProcessData(t: Tracked, recordResponse: bool, p: NetPkg): Tracked {
    var key := Key(p);
    if key in t.connStates && t.connStates[key].state == Established && p.payload != []
    then ProcessPayload(t, recordResponse, p) else t
  }

  function StepPkg(t: Tracked, recordResponse: bool, p: NetPkg): Tracked {
    ProcessData(HandleState(WithEntry(t, Key(p)), Key(p), p), recordResponse, p)
  }

  function Step(t: Tracked, recordResponse: bool, x: Input): Tracked {
    match x
    case Pkt(p) => StepPkg(t, recordResponse, p)
    case GoAway(dc) => t.(connRepository := t.connRepository - {dc})
  }

  function Run(t: Tracked, recordResponse: bool, xs: seq<Input>): Tracked {
    if xs == [] then t else Step(Run(t, recordResponse, xs[..|xs| - 1]), recordResponse, xs[|xs| - 1])
  }

  const EMPTY := Tracked(map[], map[])
}
