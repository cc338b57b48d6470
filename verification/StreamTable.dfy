/** The slot array of a connection: how frames build up requests and responses, and when a stream
    is finished. Frames are processed one at a time; what the header decoder returns for a frame
    comes with the frame. */
module StreamTable {
  import opened Bytes
  import opened Frames
  import opened Protocol

  const STREAM_ARRAY_SIZE := 10000

  const DATA := 0x0
  const HEADERS := 0x1
  const RST_STREAM := 0x3
  const SETTINGS := 0x4
  const CONTINUATION := 0x9

  datatype Field = Field(name: string, value: string)

  /** A frame and the fields its header block decodes to; None if decoding fails. */
  datatype Tagged = Tagged(base: FrameBase, fields: Option<seq<Field>>)

  datatype Item = Item(endHeader: bool, endStream: bool, headers: map<string, string>, data: seq<Byte>)

  function BodyOf(item: Item): Body {
    Body(item.headers, item.data)
  }

  /** tokens is the number of tokens in the done channel, which holds one. */
  datatype Slot = Slot(streamId: U32, request: Item, response: Option<Item>, tokens: nat)

  /** What a message is built from. */
  datatype Snapshot = Snapshot(request: Item, response: Option<Item>)

  /** The mode, and the libraries: gunzip, and what messages are built with. */
  datatype Env = Env(recordResponse: bool, gunzip: seq<Byte> -> Option<seq<Byte>>, lib: Library)

  const FRESH_ITEM := Item(false, false, map[], [])

  function FreshSlot(recordResponse: bool): Slot {
    Slot(0, FRESH_ITEM, if recordResponse then Some(FRESH_ITEM) else None, 0)
  }

  function Store(headers: map<string, string>, fields: seq<Field>): map<string, string>
    decreases |fields|
  {
    if fields == [] then headers else Store(headers[fields[0].name := fields[0].value], fields[1..])
  }

  function StoreDecoded(headers: map<string, string>, fields: Option<seq<Field>>): map<string, string> {
    if fields.Some? then Store(headers, fields.value) else headers
  }

  /** The body bytes of one gRPC message; None if it does not unzip. */
  function MessageBytes(env: Env, msg: GRPCMessage): Option<seq<Byte>> {
    if msg.format == 1 then env.gunzip(msg.encoded) else Some(msg.encoded)
  }

  function DataOn(env: Env, item: Item, f: FrameBase): Item {
    match ParseFrameData(f)
    case Err(_) => item
    case Ok(fd) =>
      var ended := item.(endStream := fd.endStream);
      if fd.data == [] then ended
      else
        match ParseGRPCMessage(fd.data)
        case Err(_) => ended
        case Ok(msg) =>
          match MessageBytes(env, msg)
          case None => ended
          case Some(body) => ended.(data := item.data + body)
  }

  function HeadersOn(item: Item, t: Tagged): Item {
    match ParseFrameHeader(t.base)
    case Err(_) => item
    case Ok(fh) =>
      item.(endHeader := fh.endHeader, endStream := fh.endStream, headers := StoreDecoded(item.headers, t.fields))
  }

  function ContinuationOn(item: Item, t: Tagged): Item {
    item.(endHeader := ParseFrameContinuation(t.base).endHeader, headers := StoreDecoded(item.headers, t.fields))
  }

  function ItemOn(env: Env, item: Item, t: Tagged): Item {
    if t.base.kind == DATA then DataOn(env, item, t.base)
    else if t.base.kind == HEADERS then HeadersOn(item, t)
    else ContinuationOn(item, t)
  }

  /** The frame touches the side it came from. */
  function Fill(env: Env, slot: Slot, t: Tagged): Slot {
    var s := slot.(streamId := t.base.streamId);
    if t.base.inputFlag then s.(request := ItemOn(env, slot.request, t))
    else if slot.response.Some? then s.(response := Some(ItemOn(env, slot.response.value, t)))
    else s
  }

  /** What stops a goroutine that runs alone: a full token channel, or a panic. In recording mode the
      other goroutine may still take the token; see RecordingMode for the two together. */
  datatype Halt = Stuck | Panic

  datatype Outcome = Stopped(why: Halt) | Stepped(slot: Slot, finished: seq<Snapshot>)

  /** An output frame where no response is recorded has no item to go to. */
  predicate NoItem(env: Env, t: Tagged) {
    !t.base.inputFlag && !env.recordResponse
  }

  /** Padding longer than the payload, a DATA payload too short for a gRPC message, or no item. */
  predicate Panics(env: Env, t: Tagged) {
    if t.base.kind == DATA then
      match ParseFrameData(t.base)
      case Err(e) => e == SlicePanic
      case Ok(fd) => NoItem(env, t) || (fd.data != [] && ParseGRPCMessage(fd.data).Err?)
    else if t.base.kind == HEADERS then
      match ParseFrameHeader(t.base)
      case Err(e) => e == SlicePanic
      case Ok(_) => NoItem(env, t)
    else t.base.kind == CONTINUATION && NoItem(env, t)
  }

  /** After a DATA or HEADERS frame: the token, and FinishStream when the stream is over. Waiting
      for the token or for the timer ends in the same reset. */
  function Settle(env: Env, slot: Slot, input: bool): Outcome {
    if input && slot.request.endStream && slot.tokens >= 1 then Stopped(Stuck)
    else
      var s := if input && slot.request.endStream then slot.(tokens := slot.tokens + 1) else slot;
      var over := if env.recordResponse then s.response.Some? && s.response.value.endStream else s.request.endStream;
      if over then Stepped(FreshSlot(env.recordResponse), [Snapshot(s.request, s.response)]) else Stepped(s, [])
  }

  function SlotStep(env: Env, slot: Slot, t: Tagged): Outcome {
    var kind := t.base.kind;
    if Panics(env, t) then Stopped(Panic)
    else if kind == DATA || kind == HEADERS then Settle(env, Fill(env, slot, t), t.base.inputFlag)
    else if kind == CONTINUATION then Stepped(Fill(env, slot, t), [])
    else if kind == RST_STREAM then Stepped(FreshSlot(env.recordResponse), [])
    else if kind == SETTINGS then Stepped(slot.(streamId := t.base.streamId), [])
    else Stepped(slot, [])
  }

  function Prepend(out: seq<Snapshot>, r: Outcome): Outcome {
    if r.Stopped? then r else Stepped(r.slot, out + r.finished)
  }

  function SlotRun(env: Env, slot: Slot, ts: seq<Tagged>): Outcome
    decreases |ts|
  {
    if ts == [] then Stepped(slot, [])
    else
      match SlotStep(env, slot, ts[0])
      case Stopped(why) => Stopped(why)
      case Stepped(next, out) => Prepend(out, SlotRun(env, next, ts[1..]))
  }

  // ---------------------------------------------------------------------------------------------
  // The whole table

  datatype Finish = Finish(slot: nat, snapshot: Snapshot)

  datatype TableOutcome = Halted(why: Halt) | Going(table: seq<Slot>, finished: seq<Finish>)

  function IndexOf(t: Tagged): nat {
    t.base.streamId % STREAM_ARRAY_SIZE
  }

  function AllFrom(i: nat, out: seq<Snapshot>): (r: seq<Finish>)
    ensures |r| == |out|
  {
    if out == [] then [] else [Finish(i, out[0])] + AllFrom(i, out[1..])
  }

  function TableStep(env: Env, table: seq<Slot>, t: Tagged): TableOutcome
    requires |table| == STREAM_ARRAY_SIZE
  {
    match SlotStep(env, table[IndexOf(t)], t)
    case Stopped(why) => Halted(why)
    case Stepped(slot, out) => Going(table[IndexOf(t) := slot], AllFrom(IndexOf(t), out))
  }

  function TableRun(env: Env, table: seq<Slot>, ts: seq<Tagged>): (r: TableOutcome)
    requires |table| == STREAM_ARRAY_SIZE
    ensures r.Going? ==> |r.table| == STREAM_ARRAY_SIZE
    decreases |ts|
  {
    if ts == [] then Going(table, [])
    else
      match TableStep(env, table, ts[0])
      case Halted(why) => Halted(why)
      case Going(next, out) =>
        match TableRun(env, next, ts[1..])
        case Halted(why) => Halted(why)
        case Going(last, rest) => Going(last, out + rest)
  }

  function ForSlot(ts: seq<Tagged>, i: nat): seq<Tagged> {
    if ts == [] then []
    else if IndexOf(ts[0]) == i then [ts[0]] + ForSlot(ts[1..], i)
    else ForSlot(ts[1..], i)
  }

  function FinishedBy(log: seq<Finish>, i: nat): seq<Snapshot> {
    if log == [] then []
    else if log[0].slot == i then [log[0].snapshot] + FinishedBy(log[1..], i)
    else FinishedBy(log[1..], i)
  }

  lemma {:induction false} FinishedByAppend(a: seq<Finish>, b: seq<Finish>, i: nat)
    ensures FinishedBy(a + b, i) == FinishedBy(a, i) + FinishedBy(b, i)
  {
    if a == [] {
      assert a + b == b;
    } else {
      assert (a + b)[1..] == a[1..] + b && (a + b)[0] == a[0];
      FinishedByAppend(a[1..], b, i);
      if a[0].slot == i {
        Assoc([a[0].snapshot], FinishedBy(a[1..], i), FinishedBy(b, i));
      }
    }
  }

  lemma {:induction false} FinishedByAllFrom(i: nat, out: seq<Snapshot>, j: nat)
    ensures FinishedBy(AllFrom(i, out), j) == if i == j then out else []
  {
    if out != [] {
      FinishedByAllFrom(i, out[1..], j);
    }
  }

  lemma SlotRunCons(env: Env, slot: Slot, t: Tagged, ts: seq<Tagged>)
    ensures var step := SlotStep(env, slot, t);
            SlotRun(env, slot, [t] + ts) ==
            if step.Stopped? then step else Prepend(step.finished, SlotRun(env, step.slot, ts))
  {
    assert ([t] + ts)[1..] == ts;
  }

  /** One frame of the table, seen from slot i. */
  lemma TableStepSeen(env: Env, table: seq<Slot>, t: Tagged, i: nat)
    requires |table| == STREAM_ARRAY_SIZE && i < STREAM_ARRAY_SIZE
    requires TableStep(env, table, t).Going?
    ensures var r := TableStep(env, table, t);
            if IndexOf(t) == i then SlotStep(env, table[i], t) == Stepped(r.table[i], FinishedBy(r.finished, i))
            else r.table[i] == table[i] && FinishedBy(r.finished, i) == []
  {
    var step := SlotStep(env, table[IndexOf(t)], t);
    FinishedByAllFrom(IndexOf(t), step.finished, i);
  }

  /** Each slot evolves by its own frames alone, as long as no frame stops the goroutine. */
  lemma {:induction false} SlotsDoNotInterfere(env: Env, table: seq<Slot>, ts: seq<Tagged>, i: nat)
    requires |table| == STREAM_ARRAY_SIZE && i < STREAM_ARRAY_SIZE
    requires TableRun(env, table, ts).Going?
    ensures var r := TableRun(env, table, ts);
            SlotRun(env, table[i], ForSlot(ts, i)) == Stepped(r.table[i], FinishedBy(r.finished, i))
    decreases |ts|
  {
    if ts != [] {
      var first := TableStep(env, table, ts[0]);
      var rest := TableRun(env, first.table, ts[1..]);
      TableStepSeen(env, table, ts[0], i);
      SlotsDoNotInterfere(env, first.table, ts[1..], i);
      FinishedByAppend(first.finished, rest.finished, i);
      SlotRunCons(env, table[i], ts[0], ForSlot(ts[1..], i));
    }
  }

  /** The connection stops, for one reason or the other, exactly when one of its slots would on its
      own frames. */
  lemma {:induction false} StopsOnlyByOwnFrames(env: Env, table: seq<Slot>, ts: seq<Tagged>)
    requires |table| == STREAM_ARRAY_SIZE
    ensures TableRun(env, table, ts).Halted? <==>
            exists i :: 0 <= i < STREAM_ARRAY_SIZE && SlotRun(env, table[i], ForSlot(ts, i)).Stopped?
    ensures TableRun(env, table, ts).Halted? ==>
            exists i :: 0 <= i < STREAM_ARRAY_SIZE && SlotRun(env, table[i], ForSlot(ts, i)) == Stopped(TableRun(env, table, ts).why)
    decreases |ts|
  {
    if TableRun(env, table, ts).Going? {
      forall i | 0 <= i < STREAM_ARRAY_SIZE
        ensures SlotRun(env, table[i], ForSlot(ts, i)).Stepped?
      {
        SlotsDoNotInterfere(env, table, ts, i);
      }
    } else {
      var j := IndexOf(ts[0]);
      var own := ForSlot(ts[1..], j);
      SlotRunCons(env, table[j], ts[0], own);
      var first := TableStep(env, table, ts[0]);
      if first.Halted? {
        assert SlotRun(env, table[j], ForSlot(ts, j)) == Stopped(first.why);
      } else {
        StopsOnlyByOwnFrames(env, first.table, ts[1..]);
        var why := TableRun(env, first.table, ts[1..]).why;
        var i :| 0 <= i < STREAM_ARRAY_SIZE && SlotRun(env, first.table[i], ForSlot(ts[1..], i)) == Stopped(why);
        assert SlotRun(env, table[i], ForSlot(ts, i)) == Stopped(why);
      }
    }
  }

  // ---------------------------------------------------------------------------------------------
  // Streams instead of slots

  function ForStream(ts: seq<Tagged>, id: U32): seq<Tagged> {
    if ts == [] then []
    else if ts[0].base.streamId == id then [ts[0]] + ForStream(ts[1..], id)
    else ForStream(ts[1..], id)
  }

  /** No two different streams share a slot. */
  ghost predicate Apart(ts: seq<Tagged>) {
    forall i, j :: 0 <= i < |ts| && 0 <= j < |ts| && IndexOf(ts[i]) == IndexOf(ts[j])
                   ==> ts[i].base.streamId == ts[j].base.streamId
  }

  lemma {:induction false} SlotIsStream(ts: seq<Tagged>, id: U32)
    requires forall i :: 0 <= i < |ts| && IndexOf(ts[i]) == id % STREAM_ARRAY_SIZE ==> ts[i].base.streamId == id
    ensures ForSlot(ts, id % STREAM_ARRAY_SIZE) == ForStream(ts, id)
  {
    if ts != [] {
      SlotIsStream(ts[1..], id);
    }
  }

  /** Stream non-interference: in any interleaving of streams that share no slot, the state of a
      stream and the messages built for it are those of its own frames alone. */
  lemma StreamsDoNotInterfere(env: Env, table: seq<Slot>, ts: seq<Tagged>, n: nat)
    requires |table| == STREAM_ARRAY_SIZE && n < |ts| && Apart(ts)
    requires TableRun(env, table, ts).Going?
    ensures var r, id := TableRun(env, table, ts), ts[n].base.streamId;
            var i := id % STREAM_ARRAY_SIZE;
            SlotRun(env, table[i], ForStream(ts, id)) == Stepped(r.table[i], FinishedBy(r.finished, i))
  {
    var id := ts[n].base.streamId;
    SlotsDoNotInterfere(env, table, ts, id % STREAM_ARRAY_SIZE);
    forall i | 0 <= i < |ts| && IndexOf(ts[i]) == id % STREAM_ARRAY_SIZE
      ensures ts[i].base.streamId == id
    {
      assert IndexOf(ts[n]) == IndexOf(ts[i]);
    }
    SlotIsStream(ts, id);
  }

  /** Streams whose identifiers span less than 10000 never share a slot. */
  lemma NarrowSpanIsApart(ts: seq<Tagged>, low: nat)
    requires forall i :: 0 <= i < |ts| ==> low <= ts[i].base.streamId < low + 10000
    ensures Apart(ts)
  {
    forall i, j | 0 <= i < |ts| && 0 <= j < |ts| && IndexOf(ts[i]) == IndexOf(ts[j])
      ensures ts[i].base.streamId == ts[j].base.streamId
    {
      var a, b := ts[i].base.streamId, ts[j].base.streamId;
      assert a - b == STREAM_ARRAY_SIZE * (a / STREAM_ARRAY_SIZE - b / STREAM_ARRAY_SIZE);
    }
  }

  lemma {:induction false} StoreAppend(m: map<string, string>, a: seq<Field>, b: seq<Field>)
    ensures Store(m, a + b) == Store(Store(m, a), b)
    decreases |a|
  {
    if a == [] {
      assert a + b == b;
    } else {
      assert (a + b)[1..] == a[1..] + b;
      StoreAppend(m[a[0].name := a[0].value], a[1..], b);
    }
  }

  // ---------------------------------------------------------------------------------------------
  // Request-only mode

  /** The frame parses, and carries END_STREAM. */
  predicate EndsSide(t: Tagged) {
    || (t.base.kind == DATA && ParseFrameData(t.base).Ok? && ParseFrameData(t.base).value.endStream)
    || (t.base.kind == HEADERS && ParseFrameHeader(t.base).Ok? && ParseFrameHeader(t.base).value.endStream)
  }

  /** Between frames no slot holds a finished request or a token. */
  predicate Open(slot: Slot) {
    slot.response == None && !slot.request.endStream && slot.tokens == 0
  }

  ghost predicate RequestOnly(env: Env, ts: seq<Tagged>) {
    !env.recordResponse && forall i :: 0 <= i < |ts| ==> ts[i].base.inputFlag
  }

  /** One frame: never stuck; if it does not panic, a finished stream exactly for END_STREAM, and
      then a fresh slot. */
  lemma RequestFrame(env: Env, slot: Slot, t: Tagged)
    requires !env.recordResponse && t.base.inputFlag && Open(slot)
    ensures var r := SlotStep(env, slot, t);
            if Panics(env, t) then r == Stopped(Panic) else
              && r.Stepped? && Open(r.slot)
              && r.finished == (if EndsSide(t) then [Snapshot(ItemOn(env, slot.request, t), None)] else [])
              && (EndsSide(t) ==> r.slot == FreshSlot(false))
  {
  }

  lemma RequestFrameInTable(env: Env, table: seq<Slot>, t: Tagged) returns (next: seq<Slot>, own: seq<Finish>)
    requires |table| == STREAM_ARRAY_SIZE && !env.recordResponse && t.base.inputFlag
    requires (forall i :: 0 <= i < |table| ==> Open(table[i])) && !Panics(env, t)
    ensures TableStep(env, table, t) == Going(next, own)
    ensures |next| == |table| && forall i :: 0 <= i < |next| ==> Open(next[i])
    ensures if EndsSide(t) then |own| == 1 && own[0].slot == IndexOf(t) else own == []
  {
    var i := IndexOf(t);
    RequestFrame(env, table[i], t);
    var step := SlotStep(env, table[i], t);
    next, own := table[i := step.slot], AllFrom(i, step.finished);
  }

  function EndSlots(ts: seq<Tagged>): seq<nat> {
    if ts == [] then []
    else if EndsSide(ts[0]) then [IndexOf(ts[0])] + EndSlots(ts[1..])
    else EndSlots(ts[1..])
  }

  function SlotsOf(log: seq<Finish>): seq<nat> {
    if log == [] then [] else [log[0].slot] + SlotsOf(log[1..])
  }

  /** Over a whole connection: it stops only if a frame panics; otherwise FinishStream runs once for
      each END_STREAM frame, in the order of the frames on the wire. */
  lemma {:induction false} FinishOncePerEndStream(env: Env, table: seq<Slot>, ts: seq<Tagged>)
    requires |table| == STREAM_ARRAY_SIZE && RequestOnly(env, ts)
    requires forall i :: 0 <= i < |table| ==> Open(table[i])
    ensures var r := TableRun(env, table, ts);
            if exists k :: 0 <= k < |ts| && Panics(env, ts[k]) then r == Halted(Panic) else
              && r.Going? && (forall i :: 0 <= i < |r.table| ==> Open(r.table[i]))
              && SlotsOf(r.finished) == EndSlots(ts)
    decreases |ts|
  {
    if ts != [] {
      if Panics(env, ts[0]) {
        RequestFrame(env, table[IndexOf(ts[0])], ts[0]);
      } else {
        var first, own := RequestFrameInTable(env, table, ts[0]);
        FinishOncePerEndStream(env, first, ts[1..]);
        var rest := TableRun(env, first, ts[1..]);
        assert (exists k :: 0 <= k < |ts| && Panics(env, ts[k])) ==> exists k :: 0 <= k < |ts[1..]| && Panics(env, ts[1..][k]) by {
          if k :| 0 <= k < |ts| && Panics(env, ts[k]) {
            assert Panics(env, ts[1..][k - 1]);
          }
        }
        if rest.Going? {
          if EndsSide(ts[0]) {
            assert (own + rest.finished)[1..] == rest.finished;
          } else {
            assert own + rest.finished == rest.finished;
          }
        }
      }
    }
  }

  // ---------------------------------------------------------------------------------------------
  // Recording mode

  /** Between frames no slot holds a finished response. */
  predicate Recording(slot: Slot) {
    slot.response.Some? && !slot.response.value.endStream
  }

  function ResponseEndSlots(ts: seq<Tagged>): seq<nat> {
    if ts == [] then []
    else if !ts[0].base.inputFlag && EndsSide(ts[0]) then [IndexOf(ts[0])] + ResponseEndSlots(ts[1..])
    else ResponseEndSlots(ts[1..])
  }

  /** One frame: if nothing stops it, a finished stream exactly for END_STREAM of the response, and
      then a fresh slot. Only a second end of a request that was not yet taken up can get stuck. */
  lemma RecordedFrame(env: Env, slot: Slot, t: Tagged)
    requires env.recordResponse && Recording(slot)
    ensures var r, ends := SlotStep(env, slot, t), !t.base.inputFlag && EndsSide(t);
            if r.Stopped? then if Panics(env, t) then r.why == Panic else r.why == Stuck && t.base.inputFlag && slot.tokens >= 1
            else !Panics(env, t) && Recording(r.slot) && |r.finished| == (if ends then 1 else 0)
                 && (ends ==> r.slot == FreshSlot(true) && r.finished[0].request == slot.request)
  {
  }

  lemma RecordedFrameInTable(env: Env, table: seq<Slot>, t: Tagged) returns (next: seq<Slot>, own: seq<Finish>)
    requires |table| == STREAM_ARRAY_SIZE && env.recordResponse
    requires (forall i :: 0 <= i < |table| ==> Recording(table[i])) && TableStep(env, table, t).Going?
    ensures TableStep(env, table, t) == Going(next, own) && !Panics(env, t)
    ensures |next| == |table| && forall i :: 0 <= i < |next| ==> Recording(next[i])
    ensures if !t.base.inputFlag && EndsSide(t) then |own| == 1 && own[0].slot == IndexOf(t) else own == []
  {
    var i := IndexOf(t);
    RecordedFrame(env, table[i], t);
    var step := SlotStep(env, table[i], t);
    next, own := table[i := step.slot], AllFrom(i, step.finished);
  }

  /** Over a whole connection that is not stopped: FinishStream runs once for each END_STREAM frame of
      a response, in the order of the frames, and never for one of a request. */
  lemma {:induction false} FinishOncePerResponseEnd(env: Env, table: seq<Slot>, ts: seq<Tagged>)
    requires |table| == STREAM_ARRAY_SIZE && env.recordResponse
    requires (forall i :: 0 <= i < |table| ==> Recording(table[i])) && TableRun(env, table, ts).Going?
    ensures var r := TableRun(env, table, ts);
            && (forall i :: 0 <= i < |r.table| ==> Recording(r.table[i]))
            && SlotsOf(r.finished) == ResponseEndSlots(ts)
    decreases |ts|
  {
    if ts != [] {
      var first, own := RecordedFrameInTable(env, table, ts[0]);
      FinishOncePerResponseEnd(env, first, ts[1..]);
      var rest := TableRun(env, first, ts[1..]);
      if own == [] {
        assert own + rest.finished == rest.finished;
      } else {
        assert (own + rest.finished)[1..] == rest.finished;
      }
    }
  }

  /** Number of bytes of a payload between its pad length, if there is one, and its padding. */
  function Inner(f: FrameBase): int
    requires FlagSet(f.flags, 0x8) ==> f.payload != []
  {
    if FlagSet(f.flags, 0x8) then |f.payload| - 1 - f.payload[0] else |f.payload|
  }

  /** Which frames stop the program, by flags and payload: padding too long, a DATA payload of 1 to 4
      bytes, and on the output side without recording every one that parses. */
  lemma PanicsExact(env: Env, t: Tagged)
    ensures var f := t.base;
            var nowhere := !f.inputFlag && !env.recordResponse;
            var empty := FlagSet(f.flags, 0x8) && f.payload == [];
            && (f.kind == 0x0 ==> (Panics(env, t) <==> !empty && (nowhere || Inner(f) < 0 || 1 <= Inner(f) <= 4)))
            && (f.kind == 0x1 ==>
                  (Panics(env, t) <==> !empty && (nowhere || Inner(f) < if FlagSet(f.flags, 0x20) then 5 else 0)))
            && (f.kind == 0x9 ==> (Panics(env, t) <==> nowhere))
            && (f.kind !in [0x0, 0x1, 0x9] ==> !Panics(env, t))
  {
  }

  /** A slot knows which stream it was last used for; the identifier is gone after a finish or a reset,
      and frames of other kinds do not touch the slot. */
  lemma SlotKnowsItsStream(env: Env, slot: Slot, t: Tagged)
    requires SlotStep(env, slot, t).Stepped?
    ensures var r := SlotStep(env, slot, t);
            && (t.base.kind in [0x0, 0x1, 0x4, 0x9] ==> r.slot.streamId == if r.finished == [] then t.base.streamId else 0)
            && (t.base.kind == 0x3 ==> r.slot.streamId == 0)
            && (t.base.kind !in [0x0, 0x1, 0x3, 0x4, 0x9] ==> r.slot == slot && r.finished == [])
  {
  }

  /** A reset stream leaves its slot as a new stream would find it, whatever was in it. */
  lemma ResetFrame(env: Env, slot: Slot, t: Tagged)
    requires t.base.kind == 0x3
    ensures SlotStep(env, slot, t) == Stepped(FreshSlot(env.recordResponse), [])
    ensures var nothing := Item(false, false, map[], []);
            FreshSlot(env.recordResponse) == Slot(0, nothing, if env.recordResponse then Some(nothing) else None, 0)
  {
  }
}
