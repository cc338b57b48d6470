/** A whole request, and the response to it: which frames carry them, and what comes out. */
module Exchanges {
  import opened Bytes
  import opened BigEndians
  import opened Frames
  import opened Protocol
  import opened Messages
  import opened StreamTable
  import H = Http2Conns

  /** A frame of a request or response, by what it means: HEADERS, CONTINUATION, or DATA with a
      message, with one that does not unzip, or without any. Header blocks may fail to decode. */
  datatype Part =
    | Head(fields: Option<seq<Field>>, fragment: seq<Byte>, priority: Option<seq<Byte>>, endHeaders: bool, pad: Option<seq<Byte>>)
    | More(fields: Option<seq<Field>>, fragment: seq<Byte>, endHeaders: bool)
    | Message(bytes: seq<Byte>, zipped: Option<seq<Byte>>, pad: Option<seq<Byte>>)
    | Torn(torn: seq<Byte>, pad: Option<seq<Byte>>)
    | Empty(pad: Option<seq<Byte>>)

  predicate PadFits(p: Part) {
    p.More? || (p.pad.Some? ==> |p.pad.value| < 256)
  }

  predicate PartFits(env: Env, p: Part) {
    && PadFits(p)
    && (p.Head? && p.priority.Some? ==> |p.priority.value| == 5)
    && (p.Message? && p.zipped == None ==> |p.bytes| < 0x1_0000_0000)
    && (p.Message? && p.zipped.Some? ==> |p.zipped.value| < 0x1_0000_0000 && env.gunzip(p.zipped.value) == Some(p.bytes))
    && (p.Torn? ==> |p.torn| < 0x1_0000_0000 && env.gunzip(p.torn) == None)
  }

  function Frame(input: bool, id: U32, kind: Byte, flags: Byte, payload: seq<Byte>): FrameBase {
    FrameBase(input, id, kind, flags, |payload|, payload)
  }

  function DataFrame(input: bool, id: U32, end: bool, data: seq<Byte>, pad: Option<seq<Byte>>): Tagged
    requires pad.Some? ==> |pad.value| < 256
  {
    Tagged(Frame(input, id, 0x0, Bit(end, 0x1) + Bit(pad.Some?, 0x8), DataLayout(data, pad)), None)
  }

  /** The frame on the wire, per sections 6.1, 6.2 and 6.10 of RFC 9113. */
  function Wire(p: Part, id: U32, input: bool, end: bool): Tagged
    requires PadFits(p)
  {
    match p
    case Head(fields, fragment, priority, endHeaders, pad) =>
      var flags := Bit(end, 0x1) + Bit(endHeaders, 0x4) + Bit(pad.Some?, 0x8) + Bit(priority.Some?, 0x20);
      Tagged(Frame(input, id, 0x1, flags, HeadersLayout(fragment, priority, pad)), fields)
    case More(fields, fragment, endHeaders) =>
      Tagged(Frame(input, id, 0x9, Bit(endHeaders, 0x4), fragment), fields)
    case Message(bytes, zipped, pad) =>
      DataFrame(input, id, end, if zipped.Some? then MessageLayout(1, zipped.value) else MessageLayout(0, bytes), pad)
    case Torn(torn, pad) => DataFrame(input, id, end, MessageLayout(1, torn), pad)
    case Empty(pad) => DataFrame(input, id, end, [], pad)
  }

  function FieldsOf(p: Part): seq<Field> {
    if (p.Head? || p.More?) && p.fields.Some? then p.fields.value else []
  }

  function BytesOf(p: Part): seq<Byte> {
    if p.Message? then p.bytes else []
  }

  /** What is stored after some parts. */
  predicate Grew(before: Item, after: Item, fields: seq<Field>, bytes: seq<Byte>) {
    after.headers == Store(before.headers, fields) && after.data == before.data + bytes
  }

  lemma WireFlags(end: bool, endHeaders: bool, padded: bool, priority: bool)
    ensures var f := Bit(end, 0x1) + Bit(padded, 0x8); FlagSet(f, 0x1) == end && FlagSet(f, 0x8) == padded
    ensures FlagSet(Bit(endHeaders, 0x4), 0x4) == endHeaders
    ensures var f := Bit(end, 0x1) + Bit(endHeaders, 0x4) + Bit(padded, 0x8) + Bit(priority, 0x20);
            FlagSet(f, 0x1) == end && FlagSet(f, 0x4) == endHeaders && FlagSet(f, 0x8) == padded && FlagSet(f, 0x20) == priority
  {
  }

  lemma HeadOn(env: Env, item: Item, p: Part, id: U32, input: bool, end: bool)
    requires PartFits(env, p) && p.Head?
    ensures var t := Wire(p, id, input, end);
            && Grew(item, ItemOn(env, item, t), FieldsOf(p), [])
            && ItemOn(env, item, t).endStream == end && ItemOn(env, item, t).endHeader == p.endHeaders
            && EndsSide(t) == end && Panics(env, t) == NoItem(env, t)
  {
    WireFlags(end, p.endHeaders, p.pad.Some?, p.priority.Some?);
    HeadersRoundTrip(Wire(p, id, input, end).base, p.fragment, p.priority, p.pad);
  }

  lemma DataFrameOn(env: Env, item: Item, id: U32, input: bool, end: bool, format: Byte, message: seq<Byte>, pad: Option<seq<Byte>>)
    requires (pad.Some? ==> |pad.value| < 256) && |message| < TWO32
    ensures var t := DataFrame(input, id, end, MessageLayout(format, message), pad);
            var body := if format == 1 then env.gunzip(message) else Some(message);
            && ItemOn(env, item, t) == item.(endStream := end, data := item.data + if body.Some? then body.value else [])
            && EndsSide(t) == end && Panics(env, t) == NoItem(env, t)
  {
    WireFlags(end, true, pad.Some?, false);
    DataRoundTrip(DataFrame(input, id, end, MessageLayout(format, message), pad).base, MessageLayout(format, message), pad);
    MessageRoundTrip(format, message);
    AppendNothing(item.data);
  }

  lemma EmptyOn(env: Env, item: Item, id: U32, input: bool, end: bool, pad: Option<seq<Byte>>)
    requires pad.Some? ==> |pad.value| < 256
    ensures var t := DataFrame(input, id, end, [], pad);
            && ItemOn(env, item, t) == item.(endStream := end) && EndsSide(t) == end && Panics(env, t) == NoItem(env, t)
  {
    WireFlags(end, true, pad.Some?, false);
    DataRoundTrip(DataFrame(input, id, end, [], pad).base, [], pad);
  }

  /** One frame: its fields and bytes are stored, the end of the headers is noted, and the end of the
      stream, except by a CONTINUATION frame, which has no such flag. */
  lemma PartOn(env: Env, item: Item, p: Part, id: U32, input: bool, end: bool)
    requires PartFits(env, p)
    ensures var t := Wire(p, id, input, end);
            && Grew(item, ItemOn(env, item, t), FieldsOf(p), BytesOf(p))
            && ItemOn(env, item, t).endStream == (if p.More? then item.endStream else end)
            && ItemOn(env, item, t).endHeader == (if p.Head? || p.More? then p.endHeaders else item.endHeader)
            && EndsSide(t) == (!p.More? && end) && Panics(env, t) == NoItem(env, t)
  {
    AppendNothing(item.data);
    if p.Head? {
      HeadOn(env, item, p, id, input, end);
    } else if p.Message? {
      if p.zipped.Some? {
        DataFrameOn(env, item, id, input, end, 1, p.zipped.value, p.pad);
      } else {
        DataFrameOn(env, item, id, input, end, 0, p.bytes, p.pad);
      }
    } else if p.Torn? {
      DataFrameOn(env, item, id, input, end, 1, p.torn, p.pad);
    } else if p.Empty? {
      EmptyOn(env, item, id, input, end, p.pad);
    }
  }

  // ---------------------------------------------------------------------------------------------
  // Both directions of a stream, in the order in which their frames are processed

  datatype Sent = Sent(input: bool, part: Part)

  /** One direction of an exchange. */
  function Side(xs: seq<Sent>, input: bool): seq<Part> {
    if xs == [] then []
    else if xs[0].input == input then [xs[0].part] + Side(xs[1..], input)
    else Side(xs[1..], input)
  }

  /** The first part is the last one of its direction. */
  predicate EndsFirst(xs: seq<Sent>)
    requires xs != []
  {
    Side(xs[1..], xs[0].input) == []
  }

  /** The last part of a direction, which carries END_STREAM, is no CONTINUATION. */
  predicate Fits(env: Env, xs: seq<Sent>) {
    xs == [] || (PartFits(env, xs[0].part) && (EndsFirst(xs) ==> !xs[0].part.More?) && Fits(env, xs[1..]))
  }

  function WireOf(env: Env, xs: seq<Sent>, id: U32): (ts: seq<Tagged>)
    requires Fits(env, xs)
    ensures |ts| == |xs|
  {
    if xs == [] then [] else [Wire(xs[0].part, id, xs[0].input, EndsFirst(xs))] + WireOf(env, xs[1..], id)
  }

  /** A request only, or a request and a response whose last frame comes after the last of the request. */
  predicate Complete(env: Env, xs: seq<Sent>) {
    && xs != [] && xs[|xs| - 1].input != env.recordResponse
    && (!env.recordResponse ==> forall i :: 0 <= i < |xs| ==> xs[i].input)
  }

  function AllFields(ps: seq<Part>): seq<Field> {
    if ps == [] then [] else FieldsOf(ps[0]) + AllFields(ps[1..])
  }

  function AllBytes(ps: seq<Part>): seq<Byte> {
    if ps == [] then [] else BytesOf(ps[0]) + AllBytes(ps[1..])
  }

  /** Nothing has ended yet, except a request whose parts have all come, which has left its token. */
  predicate Ready(env: Env, slot: Slot, xs: seq<Sent>) {
    && slot.response.Some? == env.recordResponse && (slot.response.Some? ==> !slot.response.value.endStream)
    && (if Side(xs, true) != [] then !slot.request.endStream && slot.tokens == 0 else slot.tokens <= 1)
  }

  /** Both sides took in their parts. */
  ghost predicate BothGrew(env: Env, before: Slot, request: Item, response: Option<Item>, xs: seq<Sent>) {
    && Grew(before.request, request, AllFields(Side(xs, true)), AllBytes(Side(xs, true)))
    && before.response.Some? == response.Some? == env.recordResponse
    && (env.recordResponse ==>
          Grew(before.response.value, response.value, AllFields(Side(xs, false)), AllBytes(Side(xs, false))))
  }

  lemma GrewNothing(item: Item)
    ensures Grew(item, item, [], [])
  {
    AppendNothing(item.data);
  }

  lemma GrewTwice(a: Item, b: Item, c: Item, f1: seq<Field>, f2: seq<Field>, d1: seq<Byte>, d2: seq<Byte>)
    requires Grew(a, b, f1, d1) && Grew(b, c, f2, d2)
    ensures Grew(a, c, f1 + f2, d1 + d2)
  {
    StoreAppend(a.headers, f1, f2);
    Assoc(a.data, d1, d2);
  }

  lemma AllCons(p: Part, ps: seq<Part>)
    ensures AllFields([p] + ps) == FieldsOf(p) + AllFields(ps) && AllBytes([p] + ps) == BytesOf(p) + AllBytes(ps)
  {
    assert ([p] + ps)[1..] == ps;
  }

  /** The first part, then the others. */
  lemma GrewCons(a: Item, b: Item, c: Item, xs: seq<Sent>, input: bool)
    requires xs != []
    requires if xs[0].input == input then Grew(a, b, FieldsOf(xs[0].part), BytesOf(xs[0].part)) else a == b
    requires Grew(b, c, AllFields(Side(xs[1..], input)), AllBytes(Side(xs[1..], input)))
    ensures Grew(a, c, AllFields(Side(xs, input)), AllBytes(Side(xs, input)))
  {
    if xs[0].input == input {
      var rest := Side(xs[1..], input);
      AllCons(xs[0].part, rest);
      GrewTwice(a, b, c, FieldsOf(xs[0].part), AllFields(rest), BytesOf(xs[0].part), AllBytes(rest));
    }
  }

  lemma BothGrewCons(env: Env, slot: Slot, next: Slot, request: Item, response: Option<Item>, xs: seq<Sent>)
    requires xs != []
    requires if xs[0].input then Grew(slot.request, next.request, FieldsOf(xs[0].part), BytesOf(xs[0].part))
             else slot.request == next.request
    requires slot.response.Some? == next.response.Some? == env.recordResponse
    requires env.recordResponse ==>
               if !xs[0].input then Grew(slot.response.value, next.response.value, FieldsOf(xs[0].part), BytesOf(xs[0].part))
               else slot.response == next.response
    requires BothGrew(env, next, request, response, xs[1..])
    ensures BothGrew(env, slot, request, response, xs)
  {
    GrewCons(slot.request, next.request, request, xs, true);
    if env.recordResponse {
      GrewCons(slot.response.value, next.response.value, response.value, xs, false);
    }
  }

  /** One frame that is not the last. */
  lemma MiddleStep(env: Env, slot: Slot, xs: seq<Sent>, id: U32) returns (next: Slot)
    requires Ready(env, slot, xs) && Fits(env, xs) && Complete(env, xs) && |xs| > 1
    ensures SlotStep(env, slot, WireOf(env, xs, id)[0]) == Stepped(next, []) && Ready(env, next, xs[1..])
    ensures if xs[0].input then Grew(slot.request, next.request, FieldsOf(xs[0].part), BytesOf(xs[0].part))
            else slot.request == next.request
    ensures slot.response.Some? == next.response.Some? == env.recordResponse
    ensures env.recordResponse ==>
              if !xs[0].input then Grew(slot.response.value, next.response.value, FieldsOf(xs[0].part), BytesOf(xs[0].part))
              else slot.response == next.response
  {
    var x, end := xs[0], EndsFirst(xs);
    LastStays(xs);
    PartOn(env, if x.input then slot.request else slot.response.value, x.part, id, x.input, end);
    next := SlotStep(env, slot, Wire(x.part, id, x.input, end)).slot;
  }

  /** A padded DATA or HEADERS frame without even a pad length changes nothing that is stored. */
  lemma BrokenFrame(env: Env, item: Item, t: Tagged)
    requires t.base.kind in [0x0, 0x1] && FlagSet(t.base.flags, 0x8) && t.base.payload == []
    ensures ItemOn(env, item, t) == item && !EndsSide(t) && !Panics(env, t)
  {
  }

  lemma {:induction false} SideHas(xs: seq<Sent>, input: bool)
    requires xs != [] && xs[|xs| - 1].input == input
    ensures Side(xs, input) != []
  {
    if |xs| > 1 {
      SideHas(xs[1..], input);
    }
  }

  /** As long as there are more parts, the direction of the last one has not ended. */
  lemma LastStays(xs: seq<Sent>)
    requires |xs| > 1
    ensures Side(xs[1..], xs[|xs| - 1].input) != [] && Side(xs, xs[|xs| - 1].input) != []
  {
    SideHas(xs[1..], xs[|xs| - 1].input);
    SideHas(xs, xs[|xs| - 1].input);
  }

  ghost predicate Delivers(env: Env, r: Outcome, before: Slot, xs: seq<Sent>) {
    && r.Stepped? && r.slot == FreshSlot(env.recordResponse) && |r.finished| == 1
    && BothGrew(env, before, r.finished[0].request, r.finished[0].response, xs)
  }

  lemma LastStep(env: Env, slot: Slot, xs: seq<Sent>, id: U32)
    requires Ready(env, slot, xs) && Fits(env, xs) && Complete(env, xs) && |xs| == 1
    ensures Delivers(env, SlotStep(env, slot, WireOf(env, xs, id)[0]), slot, xs)
  {
    var x := xs[0];
    PartOn(env, if x.input then slot.request else slot.response.value, x.part, id, x.input, true);
    var s := SlotStep(env, slot, Wire(x.part, id, x.input, true)).finished[0];
    GrewNothing(s.request);
    if env.recordResponse {
      GrewNothing(s.response.value);
    }
    assert Side(xs[1..], true) == [] && Side(xs[1..], false) == [];
    BothGrewCons(env, slot, Slot(id, s.request, s.response, 0), s.request, s.response, xs);
  }

  lemma NothingFirst(r: Outcome)
    ensures Prepend([], r) == r
  {
    if r.Stepped? {
      assert [] + r.finished == r.finished;
    }
  }

  lemma {:induction false} FromHere(env: Env, slot: Slot, xs: seq<Sent>, id: U32)
    requires Ready(env, slot, xs) && Fits(env, xs) && Complete(env, xs)
    ensures Delivers(env, SlotRun(env, slot, WireOf(env, xs, id)), slot, xs)
    decreases |xs|
  {
    var ts := WireOf(env, xs, id);
    assert ts == [ts[0]] + ts[1..];
    SlotRunCons(env, slot, ts[0], ts[1..]);
    if |xs| == 1 {
      LastStep(env, slot, xs, id);
      assert ts[1..] == [];
      AppendNothing(SlotStep(env, slot, ts[0]).finished);
    } else {
      var next := MiddleStep(env, slot, xs, id);
      var r := SlotRun(env, next, ts[1..]);
      FromHere(env, next, xs[1..], id);
      NothingFirst(r);
      BothGrewCons(env, slot, next, r.finished[0].request, r.finished[0].response, xs);
    }
  }

  /** No stream is finished before the last frame. */
  lemma {:induction false} NotBefore(env: Env, slot: Slot, xs: seq<Sent>, id: U32, k: nat)
    requires Ready(env, slot, xs) && Fits(env, xs) && Complete(env, xs) && k < |xs|
    ensures var r := SlotRun(env, slot, WireOf(env, xs, id)[..k]); r.Stepped? && r.finished == []
    decreases k
  {
    if k > 0 {
      var ts := WireOf(env, xs, id);
      var next := MiddleStep(env, slot, xs, id);
      NotBefore(env, next, xs[1..], id, k - 1);
      assert ts[..k] == [ts[0]] + ts[1..][..k - 1];
      SlotRunCons(env, slot, ts[0], ts[1..][..k - 1]);
    }
  }

  /** A whole request, and in recording mode the whole response, on a fresh slot, the frames of the two
      in any order but the response's end last: exactly one finished stream, at the last frame and not
      before; each side has all fields and the bytes of all its messages, unzipped; the slot is fresh
      again. */
  lemma WholeExchange(env: Env, xs: seq<Sent>, id: U32)
    requires Fits(env, xs) && Complete(env, xs)
    ensures Delivers(env, SlotRun(env, FreshSlot(env.recordResponse), WireOf(env, xs, id)), FreshSlot(env.recordResponse), xs)
    ensures forall k :: 0 <= k < |xs| ==>
              var r := SlotRun(env, FreshSlot(env.recordResponse), WireOf(env, xs, id)[..k]);
              r.Stepped? && r.finished == []
  {
    var slot := FreshSlot(env.recordResponse);
    FromHere(env, slot, xs, id);
    forall k | 0 <= k < |xs|
      ensures var r := SlotRun(env, slot, WireOf(env, xs, id)[..k]); r.Stepped? && r.finished == []
    {
      NotBefore(env, slot, xs, id, k);
    }
  }

  // ---------------------------------------------------------------------------------------------
  // The message

  /** The value of the last field of that name. */
  function LastValue(fields: seq<Field>, name: string): Option<string> {
    if fields == [] then None
    else if fields[|fields| - 1].name == name then Some(fields[|fields| - 1].value)
    else LastValue(fields[..|fields| - 1], name)
  }

  lemma {:induction false} StoreIsLast(fields: seq<Field>, name: string)
    ensures Lookup(Store(map[], fields), name) == LastValue(fields, name)
    decreases |fields|
  {
    if fields != [] {
      var front, last := fields[..|fields| - 1], fields[|fields| - 1];
      StoreIsLast(front, name);
      assert fields == front + [last];
      StoreAppend(map[], front, [last]);
    }
  }

  /** The headers are these fields, later ones winning. */
  ghost predicate AreFields(headers: map<string, string>, fields: seq<Field>) {
    forall name :: Lookup(headers, name) == LastValue(fields, name)
  }

  lemma FieldsExact(headers: map<string, string>, fields: seq<Field>)
    ensures AreFields(headers, fields) <==> headers == Store(map[], fields)
  {
    var stored := Store(map[], fields);
    forall name
      ensures Lookup(stored, name) == LastValue(fields, name)
    {
      StoreIsLast(fields, name);
    }
    if AreFields(headers, fields) {
      forall name
        ensures Lookup(headers, name) == Lookup(stored, name)
      {
      }
      SameLookup(headers, stored);
    }
  }

  lemma SameLookup(a: map<string, string>, b: map<string, string>)
    requires forall name :: Lookup(a, name) == Lookup(b, name)
    ensures a == b
  {
    assert forall name :: name in a ==> Lookup(a, name) == Lookup(b, name);
    assert forall name :: name in b ==> Lookup(a, name) == Lookup(b, name);
  }

  lemma FreshGrew(after: Item, ps: seq<Part>)
    requires Grew(FRESH_ITEM, after, AllFields(ps), AllBytes(ps))
    ensures AreFields(after.headers, AllFields(ps)) && after.data == AllBytes(ps)
  {
    FieldsExact(after.headers, AllFields(ps));
    assert [] + AllBytes(ps) == AllBytes(ps);
  }

  /** What a finished stream holds: on each side exactly the fields sent, later ones winning, and the
      bytes of the messages sent, one after the other. */
  lemma WholeContents(env: Env, xs: seq<Sent>, id: U32)
    requires Fits(env, xs) && Complete(env, xs)
    ensures var r := SlotRun(env, FreshSlot(env.recordResponse), WireOf(env, xs, id));
            && r.Stepped? && |r.finished| == 1
            && AreFields(r.finished[0].request.headers, AllFields(Side(xs, true)))
            && r.finished[0].request.data == AllBytes(Side(xs, true))
            && r.finished[0].response.Some? == env.recordResponse
            && (env.recordResponse ==>
                  && AreFields(r.finished[0].response.value.headers, AllFields(Side(xs, false)))
                  && r.finished[0].response.value.data == AllBytes(Side(xs, false)))
  {
    WholeExchange(env, xs, id);
    var s := SlotRun(env, FreshSlot(env.recordResponse), WireOf(env, xs, id)).finished[0];
    FreshGrew(s.request, Side(xs, true));
    if env.recordResponse {
      FreshGrew(s.response.value, Side(xs, false));
    }
  }

  /** One side of a message, from the parts sent. */
  ghost predicate Shows(lib: Library, kind: Option<string>, ps: seq<Part>, item: MsgItem) {
    && AreFields(item.headers, AllFields(ps))
    && Renders(lib, kind, LastValue(AllFields(ps), "content-type"), AllBytes(ps), item.body)
  }

  function PathOf(ps: seq<Part>): string {
    var path := LastValue(AllFields(ps), ":path");
    if path.Some? then path.value else ""
  }

  /** The call is the message of the exchange. */
  ghost predicate Describes(env: Env, xs: seq<Sent>, call: Call) {
    && Trimmed(PathOf(Side(xs, true)), call.methodName)
    && call.methodName != "" && !Within("grpc.reflection", call.methodName)
    && Shows(env.lib, InType(env.lib, call.methodName), Side(xs, true), call.request)
    && call.response.Some? == env.recordResponse
    && (call.response.Some? ==> Shows(env.lib, OutType(env.lib, call.methodName), Side(xs, false), call.response.value))
  }

  lemma ShowsExact(lib: Library, kind: Option<string>, ps: seq<Part>, item: MsgItem, b: Item)
    requires Grew(FRESH_ITEM, b, AllFields(ps), AllBytes(ps))
    ensures Shows(lib, kind, ps, item) <==>
            item.headers == b.headers && Renders(lib, kind, Lookup(b.headers, "content-type"), b.data, item.body)
  {
    FieldsExact(item.headers, AllFields(ps));
    StoreIsLast(AllFields(ps), "content-type");
    FreshGrew(b, ps);
  }

  lemma CallExact(env: Env, xs: seq<Sent>, s: Snapshot, call: Call)
    requires BothGrew(env, FreshSlot(env.recordResponse), s.request, s.response, xs)
    ensures H.CallOf(env, s) == Some(call) <==> Describes(env, xs, call)
  {
    var path := PathOf(Side(xs, true));
    StoreIsLast(AllFields(Side(xs, true)), ":path");
    ToMsgExact(env.lib, path, BodyOf(s.request), if s.response.Some? then Some(BodyOf(s.response.value)) else None, call);
    ShowsExact(env.lib, InType(env.lib, call.methodName), Side(xs, true), call.request, s.request);
    if s.response.Some? && call.response.Some? {
      ShowsExact(env.lib, OutType(env.lib, call.methodName), Side(xs, false), call.response.value, s.response.value);
    }
  }

  /** The messages sent are those of the exchange: one, if there is one. */
  ghost predicate Emits(env: Env, xs: seq<Sent>, calls: seq<Call>) {
    && |calls| <= 1
    && (forall call :: calls == [call] <==> Describes(env, xs, call))
  }

  /** The messages made on a slot. */
  function CallsOn(env: Env, log: seq<Finish>, i: nat): seq<Call> {
    H.Accepted(env, AllFrom(i, FinishedBy(log, i)))
  }

  lemma EmitsOne(env: Env, xs: seq<Sent>, i: nat, out: seq<Snapshot>)
    requires |out| == 1 && BothGrew(env, FreshSlot(env.recordResponse), out[0].request, out[0].response, xs)
    ensures Emits(env, xs, H.Accepted(env, AllFrom(i, out)))
  {
    var log := AllFrom(i, out);
    assert log == [Finish(i, out[0])] && H.Accepted(env, log[1..]) == [];
    var calls := H.Accepted(env, log);
    assert calls == if H.CallOf(env, out[0]).Some? then [H.CallOf(env, out[0]).value] else [];
    forall call
      ensures calls == [call] <==> Describes(env, xs, call)
    {
      CallExact(env, xs, out[0], call);
    }
  }

  /** Among the frames of any other streams of the connection, an exchange on a fresh slot of its own
      makes its message and no other, and leaves the slot fresh. */
  lemma ExchangeMakesItsMessage(env: Env, table: seq<Slot>, ts: seq<Tagged>, xs: seq<Sent>, id: U32)
    requires |table| == 10000 && table[id % 10000] == FreshSlot(env.recordResponse)
    requires Fits(env, xs) && Complete(env, xs)
    requires ForSlot(ts, id % 10000) == WireOf(env, xs, id) && TableRun(env, table, ts).Going?
    ensures var r := TableRun(env, table, ts);
            r.table[id % 10000] == FreshSlot(env.recordResponse) && Emits(env, xs, CallsOn(env, r.finished, id % 10000))
  {
    SlotsDoNotInterfere(env, table, ts, id % 10000);
    WholeExchange(env, xs, id);
    EmitsOne(env, xs, id % 10000, FinishedBy(TableRun(env, table, ts).finished, id % 10000));
  }

  /** The body of one side can be made. */
  predicate Renderable(lib: Library, kind: Option<string>, ps: seq<Part>) {
    var contentType := LastValue(AllFields(ps), "content-type");
    || (contentType.Some? && contentType.value != "application/grpc")
    || (kind.Some? && lib.json(kind.value, AllBytes(ps)).Some?)
  }

  lemma RenderableExact(lib: Library, kind: Option<string>, ps: seq<Part>) returns (item: MsgItem)
    ensures Renderable(lib, kind, ps) ==> Shows(lib, kind, ps, item)
    ensures !Renderable(lib, kind, ps) ==> forall m :: !Shows(lib, kind, ps, m)
  {
    var headers, bytes := Store(map[], AllFields(ps)), AllBytes(ps);
    var contentType := LastValue(AllFields(ps), "content-type");
    FieldsExact(headers, AllFields(ps));
    if contentType.Some? && contentType.value != "application/grpc" {
      TextExact(bytes, AsText(bytes));
      item := MsgItem(headers, AsText(bytes));
    } else if Renderable(lib, kind, ps) {
      item := MsgItem(headers, lib.json(kind.value, bytes).value);
    } else {
      item := MsgItem(headers, "");
    }
  }

  /** No message exactly if the method is empty or a reflection call, or the body of a side cannot be
      made: no other content type, and no known method or no JSON. */
  lemma NoMessageExactly(env: Env, xs: seq<Sent>, calls: seq<Call>, methodName: string)
    requires Emits(env, xs, calls) && Trimmed(PathOf(Side(xs, true)), methodName)
    ensures calls == [] <==>
            || methodName == "" || Within("grpc.reflection", methodName)
            || !Renderable(env.lib, InType(env.lib, methodName), Side(xs, true))
            || (env.recordResponse && !Renderable(env.lib, OutType(env.lib, methodName), Side(xs, false)))
  {
    var request := RenderableExact(env.lib, InType(env.lib, methodName), Side(xs, true));
    var response := RenderableExact(env.lib, OutType(env.lib, methodName), Side(xs, false));
    var call := Call(methodName, request, if env.recordResponse then Some(response) else None);
    if Describes(env, xs, call) {
      assert calls == [call];
    }
    if calls != [] {
      assert calls == [calls[0]];
      assert Describes(env, xs, calls[0]);
      TrimExact(PathOf(Side(xs, true)), methodName);
      TrimExact(PathOf(Side(xs, true)), calls[0].methodName);
    }
  }

  /** The usual case, spelled out: a gRPC call whose method is known. */
  lemma KnownMethod(env: Env, xs: seq<Sent>, calls: seq<Call>, methodName: string, types: MethodInputOutput)
    requires Emits(env, xs, calls) && Trimmed(PathOf(Side(xs, true)), methodName)
    requires methodName != "" && !Within("grpc.reflection", methodName) && env.lib.finder(methodName) == Some(types)
    requires LastValue(AllFields(Side(xs, true)), "content-type") in [None, Some("application/grpc")]
    requires LastValue(AllFields(Side(xs, false)), "content-type") in [None, Some("application/grpc")]
    requires env.lib.json(types.inType, AllBytes(Side(xs, true))).Some?
    requires env.recordResponse ==> env.lib.json(types.outType, AllBytes(Side(xs, false))).Some?
    ensures |calls| == 1 && calls[0].methodName == methodName
    ensures AreFields(calls[0].request.headers, AllFields(Side(xs, true)))
    ensures env.lib.json(types.inType, AllBytes(Side(xs, true))) == Some(calls[0].request.body)
    ensures calls[0].response.Some? == env.recordResponse
    ensures env.recordResponse ==>
              && AreFields(calls[0].response.value.headers, AllFields(Side(xs, false)))
              && env.lib.json(types.outType, AllBytes(Side(xs, false))) == Some(calls[0].response.value.body)
  {
    NoMessageExactly(env, xs, calls, methodName);
    assert calls == [calls[0]];
    assert Describes(env, xs, calls[0]);
    TrimExact(PathOf(Side(xs, true)), methodName);
    TrimExact(PathOf(Side(xs, true)), calls[0].methodName);
  }

  // ---------------------------------------------------------------------------------------------
  // A second request on a slot whose response has not ended

  predicate OnlyInput(xs: seq<Sent>) {
    xs != [] && forall i :: 0 <= i < |xs| ==> xs[i].input
  }

  lemma RecordedInput(env: Env, slot: Slot, p: Part, id: U32, end: bool)
    requires env.recordResponse && Recording(slot) && slot.tokens <= 1 && PartFits(env, p) && (end ==> !p.More?)
    ensures var r := SlotStep(env, slot, Wire(p, id, true, end));
            if end && slot.tokens == 1 then r == Stopped(Stuck) else
              && r.Stepped? && r.finished == [] && Recording(r.slot)
              && r.slot.tokens == if end then 1 else slot.tokens
  {
    PartOn(env, slot.request, p, id, true, end);
  }

  /** The frames of one request leave a token, or get stuck on the one that is there. */
  lemma {:induction false} RequestFrames(env: Env, slot: Slot, xs: seq<Sent>, id: U32, more: seq<Tagged>) returns (next: Slot)
    requires env.recordResponse && Recording(slot) && slot.tokens <= 1 && Fits(env, xs) && OnlyInput(xs)
    ensures if slot.tokens == 1 then SlotRun(env, slot, WireOf(env, xs, id) + more) == Stopped(Stuck)
            else Recording(next) && next.tokens == 1
                 && SlotRun(env, slot, WireOf(env, xs, id) + more) == SlotRun(env, next, more)
    decreases |xs|
  {
    var ts := WireOf(env, xs, id);
    var t, tail := ts[0], ts[1..];
    Assoc([t], tail, more);
    assert ts == [t] + tail;
    SlotRunCons(env, slot, t, tail + more);
    if |xs| > 1 {
      SideHas(xs[1..], true);
    }
    RecordedInput(env, slot, xs[0].part, id, EndsFirst(xs));
    var step := SlotStep(env, slot, t);
    next := slot;
    if step.Stepped? {
      next := step.slot;
      if |xs| > 1 {
        next := RequestFrames(env, step.slot, xs[1..], id, more);
      } else {
        assert tail + more == more;
      }
      NothingFirst(SlotRun(env, step.slot, tail + more));
    }
  }

  /** In recording mode, if a second request ends on a slot before the response to the first has, the
      goroutine of the requests is stuck: the token of the first is still there. */
  lemma SecondRequestStops(env: Env, xs: seq<Sent>, id: U32, ys: seq<Sent>, next: U32)
    requires env.recordResponse && Fits(env, xs) && OnlyInput(xs) && Fits(env, ys) && OnlyInput(ys)
    ensures SlotRun(env, FreshSlot(true), WireOf(env, xs, id) + WireOf(env, ys, next)) == Stopped(Stuck)
  {
    var slot := RequestFrames(env, FreshSlot(true), xs, id, WireOf(env, ys, next));
    var last := RequestFrames(env, slot, ys, next, []);
    AppendNothing(WireOf(env, ys, next));
  }

  // ---------------------------------------------------------------------------------------------
  // Resets, and fields that come too late

  /** After RST_STREAM an exchange finds a new slot, whatever was left in it. */
  lemma ExchangeAfterReset(env: Env, slot: Slot, reset: Tagged, xs: seq<Sent>, id: U32)
    requires reset.base.kind == 0x3 && Fits(env, xs) && Complete(env, xs)
    ensures Delivers(env, SlotRun(env, slot, [reset] + WireOf(env, xs, id)), FreshSlot(env.recordResponse), xs)
  {
    ResetFrame(env, slot, reset);
    SlotRunCons(env, slot, reset, WireOf(env, xs, id));
    WholeExchange(env, xs, id);
    var r := SlotRun(env, FreshSlot(env.recordResponse), WireOf(env, xs, id));
    assert [] + r.finished == r.finished;
  }

  /** A CONTINUATION that follows the request's END_STREAM comes too late: its fields end up in the
      next request on the slot. */
  lemma LateFieldsLeak(env: Env, late: Part, id: U32, xs: seq<Sent>, next: U32)
    requires !env.recordResponse && late.More? && Fits(env, xs) && Complete(env, xs)
    ensures var r := SlotRun(env, FreshSlot(false), [Wire(late, id, true, false)] + WireOf(env, xs, next));
            && r.Stepped? && |r.finished| == 1
            && AreFields(r.finished[0].request.headers, FieldsOf(late) + AllFields(Side(xs, true)))
  {
    var t := Wire(late, id, true, false);
    PartOn(env, FRESH_ITEM, late, id, true, false);
    SlotRunCons(env, FreshSlot(false), t, WireOf(env, xs, next));
    var slot := SlotStep(env, FreshSlot(false), t).slot;
    FromHere(env, slot, xs, next);
    var r := SlotRun(env, slot, WireOf(env, xs, next));
    assert [] + r.finished == r.finished;
    StoreAppend(map[], FieldsOf(late), AllFields(Side(xs, true)));
    FieldsExact(r.finished[0].request.headers, FieldsOf(late) + AllFields(Side(xs, true)));
  }
}
