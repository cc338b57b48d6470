/** Recording mode: two goroutines on one slot. The input goroutine processes the request frames of
    a stream, the output goroutine its response frames; both may wait for the token in the done
    channel and then finish the stream. A step is one access to shared state. Header fields are stored
    one by one. Range over a header map visits each key once, at any time and in any order, as the
    documentation of sync.Map has it; Clear empties the map in one access. */
module RecordingMode {
  import opened Bytes
  import opened Frames
  import opened StreamTable
  import opened Protocol
  import opened Messages

  datatype Side = Incoming | Outgoing

  /** What processing a frame stores into its item: END_HEADERS, END_STREAM, header fields, body
      bytes. A CONTINUATION frame ends there; other frames go on to look for the end of the stream. */
  datatype Effect = Effect(endHeader: Option<bool>, endStream: Option<bool>,
                           fields: seq<Field>, bytes: seq<Byte>, continuation: bool)

  function BytesOf(env: Env, data: seq<Byte>): seq<Byte> {
    if data == [] || ParseGRPCMessage(data).Err? then []
    else
      var body := MessageBytes(env, ParseGRPCMessage(data).value);
      if body.Some? then body.value else []
  }

  function FieldsOf(t: Tagged): seq<Field> {
    if t.fields.Some? then t.fields.value else []
  }

  function EffectOf(env: Env, t: Tagged): Effect {
    if t.base.kind == DATA then
      var r := ParseFrameData(t.base);
      if r.Err? then Effect(None, None, [], [], false)
      else Effect(None, Some(r.value.endStream), [], BytesOf(env, r.value.data), false)
    else if t.base.kind == HEADERS then
      var r := ParseFrameHeader(t.base);
      if r.Err? then Effect(None, None, [], [], false)
      else Effect(Some(r.value.endHeader), Some(r.value.endStream), FieldsOf(t), [], false)
    else Effect(Some(ParseFrameContinuation(t.base).endHeader), None, FieldsOf(t), [], true)
  }

  function Or<T>(x: Option<T>, y: T): T {
    if x.Some? then x.value else y
  }

  /** END_HEADERS, END_STREAM, each field, the bytes. */
  function Accesses(e: Effect): nat {
    |e.fields| + 3
  }

  /** Access number k of storing an effect. */
  function StoreOne(item: Item, e: Effect, k: nat): Item {
    if k == 0 then item.(endHeader := Or(e.endHeader, item.endHeader))
    else if k == 1 then item.(endStream := Or(e.endStream, item.endStream))
    else if k - 2 < |e.fields| then item.(headers := item.headers[e.fields[k - 2].name := e.fields[k - 2].value])
    else item.(data := item.data + e.bytes)
  }

  /** How many fields the first k accesses store. */
  function FieldsIn(e: Effect, k: nat): nat {
    if k < 2 then 0 else if k - 2 < |e.fields| then k - 2 else |e.fields|
  }

  /** The item after the first k accesses. */
  function Partly(item: Item, e: Effect, k: nat): Item {
    Item(if k > 0 then Or(e.endHeader, item.endHeader) else item.endHeader,
         if k > 1 then Or(e.endStream, item.endStream) else item.endStream,
         Store(item.headers, e.fields[..FieldsIn(e, k)]),
         if k >= Accesses(e) then item.data + e.bytes else item.data)
  }

  function All(item: Item, e: Effect): Item {
    Partly(item, e, Accesses(e))
  }

  lemma StoreSnoc(headers: map<string, string>, fields: seq<Field>, n: nat)
    requires n < |fields|
    ensures Store(headers, fields[..n + 1]) == Store(headers, fields[..n])[fields[n].name := fields[n].value]
  {
    StoreAppend(headers, fields[..n], [fields[n]]);
    assert fields[..n + 1] == fields[..n] + [fields[n]];
  }

  lemma PartlyStep(item: Item, e: Effect, k: nat)
    requires k < Accesses(e)
    ensures StoreOne(Partly(item, e, k), e, k) == Partly(item, e, k + 1)
  {
    if 2 <= k < |e.fields| + 2 {
      StoreSnoc(item.headers, e.fields, k - 2);
    }
  }

  lemma AllIs(item: Item, e: Effect)
    ensures All(item, e) ==
            Item(Or(e.endHeader, item.endHeader), Or(e.endStream, item.endStream),
                 Store(item.headers, e.fields), item.data + e.bytes)
  {
    assert e.fields[..|e.fields|] == e.fields;
  }

  lemma DataEffect(env: Env, item: Item, t: Tagged)
    requires t.base.kind == DATA
    ensures DataOn(env, item, t.base) == All(item, EffectOf(env, t))
  {
    AllIs(item, EffectOf(env, t));
    AppendNothing(item.data);
  }

  /** All accesses together are what the frame does to the item. */
  lemma EffectIsItemOn(env: Env, item: Item, t: Tagged)
    ensures ItemOn(env, item, t) == All(item, EffectOf(env, t))
  {
    AppendNothing(item.data);
    if t.base.kind == DATA {
      DataEffect(env, item, t);
    } else {
      AllIs(item, EffectOf(env, t));
    }
  }

  // ---------------------------------------------------------------------------------------------
  // The two goroutines

  /** What is read of a slot to build a message. */
  datatype Draft = Draft(methodName: string, request: Body, response: Body)

  /** Inside toMsg: what was read so far, and the keys still to visit in the current Range. The stages
      are: method, request fields, request body, response fields, response body, hand over. */
  datatype Reading = Reading(stage: nat, draft: Draft, todo: set<string>)

  /** Where a goroutine stands. Channels are numbered in the order of their creation. */
  datatype PC =
    | Storing(access: nat)                   // about to make that access for its frame
    | After                                  // input only: about to load the request's END_STREAM
    | Signal                                 // about to look up the done channel to send
    | Sending(channel: nat)
    | Checking                               // about to load the response's END_STREAM
    | Fetch                                  // about to look up the done channel to wait
    | Waiting(channel: nat)                  // inside WaitTimeout
    | Building(token: bool, at: Reading)     // has left it, by the token or the timer; inside toMsg
    | Clearing(k: nat)                       // inside Stream.Reset

  /** n counts the frames it is done with. */
  datatype Goroutine = Goroutine(pc: PC, n: nat)

  /** A message sent to the output: by whom, how that one had left WaitTimeout, and whether any
      timer had fired by then. */
  datatype Built = Built(who: Side, token: bool, afterTimeout: bool, call: Call)

  /** full holds the channels with a token in them; done is the slot's current channel; resets
      counts the calls of Stream.Reset. */
  datatype State = State(input: Goroutine, output: Goroutine, request: Item, response: Item, full: set<nat>,
                         done: nat, timedOut: bool, tokensTaken: nat, resets: nat, log: seq<Built>)

  datatype Action = Step(side: Side) | Visit(side: Side, key: string) | Token(side: Side) | Timer(side: Side)

  /** The frames of the one stream that uses the slot, all keys its header maps can have, and how a
      draft becomes a message. */
  datatype Stream = Stream(lib: Library, build: Draft -> Option<Call>,
                           requests: seq<Effect>, responses: seq<Effect>, names: set<string>)

  function FieldNames(fields: seq<Field>): set<string> {
    if fields == [] then {} else FieldNames(fields[..|fields| - 1]) + {fields[|fields| - 1].name}
  }

  function NamesOf(es: seq<Effect>): set<string> {
    if es == [] then {} else NamesOf(es[..|es| - 1]) + FieldNames(es[|es| - 1].fields)
  }

  function EffectsOf(env: Env, ts: seq<Tagged>): seq<Effect> {
    seq(|ts|, i requires 0 <= i < |ts| => EffectOf(env, ts[i]))
  }

  function DraftMsg(lib: Library, d: Draft): Option<Call> {
    ToMsg(lib, d.methodName, d.request, Some(d.response))
  }

  function StreamOf(env: Env, requests: seq<Tagged>, responses: seq<Tagged>): Stream {
    var es, fs := EffectsOf(env, requests), EffectsOf(env, responses);
    Stream(env.lib, d => DraftMsg(env.lib, d), es, fs, NamesOf(es) + NamesOf(fs))
  }

  const NO_BODY := Body(map[], [])
  const NOTHING_READ := Reading(0, Draft("", NO_BODY, NO_BODY), {})
  const IDLE := Goroutine(Storing(0), 0)
  const START := State(IDLE, IDLE, FRESH_ITEM, FRESH_ITEM, {}, 0, false, 0, 0, [])

  function FramesOf(x: Stream, side: Side): seq<Effect> {
    if side == Incoming then x.requests else x.responses
  }

  function Of(s: State, side: Side): Goroutine {
    if side == Incoming then s.input else s.output
  }

  function Put(s: State, side: Side, g: Goroutine): State {
    if side == Incoming then s.(input := g) else s.(output := g)
  }

  function Go(s: State, side: Side, pc: PC): State {
    Put(s, side, Goroutine(pc, Of(s, side).n))
  }

  function NextFrame(s: State, side: Side): State {
    Put(s, side, Goroutine(Storing(0), Of(s, side).n + 1))
  }

  function ItemOf(s: State, side: Side): Item {
    if side == Incoming then s.request else s.response
  }

  function PutItem(s: State, side: Side, item: Item): State {
    if side == Incoming then s.(request := item) else s.(response := item)
  }

  function StoreStep(s: State, side: Side, e: Effect, k: nat): State {
    var t := PutItem(s, side, StoreOne(ItemOf(s, side), e, k));
    if k + 1 < Accesses(e) then Go(t, side, Storing(k + 1))
    else if e.continuation then NextFrame(t, side)
    else Go(t, side, if side == Incoming then After else Checking)
  }

  predicate InRange(r: Reading) {
    r.stage == 1 || r.stage == 3
  }

  /** One access of toMsg that is no visit: a stage ends, a Range begins with all keys to visit. */
  function ReadOn(names: set<string>, s: State, r: Reading): Reading {
    var d := r.draft;
    if r.stage == 0 then Reading(1, d.(methodName := MethodOf(s.request.headers)), names)
    else if r.stage == 1 then Reading(2, d, {})
    else if r.stage == 2 then Reading(3, d.(request := d.request.(data := s.request.data)), names)
    else if r.stage == 3 then Reading(4, d, {})
    else Reading(5, d.(response := d.response.(data := s.response.data)), {})
  }

  /** Takes over the current mapping of one key. */
  function Copy(to: map<string, string>, from: map<string, string>, key: string): map<string, string> {
    if key in from then to[key := from[key]] else to
  }

  function VisitOn(s: State, r: Reading, key: string): Reading {
    var d := r.draft;
    Reading(r.stage,
            if r.stage == 1 then d.(request := d.request.(headers := Copy(d.request.headers, s.request.headers, key)))
            else d.(response := d.response.(headers := Copy(d.response.headers, s.response.headers, key))),
            r.todo - {key})
  }

  function BeginReset(s: State, side: Side): State {
    Go(s.(resets := s.resets + 1), side, Clearing(0))
  }

  /** The log after a draft was handed over; unchanged if no message could be built. */
  function Logged(x: Stream, s: State, side: Side, token: bool, d: Draft): seq<Built> {
    if x.build(d).Some? then s.log + [Built(side, token, s.timedOut, x.build(d).value)] else s.log
  }

  /** A Range ends only when it has visited every key. */
  function BuildStep(x: Stream, s: State, side: Side, token: bool, r: Reading): Option<State> {
    if InRange(r) && r.todo != {} then None
    else if r.stage < 5 then
      var read := ReadOn(x.names, s, r);
      Some(if r.stage == 0 && !MethodOk(read.draft.methodName) then BeginReset(s, side) else Go(s, side, Building(token, read)))
    else Some(BeginReset(s.(log := Logged(x, s, side, token, r.draft)), side))
  }

  function ClearOne(item: Item, k: nat): Item {
    if k == 0 then item.(endStream := false)
    else if k == 1 then item.(endHeader := false)
    else if k == 2 then item.(headers := map[])
    else item.(data := [])
  }

  /** Stream.Reset: both items, one field after the other, and at last a new channel. */
  function ClearStep(s: State, side: Side, k: nat): State {
    if k < 4 then Go(s.(request := ClearOne(s.request, k)), side, Clearing(k + 1))
    else if k < 8 then Go(s.(response := ClearOne(s.response, k - 4)), side, Clearing(k + 1))
    else NextFrame(s.(done := s.done + 1), side)
  }

  /** What a goroutine does next on its own; None if it waits, or has no more frames. */
  function OneStep(x: Stream, s: State, side: Side): Option<State> {
    var g := Of(s, side);
    if g.n >= |FramesOf(x, side)| then None
    else
      match g.pc
      case Storing(k) => Some(StoreStep(s, side, FramesOf(x, side)[g.n], k))
      case After => Some(Go(s, side, if s.request.endStream then Signal else Checking))
      case Signal => Some(Go(s, side, Sending(s.done)))
      case Sending(c) => if c in s.full then None else Some(Go(s.(full := s.full + {c}), side, Checking))
      case Checking => Some(if s.response.endStream then Go(s, side, Fetch) else NextFrame(s, side))
      case Fetch => Some(Go(s, side, Waiting(s.done)))
      case Waiting(_) => None
      case Building(token, r) => BuildStep(x, s, side, token, r)
      case Clearing(k) => Some(ClearStep(s, side, k))
  }

  function VisitStep(s: State, side: Side, key: string): Option<State> {
    var pc := Of(s, side).pc;
    if pc.Building? && InRange(pc.at) && key in pc.at.todo
    then Some(Go(s, side, Building(pc.token, VisitOn(s, pc.at, key)))) else None
  }

  function TokenStep(s: State, side: Side): Option<State> {
    var pc := Of(s, side).pc;
    if pc.Waiting? && pc.channel in s.full
    then Some(Go(s.(full := s.full - {pc.channel}, tokensTaken := s.tokensTaken + 1), side, Building(true, NOTHING_READ)))
    else None
  }

  function TimerStep(s: State, side: Side): Option<State> {
    if Of(s, side).pc.Waiting? then Some(Go(s.(timedOut := true), side, Building(false, NOTHING_READ))) else None
  }

  function Next(x: Stream, s: State, a: Action): Option<State> {
    match a
    case Step(side) => OneStep(x, s, side)
    case Visit(side, key) => VisitStep(s, side, key)
    case Token(side) => TokenStep(s, side)
    case Timer(side) => TimerStep(s, side)
  }

  /** Actions, and the states they lead through. */
  datatype Trace = Trace(states: seq<State>, actions: seq<Action>)

  const EMPTY := Trace([START], [])

  /** A run that ends in s. */
  ghost predicate Runs(x: Stream, r: Trace, s: State) {
    && |r.states| == |r.actions| + 1 && r.states[0] == START && r.states[|r.actions|] == s
    && forall i {:trigger r.actions[i]} :: 0 <= i < |r.actions| ==> Next(x, r.states[i], r.actions[i]) == Some(r.states[i + 1])
  }

  predicate NoTimer(actions: seq<Action>) {
    forall i :: 0 <= i < |actions| ==> !actions[i].Timer?
  }

  // ---------------------------------------------------------------------------------------------

  /** All frames of one side, one after the other, on a fresh item. */
  function Whole(es: seq<Effect>): Item {
    if es == [] then FRESH_ITEM else All(Whole(es[..|es| - 1]), es[|es| - 1])
  }

  /** The frame neither fails to parse nor stops the program. */
  predicate Parses(t: Tagged) {
    && (t.base.kind == DATA ==>
          && ParseFrameData(t.base).Ok?
          && (ParseFrameData(t.base).value.data == [] || ParseGRPCMessage(ParseFrameData(t.base).value.data).Ok?))
    && (t.base.kind == HEADERS ==> ParseFrameHeader(t.base).Ok?)
  }

  /** A message as HTTP/2 sends it: END_STREAM on the last frame and on no other. */
  ghost predicate OneMessage(ts: seq<Tagged>) {
    && ts != []
    && forall i :: 0 <= i < |ts| ==>
         && ts[i].base.kind in {DATA, HEADERS, CONTINUATION} && Parses(ts[i])
         && (i == |ts| - 1 <==> ts[i].base.kind != CONTINUATION && FlagSet(ts[i].base.flags, 0x1))
  }

  /** The same, said of the effects: the last one alone stores END_STREAM. */
  ghost predicate Ends(es: seq<Effect>) {
    && es != [] && !es[|es| - 1].continuation
    && (forall i :: 0 <= i < |es| ==> (es[i].endStream == Some(true) <==> i == |es| - 1))
    && (forall i :: 0 <= i < |es| ==> es[i].fields == [] || es[i].bytes == [])
  }

  lemma EffectEnds(env: Env, t: Tagged)
    requires t.base.kind in {DATA, HEADERS, CONTINUATION} && Parses(t)
    ensures var e := EffectOf(env, t);
            && (e.endStream == Some(true) <==> t.base.kind != CONTINUATION && FlagSet(t.base.flags, 0x1))
            && (e.continuation <==> t.base.kind == CONTINUATION)
            && (e.fields == [] || e.bytes == [])
  {
  }

  lemma {:induction false} FieldsNamed(headers: map<string, string>, fields: seq<Field>)
    ensures Store(headers, fields).Keys == headers.Keys + FieldNames(fields)
    decreases |fields|
  {
    if fields != [] {
      var n := |fields| - 1;
      FieldsNamed(headers, fields[..n]);
      StoreSnoc(headers, fields, n);
      assert fields[..n + 1] == fields;
    }
  }

  lemma {:induction false} WholeNamed(es: seq<Effect>)
    ensures Whole(es).headers.Keys == NamesOf(es)
    decreases |es|
  {
    if es != [] {
      var n := |es| - 1;
      WholeNamed(es[..n]);
      FieldsNamed(Whole(es[..n]).headers, es[n].fields);
      AllIs(Whole(es[..n]), es[n]);
    }
  }

  lemma OneMessageEnds(env: Env, ts: seq<Tagged>)
    requires OneMessage(ts)
    ensures Ends(EffectsOf(env, ts))
  {
    forall i | 0 <= i < |ts|
      ensures (EffectsOf(env, ts)[i].endStream == Some(true)) <==> (i == |ts| - 1)
      ensures EffectsOf(env, ts)[i].fields == [] || EffectsOf(env, ts)[i].bytes == []
      ensures i == |ts| - 1 ==> !EffectsOf(env, ts)[i].continuation
    {
      EffectEnds(env, ts[i]);
    }
    assert !EffectsOf(env, ts)[|ts| - 1].continuation;
  }

  /** Past the access that stores END_STREAM of the last frame. */
  predicate EndStored(es: seq<Effect>, g: Goroutine) {
    g.n >= |es| || (g.n == |es| - 1 && !(g.pc.Storing? && g.pc.access < 2))
  }

  /** The last request frame was processed, down to its token. */
  predicate RequestProcessed(x: Stream, s: State) {
    || s.input.n >= |x.requests|
    || (s.input.n == |x.requests| - 1
        && (s.input.pc.Checking? || s.input.pc.Fetch? || s.input.pc.Waiting? || s.input.pc.Building? || s.input.pc.Clearing?))
  }

  predicate InWait(g: Goroutine) {
    g.pc.Fetch? || g.pc.Waiting? || g.pc.Building?
  }
}
