/** A connection: its slot array, updated in place frame by frame, and its frame loop. */
module Http2Conns {
  import opened Bytes
  import opened Frames
  import opened StreamTable
  import opened Protocol
  import opened Messages

  /** The message of a finished stream; None if it cannot be built. */
  function CallOf(env: Env, s: Snapshot): Option<Call> {
    ToMsg(env.lib, MethodOf(s.request.headers), BodyOf(s.request),
          if s.response.Some? then Some(BodyOf(s.response.value)) else None)
  }

  /** The messages of the finished streams, in order. */
  function Accepted(env: Env, log: seq<Finish>): seq<Call> {
    if log == [] then []
    else
      var call := CallOf(env, log[0].snapshot);
      if call.Some? then [call.value] + Accepted(env, log[1..]) else Accepted(env, log[1..])
  }

  lemma {:induction false} AcceptedAppend(env: Env, a: seq<Finish>, b: seq<Finish>)
    ensures Accepted(env, a + b) == Accepted(env, a) + Accepted(env, b)
    decreases |a|
  {
    if a == [] {
      assert a + b == b;
    } else {
      assert (a + b)[1..] == a[1..] + b;
      AcceptedAppend(env, a[1..], b);
    }
  }

  const INITIAL_HEADER_TABLE_SIZE := 4096

  /** Table sizes of the two header decoders. */
  datatype DecoderSizes = DecoderSizes(input: U32, output: U32)

  function SizeOf(s: DecoderSizes, inputFlag: bool): U32 {
    if inputFlag then s.input else s.output
  }

  function WithSize(s: DecoderSizes, inputFlag: bool, size: U32): DecoderSizes {
    if inputFlag then s.(input := size) else s.(output := size)
  }

  function LastSize(size: U32, settings: seq<Setting>): U32 {
    if settings == [] then size else settings[|settings| - 1].val
  }

  /** Of the entries of a SETTINGS frame that parses and is no acknowledgement, the last size wins; it
      goes to the decoder of the direction the frame came from. */
  function SizesAfter(s: DecoderSizes, f: FrameBase): DecoderSizes {
    if f.kind != SETTINGS || |f.payload| % 6 != 0 || FlagSet(f.flags, 0x1) then s
    else WithSize(s, f.inputFlag, LastSize(SizeOf(s, f.inputFlag), TableSizes(EntriesOf(f.payload))))
  }

  /** The value of the last entry for the header table size; a size stays without one. */
  predicate LastEntry(entries: seq<Setting>, before: U32, after: U32) {
    || (after == before && forall i :: 0 <= i < |entries| ==> entries[i].id != 1)
    || (exists i :: 0 <= i < |entries| && entries[i] == Setting(1, after) && forall j :: i < j < |entries| ==> entries[j].id != 1)
  }

  lemma {:induction false} LastSizeIsLast(entries: seq<Setting>, before: U32)
    ensures LastEntry(entries, before, LastSize(before, TableSizes(entries)))
  {
    if entries != [] {
      var rest, now := entries[1..], if entries[0].id == 1 then entries[0].val else before;
      LastSizeIsLast(rest, now);
      assert LastSize(before, TableSizes(entries)) == LastSize(now, TableSizes(rest));
      var after := LastSize(now, TableSizes(rest));
      if i :| 0 <= i < |rest| && rest[i] == Setting(1, after) && forall j :: i < j < |rest| ==> rest[j].id != 1 {
        assert entries[i + 1] == Setting(1, after);
        assert forall j :: i + 1 < j < |entries| ==> entries[j] == rest[j - 1];
      } else {
        assert forall j :: 0 < j < |entries| ==> entries[j] == rest[j - 1];
        assert entries[0].id == 1 ==> entries[0] == Setting(1, after);
      }
    }
  }

  /** A SETTINGS frame laid out as in section 6.5.1 of RFC 9113 sets the table size of its own direction
      to that of its last such entry; an acknowledgement and a payload of broken length set nothing. */
  lemma TableSizeTaken(s: DecoderSizes, f: FrameBase, entries: seq<Setting>)
    requires f.kind == 0x4
    ensures var after := SizesAfter(s, f);
            && SizeOf(after, !f.inputFlag) == SizeOf(s, !f.inputFlag)
            && (f.flags % 2 == 1 || |f.payload| % 6 != 0 ==> after == s)
            && (f.flags % 2 == 0 && EntriesFit(entries) && f.payload == SettingsLayout(entries) ==>
                  LastEntry(entries, SizeOf(s, f.inputFlag), SizeOf(after, f.inputFlag)))
  {
    if EntriesFit(entries) && f.payload == SettingsLayout(entries) {
      SettingsRoundTrip(entries);
      LastSizeIsLast(entries, SizeOf(s, f.inputFlag));
    }
  }

  function SizesRun(s: DecoderSizes, ts: seq<Tagged>): DecoderSizes
    decreases |ts|
  {
    if ts == [] then s else SizesRun(SizesAfter(s, ts[0].base), ts[1..])
  }

  class Http2Conn {
    const env: Env
    const streams: array<Slot>
    var outputChan: seq<Call>
    var sizes: DecoderSizes
    ghost var finished: seq<Finish>

    ghost predicate Valid()
      reads this, streams
    {
      && streams.Length == STREAM_ARRAY_SIZE
      && (forall i :: 0 <= i < streams.Length ==> streams[i].response.Some? == env.recordResponse)
    }

    constructor (env: Env)
      ensures Valid() && this.env == env && fresh(streams)
      ensures outputChan == [] && finished == []
      ensures sizes == DecoderSizes(INITIAL_HEADER_TABLE_SIZE, INITIAL_HEADER_TABLE_SIZE)
      ensures forall i :: 0 <= i < STREAM_ARRAY_SIZE ==> streams[i] == FreshSlot(env.recordResponse)
    {
      this.env := env;
      streams := new Slot[STREAM_ARRAY_SIZE](i => FreshSlot(env.recordResponse));
      outputChan, finished := [], [];
      sizes := DecoderSizes(INITIAL_HEADER_TABLE_SIZE, INITIAL_HEADER_TABLE_SIZE);
    }

    /** The slot is reset, whether or not a message could be built from it. */
    method FinishStream(i: nat)
      requires Valid() && i < STREAM_ARRAY_SIZE
      modifies this`outputChan, this`finished, streams
      ensures Valid()
      ensures streams[..] == old(streams[..])[i := FreshSlot(env.recordResponse)]
      ensures var s := Snapshot(old(streams[i]).request, old(streams[i]).response);
              && finished == old(finished) + [Finish(i, s)]
              && outputChan == old(outputChan) + if CallOf(env, s).Some? then [CallOf(env, s).value] else []
    {
      var s := Snapshot(streams[i].request, streams[i].response);
      var call := CallOf(env, s);
      if call.Some? {
        outputChan := outputChan + [call.value];
      }
      finished := finished + [Finish(i, s)];
      Reset(i);
    }

    method Reset(i: nat)
      requires Valid() && i < STREAM_ARRAY_SIZE
      modifies streams
      ensures Valid() && streams[..] == old(streams[..])[i := FreshSlot(env.recordResponse)]
    {
      var response := if streams[i].response.Some? then Some(FRESH_ITEM) else None;
      streams[i] := Slot(0, FRESH_ITEM, response, 0);
    }

    /** DATA and HEADERS: fill the side the frame came from, signal the end of the request, and
        finish the stream when it is over. */
    method ProcessMessageFrame(t: Tagged) returns (halt: Option<Halt>)
      requires Valid() && (t.base.kind == DATA || t.base.kind == HEADERS)
      modifies this`outputChan, this`finished, streams
      ensures Valid()
      ensures var i := IndexOf(t);
              var r := SlotStep(env, old(streams[i]), t);
              && halt == (if r.Stopped? then Some(r.why) else None)
              && (halt == None ==>
                    && streams[..] == old(streams[..])[i := r.slot]
                    && finished == old(finished) + AllFrom(i, r.finished)
                    && outputChan == old(outputChan) + Accepted(env, AllFrom(i, r.finished)))
    {
      if Panics(env, t) {
        return Some(Panic);
      }
      var i := IndexOf(t);
      streams[i] := streams[i].(streamId := t.base.streamId);
      if t.base.inputFlag {
        streams[i] := streams[i].(request := ItemOn(env, streams[i].request, t));
        if streams[i].request.endStream {
          if streams[i].tokens >= 1 {
            return Some(Stuck);
          }
          streams[i] := streams[i].(tokens := streams[i].tokens + 1);
        }
      } else if streams[i].response.Some? {
        streams[i] := streams[i].(response := Some(ItemOn(env, streams[i].response.value, t)));
      }
      halt := None;
      ghost var before := streams[i];
      var over := if env.recordResponse then streams[i].response.value.endStream else streams[i].request.endStream;
      if over {
        FinishStream(i);
        assert AllFrom(i, [Snapshot(before.request, before.response)]) == [Finish(i, Snapshot(before.request, before.response))];
      }
    }

    method ProcessFrameSetting(f: FrameBase)
      requires f.kind == SETTINGS
      modifies this`sizes
      ensures sizes == SizesAfter(old(sizes), f)
    {
      var fs := ParseFrameSetting(f);
      if fs.Err? || fs.value.ack {
        return;
      }
      var settings := fs.value.settings;
      for i := 0 to |settings|
        invariant sizes == WithSize(old(sizes), f.inputFlag, LastSize(SizeOf(old(sizes), f.inputFlag), settings[..i]))
      {
        TableSizesOnly(EntriesOf(f.payload), i);
        if settings[i].id == HEADER_TABLE_SIZE {
          sizes := WithSize(sizes, f.inputFlag, settings[i].val);
        }
      }
      assert settings[..|settings|] == settings;
    }

    method ProcessFrame(t: Tagged) returns (halt: Option<Halt>)
      requires Valid()
      modifies this`outputChan, this`finished, this`sizes, streams
      ensures Valid()
      ensures var r := TableStep(env, old(streams[..]), t);
              && halt == (if r.Halted? then Some(r.why) else None)
              && (halt == None ==>
                    && streams[..] == r.table && finished == old(finished) + r.finished
                    && outputChan == old(outputChan) + Accepted(env, r.finished))
      ensures sizes == SizesAfter(old(sizes), t.base)
    {
      var i := IndexOf(t);
      halt := None;
      ghost var r := TableStep(env, streams[..], t);
      if t.base.kind == DATA || t.base.kind == HEADERS {
        halt := ProcessMessageFrame(t);
      } else if t.base.kind == CONTINUATION {
        if Panics(env, t) {
          return Some(Panic);
        }
        var s := streams[i].(streamId := t.base.streamId);
        streams[i] := if t.base.inputFlag then s.(request := ContinuationOn(s.request, t))
                      else s.(response := Some(ContinuationOn(s.response.value, t)));
      } else if t.base.kind == RST_STREAM {
        Reset(i);
      } else if t.base.kind == SETTINGS {
        streams[i] := streams[i].(streamId := t.base.streamId);
        ProcessFrameSetting(t.base);
      }
      if !(t.base.kind == DATA || t.base.kind == HEADERS) {
        assert r.finished == [] && Accepted(env, r.finished) == [];
        assert outputChan + [] == outputChan;
      }
    }

    /** The frames of one goroutine, in order; returns at a frame that stops it. */
    method ProcessFrames(ts: seq<Tagged>) returns (halt: Option<Halt>)
      requires Valid()
      modifies this`outputChan, this`finished, this`sizes, streams
      ensures Valid()
      ensures var r := TableRun(env, old(streams[..]), ts);
              && halt == (if r.Halted? then Some(r.why) else None)
              && (halt == None ==>
                    && streams[..] == r.table && finished == old(finished) + r.finished
                    && outputChan == old(outputChan) + Accepted(env, r.finished)
                    && sizes == SizesRun(old(sizes), ts))
    {
      ghost var out: seq<Finish> := [];
      for k := 0 to |ts|
        invariant Valid()
        invariant SizesRun(old(sizes), ts) == SizesRun(sizes, ts[k..])
        invariant finished == old(finished) + out && outputChan == old(outputChan) + Accepted(env, out)
        invariant var rest := TableRun(env, streams[..], ts[k..]);
                  TableRun(env, old(streams[..]), ts) ==
                  if rest.Halted? then rest else Going(rest.table, out + rest.finished)
      {
        assert ts[k..][1..] == ts[k + 1..];
        ghost var step := TableStep(env, streams[..], ts[k]);
        ghost var rest := TableRun(env, streams[..], ts[k..]);
        halt := ProcessFrame(ts[k]);
        if halt.Some? {
          return;
        }
        AcceptedAppend(env, out, step.finished);
        Assoc(old(outputChan), Accepted(env, out), Accepted(env, step.finished));
        Assoc(old(finished), out, step.finished);
        if rest.Going? {
          Assoc(out, step.finished, TableRun(env, step.table, ts[k + 1..]).finished);
        }
        out := out + step.finished;
      }
      assert ts[|ts|..] == [] && out + [] == out;
      halt := None;
    }
  }
}
