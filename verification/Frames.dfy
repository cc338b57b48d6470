/** HTTP/2 frame parsers, and the layouts of sections 4.1, 6.1, 6.2 and 6.5.1 of RFC 9113. */
module Frames {
  import opened Bytes
  import opened BigEndians

  const HEADER_SIZE := 9
  const LENGTH_SIZE := 3

  /** SlicePanic stands for a slice expression out of bounds, which stops the program. */
  datatype Failure = EOF | UnexpectedEOF | SlicePanic
  datatype Result<+T> = Ok(value: T) | Err(error: Failure)

  datatype FrameBase = FrameBase(inputFlag: bool, streamId: U32, kind: Byte, flags: Byte, length: nat, payload: seq<Byte>)
  datatype FrameData = FrameData(endStream: bool, padded: bool, padLength: Byte, data: seq<Byte>)
  datatype FrameHeader = FrameHeader(endStream: bool, endHeader: bool, padded: bool, priority: bool,
                                     padLength: Byte, fragment: seq<Byte>)
  datatype FrameContinuation = FrameContinuation(endHeader: bool, fragment: seq<Byte>)
  datatype Setting = Setting(id: nat, val: U32)
  datatype FrameSetting = FrameSetting(ack: bool, settings: seq<Setting>)
  datatype GRPCMessage = GRPCMessage(format: Byte, length: U32, encoded: seq<Byte>)

  predicate FlagSet(flags: Byte, bit: nat)
    requires bit > 0
  {
    flags / bit % 2 == 1
  }

  function Bit(on: bool, bit: nat): nat {
    if on then bit else 0
  }

  // ---------------------------------------------------------------------------------------------
  // Frame header, section 4.1

  function ParseBase(b: seq<Byte>, inputFlag: bool): Result<FrameBase> {
    if |b| <= 5 then Err(EOF)
    else if |b| < HEADER_SIZE then Err(UnexpectedEOF)
    else
      var length := Decode(b[..LENGTH_SIZE]);
      var payload := if length + HEADER_SIZE <= |b| % TWO32
                     then b[HEADER_SIZE..HEADER_SIZE + length] else b[HEADER_SIZE..];
      Ok(FrameBase(inputFlag, DecodeU32(b[5..9]), b[3], b[4], length, payload))
  }

  /** The parser: a loop over the three length bytes, then single fields. */
  method ParseFrameBase(b: seq<Byte>, inputFlag: bool) returns (r: Result<FrameBase>)
    ensures r == ParseBase(b, inputFlag)
  {
    var pos, length := 0, 0;
    while pos < LENGTH_SIZE
      invariant pos <= |b| && pos <= LENGTH_SIZE && length == Decode(b[..pos])
    {
      if pos == |b| {
        return Err(EOF);
      }
      assert b[..pos + 1][..pos] == b[..pos];
      length := length * 256 + b[pos];
      pos := pos + 1;
    }
    if |b| < 6 {
      return Err(EOF);
    }
    var kind, flags := b[3], b[4];
    if |b| < 9 {
      return Err(UnexpectedEOF);
    }
    var id := DecodeU32(b[5..9]);
    var payload := b[HEADER_SIZE..];
    if length + HEADER_SIZE <= |b| % TWO32 {
      payload := b[HEADER_SIZE..HEADER_SIZE + length];
    }
    r := Ok(FrameBase(inputFlag, id, kind, flags, length, payload));
  }

  /** The nine header bytes, with the reserved bit and a 31-bit stream identifier. */
  function HeaderLayout(length: nat, kind: Byte, flags: Byte, reserved: bool, id: nat): (b: seq<Byte>)
    ensures |b| == HEADER_SIZE
  {
    Encode(length, 3) + [kind, flags] + Encode(Bit(reserved, 0x8000_0000) + id, 4)
  }

  /** Parsing a printed header returns every field; the identifier exactly when the reserved bit
      is clear. */
  lemma HeaderRoundTrip(length: nat, kind: Byte, flags: Byte, reserved: bool, id: nat, inputFlag: bool)
    requires length < 0x100_0000 && id < 0x8000_0000
    ensures var r := ParseBase(HeaderLayout(length, kind, flags, reserved, id), inputFlag);
            && r.Ok?
            && r.value == FrameBase(inputFlag, r.value.streamId, kind, flags, length, [])
            && (r.value.streamId == id <==> !reserved)
  {
    var b := HeaderLayout(length, kind, flags, reserved, id);
    Ranges();
    assert b[..3] == Encode(length, 3);
    assert b[5..9] == Encode(Bit(reserved, 0x8000_0000) + id, 4);
    DecodeEncode(length, 3);
    DecodeEncode(Bit(reserved, 0x8000_0000) + id, 4);
  }

  /** The payload is what the length says, or all there is if there are fewer bytes. */
  lemma BasePayload(length: nat, kind: Byte, flags: Byte, id: nat, payload: seq<Byte>, rest: seq<Byte>, inputFlag: bool)
    requires length < 0x100_0000 && id < 0x8000_0000 && HEADER_SIZE + |payload| + |rest| < TWO32
    requires |payload| == length || (|payload| < length && rest == [])
    ensures ParseBase(HeaderLayout(length, kind, flags, false, id) + payload + rest, inputFlag)
         == Ok(FrameBase(inputFlag, id, kind, flags, length, payload))
  {
    var header := HeaderLayout(length, kind, flags, false, id);
    var b := header + payload + rest;
    HeaderRoundTrip(length, kind, flags, false, id, inputFlag);
    assert b[..HEADER_SIZE] == header;
    assert b[..LENGTH_SIZE] == header[..LENGTH_SIZE] && b[5..9] == header[5..9];
    if |payload| == length {
      assert b[HEADER_SIZE..HEADER_SIZE + length] == payload;
    } else {
      assert b[HEADER_SIZE..] == payload;
    }
  }

  /** Every nine bytes are the layout of what the parser returns for them. */
  lemma HeaderPrintParse(b: seq<Byte>, inputFlag: bool)
    requires |b| == HEADER_SIZE
    ensures var r := ParseBase(b, inputFlag);
            && r.Ok? && r.value.length < 0x100_0000
            && HeaderLayout(r.value.length, r.value.kind, r.value.flags, r.value.streamId >= 0x8000_0000,
                            r.value.streamId % 0x8000_0000) == b
  {
    Ranges();
    EncodeDecode(b[..3]);
    EncodeDecode(b[5..9]);
    assert b == b[..3] + [b[3], b[4]] + b[5..9];
  }

  // ---------------------------------------------------------------------------------------------
  // DATA, section 6.1

  function ParseFrameData(f: FrameBase): Result<FrameData> {
    var padded := FlagSet(f.flags, 0x8);
    if padded && f.payload == [] then Err(EOF)
    else
      var start := if padded then 1 else 0;
      var padLength := if padded then f.payload[0] else 0;
      if start > |f.payload| - padLength then Err(SlicePanic)
      else Ok(FrameData(FlagSet(f.flags, 0x1), padded, padLength, f.payload[start..|f.payload| - padLength]))
  }

  function DataLayout(data: seq<Byte>, pad: Option<seq<Byte>>): seq<Byte>
    requires pad.Some? ==> |pad.value| < 256
  {
    match pad
    case None => data
    case Some(p) => [|p|] + data + p
  }

  /** The frame's payload and flags are those of section 6.1. */
  predicate LaidOutData(f: FrameBase, data: seq<Byte>, pad: Option<seq<Byte>>) {
    && (pad.Some? ==> |pad.value| < 256) && FlagSet(f.flags, 0x8) == pad.Some?
    && f.payload == DataLayout(data, pad)
  }

  lemma DataRoundTrip(f: FrameBase, data: seq<Byte>, pad: Option<seq<Byte>>)
    requires LaidOutData(f, data, pad)
    ensures ParseFrameData(f)
         == Ok(FrameData(FlagSet(f.flags, 0x1), pad.Some?, if pad.Some? then |pad.value| else 0, data))
  {
    if pad.Some? {
      assert f.payload[1..|f.payload| - |pad.value|] == data;
    } else {
      assert f.payload[0..|f.payload|] == data;
    }
  }

  /** The parser succeeds on exactly the payloads of that layout; on the others it fails on an
      empty payload and panics on a pad length that reaches past the payload. */
  lemma DataParseExact(f: FrameBase)
    ensures ParseFrameData(f).Ok? <==>
            exists data: seq<Byte>, pad: Option<seq<Byte>> :: LaidOutData(f, data, pad)
    ensures ParseFrameData(f) == Err(SlicePanic) <==>
            FlagSet(f.flags, 0x8) && f.payload != [] && f.payload[0] >= |f.payload|
  {
    if ParseFrameData(f).Ok? {
      var fd := ParseFrameData(f).value;
      var pad := if fd.padded then Some(f.payload[|f.payload| - fd.padLength..]) else None;
      assert LaidOutData(f, fd.data, pad);
    }
    forall data: seq<Byte>, pad: Option<seq<Byte>> | LaidOutData(f, data, pad)
      ensures ParseFrameData(f).Ok?
    {
      DataRoundTrip(f, data, pad);
    }
  }

  // ---------------------------------------------------------------------------------------------
  // HEADERS, section 6.2

  function ParseFrameHeader(f: FrameBase): Result<FrameHeader> {
    var padded := FlagSet(f.flags, 0x8);
    var priority := FlagSet(f.flags, 0x20);
    if padded && f.payload == [] then Err(EOF)
    else
      var start := (if padded then 1 else 0) + (if priority then 5 else 0);
      var padLength := if padded then f.payload[0] else 0;
      if start > |f.payload| - padLength then Err(SlicePanic)
      else Ok(FrameHeader(FlagSet(f.flags, 0x1), FlagSet(f.flags, 0x4), padded, priority, padLength,
                          f.payload[start..|f.payload| - padLength]))
  }

  function HeadersLayout(fragment: seq<Byte>, priority: Option<seq<Byte>>, pad: Option<seq<Byte>>): seq<Byte>
    requires pad.Some? ==> |pad.value| < 256
  {
    DataLayout((if priority.Some? then priority.value else []) + fragment, pad)
  }

  /** The frame's payload and flags are those of section 6.2. */
  predicate LaidOutHeaders(f: FrameBase, fragment: seq<Byte>, priority: Option<seq<Byte>>, pad: Option<seq<Byte>>) {
    && (pad.Some? ==> |pad.value| < 256) && (priority.Some? ==> |priority.value| == 5)
    && FlagSet(f.flags, 0x8) == pad.Some? && FlagSet(f.flags, 0x20) == priority.Some?
    && f.payload == HeadersLayout(fragment, priority, pad)
  }

  lemma HeadersRoundTrip(f: FrameBase, fragment: seq<Byte>, priority: Option<seq<Byte>>, pad: Option<seq<Byte>>)
    requires LaidOutHeaders(f, fragment, priority, pad)
    ensures ParseFrameHeader(f)
         == Ok(FrameHeader(FlagSet(f.flags, 0x1), FlagSet(f.flags, 0x4), pad.Some?, priority.Some?,
                           if pad.Some? then |pad.value| else 0, fragment))
  {
    var start := (if pad.Some? then 1 else 0) + (if priority.Some? then 5 else 0);
    var padLength := if pad.Some? then |pad.value| else 0;
    assert f.payload[start..|f.payload| - padLength] == fragment;
  }

  /** Pad length, inner part, padding. */
  lemma CutPadding(p: seq<Byte>, e: nat)
    requires p != [] && 1 <= e <= |p| && |p| - e == p[0]
    ensures DataLayout(p[1..e], Some(p[e..])) == p
  {
    assert p == [p[0]] + p[1..e] + p[e..];
  }

  lemma CutPriority(p: seq<Byte>, s: nat, e: nat)
    requires s + 5 <= e <= |p|
    ensures p[s..s + 5] + p[s + 5..e] == p[s..e]
  {
  }

  /** What lies between the pad length and the padding. */
  lemma InnerCut(p: seq<Byte>, padded: bool, e: nat) returns (s: nat, pad: Option<seq<Byte>>)
    requires if padded then p != [] && 1 <= e <= |p| && |p| - e == p[0] else e == |p|
    ensures s == (if padded then 1 else 0) && s <= e && (pad.Some? <==> padded)
    ensures (pad.Some? ==> |pad.value| < 256) && DataLayout(p[s..e], pad) == p
  {
    if padded {
      s, pad := 1, Some(p[e..]);
      CutPadding(p, e);
    } else {
      s, pad := 0, None;
    }
  }

  lemma HeadersCut(f: FrameBase) returns (fragment: seq<Byte>, priority: Option<seq<Byte>>, pad: Option<seq<Byte>>)
    requires ParseFrameHeader(f).Ok?
    ensures LaidOutHeaders(f, fragment, priority, pad)
  {
    var fh, p := ParseFrameHeader(f).value, f.payload;
    var e, s := |p| - fh.padLength, 0;
    s, pad := InnerCut(p, fh.padded, e);
    fragment := fh.fragment;
    if fh.priority {
      priority := Some(p[s..s + 5]);
      CutPriority(p, s, e);
    } else {
      priority := None;
    }
  }

  /** The parser succeeds on exactly the payloads of that layout; on the others it fails on an empty
      payload without its pad length, and panics where pad length, priority fields and padding do not
      fit. */
  lemma HeadersParseExact(f: FrameBase)
    ensures ParseFrameHeader(f).Ok? <==>
            exists fragment: seq<Byte>, priority: Option<seq<Byte>>, pad: Option<seq<Byte>> ::
              LaidOutHeaders(f, fragment, priority, pad)
    ensures ParseFrameHeader(f) == Err(SlicePanic) <==>
            if FlagSet(f.flags, 0x8)
            then f.payload != [] && |f.payload| - f.payload[0] < (if FlagSet(f.flags, 0x20) then 6 else 1)
            else FlagSet(f.flags, 0x20) && |f.payload| < 5
  {
    if ParseFrameHeader(f).Ok? {
      var fragment, priority, pad := HeadersCut(f);
    }
    forall fragment: seq<Byte>, priority: Option<seq<Byte>>, pad: Option<seq<Byte>> |
      LaidOutHeaders(f, fragment, priority, pad)
      ensures ParseFrameHeader(f).Ok?
    {
      HeadersRoundTrip(f, fragment, priority, pad);
    }
  }

  function ParseFrameContinuation(f: FrameBase): FrameContinuation {
    FrameContinuation(FlagSet(f.flags, 0x4), f.payload)
  }

  // ---------------------------------------------------------------------------------------------
  // SETTINGS, section 6.5.1

  const HEADER_TABLE_SIZE := 1

  function SettingsLayout(entries: seq<Setting>): seq<Byte> {
    if entries == [] then []
    else Encode(entries[0].id, 2) + Encode(entries[0].val, 4) + SettingsLayout(entries[1..])
  }

  function TableSizes(entries: seq<Setting>): seq<Setting> {
    if entries == [] then []
    else (if entries[0].id == HEADER_TABLE_SIZE then [entries[0]] else []) + TableSizes(entries[1..])
  }

  /** The entries of a payload of whole entries. */
  function EntriesOf(p: seq<Byte>): seq<Setting>
    requires |p| % 6 == 0
  {
    if p == [] then [] else [FirstEntry(p)] + EntriesOf(p[6..])
  }

  lemma {:induction false} TableSizesOnly(entries: seq<Setting>, i: nat)
    requires i < |TableSizes(entries)|
    ensures TableSizes(entries)[i].id == HEADER_TABLE_SIZE
  {
    if entries[0].id != HEADER_TABLE_SIZE {
      TableSizesOnly(entries[1..], i);
    } else if i > 0 {
      TableSizesOnly(entries[1..], i - 1);
    }
  }

  function FirstEntry(p: seq<Byte>): Setting
    requires |p| >= 6
  {
    Setting(Decode(p[..2]), DecodeU32(p[2..6]))
  }

  /** One turn of the loop over the entries. */
  function Push(settings: seq<Setting>, e: Setting): seq<Setting> {
    if e.id == HEADER_TABLE_SIZE then settings + [e] else settings
  }

  lemma TableSizesPush(settings: seq<Setting>, e: Setting, entries: seq<Setting>)
    ensures settings + TableSizes([e] + entries) == Push(settings, e) + TableSizes(entries)
  {
    assert ([e] + entries)[1..] == entries;
  }

  /** Identifier and value, each by binary.Read. */
  method ReadSetting(p: seq<Byte>) returns (r: Result<Setting>)
    requires |p| > 0
    ensures r.Ok? <==> |p| >= 6
    ensures r.Ok? ==> r.value == FirstEntry(p)
    ensures r.Err? ==> r.error == if |p| == 2 then EOF else UnexpectedEOF
  {
    if |p| < 2 {
      return Err(UnexpectedEOF);
    }
    var identifier := Decode(p[..2]);
    if |p| == 2 {
      return Err(EOF);
    }
    if |p| < 6 {
      return Err(UnexpectedEOF);
    }
    r := Ok(Setting(identifier, DecodeU32(p[2..6])));
  }

  method ParseFrameSetting(f: FrameBase) returns (r: Result<FrameSetting>)
    ensures r.Ok? <==> |f.payload| % 6 == 0
    ensures r.Ok? ==> r.value == FrameSetting(FlagSet(f.flags, 0x1), TableSizes(EntriesOf(f.payload)))
    ensures r.Err? ==> r.error == if |f.payload| % 6 == 2 then EOF else UnexpectedEOF
  {
    var rest := f.payload;
    var settings: seq<Setting> := [];
    while |rest| > 0
      invariant |rest| % 6 == |f.payload| % 6
      invariant |rest| % 6 == 0 ==> settings + TableSizes(EntriesOf(rest)) == TableSizes(EntriesOf(f.payload))
      decreases |rest|
    {
      var e := ReadSetting(rest);
      if e.Err? {
        return Err(e.error);
      }
      if |rest| % 6 == 0 {
        TableSizesPush(settings, e.value, EntriesOf(rest[6..]));
      }
      if e.value.id == HEADER_TABLE_SIZE {
        settings := settings + [e.value];
      }
      rest := rest[6..];
    }
    r := Ok(FrameSetting(FlagSet(f.flags, 0x1), settings));
  }

  ghost predicate EntriesFit(entries: seq<Setting>) {
    forall i :: 0 <= i < |entries| ==> entries[i].id < 0x1_0000
  }

  lemma {:induction false} SettingsRoundTrip(entries: seq<Setting>)
    requires EntriesFit(entries)
    ensures |SettingsLayout(entries)| % 6 == 0 && EntriesOf(SettingsLayout(entries)) == entries
  {
    if entries != [] {
      SettingsRoundTrip(entries[1..]);
      var p := SettingsLayout(entries);
      Ranges();
      assert p[..2] == Encode(entries[0].id, 2);
      assert p[2..6] == Encode(entries[0].val, 4);
      assert p[6..] == SettingsLayout(entries[1..]);
      DecodeEncode(entries[0].id, 2);
      DecodeEncode(entries[0].val, 4);
    }
  }

  lemma EntryPrintParse(p: seq<Byte>)
    requires |p| >= 6
    ensures FirstEntry(p).id < 0x1_0000
    ensures Encode(FirstEntry(p).id, 2) == p[..2] && Encode(FirstEntry(p).val, 4) == p[2..6]
  {
    Ranges();
    EncodeDecode(p[..2]);
    EncodeDecode(p[2..6]);
  }

  lemma LayoutCons(e: Setting, entries: seq<Setting>)
    ensures SettingsLayout([e] + entries) == Encode(e.id, 2) + Encode(e.val, 4) + SettingsLayout(entries)
  {
    assert ([e] + entries)[1..] == entries;
  }

  lemma ThreeParts(p: seq<Byte>)
    requires |p| >= 6
    ensures p[..2] + p[2..6] + p[6..] == p
  {
  }

  lemma {:induction false} SettingsPrintParse(p: seq<Byte>)
    requires |p| % 6 == 0
    ensures EntriesFit(EntriesOf(p)) && SettingsLayout(EntriesOf(p)) == p
  {
    if p != [] {
      SettingsPrintParse(p[6..]);
      EntryPrintParse(p);
      LayoutCons(FirstEntry(p), EntriesOf(p[6..]));
      ThreeParts(p);
    }
  }

  // ---------------------------------------------------------------------------------------------
  // gRPC message: one compression byte, four length bytes, the message

  function ParseGRPCMessage(data: seq<Byte>): Result<GRPCMessage> {
    if |data| < 5 then Err(SlicePanic)
    else Ok(GRPCMessage(data[0], DecodeU32(data[1..5]), data[5..]))
  }

  function MessageLayout(format: Byte, message: seq<Byte>): seq<Byte> {
    [format] + Encode(|message|, 4) + message
  }

  lemma MessageRoundTrip(format: Byte, message: seq<Byte>)
    requires |message| < TWO32
    ensures ParseGRPCMessage(MessageLayout(format, message)) == Ok(GRPCMessage(format, |message|, message))
  {
    var d := MessageLayout(format, message);
    Ranges();
    assert d[1..5] == Encode(|message|, 4);
    assert d[5..] == message;
    DecodeEncode(|message|, 4);
  }

  // ---------------------------------------------------------------------------------------------
  // The frames of a byte stream

  /** Whether x starts with a whole frame. */
  predicate HasFrame(x: seq<Byte>) {
    |x| >= HEADER_SIZE && |x| >= HEADER_SIZE + Decode(x[..LENGTH_SIZE])
  }

  /** What the frame loop builds from the header and the payload it reads after it. */
  function FirstFrame(x: seq<Byte>, inputFlag: bool): FrameBase
    requires HasFrame(x)
  {
    ParseBase(x[..HEADER_SIZE], inputFlag).value
      .(payload := x[HEADER_SIZE..HEADER_SIZE + Decode(x[..LENGTH_SIZE])])
  }

  function AfterFirst(x: seq<Byte>): seq<Byte>
    requires HasFrame(x)
  {
    x[HEADER_SIZE + Decode(x[..LENGTH_SIZE])..]
  }

  /** All whole frames of x, in order. */
  function ParseFrames(x: seq<Byte>, inputFlag: bool): seq<FrameBase>
    decreases |x|
  {
    if HasFrame(x) then [FirstFrame(x, inputFlag)] + ParseFrames(AfterFirst(x), inputFlag) else []
  }

  /** The bytes after the last whole frame. */
  function Leftover(x: seq<Byte>): seq<Byte>
    decreases |x|
  {
    if HasFrame(x) then Leftover(AfterFirst(x)) else x
  }

  lemma FirstFrameExtends(x: seq<Byte>, y: seq<Byte>, inputFlag: bool)
    requires HasFrame(x)
    ensures HasFrame(x + y) && FirstFrame(x + y, inputFlag) == FirstFrame(x, inputFlag)
    ensures AfterFirst(x + y) == AfterFirst(x) + y
  {
    var n := HEADER_SIZE + Decode(x[..LENGTH_SIZE]);
    assert (x + y)[..LENGTH_SIZE] == x[..LENGTH_SIZE];
    assert (x + y)[..HEADER_SIZE] == x[..HEADER_SIZE];
    assert (x + y)[HEADER_SIZE..n] == x[HEADER_SIZE..n];
  }

  /** Parsing goes on where it stopped: more bytes only add frames behind. */
  lemma {:induction false} ParseAppend(x: seq<Byte>, y: seq<Byte>, inputFlag: bool)
    ensures ParseFrames(x + y, inputFlag) == ParseFrames(x, inputFlag) + ParseFrames(Leftover(x) + y, inputFlag)
    ensures Leftover(x + y) == Leftover(Leftover(x) + y)
    decreases |x|
  {
    if HasFrame(x) {
      FirstFrameExtends(x, y, inputFlag);
      ParseAppend(AfterFirst(x), y, inputFlag);
    }
  }

  /** The frames of a prefix are a prefix of the frames. */
  lemma ParsePrefix(x: seq<Byte>, k: nat, inputFlag: bool)
    requires k <= |x|
    ensures ParseFrames(x[..k], inputFlag) <= ParseFrames(x, inputFlag)
  {
    assert x == x[..k] + x[k..];
    ParseAppend(x[..k], x[k..], inputFlag);
  }

  /** A frame as section 4.1 lays it out. */
  function FrameLayout(f: FrameBase): seq<Byte> {
    HeaderLayout(f.length, f.kind, f.flags, false, f.streamId) + f.payload
  }

  function StreamLayout(fs: seq<FrameBase>): seq<Byte> {
    if fs == [] then [] else FrameLayout(fs[0]) + StreamLayout(fs[1..])
  }

  ghost predicate WellFormed(f: FrameBase, inputFlag: bool) {
    f.inputFlag == inputFlag && f.streamId < 0x8000_0000 && f.length == |f.payload| < 0x100_0000
  }

  /** Parsing the bytes of any list of frames returns the list, and nothing is left over. */
  lemma {:induction false} FramesRoundTrip(fs: seq<FrameBase>, inputFlag: bool)
    requires forall i :: 0 <= i < |fs| ==> WellFormed(fs[i], inputFlag)
    ensures ParseFrames(StreamLayout(fs), inputFlag) == fs && Leftover(StreamLayout(fs)) == []
  {
    if fs != [] {
      var f, rest := fs[0], StreamLayout(fs[1..]);
      var header := HeaderLayout(f.length, f.kind, f.flags, false, f.streamId);
      var x := header + f.payload + rest;
      HeaderRoundTrip(f.length, f.kind, f.flags, false, f.streamId, inputFlag);
      assert x[..HEADER_SIZE] == header;
      assert x[..LENGTH_SIZE] == header[..LENGTH_SIZE];
      assert x[HEADER_SIZE..HEADER_SIZE + f.length] == f.payload;
      assert AfterFirst(x) == rest;
      FramesRoundTrip(fs[1..], inputFlag);
    }
  }
}
