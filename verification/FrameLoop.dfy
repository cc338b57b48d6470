/** The frame loop of a connection: io.ReadFull over the buffer, one frame after another. */
module FrameLoop {
  import opened Bytes
  import opened BigEndians
  import opened Frames
  import opened T = TCPBuffers

  /** Reads until want bytes are there; got is everything read, also when it stops early. */
  method ReadFull(tcp: TCPBuffer, want: nat, preferClosed: bool) returns (got: seq<Byte>, full: bool)
    requires tcp.Valid()
    modifies tcp`size, tcp`actualCanReadSize, tcp`dataChannel, tcp`buffer, tcp`taken
    ensures tcp.Valid() && tcp.View() == old(tcp.View())
    ensures tcp.taken == old(tcp.taken) + got
    ensures full <==> |got| == want
    ensures |got| <= want
    ensures !full && !tcp.closed ==> tcp.taken == Flat(tcp.delivered)
  {
    got := [];
    while |got| < want
      invariant tcp.Valid() && tcp.View() == old(tcp.View())
      invariant tcp.taken == old(tcp.taken) + got && |got| <= want
      decreases want - |got|
    {
      var p := new Byte[want - |got|];
      var r := tcp.Read(p, preferClosed);
      match r {
        case Got(n) =>
          got := got + p[..n];
        case ErrClosed =>
          return got, false;
        case Blocked =>
          assert Flat(tcp.dataChannel) == [];
          return got, false;
      }
    }
    full := true;
  }

  /** One turn of the loop: a whole frame, or None when the bytes end inside it. */
  method NextFrame(tcp: TCPBuffer, inputFlag: bool, preferClosed: bool)
    returns (frame: Option<FrameBase>, ghost read: seq<Byte>)
    requires tcp.Valid()
    modifies tcp`size, tcp`actualCanReadSize, tcp`dataChannel, tcp`buffer, tcp`taken
    ensures tcp.Valid() && tcp.View() == old(tcp.View())
    ensures tcp.taken == old(tcp.taken) + read
    ensures frame.Some? ==> ParseFrames(read, inputFlag) == [frame.value] && Leftover(read) == [] && read != []
    ensures frame.None? ==> ParseFrames(read, inputFlag) == [] && (!tcp.closed ==> tcp.taken == Flat(tcp.delivered))
  {
    var header, ok := ReadFull(tcp, HEADER_SIZE, preferClosed);
    read := header;
    if !ok {
      return None, read;
    }
    var r := ParseFrameBase(header, inputFlag);
    var fb := r.value;
    var payload: seq<Byte> := [];
    if fb.length > 0 {
      payload, ok := ReadFull(tcp, fb.length, preferClosed);
      read := header + payload;
      assert tcp.taken == old(tcp.taken) + read;
      if !ok {
        assert read[..LENGTH_SIZE] == header[..LENGTH_SIZE];
        return None, read;
      }
    } else {
      assert header + payload == header;
    }
    OneFrame(header, payload, inputFlag);
    frame := Some(fb.(payload := payload));
  }

  /** Runs until the buffer has no more bytes, or is closed. The frames handed on are exactly the
      whole frames of the bytes read. */
  method DealInput(tcp: TCPBuffer, inputFlag: bool, preferClosed: bool)
    returns (frames: seq<FrameBase>, ghost read: seq<Byte>)
    requires tcp.Valid()
    modifies tcp`size, tcp`actualCanReadSize, tcp`dataChannel, tcp`buffer, tcp`taken
    ensures tcp.Valid() && tcp.View() == old(tcp.View())
    ensures tcp.taken == old(tcp.taken) + read
    ensures frames == ParseFrames(read, inputFlag)
    ensures !tcp.closed ==> tcp.taken == Flat(tcp.delivered)
  {
    frames, read := [], [];
    while true
      invariant tcp.Valid() && tcp.View() == old(tcp.View())
      invariant tcp.taken == old(tcp.taken) + read
      invariant frames == ParseFrames(read, inputFlag) && Leftover(read) == []
      decreases |Flat(tcp.delivered)| - |tcp.taken|
    {
      var frame, more := NextFrame(tcp, inputFlag, preferClosed);
      ParseAppend(read, more, inputFlag);
      assert [] + more == more;
      Assoc(old(tcp.taken), read, more);
      read := read + more;
      if frame.None? {
        return;
      }
      frames := frames + [frame.value];
    }
  }

  lemma OneFrame(header: seq<Byte>, payload: seq<Byte>, inputFlag: bool)
    requires |header| == HEADER_SIZE && |payload| == Decode(header[..LENGTH_SIZE])
    ensures ParseFrames(header + payload, inputFlag) == [ParseBase(header, inputFlag).value.(payload := payload)]
    ensures Leftover(header + payload) == []
  {
    var x := header + payload;
    assert x[..LENGTH_SIZE] == header[..LENGTH_SIZE];
    assert x[..HEADER_SIZE] == header;
    assert x[HEADER_SIZE..HEADER_SIZE + |payload|] == payload;
    assert AfterFirst(x) == [];
  }
}
