/** The reassembly buffer: a window, a list of pending segments, a channel to one reader. */
module TCPBuffers {
  import opened Bytes
  import opened SequenceNumbers
  import R = Reassembly

  /** What Read reports. Blocked stands for "waits": no byte, no packet, not closed. */
  datatype ReadResult = Got(n: nat) | ErrClosed | Blocked

  class TCPBuffer {
    var size: int
    var actualCanReadSize: int
    var list: map<U32, seq<Byte>>
    var expectedSeq: U32
    var dataChannel: seq<seq<Byte>>
    var closed: bool
    var buffer: seq<Byte>

    /** Every payload pushed to the channel, and every byte handed out by Read, since creation. */
    ghost var delivered: seq<seq<Byte>>
    ghost var taken: seq<Byte>

    ghost predicate Valid()
      reads this
    {
      && Flat(delivered) == taken + buffer + Flat(dataChannel)
      && actualCanReadSize == |buffer| + |Flat(dataChannel)|
      && size == actualCanReadSize + TotalBytes(list)
      && R.NonEmptyPayloads(list)
      && NoneEmpty(dataChannel)
    }

    ghost function View(): R.View
      reads this
    {
      R.View(expectedSeq, list, delivered)
    }

    constructor ()
      ensures Valid() && View() == R.Fresh(0) && taken == [] && buffer == [] && dataChannel == [] && !closed
    {
      size, actualCanReadSize, list, expectedSeq := 0, 0, map[], 0;
      dataChannel, closed, buffer := [], false, [];
      delivered, taken := [], [];
    }

    method SetExpectedSeq(seqNo: U32)
      requires Valid()
      modifies this`expectedSeq
      ensures Valid() && View() == old(View()).(expected := seqNo)
    {
      expectedSeq := seqNo;
    }

    method Close()
      requires Valid()
      modifies this`closed
      ensures Valid() && closed && View() == old(View())
    {
      closed := true;
    }

    /** Takes what fits in p from the residual buffer, first refilling it from the channel when it
        is empty. When the buffer is closed and data waits as well, either may be chosen. */
    method Read(p: array<Byte>, preferClosed: bool) returns (r: ReadResult)
      requires Valid()
      modifies p, this`size, this`actualCanReadSize, this`dataChannel, this`buffer, this`taken
      ensures Valid() && View() == old(View())
      ensures r.Got? ==> r.n <= p.Length && (p.Length > 0 ==> r.n > 0)
      ensures r.Got? ==> taken == old(taken) + p[..r.n] && p[r.n..] == old(p[r.n..])
      ensures r.Got? ==> size == old(size) - r.n && actualCanReadSize == old(actualCanReadSize) - r.n
      ensures !r.Got? ==> taken == old(taken) && p[..] == old(p[..]) && size == old(size)
      ensures r.Got? <==> old(buffer != [] || (dataChannel != [] && !(closed && preferClosed)))
      ensures r.Blocked? <==> old(buffer == [] && dataChannel == [] && !closed)
    {
      if buffer == [] {
        if closed && (preferClosed || dataChannel == []) {
          return ErrClosed;
        }
        if dataChannel == [] {
          return Blocked;
        }
        buffer, dataChannel := dataChannel[0], dataChannel[1..];
      }
      ghost var before := buffer;
      assert Flat(delivered) == taken + before + Flat(dataChannel);
      var n := BufferRead(p);
      MoveSplit(taken, before, n);
      taken := taken + before[..n];
      UpdateCounters(n);
      r := Got(n);
    }

    static lemma MoveSplit(t: seq<Byte>, b: seq<Byte>, n: nat)
      requires n <= |b|
      ensures t + b == t + b[..n] + b[n..]
    {
      assert b == b[..n] + b[n..];
    }

    /** bytes.Buffer.Read: moves what fits from the front of the residual buffer into p. */
    method BufferRead(p: array<Byte>) returns (n: nat)
      modifies p, this`buffer
      ensures n == if p.Length < |old(buffer)| then p.Length else |old(buffer)|
      ensures p[..n] == old(buffer)[..n] && p[n..] == old(p[n..])
      ensures buffer == old(buffer)[n..]
    {
      n := if p.Length < |buffer| then p.Length else |buffer|;
      forall i | 0 <= i < n {
        p[i] := buffer[i];
      }
      buffer := buffer[n..];
    }

    method UpdateCounters(n: nat)
      modifies this`size, this`actualCanReadSize
      ensures size == old(size) - n && actualCanReadSize == old(actualCanReadSize) - n
    {
      size := size - n;
      actualCanReadSize := actualCanReadSize - n;
    }

    /** Entries are taken out of the list only after the loop; the result is that of taking each
        out as it is delivered. */
    method AddTCP(tcpPkg: R.Segment)
      requires Valid() && tcpPkg.payload != []
      requires R.LoopEnds(View(), tcpPkg)
      modifies this`size, this`actualCanReadSize, this`list, this`expectedSeq, this`dataChannel, this`delivered
      ensures Valid() && View() == R.Accept(old(View()), tcpPkg)
      ensures size == old(size) + if R.Admits(old(View()), tcpPkg) then |tcpPkg.payload| else 0
    {
      if !ValidPackage(expectedSeq, WINDOW, tcpPkg.seqNo) {
        return;
      }
      if tcpPkg.seqNo in list {
        return;
      }
      Enlist(tcpPkg);
      if expectedSeq == tcpPkg.seqNo {
        DeliverAndRemove(tcpPkg);
      }
    }

    method Enlist(tcpPkg: R.Segment)
      requires Valid() && tcpPkg.payload != [] && tcpPkg.seqNo !in list
      modifies this`size, this`list
      ensures Valid() && View() == R.Insert(old(View()), tcpPkg)
      ensures size == old(size) + |tcpPkg.payload|
    {
      TotalBytesAdd(list, tcpPkg.seqNo, tcpPkg.payload);
      list := list[tcpPkg.seqNo := tcpPkg.payload];
      size := size + |tcpPkg.payload|;
    }

    method DeliverAndRemove(tcpPkg: R.Segment)
      requires Valid()
      requires expectedSeq == tcpPkg.seqNo && expectedSeq in list && list[expectedSeq] == tcpPkg.payload
      requires R.Drain(View()).expected !in list
      modifies this`actualCanReadSize, this`list, this`expectedSeq, this`dataChannel, this`delivered
      ensures Valid() && View() == R.Drain(old(View()))
    {
      var needRemove, out := Deliver(tcpPkg);
      RemoveAll(needRemove);
      FlatAppend(old(delivered), out);
      FlatAppend(old(dataChannel), out);
    }

    /** The delivery loop, entered with the new segment at the expected number. */
    method Deliver(tcpPkg: R.Segment) returns (needRemove: seq<U32>, ghost out: seq<seq<Byte>>)
      requires R.NonEmptyPayloads(list)
      requires expectedSeq == tcpPkg.seqNo && expectedSeq in list && list[expectedSeq] == tcpPkg.payload
      requires R.Drain(View()).expected !in list
      modifies this`actualCanReadSize, this`expectedSeq, this`dataChannel, this`delivered
      ensures dataChannel == old(dataChannel) + out && delivered == old(delivered) + out
      ensures actualCanReadSize == old(actualCanReadSize) + |Flat(out)|
      ensures |Flat(out)| + TotalBytes(R.Rest(list, needRemove)) == TotalBytes(list)
      ensures NoneEmpty(out)
      ensures R.View(expectedSeq, R.Rest(list, needRemove), delivered) == R.Drain(old(View()))
    {
      ghost var end := R.Drain(View());
      needRemove, out := [], [];
      var cur := Some(tcpPkg);
      assert R.Rest(list, []) == list;
      while cur.Some? && expectedSeq == cur.value.seqNo
        invariant cur == if expectedSeq in list then Some(R.Segment(expectedSeq, list[expectedSeq])) else None
        invariant expectedSeq in list ==> expectedSeq in R.Rest(list, needRemove)
        invariant R.Drain(R.View(expectedSeq, R.Rest(list, needRemove), delivered)) == end
        invariant dataChannel == old(dataChannel) + out && delivered == old(delivered) + out
        invariant actualCanReadSize == old(actualCanReadSize) + |Flat(out)|
        invariant |Flat(out)| + TotalBytes(R.Rest(list, needRemove)) == TotalBytes(list)
        invariant NoneEmpty(out)
        decreases |R.Rest(list, needRemove)|
      {
        var pkg := cur.value;
        DeliverStep(R.View(expectedSeq, list, delivered), needRemove);
        SnocFacts(old(dataChannel), out, pkg.payload);
        SnocFacts(old(delivered), out, pkg.payload);
        Push(pkg);
        out := out + [pkg.payload];
        needRemove := needRemove + [pkg.seqNo];
        cur := if expectedSeq in list then Some(R.Segment(expectedSeq, list[expectedSeq])) else None;
      }
    }

    method Push(pkg: R.Segment)
      modifies this`actualCanReadSize, this`expectedSeq, this`dataChannel, this`delivered
      ensures actualCanReadSize == old(actualCanReadSize) + |pkg.payload|
      ensures expectedSeq == Advance(pkg.seqNo, |pkg.payload|)
      ensures dataChannel == old(dataChannel) + [pkg.payload] && delivered == old(delivered) + [pkg.payload]
    {
      actualCanReadSize := actualCanReadSize + |pkg.payload|;
      expectedSeq := Advance(pkg.seqNo, |pkg.payload|);
      dataChannel := dataChannel + [pkg.payload];
      delivered := delivered + [pkg.payload];
    }

    /** One round: v still lists the entries in gone, which have been delivered. */
    static lemma DeliverStep(v: R.View, gone: seq<U32>)
      requires v.expected in R.Rest(v.pending, gone)
      requires R.Drain(v.(pending := R.Rest(v.pending, gone))).expected !in v.pending
      ensures var p := v.pending[v.expected];
              var next := R.View(Advance(v.expected, |p|), R.Rest(v.pending, gone + [v.expected]), v.delivered + [p]);
              && R.Drain(next) == R.Drain(v.(pending := R.Rest(v.pending, gone)))
              && (next.expected in v.pending ==> next.expected in next.pending)
              && TotalBytes(R.Rest(v.pending, gone)) == |p| + TotalBytes(next.pending)
              && |next.pending| < |R.Rest(v.pending, gone)|
    {
      var rest := R.Rest(v.pending, gone);
      assert R.Rest(v.pending, gone + [v.expected]) == rest - {v.expected};
      TotalBytesRemove(rest, v.expected);
      MapShrinks(rest, v.expected);
    }

    method RemoveAll(gone: seq<U32>)
      modifies this`list
      ensures list == R.Rest(old(list), gone)
    {
      for i := 0 to |gone|
        invariant list == R.Rest(old(list), gone[..i])
      {
        list := list - {gone[i]};
        assert gone[..i + 1] == gone[..i] + [gone[i]];
      }
      assert gone[..|gone|] == gone;
    }
  }
}
