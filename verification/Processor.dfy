/** The packet loop over its own maps: connection states are objects that the loop updates in
    place; the buffers of a connection are kept by the value that TCPBuffer implements. */
module Processors {
  import opened Bytes
  import opened SequenceNumbers
  import opened StateMachine
  import opened Tracker
  import R = Reassembly
  import TI = TrackerInvariants

  class TCPConnectionState {
    const dc: DirectConn
    var state: ConnState
    var states: seq<ConnState>

    constructor (dc: DirectConn)
      ensures this.dc == dc && Value() == NewEntry(dc)
    {
      this.dc, state, states := dc, Listen, [Listen];
    }

    function Value(): Entry
      reads this
    {
      Entry(dc, state, states)
    }
  }

  /** The delivery loop that feeding p would start ends. */
  predicate FeedEnds(b: Buffers, recordResponse: bool, p: NetPkg) {
    && (p.direction == DirIncoming && !IsConnPreface(p.payload) ==>
          R.LoopEnds(b.input, R.Segment(p.seqNo, p.payload)))
    && (p.direction == DirOutcoming && recordResponse ==>
          R.LoopEnds(b.output, R.Segment(p.seqNo, p.payload)))
  }

  predicate PkgEnds(t: Tracked, recordResponse: bool, p: NetPkg) {
    TI.IsFed(t, Pkt(p), Key(p)) && Key(p) in t.connRepository
    ==> FeedEnds(t.connRepository[Key(p)], recordResponse, p)
  }

  function Packets(ps: seq<NetPkg>): seq<Input> {
    seq(|ps|, i requires 0 <= i < |ps| => Pkt(ps[i]))
  }

  ghost predicate RunEnds(t: Tracked, recordResponse: bool, ps: seq<NetPkg>) {
    forall i :: 0 <= i < |ps| ==> PkgEnds(Run(t, recordResponse, Packets(ps[..i])), recordResponse, ps[i])
  }

  lemma OneMore(t: Tracked, recordResponse: bool, ps: seq<NetPkg>, i: nat)
    requires i < |ps|
    ensures var before := Run(t, recordResponse, Packets(ps[..i]));
            var after := StepPkg(before, recordResponse, ps[i]);
            Run(t, recordResponse, Packets(ps[..i + 1])) == after && (TI.Consistent(before) ==> TI.Consistent(after))
  {
    var before := Run(t, recordResponse, Packets(ps[..i]));
    assert Packets(ps[..i + 1])[..i] == Packets(ps[..i]);
    if TI.Consistent(before) {
      TI.StepConsistent(before, recordResponse, Pkt(ps[i]));
    }
  }

  // ---------------------------------------------------------------------------------------------
  // All loops end as long as less than a turn of the sequence space was fed to a buffer

  /** The bytes that packets of one direction fed to a connection since its buffers were made. */
  function FedBytes(recordResponse: bool, xs: seq<Input>, c: DirectConn, dir: Dir): nat {
    if xs == [] then 0
    else
      var before, x := xs[..|xs| - 1], xs[|xs| - 1];
      var t := Run(EMPTY, recordResponse, before);
      if c !in t.connRepository then 0
      else FedBytes(recordResponse, before, c, dir)
           + if TI.IsFed(t, x, c) && x.pkg.direction == dir then |x.pkg.payload| else 0
  }

  ghost predicate SmallView(v: R.View, n: nat) {
    R.NonEmptyPayloads(v.pending) && TotalBytes(v.pending) <= n
  }

  lemma AcceptSmall(v: R.View, s: R.Segment, n: nat)
    requires SmallView(v, n) && s.payload != []
    ensures SmallView(R.Accept(v, s), n + |s.payload|)
  {
    if R.Admits(v, s) {
      var w := R.Insert(v, s);
      TotalBytesAdd(v.pending, s.seqNo, s.payload);
      R.DrainKeeps(w);
      var more := R.Drain(w).delivered[|w.delivered|..];
      assert R.Drain(w).delivered == w.delivered + more;
      FlatAppend(w.delivered, more);
    }
  }

  lemma FeedSmall(b: Buffers, recordResponse: bool, p: NetPkg, n: nat, m: nat)
    requires SmallView(b.input, n) && SmallView(b.output, m) && p.payload != []
    ensures SmallView(Feed(b, recordResponse, p).input, n + if p.direction == DirIncoming then |p.payload| else 0)
    ensures SmallView(Feed(b, recordResponse, p).output, m + if p.direction == DirOutcoming then |p.payload| else 0)
  {
    AcceptSmall(b.input, R.Segment(p.seqNo, p.payload), n);
    AcceptSmall(b.output, R.Segment(p.seqNo, p.payload), m);
  }

  /** Nothing more is pending than was fed. */
  lemma {:induction false} RunSmall(recordResponse: bool, xs: seq<Input>, c: DirectConn)
    ensures c in Run(EMPTY, recordResponse, xs).connRepository ==>
              var b := Run(EMPTY, recordResponse, xs).connRepository[c];
              && SmallView(b.input, FedBytes(recordResponse, xs, c, DirIncoming))
              && SmallView(b.output, FedBytes(recordResponse, xs, c, DirOutcoming))
    decreases |xs|
  {
    if xs != [] {
      var before, x := xs[..|xs| - 1], xs[|xs| - 1];
      var t := Run(EMPTY, recordResponse, before);
      RunSmall(recordResponse, before, c);
      TI.TwoMaps(recordResponse, before);
      TI.StepBuffers(t, recordResponse, x, c);
      if c in t.connRepository && TI.IsFed(t, x, c) {
        FeedSmall(t.connRepository[c], recordResponse, x.pkg,
                  FedBytes(recordResponse, before, c, DirIncoming), FedBytes(recordResponse, before, c, DirOutcoming));
      }
    }
  }

  /** Less than 2^32-1 bytes were fed to the packet's buffer since the connection's last handshake. */
  predicate Short(recordResponse: bool, xs: seq<Input>, p: NetPkg) {
    FedBytes(recordResponse, xs, Key(p), p.direction) + |p.payload| < MAX_U32
  }

  lemma ShortEnds(recordResponse: bool, xs: seq<Input>, p: NetPkg)
    ensures Short(recordResponse, xs, p) ==> PkgEnds(Run(EMPTY, recordResponse, xs), recordResponse, p)
  {
    var t, c := Run(EMPTY, recordResponse, xs), Key(p);
    RunSmall(recordResponse, xs, c);
    if Short(recordResponse, xs, p) && TI.IsFed(t, Pkt(p), c) && c in t.connRepository {
      if p.direction == DirIncoming {
        R.FewBytesEnd(t.connRepository[c].input, R.Segment(p.seqNo, p.payload));
      } else if p.direction == DirOutcoming {
        R.FewBytesEnd(t.connRepository[c].output, R.Segment(p.seqNo, p.payload));
      }
    }
  }

  ghost predicate AllShort(recordResponse: bool, ps: seq<NetPkg>) {
    forall i :: 0 <= i < |ps| ==> Short(recordResponse, Packets(ps[..i]), ps[i])
  }

  /** Every delivery loop ends in every run that feeds each buffer, between two handshakes of its
      connection, less than 2^32-1 bytes. */
  lemma ShortRunEnds(recordResponse: bool, ps: seq<NetPkg>)
    ensures AllShort(recordResponse, ps) ==> RunEnds(EMPTY, recordResponse, ps)
  {
    forall i | 0 <= i < |ps| && AllShort(recordResponse, ps)
      ensures PkgEnds(Run(EMPTY, recordResponse, Packets(ps[..i])), recordResponse, ps[i])
    {
      ShortEnds(recordResponse, Packets(ps[..i]), ps[i]);
    }
  }

  class Processor {
    const recordResponse: bool
    var connStates: map<DirectConn, TCPConnectionState>
    var connRepository: map<DirectConn, Buffers>

    /** What the states stand for, and their objects. */
    ghost var entryOf: map<DirectConn, Entry>
    ghost var entries: set<TCPConnectionState>

    /** Every state object is found under its own connection. */
    ghost predicate Valid()
      reads this, entries
    {
      && (forall k :: k in connStates <==> k in entryOf)
      && (forall k :: k in connStates ==>
            connStates[k] in entries && connStates[k].dc == k && connStates[k].Value() == entryOf[k])
    }

    ghost function Value(): Tracked
      reads this
    {
      Tracked(entryOf, connRepository)
    }

    constructor (recordResponse: bool)
      ensures Valid() && Value() == EMPTY && this.recordResponse == recordResponse && entries == {}
    {
      this.recordResponse := recordResponse;
      connStates, connRepository := map[], map[];
      entryOf, entries := map[], {};
    }

    /** OnEnter. */
    method Enter(ts: TCPConnectionState, to: ConnState, p: NetPkg)
      requires Valid() && ts.dc in connStates && connStates[ts.dc] == ts
      modifies this`connStates, this`connRepository, this`entryOf, ts
      ensures Valid() && ts.state == to
      ensures Value() == Tracker.Enter(old(Value()), ts.dc, to, p)
      ensures to != Closed ==> connStates == old(connStates)
    {
      ts.state := to;
      ts.states := ts.states + [to];
      entryOf := entryOf[ts.dc := ts.Value()];
      if to == Established {
        connRepository := connRepository[ts.dc := NewBuffers(p)];
      } else if to == Closed {
        Close(ts.dc);
      }
    }

    method Close(dc: DirectConn)
      requires Valid()
      modifies this`connStates, this`connRepository, this`entryOf
      ensures Valid() && Value() == Tracked(old(entryOf) - {dc}, old(connRepository) - {dc})
    {
      connStates := connStates - {dc};
      entryOf := entryOf - {dc};
      connRepository := connRepository - {dc};
    }

    method HandleConnectionState(ts: TCPConnectionState, p: NetPkg)
      requires Valid() && ts.dc in connStates && connStates[ts.dc] == ts && ts.state != Closed
      modifies this`connStates, this`connRepository, this`entryOf, ts
      ensures Valid()
      ensures Value() == HandleState(old(Value()), ts.dc, p)
      ensures if ts.state == Closed then ts.dc !in entryOf else ts.dc in entryOf && entryOf[ts.dc] == ts.Value()
    {
      var e := EventOf(p);
      if e.Some? {
        var to := Transition(ts.state, e.value);
        if to.Some? && to.value != ts.state {
          Enter(ts, to.value, p);
        }
      }
    }

    method ProcessIncomingTCPPkg(p: NetPkg)
      requires p.direction == DirIncoming
      modifies this`connRepository
      ensures Value() == ProcessPayload(old(Value()), recordResponse, p)
    {
      if p.dc !in connRepository {
        return;
      }
      var hc := connRepository[p.dc];
      var input := if IsConnPreface(p.payload)
                   then hc.input.(expected := Advance(p.seqNo, |p.payload|))
                   else R.Accept(hc.input, R.Segment(p.seqNo, p.payload));
      connRepository := connRepository[p.dc := hc.(input := input)];
    }

    method ProcessOutComingTCPPkg(p: NetPkg)
      requires p.direction == DirOutcoming && recordResponse
      modifies this`connRepository
      ensures Value() == ProcessPayload(old(Value()), recordResponse, p)
    {
      var rDirect := Reverse(p.dc);
      if rDirect !in connRepository {
        return;
      }
      var hc := connRepository[rDirect];
      connRepository := connRepository[rDirect := hc.(output := R.Accept(hc.output, R.Segment(p.seqNo, p.payload)))];
    }

    /** The entry of the packet's connection, made now if there is none. */
    method Lookup(dc: DirectConn) returns (ts: TCPConnectionState)
      requires Valid()
      modifies this`connStates, this`entryOf, this`entries
      ensures Valid() && dc in connStates && connStates[dc] == ts && ts.dc == dc
      ensures fresh(entries - old(entries))
      ensures entryOf == if dc in old(entryOf) then old(entryOf) else old(entryOf)[dc := NewEntry(dc)]
    {
      if dc !in connStates {
        var entry := new TCPConnectionState(dc);
        connStates := connStates[dc := entry];
        entries := entries + {entry};
        entryOf := entryOf[dc := NewEntry(dc)];
      }
      ts := connStates[dc];
    }

    /** The second half of a turn: the payload of an established connection. */
    method ProcessData(ts: TCPConnectionState, p: NetPkg)
      requires if ts.state == Closed then Key(p) !in entryOf else Key(p) in entryOf && entryOf[Key(p)] == ts.Value()
      modifies this`connRepository
      ensures Value() == Tracker.ProcessData(old(Value()), recordResponse, p)
    {
      if ts.state == Established && p.payload != [] {
        if p.direction == DirIncoming {
          ProcessIncomingTCPPkg(p);
        } else if recordResponse && p.direction == DirOutcoming {
          ProcessOutComingTCPPkg(p);
        } else {
          FeedsNothing(Value(), p);
        }
      }
    }

    lemma FeedsNothing(t: Tracked, p: NetPkg)
      ensures p.direction == DirUnknown || (p.direction == DirOutcoming && !recordResponse) ==>
                ProcessPayload(t, recordResponse, p) == t
    {
      if Key(p) in t.connRepository {
        assert t.connRepository[Key(p) := t.connRepository[Key(p)]] == t.connRepository;
      }
    }

    /** One turn of the packet loop. */
    method ProcessPkg(p: NetPkg)
      requires Valid() && TI.Consistent(Value()) && PkgEnds(Value(), recordResponse, p)
      modifies this, entries
      ensures Valid() && fresh(entries - old(entries))
      ensures Value() == StepPkg(old(Value()), recordResponse, p)
    {
      var dc := if p.direction == DirOutcoming then Reverse(p.dc) else p.dc;
      var ts := Lookup(dc);
      assert Value() == WithEntry(old(Value()), dc);
      assert entryOf[dc].state != Closed;
      HandleConnectionState(ts, p);
      ProcessData(ts, p);
    }

    /** The packet loop. */
    method ProcessTCPPkg(ps: seq<NetPkg>)
      requires Valid() && TI.Consistent(Value()) && RunEnds(Value(), recordResponse, ps)
      modifies this, entries
      ensures Valid() && fresh(entries - old(entries))
      ensures Value() == Run(old(Value()), recordResponse, Packets(ps)) && TI.Consistent(Value())
    {
      for i := 0 to |ps|
        invariant Valid() && fresh(entries - old(entries))
        invariant TI.Consistent(Value())
        invariant Value() == Run(old(Value()), recordResponse, Packets(ps[..i]))
      {
        OneMore(old(Value()), recordResponse, ps, i);
        ProcessPkg(ps[i]);
      }
      assert ps[..|ps|] == ps;
    }

    /** A GOAWAY frame drops the connection's buffers and leaves its state. */
    method ProcessFrameGoAway(dc: DirectConn)
      requires Valid()
      modifies this`connRepository
      ensures Valid() && Value() == Step(old(Value()), recordResponse, GoAway(dc))
    {
      connRepository := connRepository - {dc};
    }
  }
}
