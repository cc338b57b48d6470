/** The life of a tracked connection, in terms of packet flags: which packets open it, keep it, close it. */
module ConnectionLife {
  import opened Bytes
  import opened SequenceNumbers
  import opened StateMachine
  import opened Teardown
  import opened Tracker
  import opened TrackerInvariants
  import R = Reassembly

  // ---------------------------------------------------------------------------------------------
  // The seven kinds of packets that mean something, each by its own flags

  predicate Incoming(p: NetPkg) {
    p.direction == DirIncoming && p.payload == []
  }

  predicate Outgoing(p: NetPkg) {
    p.direction == DirOutcoming && p.payload == []
  }

  predicate IsSyn(p: NetPkg) {
    Incoming(p) && p.syn
  }

  predicate IsSynAck(p: NetPkg) {
    Outgoing(p) && p.syn && p.ack
  }

  /** A FIN of the client, with or without ACK and RST. */
  predicate IsFin(p: NetPkg) {
    Incoming(p) && p.fin && !p.syn
  }

  predicate IsFinSent(p: NetPkg) {
    Outgoing(p) && p.fin && !(p.syn && p.ack)
  }

  /** A reset by the client, with or without ACK. */
  predicate IsReset(p: NetPkg) {
    Incoming(p) && p.rst && !p.syn && !p.fin
  }

  predicate IsAck(p: NetPkg) {
    Incoming(p) && p.ack && !p.syn && !p.fin && !p.rst
  }

  predicate IsAckSent(p: NetPkg) {
    Outgoing(p) && p.ack && !p.syn && !p.fin
  }

  lemma EventByFlags(p: NetPkg)
    ensures EventOf(p) == Some(ReceiveSYN) <==> IsSyn(p)
    ensures EventOf(p) == Some(SendSYNACK) <==> IsSynAck(p)
    ensures EventOf(p) == Some(ReceiveFIN) <==> IsFin(p)
    ensures EventOf(p) == Some(SendFIN) <==> IsFinSent(p)
    ensures EventOf(p) == Some(ReceiveRST) <==> IsReset(p)
    ensures EventOf(p) == Some(ReceiveACK) <==> IsAck(p)
    ensures EventOf(p) == Some(SendACK) <==> IsAckSent(p)
  {
  }

  // ---------------------------------------------------------------------------------------------
  // One packet

  /** The state of a connection; LISTEN if nothing is known of it. */
  function StateOf(t: Tracked, c: DirectConn): ConnState {
    if c in t.connStates then t.connStates[c].state else Listen
  }

  predicate Unknown(t: Tracked, c: DirectConn) {
    c !in t.connStates && c !in t.connRepository
  }

  lemma StepOwn(t: Tracked, recordResponse: bool, p: NetPkg)
    requires Consistent(t)
    ensures var u := StepPkg(t, recordResponse, p);
            Project(u, Key(p)) == LocalPkg(Project(t, Key(p)), recordResponse, p)
  {
    StepIsLocal(t, recordResponse, Pkt(p), Key(p));
  }

  /** Before the handshake is complete: a SYN, a SYN+ACK and an ACK without other flags each bring it
      one step further, in that order only; the ACK makes buffers that expect the number after its
      own and the number it acknowledges. A reset before the SYN ends it. Nothing else matters. */
  lemma OpeningByFlags(t: Tracked, recordResponse: bool, p: NetPkg)
    requires Consistent(t) && Rank(StateOf(t, Key(p))) < 3
    ensures var c, s, u := Key(p), StateOf(t, Key(p)), StepPkg(t, recordResponse, p);
            && (s == Listen && IsSyn(p) ==> StateOf(u, c) == SynReceived1)
            && (s == Listen && IsReset(p) ==> Unknown(u, c))
            && (s == Listen && !IsSyn(p) && !IsReset(p) ==> c in u.connStates && u.connStates[c].state == Listen)
            && (s == SynReceived1 ==> StateOf(u, c) == if IsSynAck(p) then SynReceived2 else SynReceived1)
            && (s == SynReceived2 ==> StateOf(u, c) == if IsAck(p) then Established else SynReceived2)
            && (c in u.connRepository <==> s == SynReceived2 && IsAck(p))
            && (c in u.connRepository ==>
                  u.connRepository[c] == Buffers(R.Fresh((p.seqNo + 1) % 0x1_0000_0000), R.Fresh(p.ackNo)))
  {
    StepOwn(t, recordResponse, p);
    EventByFlags(p);
    OpeningLocal(Project(t, Key(p)), recordResponse, p);
  }

  lemma OpeningLocal(l: Local, recordResponse: bool, p: NetPkg)
    requires LocalOk(Key(p), l) && (l.entry.Some? ==> Rank(l.entry.value.state) < 3)
    ensures var s := if l.entry.Some? then l.entry.value.state else Listen;
            var l' := LocalPkg(l, recordResponse, p);
            && (s == Listen && IsSyn(p) ==> l'.entry.Some? && l'.entry.value.state == SynReceived1)
            && (s == Listen && IsReset(p) ==> l' == Local(None, None))
            && (s == Listen && !IsSyn(p) && !IsReset(p) ==> l'.entry.Some? && l'.entry.value.state == Listen)
            && (s == SynReceived1 ==>
                  l'.entry.Some? && l'.entry.value.state == if IsSynAck(p) then SynReceived2 else SynReceived1)
            && (s == SynReceived2 ==>
                  l'.entry.Some? && l'.entry.value.state == if IsAck(p) then Established else SynReceived2)
            && (l'.buffers == if s == SynReceived2 && IsAck(p) then Some(NewBuffers(p)) else None)
  {
    EventByFlags(p);
  }

  /** An open connection: only the client's FIN, which goes to CLOSE_WAIT, and its reset, which takes
      the connection out of both maps, end it. A payload-free packet changes no buffer. */
  lemma OpenByFlags(t: Tracked, recordResponse: bool, p: NetPkg)
    requires Consistent(t) && StateOf(t, Key(p)) == Established
    ensures var c, u := Key(p), StepPkg(t, recordResponse, p);
            && (IsFin(p) ==> StateOf(u, c) == CloseWait)
            && (IsReset(p) ==> Unknown(u, c))
            && (!IsFin(p) && !IsReset(p) ==> StateOf(u, c) == Established)
            && (p.payload == [] && !IsReset(p) ==> Project(u, c).buffers == Project(t, c).buffers)
  {
    StepOwn(t, recordResponse, p);
    OpenLocal(Project(t, Key(p)), recordResponse, p);
  }

  lemma OpenLocal(l: Local, recordResponse: bool, p: NetPkg)
    requires LocalOk(Key(p), l) && l.entry.Some? && l.entry.value.state == Established
    ensures var l' := LocalPkg(l, recordResponse, p);
            if IsReset(p) then l' == Local(None, None) else
              && l'.entry.Some? && l'.entry.value.state == (if IsFin(p) then CloseWait else Established)
              && (p.payload == [] ==> l'.buffers == l.buffers)
  {
    EventByFlags(p);
  }

  /** A closing connection: the server's FIN goes from CLOSE_WAIT to LAST_ACK, an ACK without other
      flags from there out of both maps. Nothing else matters, payloads included. */
  lemma ClosingByFlags(t: Tracked, recordResponse: bool, p: NetPkg)
    requires Consistent(t) && StateOf(t, Key(p)) in [CloseWait, LastAck]
    ensures var c, s, u := Key(p), StateOf(t, Key(p)), StepPkg(t, recordResponse, p);
            && (s == CloseWait ==> StateOf(u, c) == if IsFinSent(p) then LastAck else CloseWait)
            && (s == LastAck && IsAck(p) ==> Unknown(u, c))
            && (s == LastAck && !IsAck(p) ==> StateOf(u, c) == LastAck)
            && (!(s == LastAck && IsAck(p)) ==> Project(u, c).buffers == Project(t, c).buffers)
  {
    StepOwn(t, recordResponse, p);
    ClosingLocal(Project(t, Key(p)), recordResponse, p);
  }

  lemma ClosingLocal(l: Local, recordResponse: bool, p: NetPkg)
    requires LocalOk(Key(p), l) && l.entry.Some? && l.entry.value.state in [CloseWait, LastAck]
    ensures var s, l' := l.entry.value.state, LocalPkg(l, recordResponse, p);
            if s == LastAck && IsAck(p) then l' == Local(None, None) else
              && l'.entry.Some? && l'.buffers == l.buffers
              && l'.entry.value.state == if s == CloseWait && IsFinSent(p) then LastAck else s
  {
    EventByFlags(p);
  }

  // ---------------------------------------------------------------------------------------------
  // Many packets

  /** What one packet does to a connection's state, whatever other connections do. */
  lemma NextOwn(recordResponse: bool, xs: seq<Input>, p: NetPkg)
    ensures Consistent(Run(EMPTY, recordResponse, xs))
    ensures Run(EMPTY, recordResponse, xs + [Pkt(p)]) == StepPkg(Run(EMPTY, recordResponse, xs), recordResponse, p)
  {
    TwoMaps(recordResponse, xs);
    assert (xs + [Pkt(p)])[..|xs|] == xs;
  }

  /** The three packets of the handshake. */
  predicate Opens(s: NetPkg, sa: NetPkg, a: NetPkg) {
    IsSyn(s) && IsSynAck(sa) && IsAck(a) && Key(s) == Key(sa) == Key(a)
  }

  lemma OneFurther(recordResponse: bool, xs: seq<Input>, p: NetPkg)
    requires Rank(StateOf(Run(EMPTY, recordResponse, xs), Key(p))) < 3
    ensures var c, s, u := Key(p), StateOf(Run(EMPTY, recordResponse, xs), Key(p)), Run(EMPTY, recordResponse, xs + [Pkt(p)]);
            && (s == Listen && IsSyn(p) ==> StateOf(u, c) == SynReceived1)
            && (s == SynReceived1 && IsSynAck(p) ==> StateOf(u, c) == SynReceived2)
            && (s == SynReceived2 && IsAck(p) ==>
                  && StateOf(u, c) == Established && c in u.connRepository
                  && u.connRepository[c] == Buffers(R.Fresh((p.seqNo + 1) % 0x1_0000_0000), R.Fresh(p.ackNo)))
  {
    NextOwn(recordResponse, xs, p);
    OpeningByFlags(Run(EMPTY, recordResponse, xs), recordResponse, p);
  }

  lemma ThreeWay(recordResponse: bool, s: NetPkg, sa: NetPkg, a: NetPkg)
    requires Opens(s, sa, a)
    ensures var u := Run(EMPTY, recordResponse, [] + [Pkt(s)] + [Pkt(sa)] + [Pkt(a)]);
            && StateOf(u, Key(s)) == Established && Key(s) in u.connRepository
            && u.connRepository[Key(s)] == Buffers(R.Fresh((a.seqNo + 1) % 0x1_0000_0000), R.Fresh(a.ackNo))
  {
    OneFurther(recordResponse, [], s);
    OneFurther(recordResponse, [] + [Pkt(s)], sa);
    OneFurther(recordResponse, [] + [Pkt(s)] + [Pkt(sa)], a);
  }

  /** SYN, SYN+ACK and ACK of a connection never seen before, with anything on other connections in
      between, make it ESTABLISHED and give it buffers. */
  lemma HandshakeOpens(recordResponse: bool, xs: seq<Input>, s: NetPkg, sa: NetPkg, a: NetPkg)
    requires Opens(s, sa, a) && Only(xs, Key(s)) == [Pkt(s), Pkt(sa), Pkt(a)]
    ensures var u := Run(EMPTY, recordResponse, xs);
            && StateOf(u, Key(s)) == Established && Key(s) in u.connRepository
            && u.connRepository[Key(s)] == Buffers(R.Fresh((a.seqNo + 1) % 0x1_0000_0000), R.Fresh(a.ackNo))
  {
    ConnectionsDoNotInterfere(recordResponse, xs, Key(s));
    ThreeWay(recordResponse, s, sa, a);
    assert [] + [Pkt(s)] + [Pkt(sa)] + [Pkt(a)] == [Pkt(s), Pkt(sa), Pkt(a)];
  }

  /** An input of c that could take it out of state s. */
  predicate Disturbs(x: Input, c: DirectConn, s: ConnState) {
    && x.Pkt? && Key(x.pkg) == c
    && match s
       case Established => IsFin(x.pkg) || IsReset(x.pkg)
       case CloseWait => IsFinSent(x.pkg)
       case LastAck => IsAck(x.pkg)
       case _ => true
  }

  /** From ESTABLISHED on, a connection stays where it is until its next closing packet. */
  lemma {:induction false} Stays(recordResponse: bool, xs: seq<Input>, ys: seq<Input>, c: DirectConn)
    requires StateOf(Run(EMPTY, recordResponse, xs), c) in [Established, CloseWait, LastAck]
    requires forall i :: 0 <= i < |ys| ==> !Disturbs(ys[i], c, StateOf(Run(EMPTY, recordResponse, xs), c))
    ensures StateOf(Run(EMPTY, recordResponse, xs + ys), c) == StateOf(Run(EMPTY, recordResponse, xs), c)
    decreases |ys|
  {
    if ys == [] {
      assert xs + ys == xs;
    } else {
      var before, y := ys[..|ys| - 1], ys[|ys| - 1];
      Stays(recordResponse, xs, before, c);
      var t := Run(EMPTY, recordResponse, xs + before);
      assert (xs + ys)[..|xs + ys| - 1] == xs + before && (xs + ys)[|xs + ys| - 1] == y;
      TwoMaps(recordResponse, xs + before);
      StepIsLocal(t, recordResponse, y, c);
      if y.Pkt? && Key(y.pkg) == c {
        if StateOf(t, c) == Established {
          OpenByFlags(t, recordResponse, y.pkg);
        } else {
          ClosingByFlags(t, recordResponse, y.pkg);
        }
      }
    }
  }

  /** One closing packet, after anything that does not matter. */
  lemma Leaves(recordResponse: bool, xs: seq<Input>, ys: seq<Input>, p: NetPkg)
    requires StateOf(Run(EMPTY, recordResponse, xs), Key(p)) in [Established, CloseWait, LastAck]
    requires forall i :: 0 <= i < |ys| ==> !Disturbs(ys[i], Key(p), StateOf(Run(EMPTY, recordResponse, xs), Key(p)))
    ensures var c, s, u := Key(p), StateOf(Run(EMPTY, recordResponse, xs), Key(p)), Run(EMPTY, recordResponse, xs + ys + [Pkt(p)]);
            && (s == Established && IsFin(p) ==> StateOf(u, c) == CloseWait)
            && (s == CloseWait && IsFinSent(p) ==> StateOf(u, c) == LastAck)
            && (s == Established && IsReset(p) ==> Unknown(u, c))
            && (s == LastAck && IsAck(p) ==> Unknown(u, c))
  {
    Stays(recordResponse, xs, ys, Key(p));
    NextOwn(recordResponse, xs + ys, p);
    var t := Run(EMPTY, recordResponse, xs + ys);
    if StateOf(t, Key(p)) == Established {
      OpenByFlags(t, recordResponse, p);
    } else {
      ClosingByFlags(t, recordResponse, p);
    }
  }

  /** The orderly close: the client's FIN, with ACK or not, the server's FIN and the last ACK, with
      anything in between that closes nothing, take an open connection out of both maps; a SYN then
      starts it anew. */
  lemma OrderlyClose(recordResponse: bool, xs: seq<Input>, y1: seq<Input>, f: NetPkg, y2: seq<Input>, g: NetPkg,
                     y3: seq<Input>, a: NetPkg, s: NetPkg)
    requires Key(f) == Key(g) == Key(a) == Key(s) && IsFin(f) && IsFinSent(g) && IsAck(a) && IsSyn(s)
    requires StateOf(Run(EMPTY, recordResponse, xs), Key(f)) == Established
    requires forall i :: 0 <= i < |y1| ==> !Disturbs(y1[i], Key(f), Established)
    requires forall i :: 0 <= i < |y2| ==> !Disturbs(y2[i], Key(f), CloseWait)
    requires forall i :: 0 <= i < |y3| ==> !Disturbs(y3[i], Key(f), LastAck)
    ensures var all := xs + y1 + [Pkt(f)] + y2 + [Pkt(g)] + y3 + [Pkt(a)];
            && Unknown(Run(EMPTY, recordResponse, all), Key(f))
            && StateOf(Run(EMPTY, recordResponse, all + [Pkt(s)]), Key(f)) == SynReceived1
            && Key(f) !in Run(EMPTY, recordResponse, all + [Pkt(s)]).connRepository
  {
    var x1 := xs + y1 + [Pkt(f)];
    var x2 := x1 + y2 + [Pkt(g)];
    var x3 := x2 + y3 + [Pkt(a)];
    Leaves(recordResponse, xs, y1, f);
    Leaves(recordResponse, x1, y2, g);
    Leaves(recordResponse, x2, y3, a);
    NextOwn(recordResponse, x3, s);
    OpeningByFlags(Run(EMPTY, recordResponse, x3), recordResponse, s);
  }

  /** A reset ends an open connection at once. */
  lemma ResetCloses(recordResponse: bool, xs: seq<Input>, p: NetPkg)
    requires StateOf(Run(EMPTY, recordResponse, xs), Key(p)) == Established && IsReset(p)
    ensures Unknown(Run(EMPTY, recordResponse, xs + [Pkt(p)]), Key(p))
  {
    Leaves(recordResponse, xs, [], p);
    assert xs + [] == xs;
  }

  lemma EndsLocal(l: Local, recordResponse: bool, p: NetPkg, es: seq<Event>)
    requires LocalOk(Key(p), l) && l.entry.Some? && l.entry.value.states == Replay(es)
    ensures LocalPkg(l, recordResponse, p).entry == None <==> EventOf(p).Some? && Last(Fire(Replay(es), EventOf(p).value)) == Closed
    ensures LocalPkg(l, recordResponse, p).entry == None ==> LocalPkg(l, recordResponse, p).buffers == None
  {
  }

  /** Whether a connection is over after one more packet. */
  lemma OverSnoc(xs: seq<Input>, p: NetPkg, n: nat)
    requires n <= |xs| && Last(Replay(EventsOf(xs[n..], Key(p)))) != Closed
    ensures Over(EventsOf((xs + [Pkt(p)])[n..], Key(p))) <==>
            EventOf(p).Some? && Last(Fire(Replay(EventsOf(xs[n..], Key(p))), EventOf(p).value)) == Closed
  {
    var c, all := Key(p), xs + [Pkt(p)];
    assert all[..|xs|] == xs;
    ReplaySnoc(all, n, c);
    ClosedExactly(EventsOf(all[n..], c));
  }

  /** Exactly when a packet ends its connection: the events since the entry was made, this one
      included, say that it is over. Nothing is then left of it. */
  lemma EndsExactly(recordResponse: bool, xs: seq<Input>, p: NetPkg) returns (n: nat)
    requires Key(p) in Run(EMPTY, recordResponse, xs).connStates
    ensures EntrySince(recordResponse, xs, Key(p), n)
    ensures var u := Run(EMPTY, recordResponse, xs + [Pkt(p)]);
            && (Over(EventsOf((xs + [Pkt(p)])[n..], Key(p))) <==> Key(p) !in u.connStates)
            && (Key(p) !in u.connStates ==> Key(p) !in u.connRepository)
  {
    var t := Run(EMPTY, recordResponse, xs);
    n := EntryHistory(recordResponse, xs, Key(p));
    NextOwn(recordResponse, xs, p);
    assert EntryOk(Key(p), t.connStates[Key(p)]);
    OverSnoc(xs, p, n);
    StepOwn(t, recordResponse, p);
    EndsLocal(Project(t, Key(p)), recordResponse, p, EventsOf(xs[n..], Key(p)));
  }

  /** GOAWAY leaves no buffers, and buffers come back only with a handshake completed later. */
  lemma GoAwayDrops(recordResponse: bool, xs: seq<Input>, c: DirectConn, ys: seq<Input>)
    ensures var u := Run(EMPTY, recordResponse, xs + [GoAway(c)]);
            c !in u.connRepository && u.connStates == Run(EMPTY, recordResponse, xs).connStates
    ensures c in Run(EMPTY, recordResponse, xs + [GoAway(c)] + ys).connRepository ==>
            exists m :: 0 <= m < |ys| && ys[m].Pkt? && Key(ys[m].pkg) == c && IsAck(ys[m].pkg)
  {
    assert (xs + [GoAway(c)])[..|xs|] == xs;
    var all := xs + [GoAway(c)] + ys;
    if c in Run(EMPTY, recordResponse, all).connRepository {
      var n := Incarnation(recordResponse, all, c);
      EventByFlags(all[n].pkg);
      assert all[..|xs| + 1] == xs + [GoAway(c)];
      assert n > |xs|;
      assert ys[n - |xs| - 1] == all[n];
    }
  }
}
