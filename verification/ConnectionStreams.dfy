/** From packets of many connections to the frames of one: tracking and reassembly together. */
module ConnectionStreams {
  import opened Bytes
  import opened SequenceNumbers
  import opened Tracker
  import opened TrackerInvariants
  import opened Messages
  import F = Frames
  import R = Reassembly
  import O = OrderIndependence
  import P = Processors
  import H = Http2Conns
  import T = StreamTable
  import Protocol

  lemma BornOnce(recordResponse: bool, xs: seq<Input>, n: nat, m: nat, c: DirectConn)
    requires BornAt(recordResponse, xs, n, c) && BornAt(recordResponse, xs, m, c)
    ensures n == m
  {
  }

  function SegmentOf(p: NetPkg): R.Segment {
    R.Segment(p.seqNo, p.payload)
  }

  /** Among the fed packets, the client's first is number i and starts with the connection preface;
      all its later ones are pieces of the stream S that follows it. */
  ghost predicate ClientSends(ps: seq<NetPkg>, i: nat, S: seq<Byte>) {
    && i < |ps| && ps[i].direction == DirIncoming && IsConnPreface(ps[i].payload)
    && (forall m :: 0 <= m < i ==> ps[m].direction != DirIncoming)
    && (forall m :: i < m < |ps| && ps[m].direction == DirIncoming ==>
          !IsConnPreface(ps[m].payload)
          && R.IsCut(SegmentOf(ps[m]), S, Advance(ps[i].seqNo, |ps[i].payload|)))
  }

  lemma StandardText()
    ensures AsText(PREFACE_STD) == "PRI * HTTP/2.0\r\n\r\nSM\r\n\r\n"
  {
  }

  lemma EarlyText()
    ensures AsText(PREFACE_EARLY) == "FOO * HTTP/2.0\r\n\r\nBA\r\n\r\n"
  {
  }

  /** The two prefaces, as text. */
  lemma PrefaceText(payload: seq<Byte>)
    ensures IsConnPreface(payload) <==>
            && |payload| >= 24
            && AsText(payload[..24]) in ["PRI * HTTP/2.0\r\n\r\nSM\r\n\r\n", "FOO * HTTP/2.0\r\n\r\nBA\r\n\r\n"]
  {
    if |payload| >= 24 {
      TextIsInjective(payload[..24], PREFACE_STD);
      TextIsInjective(payload[..24], PREFACE_EARLY);
      StandardText();
      EarlyText();
    }
  }

  lemma TextIsInjective(a: seq<Byte>, b: seq<Byte>)
    requires |a| == |b|
    ensures AsText(a) == AsText(b) <==> a == b
  {
    if AsText(a) == AsText(b) {
      forall i | 0 <= i < |a|
        ensures a[i] == b[i]
      {
        assert AsText(a)[i] == AsText(b)[i];
      }
    }
  }

  lemma {:induction false} BeforePreface(b: Buffers, recordResponse: bool, ps: seq<NetPkg>)
    requires forall m :: 0 <= m < |ps| ==> ps[m].direction != DirIncoming
    ensures FeedAll(b, recordResponse, ps).input == b.input
  {
    if ps != [] {
      BeforePreface(b, recordResponse, ps[..|ps| - 1]);
    }
  }

  lemma {:induction false} AfterPreface(b: Buffers, recordResponse: bool, ps: seq<NetPkg>, i: nat, S: seq<Byte>)
    returns (k: nat)
    requires b.input == R.Fresh(b.input.expected) && |S| < TWO32 && ClientSends(ps, i, S)
    ensures R.Tracks(FeedAll(b, recordResponse, ps).input, S, Advance(ps[i].seqNo, |ps[i].payload|), k)
  {
    var isn := Advance(ps[i].seqNo, |ps[i].payload|);
    var before, p := ps[..|ps| - 1], ps[|ps| - 1];
    if i == |ps| - 1 {
      BeforePreface(b, recordResponse, before);
      R.FreshTracks(S, isn);
      k := 0;
    } else {
      k := AfterPreface(b, recordResponse, before, i, S);
      if p.direction == DirIncoming {
        k := R.AcceptSafe(FeedAll(b, recordResponse, before).input, SegmentOf(p), S, isn, k);
      }
    }
  }

  lemma TrackedFrames(v: R.View, S: seq<Byte>, isn: U32, k: nat, inputFlag: bool)
    requires R.Tracks(v, S, isn, k)
    ensures Flat(v.delivered) <= S && F.ParseFrames(Flat(v.delivered), inputFlag) <= F.ParseFrames(S, inputFlag)
  {
    F.ParsePrefix(S, k, inputFlag);
  }

  /** What the current incarnation was fed, by the one input that it was made by. */
  lemma FedSince(recordResponse: bool, xs: seq<Input>, c: DirectConn, n: nat)
    requires c in Run(EMPTY, recordResponse, xs).connRepository && BornAt(recordResponse, xs, n, c)
    ensures Run(EMPTY, recordResponse, xs).connRepository[c]
         == FeedAll(NewBuffers(xs[n].pkg), recordResponse, Payloads(recordResponse, xs, n + 1, c))
  {
    var m := Incarnation(recordResponse, xs, c);
    BornOnce(recordResponse, xs, n, m, c);
  }

  /** For every run over any connections: what the current incarnation of a connection has delivered
      is a prefix of the stream its client sent after the preface, and so are its frames. */
  lemma ConnectionDeliversPrefix(recordResponse: bool, xs: seq<Input>, c: DirectConn, n: nat, i: nat, S: seq<Byte>)
    requires c in Run(EMPTY, recordResponse, xs).connRepository && BornAt(recordResponse, xs, n, c)
    requires |S| < TWO32 && ClientSends(Payloads(recordResponse, xs, n + 1, c), i, S)
    ensures var out := Flat(Run(EMPTY, recordResponse, xs).connRepository[c].input.delivered);
            out <= S && F.ParseFrames(out, true) <= F.ParseFrames(S, true)
  {
    var ps := Payloads(recordResponse, xs, n + 1, c);
    FedSince(recordResponse, xs, c, n);
    var k := AfterPreface(NewBuffers(xs[n].pkg), recordResponse, ps, i, S);
    TrackedFrames(FeedAll(NewBuffers(xs[n].pkg), recordResponse, ps).input, S,
                  Advance(ps[i].seqNo, |ps[i].payload|), k, true);
  }

  /** The segment that follows the handshake carries the number of its last packet. The buffer made
      by that packet expects one more, so only a connection preface gets such a segment accepted. */
  lemma FirstDataNeedsPreface(handshake: NetPkg, recordResponse: bool, p: NetPkg)
    requires p.direction == DirIncoming && p.seqNo == handshake.seqNo
    ensures Feed(NewBuffers(handshake), recordResponse, p).input ==
            if IsConnPreface(p.payload) then R.Fresh(Advance(p.seqNo, |p.payload|)) else NewBuffers(handshake).input
  {
    var e := Plus(p.seqNo, 1);
    WindowExact(e, WINDOW, p.seqNo);
    PlusCases(p.seqNo, 1);
  }

  /** A preface that is repeated moves the expected number back: the segment after it is delivered
      again, whatever was delivered before. */
  lemma RepeatedPreface(b: Buffers, recordResponse: bool, p: NetPkg, q: NetPkg)
    requires p.direction == q.direction == DirIncoming && IsConnPreface(p.payload) && !IsConnPreface(q.payload)
    requires q.payload != [] && |q.payload| < MAX_U32 && q.seqNo == Advance(p.seqNo, |p.payload|)
    requires b.input.pending == map[]
    ensures Feed(Feed(b, recordResponse, p), recordResponse, q).input.delivered == b.input.delivered + [q.payload]
  {
    var v := Feed(b, recordResponse, p).input;
    var e := q.seqNo;
    WindowExact(e, WINDOW, e);
    assert R.Accept(v, SegmentOf(q)) == R.Drain(v.(pending := map[e := q.payload]));
    OneEntryDrains(v, e, q.payload);
  }

  lemma OneEntryDrains(v: R.View, e: U32, payload: seq<Byte>)
    requires v.expected == e
    ensures R.Drain(v.(pending := map[e := payload])).delivered == v.delivered + [payload]
  {
    var w := v.(pending := map[e := payload]);
    assert w.pending - {e} == map[];
  }

  /** What the server sends, as fed, are pieces of S numbered from isn on. */
  ghost predicate ServerSends(ps: seq<NetPkg>, S: seq<Byte>, isn: U32) {
    forall m :: 0 <= m < |ps| && ps[m].direction == DirOutcoming ==> R.IsCut(SegmentOf(ps[m]), S, isn)
  }

  lemma {:induction false} OutputTracks(b: Buffers, ps: seq<NetPkg>, S: seq<Byte>, isn: U32) returns (k: nat)
    requires b.output == R.Fresh(isn) && |S| < TWO32 && ServerSends(ps, S, isn)
    ensures R.Tracks(FeedAll(b, true, ps).output, S, isn, k)
  {
    if ps == [] {
      R.FreshTracks(S, isn);
      k := 0;
    } else {
      var before, p := ps[..|ps| - 1], ps[|ps| - 1];
      k := OutputTracks(b, before, S, isn);
      if p.direction == DirOutcoming {
        k := R.AcceptSafe(FeedAll(b, true, before).output, SegmentOf(p), S, isn, k);
      }
    }
  }

  /** The same for the server's side, whose stream starts at the number that the packet completing
      the handshake acknowledges; no preface is needed. */
  lemma ConnectionDeliversResponses(xs: seq<Input>, c: DirectConn, n: nat, S: seq<Byte>)
    requires c in Run(EMPTY, true, xs).connRepository && BornAt(true, xs, n, c)
    requires |S| < TWO32 && ServerSends(Payloads(true, xs, n + 1, c), S, xs[n].pkg.ackNo)
    ensures var out := Flat(Run(EMPTY, true, xs).connRepository[c].output.delivered);
            out <= S && F.ParseFrames(out, false) <= F.ParseFrames(S, false)
  {
    var ps := Payloads(true, xs, n + 1, c);
    FedSince(true, xs, c, n);
    var k := OutputTracks(NewBuffers(xs[n].pkg), ps, S, xs[n].pkg.ackNo);
    TrackedFrames(FeedAll(NewBuffers(xs[n].pkg), true, ps).output, S, xs[n].pkg.ackNo, k, false);
  }

  // ---------------------------------------------------------------------------------------------
  // Pieces of streams make the delivery loops end

  /** A later packet of the client starts no endless delivery loop. */
  lemma ClientPieceEnds(recordResponse: bool, xs: seq<Input>, p: NetPkg, n: nat, i: nat, S: seq<Byte>)
    requires p.direction == DirIncoming && BornAt(recordResponse, xs, n, Key(p)) && |S| < TWO32
    requires var ps := Payloads(recordResponse, xs, n + 1, Key(p));
             ClientSends(ps, i, S) && R.IsCut(SegmentOf(p), S, Advance(ps[i].seqNo, |ps[i].payload|))
    ensures P.PkgEnds(Run(EMPTY, recordResponse, xs), recordResponse, p)
  {
    var c, ps := Key(p), Payloads(recordResponse, xs, n + 1, Key(p));
    var isn := Advance(ps[i].seqNo, |ps[i].payload|);
    if c in Run(EMPTY, recordResponse, xs).connRepository {
      FedSince(recordResponse, xs, c, n);
      var k := AfterPreface(NewBuffers(xs[n].pkg), recordResponse, ps, i, S);
      k := R.AcceptSafe(Run(EMPTY, recordResponse, xs).connRepository[c].input, SegmentOf(p), S, isn, k);
    }
  }

  /** Nor does any packet of the server. */
  lemma ServerPieceEnds(xs: seq<Input>, p: NetPkg, n: nat, S: seq<Byte>)
    requires p.direction == DirOutcoming && BornAt(true, xs, n, Key(p)) && |S| < TWO32
    requires ServerSends(Payloads(true, xs, n + 1, Key(p)), S, xs[n].pkg.ackNo)
    requires R.IsCut(SegmentOf(p), S, xs[n].pkg.ackNo)
    ensures P.PkgEnds(Run(EMPTY, true, xs), true, p)
  {
    var c, ps := Key(p), Payloads(true, xs, n + 1, Key(p));
    if c in Run(EMPTY, true, xs).connRepository {
      FedSince(true, xs, c, n);
      var k := OutputTracks(NewBuffers(xs[n].pkg), ps, S, xs[n].pkg.ackNo);
      k := R.AcceptSafe(Run(EMPTY, true, xs).connRepository[c].output, SegmentOf(p), S, xs[n].pkg.ackNo, k);
    }
  }

  // ---------------------------------------------------------------------------------------------
  // Everything arrives

  /** The client's segments after packet number i. */
  function ClientSegs(ps: seq<NetPkg>, i: nat): seq<R.Segment>
    decreases |ps|
  {
    if |ps| <= i + 1 then []
    else if ps[|ps| - 1].direction == DirIncoming then ClientSegs(ps[..|ps| - 1], i) + [SegmentOf(ps[|ps| - 1])]
    else ClientSegs(ps[..|ps| - 1], i)
  }

  /** The client's first packet is number i and starts with the connection preface, no later one does. */
  ghost predicate OnePreface(ps: seq<NetPkg>, i: nat) {
    && i < |ps| && ps[i].direction == DirIncoming && IsConnPreface(ps[i].payload)
    && (forall m :: 0 <= m < i ==> ps[m].direction != DirIncoming)
    && (forall m :: i < m < |ps| && ps[m].direction == DirIncoming ==> !IsConnPreface(ps[m].payload))
  }

  lemma {:induction false} InputIsRun(b: Buffers, recordResponse: bool, ps: seq<NetPkg>, i: nat)
    requires b.input == R.Fresh(b.input.expected) && OnePreface(ps, i)
    ensures FeedAll(b, recordResponse, ps).input
         == R.Run(R.Fresh(Advance(ps[i].seqNo, |ps[i].payload|)), ClientSegs(ps, i))
    decreases |ps|
  {
    var before, p := ps[..|ps| - 1], ps[|ps| - 1];
    if i == |ps| - 1 {
      BeforePreface(b, recordResponse, before);
    } else {
      InputIsRun(b, recordResponse, before, i);
      if p.direction == DirIncoming {
        R.RunSnoc(R.Fresh(Advance(ps[i].seqNo, |ps[i].payload|)), ClientSegs(before, i), SegmentOf(p));
      }
    }
  }

  /** Once all parts of the client's stream have arrived, in any order and with repeats, among the
      packets of whatever other connections: its input buffer has delivered all of it, and holds
      nothing back. */
  lemma ConnectionDeliversAll(recordResponse: bool, xs: seq<Input>, c: DirectConn, n: nat, i: nat,
                              parts: seq<seq<Byte>>, order: seq<nat>)
    requires c in Run(EMPTY, recordResponse, xs).connRepository && BornAt(recordResponse, xs, n, c)
    requires OnePreface(Payloads(recordResponse, xs, n + 1, c), i)
    requires var ps := Payloads(recordResponse, xs, n + 1, c);
             var isn := Advance(ps[i].seqNo, |ps[i].payload|);
             && O.Cuttable(isn, parts) && O.Covers(order, |parts|) && ClientSegs(ps, i) == O.Arrivals(isn, parts, order)
             && forall k :: 0 <= k < |parts| ==> ValidPackage(isn, WINDOW, O.SeqAt(isn, parts, k))
    ensures var v := Run(EMPTY, recordResponse, xs).connRepository[c].input;
            Flat(v.delivered) == Flat(parts) && v.pending == map[]
  {
    var ps := Payloads(recordResponse, xs, n + 1, c);
    FedSince(recordResponse, xs, c, n);
    InputIsRun(NewBuffers(xs[n].pkg), recordResponse, ps, i);
    O.EveryOrderDelivers(Advance(ps[i].seqNo, |ps[i].payload|), parts, order);
  }

  /** The server's segments, in order. */
  function ServerSegs(ps: seq<NetPkg>): seq<R.Segment> {
    if ps == [] then []
    else if ps[|ps| - 1].direction == DirOutcoming then ServerSegs(ps[..|ps| - 1]) + [SegmentOf(ps[|ps| - 1])]
    else ServerSegs(ps[..|ps| - 1])
  }

  /** The output buffer takes exactly the server's segments, and those only if responses are recorded. */
  lemma {:induction false} OutputIsRun(b: Buffers, recordResponse: bool, ps: seq<NetPkg>)
    ensures FeedAll(b, recordResponse, ps).output == if recordResponse then R.Run(b.output, ServerSegs(ps)) else b.output
  {
    if ps != [] {
      var before, p := ps[..|ps| - 1], ps[|ps| - 1];
      OutputIsRun(b, recordResponse, before);
      R.RunSnoc(b.output, ServerSegs(before), SegmentOf(p));
    }
  }

  /** The same for the server's side, whose stream starts at the number that the packet completing
      the handshake acknowledges. */
  lemma ConnectionDeliversAllResponses(xs: seq<Input>, c: DirectConn, n: nat, parts: seq<seq<Byte>>, order: seq<nat>)
    requires c in Run(EMPTY, true, xs).connRepository && BornAt(true, xs, n, c)
    requires var isn := xs[n].pkg.ackNo;
             && O.Cuttable(isn, parts) && O.Covers(order, |parts|)
             && ServerSegs(Payloads(true, xs, n + 1, c)) == O.Arrivals(isn, parts, order)
             && forall k :: 0 <= k < |parts| ==> ValidPackage(isn, WINDOW, O.SeqAt(isn, parts, k))
    ensures var v := Run(EMPTY, true, xs).connRepository[c].output;
            Flat(v.delivered) == Flat(parts) && v.pending == map[]
  {
    var ps := Payloads(true, xs, n + 1, c);
    FedSince(true, xs, c, n);
    OutputIsRun(NewBuffers(xs[n].pkg), true, ps);
    O.EveryOrderDelivers(xs[n].pkg.ackNo, parts, order);
  }

  /** Without recording of responses an output buffer stays as the handshake made it. */
  lemma OutputUntouched(xs: seq<Input>, c: DirectConn, n: nat)
    requires c in Run(EMPTY, false, xs).connRepository && BornAt(false, xs, n, c)
    ensures Run(EMPTY, false, xs).connRepository[c].output == R.Fresh(xs[n].pkg.ackNo)
  {
    FedSince(false, xs, c, n);
    OutputIsRun(NewBuffers(xs[n].pkg), false, Payloads(false, xs, n + 1, c));
  }

  // ---------------------------------------------------------------------------------------------
  // Messages

  /** Frames in two pieces. */
  lemma {:induction false} TableRunAppend(env: T.Env, table: seq<T.Slot>, a: seq<T.Tagged>, b: seq<T.Tagged>)
    requires |table| == T.STREAM_ARRAY_SIZE
    ensures var r := T.TableRun(env, table, a);
            T.TableRun(env, table, a + b) ==
            if r.Halted? then r
            else
              var q := T.TableRun(env, r.table, b);
              if q.Halted? then q else T.Going(q.table, r.finished + q.finished)
    decreases |a|
  {
    if a == [] {
      assert a + b == b;
      assert T.TableRun(env, table, b).Going? ==> [] + T.TableRun(env, table, b).finished == T.TableRun(env, table, b).finished;
    } else {
      assert (a + b)[1..] == a[1..] + b && (a + b)[0] == a[0];
      var first := T.TableStep(env, table, a[0]);
      if first.Going? {
        TableRunAppend(env, first.table, a[1..], b);
        var rest := T.TableRun(env, first.table, a[1..]);
        if rest.Going? && T.TableRun(env, rest.table, b).Going? {
          Assoc(first.finished, rest.finished, T.TableRun(env, rest.table, b).finished);
        }
      }
    }
  }

  /** The streams finished by the first frames come first, and a run that goes on was never stopped. */
  lemma FinishedPrefix(env: T.Env, table: seq<T.Slot>, ts: seq<T.Tagged>, k: nat)
    requires |table| == T.STREAM_ARRAY_SIZE && k <= |ts| && T.TableRun(env, table, ts).Going?
    ensures T.TableRun(env, table, ts[..k]).Going?
    ensures T.TableRun(env, table, ts[..k]).finished <= T.TableRun(env, table, ts).finished
  {
    TableRunAppend(env, table, ts[..k], ts[k..]);
    assert ts[..k] + ts[k..] == ts;
  }

  /** A header decoder: what it makes of the last of the frames it was given in order. */
  type Decoder = seq<F.FrameBase> -> Option<seq<T.Field>>

  function Decoded(dec: Decoder, fs: seq<F.FrameBase>): seq<T.Tagged> {
    seq(|fs|, i requires 0 <= i < |fs| => T.Tagged(fs[i], dec(fs[..i + 1])))
  }

  lemma DecodedPrefix(dec: Decoder, fs: seq<F.FrameBase>, k: nat)
    requires k <= |fs|
    ensures Decoded(dec, fs[..k]) == Decoded(dec, fs)[..k]
  {
    forall i | 0 <= i < k
      ensures Decoded(dec, fs[..k])[i] == Decoded(dec, fs)[i]
    {
      assert fs[..k][..i + 1] == fs[..i + 1];
    }
  }

  function FreshTable(env: T.Env): (r: seq<T.Slot>)
    ensures |r| == T.STREAM_ARRAY_SIZE
  {
    seq(T.STREAM_ARRAY_SIZE, _ => T.FreshSlot(env.recordResponse))
  }

  /** The messages a new connection makes of some frames; None if it stops. */
  function CallsOf(env: T.Env, ts: seq<T.Tagged>): Option<seq<Protocol.Call>> {
    var r := T.TableRun(env, FreshTable(env), ts);
    if r.Halted? then None else Some(H.Accepted(env, r.finished))
  }

  /** And of some bytes. */
  function MessagesOf(env: T.Env, dec: Decoder, bytes: seq<Byte>): Option<seq<Protocol.Call>> {
    CallsOf(env, Decoded(dec, F.ParseFrames(bytes, true)))
  }

  /** The messages of the first frames are the first messages. */
  lemma CallsPrefix(env: T.Env, ts: seq<T.Tagged>, k: nat)
    requires k <= |ts| && CallsOf(env, ts).Some?
    ensures CallsOf(env, ts[..k]).Some? && CallsOf(env, ts[..k]).value <= CallsOf(env, ts).value
  {
    FinishedPrefix(env, FreshTable(env), ts, k);
    AcceptedPrefix(env, T.TableRun(env, FreshTable(env), ts[..k]).finished, T.TableRun(env, FreshTable(env), ts).finished);
  }

  lemma AcceptedPrefix(env: T.Env, a: seq<T.Finish>, b: seq<T.Finish>)
    requires a <= b
    ensures H.Accepted(env, a) <= H.Accepted(env, b)
  {
    H.AcceptedAppend(env, a, b[|a|..]);
    assert a + b[|a|..] == b;
  }

  /** The messages of a prefix of a stream are a prefix of the messages of the stream. */
  lemma MessagesPrefix(env: T.Env, dec: Decoder, S: seq<Byte>, k: nat)
    requires k <= |S| && MessagesOf(env, dec, S).Some?
    ensures MessagesOf(env, dec, S[..k]).Some? && MessagesOf(env, dec, S[..k]).value <= MessagesOf(env, dec, S).value
  {
    var fs, gs := F.ParseFrames(S, true), F.ParseFrames(S[..k], true);
    F.ParsePrefix(S, k, true);
    assert gs == fs[..|gs|];
    DecodedPrefix(dec, fs, |gs|);
    CallsPrefix(env, Decoded(dec, fs), |gs|);
  }

  /** From packets to messages: what the current incarnation of a connection has delivered makes a
      prefix of the messages of what its client sent. */
  lemma ConnectionMessagesPrefix(recordResponse: bool, xs: seq<Input>, c: DirectConn, n: nat, i: nat, S: seq<Byte>,
                                 env: T.Env, dec: Decoder)
    requires c in Run(EMPTY, recordResponse, xs).connRepository && BornAt(recordResponse, xs, n, c)
    requires |S| < TWO32 && ClientSends(Payloads(recordResponse, xs, n + 1, c), i, S)
    requires MessagesOf(env, dec, S).Some?
    ensures var out := MessagesOf(env, dec, Flat(Run(EMPTY, recordResponse, xs).connRepository[c].input.delivered));
            out.Some? && out.value <= MessagesOf(env, dec, S).value
  {
    ConnectionDeliversPrefix(recordResponse, xs, c, n, i, S);
    var out := Flat(Run(EMPTY, recordResponse, xs).connRepository[c].input.delivered);
    MessagesPrefix(env, dec, S, |out|);
    assert out == S[..|out|];
  }
}
