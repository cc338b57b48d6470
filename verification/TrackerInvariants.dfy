/** What connection tracking guarantees over every run. */
module TrackerInvariants {
  import opened Bytes
  import opened StateMachine
  import opened Tracker

  // ---------------------------------------------------------------------------------------------
  // What is tracked for one connection, and what one input does to it.

  datatype Local = Local(entry: Option<Entry>, buffers: Option<Buffers>)

  function Project(t: Tracked, c: DirectConn): Local {
    Local(if c in t.connStates then Some(t.connStates[c]) else None,
          if c in t.connRepository then Some(t.connRepository[c]) else None)
  }

  function LocalEnter(l: Local, to: ConnState, p: NetPkg): Local
    requires l.entry.Some?
  {
    var e := l.entry.value.(state := to, states := l.entry.value.states + [to]);
    if to == Established then Local(Some(e), Some(NewBuffers(p)))
    else if to == Closed then Local(None, None)
    else Local(Some(e), l.buffers)
  }

  function LocalHandle(l: Local, p: NetPkg): Local
    requires l.entry.Some?
  {
    var e := EventOf(p);
    var s := l.entry.value.state;
    if e.Some? && Moves(s, e.value) then LocalEnter(l, Transition(s, e.value).value, p) else l
  }

  function LocalPkg(l: Local, recordResponse: bool, p: NetPkg): Local {
    var l1 := if l.entry.Some? then l else l.(entry := Some(NewEntry(Key(p))));
    var l2 := LocalHandle(l1, p);
    if l2.entry.Some? && l2.entry.value.state == Established && p.payload != [] && l2.buffers.Some?
    then l2.(buffers := Some(Feed(l2.buffers.value, recordResponse, p))) else l2
  }

  function LocalStep(l: Local, recordResponse: bool, x: Input): Local {
    match x
    case Pkt(p) => LocalPkg(l, recordResponse, p)
    case GoAway(_) => l.(buffers := None)
  }

  function ConnOf(x: Input): DirectConn {
    match x
    case Pkt(p) => Key(p)
    case GoAway(dc) => dc
  }

  predicate OwnKeys(t: Tracked) {
    forall k :: k in t.connStates ==> t.connStates[k].dc == k
  }

  lemma EnterIsLocal(t: Tracked, key: DirectConn, to: ConnState, p: NetPkg, c: DirectConn)
    requires key in t.connStates && t.connStates[key].dc == key
    ensures Project(Enter(t, key, to, p), c) == if c == key then LocalEnter(Project(t, c), to, p) else Project(t, c)
  {
  }

  lemma HandleIsLocal(t: Tracked, key: DirectConn, p: NetPkg, c: DirectConn)
    requires key in t.connStates && t.connStates[key].dc == key
    ensures Project(HandleState(t, key, p), c) == if c == key then LocalHandle(Project(t, c), p) else Project(t, c)
  {
    var e, s := EventOf(p), t.connStates[key].state;
    if e.Some? && Moves(s, e.value) {
      EnterIsLocal(t, key, Transition(s, e.value).value, p, c);
    }
  }

  lemma PayloadIsLocal(t: Tracked, recordResponse: bool, p: NetPkg, c: DirectConn)
    ensures var l, l' := Project(t, c), Project(ProcessPayload(t, recordResponse, p), c);
            l' == if c == Key(p) && l.buffers.Some? then l.(buffers := Some(Feed(l.buffers.value, recordResponse, p))) else l
  {
  }

  lemma PkgIsLocal(t: Tracked, recordResponse: bool, p: NetPkg, c: DirectConn)
    requires OwnKeys(t)
    ensures Project(StepPkg(t, recordResponse, p), c)
         == if c == Key(p) then LocalPkg(Project(t, c), recordResponse, p) else Project(t, c)
  {
    var key := Key(p);
    var t1 := WithEntry(t, key);
    var t2 := HandleState(t1, key, p);
    HandleIsLocal(t1, key, p, c);
    HandleIsLocal(t1, key, p, key);
    PayloadIsLocal(t2, recordResponse, p, c);
    assert Project(t1, key).entry.Some?;
    assert key in t2.connStates <==> Project(t2, key).entry.Some?;
  }

  lemma StepIsLocal(t: Tracked, recordResponse: bool, x: Input, c: DirectConn)
    requires OwnKeys(t)
    ensures Project(Step(t, recordResponse, x), c)
         == if c == ConnOf(x) then LocalStep(Project(t, c), recordResponse, x) else Project(t, c)
  {
    if x.Pkt? {
      PkgIsLocal(t, recordResponse, x.pkg, c);
    }
  }

  // ---------------------------------------------------------------------------------------------
  // The two maps

  predicate Live(s: ConnState) {
    s == Established || s == CloseWait || s == LastAck
  }

  ghost predicate EntryOk(key: DirectConn, e: Entry) {
    e.dc == key && e.state != Closed && IsPath(e.states) && Last(e.states) == e.state
  }

  ghost predicate LocalOk(c: DirectConn, l: Local) {
    && (l.entry.Some? ==> EntryOk(c, l.entry.value))
    && (l.buffers.Some? ==> l.entry.Some? && Live(l.entry.value.state))
  }

  predicate LocalFull(l: Local) {
    l.entry.Some? && Live(l.entry.value.state) ==> l.buffers.Some?
  }

  lemma MoveKeepsLive(s: ConnState, e: Event)
    requires Moves(s, e)
    ensures var to := Transition(s, e).value; to == Established || to == Closed || Live(s) == Live(to)
  {
  }

  lemma HandleOk(c: DirectConn, l: Local, p: NetPkg)
    requires LocalOk(c, l) && l.entry.Some?
    ensures LocalOk(c, LocalHandle(l, p)) && (LocalFull(l) ==> LocalFull(LocalHandle(l, p)))
  {
    var e, s := EventOf(p), l.entry.value.state;
    if e.Some? && Moves(s, e.value) {
      MoveKeepsLive(s, e.value);
      FireIsPath(l.entry.value.states, e.value);
      assert Fire(l.entry.value.states, e.value) == l.entry.value.states + [Transition(s, e.value).value];
    }
  }

  lemma LocalStepOk(l: Local, recordResponse: bool, x: Input)
    requires LocalOk(ConnOf(x), l)
    ensures LocalOk(ConnOf(x), LocalStep(l, recordResponse, x))
    ensures x.Pkt? && LocalFull(l) ==> LocalFull(LocalStep(l, recordResponse, x))
  {
    if x.Pkt? {
      HandleOk(ConnOf(x), if l.entry.Some? then l else l.(entry := Some(NewEntry(Key(x.pkg)))), x.pkg);
    }
  }

  /** The two maps agree: buffers only for connections between handshake and close, every entry
      under its own key and not CLOSED, with a history that is a path of the table. */
  ghost predicate Consistent(t: Tracked) {
    && (forall k :: k in t.connStates ==> EntryOk(k, t.connStates[k]))
    && (forall k :: k in t.connRepository ==> k in t.connStates && Live(t.connStates[k].state))
  }

  /** Every connection between handshake and close has buffers. */
  ghost predicate NoneMissing(t: Tracked) {
    forall k :: k in t.connStates && Live(t.connStates[k].state) ==> k in t.connRepository
  }

  lemma ConsistentIsLocal(t: Tracked)
    ensures Consistent(t) <==> forall c :: LocalOk(c, Project(t, c))
    ensures NoneMissing(t) <==> forall c :: LocalFull(Project(t, c))
  {
    if forall c :: LocalOk(c, Project(t, c)) {
      forall k | k in t.connStates || k in t.connRepository
        ensures LocalOk(k, Project(t, k))
      {
      }
    }
    if forall c :: LocalFull(Project(t, c)) {
      forall k | k in t.connStates
        ensures LocalFull(Project(t, k))
      {
      }
    }
  }

  lemma StepConsistent(t: Tracked, recordResponse: bool, x: Input)
    requires Consistent(t)
    ensures Consistent(Step(t, recordResponse, x))
    ensures NoneMissing(t) && x.Pkt? ==> NoneMissing(Step(t, recordResponse, x))
  {
    var u := Step(t, recordResponse, x);
    ConsistentIsLocal(t);
    ConsistentIsLocal(u);
    forall c
      ensures LocalOk(c, Project(u, c)) && (NoneMissing(t) && x.Pkt? ==> LocalFull(Project(u, c)))
    {
      StepIsLocal(t, recordResponse, x, c);
      if c == ConnOf(x) {
        LocalStepOk(Project(t, c), recordResponse, x);
      }
    }
  }

  /** Two-map invariant: it holds after every sequence of packets and GOAWAY deletions; and without
      GOAWAY exactly the connections in ESTABLISHED, CLOSE_WAIT or LAST_ACK have buffers. */
  lemma {:induction false} TwoMaps(recordResponse: bool, xs: seq<Input>)
    ensures Consistent(Run(EMPTY, recordResponse, xs))
    ensures (forall i :: 0 <= i < |xs| ==> xs[i].Pkt?) ==> NoneMissing(Run(EMPTY, recordResponse, xs))
  {
    if xs != [] {
      TwoMaps(recordResponse, xs[..|xs| - 1]);
      StepConsistent(Run(EMPTY, recordResponse, xs[..|xs| - 1]), recordResponse, xs[|xs| - 1]);
    }
  }

  // ---------------------------------------------------------------------------------------------
  // Non-interference

  function Only(xs: seq<Input>, c: DirectConn): (ys: seq<Input>)
    ensures forall i :: 0 <= i < |ys| ==> ConnOf(ys[i]) == c
  {
    if xs == [] then []
    else if ConnOf(xs[|xs| - 1]) == c then Only(xs[..|xs| - 1], c) + [xs[|xs| - 1]]
    else Only(xs[..|xs| - 1], c)
  }

  /** Connection non-interference: what is tracked for a connection after any mix of packets over
      any connections is what its own packets alone, in both directions, would leave. */
  lemma {:induction false} ConnectionsDoNotInterfere(recordResponse: bool, xs: seq<Input>, c: DirectConn)
    ensures Project(Run(EMPTY, recordResponse, xs), c) == Project(Run(EMPTY, recordResponse, Only(xs, c)), c)
  {
    if xs != [] {
      var before, x := xs[..|xs| - 1], xs[|xs| - 1];
      ConnectionsDoNotInterfere(recordResponse, before, c);
      TwoMaps(recordResponse, before);
      TwoMaps(recordResponse, Only(before, c));
      StepIsLocal(Run(EMPTY, recordResponse, before), recordResponse, x, c);
      if ConnOf(x) == c {
        StepIsLocal(Run(EMPTY, recordResponse, Only(before, c)), recordResponse, x, c);
        assert Only(xs, c)[..|Only(xs, c)| - 1] == Only(before, c);
      }
    }
  }

  /** A packet and its answer belong to one connection. */
  lemma BothDirectionsOneKey(p: NetPkg, q: NetPkg)
    requires p.direction == DirIncoming && q.direction == DirOutcoming && q.dc == Reverse(p.dc)
    ensures Key(p) == Key(q) == p.dc
  {
  }

  // ---------------------------------------------------------------------------------------------
  // Gate and incarnations

  /** The events of connection c, in order. */
  function EventsOf(xs: seq<Input>, c: DirectConn): seq<Event> {
    if xs == [] then []
    else
      var x := xs[|xs| - 1];
      EventsOf(xs[..|xs| - 1], c)
      + (if x.Pkt? && Key(x.pkg) == c && EventOf(x.pkg).Some? then [EventOf(x.pkg).value] else [])
  }

  /** The current entry of c was made by input n, and its history is that of the events since. */
  ghost predicate EntrySince(recordResponse: bool, xs: seq<Input>, c: DirectConn, n: nat) {
    var t := Run(EMPTY, recordResponse, xs);
    && n < |xs| && c in t.connStates
    && c !in Run(EMPTY, recordResponse, xs[..n]).connStates
    && t.connStates[c].states == Replay(EventsOf(xs[n..], c))
  }

  lemma StepEntry(t: Tracked, recordResponse: bool, x: Input, c: DirectConn)
    requires Consistent(t)
    ensures var u := Step(t, recordResponse, x);
            var own := x.Pkt? && Key(x.pkg) == c;
            && (c in t.connStates && c in u.connStates ==>
                  u.connStates[c].states ==
                  if own && EventOf(x.pkg).Some? then Fire(t.connStates[c].states, EventOf(x.pkg).value)
                  else t.connStates[c].states)
            && (c !in t.connStates && c in u.connStates ==>
                  own && u.connStates[c].states ==
                  if EventOf(x.pkg).Some? then Fire([Listen], EventOf(x.pkg).value) else [Listen])
  {
    StepIsLocal(t, recordResponse, x, c);
    LocalEntry(Project(t, c), recordResponse, x);
  }

  lemma LocalEntry(l: Local, recordResponse: bool, x: Input)
    requires l.entry.Some? ==> l.entry.value.states != [] && Last(l.entry.value.states) == l.entry.value.state
    ensures var l' := LocalStep(l, recordResponse, x);
            l'.entry.Some? && (x.Pkt? || l.entry.Some?) ==>
              var h := if l.entry.Some? then l.entry.value.states else [Listen];
              l'.entry.value.states ==
                if x.Pkt? && EventOf(x.pkg).Some? then Fire(h, EventOf(x.pkg).value) else h
    ensures LocalStep(l, recordResponse, x).entry.Some? ==> x.Pkt? || l.entry.Some?
  {
  }

  lemma EventsSnoc(xs: seq<Input>, n: nat, c: DirectConn)
    requires n < |xs|
    ensures var x := xs[|xs| - 1];
            EventsOf(xs[n..], c) == EventsOf(xs[n..|xs| - 1], c)
              + (if x.Pkt? && Key(x.pkg) == c && EventOf(x.pkg).Some? then [EventOf(x.pkg).value] else [])
  {
    var ys := xs[n..];
    assert ys[..|ys| - 1] == xs[n..|xs| - 1] && ys[|ys| - 1] == xs[|xs| - 1];
  }

  /** The history of an entry before and after the last input. */
  lemma StatesAfter(recordResponse: bool, xs: seq<Input>, c: DirectConn)
    requires xs != [] && c in Run(EMPTY, recordResponse, xs[..|xs| - 1]).connStates
    requires c in Run(EMPTY, recordResponse, xs).connStates
    ensures var x := xs[|xs| - 1];
            var h := Run(EMPTY, recordResponse, xs[..|xs| - 1]).connStates[c].states;
            h != [] && Run(EMPTY, recordResponse, xs).connStates[c].states ==
            if x.Pkt? && Key(x.pkg) == c && EventOf(x.pkg).Some? then Fire(h, EventOf(x.pkg).value) else h
  {
    TwoMaps(recordResponse, xs[..|xs| - 1]);
    StepEntry(Run(EMPTY, recordResponse, xs[..|xs| - 1]), recordResponse, xs[|xs| - 1], c);
  }

  lemma EntryStays(recordResponse: bool, xs: seq<Input>, c: DirectConn, n: nat)
    requires xs != [] && EntrySince(recordResponse, xs[..|xs| - 1], c, n)
    requires c in Run(EMPTY, recordResponse, xs).connStates
    ensures EntrySince(recordResponse, xs, c, n)
  {
    StatesAfter(recordResponse, xs, c);
    ReplaySnoc(xs, n, c);
    assert xs[..|xs| - 1][..n] == xs[..n];
  }

  /** The history after one more input. */
  lemma ReplaySnoc(xs: seq<Input>, n: nat, c: DirectConn)
    requires n < |xs|
    ensures var x := xs[|xs| - 1];
            var h := Replay(EventsOf(xs[..|xs| - 1][n..], c));
            Replay(EventsOf(xs[n..], c)) ==
            if x.Pkt? && Key(x.pkg) == c && EventOf(x.pkg).Some? then Fire(h, EventOf(x.pkg).value) else h
  {
    EventsSnoc(xs, n, c);
    assert xs[..|xs| - 1][n..] == xs[n..|xs| - 1];
    ReplayFire(EventsOf(xs[n..|xs| - 1], c), xs[|xs| - 1], c);
  }

  lemma EntryBorn(recordResponse: bool, xs: seq<Input>, c: DirectConn)
    requires xs != [] && c !in Run(EMPTY, recordResponse, xs[..|xs| - 1]).connStates
    requires c in Run(EMPTY, recordResponse, xs).connStates
    ensures EntrySince(recordResponse, xs, c, |xs| - 1)
  {
    var m, x := |xs| - 1, xs[|xs| - 1];
    TwoMaps(recordResponse, xs[..m]);
    StepEntry(Run(EMPTY, recordResponse, xs[..m]), recordResponse, x, c);
    EventsSnoc(xs, m, c);
    assert xs[m..m] == [];
    ReplayFire([], x, c);
  }

  lemma {:induction false} EntryHistory(recordResponse: bool, xs: seq<Input>, c: DirectConn) returns (n: nat)
    requires c in Run(EMPTY, recordResponse, xs).connStates
    ensures EntrySince(recordResponse, xs, c, n)
  {
    var m := |xs| - 1;
    if c in Run(EMPTY, recordResponse, xs[..m]).connStates {
      n := EntryHistory(recordResponse, xs[..m], c);
      EntryStays(recordResponse, xs, c, n);
    } else {
      n := m;
      EntryBorn(recordResponse, xs, c);
    }
  }

  lemma ReplayFire(es: seq<Event>, x: Input, c: DirectConn)
    ensures x.Pkt? && EventOf(x.pkg).Some? ==>
              Replay(es + [EventOf(x.pkg).value]) == Fire(Replay(es), EventOf(x.pkg).value)
    ensures es + [] == es
  {
    if x.Pkt? && EventOf(x.pkg).Some? {
      var es' := es + [EventOf(x.pkg).value];
      assert es'[..|es'| - 1] == es;
    }
  }

  /** Handshake gate: if a packet with payload changes any buffer, its connection has an entry
      whose events contain the handshake, completed, and no FIN or RST accepted since. */
  lemma PayloadGate(recordResponse: bool, xs: seq<Input>, p: NetPkg) returns (n: nat)
    requires p.payload != []
    ensures var t := Run(EMPTY, recordResponse, xs);
            StepPkg(t, recordResponse, p).connRepository != t.connRepository ==>
              && EntrySince(recordResponse, xs, Key(p), n)
              && HandshakeSeen(EventsOf(xs[n..], Key(p))) && OpenNow(EventsOf(xs[n..], Key(p)))
  {
    n := 0;
    var t := Run(EMPTY, recordResponse, xs);
    if StepPkg(t, recordResponse, p).connRepository == t.connRepository {
      return;
    }
    TwoMaps(recordResponse, xs);
    assert EventOf(p) == None;
    assert Key(p) in t.connStates && t.connStates[Key(p)].state == Established;
    n := EntryHistory(recordResponse, xs, Key(p));
    var es := EventsOf(xs[n..], Key(p));
    OpenExactly(es);
    EstablishedExactly(es);
    assert Last(Replay(es)) in Replay(es);
  }

  /** Exactly when a connection is established: its entry's events say so. */
  lemma EstablishedGate(recordResponse: bool, xs: seq<Input>, c: DirectConn) returns (n: nat)
    requires c in Run(EMPTY, recordResponse, xs).connStates
    ensures EntrySince(recordResponse, xs, c, n)
    ensures var e := Run(EMPTY, recordResponse, xs).connStates[c];
            && (Established in e.states <==> HandshakeSeen(EventsOf(xs[n..], c)))
            && (e.state == Established <==> OpenNow(EventsOf(xs[n..], c)))
  {
    n := EntryHistory(recordResponse, xs, c);
    TwoMaps(recordResponse, xs);
    EstablishedExactly(EventsOf(xs[n..], c));
    OpenExactly(EventsOf(xs[n..], c));
  }

  // ---------------------------------------------------------------------------------------------

  function FeedAll(b: Buffers, recordResponse: bool, ps: seq<NetPkg>): Buffers {
    if ps == [] then b else Feed(FeedAll(b, recordResponse, ps[..|ps| - 1]), recordResponse, ps[|ps| - 1])
  }

  /** Whether x is a payload packet of c that comes while c is established. */
  predicate IsFed(t: Tracked, x: Input, c: DirectConn) {
    && x.Pkt? && Key(x.pkg) == c && x.pkg.payload != []
    && c in t.connStates && t.connStates[c].state == Established
  }

  /** The packets of c fed among inputs n to |xs|. */
  function Payloads(recordResponse: bool, xs: seq<Input>, n: nat, c: DirectConn): seq<NetPkg>
    requires n <= |xs|
    decreases |xs|
  {
    if |xs| == n then []
    else
      var before, x := xs[..|xs| - 1], xs[|xs| - 1];
      if IsFed(Run(EMPTY, recordResponse, before), x, c)
      then Payloads(recordResponse, before, n, c) + [x.pkg]
      else Payloads(recordResponse, before, n, c)
  }

  lemma FeedAllSnoc(b: Buffers, recordResponse: bool, ps: seq<NetPkg>, p: NetPkg)
    ensures FeedAll(b, recordResponse, ps + [p]) == Feed(FeedAll(b, recordResponse, ps), recordResponse, p)
  {
    assert (ps + [p])[..|ps|] == ps;
  }

  /** Input n completes a handshake of c, and from then on c is between handshake and close. */
  ghost predicate BornAt(recordResponse: bool, xs: seq<Input>, n: nat, c: DirectConn) {
    && n < |xs| && xs[n].Pkt? && Key(xs[n].pkg) == c && EventOf(xs[n].pkg) == Some(ReceiveACK)
    && c !in Run(EMPTY, recordResponse, xs[..n]).connRepository
    && forall m :: n < m <= |xs| ==> c in Run(EMPTY, recordResponse, xs[..m]).connRepository
  }

  lemma StepBuffers(t: Tracked, recordResponse: bool, x: Input, c: DirectConn)
    requires Consistent(t)
    ensures c in Step(t, recordResponse, x).connRepository ==>
              var b := Step(t, recordResponse, x).connRepository[c];
              if c in t.connRepository then
                b == if IsFed(t, x, c) then Feed(t.connRepository[c], recordResponse, x.pkg) else t.connRepository[c]
              else x.Pkt? && Key(x.pkg) == c && EventOf(x.pkg) == Some(ReceiveACK) && b == NewBuffers(x.pkg)
  {
    StepIsLocal(t, recordResponse, x, c);
    if c in Step(t, recordResponse, x).connRepository && x.Pkt? && Key(x.pkg) == c {
      LocalBuffers(Project(t, c), recordResponse, x.pkg);
    }
  }

  lemma LocalBuffers(l: Local, recordResponse: bool, p: NetPkg)
    requires LocalOk(Key(p), l) && LocalPkg(l, recordResponse, p).buffers.Some?
    ensures var b := LocalPkg(l, recordResponse, p).buffers.value;
            if l.buffers.Some? then
              b == if p.payload != [] && l.entry.value.state == Established
                   then Feed(l.buffers.value, recordResponse, p) else l.buffers.value
            else EventOf(p) == Some(ReceiveACK) && b == NewBuffers(p)
  {
  }

  lemma BornStays(recordResponse: bool, xs: seq<Input>, n: nat, c: DirectConn)
    requires xs != [] && BornAt(recordResponse, xs[..|xs| - 1], n, c)
    ensures c in Run(EMPTY, recordResponse, xs).connRepository ==> BornAt(recordResponse, xs, n, c)
  {
    var before := xs[..|xs| - 1];
    if c !in Run(EMPTY, recordResponse, xs).connRepository {
      return;
    }
    assert xs[..n] == before[..n] && xs[n] == before[n];
    forall m | n < m <= |xs|
      ensures c in Run(EMPTY, recordResponse, xs[..m]).connRepository
    {
      if m <= |before| {
        assert xs[..m] == before[..m];
      } else {
        assert xs[..m] == xs;
      }
    }
  }

  lemma BornNow(recordResponse: bool, xs: seq<Input>, c: DirectConn)
    requires xs != []
    ensures c !in Run(EMPTY, recordResponse, xs[..|xs| - 1]).connRepository && c in Run(EMPTY, recordResponse, xs).connRepository ==>
              && BornAt(recordResponse, xs, |xs| - 1, c)
              && Run(EMPTY, recordResponse, xs).connRepository[c] == NewBuffers(xs[|xs| - 1].pkg)
  {
    TwoMaps(recordResponse, xs[..|xs| - 1]);
    StepBuffers(Run(EMPTY, recordResponse, xs[..|xs| - 1]), recordResponse, xs[|xs| - 1], c);
    assert xs[..|xs|] == xs;
  }

  /** The buffers of an incarnation after one more input. */
  lemma FedOnce(recordResponse: bool, xs: seq<Input>, c: DirectConn, n: nat, b: Buffers)
    requires xs != [] && n < |xs|
    requires var t := Run(EMPTY, recordResponse, xs[..|xs| - 1]);
             c in t.connRepository
             && t.connRepository[c] == FeedAll(b, recordResponse, Payloads(recordResponse, xs[..|xs| - 1], n, c))
    requires c in Run(EMPTY, recordResponse, xs).connRepository
    ensures Run(EMPTY, recordResponse, xs).connRepository[c]
         == FeedAll(b, recordResponse, Payloads(recordResponse, xs, n, c))
  {
    var before, x := xs[..|xs| - 1], xs[|xs| - 1];
    TwoMaps(recordResponse, before);
    StepBuffers(Run(EMPTY, recordResponse, before), recordResponse, x, c);
    if x.Pkt? {
      FeedAllSnoc(b, recordResponse, Payloads(recordResponse, before, n, c), x.pkg);
    }
  }

  /** Incarnations: the buffers a connection has now were made by the packet that completed its
      last handshake, and hold only what was fed to them since then. */
  lemma {:induction false} Incarnation(recordResponse: bool, xs: seq<Input>, c: DirectConn) returns (n: nat)
    requires c in Run(EMPTY, recordResponse, xs).connRepository
    ensures BornAt(recordResponse, xs, n, c)
    ensures Run(EMPTY, recordResponse, xs).connRepository[c]
         == FeedAll(NewBuffers(xs[n].pkg), recordResponse, Payloads(recordResponse, xs, n + 1, c))
  {
    var before := xs[..|xs| - 1];
    if c in Run(EMPTY, recordResponse, before).connRepository {
      n := Incarnation(recordResponse, before, c);
      BornStays(recordResponse, xs, n, c);
      FedOnce(recordResponse, xs, c, n + 1, NewBuffers(xs[n].pkg));
    } else {
      n := |xs| - 1;
      BornNow(recordResponse, xs, c);
    }
  }
}
