/** The TCP state machine of a tracked connection, seen from the server. */
module StateMachine {
  import opened Bytes

  datatype ConnState = Listen | SynReceived1 | SynReceived2 | Established | CloseWait | LastAck | Closed
  datatype Event = ReceiveSYN | ReceiveACK | SendSYNACK | ReceiveFIN | SendACK | SendFIN | ReceiveRST

  /** The transition table; None is an error that changes nothing. */
  function Transition(s: ConnState, e: Event): Option<ConnState> {
    match (s, e)
    case (Listen, ReceiveSYN) => Some(SynReceived1)
    case (SynReceived1, SendSYNACK) => Some(SynReceived2)
    case (SynReceived2, ReceiveACK) => Some(Established)
    case (Established, ReceiveACK) => Some(Established)
    case (Established, SendACK) => Some(Established)
    case (SynReceived1, ReceiveSYN) => Some(SynReceived1)
    case (SynReceived2, SendSYNACK) => Some(SynReceived2)
    case (Listen, SendACK) => Some(Listen)
    case (Established, ReceiveFIN) => Some(CloseWait)
    case (CloseWait, SendACK) => Some(CloseWait)
    case (CloseWait, SendFIN) => Some(LastAck)
    case (LastAck, ReceiveACK) => Some(Closed)
    case (Established, ReceiveRST) => Some(Closed)
    case (Listen, ReceiveRST) => Some(Closed)
    case _ => None
  }

  function Rank(s: ConnState): nat {
    match s
    case Listen => 0
    case SynReceived1 => 1
    case SynReceived2 => 2
    case Established => 3
    case CloseWait => 4
    case LastAck => 5
    case Closed => 6
  }

  function Last(h: seq<ConnState>): ConnState
    requires h != []
  {
    h[|h| - 1]
  }

  /** Whether the event enters another state. */
  predicate Moves(s: ConnState, e: Event) {
    Transition(s, e).Some? && Transition(s, e).value != s
  }

  /** The history after one more event: OnEnter appends the state it enters. */
  function Fire(h: seq<ConnState>, e: Event): (r: seq<ConnState>)
    requires h != []
    ensures r != []
  {
    if Moves(Last(h), e) then h + [Transition(Last(h), e).value] else h
  }

  /** The history of a new entry after the events es. */
  function Replay(es: seq<Event>): (h: seq<ConnState>)
    ensures h != []
  {
    if es == [] then [Listen] else Fire(Replay(es[..|es| - 1]), es[|es| - 1])
  }

  ghost predicate CanMove(a: ConnState, b: ConnState) {
    exists e :: Moves(a, e) && Transition(a, e) == Some(b)
  }

  ghost predicate Linked(h: seq<ConnState>) {
    forall i :: 0 <= i < |h| - 1 ==> CanMove(h[i], h[i + 1])
  }

  predicate Climbs(h: seq<ConnState>) {
    forall i, j :: 0 <= i < j < |h| ==> Rank(h[i]) < Rank(h[j])
  }

  /** A walk through the table from LISTEN that never stays or goes back. */
  ghost predicate IsPath(h: seq<ConnState>) {
    h != [] && h[0] == Listen && Linked(h) && Climbs(h)
  }

  lemma TransitionClimbs(s: ConnState, e: Event)
    requires Moves(s, e)
    ensures Rank(s) < Rank(Transition(s, e).value)
  {
  }

  lemma LinkedSnoc(h: seq<ConnState>, s: ConnState)
    requires h != [] && Linked(h) && CanMove(Last(h), s)
    ensures Linked(h + [s])
  {
    var r := h + [s];
    forall i | 0 <= i < |r| - 1
      ensures CanMove(r[i], r[i + 1])
    {
      if i < |h| - 1 {
        assert r[i] == h[i] && r[i + 1] == h[i + 1];
      }
    }
  }

  lemma ClimbsSnoc(h: seq<ConnState>, s: ConnState)
    requires h != [] && Climbs(h) && Rank(Last(h)) < Rank(s)
    ensures Climbs(h + [s])
  {
    var r := h + [s];
    forall i, j | 0 <= i < j < |r|
      ensures Rank(r[i]) < Rank(r[j])
    {
      assert i == |h| - 1 || Rank(h[i]) < Rank(h[|h| - 1]);
    }
  }

  lemma FireIsPath(h: seq<ConnState>, e: Event)
    requires IsPath(h)
    ensures IsPath(Fire(h, e))
  {
    if Moves(Last(h), e) {
      var to := Transition(Last(h), e).value;
      TransitionClimbs(Last(h), e);
      assert CanMove(Last(h), to);
      LinkedSnoc(h, to);
      ClimbsSnoc(h, to);
    }
  }

  /** Every history is such a walk, so no state, ESTABLISHED in particular, is entered twice. */
  lemma {:induction false} HistoryIsPath(es: seq<Event>)
    ensures IsPath(Replay(es))
    ensures forall i, j :: 0 <= i < j < |Replay(es)| ==> Replay(es)[i] != Replay(es)[j]
  {
    if es != [] {
      HistoryIsPath(es[..|es| - 1]);
      FireIsPath(Replay(es[..|es| - 1]), es[|es| - 1]);
    }
  }

  // ---------------------------------------------------------------------------------------------
  // Which event sequences reach which state, said without the machine.

  predicate NoReset(es: seq<Event>, n: nat)
    requires n <= |es|
  {
    forall r :: 0 <= r < n ==> es[r] != ReceiveRST
  }

  /** A SYN arrives at i, and no reset before it. */
  predicate SynAt(es: seq<Event>, i: nat) {
    i < |es| && es[i] == ReceiveSYN && NoReset(es, i)
  }

  predicate SynAckAt(es: seq<Event>, i: nat, j: nat) {
    SynAt(es, i) && i < j < |es| && es[j] == SendSYNACK
  }

  predicate AckAt(es: seq<Event>, i: nat, j: nat, k: nat) {
    SynAckAt(es, i, j) && j < k < |es| && es[k] == ReceiveACK
  }

  ghost predicate SynSeen(es: seq<Event>) {
    exists i :: SynAt(es, i)
  }

  ghost predicate SynAckSeen(es: seq<Event>) {
    exists i, j :: SynAckAt(es, i, j)
  }

  /** The handshake is a subsequence, with no reset before its SYN. */
  ghost predicate HandshakeSeen(es: seq<Event>) {
    exists i, j, k :: AckAt(es, i, j, k)
  }

  /** What happened within es, happened within es and one more event. */
  lemma AtSnoc(es: seq<Event>, e: Event, i: nat, j: nat, k: nat)
    ensures i < |es| ==> SynAt(es + [e], i) == SynAt(es, i)
    ensures j < |es| ==> SynAckAt(es + [e], i, j) == SynAckAt(es, i, j)
    ensures k < |es| ==> AckAt(es + [e], i, j, k) == AckAt(es, i, j, k)
  {
    var es' := es + [e];
    assert forall r :: 0 <= r < |es| ==> es'[r] == es[r];
  }

  lemma NoResetSnoc(es: seq<Event>, e: Event)
    ensures NoReset(es + [e], |es|) == NoReset(es, |es|)
  {
    assert forall r :: 0 <= r < |es| ==> (es + [e])[r] == es[r];
  }

  lemma SynSnoc(es: seq<Event>, e: Event)
    ensures SynSeen(es + [e]) <==> SynSeen(es) || (e == ReceiveSYN && NoReset(es, |es|))
  {
    if SynSeen(es) {
      var i :| SynAt(es, i);
      AtSnoc(es, e, i, 0, 0);
    } else if e == ReceiveSYN && NoReset(es, |es|) {
      assert SynAt(es + [e], |es|);
    } else if SynSeen(es + [e]) {
      var i :| SynAt(es + [e], i);
      NoResetSnoc(es, e);
      AtSnoc(es, e, i, 0, 0);
      assert false;
    }
  }

  lemma SynAckSnoc(es: seq<Event>, e: Event)
    ensures SynAckSeen(es + [e]) <==> SynAckSeen(es) || (e == SendSYNACK && SynSeen(es))
  {
    if SynAckSeen(es) {
      var i, j :| SynAckAt(es, i, j);
      AtSnoc(es, e, i, j, 0);
    } else if e == SendSYNACK && SynSeen(es) {
      var i :| SynAt(es, i);
      AtSnoc(es, e, i, 0, 0);
      assert SynAckAt(es + [e], i, |es|);
    } else if SynAckSeen(es + [e]) {
      var i, j :| SynAckAt(es + [e], i, j);
      AtSnoc(es, e, i, j, 0);
      assert false;
    }
  }

  lemma HandshakeSnoc(es: seq<Event>, e: Event)
    ensures HandshakeSeen(es + [e]) <==> HandshakeSeen(es) || (e == ReceiveACK && SynAckSeen(es))
  {
    if HandshakeSeen(es) {
      var i, j, k :| AckAt(es, i, j, k);
      AtSnoc(es, e, i, j, k);
    } else if e == ReceiveACK && SynAckSeen(es) {
      var i, j :| SynAckAt(es, i, j);
      AtSnoc(es, e, i, j, 0);
      assert AckAt(es + [e], i, j, |es|);
    } else if HandshakeSeen(es + [e]) {
      var i, j, k :| AckAt(es + [e], i, j, k);
      AtSnoc(es, e, i, j, k);
      assert false;
    }
  }

  /** How far the history has come, in those terms. */
  ghost predicate Matches(es: seq<Event>, h: seq<ConnState>) {
    && h != []
    && (Last(h) == Listen <==> !SynSeen(es) && NoReset(es, |es|))
    && (SynReceived1 in h <==> SynSeen(es))
    && (SynReceived2 in h <==> SynAckSeen(es))
    && (Established in h <==> HandshakeSeen(es))
    && (Last(h) == SynReceived1 <==> SynReceived1 in h && SynReceived2 !in h)
    && (Last(h) == SynReceived2 <==> SynReceived2 in h && Established !in h)
    && (Rank(Last(h)) > 2 <==> Established in h || Last(h) == Closed)
  }

  lemma MatchesSnoc(es: seq<Event>, e: Event, h: seq<ConnState>)
    requires Matches(es, h)
    ensures Matches(es + [e], Fire(h, e))
  {
    SynSnoc(es, e);
    SynAckSnoc(es, e);
    HandshakeSnoc(es, e);
    var es', h' := es + [e], Fire(h, e);
    assert NoReset(es', |es'|) <==> NoReset(es, |es|) && e != ReceiveRST by {
      assert forall i :: 0 <= i < |es| ==> es'[i] == es[i];
      assert es'[|es|] == e;
    }
  }

  lemma {:induction false} ReplayMatches(es: seq<Event>)
    ensures Matches(es, Replay(es))
  {
    if es != [] {
      ReplayMatches(es[..|es| - 1]);
      MatchesSnoc(es[..|es| - 1], es[|es| - 1], Replay(es[..|es| - 1]));
      assert es == es[..|es| - 1] + [es[|es| - 1]];
    }
  }

  /** The gate: an entry enters ESTABLISHED exactly when its events contain the handshake. */
  lemma EstablishedExactly(es: seq<Event>)
    ensures Established in Replay(es) <==> HandshakeSeen(es)
  {
    ReplayMatches(es);
  }

  /** The handshake completes with the n-th event. */
  ghost predicate CompletesAt(es: seq<Event>, n: nat) {
    0 < n <= |es| && HandshakeSeen(es[..n]) && !HandshakeSeen(es[..n - 1])
  }

  predicate Closes(e: Event) {
    e == ReceiveFIN || e == ReceiveRST
  }

  predicate NoClosing(es: seq<Event>, from: nat) {
    forall i :: from <= i < |es| ==> !Closes(es[i])
  }

  /** The handshake has completed, and no FIN or RST was received since. */
  ghost predicate OpenNow(es: seq<Event>) {
    exists n: nat :: CompletesAt(es, n) && NoClosing(es, n)
  }

  lemma CompletesSnoc(es: seq<Event>, e: Event, n: nat)
    ensures CompletesAt(es + [e], n) <==>
            CompletesAt(es, n) || (n == |es| + 1 && HandshakeSeen(es + [e]) && !HandshakeSeen(es))
  {
    var es' := es + [e];
    if 0 < n <= |es| {
      assert es'[..n] == es[..n] && es'[..n - 1] == es[..n - 1];
    } else if n == |es| + 1 {
      assert es'[..n] == es' && es'[..n - 1] == es;
    }
  }

  lemma {:induction false} HandshakeStays(es: seq<Event>, n: nat, p: nat)
    requires n <= p <= |es| && HandshakeSeen(es[..n])
    ensures HandshakeSeen(es[..p])
    decreases p - n
  {
    if n < p {
      HandshakeStays(es, n, p - 1);
      HandshakeSnoc(es[..p - 1], es[p - 1]);
      assert es[..p] == es[..p - 1] + [es[p - 1]];
    }
  }

  /** The handshake completes at most once. */
  lemma OneCompletion(es: seq<Event>, n: nat, p: nat)
    requires CompletesAt(es, n) && CompletesAt(es, p)
    ensures n == p
  {
    if n < p {
      HandshakeStays(es, n, p - 1);
    } else if p < n {
      HandshakeStays(es, p, n - 1);
    }
  }

  lemma OpenSnoc(es: seq<Event>, e: Event)
    ensures OpenNow(es + [e]) <==>
            (OpenNow(es) && !Closes(e)) || (e == ReceiveACK && SynAckSeen(es) && !HandshakeSeen(es))
  {
    var es' := es + [e];
    HandshakeSnoc(es, e);
    if OpenNow(es') {
      var n: nat :| CompletesAt(es', n) && NoClosing(es', n);
      CompletesSnoc(es, e, n);
      if n <= |es| {
        assert forall i :: n <= i < |es| ==> es[i] == es'[i];
        assert NoClosing(es, n) && !Closes(es'[|es|]);
      }
    }
    if OpenNow(es) && !Closes(e) {
      var n: nat :| CompletesAt(es, n) && NoClosing(es, n);
      CompletesSnoc(es, e, n);
      assert NoClosing(es', n);
    } else if e == ReceiveACK && SynAckSeen(es) && !HandshakeSeen(es) {
      CompletesSnoc(es, e, |es| + 1);
      assert NoClosing(es', |es| + 1);
    }
  }

  /** The state is ESTABLISHED from the completing event on, until the first FIN or RST received. */
  lemma {:induction false} OpenExactly(es: seq<Event>)
    ensures Last(Replay(es)) == Established <==> OpenNow(es)
  {
    if es != [] {
      var before, e := es[..|es| - 1], es[|es| - 1];
      assert es == before + [e];
      OpenExactly(before);
      ReplayMatches(before);
      OpenSnoc(before, e);
    }
  }
}
