/** How a tracked connection ends: which event sequences reach CLOSE_WAIT, LAST_ACK and CLOSED, said
    without the machine. */
module Teardown {
  import opened Bytes
  import opened StateMachine

  /** The client's FIN, while the connection is open. */
  ghost predicate FinAt(es: seq<Event>, f: nat) {
    f < |es| && es[f] == ReceiveFIN && OpenNow(es[..f])
  }

  ghost predicate FinSentAt(es: seq<Event>, f: nat, s: nat) {
    FinAt(es, f) && f < s < |es| && es[s] == SendFIN
  }

  ghost predicate LastAckAt(es: seq<Event>, f: nat, s: nat, a: nat) {
    FinSentAt(es, f, s) && s < a < |es| && es[a] == ReceiveACK
  }

  ghost predicate FinSeen(es: seq<Event>) {
    exists f :: FinAt(es, f)
  }

  ghost predicate FinSentSeen(es: seq<Event>) {
    exists f, s :: FinSentAt(es, f, s)
  }

  /** The client's FIN, the server's, and an ACK, in that order. */
  ghost predicate TornDown(es: seq<Event>) {
    exists f, s, a :: LastAckAt(es, f, s, a)
  }

  predicate NoSyn(es: seq<Event>, n: nat)
    requires n <= |es|
  {
    forall i :: 0 <= i < n ==> es[i] != ReceiveSYN
  }

  /** A reset while the connection is open, or before any SYN. */
  ghost predicate ResetAt(es: seq<Event>, r: nat) {
    r < |es| && es[r] == ReceiveRST && (OpenNow(es[..r]) || NoSyn(es, r))
  }

  ghost predicate ResetSeen(es: seq<Event>) {
    exists r :: ResetAt(es, r)
  }

  ghost predicate Over(es: seq<Event>) {
    ResetSeen(es) || TornDown(es)
  }

  /** What happened within es, happened within es and one more event. */
  lemma AtSnoc(es: seq<Event>, e: Event, f: nat, s: nat, a: nat)
    ensures f < |es| ==> FinAt(es + [e], f) == FinAt(es, f) && ResetAt(es + [e], f) == ResetAt(es, f)
    ensures s < |es| ==> FinSentAt(es + [e], f, s) == FinSentAt(es, f, s)
    ensures a < |es| ==> LastAckAt(es + [e], f, s, a) == LastAckAt(es, f, s, a)
  {
    var es' := es + [e];
    if f < |es| {
      assert es'[..f] == es[..f];
      assert forall i :: 0 <= i < f ==> es'[i] == es[i];
    }
  }

  lemma FinSnoc(es: seq<Event>, e: Event)
    ensures FinSeen(es + [e]) <==> FinSeen(es) || (e == ReceiveFIN && OpenNow(es))
  {
    assert (es + [e])[..|es|] == es;
    if FinSeen(es) {
      var f :| FinAt(es, f);
      AtSnoc(es, e, f, 0, 0);
    } else if e == ReceiveFIN && OpenNow(es) {
      assert FinAt(es + [e], |es|);
    } else if FinSeen(es + [e]) {
      var f :| FinAt(es + [e], f);
      AtSnoc(es, e, f, 0, 0);
      assert false;
    }
  }

  lemma ResetSnoc(es: seq<Event>, e: Event)
    ensures ResetSeen(es + [e]) <==> ResetSeen(es) || (e == ReceiveRST && (OpenNow(es) || NoSyn(es, |es|)))
  {
    assert (es + [e])[..|es|] == es;
    NoSynSnoc(es, e);
    if ResetSeen(es) {
      var r :| ResetAt(es, r);
      AtSnoc(es, e, r, 0, 0);
    } else if e == ReceiveRST && (OpenNow(es) || NoSyn(es, |es|)) {
      assert ResetAt(es + [e], |es|);
    } else if ResetSeen(es + [e]) {
      var r :| ResetAt(es + [e], r);
      AtSnoc(es, e, r, 0, 0);
      assert false;
    }
  }

  lemma NoSynSnoc(es: seq<Event>, e: Event)
    ensures NoSyn(es + [e], |es|) == NoSyn(es, |es|)
    ensures NoSyn(es + [e], |es| + 1) <==> NoSyn(es, |es|) && e != ReceiveSYN
  {
    var es' := es + [e];
    assert forall i :: 0 <= i < |es| ==> es'[i] == es[i];
    assert es'[|es|] == e;
  }

  lemma FinSentSnoc(es: seq<Event>, e: Event)
    ensures FinSentSeen(es + [e]) <==> FinSentSeen(es) || (e == SendFIN && FinSeen(es))
  {
    if FinSentSeen(es) {
      var f, s :| FinSentAt(es, f, s);
      AtSnoc(es, e, f, s, 0);
    } else if e == SendFIN && FinSeen(es) {
      var f :| FinAt(es, f);
      AtSnoc(es, e, f, 0, 0);
      assert FinSentAt(es + [e], f, |es|);
    } else if FinSentSeen(es + [e]) {
      var f, s :| FinSentAt(es + [e], f, s);
      AtSnoc(es, e, f, s, 0);
      assert false;
    }
  }

  lemma TornSnoc(es: seq<Event>, e: Event)
    ensures TornDown(es + [e]) <==> TornDown(es) || (e == ReceiveACK && FinSentSeen(es))
  {
    if TornDown(es) {
      var f, s, a :| LastAckAt(es, f, s, a);
      AtSnoc(es, e, f, s, a);
    } else if e == ReceiveACK && FinSentSeen(es) {
      var f, s :| FinSentAt(es, f, s);
      AtSnoc(es, e, f, s, 0);
      assert LastAckAt(es + [e], f, s, |es|);
    } else if TornDown(es + [e]) {
      var f, s, a :| LastAckAt(es + [e], f, s, a);
      AtSnoc(es, e, f, s, a);
      assert false;
    }
  }

  /** The last three states of the table, in those terms. */
  ghost predicate Ends(es: seq<Event>, s: ConnState) {
    && (s == CloseWait <==> FinSeen(es) && !FinSentSeen(es))
    && (s == LastAck <==> FinSentSeen(es) && !TornDown(es))
    && (s == Closed <==> Over(es))
    && (ResetSeen(es) ==> !FinSeen(es))
    && (FinSentSeen(es) ==> FinSeen(es))
    && (NoSyn(es, |es|) ==> s == Listen || s == Closed)
    && (s == Listen ==> NoSyn(es, |es|))
  }

  lemma EndsSnoc(es: seq<Event>, e: Event, h: seq<ConnState>)
    requires h != [] && Ends(es, Last(h)) && (Last(h) == Established <==> OpenNow(es))
    ensures Ends(es + [e], Last(Fire(h, e)))
  {
    FinSnoc(es, e);
    FinSentSnoc(es, e);
    TornSnoc(es, e);
    ResetSnoc(es, e);
    NoSynSnoc(es, e);
  }

  lemma {:induction false} ReplayEnds(es: seq<Event>)
    ensures Ends(es, Last(Replay(es)))
  {
    if es != [] {
      var before, e := es[..|es| - 1], es[|es| - 1];
      assert es == before + [e];
      ReplayEnds(before);
      OpenExactly(before);
      EndsSnoc(before, e, Replay(before));
    }
  }

  /** A connection is over exactly after a reset that comes before any SYN or while it is open, or
      after the client's FIN while open, the server's FIN and an ACK, in that order. */
  lemma ClosedExactly(es: seq<Event>)
    ensures Last(Replay(es)) == Closed <==> ResetSeen(es) || TornDown(es)
  {
    ReplayEnds(es);
  }

  lemma CloseWaitExactly(es: seq<Event>)
    ensures Last(Replay(es)) == CloseWait <==> FinSeen(es) && !FinSentSeen(es)
  {
    ReplayEnds(es);
  }

  lemma LastAckExactly(es: seq<Event>)
    ensures Last(Replay(es)) == LastAck <==> FinSentSeen(es) && !TornDown(es)
  {
    ReplayEnds(es);
  }
}
