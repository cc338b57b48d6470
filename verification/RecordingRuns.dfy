/** Recording mode: runs in which a message lacks part of the request or of the response, and exactly
    when there are such runs. */
module RecordingRuns {
  import opened Bytes
  import opened StreamTable
  import opened Protocol
  import opened Messages
  import opened RecordingMode
  import opened RecordingInvariants

  /** Without timers, if the run before is. */
  ghost predicate Calm(before: Trace, r: Trace) {
    NoTimer(before.actions) ==> NoTimer(r.actions)
  }

  lemma Grow(x: Stream, before: Trace, s: State, a: Action, t: State) returns (r: Trace)
    requires Runs(x, before, s) && Next(x, s, a) == Some(t)
    ensures Runs(x, r, t) && (!a.Timer? ==> Calm(before, r))
  {
    r := Trace(before.states + [t], before.actions + [a]);
  }

  // ---------------------------------------------------------------------------------------------
  // Frames arrive

  lemma {:induction false} NotYetEnded(es: seq<Effect>, k: nat)
    requires Ends(es) && k < |es|
    ensures !Whole(es[..k]).endStream
  {
    if k > 0 {
      NotYetEnded(es, k - 1);
      WholeSnoc(es[..k], k - 1);
      assert es[..k][..k - 1] == es[..k - 1];
    }
  }

  lemma EndsEnded(es: seq<Effect>)
    requires Ends(es)
    ensures Whole(es).endStream
  {
  }

  /** What a goroutine does once its frame is stored. */
  function AfterStore(s: State, side: Side, e: Effect): State {
    if e.continuation then NextFrame(s, side) else Go(s, side, if side == Incoming then After else Checking)
  }

  lemma StoreNext(x: Stream, before: Trace, s: State, side: Side) returns (r: Trace, t: State)
    requires Runs(x, before, s) && Of(s, side).pc.Storing? && Of(s, side).n < |FramesOf(x, side)|
    ensures Runs(x, r, t) && Calm(before, r)
    ensures t == StoreStep(s, side, FramesOf(x, side)[Of(s, side).n], Of(s, side).pc.access)
  {
    t := StoreStep(s, side, FramesOf(x, side)[Of(s, side).n], Of(s, side).pc.access);
    r := Grow(x, before, s, Step(side), t);
  }

  /** The first k accesses of a frame. */
  lemma {:induction false} StoreSome(x: Stream, before: Trace, s: State, side: Side, k: nat) returns (r: Trace, t: State)
    requires Runs(x, before, s) && Of(s, side).pc == Storing(0) && Of(s, side).n < |FramesOf(x, side)|
    requires k < Accesses(FramesOf(x, side)[Of(s, side).n])
    ensures Runs(x, r, t) && Calm(before, r)
    ensures t == Go(PutItem(s, side, Partly(ItemOf(s, side), FramesOf(x, side)[Of(s, side).n], k)), side, Storing(k))
    decreases k
  {
    var e := FramesOf(x, side)[Of(s, side).n];
    if k == 0 {
      r, t := before, s;
      assert e.fields[..0] == [];
    } else {
      r, t := StoreSome(x, before, s, side, k - 1);
      PartlyStep(ItemOf(s, side), e, k - 1);
      r, t := StoreNext(x, r, t, side);
    }
  }

  lemma StoreFrame(x: Stream, before: Trace, s: State, side: Side) returns (r: Trace, t: State)
    requires Runs(x, before, s) && Of(s, side).pc == Storing(0) && Of(s, side).n < |FramesOf(x, side)|
    ensures Runs(x, r, t) && Calm(before, r)
    ensures var e := FramesOf(x, side)[Of(s, side).n]; t == AfterStore(PutItem(s, side, All(ItemOf(s, side), e)), side, e)
  {
    var e := FramesOf(x, side)[Of(s, side).n];
    r, t := StoreSome(x, before, s, side, Accesses(e) - 1);
    PartlyStep(ItemOf(s, side), e, Accesses(e) - 1);
    r, t := StoreNext(x, r, t, side);
  }

  /** No END_STREAM yet: on to the next frame. */
  lemma PassOn(x: Stream, before: Trace, s: State, side: Side) returns (r: Trace, t: State)
    requires Runs(x, before, s) && Of(s, side).n < |FramesOf(x, side)|
    requires Of(s, side).pc == (if side == Incoming then After else Checking)
    requires !s.response.endStream && (side == Incoming ==> !s.request.endStream)
    ensures Runs(x, r, t) && t == NextFrame(s, side) && Calm(before, r)
  {
    r := before;
    if side == Incoming {
      r := Grow(x, r, s, Step(side), Go(s, side, Checking));
    }
    t := NextFrame(s, side);
    r := Grow(x, r, Go(s, side, Checking), Step(side), t);
  }

  lemma PassFrame(x: Stream, before: Trace, s: State, side: Side) returns (r: Trace, t: State)
    requires Runs(x, before, s) && Of(s, side).pc == Storing(0) && Of(s, side).n < |FramesOf(x, side)|
    requires !s.response.endStream && !All(ItemOf(s, side), FramesOf(x, side)[Of(s, side).n]).endStream
    ensures Runs(x, r, t) && Calm(before, r)
    ensures t == NextFrame(PutItem(s, side, All(ItemOf(s, side), FramesOf(x, side)[Of(s, side).n])), side)
  {
    r, t := StoreFrame(x, before, s, side);
    if !FramesOf(x, side)[Of(s, side).n].continuation {
      r, t := PassOn(x, r, t, side);
    }
  }

  /** A goroutine processes its frames up to number k, the other one standing still. */
  lemma {:induction false} FramesBefore(x: Stream, before: Trace, s: State, side: Side, k: nat)
    returns (r: Trace, t: State)
    requires Ends(FramesOf(x, side)) && Runs(x, before, s) && k < |FramesOf(x, side)|
    requires Of(s, side) == IDLE && ItemOf(s, side) == FRESH_ITEM && !s.response.endStream
    ensures Runs(x, r, t) && Calm(before, r)
    ensures t == Put(PutItem(s, side, Whole(FramesOf(x, side)[..k])), side, Goroutine(Storing(0), k))
  {
    if k == 0 {
      r, t := before, s;
    } else {
      r, t := FramesBefore(x, before, s, side, k - 1);
      NotYetEnded(FramesOf(x, side), k - 1);
      NotYetEnded(FramesOf(x, side), k);
      WholeSnoc(FramesOf(x, side), k - 1);
      r, t := PassFrame(x, r, t, side);
    }
  }

  /** All frames, the last one's END_STREAM still to be looked at. */
  lemma AllFrames(x: Stream, before: Trace, s: State, side: Side) returns (r: Trace, t: State)
    requires Ends(FramesOf(x, side)) && Runs(x, before, s)
    requires Of(s, side) == IDLE && ItemOf(s, side) == FRESH_ITEM && !s.response.endStream
    ensures Runs(x, r, t) && Calm(before, r)
    ensures var es := FramesOf(x, side);
            t == Put(PutItem(s, side, Whole(es)), side,
                     Goroutine(if side == Incoming then After else Checking, |es| - 1))
  {
    var n := |FramesOf(x, side)| - 1;
    r, t := FramesBefore(x, before, s, side, n);
    WholeSnoc(FramesOf(x, side), n);
    r, t := StoreFrame(x, r, t, side);
  }

  /** The input goroutine processes all its frames, up to the token, before any response comes. */
  lemma RequestArrives(x: Stream) returns (r: Trace, t: State)
    requires Ends(x.requests)
    ensures Runs(x, r, t) && NoTimer(r.actions)
    ensures t == START.(input := Goroutine(Sending(0), |x.requests| - 1), request := Whole(x.requests))
  {
    var s: State;
    r, s := AllFrames(x, EMPTY, START, Incoming);
    EndsEnded(x.requests);
    var u := Go(s, Incoming, Signal);
    r := Grow(x, r, s, Step(Incoming), u);
    t := Go(u, Incoming, Sending(0));
    r := Grow(x, r, u, Step(Incoming), t);
  }

  /** Then the output goroutine processes all its frames and waits; its timer fires. */
  lemma ResponseTimesOut(x: Stream, before: Trace, s: State) returns (r: Trace, t: State)
    requires Ends(x.responses) && Runs(x, before, s)
    requires s.output == IDLE && s.response == FRESH_ITEM && s.done == 0
    ensures Runs(x, r, t)
    ensures t == s.(output := Goroutine(Building(false, NOTHING_READ), |x.responses| - 1),
                    response := Whole(x.responses), timedOut := true)
  {
    var s1: State;
    r, s1 := AllFrames(x, before, s, Outgoing);
    EndsEnded(x.responses);
    var s2 := Go(s1, Outgoing, Fetch);
    r := Grow(x, r, s1, Step(Outgoing), s2);
    var s3 := Go(s2, Outgoing, Waiting(0));
    r := Grow(x, r, s2, Step(Outgoing), s3);
    t := Go(s3.(timedOut := true), Outgoing, Building(false, NOTHING_READ));
    r := Grow(x, r, s3, Timer(Outgoing), t);
  }

  /** The input goroutine sends the token, sees the response's END_STREAM, and takes the token itself. */
  lemma InputWaits(x: Stream, before: Trace, s: State) returns (r: Trace, t: State)
    requires Runs(x, before, s) && s.response.endStream && s.full == {} && s.done == 0
    requires s.input.pc == Sending(0) && s.input.n < |x.requests|
    ensures Runs(x, r, t) && Calm(before, r)
    ensures t == Go(s, Incoming, Waiting(0)).(full := {0})
  {
    assert s.full + {0} == {0};
    var s1 := Go(s, Incoming, Checking).(full := {0});
    r := Grow(x, before, s, Step(Incoming), s1);
    var s2 := Go(s1, Incoming, Fetch);
    r := Grow(x, r, s1, Step(Incoming), s2);
    t := Go(s2, Incoming, Waiting(0));
    r := Grow(x, r, s2, Step(Incoming), t);
  }

  lemma InputTakes(x: Stream, before: Trace, s: State) returns (r: Trace, t: State)
    requires Runs(x, before, s) && s.response.endStream && s.full == {} && s.done == 0
    requires s.input.pc == Sending(0) && s.input.n < |x.requests|
    ensures Runs(x, r, t) && Calm(before, r)
    ensures t == Go(s, Incoming, Building(true, NOTHING_READ)).(tokensTaken := s.tokensTaken + 1)
  {
    var s1: State;
    r, s1 := InputWaits(x, before, s);
    assert s1.full - {0} == {};
    t := Go(s, Incoming, Building(true, NOTHING_READ)).(tokensTaken := s.tokensTaken + 1);
    r := Grow(x, r, s1, Token(Incoming), t);
  }

  // ---------------------------------------------------------------------------------------------
  // A message is built

  predicate Reads(x: Stream, s: State, side: Side) {
    Of(s, side).pc.Building? && Of(s, side).n < |FramesOf(x, side)|
  }

  lemma ReadNext(x: Stream, before: Trace, s: State, side: Side) returns (r: Trace, t: State)
    requires Runs(x, before, s) && Reads(x, s, side)
    requires var at := Of(s, side).pc.at;
             at.stage < 5 && (InRange(at) ==> at.todo == {}) && (at.stage == 0 ==> MethodOk(MethodOf(s.request.headers)))
    ensures Runs(x, r, t) && Calm(before, r)
    ensures t == Go(s, side, Building(Of(s, side).pc.token, ReadOn(x.names, s, Of(s, side).pc.at)))
  {
    t := Go(s, side, Building(Of(s, side).pc.token, ReadOn(x.names, s, Of(s, side).pc.at)));
    r := Grow(x, before, s, Step(side), t);
  }

  function Restrict(m: map<string, string>, keys: set<string>): map<string, string> {
    map k | k in m && k in keys :: m[k]
  }

  /** What visiting some keys of a map that does not change makes of a draft. */
  function Visited(s: State, at: Reading, keys: set<string>): Reading {
    var d := at.draft;
    Reading(at.stage,
            if at.stage == 1
            then d.(request := d.request.(headers := d.request.headers + Restrict(s.request.headers, keys)))
            else d.(response := d.response.(headers := d.response.headers + Restrict(s.response.headers, keys))),
            at.todo - keys)
  }

  lemma CopyThenRest(to: map<string, string>, from: map<string, string>, key: string, keys: set<string>)
    requires key in keys
    ensures Copy(to, from, key) + Restrict(from, keys - {key}) == to + Restrict(from, keys)
  {
  }

  lemma VisitThenRest(s: State, at: Reading, key: string, keys: set<string>)
    requires key in keys
    ensures Visited(s, VisitOn(s, at, key), keys - {key}) == Visited(s, at, keys)
    ensures Visited(s, at, {}) == at
  {
    CopyThenRest(at.draft.request.headers, s.request.headers, key, keys);
    CopyThenRest(at.draft.response.headers, s.response.headers, key, keys);
    assert at.todo - {key} - (keys - {key}) == at.todo - keys;
    assert at.draft.request.headers + Restrict(s.request.headers, {}) == at.draft.request.headers;
    assert at.draft.response.headers + Restrict(s.response.headers, {}) == at.draft.response.headers;
  }

  lemma VisitOne(x: Stream, before: Trace, s: State, side: Side, key: string) returns (r: Trace, t: State)
    requires Runs(x, before, s) && Of(s, side).pc.Building? && InRange(Of(s, side).pc.at) && key in Of(s, side).pc.at.todo
    ensures Runs(x, r, t) && Calm(before, r)
    ensures t == Go(s, side, Building(Of(s, side).pc.token, VisitOn(s, Of(s, side).pc.at, key)))
  {
    t := Go(s, side, Building(Of(s, side).pc.token, VisitOn(s, Of(s, side).pc.at, key)));
    r := Grow(x, before, s, Visit(side, key), t);
  }

  lemma VisitedSame(s: State, t: State, at: Reading, keys: set<string>)
    requires s.request == t.request && s.response == t.response
    ensures Visited(s, at, keys) == Visited(t, at, keys)
  {
  }

  lemma VisitNone(s: State, side: Side)
    requires Of(s, side).pc.Building?
    ensures s == Go(s, side, Building(Of(s, side).pc.token, Visited(s, Of(s, side).pc.at, {})))
  {
    var at := Of(s, side).pc.at;
    assert at.draft.request.headers + Restrict(s.request.headers, {}) == at.draft.request.headers;
    assert at.draft.response.headers + Restrict(s.response.headers, {}) == at.draft.response.headers;
    assert at.todo - {} == at.todo;
    assert Visited(s, at, {}) == at;
  }

  lemma {:induction false} VisitsRun(x: Stream, before: Trace, s: State, side: Side, keys: set<string>)
    returns (r: Trace, t: State)
    requires Runs(x, before, s) && Of(s, side).pc.Building? && InRange(Of(s, side).pc.at) && keys <= Of(s, side).pc.at.todo
    ensures Runs(x, r, t) && Calm(before, r)
    ensures t == Go(s, side, Building(Of(s, side).pc.token, Visited(s, Of(s, side).pc.at, keys)))
    decreases |keys|
  {
    if keys == {} {
      r, t := before, s;
      VisitNone(s, side);
    } else {
      var key :| key in keys;
      var u: State;
      r, u := VisitOne(x, before, s, side, key);
      VisitThenRest(s, Of(s, side).pc.at, key, keys);
      VisitedSame(s, u, Of(u, side).pc.at, keys - {key});
      r, t := VisitsRun(x, r, u, side, keys - {key});
    }
  }

  /** A whole Range over a map that does not change. */
  lemma RangeRun(x: Stream, before: Trace, s: State, side: Side) returns (r: Trace, t: State)
    requires Runs(x, before, s) && Reads(x, s, side) && InRange(Of(s, side).pc.at)
    ensures Runs(x, r, t) && Calm(before, r)
    ensures var at := Of(s, side).pc.at;
            t == Go(s, side, Building(Of(s, side).pc.token, Reading(at.stage + 1, Visited(s, at, at.todo).draft, {})))
  {
    var at := Of(s, side).pc.at;
    r, t := VisitsRun(x, before, s, side, at.todo);
    assert at.todo - at.todo == {};
    r, t := ReadNext(x, r, t, side);
  }

  lemma RestrictAll(m: map<string, string>, keys: set<string>)
    requires m.Keys <= keys
    ensures map[] + Restrict(m, keys) == m
  {
  }

  /** From the method to before the response's Range. */
  lemma RequestRead(x: Stream, before: Trace, s: State, side: Side) returns (r: Trace, t: State)
    requires Runs(x, before, s) && Reads(x, s, side) && Of(s, side).pc.at == NOTHING_READ
    requires MethodOk(MethodOf(s.request.headers)) && s.request.headers.Keys <= x.names
    ensures Runs(x, r, t) && Calm(before, r)
    ensures t == Go(s, side, Building(Of(s, side).pc.token,
                    Reading(3, Draft(MethodOf(s.request.headers), BodyOf(s.request), NO_BODY), x.names)))
  {
    r, t := ReadNext(x, before, s, side);
    r, t := RangeRun(x, r, t, side);
    RestrictAll(s.request.headers, x.names);
    r, t := ReadNext(x, r, t, side);
  }

  lemma ResponseRead(x: Stream, before: Trace, s: State, side: Side) returns (r: Trace, t: State)
    requires Runs(x, before, s) && Reads(x, s, side)
    requires var at := Of(s, side).pc.at; at.stage == 3 && at.draft.response == NO_BODY && at.todo == x.names
    requires s.response.headers.Keys <= x.names
    ensures Runs(x, r, t) && Calm(before, r)
    ensures t == Go(s, side, Building(Of(s, side).pc.token,
                    Reading(5, Of(s, side).pc.at.draft.(response := BodyOf(s.response)), {})))
  {
    r, t := RangeRun(x, before, s, side);
    RestrictAll(s.response.headers, x.names);
    r, t := ReadNext(x, r, t, side);
  }

  lemma HandOver(x: Stream, before: Trace, s: State, side: Side) returns (r: Trace, t: State)
    requires Runs(x, before, s) && Reads(x, s, side) && Of(s, side).pc.at.stage == 5
    ensures Runs(x, r, t) && Calm(before, r)
    ensures t == BeginReset(s.(log := Logged(x, s, side, Of(s, side).pc.token, Of(s, side).pc.at.draft)), side)
  {
    t := BeginReset(s.(log := Logged(x, s, side, Of(s, side).pc.token, Of(s, side).pc.at.draft)), side);
    r := Grow(x, before, s, Step(side), t);
  }

  // ---------------------------------------------------------------------------------------------
  // The output goroutine resets the slot meanwhile

  lemma ClearNext(x: Stream, before: Trace, s: State) returns (r: Trace, t: State)
    requires Runs(x, before, s) && s.output.pc.Clearing? && s.output.n < |x.responses|
    ensures Runs(x, r, t) && t == ClearStep(s, Outgoing, s.output.pc.k)
  {
    t := ClearStep(s, Outgoing, s.output.pc.k);
    r := Grow(x, before, s, Step(Outgoing), t);
  }

  /** From access number k of the reset to number m. */
  lemma {:induction false} ClearsRun(x: Stream, before: Trace, s: State, m: nat) returns (r: Trace, t: State)
    requires Runs(x, before, s) && s.output.pc.Clearing? && s.output.n < |x.responses| && s.output.pc.k <= m <= 8
    ensures Runs(x, r, t)
    ensures t == s.(output := Goroutine(Clearing(m), s.output.n), request := t.request, response := t.response)
    ensures BodyOf(t.request) == Body(if s.output.pc.k <= 2 < m then map[] else s.request.headers,
                                      if s.output.pc.k <= 3 < m then [] else s.request.data)
    ensures BodyOf(t.response) == Body(if s.output.pc.k <= 6 < m then map[] else s.response.headers,
                                       if s.output.pc.k <= 7 < m then [] else s.response.data)
    decreases m - s.output.pc.k
  {
    if s.output.pc.k == m {
      r, t := before, s;
    } else {
      r, t := ClearNext(x, before, s);
      r, t := ClearsRun(x, r, t, m);
    }
  }

  /** The draft of who visits the keys of some of the request's fields before they are cleared, and
      reads the body before or after; and the same for the response. */
  function Torn(x: Stream, keys: set<string>, body: bool, keys': set<string>, body': bool): Draft {
    var request, response := Whole(x.requests), Whole(x.responses);
    Draft(MethodOf(request.headers),
          Body(Restrict(request.headers, keys), if body then request.data else []),
          Body(Restrict(response.headers, keys'), if body' then response.data else []))
  }

  /** Up to where the output goroutine has timed out, handed over its message, and is about to reset
      the slot, while the input goroutine has taken the token. */
  lemma BothLeave(x: Stream) returns (r: Trace, s: State)
    requires Proper(x) && MethodOk(MethodOf(Whole(x.requests).headers))
    ensures Runs(x, r, s)
    ensures s.input == Goroutine(Building(true, NOTHING_READ), |x.requests| - 1)
    ensures s.output == Goroutine(Clearing(0), |x.responses| - 1)
    ensures s.request == Whole(x.requests) && s.response == Whole(x.responses)
  {
    WholeNamed(x.requests);
    WholeNamed(x.responses);
    r, s := RequestArrives(x);
    r, s := ResponseTimesOut(x, r, s);
    r, s := RequestRead(x, r, s, Outgoing);
    r, s := ResponseRead(x, r, s, Outgoing);
    r, s := HandOver(x, r, s, Outgoing);
    EndsEnded(x.responses);
    r, s := InputTakes(x, r, s);
  }

  lemma VisitThenNothing(m: map<string, string>, keys: set<string>, rest: set<string>)
    ensures map[] + Restrict(m, keys) + Restrict(map[], rest) == Restrict(m, keys)
  {
  }

  /** A Range of the input goroutine over which the map is cleared. clears is the number of the
      reset's access that clears it. */
  lemma TornVisits(x: Stream, before: Trace, s: State, keys: set<string>, clears: nat) returns (r: Trace, t: State)
    requires Runs(x, before, s) && Reads(x, s, Incoming) && s.output.pc.Clearing? && s.output.n < |x.responses|
    requires var at := s.input.pc.at; (at.stage == 1 && clears == 2) || (at.stage == 3 && clears == 6)
    requires keys <= s.input.pc.at.todo == x.names && s.output.pc.k <= clears
    requires (if s.input.pc.at.stage == 1 then s.input.pc.at.draft.request else s.input.pc.at.draft.response) == NO_BODY
    ensures Runs(x, r, t) && t.log == s.log && t.timedOut == s.timedOut
    ensures t.output == Goroutine(Clearing(clears + 1), s.output.n)
    ensures t.request.data == s.request.data || clears == 6
    ensures clears == 2 ==> BodyOf(t.response) == BodyOf(s.response)
    ensures clears == 6 ==> t.response.data == s.response.data
    ensures var at := s.input.pc.at;
            t.input == Goroutine(Building(s.input.pc.token,
              if clears == 2 then Reading(2, at.draft.(request := Body(Restrict(s.request.headers, keys), [])), {})
              else Reading(4, at.draft.(response := Body(Restrict(s.response.headers, keys), [])), {})), s.input.n)
  {
    r, t := VisitsRun(x, before, s, Incoming, keys);
    r, t := ClearsRun(x, r, t, clears + 1);
    VisitThenNothing(if clears == 2 then s.request.headers else s.response.headers, keys, t.input.pc.at.todo);
    r, t := RangeRun(x, r, t, Incoming);
  }

  /** The read of the body, before or after it is cleared. */
  lemma TornBody(x: Stream, before: Trace, s: State, body: bool) returns (r: Trace, t: State)
    requires Runs(x, before, s) && Reads(x, s, Incoming) && s.output.pc.Clearing? && s.output.n < |x.responses|
    requires var k := s.output.pc.k; (s.input.pc.at.stage == 2 && k == 3) || (s.input.pc.at.stage == 4 && k == 7)
    ensures Runs(x, r, t) && t.log == s.log && t.timedOut == s.timedOut
    ensures t.output == Goroutine(Clearing(s.output.pc.k + 1), s.output.n)
    ensures s.output.pc.k == 3 ==> BodyOf(t.response) == BodyOf(s.response)
    ensures var at, d := s.input.pc.at, s.input.pc.at.draft;
            t.input == Goroutine(Building(s.input.pc.token,
              if at.stage == 2 then Reading(3, d.(request := d.request.(data := if body then s.request.data else [])), x.names)
              else Reading(5, d.(response := d.response.(data := if body then s.response.data else [])), {})), s.input.n)
  {
    var k := s.output.pc.k;
    if body {
      r, t := ReadNext(x, before, s, Incoming);
      r, t := ClearsRun(x, r, t, k + 1);
    } else {
      r, t := ClearsRun(x, before, s, k + 1);
      r, t := ReadNext(x, r, t, Incoming);
    }
  }

  lemma RestrictNamed(m: map<string, string>, keys: set<string>, names: set<string>)
    requires m.Keys <= names
    ensures Restrict(m, keys * names) == Restrict(m, keys)
  {
  }

  /** The input goroutine builds its message across the output goroutine's reset. */
  lemma TornRun(x: Stream, keys: set<string>, body: bool, keys': set<string>, body': bool) returns (r: Trace, s: State)
    requires Proper(x) && MethodOk(MethodOf(Whole(x.requests).headers))
    requires x.build(Torn(x, keys, body, keys', body')).Some?
    ensures Runs(x, r, s)
    ensures exists b :: b in s.log && b.token && b.call == x.build(Torn(x, keys, body, keys', body')).value
  {
    WholeNamed(x.requests);
    WholeNamed(x.responses);
    RestrictNamed(Whole(x.requests).headers, keys, x.names);
    RestrictNamed(Whole(x.responses).headers, keys', x.names);
    r, s := BothLeave(x);
    r, s := ReadNext(x, r, s, Incoming);
    r, s := TornVisits(x, r, s, keys * x.names, 2);
    r, s := TornBody(x, r, s, body);
    r, s := TornVisits(x, r, s, keys' * x.names, 6);
    r, s := TornBody(x, r, s, body');
    r, s := HandOver(x, r, s, Incoming);
    assert s.log[|s.log| - 1] in s.log;
  }

  // ---------------------------------------------------------------------------------------------
  // When the token means a whole request

  ghost predicate WholeRequests(x: Stream, log: seq<Built>) {
    var whole := BodyOf(Whole(x.requests));
    forall b :: b in log && b.token ==>
      b.call.methodName == MethodOf(whole.headers) && Half(x.lib, b.call.methodName, false, whole) == Some(b.call.request)
  }

  /** In every run (of those without timers, or of all), the token means the whole request. */
  ghost predicate TokenSafe(x: Stream, timers: bool) {
    forall r, s :: Runs(x, r, s) && (timers || NoTimer(r.actions)) ==> WholeRequests(x, s.log)
  }

  predicate TearsAt(x: Stream, keys: set<string>, body: bool, keys': set<string>, body': bool) {
    var whole := BodyOf(Whole(x.requests));
    var call := DraftMsg(x.lib, Torn(x, keys, body, keys', body'));
    call.Some? && Half(x.lib, MethodOf(whole.headers), false, whole) != Some(call.value.request)
  }

  /** Some torn draft makes a message, and not with the whole request. */
  ghost predicate Tears(x: Stream) {
    exists keys, body, keys', body' :: TearsAt(x, keys, body, keys', body')
  }

  /** The whole stream makes a message. */
  predicate MakesMessage(x: Stream) {
    var request := BodyOf(Whole(x.requests));
    DraftMsg(x.lib, Draft(MethodOf(request.headers), request, BodyOf(Whole(x.responses)))).Some?
  }

  lemma RestrictFull(m: map<string, string>)
    ensures Restrict(m, m.Keys) == m
  {
  }

  /** Every stream that makes a message tears: after the method and the content type are visited, the
      map is cleared, and the body read before it is cleared too. */
  lemma MessageTears(x: Stream)
    requires MakesMessage(x)
    ensures Tears(x)
  {
    var whole, response := BodyOf(Whole(x.requests)), BodyOf(Whole(x.responses));
    var keys := {CONTENT_TYPE};
    RestrictFull(response.headers);
    assert IsProtobuf(Restrict(whole.headers, keys)) == IsProtobuf(whole.headers);
    assert PSEUDO_HEADER_PATH in whole.headers && PSEUDO_HEADER_PATH !in Restrict(whole.headers, keys);
    assert TearsAt(x, keys, true, response.headers.Keys, true);
  }

  /** Most do so even if Range takes a snapshot: then the fields are all there or none of them. */
  lemma SnapshotTears(x: Stream)
    requires MakesMessage(x) && EmptyDecodes(x.lib)
    requires x.lib.finder(MethodOf(Whole(x.requests).headers)).Some? || Whole(x.requests).data != []
    ensures exists keys :: keys in {{}, Whole(x.requests).headers.Keys}
              && TearsAt(x, keys, false, Whole(x.responses).headers.Keys, true)
  {
    var whole, response := BodyOf(Whole(x.requests)), BodyOf(Whole(x.responses));
    RestrictFull(whole.headers);
    RestrictFull(response.headers);
    if x.lib.finder(MethodOf(whole.headers)).Some? {
      assert Restrict(whole.headers, {}) == map[] && PSEUDO_HEADER_PATH in whole.headers;
      assert TearsAt(x, {}, false, response.headers.Keys, true);
    } else {
      assert |AsText(whole.data)| == |whole.data|;
      assert TearsAt(x, whole.headers.Keys, false, response.headers.Keys, true);
    }
  }

  lemma {:induction false} NoneLate(x: Stream, r: Trace, t: State)
    requires Runs(x, r, t) && NoTimer(r.actions)
    ensures NoneTimedOut(t)
    decreases |r.actions|
  {
    if r.actions != [] {
      var before, a, s := LastStep(x, r, t);
      assert r.actions[|before.actions|] == a && before.actions == r.actions[..|before.actions|];
      NoneLate(x, before, s);
      NoneTimedOutStep(x, s, a, t);
    }
  }

  ghost predicate NoneTimedOut(s: State) {
    !s.timedOut && forall i :: 0 <= i < |s.log| ==> !s.log[i].afterTimeout
  }

  lemma NoneTimedOutStep(x: Stream, s: State, a: Action, t: State)
    requires NoneTimedOut(s) && !a.Timer? && Next(x, s, a) == Some(t)
    ensures NoneTimedOut(t)
  {
  }

  lemma CalmRuns(x: Stream, r: Trace, s: State)
    requires Proper(x) && Faithful(x) && Runs(x, r, s) && NoTimer(r.actions)
    ensures WholeRequests(x, s.log)
    ensures forall b :: b in s.log && b.token ==> FoundHalf(x, b)
  {
    Always(x, r, s);
    NoneLate(x, r, s);
    forall b | b in s.log && b.token
      ensures b.call.methodName == MethodOf(BodyOf(Whole(x.requests)).headers)
      ensures Half(x.lib, b.call.methodName, false, BodyOf(Whole(x.requests))) == Some(b.call.request)
      ensures FoundHalf(x, b)
    {
      CompleteParts(x, b);
    }
  }

  /** Without timers, the token means the whole request, for every stream. */
  lemma CalmTokenSafe(x: Stream)
    requires Proper(x) && Faithful(x)
    ensures TokenSafe(x, false)
  {
    forall r, s | Runs(x, r, s) && NoTimer(r.actions)
      ensures WholeRequests(x, s.log)
    {
      CalmRuns(x, r, s);
    }
  }

  /** For every stream that tears, some run in which a timer of the other goroutine fires makes the
      one that leaves by the token send a message without the whole request. */
  lemma TokenAfterTimeout(env: Env, requests: seq<Tagged>, responses: seq<Tagged>,
                          keys: set<string>, body: bool, keys': set<string>, body': bool)
    returns (r: Trace, s: State, b: Built)
    requires OneMessage(requests) && OneMessage(responses)
    requires TearsAt(StreamOf(env, requests, responses), keys, body, keys', body')
    ensures var x := StreamOf(env, requests, responses);
            var whole := BodyOf(Whole(x.requests));
            && Runs(x, r, s) && b in s.log && b.token
            && Half(env.lib, MethodOf(whole.headers), false, whole) != Some(b.call.request)
  {
    var x := StreamOf(env, requests, responses);
    StreamProper(env, requests, responses);
    r, s := TornRun(x, keys, body, keys', body');
    b :| b in s.log && b.token && b.call == x.build(Torn(x, keys, body, keys', body')).value;
  }

  /** For every stream that tears, exactly: the token means the whole request in every interleaving
      if and only if no timer can fire. */
  lemma TokenSafeExact(env: Env, requests: seq<Tagged>, responses: seq<Tagged>, timers: bool)
    requires OneMessage(requests) && OneMessage(responses)
    ensures var x := StreamOf(env, requests, responses);
            && TokenSafe(x, false)
            && (Tears(x) ==> (TokenSafe(x, timers) <==> !timers))
  {
    var x := StreamOf(env, requests, responses);
    StreamProper(env, requests, responses);
    CalmTokenSafe(x);
    if Tears(x) {
      var keys, body, keys', body' :| TearsAt(x, keys, body, keys', body');
      var r, s, b := TokenAfterTimeout(env, requests, responses, keys, body, keys', body');
      assert !WholeRequests(x, s.log);
    }
  }

  // ---------------------------------------------------------------------------------------------
  // When the token means a whole response

  /** In every run without timers, the token means the whole response. */
  ghost predicate ResponseSafe(x: Stream) {
    forall r, s :: Runs(x, r, s) && NoTimer(r.actions) ==> WholeResponses(x, s.log)
  }

  ghost predicate WholeResponses(x: Stream, log: seq<Built>) {
    forall b :: b in log && b.token ==>
      Half(x.lib, MethodOf(Whole(x.requests).headers), true, BodyOf(Whole(x.responses))) == b.call.response
  }

  /** What the input goroutine can find while the last frame is being stored makes a message, and not
      with the whole response. */
  ghost predicate MattersAt(x: Stream, b: Body) {
    var m := MethodOf(Whole(x.requests).headers);
    && Found(x.responses, Incoming, b)
    && Half(x.lib, m, true, b).Some? && Half(x.lib, m, true, b) != Half(x.lib, m, true, BodyOf(Whole(x.responses)))
  }

  ghost predicate LastFrameMatters(x: Stream) {
    var request := BodyOf(Whole(x.requests));
    && MethodOk(MethodOf(request.headers)) && Half(x.lib, MethodOf(request.headers), false, request).Some?
    && exists b :: MattersAt(x, b)
  }

  /** The output goroutine stops between END_STREAM and the content of its last frame. */
  lemma LastFlags(x: Stream, before: Trace, s: State) returns (r: Trace, t: State)
    requires Ends(x.responses) && Runs(x, before, s) && s.output == IDLE && s.response == FRESH_ITEM
    ensures Runs(x, r, t) && Calm(before, r) && t.response.endStream
    ensures t.response.headers == HeadersAt(x.responses, 0) && t.response.data == AllButLast(x.responses).data
    ensures t == s.(output := Goroutine(Storing(2), |x.responses| - 1), response := t.response)
  {
    var n := |x.responses| - 1;
    r, t := FramesBefore(x, before, s, Outgoing, n);
    r, t := StoreSome(x, r, t, Outgoing, 2);
  }

  /** One more field of the last frame. */
  lemma FieldNext(x: Stream, before: Trace, s: State, j: nat) returns (r: Trace, t: State)
    requires Runs(x, before, s) && j < |LastFields(x.responses)|
    requires s.output == Goroutine(Storing(j + 2), |x.responses| - 1) && s.response.headers == HeadersAt(x.responses, j)
    ensures Runs(x, r, t) && Calm(before, r)
    ensures t == s.(output := Goroutine(Storing(j + 3), |x.responses| - 1), response := t.response)
    ensures t.response == s.response.(headers := HeadersAt(x.responses, j + 1))
  {
    StoreSnoc(AllButLast(x.responses).headers, LastFields(x.responses), j);
    r, t := StoreNext(x, before, s, Outgoing);
  }

  /** The keys whose present mapping is the one wanted. */
  function Wanted(m: map<string, string>, b: map<string, string>, todo: set<string>): set<string> {
    set key | key in todo && Lookup(m, key) == Lookup(b, key)
  }

  lemma WantedVisited(m: map<string, string>, b: map<string, string>, names: set<string>, todo: set<string>)
    requires todo <= names
    ensures Restrict(b, names - todo) + Restrict(m, Wanted(m, b, todo)) == Restrict(b, names - (todo - Wanted(m, b, todo)))
  {
    var w := Wanted(m, b, todo);
    var left, right := Restrict(b, names - todo) + Restrict(m, w), Restrict(b, names - (todo - w));
    forall key
      ensures Lookup(left, key) == Lookup(right, key)
    {
      assert key in w ==> Lookup(m, key) == Lookup(b, key);
    }
    SameMap(left, right);
  }

  /** Each key still to visit has its mapping now or after a later store. */
  ghost predicate StillComes(es: seq<Effect>, b: map<string, string>, todo: set<string>, j: nat) {
    forall key :: key in todo ==> Comes(es, b, key, j)
  }

  ghost predicate Comes(es: seq<Effect>, b: map<string, string>, key: string, j: nat) {
    exists k :: j <= k && SeenAt(es, Incoming, key, Lookup(b, key), k)
  }

  lemma TooLate(es: seq<Effect>, b: map<string, string>, key: string)
    ensures !Comes(es, b, key, |LastFields(es)| + 1)
  {
  }

  lemma NothingComes(es: seq<Effect>, b: map<string, string>, todo: set<string>)
    requires StillComes(es, b, todo, |LastFields(es)| + 1)
    ensures todo == {}
  {
    forall key
      ensures key !in todo
    {
      TooLate(es, b, key);
    }
  }

  lemma VisitWanted(x: Stream, before: Trace, s: State, b: map<string, string>, j: nat) returns (r: Trace, t: State)
    requires j <= |LastFields(x.responses)| && Runs(x, before, s)
    requires s.input.pc.Building? && s.input.pc.at.stage == 3 && s.input.pc.at.todo <= x.names
    requires s.input.pc.at.draft.response.headers == Restrict(b, x.names - s.input.pc.at.todo)
    requires s.response.headers == HeadersAt(x.responses, j) && StillComes(x.responses, b, s.input.pc.at.todo, j)
    ensures Runs(x, r, t) && Calm(before, r) && t == s.(input := t.input) && t.input.n == s.input.n
    ensures t.input.pc.Building? && t.input.pc.token == s.input.pc.token && t.input.pc.at.stage == 3
    ensures t.input.pc.at.todo <= x.names && StillComes(x.responses, b, t.input.pc.at.todo, j + 1)
    ensures var d := s.input.pc.at.draft;
            t.input.pc.at.draft == d.(response := d.response.(headers := Restrict(b, x.names - t.input.pc.at.todo)))
  {
    var todo := s.input.pc.at.todo;
    var w := Wanted(s.response.headers, b, todo);
    WantedVisited(s.response.headers, b, x.names, todo);
    r, t := VisitsRun(x, before, s, Incoming, w);
    forall key | key in todo - w
      ensures Comes(x.responses, b, key, j + 1)
    {
      assert Comes(x.responses, b, key, j);
      var k :| j <= k && SeenAt(x.responses, Incoming, key, Lookup(b, key), k);
      assert k != j;
    }
  }

  /** The Range of the input goroutine keeps pace with the stores of the last frame's fields. */
  lemma {:induction false} PacedRange(x: Stream, before: Trace, s: State, b: map<string, string>, j: nat) returns (r: Trace, t: State)
    requires x.responses != [] && j <= |LastFields(x.responses)| && Runs(x, before, s)
    requires s.input.pc.Building? && s.input.pc.at.stage == 3 && s.input.pc.at.todo <= x.names
    requires s.input.pc.at.draft.response.headers == Restrict(b, x.names - s.input.pc.at.todo)
    requires s.output == Goroutine(Storing(j + 2), |x.responses| - 1)
    requires s.response.headers == HeadersAt(x.responses, j) && StillComes(x.responses, b, s.input.pc.at.todo, j)
    ensures Runs(x, r, t) && Calm(before, r)
    ensures t == s.(input := t.input, output := t.output, response := t.response)
    ensures t.output == Goroutine(Storing(|LastFields(x.responses)| + 2), |x.responses| - 1)
    ensures t.response == s.response.(headers := t.response.headers)
    ensures var d := s.input.pc.at.draft;
            t.input == Goroutine(Building(s.input.pc.token,
                         Reading(3, d.(response := d.response.(headers := Restrict(b, x.names))), {})), s.input.n)
    decreases |LastFields(x.responses)| - j
  {
    r, t := VisitWanted(x, before, s, b, j);
    if j < |LastFields(x.responses)| {
      r, t := FieldNext(x, r, t, j);
      r, t := PacedRange(x, r, t, b, j + 1);
    } else {
      NothingComes(x.responses, b, t.input.pc.at.todo);
      assert x.names - {} == x.names;
    }
  }

  lemma BytesNext(x: Stream, before: Trace, s: State) returns (r: Trace, t: State)
    requires Ends(x.responses) && Runs(x, before, s)
    requires s.output == Goroutine(Storing(|LastFields(x.responses)| + 2), |x.responses| - 1)
    requires s.response.data == AllButLast(x.responses).data
    ensures Runs(x, r, t) && Calm(before, r)
    ensures t == s.(output := t.output, response := s.response.(data := Whole(x.responses).data))
  {
    LastIs(x.responses);
    r, t := StoreNext(x, before, s, Outgoing);
  }

  lemma FoundIsNamed(x: Stream, b: Body)
    requires Proper(x) && Found(x.responses, Incoming, b)
    ensures Restrict(b.headers, x.names) == b.headers && StillComes(x.responses, b.headers, x.names, 0)
    ensures Restrict(b.headers, x.names - x.names) == map[]
  {
    forall key | key in b.headers
      ensures key in x.names
    {
      assert Seen(x.responses, Incoming, key, Lookup(b.headers, key));
      var j :| SeenAt(x.responses, Incoming, key, Lookup(b.headers, key), j);
      KeysAt(x.responses, j);
    }
    forall key | key in x.names
      ensures Comes(x.responses, b.headers, key, 0)
    {
      assert Seen(x.responses, Incoming, key, Lookup(b.headers, key));
    }
  }

  /** The first fields have no other names than all of them. */
  lemma FewerNames(fields: seq<Field>, j: nat)
    requires j <= |fields|
    ensures FieldNames(fields[..j]) <= FieldNames(fields)
  {
    FieldsNamed(map[], fields[..j]);
    FieldsNamed(map[], fields);
    FieldsNamed(Store(map[], fields[..j]), fields[j..]);
    StoreAppend(map[], fields[..j], fields[j..]);
    assert fields[..j] + fields[j..] == fields;
  }

  lemma KeysAt(es: seq<Effect>, j: nat)
    requires es != [] && j <= |LastFields(es)|
    ensures HeadersAt(es, j).Keys <= NamesOf(es)
  {
    WholeNamed(es[..|es| - 1]);
    FieldsNamed(AllButLast(es).headers, LastFields(es)[..j]);
    FewerNames(LastFields(es), j);
  }

  /** The input goroutine has read the request; the response's last frame is about to be stored. */
  lemma EarlyTakes(x: Stream) returns (r: Trace, s: State)
    requires Proper(x) && MethodOk(MethodOf(Whole(x.requests).headers))
    ensures Runs(x, r, s) && NoTimer(r.actions)
    ensures s.input == Goroutine(Building(true, Reading(3,
              Draft(MethodOf(Whole(x.requests).headers), BodyOf(Whole(x.requests)), NO_BODY), x.names)), |x.requests| - 1)
    ensures s.output == Goroutine(Storing(2), |x.responses| - 1)
    ensures s.response.headers == HeadersAt(x.responses, 0) && s.response.data == AllButLast(x.responses).data
  {
    WholeNamed(x.requests);
    r, s := RequestArrives(x);
    r, s := LastFlags(x, r, s);
    r, s := InputTakes(x, r, s);
    r, s := RequestRead(x, r, s, Incoming);
  }

  /** The body is read before or after the last frame's bytes are stored. */
  lemma EarlyBody(x: Stream, before: Trace, s: State, data: seq<Byte>) returns (r: Trace, t: State)
    requires Ends(x.responses) && Runs(x, before, s) && FoundData(x.responses, Incoming, data)
    requires Reads(x, s, Incoming) && s.input.pc.at.stage == 4
    requires s.output == Goroutine(Storing(|LastFields(x.responses)| + 2), |x.responses| - 1)
    requires s.response.data == AllButLast(x.responses).data
    ensures Runs(x, r, t) && Calm(before, r)
    ensures var d := s.input.pc.at.draft;
            t.input == Goroutine(Building(s.input.pc.token, Reading(5, d.(response := d.response.(data := data)), {})), s.input.n)
  {
    r, t := before, s;
    if data != AllButLast(x.responses).data {
      r, t := BytesNext(x, r, t);
    }
    r, t := ReadNext(x, r, t, Incoming);
  }

  /** Whatever can be found is found in some run without timers. */
  lemma EarlyRun(x: Stream, b: Body) returns (r: Trace, s: State)
    requires Proper(x) && Found(x.responses, Incoming, b) && MethodOk(MethodOf(Whole(x.requests).headers))
    requires x.build(Draft(MethodOf(Whole(x.requests).headers), BodyOf(Whole(x.requests)), b)).Some?
    ensures Runs(x, r, s) && NoTimer(r.actions)
    ensures exists m :: m in s.log && m.token
              && Some(m.call) == x.build(Draft(MethodOf(Whole(x.requests).headers), BodyOf(Whole(x.requests)), b))
  {
    FoundIsNamed(x, b);
    r, s := EarlyTakes(x);
    r, s := PacedRange(x, r, s, b.headers, 0);
    r, s := ReadNext(x, r, s, Incoming);
    r, s := EarlyBody(x, r, s, b.data);
    r, s := HandOver(x, r, s, Incoming);
    assert s.log[|s.log| - 1] in s.log;
  }

  lemma CalmResponses(x: Stream, r: Trace, s: State)
    requires Proper(x) && Faithful(x) && Runs(x, r, s) && NoTimer(r.actions) && !LastFrameMatters(x)
    ensures WholeResponses(x, s.log)
  {
    CalmRuns(x, r, s);
    forall b | b in s.log && b.token
      ensures Half(x.lib, MethodOf(Whole(x.requests).headers), true, BodyOf(Whole(x.responses))) == b.call.response
    {
      assert FoundHalf(x, b);
      var found :| Found(x.responses, b.who, found) && Half(x.lib, b.call.methodName, true, found) == b.call.response;
      if b.who == Outgoing {
        FoundByOutput(x.responses, found);
      } else {
        assert !MattersAt(x, found);
      }
    }
  }

  /** For every stream, exactly: without timers the token means the whole response in every
      interleaving if and only if the last response frame does not matter. */
  lemma ResponseSafeExact(env: Env, requests: seq<Tagged>, responses: seq<Tagged>)
    requires OneMessage(requests) && OneMessage(responses)
    ensures var x := StreamOf(env, requests, responses); ResponseSafe(x) <==> !LastFrameMatters(x)
  {
    var x := StreamOf(env, requests, responses);
    StreamProper(env, requests, responses);
    if LastFrameMatters(x) {
      var b :| MattersAt(x, b);
      var r, s := EarlyRun(x, b);
      assert !WholeResponses(x, s.log);
    } else {
      forall r, s | Runs(x, r, s) && NoTimer(r.actions)
        ensures WholeResponses(x, s.log)
      {
        CalmResponses(x, r, s);
      }
    }
  }

  /** After the first j fields of the last frame, in a Range that sees no more. */
  lemma FoundPartly(es: seq<Effect>, j: nat)
    requires j <= |LastFields(es)|
    ensures Found(es, Incoming, Body(HeadersAt(es, j), AllButLast(es).data))
  {
    forall key
      ensures Seen(es, Incoming, key, Lookup(HeadersAt(es, j), key))
    {
      assert SeenAt(es, Incoming, key, Lookup(HeadersAt(es, j), key), j);
    }
  }

  /** A last frame that carries nothing does not matter. One that adds header fields, as trailers do,
      does, where a message can be built after none or some of them. */
  lemma LastFrameCases(x: Stream, j: nat)
    requires x.responses != [] && j <= |LastFields(x.responses)|
    ensures LastFields(x.responses) == [] && x.responses[|x.responses| - 1].bytes == [] ==> !LastFrameMatters(x)
    ensures var m, request := MethodOf(Whole(x.requests).headers), BodyOf(Whole(x.requests));
            var early := Body(HeadersAt(x.responses, j), AllButLast(x.responses).data);
            (MethodOk(m) && Half(x.lib, m, false, request).Some? && Half(x.lib, m, true, early).Some?
             && early.headers != Whole(x.responses).headers)
            ==> LastFrameMatters(x)
  {
    var es, m := x.responses, MethodOf(Whole(x.requests).headers);
    var early := Body(HeadersAt(es, j), AllButLast(es).data);
    FoundPartly(es, j);
    if LastFields(es) == [] && es[|es| - 1].bytes == [] {
      LastIs(es);
      assert LastFields(es)[..j] == LastFields(es);
      forall b | Found(es, Incoming, b)
        ensures b == BodyOf(Whole(es))
      {
        OnlyWhole(es, b);
      }
    } else {
      assert early.headers != Whole(es).headers && Half(x.lib, m, true, early).Some? ==> MattersAt(x, early);
    }
  }

  lemma OnlyWhole(es: seq<Effect>, b: Body)
    requires es != [] && LastFields(es) == [] && es[|es| - 1].bytes == [] && Found(es, Incoming, b)
    ensures b == BodyOf(Whole(es))
  {
    LastIs(es);
    AppendNothing(AllButLast(es).data);
    forall key
      ensures Lookup(b.headers, key) == Lookup(Whole(es).headers, key)
    {
      assert Seen(es, Incoming, key, Lookup(b.headers, key));
    }
    SameMap(b.headers, Whole(es).headers);
  }
}
