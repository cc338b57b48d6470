/** Recording mode: what every step of either goroutine keeps, and what the token means. */
module RecordingInvariants {
  import opened Bytes
  import opened StreamTable
  import opened Protocol
  import opened Messages
  import opened RecordingMode

  /** Both messages end with their last frames, and all keys are named. */
  ghost predicate Proper(x: Stream) {
    Ends(x.requests) && Ends(x.responses) && NamesOf(x.requests) + NamesOf(x.responses) <= x.names
  }

  ghost predicate Faithful(x: Stream) {
    forall d :: x.build(d) == DraftMsg(x.lib, d)
  }

  // ---------------------------------------------------------------------------------------------
  // Whatever the timers do

  /** END_STREAM is seen only after the last frame stored it; only the last request frame gets to
      the token. */
  predicate EndsLate(x: Stream, s: State) {
    && (s.request.endStream ==> EndStored(x.requests, s.input))
    && (s.response.endStream ==> EndStored(x.responses, s.output))
    && (s.input.pc.Signal? || s.input.pc.Sending? ==> s.input.n == |x.requests| - 1)
    && !s.output.pc.Sending? && !s.output.pc.Signal? && !s.output.pc.After?
  }

  /** There is at most one token ever, and only once the request was processed. */
  predicate OneToken(x: Stream, s: State) {
    |s.full| + s.tokensTaken <= if RequestProcessed(x, s) then 1 else 0
  }

  /** Who waits has seen the response's END_STREAM. */
  predicate WaitsLate(x: Stream, s: State) {
    InWait(s.input) || InWait(s.output) ==> EndStored(x.responses, s.output)
  }

  function Leaving(g: Goroutine): nat {
    if g.pc.Building? then 1 else 0
  }

  /** Until a timer fires, each token taken is a reset made or about to be made, and nobody leaves
      without it. */
  predicate Counted(s: State) {
    !s.timedOut ==>
      && s.resets + Leaving(s.input) + Leaving(s.output) == s.tokensTaken
      && (s.input.pc.Building? ==> s.input.pc.token) && (s.output.pc.Building? ==> s.output.pc.token)
  }

  lemma StoreEndsLate(x: Stream, s: State, side: Side)
    requires Ends(x.requests) && Ends(x.responses) && EndsLate(x, s)
    requires Of(s, side).pc.Storing? && Of(s, side).n < |FramesOf(x, side)|
    ensures EndsLate(x, StoreStep(s, side, FramesOf(x, side)[Of(s, side).n], Of(s, side).pc.access))
  {
  }

  lemma BuildEndsLate(x: Stream, s: State, side: Side, t: State)
    requires EndsLate(x, s)
    ensures Of(s, side).pc.Building? && BuildStep(x, s, side, Of(s, side).pc.token, Of(s, side).pc.at) == Some(t) ==>
              EndsLate(x, t)
  {
  }

  lemma ClearEndsLate(x: Stream, s: State, side: Side)
    ensures EndsLate(x, s) && Of(s, side).pc.Clearing? ==> EndsLate(x, ClearStep(s, side, Of(s, side).pc.k))
  {
  }

  lemma PathEndsLate(x: Stream, s: State, side: Side)
    requires EndsLate(x, s) && OneStep(x, s, side).Some?
    requires !Of(s, side).pc.Storing? && !Of(s, side).pc.Building? && !Of(s, side).pc.Clearing?
    ensures EndsLate(x, OneStep(x, s, side).value)
  {
  }

  lemma OneStepEndsLate(x: Stream, s: State, side: Side, t: State)
    requires Ends(x.requests) && Ends(x.responses) && EndsLate(x, s) && OneStep(x, s, side) == Some(t)
    ensures EndsLate(x, t)
  {
    match Of(s, side).pc
    case Storing(_) => StoreEndsLate(x, s, side);
    case Building(_, _) => BuildEndsLate(x, s, side, t);
    case Clearing(_) => ClearEndsLate(x, s, side);
    case _ => PathEndsLate(x, s, side);
  }

  lemma EndsLateStep(x: Stream, s: State, a: Action, t: State)
    requires Ends(x.requests) && Ends(x.responses) && EndsLate(x, s) && Next(x, s, a) == Some(t)
    ensures EndsLate(x, t)
  {
    if a.Step? {
      OneStepEndsLate(x, s, a.side, t);
    }
  }

  lemma ProcessedStays(x: Stream, s: State, a: Action, t: State)
    ensures RequestProcessed(x, s) && Next(x, s, a) == Some(t) ==> RequestProcessed(x, t)
  {
  }

  /** Only sending and taking change the tokens. */
  lemma InnerStepTokens(x: Stream, s: State, side: Side, t: State)
    ensures OneStep(x, s, side) == Some(t) && !Of(s, side).pc.Sending? ==> t.full == s.full && t.tokensTaken == s.tokensTaken
  {
  }

  lemma OneTokenStep(x: Stream, s: State, a: Action, t: State)
    requires EndsLate(x, s) && OneToken(x, s) && Next(x, s, a) == Some(t)
    ensures OneToken(x, t)
  {
    var pc := Of(s, a.side).pc;
    if a.Step? && !pc.Sending? {
      InnerStepTokens(x, s, a.side, t);
    }
    if RequestProcessed(x, s) {
      ProcessedStays(x, s, a, t);
    }
    assert pc.Waiting? && pc.channel in s.full ==> |s.full - {pc.channel}| == |s.full| - 1;
  }

  /** Nobody gets into a wait but by seeing END_STREAM. */
  lemma EntersWait(x: Stream, s: State, side: Side, t: State)
    ensures OneStep(x, s, side) == Some(t) && InWait(Of(t, side)) ==> InWait(Of(s, side)) || s.response.endStream
  {
  }

  lemma EndStaysStored(x: Stream, s: State, side: Side, t: State)
    requires OneStep(x, s, side) == Some(t) && EndStored(x.responses, s.output)
    ensures EndStored(x.responses, t.output)
  {
  }

  lemma WaitsLateStep(x: Stream, s: State, a: Action, t: State)
    requires EndsLate(x, s) && WaitsLate(x, s) && Next(x, s, a) == Some(t)
    ensures WaitsLate(x, t)
  {
    if a.Step? {
      EntersWait(x, s, a.side, t);
      if EndStored(x.responses, s.output) {
        EndStaysStored(x, s, a.side, t);
      }
    }
  }

  lemma BuildCounted(x: Stream, s: State, side: Side, t: State)
    requires Counted(s)
    ensures Of(s, side).pc.Building? && BuildStep(x, s, side, Of(s, side).pc.token, Of(s, side).pc.at) == Some(t) ==>
              Counted(t)
  {
  }

  lemma CountedStep(x: Stream, s: State, a: Action, t: State)
    requires Counted(s) && Next(x, s, a) == Some(t)
    ensures Counted(t)
  {
    if a.Step? && Of(s, a.side).pc.Building? {
      BuildCounted(x, s, a.side, t);
    }
  }

  ghost predicate Control(x: Stream, s: State) {
    EndsLate(x, s) && OneToken(x, s) && WaitsLate(x, s) && Counted(s)
  }

  lemma ControlStep(x: Stream, s: State, a: Action, t: State)
    requires Proper(x) && Control(x, s) && Next(x, s, a) == Some(t)
    ensures Control(x, t)
  {
    EndsLateStep(x, s, a, t);
    OneTokenStep(x, s, a, t);
    WaitsLateStep(x, s, a, t);
    CountedStep(x, s, a, t);
  }

  // ---------------------------------------------------------------------------------------------
  // Until a timer fires: the slot

  /** What a goroutine has stored so far. */
  function Stored(es: seq<Effect>, g: Goroutine): Item {
    if g.n >= |es| then Whole(es)
    else if g.pc.Storing? then Partly(Whole(es[..g.n]), es[g.n], g.pc.access)
    else All(Whole(es[..g.n]), es[g.n])
  }

  predicate AccessOk(es: seq<Effect>, g: Goroutine) {
    g.n < |es| && g.pc.Storing? ==> g.pc.access < Accesses(es[g.n])
  }

  /** No timer has fired and nobody has reset the slot. */
  predicate Clean(s: State) {
    !s.timedOut && s.resets == 0
  }

  ghost predicate SideUntouched(x: Stream, s: State, side: Side) {
    var es, g := FramesOf(x, side), Of(s, side);
    AccessOk(es, g) && !g.pc.Clearing? && ItemOf(s, side) == Stored(es, g)
  }

  ghost predicate Untouched(x: Stream, s: State) {
    Clean(s) ==> SideUntouched(x, s, Incoming) && SideUntouched(x, s, Outgoing)
  }

  lemma WholeSnoc(es: seq<Effect>, n: nat)
    requires n < |es|
    ensures Whole(es[..n + 1]) == All(Whole(es[..n]), es[n])
    ensures n + 1 == |es| ==> Whole(es[..n + 1]) == Whole(es)
  {
    assert es[..n + 1][..n] == es[..n];
    assert n + 1 == |es| ==> es[..n + 1] == es;
  }

  lemma NothingStored(es: seq<Effect>, g: Goroutine)
    requires g.n < |es| && g.pc == Storing(0)
    ensures Stored(es, g) == Whole(es[..g.n])
  {
    assert es[g.n].fields[..0] == [];
  }

  lemma AtEnd(es: seq<Effect>, g: Goroutine)
    requires g.n == |es| && g.pc == Storing(0)
    ensures Stored(es, g) == Whole(es[..g.n]) && AccessOk(es, g)
  {
    assert es[..g.n] == es;
  }

  /** On to the next frame. */
  lemma NextUntouched(x: Stream, s: State, side: Side)
    requires Of(s, side).n < |FramesOf(x, side)| && ItemOf(s, side) == Whole(FramesOf(x, side)[..Of(s, side).n + 1])
    ensures SideUntouched(x, NextFrame(s, side), side)
  {
    var es, g := FramesOf(x, side), Goroutine(Storing(0), Of(s, side).n + 1);
    if g.n < |es| {
      NothingStored(es, g);
    } else {
      AtEnd(es, g);
    }
  }

  lemma StoreUntouched(x: Stream, s: State, side: Side)
    requires SideUntouched(x, s, side) && Of(s, side).pc.Storing? && Of(s, side).n < |FramesOf(x, side)|
    ensures SideUntouched(x, StoreStep(s, side, FramesOf(x, side)[Of(s, side).n], Of(s, side).pc.access), side)
  {
    var es, g := FramesOf(x, side), Of(s, side);
    var e := es[g.n];
    PartlyStep(Whole(es[..g.n]), e, g.pc.access);
    var u := PutItem(s, side, StoreOne(ItemOf(s, side), e, g.pc.access));
    if g.pc.access + 1 >= Accesses(e) && e.continuation {
      WholeSnoc(es, g.n);
      NextUntouched(x, u, side);
    }
  }

  /** Steps of one goroutine leave the item of the other one alone, but for a reset. */
  lemma OtherSideUntouched(x: Stream, s: State, a: Action, t: State, side: Side)
    requires Next(x, s, a) == Some(t) && a.side != side && SideUntouched(x, s, side) && !Of(s, a.side).pc.Clearing?
    ensures SideUntouched(x, t, side)
  {
  }

  lemma OwnStepUntouched(x: Stream, s: State, side: Side, t: State)
    requires SideUntouched(x, s, side) && OneStep(x, s, side) == Some(t) && Clean(t)
    ensures SideUntouched(x, t, side)
  {
    var g := Of(s, side);
    if g.pc.Storing? {
      StoreUntouched(x, s, side);
    } else if g.pc.Checking? && !s.response.endStream {
      WholeSnoc(FramesOf(x, side), g.n);
      NextUntouched(x, s, side);
    }
  }

  lemma OwnUntouched(x: Stream, s: State, a: Action, t: State)
    requires SideUntouched(x, s, a.side) && Next(x, s, a) == Some(t) && Clean(t)
    ensures SideUntouched(x, t, a.side)
  {
    if a.Step? {
      OwnStepUntouched(x, s, a.side, t);
    }
  }

  lemma CleanBefore(x: Stream, s: State, a: Action, t: State)
    ensures Next(x, s, a) == Some(t) && Clean(t) ==> Clean(s)
  {
  }

  lemma UntouchedStep(x: Stream, s: State, a: Action, t: State)
    requires Untouched(x, s) && Next(x, s, a) == Some(t)
    ensures Untouched(x, t)
  {
    if Clean(t) {
      CleanBefore(x, s, a, t);
      OwnUntouched(x, s, a, t);
      OtherSideUntouched(x, s, a, t, if a.side == Incoming then Outgoing else Incoming);
    }
  }

  lemma ProcessedWhole(x: Stream, s: State)
    requires x.requests != [] && s.request == Stored(x.requests, s.input) && RequestProcessed(x, s)
    ensures s.request == Whole(x.requests)
  {
    WholeSnoc(x.requests, |x.requests| - 1);
  }

  // ---------------------------------------------------------------------------------------------
  // What can be found of a response whose END_STREAM is stored

  function LastFields(es: seq<Effect>): seq<Field> {
    if es == [] then [] else es[|es| - 1].fields
  }

  /** The response without what the last frame carries. */
  function AllButLast(es: seq<Effect>): Item {
    if es == [] then FRESH_ITEM else Whole(es[..|es| - 1])
  }

  /** The header map once j fields of the last frame are stored. */
  function HeadersAt(es: seq<Effect>, j: nat): map<string, string> {
    Store(AllButLast(es).headers, if j <= |LastFields(es)| then LastFields(es)[..j] else LastFields(es))
  }

  /** The input goroutine may look while the last frame is being stored. */
  predicate SeenAt(es: seq<Effect>, side: Side, key: string, v: Option<string>, j: nat) {
    && j <= |LastFields(es)| && (side == Outgoing ==> j == |LastFields(es)|)
    && Lookup(HeadersAt(es, j), key) == v
  }

  ghost predicate Seen(es: seq<Effect>, side: Side, key: string, v: Option<string>) {
    exists j :: SeenAt(es, side, key, v, j)
  }

  predicate FoundData(es: seq<Effect>, side: Side, data: seq<Byte>) {
    data == Whole(es).data || (side == Incoming && data == AllButLast(es).data)
  }

  /** Each key as it stood at some time, and the bytes of some time. */
  ghost predicate Found(es: seq<Effect>, side: Side, b: Body) {
    (forall key :: Seen(es, side, key, Lookup(b.headers, key))) && FoundData(es, side, b.data)
  }

  lemma LastIs(es: seq<Effect>)
    requires es != []
    ensures Whole(es).headers == HeadersAt(es, |LastFields(es)|)
    ensures Whole(es).data == AllButLast(es).data + es[|es| - 1].bytes
  {
    WholeSnoc(es, |es| - 1);
    AllIs(AllButLast(es), es[|es| - 1]);
    assert LastFields(es)[..|LastFields(es)|] == LastFields(es);
  }

  /** The response item at any time after END_STREAM was stored. */
  lemma StoredFound(es: seq<Effect>, g: Goroutine, side: Side)
    requires Ends(es) && EndStored(es, g) && AccessOk(es, g) && (side == Outgoing ==> !g.pc.Storing?)
    ensures Found(es, side, BodyOf(Stored(es, g)))
  {
    LastIs(es);
    var e, n := es[|es| - 1], |es| - 1;
    var j := if g.n == n && g.pc.Storing? then FieldsIn(e, g.pc.access) else |LastFields(es)|;
    if g.n == n {
      WholeSnoc(es, n);
    }
    assert Stored(es, g).headers == HeadersAt(es, j);
    forall key
      ensures Seen(es, side, key, Lookup(Stored(es, g).headers, key))
    {
      assert SeenAt(es, side, key, Lookup(Stored(es, g).headers, key), j);
    }
  }

  /** The output goroutine finds the whole. */
  lemma FoundByOutput(es: seq<Effect>, b: Body)
    requires es != [] && Found(es, Outgoing, b)
    ensures b == BodyOf(Whole(es))
  {
    LastIs(es);
    var whole := Whole(es).headers;
    forall key
      ensures Lookup(b.headers, key) == Lookup(whole, key)
    {
      var j :| SeenAt(es, Outgoing, key, Lookup(b.headers, key), j);
    }
    SameMap(b.headers, whole);
  }

  lemma SameMap(m: map<string, string>, n: map<string, string>)
    requires forall key :: Lookup(m, key) == Lookup(n, key)
    ensures m == n
  {
    forall key
      ensures key in m <==> key in n
      ensures key in m ==> m[key] == n[key]
    {
      assert Lookup(m, key) == Lookup(n, key);
    }
  }

  /** A key that no frame names is never there. */
  lemma UnnamedSeen(es: seq<Effect>, side: Side, key: string)
    requires es != [] && key !in NamesOf(es)
    ensures Seen(es, side, key, None)
  {
    WholeNamed(es);
    LastIs(es);
    assert SeenAt(es, side, key, None, |LastFields(es)|);
  }

  // ---------------------------------------------------------------------------------------------
  // Until a timer fires: the draft of the one that has the token

  /** The header map that a Range over the whole request has built so far. */
  ghost predicate RequestRange(x: Stream, r: Reading) {
    forall key :: Lookup(r.draft.request.headers, key) ==
                  if key in r.todo then None else Lookup(Whole(x.requests).headers, key)
  }

  ghost predicate ResponseRange(x: Stream, side: Side, headers: map<string, string>, todo: set<string>) {
    forall key :: if key in todo then Lookup(headers, key) == None else Seen(x.responses, side, key, Lookup(headers, key))
  }

  /** What was read so far, of a request that is whole and of a response that is found. */
  ghost predicate ReadOk(x: Stream, side: Side, r: Reading) {
    var whole, d := BodyOf(Whole(x.requests)), r.draft;
    && (if r.stage == 0 then d.request.headers == map[] else d.methodName == MethodOf(whole.headers))
    && (r.stage == 1 ==> RequestRange(x, r))
    && (r.stage > 1 ==> d.request.headers == whole.headers)
    && (r.stage > 2 ==> d.request.data == whole.data)
    && (r.stage <= 2 ==> d.response.headers == map[])
    && (r.stage == 3 ==> ResponseRange(x, side, d.response.headers, r.todo))
    && (r.stage > 3 ==> ResponseRange(x, side, d.response.headers, {}))
    && (r.stage > 4 ==> FoundData(x.responses, side, d.response.data))
  }

  lemma RangeBegins(x: Stream, side: Side, r: Reading)
    requires Proper(x)
    ensures r.draft.request.headers == map[] && r.todo == x.names ==> RequestRange(x, r)
    ensures ResponseRange(x, side, map[], x.names)
  {
    WholeNamed(x.requests);
    forall key | key !in x.names
      ensures Seen(x.responses, side, key, None)
    {
      UnnamedSeen(x.responses, side, key);
    }
  }

  lemma RequestRangeEnds(x: Stream, r: Reading)
    requires RequestRange(x, r) && r.todo == {}
    ensures r.draft.request.headers == Whole(x.requests).headers
  {
    SameMap(r.draft.request.headers, Whole(x.requests).headers);
  }

  /** What a builder finds. */
  ghost predicate Finds(x: Stream, s: State, side: Side) {
    s.request == Whole(x.requests) && Found(x.responses, side, BodyOf(s.response))
  }

  lemma ReadOnOk(x: Stream, s: State, side: Side, r: Reading)
    requires Proper(x) && Finds(x, s, side) && ReadOk(x, side, r) && r.stage < 5 && (InRange(r) ==> r.todo == {})
    ensures ReadOk(x, side, ReadOn(x.names, s, r))
  {
    RangeBegins(x, side, ReadOn(x.names, s, r));
    if r.stage == 1 {
      RequestRangeEnds(x, r);
    }
  }

  lemma VisitRequestOk(x: Stream, s: State, r: Reading, key: string)
    requires s.request == Whole(x.requests) && r.stage == 1 && RequestRange(x, r) && key in r.todo
    ensures RequestRange(x, VisitOn(s, r, key))
  {
    var t := VisitOn(s, r, key);
    forall k
      ensures Lookup(t.draft.request.headers, k) == if k in t.todo then None else Lookup(Whole(x.requests).headers, k)
    {
      assert Lookup(r.draft.request.headers, k) == if k in r.todo then None else Lookup(Whole(x.requests).headers, k);
    }
  }

  lemma VisitResponseOk(x: Stream, s: State, side: Side, r: Reading, key: string)
    requires Found(x.responses, side, BodyOf(s.response)) && r.stage == 3 && key in r.todo
    requires ResponseRange(x, side, r.draft.response.headers, r.todo)
    ensures ResponseRange(x, side, VisitOn(s, r, key).draft.response.headers, VisitOn(s, r, key).todo)
  {
    var h, t := r.draft.response.headers, VisitOn(s, r, key);
    var h' := t.draft.response.headers;
    forall k
      ensures if k in t.todo then Lookup(h', k) == None else Seen(x.responses, side, k, Lookup(h', k))
    {
      assert if k in r.todo then Lookup(h, k) == None else Seen(x.responses, side, k, Lookup(h, k));
      assert Lookup(h', k) == if k == key then Lookup(s.response.headers, k) else Lookup(h, k);
    }
  }

  lemma VisitOnOk(x: Stream, s: State, side: Side, r: Reading, key: string)
    requires Finds(x, s, side) && ReadOk(x, side, r) && InRange(r) && key in r.todo
    ensures ReadOk(x, side, VisitOn(s, r, key))
  {
    if r.stage == 1 {
      VisitRequestOk(x, s, r, key);
    } else {
      VisitResponseOk(x, s, side, r, key);
    }
  }

  /** The token is taken by one goroutine, before any reset. */
  lemma BuilderFinds(x: Stream, s: State, side: Side)
    requires Proper(x) && Control(x, s) && Untouched(x, s) && !s.timedOut && Of(s, side).pc.Building?
    ensures Clean(s) && Finds(x, s, side)
  {
    assert s.resets == 0 && RequestProcessed(x, s);
    ProcessedWhole(x, s);
    StoredFound(x.responses, s.output, side);
  }

  /** The draft of a goroutine, if it is building one. */
  ghost predicate DraftOk(x: Stream, s: State, side: Side) {
    Clean(s) && Of(s, side).pc.Building? ==> ReadOk(x, side, Of(s, side).pc.at)
  }

  /** All there is to know of a builder before any timer fires. */
  ghost predicate BuilderOk(x: Stream, s: State, side: Side) {
    Of(s, side).pc.Building? && !s.timedOut ==> Clean(s) && Finds(x, s, side) && ReadOk(x, side, Of(s, side).pc.at)
  }

  lemma IsBuilderOk(x: Stream, s: State, side: Side)
    requires Proper(x) && Control(x, s) && Untouched(x, s) && DraftOk(x, s, side)
    ensures BuilderOk(x, s, side)
  {
    if Of(s, side).pc.Building? && !s.timedOut {
      BuilderFinds(x, s, side);
    }
  }

  lemma BuildDraft(x: Stream, s: State, side: Side, t: State)
    requires Proper(x) && BuilderOk(x, s, side) && Of(s, side).pc.Building?
    requires BuildStep(x, s, side, Of(s, side).pc.token, Of(s, side).pc.at) == Some(t)
    ensures DraftOk(x, t, side)
  {
    if !s.timedOut && Of(s, side).pc.at.stage < 5 {
      ReadOnOk(x, s, side, Of(s, side).pc.at);
    }
  }

  lemma VisitDraft(x: Stream, s: State, side: Side, key: string, t: State)
    requires Proper(x) && BuilderOk(x, s, side) && VisitStep(s, side, key) == Some(t)
    ensures DraftOk(x, t, side)
  {
    if !s.timedOut {
      VisitOnOk(x, s, side, Of(s, side).pc.at, key);
    }
  }

  lemma OtherSideKept(x: Stream, s: State, a: Action, t: State, side: Side)
    ensures Next(x, s, a) == Some(t) && a.side != side ==> Of(t, side) == Of(s, side)
  {
  }

  lemma OpensEmpty(x: Stream, s: State, a: Action, t: State)
    ensures Next(x, s, a) == Some(t) && !Of(s, a.side).pc.Building? && Of(t, a.side).pc.Building? ==>
              Of(t, a.side).pc.at == NOTHING_READ
  {
  }

  lemma NothingReadOk(x: Stream, side: Side)
    ensures ReadOk(x, side, NOTHING_READ)
  {
  }

  lemma FreshDraft(x: Stream, s: State, a: Action, t: State)
    requires !Of(s, a.side).pc.Building? && Next(x, s, a) == Some(t)
    ensures DraftOk(x, t, a.side)
  {
    OpensEmpty(x, s, a, t);
    NothingReadOk(x, a.side);
  }

  lemma OwnDraft(x: Stream, s: State, a: Action, t: State)
    requires Proper(x) && BuilderOk(x, s, a.side) && Next(x, s, a) == Some(t)
    ensures DraftOk(x, t, a.side)
  {
    if !Of(s, a.side).pc.Building? {
      FreshDraft(x, s, a, t);
    } else if a.Visit? {
      VisitDraft(x, s, a.side, a.key, t);
    } else if a.Step? {
      BuildDraft(x, s, a.side, t);
    }
  }

  lemma OtherDraft(x: Stream, s: State, a: Action, t: State, side: Side)
    requires DraftOk(x, s, side) && Next(x, s, a) == Some(t) && a.side != side
    ensures DraftOk(x, t, side)
  {
    OtherSideKept(x, s, a, t, side);
    if Clean(t) {
      CleanBefore(x, s, a, t);
    }
  }

  // ---------------------------------------------------------------------------------------------
  // The messages sent

  /** A message sent by who left by the token, no timer having fired: it has the whole request, and
      a response that could be found. */
  ghost predicate Complete(x: Stream, b: Built) {
    b.token && !b.afterTimeout ==>
      var whole := BodyOf(Whole(x.requests));
      exists found :: Found(x.responses, b.who, found)
        && x.build(Draft(MethodOf(whole.headers), whole, found)) == Some(b.call)
  }

  ghost predicate AllComplete(x: Stream, log: seq<Built>) {
    forall i :: 0 <= i < |log| ==> Complete(x, log[i])
  }

  lemma DraftComplete(x: Stream, side: Side, r: Reading, b: Built)
    requires ReadOk(x, side, r) && r.stage >= 5
    requires b.who == side && x.build(r.draft) == Some(b.call)
    ensures Complete(x, b)
  {
    var d := r.draft;
    assert Found(x.responses, side, d.response);
    assert d.request == BodyOf(Whole(x.requests)) && d == Draft(d.methodName, d.request, d.response);
  }

  lemma BuildLog(x: Stream, s: State, side: Side, t: State)
    requires BuilderOk(x, s, side) && Of(s, side).pc.Building? && AllComplete(x, s.log)
    requires BuildStep(x, s, side, Of(s, side).pc.token, Of(s, side).pc.at) == Some(t)
    ensures AllComplete(x, t.log)
  {
    var r := Of(s, side).pc.at;
    if !s.timedOut && t.log != s.log {
      DraftComplete(x, side, r, t.log[|s.log|]);
    }
  }

  lemma OtherLog(x: Stream, s: State, a: Action, t: State)
    ensures Next(x, s, a) == Some(t) && (a.Step? ==> !Of(s, a.side).pc.Building?) ==> t.log == s.log
  {
  }

  lemma OwnLog(x: Stream, s: State, side: Side, t: State)
    requires BuilderOk(x, s, side) && AllComplete(x, s.log)
    requires Of(s, side).pc.Building? && OneStep(x, s, side) == Some(t)
    ensures AllComplete(x, t.log)
  {
    BuildLog(x, s, side, t);
  }

  lemma LogStep(x: Stream, s: State, a: Action, t: State)
    requires BuilderOk(x, s, a.side) && AllComplete(x, s.log) && Next(x, s, a) == Some(t)
    ensures AllComplete(x, t.log)
  {
    if a.Step? && Of(s, a.side).pc.Building? {
      OwnLog(x, s, a.side, t);
    } else {
      OtherLog(x, s, a, t);
    }
  }

  // ---------------------------------------------------------------------------------------------
  // All runs

  ghost predicate Inv(x: Stream, s: State) {
    && Control(x, s) && Untouched(x, s)
    && DraftOk(x, s, Incoming) && DraftOk(x, s, Outgoing) && AllComplete(x, s.log)
  }

  lemma DraftsStep(x: Stream, s: State, a: Action, t: State)
    requires Proper(x) && BuilderOk(x, s, a.side) && Next(x, s, a) == Some(t)
    requires DraftOk(x, s, Incoming) && DraftOk(x, s, Outgoing)
    ensures DraftOk(x, t, Incoming) && DraftOk(x, t, Outgoing)
  {
    OwnDraft(x, s, a, t);
    OtherDraft(x, s, a, t, if a.side == Incoming then Outgoing else Incoming);
  }

  lemma InvStep(x: Stream, s: State, a: Action, t: State)
    requires Proper(x) && Inv(x, s) && Next(x, s, a) == Some(t)
    ensures Inv(x, t)
  {
    IsBuilderOk(x, s, a.side);
    ControlStep(x, s, a, t);
    UntouchedStep(x, s, a, t);
    DraftsStep(x, s, a, t);
    LogStep(x, s, a, t);
  }

  lemma StartControl(x: Stream)
    ensures Control(x, START)
  {
  }

  lemma StartStored(es: seq<Effect>)
    requires es != []
    ensures Stored(es, IDLE) == FRESH_ITEM && AccessOk(es, IDLE)
  {
    NothingStored(es, IDLE);
    assert es[..0] == [];
  }

  lemma StartSide(x: Stream, side: Side)
    requires FramesOf(x, side) != []
    ensures SideUntouched(x, START, side)
  {
    StartStored(FramesOf(x, side));
  }

  lemma StartUntouched(x: Stream)
    requires x.requests != [] && x.responses != []
    ensures Untouched(x, START)
  {
    StartSide(x, Incoming);
    StartSide(x, Outgoing);
  }

  lemma StartDrafts(x: Stream)
    ensures DraftOk(x, START, Incoming) && DraftOk(x, START, Outgoing) && AllComplete(x, START.log)
  {
  }

  lemma StartInv(x: Stream)
    requires x.requests != [] && x.responses != []
    ensures Inv(x, START)
  {
    StartControl(x);
    StartUntouched(x);
    StartDrafts(x);
  }

  lemma LastStep(x: Stream, r: Trace, t: State) returns (before: Trace, a: Action, s: State)
    requires Runs(x, r, t) && r.actions != []
    ensures |before.actions| < |r.actions| && r.actions == before.actions + [a]
    ensures Runs(x, before, s) && Next(x, s, a) == Some(t)
  {
    var n := |r.actions| - 1;
    before, a, s := Trace(r.states[..n + 1], r.actions[..n]), r.actions[n], r.states[n];
  }

  lemma {:induction false} Always(x: Stream, r: Trace, t: State)
    requires Proper(x) && Runs(x, r, t)
    ensures Inv(x, t)
    decreases |r.actions|
  {
    if r.actions == [] {
      StartInv(x);
    } else {
      var before, a, s := LastStep(x, r, t);
      Always(x, before, s);
      InvStep(x, s, a, t);
    }
  }

  lemma StreamProper(env: Env, requests: seq<Tagged>, responses: seq<Tagged>)
    requires OneMessage(requests) && OneMessage(responses)
    ensures Proper(StreamOf(env, requests, responses)) && Faithful(StreamOf(env, requests, responses))
  {
    OneMessageEnds(env, requests);
    OneMessageEnds(env, responses);
  }

  lemma TakerFinds(x: Stream, s: State, side: Side)
    requires OneToken(x, s) && TokenStep(s, side).Some?
    ensures RequestProcessed(x, s) && s.tokensTaken == 0
  {
    assert Of(s, side).pc.channel in s.full;
  }

  /** Whatever the timers do: a goroutine can leave WaitTimeout by the token only after the
      END_STREAM frame of the request was fully processed, and at most once in the stream's life. */
  lemma TokenAfterRequest(env: Env, requests: seq<Tagged>, responses: seq<Tagged>, r: Trace, s: State, side: Side)
    requires OneMessage(requests) && OneMessage(responses)
    requires Runs(StreamOf(env, requests, responses), r, s) && TokenStep(s, side).Some?
    ensures RequestProcessed(StreamOf(env, requests, responses), s) && s.tokensTaken == 0
  {
    StreamProper(env, requests, responses);
    Always(StreamOf(env, requests, responses), r, s);
    TakerFinds(StreamOf(env, requests, responses), s, side);
  }

  /** The response of a message is one that could be found. */
  ghost predicate FoundHalf(x: Stream, b: Built) {
    && MethodOk(b.call.methodName)
    && exists found :: Found(x.responses, b.who, found) && Half(x.lib, b.call.methodName, true, found) == b.call.response
                       && b.call.response.Some?
  }

  lemma CompleteParts(x: Stream, b: Built)
    requires Complete(x, b) && b.token && !b.afterTimeout && Faithful(x)
    ensures var whole := BodyOf(Whole(x.requests));
            && b.call.methodName == MethodOf(whole.headers)
            && Half(x.lib, b.call.methodName, false, whole) == Some(b.call.request)
            && FoundHalf(x, b)
  {
  }

  /** In every interleaving: a message sent by who left WaitTimeout by the token, when no wait on
      this stream had timed out by then, is built from the complete request, and, if the output
      goroutine sent it, from the complete response. */
  lemma TokenMeansComplete(env: Env, requests: seq<Tagged>, responses: seq<Tagged>, r: Trace, s: State, b: Built)
    requires OneMessage(requests) && OneMessage(responses)
    requires Runs(StreamOf(env, requests, responses), r, s) && b in s.log
    ensures var x := StreamOf(env, requests, responses);
            var whole := BodyOf(Whole(x.requests));
            b.token && !b.afterTimeout ==>
              && b.call.methodName == MethodOf(whole.headers)
              && Half(env.lib, b.call.methodName, false, whole) == Some(b.call.request)
              && (b.who == Outgoing ==> Half(env.lib, b.call.methodName, true, BodyOf(Whole(x.responses))) == b.call.response)
  {
    var x := StreamOf(env, requests, responses);
    StreamProper(env, requests, responses);
    Always(x, r, s);
    if b.token && !b.afterTimeout {
      CompleteParts(x, b);
      if b.who == Outgoing {
        var found :| Found(x.responses, Outgoing, found) && Half(x.lib, b.call.methodName, true, found) == b.call.response;
        FoundByOutput(x.responses, found);
      }
    }
  }
}
