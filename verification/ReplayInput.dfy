/** Replay: a queue of scheduled messages, refilled from the record files one by one as they fire.
    Which of them fires next is the timer's choice. */
module ReplayInput {
  import opened Bytes
  import opened Protocol
  import opened CodecSimple
  import opened RecordFiles

  /** All reads from a place on, up to the end of the last file. */
  function ReadEvery(json: Json, files: seq<string>, p: Place): seq<Read>
    requires p.index < |files|
    decreases |files| - p.index, |p.rest|
  {
    ScanShrinks(files, p, "");
    var (r, q) := ReadOne(json, files, p);
    if r.EOF? then [] else [r] + ReadEvery(json, files, q)
  }

  /** The places before each of them, and the one after the last. */
  function PlacesOf(json: Json, files: seq<string>, p: Place): (r: seq<Place>)
    requires p.index < |files|
    ensures r != [] && r[0] == p
    decreases |files| - p.index, |p.rest|
  {
    ScanShrinks(files, p, "");
    var (r, q) := ReadOne(json, files, p);
    if r.EOF? then [p] else [p] + PlacesOf(json, files, q)
  }

  /** Read number k leads from one place to the next; at the end nothing but EOF is read, in place. */
  ghost predicate Leads(json: Json, files: seq<string>, ps: seq<Place>, rs: seq<Read>, k: nat)
    requires |ps| == |rs| + 1 && k <= |rs|
  {
    && ps[k].index < |files|
    && (k < |rs| ==> !rs[k].EOF? && ReadOne(json, files, ps[k]) == (rs[k], ps[k + 1]))
    && (k == |rs| ==> ReadOne(json, files, ps[k]).0 == EOF)
  }

  ghost predicate Itinerary(json: Json, files: seq<string>, ps: seq<Place>, rs: seq<Read>) {
    && |ps| == |rs| + 1
    && forall k :: 0 <= k <= |rs| ==> Leads(json, files, ps, rs, k)
  }

  lemma {:induction false} ItineraryFrom(json: Json, files: seq<string>, p: Place)
    requires p.index < |files|
    ensures Itinerary(json, files, PlacesOf(json, files, p), ReadEvery(json, files, p))
    decreases |files| - p.index, |p.rest|
  {
    ScanShrinks(files, p, "");
    var (r, q) := ReadOne(json, files, p);
    var ps, rs := PlacesOf(json, files, p), ReadEvery(json, files, p);
    if !r.EOF? {
      ItineraryFrom(json, files, q);
      forall k | 0 <= k <= |rs|
        ensures Leads(json, files, ps, rs, k)
      {
        if k > 0 {
          assert Leads(json, files, PlacesOf(json, files, q), ReadEvery(json, files, q), k - 1);
        }
      }
    }
  }

  lemma EndStays(json: Json, files: seq<string>, p: Place)
    requires p.index < |files|
    ensures ReadOne(json, files, p).0.EOF? ==> ReadOne(json, files, p).1.eof
    ensures p.eof ==> ReadOne(json, files, p) == (EOF, p)
  {
    ScanShrinks(files, p, "");
  }

  /** The messages among the reads. */
  function Messages(rs: seq<Read>): seq<Message> {
    if rs == [] then []
    else if rs[|rs| - 1].Msg? then Messages(rs[..|rs| - 1]) + [rs[|rs| - 1].msg]
    else Messages(rs[..|rs| - 1])
  }

  /** The reads that gave none. */
  function Bads(rs: seq<Read>): nat {
    if rs == [] then 0 else Bads(rs[..|rs| - 1]) + if rs[|rs| - 1].Msg? then 0 else 1
  }

  lemma {:induction false} EachIsOne(rs: seq<Read>)
    ensures |Messages(rs)| + Bads(rs) == |rs|
  {
    if rs != [] {
      EachIsOne(rs[..|rs| - 1]);
    }
  }

  lemma OneMoreRead(rs: seq<Read>, n: nat)
    requires n < |rs|
    ensures Messages(rs[..n + 1]) == if rs[n].Msg? then Messages(rs[..n]) + [rs[n].msg] else Messages(rs[..n])
    ensures Bads(rs[..n + 1]) == Bads(rs[..n]) + if rs[n].Msg? then 0 else 1
  {
    assert rs[..n + 1][..n] == rs[..n];
  }

  lemma {:induction false} Grows(rs: seq<Read>, i: nat, j: nat)
    requires i <= j <= |rs|
    ensures Bads(rs[..i]) <= Bads(rs[..j]) && Messages(rs[..i]) <= Messages(rs[..j])
    ensures |Messages(rs[..i])| == |Messages(rs[..j])| <==> forall k :: i <= k < j ==> !rs[k].Msg?
  {
    if i < j {
      Grows(rs, i, j - 1);
      OneMoreRead(rs, j - 1);
    }
  }

  // ---------------------------------------------------------------------------------------------

  /** How far the replay has come: of the reads, the first pos were made; depth of them at the
      start, and one each time a message fired, which took a message to be there. */
  ghost predicate Balanced(rs: seq<Read>, depth: nat, sent: seq<Message>, queue: multiset<Message>, pos: nat) {
    && depth <= |rs| && Bads(rs[..depth]) == 0
    && depth <= pos <= |rs| && pos == (if depth + |sent| <= |rs| then depth + |sent| else |rs|)
    && multiset(sent) + queue == multiset(Messages(rs[..pos]))
    && forall i :: depth <= i < pos ==> Bads(rs[..i]) < depth
  }

  /** No message comes after depth unreadable records. */
  ghost predicate NeverDry(rs: seq<Read>, depth: nat) {
    forall i :: 0 <= i < |rs| && rs[i].Msg? ==> Bads(rs[..i]) < depth
  }

  lemma QueueSize(rs: seq<Read>, depth: nat, sent: seq<Message>, queue: multiset<Message>, pos: nat)
    requires Balanced(rs, depth, sent, queue, pos)
    ensures |queue| + |sent| + Bads(rs[..pos]) == pos
  {
    EachIsOne(rs[..pos]);
    assert |multiset(sent) + queue| == |sent| + |queue|;
  }

  lemma TakeOut(sent: seq<Message>, queue: multiset<Message>, msg: Message)
    requires msg in queue
    ensures multiset(sent + [msg]) + (queue - multiset{msg}) == multiset(sent) + queue
  {
  }

  lemma PutIn(sent: multiset<Message>, queue: multiset<Message>, known: seq<Message>, m: Message)
    requires sent + queue == multiset(known)
    ensures sent + (queue + multiset{m}) == multiset(known + [m])
  {
  }

  /** The queue once read number pos is made. */
  function Refilled(rs: seq<Read>, queue: multiset<Message>, pos: nat): multiset<Message> {
    if pos < |rs| && rs[pos].Msg? then queue + multiset{rs[pos].msg} else queue
  }

  function NextPos(rs: seq<Read>, pos: nat): nat {
    if pos < |rs| then pos + 1 else pos
  }

  /** A message fires, and the next read is made. */
  lemma FireBalanced(rs: seq<Read>, depth: nat, sent: seq<Message>, queue: multiset<Message>, pos: nat, msg: Message)
    requires Balanced(rs, depth, sent, queue, pos) && msg in queue
    ensures Balanced(rs, depth, sent + [msg], Refilled(rs, queue - multiset{msg}, pos), NextPos(rs, pos))
  {
    QueueSize(rs, depth, sent, queue, pos);
    TakeOut(sent, queue, msg);
    if pos < |rs| {
      OneMoreRead(rs, pos);
      if rs[pos].Msg? {
        PutIn(multiset(sent + [msg]), queue - multiset{msg}, Messages(rs[..pos]), rs[pos].msg);
      }
    }
  }

  lemma NotDry(rs: seq<Read>, depth: nat, sent: seq<Message>, pos: nat)
    requires Balanced(rs, depth, sent, multiset{}, pos) && multiset(sent) == multiset(Messages(rs))
    ensures NeverDry(rs, depth)
  {
    Grows(rs, pos, |rs|);
    assert rs[..|rs|] == rs;
    assert |Messages(rs[..pos])| == |multiset(Messages(rs[..pos]))| == |multiset(Messages(rs))|;
    forall i | 0 <= i < |rs| && rs[i].Msg?
      ensures Bads(rs[..i]) < depth
    {
      if i < depth {
        Grows(rs, i, depth);
      }
    }
  }

  lemma Dry(rs: seq<Read>, depth: nat, sent: seq<Message>, pos: nat)
    requires Balanced(rs, depth, sent, multiset{}, pos) && multiset(sent) != multiset(Messages(rs))
    ensures !NeverDry(rs, depth)
  {
    QueueSize(rs, depth, sent, multiset{}, pos);
    Grows(rs, pos, |rs|);
    assert rs[..|rs|] == rs;
    assert Messages(rs[..pos]) != Messages(rs);
    var i :| pos <= i < |rs| && rs[i].Msg?;
    Grows(rs, pos, i);
  }

  /** When nothing is scheduled any more: exactly the recorded messages were sent, if and only if no
      message comes after as many unreadable records as were scheduled at the start. */
  lemma DryExact(rs: seq<Read>, depth: nat, sent: seq<Message>, pos: nat)
    requires Balanced(rs, depth, sent, multiset{}, pos)
    ensures multiset(sent) == multiset(Messages(rs)) <==> NeverDry(rs, depth)
  {
    if multiset(sent) == multiset(Messages(rs)) {
      NotDry(rs, depth, sent, pos);
    } else {
      Dry(rs, depth, sent, pos);
    }
  }

  /** Files without unreadable records. */
  lemma {:induction false} NoneBad(json: Json, files: seq<string>, p: Place)
    requires p.index < |files| && ReadAll(json, files, p).1 == EOF
    ensures ReadEvery(json, files, p) == Wrap(ReadAll(json, files, p).0)
    decreases |files| - p.index, |p.rest|
  {
    ScanShrinks(files, p, "");
    var (r, q) := ReadOne(json, files, p);
    if r.Msg? {
      NoneBad(json, files, q);
      assert ReadAll(json, files, p).0[1..] == ReadAll(json, files, q).0;
    }
  }

  function Wrap(ms: seq<Message>): seq<Read> {
    if ms == [] then [] else [Msg(ms[0])] + Wrap(ms[1..])
  }

  lemma {:induction false} WrapMessages(ms: seq<Message>)
    ensures |Wrap(ms)| == |ms| && forall i :: 0 <= i < |ms| ==> Wrap(ms)[i] == Msg(ms[i])
  {
    if ms != [] {
      WrapMessages(ms[1..]);
    }
  }

  lemma {:induction false} WrappedPrefix(ms: seq<Message>, n: nat)
    requires n <= |ms| == |Wrap(ms)|
    ensures Messages(Wrap(ms)[..n]) == ms[..n] && Bads(Wrap(ms)[..n]) == 0
  {
    if n > 0 {
      WrapMessages(ms);
      WrappedPrefix(ms, n - 1);
      OneMoreRead(Wrap(ms), n - 1);
    }
  }

  /** What was written in groups, one file a group, is replayed in full, whatever fires first. */
  lemma WrittenIsReplayed(json: Json, groups: seq<seq<Message>>, depth: nat)
    requires Lawful(json) && groups != [] && forall g :: 0 <= g < |groups| ==> AllStorable(groups[g])
    ensures var files := Contents(json, groups);
            var rs := ReadEvery(json, files, Place(0, files[0], false));
            Messages(rs) == Flat(groups) && Bads(rs) == 0 && (depth > 0 ==> NeverDry(rs, depth))
  {
    var files := Contents(json, groups);
    var p, ms := Place(0, files[0], false), Flat(groups);
    FilesRoundTrip(json, groups);
    NoneBad(json, files, p);
    WrapMessages(ms);
    WrappedPrefix(ms, |ms|);
    assert Wrap(ms)[..|ms|] == Wrap(ms) && ms[..|ms|] == ms;
    forall i | 0 <= i < |ms| && depth > 0
      ensures Bads(Wrap(ms)[..i]) < depth
    {
      WrappedPrefix(ms, i);
    }
  }

  // ---------------------------------------------------------------------------------------------

  /** The smallest timestamp of the queue. */
  ghost predicate IsOrigin(queue: multiset<Message>, benchmark: int) {
    && (forall m :: m in queue ==> benchmark <= m.meta.timestamp)
    && (queue != multiset{} ==> exists m :: m in queue && m.meta.timestamp == benchmark)
  }

  lemma OriginWith(queue: multiset<Message>, benchmark: int, msg: Message)
    requires IsOrigin(queue, benchmark)
    ensures var b := if queue == multiset{} || msg.meta.timestamp < benchmark then msg.meta.timestamp else benchmark;
            IsOrigin(queue + multiset{msg}, b)
  {
    assert msg in queue + multiset{msg};
  }

  predicate AllMsg(rs: seq<Read>, i: nat) {
    i <= |rs| && forall k :: 0 <= k < i ==> rs[k].Msg?
  }

  /** The first i reads gave messages, which are all scheduled. */
  ghost predicate Loaded(rs: seq<Read>, queue: multiset<Message>, i: nat) {
    i <= |rs| && Bads(rs[..i]) == 0 && queue == multiset(Messages(rs[..i])) && |queue| == i
  }

  lemma LoadedOne(rs: seq<Read>, queue: multiset<Message>, i: nat)
    requires Loaded(rs, queue, i) && i < |rs| && rs[i].Msg?
    ensures Loaded(rs, queue + multiset{rs[i].msg}, i + 1)
  {
    OneMoreRead(rs, i);
    PutIn(multiset{}, queue, Messages(rs[..i]), rs[i].msg);
    assert multiset{} + (queue + multiset{rs[i].msg}) == queue + multiset{rs[i].msg};
  }

  lemma LoadedBalanced(rs: seq<Read>, queue: multiset<Message>, i: nat)
    requires Loaded(rs, queue, i)
    ensures Balanced(rs, i, [], queue, i)
  {
    var none: seq<Message> := [];
    assert multiset(none) + queue == queue;
  }

  class FileDirInput {
    const readDepth: nat
    const reader: ReinforcedReader
    var queue: multiset<Message>
    var msgChan: seq<Message>
    var benchmarkTimestamp: int

    /** All reads there are, how many were scheduled at the start, and how many were made so far. */
    ghost var rs: seq<Read>
    ghost var depth: nat
    ghost var pos: nat

    /** Where the reader stands before each read; after the last it may stay or get to the end. */
    ghost var places: seq<Place>

    ghost predicate ReadTo(n: nat)
      reads this, reader
    {
      && reader.Valid() && Itinerary(reader.json, reader.files, places, rs) && n <= |rs|
      && (reader.At() == places[n] || (n == |rs| && reader.eof))
    }

    ghost predicate Valid()
      reads this, reader
    {
      ReadTo(pos) && Balanced(rs, depth, msgChan, queue, pos)
    }

    constructor (readDepth: nat, reader: ReinforcedReader)
      requires reader.Valid()
      ensures this.readDepth == readDepth && this.reader == reader && ReadTo(0)
      ensures queue == multiset{} && msgChan == []
      ensures rs == ReadEvery(reader.json, reader.files, reader.At())
    {
      this.readDepth, this.reader := readDepth, reader;
      queue, msgChan, benchmarkTimestamp := multiset{}, [], 0;
      rs, depth, pos := ReadEvery(reader.json, reader.files, reader.At()), 0, 0;
      places := PlacesOf(reader.json, reader.files, reader.At());
      ItineraryFrom(reader.json, reader.files, reader.At());
    }

    /** The next read, number n of all. */
    method ReadNext(ghost n: nat) returns (r: Read)
      requires ReadTo(n)
      modifies reader
      ensures if n < |rs| then r == rs[n] && !r.EOF? && ReadTo(n + 1) else r == EOF && ReadTo(n)
    {
      assert Leads(reader.json, reader.files, places, rs, n);
      EndStays(reader.json, reader.files, reader.At());
      r := reader.ReadMessage();
    }

    /** How many reads the start makes. */
    ghost function AtStart(): nat
      reads this
    {
      if readDepth < |rs| then readDepth else |rs|
    }

    /** Schedules the first readDepth messages; the smallest timestamp among them is the origin of
        time. A record among them that cannot be read is fatal. */
    method Init() returns (fatal: bool)
      requires ReadTo(0) && queue == multiset{} && msgChan == []
      modifies this`queue, this`benchmarkTimestamp, this`depth, this`pos, reader
      ensures fatal <==> !AllMsg(rs, AtStart())
      ensures !fatal ==> Valid() && depth == |queue| == AtStart() && IsOrigin(queue, benchmarkTimestamp)
    {
      var i;
      fatal, i := Load();
      if !fatal {
        Begin(i);
      }
    }

    ghost method Begin(i: nat)
      requires Loading(i) && msgChan == []
      modifies this`depth, this`pos
      ensures Valid() && depth == i == |queue|
    {
      LoadedBalanced(rs, queue, i);
      depth, pos := i, i;
    }

    /** The first i messages are scheduled. */
    ghost predicate Loading(i: nat)
      reads this, reader
    {
      ReadTo(i) && Loaded(rs, queue, i) && IsOrigin(queue, benchmarkTimestamp) && AllMsg(rs, i)
    }

    method Load() returns (fatal: bool, i: nat)
      requires Loading(0)
      modifies this`queue, this`benchmarkTimestamp, reader
      ensures fatal ==> !AllMsg(rs, AtStart())
      ensures !fatal ==> Loading(i) && i == AtStart()
    {
      i := 0;
      while i < readDepth
        invariant i <= readDepth && Loading(i)
      {
        var r := LoadNext(i);
        if !r.Msg? {
          return r.Bad?, i;
        }
        i := i + 1;
      }
      fatal := false;
    }

    method LoadNext(i: nat) returns (r: Read)
      requires Loading(i)
      modifies this`queue, this`benchmarkTimestamp, reader
      ensures r.Msg? ==> Loading(i + 1)
      ensures r.EOF? ==> Loading(i) && i == |rs|
      ensures r.Bad? ==> i < |rs| && r == rs[i]
    {
      r := ReadNext(i);
      if r.Msg? {
        Schedule(r.msg, i);
      }
    }

    method Schedule(msg: Message, i: nat)
      requires i < |rs| && rs[i] == Msg(msg) && Loaded(rs, queue, i) && IsOrigin(queue, benchmarkTimestamp)
      modifies this`queue, this`benchmarkTimestamp
      ensures Loaded(rs, queue, i + 1) && IsOrigin(queue, benchmarkTimestamp)
    {
      LoadedOne(rs, queue, i);
      OriginWith(queue, benchmarkTimestamp, msg);
      if i == 0 || msg.meta.timestamp < benchmarkTimestamp {
        benchmarkTimestamp := msg.meta.timestamp;
      }
      queue := queue + multiset{msg};
    }

    /** The timer fires a scheduled message: it is sent, and the next read is made; what it gives is
        scheduled, unless it cannot be read. Decoding may also index out of range, which panics. */
    method Fire(msg: Message) returns (panicked: bool)
      requires Valid() && msg in queue
      modifies this`queue, this`msgChan, this`pos, reader
      ensures msgChan == old(msgChan) + [msg]
      ensures panicked <==> old(pos) < |rs| && rs[old(pos)] == Bad(IndexPanic)
      ensures !panicked ==> Valid() && pos == NextPos(rs, old(pos))
      ensures !panicked ==> queue == Refilled(rs, old(queue) - multiset{msg}, old(pos))
    {
      FireBalanced(rs, depth, msgChan, queue, pos, msg);
      queue := queue - multiset{msg};
      msgChan := msgChan + [msg];
      panicked := Refill();
    }

    method Refill() returns (panicked: bool)
      requires ReadTo(pos)
      modifies this`queue, this`pos, reader
      ensures panicked <==> old(pos) < |rs| && rs[old(pos)] == Bad(IndexPanic)
      ensures ReadTo(pos) && pos == NextPos(rs, old(pos)) && queue == Refilled(rs, old(queue), old(pos))
    {
      var r := ReadNext(pos);
      panicked := r == Bad(IndexPanic);
      if r.Msg? {
        queue := queue + multiset{r.msg};
      }
      pos := NextPos(rs, pos);
    }

    /** No more messages fire than were recorded; when none is scheduled any more, exactly the
        recorded ones were sent if and only if the schedule could not run dry before the last one. */
    lemma AllSent()
      requires Valid()
      ensures |msgChan| + |queue| <= |Messages(rs)|
      ensures queue == multiset{} ==> (multiset(msgChan) == multiset(Messages(rs)) <==> NeverDry(rs, depth))
    {
      QueueSize(rs, depth, msgChan, queue, pos);
      EachIsOne(rs[..pos]);
      Grows(rs, pos, |rs|);
      assert rs[..|rs|] == rs;
      if queue == multiset{} {
        DryExact(rs, depth, msgChan, pos);
      }
    }
  }
}
