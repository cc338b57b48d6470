/** The simple codec: a message as three or four lines of text. */
module CodecSimple {
  import opened Bytes
  import opened Text
  import opened Protocol

  /** encoding/json on a *MsgItem; a nil pointer is None. */
  datatype Json = Json(enc: Option<MsgItem> -> string, dec: string -> Option<Option<MsgItem>>)

  /** The encoder is inverted by the decoder, and prints one non-empty line. */
  ghost predicate Lawful(json: Json) {
    forall x: Option<MsgItem> :: json.dec(json.enc(x)) == Some(x) && json.enc(x) != "" && '\n' !in json.enc(x)
  }

  /** IndexPanic stands for an index out of range, which stops the program. */
  datatype Error = ErrProtocol | BadNumber | BadJson | IndexPanic
  datatype Result<+T> = Ok(value: T) | Err(error: Error)

  function Bool2Int(b: bool): int {
    if b then 1 else 0
  }

  predicate Int2Bool(v: int) {
    v > 0
  }

  function Line1(m: Meta): string {
    PrintInt(m.version) + " " + m.uuid + " " + PrintInt(m.timestamp) + " " + PrintInt(Bool2Int(m.containResponse))
  }

  function Marshal(json: Json, m: Message): string {
    Line1(m.meta) + "\n" + m.methodName + "\n" + json.enc(m.request)
    + if m.meta.containResponse then "\n" + json.enc(m.response) else ""
  }

  function ParseLine1(line: string): Result<Meta> {
    var parts := Split(line, ' ');
    if |parts| != 4 then Err(ErrProtocol)
    else
      var version, timestamp, contain := Atoi(parts[0]), Atoi(parts[2]), Atoi(parts[3]);
      if version.None? || timestamp.None? || contain.None? then Err(BadNumber)
      else Ok(Meta(version.value, parts[1], timestamp.value, Int2Bool(contain.value)))
  }

  /** Into a fresh message. */
  function Unmarshal(json: Json, data: string): Result<Message> {
    var lines := Split(data, '\n');
    var meta := ParseLine1(lines[0]);
    if meta.Err? then Err(meta.error)
    else if |lines| < 3 then Err(IndexPanic)
    else
      var request := json.dec(lines[2]);
      if request.None? then Err(BadJson)
      else if meta.value.containResponse && |lines| >= 4 then
        var response := json.dec(lines[3]);
        if response.None? then Err(BadJson)
        else Ok(Message(meta.value, lines[1], request.value, response.value))
      else
        Ok(Message(meta.value, lines[1], request.value,
                   if meta.value.containResponse then Some(MsgItem(map[], "")) else None))
  }

  /** The messages the format can carry. */
  predicate Clean(m: Message) {
    && ' ' !in m.meta.uuid && '\n' !in m.meta.uuid && '\n' !in m.methodName
    && (m.response.Some? ==> m.meta.containResponse)
  }

  lemma FourParts(a: string, u: string, t: string, b: string)
    requires ' ' !in a && ' ' !in u && ' ' !in t && ' ' !in b
    ensures Split(a + " " + u + " " + t + " " + b, ' ') == [a, u, t, b]
  {
    var x, y, z := a + " ", u + " ", t + " ";
    Assoc(x, u, " ");
    Assoc(x, y, t);
    Assoc(x, y + t, " ");
    Assoc(y, t, " ");
    Assoc(x, y + z, b);
    Assoc(y, z, b);
    SplitFirst(a, ' ', y + (z + b));
    SplitFirst(u, ' ', z + b);
    SplitFirst(t, ' ', b);
    SplitNone(b, ' ');
  }

  lemma Line1RoundTrip(m: Meta)
    requires ' ' !in m.uuid && '\n' !in m.uuid
    ensures ParseLine1(Line1(m)) == Ok(m) && '\n' !in Line1(m)
  {
    var a, t, b := PrintInt(m.version), PrintInt(m.timestamp), PrintInt(Bool2Int(m.containResponse));
    AtoiPrint(m.version);
    AtoiPrint(m.timestamp);
    AtoiPrint(Bool2Int(m.containResponse));
    FourParts(a, m.uuid, t, b);
  }

  /** The four words of the first line; the flag is 1 or 0. */
  lemma Line1Words(m: Meta)
    requires ' ' !in m.uuid
    ensures Split(Line1(m), ' ')
         == [PrintInt(m.version), m.uuid, PrintInt(m.timestamp), if m.containResponse then "1" else "0"]
  {
    AtoiPrint(m.version);
    AtoiPrint(m.timestamp);
    assert PrintInt(1) == "1" && PrintInt(0) == "0";
    FourParts(PrintInt(m.version), m.uuid, PrintInt(m.timestamp), if m.containResponse then "1" else "0");
  }

  /** Which first lines parse, word by word: three numbers, and any positive flag announces a response. */
  lemma WordsParse(a: string, u: string, t: string, b: string, m: Meta)
    requires ' ' !in a && ' ' !in u && ' ' !in t && ' ' !in b
    ensures ParseLine1(a + " " + u + " " + t + " " + b) == Ok(m) <==>
            && Atoi(a) == Some(m.version) && u == m.uuid && Atoi(t) == Some(m.timestamp)
            && Atoi(b).Some? && m.containResponse == (Atoi(b).value >= 1)
  {
    FourParts(a, u, t, b);
  }

  /** The lines of a printed message. */
  function LinesOf(json: Json, m: Message): seq<string> {
    [Line1(m.meta), m.methodName, json.enc(m.request)]
    + if m.meta.containResponse then [json.enc(m.response)] else []
  }

  lemma MarshalIsJoin(json: Json, m: Message)
    ensures Marshal(json, m) == Join(LinesOf(json, m), '\n')
  {
    var ls, q := LinesOf(json, m), json.enc(m.request);
    var tail := if m.meta.containResponse then [q, json.enc(m.response)] else [q];
    assert ls[1..] == [m.methodName] + tail && ls[1..][1..] == tail;
    assert Marshal(json, m) == Line1(m.meta) + "\n" + (m.methodName + "\n" + Join(tail, '\n'));
  }

  lemma MarshalLines(json: Json, m: Message)
    requires Lawful(json) && ' ' !in m.meta.uuid && '\n' !in m.meta.uuid && '\n' !in m.methodName
    ensures Split(Marshal(json, m), '\n') == LinesOf(json, m)
  {
    Line1RoundTrip(m.meta);
    MarshalIsJoin(json, m);
    SplitJoin(LinesOf(json, m), '\n');
  }

  /** A printed message that lost its announced response line still parses, with an empty response. */
  lemma MissingResponse(json: Json, m: Message)
    requires Lawful(json) && Clean(m) && m.meta.containResponse
    ensures Unmarshal(json, Join(LinesOf(json, m)[..3], '\n')) == Ok(m.(response := Some(MsgItem(map[], ""))))
  {
    Line1RoundTrip(m.meta);
    SplitJoin(LinesOf(json, m)[..3], '\n');
  }

  /** One that lost its request too stops the program. */
  lemma MissingRequest(json: Json, m: Message)
    requires ' ' !in m.meta.uuid && '\n' !in m.meta.uuid && '\n' !in m.methodName
    ensures Unmarshal(json, Line1(m.meta) + "\n" + m.methodName) == Err(IndexPanic)
  {
    Line1RoundTrip(m.meta);
    SplitFirst(Line1(m.meta), '\n', m.methodName);
    SplitNone(m.methodName, '\n');
  }

  /** Whatever the text, a message that Unmarshal returns is one the format can carry. */
  lemma UnmarshalClean(json: Json, data: string)
    requires Unmarshal(json, data).Ok?
    ensures Clean(Unmarshal(json, data).value)
  {
    var lines := Split(data, '\n');
    SplitParts(data, '\n', 0);
    SplitParts(data, '\n', 1);
    SplitParts(lines[0], ' ', 1);
  }

  /** Round trip, exactly: printing and parsing returns the message if and only if its UUID has no
      blank or newline, its method no newline, and a response is present only when announced. */
  lemma RoundTripExact(json: Json, m: Message)
    requires Lawful(json)
    ensures Unmarshal(json, Marshal(json, m)) == Ok(m) <==> Clean(m)
  {
    if Clean(m) {
      Line1RoundTrip(m.meta);
      MarshalLines(json, m);
    }
    if Unmarshal(json, Marshal(json, m)) == Ok(m) {
      UnmarshalClean(json, Marshal(json, m));
    }
  }
}
