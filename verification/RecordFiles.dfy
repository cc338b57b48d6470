/** Recorded messages on disk: the writer, and the reader over several files. Files are given by
    their (uncompressed) contents, in the order of their sorted paths. */
module RecordFiles {
  import opened Bytes
  import opened Text
  import opened Protocol
  import opened CodecSimple

  /** What ReadMessage reports besides a message. */
  datatype Read = Msg(msg: Message) | EOF | Bad(error: Error)

  /** Where the reader stands: current file, what is left of it, and whether all is read. */
  datatype Place = Place(index: nat, rest: string, eof: bool)

  /** The lines up to the next blank one, joined; or none before the last file ends. */
  datatype Scanned = Record(text: string, place: Place) | AtEnd(place: Place)

  function FirstNewline(s: string): (i: nat)
    requires '\n' in s
    ensures i < |s| && s[i] == '\n' && '\n' !in s[..i]
  {
    if s[0] == '\n' then 0 else
      var i := FirstNewline(s[1..]);
      assert s[..i + 1] == [s[0]] + s[1..][..i];
      i + 1
  }

  /** The reading loop. A line that the end of a file cuts off is dropped; the lines before it stay. */
  function Scan(files: seq<string>, p: Place, text: string): Scanned
    requires p.index < |files|
    decreases |files| - p.index, |p.rest|
  {
    if '\n' !in p.rest then
      if p.index + 1 < |files| then Scan(files, Place(p.index + 1, files[p.index + 1], p.eof), text)
      else AtEnd(Place(p.index, "", true))
    else
      var i := FirstNewline(p.rest);
      var next := p.(rest := p.rest[i + 1..]);
      if i > 0 then Scan(files, next, text + p.rest[..i + 1]) else Record(text, next)
  }

  /** What a record's text, its last newline taken off, decodes to. */
  function Decode(json: Json, text: string): Read {
    if text == "" then Bad(IndexPanic)
    else
      match Unmarshal(json, text[..|text| - 1])
      case Ok(m) => Msg(m)
      case Err(e) => Bad(e)
  }

  /** One ReadMessage. */
  function ReadOne(json: Json, files: seq<string>, p: Place): (Read, Place)
    requires p.index < |files|
  {
    if p.eof then (EOF, p)
    else
      match Scan(files, p, "")
      case AtEnd(q) => (EOF, q)
      case Record(text, q) => (Decode(json, text), q)
  }

  class ReinforcedReader {
    const json: Json
    const files: seq<string>
    var index: nat
    var rest: string
    var eof: bool

    predicate Valid()
      reads this
    {
      index < |files|
    }

    function At(): Place
      reads this
    {
      Place(index, rest, eof)
    }

    constructor (json: Json, files: seq<string>)
      requires files != []
      ensures Valid() && this.json == json && this.files == files && At() == Place(0, files[0], false)
    {
      this.json, this.files := json, files;
      index, rest, eof := 0, files[0], false;
    }

    /** False, with eof set, after the last file. */
    method NextFile() returns (ok: bool)
      requires Valid()
      modifies this
      ensures Valid() && ok == (old(index) + 1 < |files|)
      ensures At() == if ok then Place(old(index) + 1, files[old(index) + 1], old(eof))
                      else Place(old(index), old(rest), true)
    {
      if index + 1 < |files| {
        index := index + 1;
        rest := files[index];
        return true;
      }
      eof := true;
      ok := false;
    }

    method ReadMessage() returns (r: Read)
      requires Valid()
      modifies this
      ensures Valid() && (r, At()) == ReadOne(json, files, old(At()))
    {
      if eof {
        return EOF;
      }
      var line, bf, first := "", "", true;
      while first || |line| > 1
        invariant Valid() && !eof
        invariant first || |line| > 1 ==> Scan(files, At(), bf) == Scan(files, old(At()), "")
        invariant !(first || |line| > 1) ==> Scan(files, old(At()), "") == Record(bf, At())
        decreases |files| - index, |rest|, if first || |line| > 1 then 1 else 0
      {
        if '\n' !in rest {
          line, rest := rest, "";
          var ok := NextFile();
          if !ok {
            return EOF;
          }
          first := true;
          continue;
        }
        var i := FirstNewline(rest);
        line, rest := rest[..i + 1], rest[i + 1..];
        first := false;
        if |line| > 1 {
          bf := bf + line;
        }
      }
      r := Decode(json, bf);
    }
  }

  class FileDirOutput {
    const json: Json
    var log: string
    ghost var written: seq<Message>

    ghost predicate Valid()
      reads this
    {
      log == FileText(json, written)
    }

    constructor (json: Json)
      ensures Valid() && this.json == json && written == []
    {
      this.json := json;
      log := "";
      written := [];
    }

    /** The record, then its last newline and the blank line. */
    method Write(m: Message)
      requires Valid()
      modifies this
      ensures Valid() && written == old(written) + [m]
      ensures log == old(log) + RecordText(json, m)
    {
      log := log + Marshal(json, m);
      log := log + "\n\n";
      FileTextSnoc(json, written, m);
      written := written + [m];
    }
  }

  function RecordText(json: Json, m: Message): string {
    Marshal(json, m) + "\n\n"
  }

  function Texts(json: Json, ms: seq<Message>): (r: seq<string>)
    ensures |r| == |ms|
  {
    seq(|ms|, i requires 0 <= i < |ms| => RecordText(json, ms[i]))
  }

  /** The file that writing ms makes. */
  function FileText(json: Json, ms: seq<Message>): string {
    Flat(Texts(json, ms))
  }

  // ---------------------------------------------------------------------------------------------
  // Round trip

  /** What can be written and read back: the method must not be empty, or its blank line would end
      the record. */
  predicate Storable(m: Message) {
    Clean(m) && m.methodName != ""
  }

  /** Each line followed by a newline. */
  function Lines(ls: seq<string>): string {
    if ls == [] then "" else (ls[0] + "\n") + Lines(ls[1..])
  }

  ghost predicate FullLines(ls: seq<string>) {
    forall i :: 0 <= i < |ls| ==> ls[i] != "" && '\n' !in ls[i]
  }

  lemma {:induction false} NewlineAt(a: string, b: string)
    requires '\n' !in a
    ensures '\n' in a + "\n" + b && FirstNewline(a + "\n" + b) == |a|
    ensures (a + "\n" + b)[..|a| + 1] == a + "\n" && (a + "\n" + b)[|a| + 1..] == b
    decreases |a|
  {
    var s := a + "\n" + b;
    assert s[|a|] == '\n';
    if a != "" {
      assert s[1..] == a[1..] + "\n" + b && s[0] == a[0];
      NewlineAt(a[1..], b);
    }
  }

  lemma ScanBlank(files: seq<string>, p: Place, text: string, tail: string)
    requires p.index < |files| && p.rest == "\n" + tail
    ensures Scan(files, p, text) == Record(text, p.(rest := tail))
  {
    assert p.rest == "" + "\n" + tail;
    NewlineAt("", tail);
  }

  lemma ScanLine(files: seq<string>, p: Place, text: string, line: string, after: string)
    requires p.index < |files| && line != "" && '\n' !in line && p.rest == line + "\n" + after
    ensures Scan(files, p, text) == Scan(files, p.(rest := after), text + (line + "\n"))
  {
    NewlineAt(line, after);
  }

  lemma {:induction false} ScanLines(files: seq<string>, p: Place, text: string, ls: seq<string>, tail: string)
    requires p.index < |files| && FullLines(ls) && p.rest == Lines(ls) + ("\n" + tail)
    ensures Scan(files, p, text) == Record(text + Lines(ls), p.(rest := tail))
    decreases |ls|
  {
    if ls == [] {
      ScanBlank(files, p, text, tail);
      assert text + Lines(ls) == text;
    } else {
      var after := Lines(ls[1..]) + ("\n" + tail);
      Assoc(ls[0] + "\n", Lines(ls[1..]), "\n" + tail);
      ScanLine(files, p, text, ls[0], after);
      ScanLines(files, p.(rest := after), text + (ls[0] + "\n"), ls[1..], tail);
      Assoc(text, ls[0] + "\n", Lines(ls[1..]));
    }
  }

  /** A record may go on in the next file: whole lines are kept, what follows the last newline of a
      file is dropped. */
  lemma {:induction false} ScanAcrossFiles(files: seq<string>, p: Place, text: string, ls: seq<string>, cut: string)
    requires p.index + 1 < |files| && FullLines(ls) && '\n' !in cut && p.rest == Lines(ls) + cut
    ensures Scan(files, p, text) == Scan(files, Place(p.index + 1, files[p.index + 1], p.eof), text + Lines(ls))
    decreases |ls|
  {
    if ls == [] {
      assert p.rest == cut;
      AppendNothing(text);
    } else {
      var after := Lines(ls[1..]) + cut;
      Assoc(ls[0] + "\n", Lines(ls[1..]), cut);
      ScanLine(files, p, text, ls[0], after);
      ScanAcrossFiles(files, p.(rest := after), text + (ls[0] + "\n"), ls[1..], cut);
      Assoc(text, ls[0] + "\n", Lines(ls[1..]));
    }
  }

  lemma {:induction false} LinesIsJoin(ls: seq<string>)
    requires ls != []
    ensures Lines(ls) == Join(ls, '\n') + "\n"
  {
    if |ls| > 1 {
      LinesIsJoin(ls[1..]);
    }
  }

  lemma RecordIsLines(json: Json, m: Message)
    requires Lawful(json) && Storable(m)
    ensures Marshal(json, m) + "\n" == Lines(LinesOf(json, m)) && FullLines(LinesOf(json, m))
  {
    Line1RoundTrip(m.meta);
    assert ' ' in Line1(m.meta);
    MarshalIsJoin(json, m);
    LinesIsJoin(LinesOf(json, m));
  }

  lemma TwoNewlines(a: string, tail: string)
    ensures a + "\n\n" + tail == (a + "\n") + ("\n" + tail)
  {
    Assoc(a, "\n", "\n");
    assert "\n" + "\n" == "\n\n";
    Assoc(a + "\n", "\n", tail);
  }

  lemma ScanRecord(json: Json, files: seq<string>, p: Place, m: Message, tail: string)
    requires Lawful(json) && Storable(m) && p.index < |files| && p.rest == RecordText(json, m) + tail
    ensures Scan(files, p, "") == Record(Marshal(json, m) + "\n", p.(rest := tail))
  {
    var data, lines := Marshal(json, m), Lines(LinesOf(json, m));
    RecordIsLines(json, m);
    TwoNewlines(data, tail);
    ScanLines(files, p, "", LinesOf(json, m), tail);
    assert "" + lines == lines;
  }

  lemma DecodeRecord(json: Json, m: Message)
    requires Lawful(json) && Storable(m)
    ensures Decode(json, Marshal(json, m) + "\n") == Msg(m)
  {
    var data := Marshal(json, m);
    assert (data + "\n")[..|data + "\n"| - 1] == data;
    RoundTripExact(json, m);
  }

  /** Reading where a written record begins returns its message and stops right after it. */
  lemma ReadRecord(json: Json, files: seq<string>, p: Place, m: Message, tail: string)
    requires Lawful(json) && Storable(m) && p.index < |files| && !p.eof
    requires p.rest == RecordText(json, m) + tail
    ensures ReadOne(json, files, p) == (Msg(m), p.(rest := tail))
  {
    ScanRecord(json, files, p, m, tail);
    DecodeRecord(json, m);
  }

  /** At the end of a file, reading goes on with the next one. */
  lemma ReadAcross(json: Json, files: seq<string>, p: Place)
    requires p.index < |files| && !p.eof && p.rest == ""
    ensures ReadOne(json, files, p) ==
            if p.index + 1 < |files| then ReadOne(json, files, Place(p.index + 1, files[p.index + 1], false))
            else (EOF, Place(p.index, "", true))
  {
  }

  /** Reading until something else than a message comes. */
  function ReadAll(json: Json, files: seq<string>, p: Place): (r: (seq<Message>, Read, Place))
    requires p.index < |files|
    ensures r.2.index < |files|
    decreases |files| - p.index, |p.rest|
  {
    ScanShrinks(files, p, "");
    var (r, q) := ReadOne(json, files, p);
    if r.Msg? then
      var (ms, last, end) := ReadAll(json, files, q);
      ([r.msg] + ms, last, end)
    else ([], r, q)
  }

  lemma {:induction false} ScanShrinks(files: seq<string>, p: Place, text: string)
    requires p.index < |files|
    ensures var r := Scan(files, p, text);
            && p.index <= r.place.index < |files|
            && (r.Record? ==> r.place.index > p.index || |r.place.rest| < |p.rest|)
            && (if r.Record? then r.place.eof == p.eof else r.place.eof)
    decreases |files| - p.index, |p.rest|
  {
    if '\n' !in p.rest {
      if p.index + 1 < |files| {
        ScanShrinks(files, Place(p.index + 1, files[p.index + 1], p.eof), text);
      }
    } else {
      var i := FirstNewline(p.rest);
      if i > 0 {
        ScanShrinks(files, p.(rest := p.rest[i + 1..]), text + p.rest[..i + 1]);
      }
    }
  }

  ghost predicate AllStorable(ms: seq<Message>) {
    forall i :: 0 <= i < |ms| ==> Storable(ms[i])
  }

  lemma FileTextCons(json: Json, m: Message, ms: seq<Message>)
    ensures FileText(json, [m] + ms) == RecordText(json, m) + FileText(json, ms)
  {
    assert Texts(json, [m] + ms) == [RecordText(json, m)] + Texts(json, ms);
    FlatCons(RecordText(json, m), Texts(json, ms));
  }

  lemma FileTextSnoc(json: Json, ms: seq<Message>, m: Message)
    ensures FileText(json, ms + [m]) == FileText(json, ms) + RecordText(json, m)
  {
    assert Texts(json, ms + [m]) == Texts(json, ms) + [RecordText(json, m)];
    FlatSnoc(Texts(json, ms), RecordText(json, m));
  }

  /** The contents of the files when each group of messages goes to one file. */
  function Contents(json: Json, groups: seq<seq<Message>>): seq<string> {
    seq(|groups|, i requires 0 <= i < |groups| => FileText(json, groups[i]))
  }

  lemma ReadAllCons(json: Json, files: seq<string>, p: Place, q: Place, m: Message, rest: seq<Message>, end: Place)
    requires p.index < |files| && q.index < |files| && ReadOne(json, files, p) == (Msg(m), q)
    requires ReadAll(json, files, q) == (rest, EOF, end)
    ensures ReadAll(json, files, p) == ([m] + rest, EOF, end)
  {
  }

  lemma ReadAllAcross(json: Json, files: seq<string>, p: Place)
    requires p.index < |files| && !p.eof && p.rest == ""
    ensures ReadAll(json, files, p) ==
            if p.index + 1 < |files| then ReadAll(json, files, Place(p.index + 1, files[p.index + 1], false))
            else ([], EOF, Place(p.index, "", true))
  {
    ReadAcross(json, files, p);
  }

  /** The first message of a file, and then what is read after it. */
  lemma ReadFirst(json: Json, files: seq<string>, i: nat, m: Message, ms: seq<Message>, rest: seq<Message>, end: Place)
    requires Lawful(json) && Storable(m) && i < |files|
    requires ReadAll(json, files, Place(i, FileText(json, ms), false)) == (rest, EOF, end)
    ensures ReadAll(json, files, Place(i, FileText(json, [m] + ms), false)) == ([m] + rest, EOF, end)
  {
    var p, q := Place(i, FileText(json, [m] + ms), false), Place(i, FileText(json, ms), false);
    FileTextCons(json, m, ms);
    ReadRecord(json, files, p, m, q.rest);
    ReadAllCons(json, files, p, q, m, rest, end);
  }

  /** The messages of a file come before those of the files after it. */
  lemma ReadSwitch(json: Json, files: seq<string>, i: nat, rest: seq<Message>, end: Place)
    requires i + 1 < |files| && ReadAll(json, files, Place(i + 1, files[i + 1], false)) == (rest, EOF, end)
    ensures ReadAll(json, files, Place(i, "", false)) == (rest, EOF, end)
  {
    ReadAllAcross(json, files, Place(i, "", false));
  }

  lemma ReadLast(json: Json, files: seq<string>)
    requires files != []
    ensures ReadAll(json, files, Place(|files| - 1, "", false)) == ([], EOF, Place(|files| - 1, "", true))
  {
    ReadAllAcross(json, files, Place(|files| - 1, "", false));
  }

  lemma FlatFrom(groups: seq<seq<Message>>, i: nat)
    requires i < |groups|
    ensures Flat(groups[i..]) == groups[i] + Flat(groups[i + 1..])
  {
    assert groups[i..][1..] == groups[i + 1..];
  }

  lemma EmptyFile(json: Json)
    ensures FileText(json, []) == ""
  {
    assert Texts(json, []) == [];
  }

  /** Where the messages ms are all that is left of file i. */
  function PlaceOf(json: Json, i: nat, ms: seq<Message>): Place {
    Place(i, FileText(json, ms), false)
  }

  lemma ReadSome(json: Json, files: seq<string>, i: nat, ms: seq<Message>, others: seq<Message>, end: Place)
    requires Lawful(json) && AllStorable(ms) && ms != [] && i < |files|
    requires ReadAll(json, files, PlaceOf(json, i, ms[1..])) == (ms[1..] + others, EOF, end)
    ensures ReadAll(json, files, PlaceOf(json, i, ms)) == (ms + others, EOF, end)
  {
    ReadFirst(json, files, i, ms[0], ms[1..], ms[1..] + others, end);
    assert ms == [ms[0]] + ms[1..];
    Assoc([ms[0]], ms[1..], others);
  }

  lemma {:induction false} ReadFrom(json: Json, groups: seq<seq<Message>>, i: nat, ms: seq<Message>)
    requires Lawful(json) && i < |groups| && AllStorable(ms)
    requires forall g :: 0 <= g < |groups| ==> AllStorable(groups[g])
    ensures ReadAll(json, Contents(json, groups), PlaceOf(json, i, ms))
         == (ms + Flat(groups[i + 1..]), EOF, Place(|groups| - 1, "", true))
    decreases |groups| - i, |ms|
  {
    var files, others, end := Contents(json, groups), Flat(groups[i + 1..]), Place(|groups| - 1, "", true);
    EmptyFile(json);
    if ms != [] {
      ReadFrom(json, groups, i, ms[1..]);
      ReadSome(json, files, i, ms, others, end);
    } else {
      assert ms + others == others;
      if i + 1 < |groups| {
        ReadFrom(json, groups, i + 1, groups[i + 1]);
        FlatFrom(groups, i + 1);
        ReadSwitch(json, files, i, others, end);
      } else {
        ReadLast(json, files);
      }
    }
  }

  /** Round trip over files: messages written in groups, one file a group, in any number of files,
      come back in order; then the end of all files, which stays. */
  lemma FilesRoundTrip(json: Json, groups: seq<seq<Message>>)
    requires Lawful(json) && groups != []
    requires forall g :: 0 <= g < |groups| ==> AllStorable(groups[g])
    ensures var files := Contents(json, groups);
            var r := ReadAll(json, files, Place(0, files[0], false));
            && r.0 == Flat(groups) && r.1 == EOF
            && ReadOne(json, files, r.2) == (EOF, r.2)
  {
    ReadFrom(json, groups, 0, groups[0]);
    assert groups == [groups[0]] + groups[1..];
  }

  // ---------------------------------------------------------------------------------------------
  // Nothing else can be read: whatever the files hold

  /** The text of whole, non-empty lines. */
  ghost predicate Solid(text: string) {
    text == "" || (text[|text| - 1] == '\n' && NonEmpty(Split(text[..|text| - 1], '\n')))
  }

  ghost predicate NonEmpty(parts: seq<string>) {
    forall i :: 0 <= i < |parts| ==> parts[i] != ""
  }

  lemma SolidSnoc(text: string, line: string)
    requires Solid(text) && line != "" && '\n' !in line
    ensures Solid(text + (line + "\n"))
  {
    var t := text + (line + "\n");
    if text == "" {
      SplitNone(line, '\n');
      assert t[..|t| - 1] == line;
    } else {
      var body := text[..|text| - 1];
      assert t[..|t| - 1] == body + ['\n'] + line;
      SplitLast(body, '\n', line);
    }
  }

  lemma {:induction false} ScanSolid(files: seq<string>, p: Place, text: string)
    requires p.index < |files| && Solid(text)
    ensures Scan(files, p, text).Record? ==> Solid(Scan(files, p, text).text)
    decreases |files| - p.index, |p.rest|
  {
    if '\n' !in p.rest {
      if p.index + 1 < |files| {
        ScanSolid(files, Place(p.index + 1, files[p.index + 1], p.eof), text);
      }
    } else {
      var i := FirstNewline(p.rest);
      if i > 0 {
        SolidSnoc(text, p.rest[..i]);
        assert p.rest[..i] + "\n" == p.rest[..i + 1];
        ScanSolid(files, p.(rest := p.rest[i + 1..]), text + p.rest[..i + 1]);
      }
    }
  }

  /** Every message ever read could have been written: it would read back the same. */
  lemma ReadIsStorable(json: Json, files: seq<string>, p: Place)
    requires p.index < |files| && ReadOne(json, files, p).0.Msg?
    ensures Storable(ReadOne(json, files, p).0.msg)
  {
    ScanSolid(files, p, "");
    var text := Scan(files, p, "").text;
    var data := text[..|text| - 1];
    UnmarshalClean(json, data);
  }

  /** A message survives one file exactly when it is storable. */
  lemma OneRecordExact(json: Json, m: Message)
    requires Lawful(json)
    ensures ReadOne(json, [RecordText(json, m)], Place(0, RecordText(json, m), false)).0 == Msg(m) <==> Storable(m)
  {
    var text := RecordText(json, m);
    if Storable(m) {
      assert text == text + "";
      ReadRecord(json, [text], Place(0, text, false), m, "");
    } else if ReadOne(json, [text], Place(0, text, false)).0 == Msg(m) {
      ReadIsStorable(json, [text], Place(0, text, false));
    }
  }
}
