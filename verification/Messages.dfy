/** How a message is built from what was read of a slot. Identifier and time stamp are left out. */
module Messages {
  import opened Bytes
  import opened Protocol

  const PSEUDO_HEADER_PATH := ":path"
  const CONTENT_TYPE := "content-type"

  predicate IsSpace(c: char) {
    || '\t' <= c <= '\r' || c == ' ' || c == '\U{0085}' || c == '\U{00A0}' || c == '\U{1680}'
    || '\U{2000}' <= c <= '\U{200A}' || c == '\U{2028}' || c == '\U{2029}' || c == '\U{202F}'
    || c == '\U{205F}' || c == '\U{3000}'
  }

  function TrimSpace(s: string): string {
    if s == "" then ""
    else if IsSpace(s[0]) then TrimSpace(s[1..])
    else if IsSpace(s[|s| - 1]) then TrimSpace(s[..|s| - 1])
    else s
  }

  predicate HoldsAt(s: string, sub: string, i: nat) {
    i + |sub| <= |s| && s[i..i + |sub|] == sub
  }

  predicate Contains(s: string, sub: string) {
    exists i :: 0 <= i <= |s| && HoldsAt(s, sub, i)
  }

  function MethodOf(headers: map<string, string>): string {
    TrimSpace(if PSEUDO_HEADER_PATH in headers then headers[PSEUDO_HEADER_PATH] else "")
  }

  /** Reflection calls, and slots without a method, make no message. */
  predicate MethodOk(methodName: string) {
    methodName != "" && !Contains(methodName, "grpc.reflection")
  }

  predicate IsProtobuf(headers: map<string, string>) {
    CONTENT_TYPE !in headers || headers[CONTENT_TYPE] == "application/grpc"
  }

  function AsText(data: seq<Byte>): string {
    seq(|data|, i requires 0 <= i < |data| => data[i] as char)
  }

  /** One half of a message; None if it cannot be built. */
  function Half(lib: Library, methodName: string, output: bool, b: Body): Option<MsgItem> {
    if !IsProtobuf(b.headers) then Some(MsgItem(b.headers, AsText(b.data)))
    else
      var types := lib.finder(methodName);
      if types.None? then None
      else
        var text := lib.json(if output then types.value.outType else types.value.inType, b.data);
        if text.None? then None else Some(MsgItem(b.headers, text.value))
  }

  function ToMsg(lib: Library, methodName: string, request: Body, response: Option<Body>): Option<Call> {
    if !MethodOk(methodName) then None
    else
      var first := Half(lib, methodName, false, request);
      if first.None? then None
      else if response.None? then Some(Call(methodName, first.value, None))
      else
        var second := Half(lib, methodName, true, response.value);
        if second.None? then None else Some(Call(methodName, first.value, second))
  }

  // ---------------------------------------------------------------------------------------------
  // What a message says, without the way it is built

  predicate AllSpace(s: string) {
    forall i :: 0 <= i < |s| ==> IsSpace(s[i])
  }

  predicate Cut(s: string, a: string, t: string, b: string) {
    s == a + t + b && AllSpace(a) && AllSpace(b)
  }

  predicate NoOuterSpace(t: string) {
    t != "" ==> !IsSpace(t[0]) && !IsSpace(t[|t| - 1])
  }

  /** t is s without the white space around it. */
  ghost predicate Trimmed(s: string, t: string) {
    NoOuterSpace(t) && exists a, b :: Cut(s, a, t, b)
  }

  lemma CutEnds(s: string, a: string, t: string, b: string)
    requires Cut(s, a, t, b) && s != ""
    ensures a != "" ==> IsSpace(s[0])
    ensures b != "" ==> IsSpace(s[|s| - 1])
    ensures a == "" && t != "" ==> t[0] == s[0]
    ensures b == "" && t != "" ==> t[|t| - 1] == s[|s| - 1]
  {
  }

  lemma TrimTail(s: string, t: string)
    requires s != "" && IsSpace(s[0])
    ensures Trimmed(s, t) <==> Trimmed(s[1..], t)
  {
    if Trimmed(s, t) {
      var a, b :| Cut(s, a, t, b);
      if a != "" {
        assert Cut(s[1..], a[1..], t, b);
      } else {
        CutEnds(s, a, t, b);
        assert Cut(s[1..], "", t, b[1..]);
      }
    }
    if Trimmed(s[1..], t) {
      var a, b :| Cut(s[1..], a, t, b);
      assert Cut(s, [s[0]] + a, t, b);
    }
  }

  lemma TrimFront(s: string, t: string)
    requires s != "" && IsSpace(s[|s| - 1])
    ensures Trimmed(s, t) <==> Trimmed(s[..|s| - 1], t)
  {
    var front, last := s[..|s| - 1], s[|s| - 1];
    if Trimmed(s, t) {
      var a, b :| Cut(s, a, t, b);
      if b != "" {
        assert Cut(front, a, t, b[..|b| - 1]);
      } else {
        CutEnds(s, a, t, b);
        assert Cut(front, a[..|a| - 1], t, "");
      }
    }
    if Trimmed(front, t) {
      var a, b :| Cut(front, a, t, b);
      assert Cut(s, a, t, b + [last]);
    }
  }

  /** Exactly one string is s trimmed. */
  lemma {:induction false} TrimExact(s: string, t: string)
    ensures Trimmed(s, t) <==> t == TrimSpace(s)
    decreases |s|
  {
    if s == "" {
      assert Cut(s, "", "", "");
    } else if IsSpace(s[0]) {
      TrimTail(s, t);
      TrimExact(s[1..], t);
    } else if IsSpace(s[|s| - 1]) {
      TrimFront(s, t);
      TrimExact(s[..|s| - 1], t);
    } else {
      assert Cut(s, "", s, "");
      if Trimmed(s, t) {
        var a, b :| Cut(s, a, t, b);
        CutEnds(s, a, t, b);
      }
    }
  }

  /** sub stands somewhere in s. */
  ghost predicate Within(sub: string, s: string) {
    exists a, b :: s == a + sub + b
  }

  lemma ContainsExact(s: string, sub: string)
    ensures Contains(s, sub) <==> Within(sub, s)
  {
    if Contains(s, sub) {
      var i :| 0 <= i <= |s| && HoldsAt(s, sub, i);
      assert s == s[..i] + sub + s[i + |sub|..];
    }
    if Within(sub, s) {
      var a, b :| s == a + sub + b;
      assert HoldsAt(s, sub, |a|);
    }
  }

  /** The body is raw text for a content type other than application/grpc, and otherwise the JSON of
      the bytes as a message of the given type, if the type is known. */
  predicate Renders(lib: Library, kind: Option<string>, contentType: Option<string>, data: seq<Byte>, body: string) {
    if contentType.Some? && contentType.value != "application/grpc"
    then |body| == |data| && forall i :: 0 <= i < |data| ==> body[i] as int == data[i]
    else kind.Some? && lib.json(kind.value, data) == Some(body)
  }

  function Lookup(headers: map<string, string>, name: string): Option<string> {
    if name in headers then Some(headers[name]) else None
  }

  function InType(lib: Library, methodName: string): Option<string> {
    match lib.finder(methodName)
    case None => None
    case Some(types) => Some(types.inType)
  }

  function OutType(lib: Library, methodName: string): Option<string> {
    match lib.finder(methodName)
    case None => None
    case Some(types) => Some(types.outType)
  }

  lemma HalfExact(lib: Library, methodName: string, output: bool, b: Body, item: MsgItem)
    ensures Half(lib, methodName, output, b) == Some(item) <==>
            && item.headers == b.headers
            && Renders(lib, if output then OutType(lib, methodName) else InType(lib, methodName),
                       Lookup(b.headers, "content-type"), b.data, item.body)
  {
    if !IsProtobuf(b.headers) {
      TextExact(b.data, item.body);
    }
  }

  lemma TextExact(data: seq<Byte>, text: string)
    ensures text == AsText(data) <==> |text| == |data| && forall i :: 0 <= i < |data| ==> text[i] as int == data[i]
  {
  }

  /** Which message is built: its method is the trimmed path, neither empty nor a reflection call. */
  lemma ToMsgExact(lib: Library, path: string, request: Body, response: Option<Body>, call: Call)
    ensures ToMsg(lib, TrimSpace(path), request, response) == Some(call) <==>
            && Trimmed(path, call.methodName) && call.methodName != "" && !Within("grpc.reflection", call.methodName)
            && call.request.headers == request.headers && call.response.Some? == response.Some?
            && Renders(lib, InType(lib, call.methodName), Lookup(request.headers, "content-type"),
                       request.data, call.request.body)
            && (response.Some? ==>
                  && call.response.value.headers == response.value.headers
                  && Renders(lib, OutType(lib, call.methodName), Lookup(response.value.headers, "content-type"),
                             response.value.data, call.response.value.body))
  {
    var m := TrimSpace(path);
    TrimExact(path, call.methodName);
    ContainsExact(m, "grpc.reflection");
    HalfExact(lib, m, false, request, call.request);
    if response.Some? && call.response.Some? {
      HalfExact(lib, m, true, response.value, call.response.value);
    }
  }

  /** No bytes at all are a message of every type, the one with all fields at their defaults. */
  ghost predicate EmptyDecodes(lib: Library) {
    forall t :: lib.json(t, []).Some?
  }
}
