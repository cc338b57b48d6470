/** An encoder with the laws that the simple codec relies on exists. */
module JsonExists {
  import opened Bytes
  import opened Protocol
  import opened CodecSimple

  /** Each character marked, newlines replaced, and an end mark. */
  function EncString(s: string): string {
    if s == "" then "."
    else if s[0] == '\n' then "-" + EncString(s[1..])
    else ['+', s[0]] + EncString(s[1..])
  }

  ghost function EncMap(m: map<string, string>): string
    decreases |m|
  {
    if m == map[] then "."
    else
      var k := Pick(m);
      MapShrinks(m, k);
      "+" + (EncString(k) + (EncString(m[k]) + EncMap(m - {k})))
  }

  ghost function EncItem(x: Option<MsgItem>): string {
    if x.None? then "0" else "1" + (EncMap(x.value.headers) + EncString(x.value.body))
  }

  lemma {:induction false} StringsPart(a: string, b: string, s: string, t: string)
    requires EncString(a) + s == EncString(b) + t
    ensures a == b && s == t
    decreases |a|
  {
    var x, y := EncString(a) + s, EncString(b) + t;
    assert x[0] == y[0];
    if a == "" {
      assert x[1..] == s && y[1..] == t;
    } else if a[0] == '\n' {
      assert x[1..] == EncString(a[1..]) + s && y[1..] == EncString(b[1..]) + t;
      StringsPart(a[1..], b[1..], s, t);
    } else {
      assert x[1] == a[0] && y[1] == b[0];
      assert x[2..] == EncString(a[1..]) + s && y[2..] == EncString(b[1..]) + t;
      StringsPart(a[1..], b[1..], s, t);
    }
    assert a != "" ==> a == [a[0]] + a[1..] && b == [b[0]] + b[1..];
  }

  lemma MapUnfolds(m: map<string, string>, s: string)
    requires m != map[]
    ensures var k := Pick(m);
            (EncMap(m) + s)[0] == '+' && (EncMap(m) + s)[1..] == EncString(k) + (EncString(m[k]) + (EncMap(m - {k}) + s))
  {
    var k := Pick(m);
    var a, b, c := EncString(k), EncString(m[k]), EncMap(m - {k});
    MapShrinks(m, k);
    Assoc(b, c, s);
    Assoc(a, b + c, s);
    assert EncMap(m) == "+" + (a + (b + c));
    assert (EncMap(m) + s)[1..] == a + (b + c) + s;
  }

  lemma {:induction false} MapsPart(m: map<string, string>, n: map<string, string>, s: string, t: string)
    requires EncMap(m) + s == EncMap(n) + t
    ensures m == n && s == t
    decreases |m|
  {
    var x, y := EncMap(m) + s, EncMap(n) + t;
    assert x[0] == y[0];
    if m == map[] {
      assert x[1..] == s && y[1..] == t;
    } else {
      var k, l := Pick(m), Pick(n);
      var p, q := m - {k}, n - {l};
      MapUnfolds(m, s);
      MapUnfolds(n, t);
      StringsPart(k, l, EncString(m[k]) + (EncMap(p) + s), EncString(n[l]) + (EncMap(q) + t));
      StringsPart(m[k], n[l], EncMap(p) + s, EncMap(q) + t);
      MapShrinks(m, k);
      MapsPart(p, q, s, t);
      assert m == p[k := m[k]] && n == q[l := n[l]];
    }
  }

  lemma ItemsPart(x: Option<MsgItem>, y: Option<MsgItem>)
    requires EncItem(x) == EncItem(y)
    ensures x == y
  {
    assert EncItem(x)[0] == EncItem(y)[0];
    if x.Some? {
      assert EncItem(x)[1..] == EncItem(y)[1..];
      MapsPart(x.value.headers, y.value.headers, EncString(x.value.body), EncString(y.value.body));
      assert EncString(x.value.body) + "" == EncString(y.value.body) + "";
      StringsPart(x.value.body, y.value.body, "", "");
    }
  }

  lemma {:induction false} StringOneLine(s: string)
    ensures '\n' !in EncString(s)
  {
    if s != "" {
      StringOneLine(s[1..]);
    }
  }

  lemma {:induction false} MapOneLine(m: map<string, string>)
    ensures '\n' !in EncMap(m)
    decreases |m|
  {
    if m != map[] {
      var k := Pick(m);
      StringOneLine(k);
      StringOneLine(m[k]);
      MapShrinks(m, k);
      MapOneLine(m - {k});
    }
  }

  ghost function DecItem(s: string): Option<Option<MsgItem>> {
    if exists x: Option<MsgItem> :: EncItem(x) == s then
      var x: Option<MsgItem> :| EncItem(x) == s;
      Some(x)
    else None
  }

  lemma LawfulExists() returns (json: Json)
    ensures Lawful(json)
  {
    json := Json(x => EncItem(x), s => DecItem(s));
    forall x: Option<MsgItem>
      ensures json.dec(json.enc(x)) == Some(x) && json.enc(x) != "" && '\n' !in json.enc(x)
    {
      var y := DecItem(EncItem(x)).value;
      ItemsPart(x, y);
      if x.Some? {
        MapOneLine(x.value.headers);
        StringOneLine(x.value.body);
      }
    }
  }
}
