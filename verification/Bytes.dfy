/** Machine integers, byte strings and the option type shared by every module. */
module Bytes {

  const TWO32: int := 0x1_0000_0000
  const MAX_U32: int := 0xFFFF_FFFF

  type Byte = x: int | 0 <= x < 256
  type U32 = x: int | 0 <= x < 0x1_0000_0000
  type Int64 = x: int | -0x8000_0000_0000_0000 <= x < 0x8000_0000_0000_0000

  datatype Option<+T> = None | Some(value: T)

  lemma Assoc<T>(a: seq<T>, b: seq<T>, c: seq<T>)
    ensures a + b + c == a + (b + c)
  {
  }

  lemma AppendNothing<T>(a: seq<T>)
    ensures a + [] == a
  {
  }

  /** The bytes of a list of payloads, one after the other. */
  function Flat<T>(chunks: seq<seq<T>>): seq<T> {
    if chunks == [] then [] else chunks[0] + Flat(chunks[1..])
  }

  lemma FlatAppend<T>(a: seq<seq<T>>, b: seq<seq<T>>)
    ensures Flat(a + b) == Flat(a) + Flat(b)
  {
    if a == [] {
      assert a + b == b;
    } else {
      assert (a + b)[1..] == a[1..] + b;
      FlatAppend(a[1..], b);
    }
  }

  lemma FlatCons<T>(x: seq<T>, a: seq<seq<T>>)
    ensures Flat([x] + a) == x + Flat(a)
  {
    assert ([x] + a)[1..] == a;
  }

  ghost predicate NoneEmpty<T>(chunks: seq<seq<T>>) {
    forall i :: 0 <= i < |chunks| ==> chunks[i] != []
  }

  lemma SnocFacts<T>(a: seq<seq<T>>, b: seq<seq<T>>, x: seq<T>)
    requires NoneEmpty(b) && x != []
    ensures a + b + [x] == a + (b + [x])
    ensures NoneEmpty(b + [x])
    ensures Flat(b + [x]) == Flat(b) + x
  {
    FlatSnoc(b, x);
  }

  lemma FlatSnoc<T>(a: seq<seq<T>>, x: seq<T>)
    ensures Flat(a + [x]) == Flat(a) + x
  {
    FlatAppend(a, [x]);
    assert Flat([x]) == x + Flat<T>([]);
  }

  ghost function Pick<K, V>(m: map<K, V>): (k: K)
    requires m != map[]
    ensures k in m
  {
    assert m.Keys != {};
    var k :| k in m;
    k
  }

  lemma MapShrinks<K, V>(m: map<K, V>, k: K)
    requires k in m
    ensures |m - {k}| == |m| - 1
  {
    assert (m - {k}).Keys == m.Keys - {k};
  }

  /** Sum of the payload lengths held in a map, in no particular order. */
  ghost function TotalBytes(m: map<U32, seq<Byte>>): nat
    decreases |m|
  {
    if m == map[] then 0 else
      var k := Pick(m);
      MapShrinks(m, k);
      |m[k]| + TotalBytes(m - {k})
  }

  lemma {:induction false} TotalBytesRemove(m: map<U32, seq<Byte>>, k: U32)
    requires k in m
    ensures TotalBytes(m) == |m[k]| + TotalBytes(m - {k})
    decreases |m|
  {
    var c := Pick(m);
    if c != k {
      MapShrinks(m, c);
      MapShrinks(m, k);
      TotalBytesRemove(m - {c}, k);
      TotalBytesRemove(m - {k}, c);
      assert m - {c} - {k} == m - {k} - {c};
    }
  }

  lemma TotalBytesAdd(m: map<U32, seq<Byte>>, k: U32, p: seq<Byte>)
    requires k !in m
    ensures TotalBytes(m[k := p]) == TotalBytes(m) + |p|
  {
    TotalBytesRemove(m[k := p], k);
    assert m[k := p] - {k} == m;
  }
}
