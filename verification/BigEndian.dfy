/** Big-endian numbers of a fixed number of bytes. */
module BigEndians {
  import opened Bytes

  function Decode(b: seq<Byte>): nat {
    if b == [] then 0 else Decode(b[..|b| - 1]) * 256 + b[|b| - 1]
  }

  function Encode(x: nat, n: nat): (b: seq<Byte>)
    ensures |b| == n
  {
    if n == 0 then [] else Encode(x / 256, n - 1) + [x % 256]
  }

  function Range(n: nat): nat {
    if n == 0 then 1 else 256 * Range(n - 1)
  }

  lemma {:induction false} DecodeEncode(x: nat, n: nat)
    requires x < Range(n)
    ensures Decode(Encode(x, n)) == x
  {
    if n > 0 {
      DecodeEncode(x / 256, n - 1);
      assert Encode(x, n)[..n - 1] == Encode(x / 256, n - 1);
    }
  }

  lemma {:induction false} EncodeDecode(b: seq<Byte>)
    ensures Encode(Decode(b), |b|) == b && Decode(b) < Range(|b|)
  {
    if b != [] {
      EncodeDecode(b[..|b| - 1]);
      assert b == b[..|b| - 1] + [b[|b| - 1]];
    }
  }

  lemma Ranges()
    ensures Range(2) == 0x1_0000 && Range(3) == 0x100_0000 && Range(4) == TWO32
  {
    assert Range(1) == 256;
    assert Range(2) == 256 * Range(1);
    assert Range(3) == 256 * Range(2);
    assert Range(4) == 256 * Range(3);
  }

  /** Four bytes make an unsigned 32-bit number. */
  function DecodeU32(b: seq<Byte>): U32
    requires |b| == 4
  {
    EncodeDecode(b);
    Ranges();
    Decode(b)
  }
}
