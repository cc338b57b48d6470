/** 32-bit TCP sequence arithmetic, exactly as the buffer and the processor compute it. */
module SequenceNumbers {
  import opened Bytes

  const WINDOW: U32 := 65536

  /** Modulo-2^32 addition, section 3.4 of RFC 9293. */
  function Plus(s: U32, n: nat): U32 {
    (s + n) % TWO32
  }

  /** How far ahead of a the number b lies, modulo 2^32. */
  function Dist(a: U32, b: U32): U32 {
    if b >= a then b - a else b - a + TWO32
  }

  /** The code's advance: uint32 addition, then reduced modulo 2^32 - 1. */
  function Advance(s: U32, n: nat): U32 {
    ((s + n % TWO32) % TWO32) % MAX_U32
  }

  predicate ValidPackage(expectedSeq: U32, maxWindowSize: U32, pkgSeq: U32) {
    var rightBorder := ((expectedSeq + maxWindowSize) % TWO32) % MAX_U32;
    if rightBorder < expectedSeq
    then pkgSeq <= rightBorder || pkgSeq >= expectedSeq
    else pkgSeq >= expectedSeq && pkgSeq <= rightBorder
  }

  lemma DistIsModular(a: U32, b: U32)
    ensures Dist(a, b) == (b - a) % TWO32
    ensures Plus(a, Dist(a, b)) == b
  {
  }

  lemma PlusCases(s: U32, n: nat)
    requires n < TWO32
    ensures Plus(s, n) == if s + n < TWO32 then s + n else s + n - TWO32
  {
  }

  lemma DistPlus(s: U32, m: nat, n: nat)
    requires m < TWO32 && n < TWO32
    ensures Dist(Plus(s, m), Plus(s, n)) == if n >= m then n - m else n - m + TWO32
  {
    PlusCases(s, m);
    PlusCases(s, n);
  }

  lemma DistOfPlus(s: U32, n: nat)
    requires n < TWO32
    ensures Dist(s, Plus(s, n)) == n
  {
    PlusCases(s, n);
  }

  lemma PlusPlus(s: U32, m: nat, n: nat)
    ensures Plus(Plus(s, m), n) == Plus(s, m + n)
  {
  }

  /** The advance step is modulo-2^32 addition except at one value, where it yields 0. */
  lemma AdvanceExact(s: U32, n: nat)
    ensures Advance(s, n) == Plus(s, n) <==> Plus(s, n) != MAX_U32
    ensures Plus(s, n) == MAX_U32 ==> Advance(s, n) == 0
  {
    assert (s + n % TWO32) % TWO32 == (s + n) % TWO32;
  }

  /** The window test is "at most w ahead", plus one extra number when the window ends at 2^32-1;
      only the whole-range window at 0 is cut down to a single number. */
  lemma WindowExact(e: U32, w: U32, s: U32)
    ensures ValidPackage(e, w, s) <==>
      if e == 0 && w == MAX_U32 then s == 0
      else Dist(e, s) <= w || (e + w == MAX_U32 && s == 0)
  {
    if e + w < MAX_U32 {
      assert ((e + w) % TWO32) % MAX_U32 == e + w;
    } else if e + w == MAX_U32 {
      assert ((e + w) % TWO32) % MAX_U32 == 0;
    } else {
      assert (e + w) % TWO32 == e + w - TWO32;
    }
  }

  /** At that one expected value the extra number lies just outside the window. */
  lemma WindowExtra(e: U32, w: U32)
    requires w < MAX_U32 && e + w == MAX_U32
    ensures ValidPackage(e, w, 0) && Dist(e, 0) == w + 1
    ensures forall s: U32 :: ValidPackage(e, w, s) && s != 0 ==> Dist(e, s) <= w
  {
    WindowExact(e, w, 0);
    forall s: U32 | ValidPackage(e, w, s) && s != 0
      ensures Dist(e, s) <= w
    {
      WindowExact(e, w, s);
    }
  }
}
