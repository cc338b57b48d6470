/** Text as the record format uses it: splitting at a character, and decimal numbers. */
module Text {
  import opened Bytes

  /** The parts between the occurrences of c; one more part than occurrences. */
  function Split(s: string, c: char): (r: seq<string>)
    ensures |r| >= 1
  {
    if s == "" then [""]
    else
      var r := Split(s[1..], c);
      if s[0] == c then [""] + r else [[s[0]] + r[0]] + r[1..]
  }

  lemma {:induction false} SplitNone(s: string, c: char)
    requires c !in s
    ensures Split(s, c) == [s]
  {
    if s != "" {
      SplitNone(s[1..], c);
      assert s == [s[0]] + s[1..];
    }
  }

  lemma {:induction false} SplitFirst(a: string, c: char, b: string)
    requires c !in a
    ensures Split(a + [c] + b, c) == [a] + Split(b, c)
  {
    var s := a + [c] + b;
    if a == "" {
      assert s[1..] == b;
    } else {
      assert s[1..] == a[1..] + [c] + b && s[0] == a[0];
      SplitFirst(a[1..], c, b);
      assert a == [a[0]] + a[1..];
    }
  }

  function Join(parts: seq<string>, c: char): string {
    if parts == [] then ""
    else if |parts| == 1 then parts[0]
    else parts[0] + [c] + Join(parts[1..], c)
  }

  lemma {:induction false} SplitJoin(parts: seq<string>, c: char)
    requires parts != [] && forall i :: 0 <= i < |parts| ==> c !in parts[i]
    ensures Split(Join(parts, c), c) == parts
  {
    if |parts| == 1 {
      SplitNone(parts[0], c);
    } else {
      SplitJoin(parts[1..], c);
      SplitFirst(parts[0], c, Join(parts[1..], c));
    }
  }

  lemma {:induction false} SplitLast(a: string, c: char, b: string)
    requires c !in b
    ensures Split(a + [c] + b, c) == Split(a, c) + [b]
  {
    var s := a + [c] + b;
    if a == "" {
      SplitFirst("", c, b);
      SplitNone(b, c);
    } else {
      assert s[1..] == a[1..] + [c] + b && s[0] == a[0];
      SplitLast(a[1..], c, b);
    }
  }

  /** No part holds the separator, and every character of a part comes from the text. */
  lemma {:induction false} SplitParts(s: string, c: char, i: nat)
    requires i < |Split(s, c)|
    ensures c !in Split(s, c)[i]
    ensures forall x :: x in Split(s, c)[i] ==> x in s
  {
    if s != "" {
      var r := Split(s[1..], c);
      if s[0] == c {
        if i > 0 {
          SplitParts(s[1..], c, i - 1);
        }
      } else {
        SplitParts(s[1..], c, i);
      }
    }
  }

  // ---------------------------------------------------------------------------------------------
  // Decimal numbers

  function Digit(d: nat): char
    requires d < 10
  {
    ('0' as int + d) as char
  }

  function Digits(n: nat): string {
    if n < 10 then [Digit(n)] else Digits(n / 10) + [Digit(n % 10)]
  }

  /** fmt's %d. */
  function PrintInt(x: int): string {
    if x < 0 then "-" + Digits(-x) else Digits(x)
  }

  predicate IsDigit(c: char) {
    '0' <= c <= '9'
  }

  function ParseDigits(s: string): Option<nat> {
    if s == "" then Some(0)
    else
      var rest := ParseDigits(s[..|s| - 1]);
      var c := s[|s| - 1];
      if rest.Some? && IsDigit(c) then Some(rest.value * 10 + (c as int - '0' as int)) else None
  }

  /** strconv.Atoi on a 64-bit machine: optional sign, at least one digit, in range. */
  function Atoi(s: string): Option<Int64> {
    var body := if s != "" && (s[0] == '-' || s[0] == '+') then s[1..] else s;
    var n := ParseDigits(body);
    if body == "" || n.None? then None
    else
      var size: int := n.value;
      var x := if s[0] == '-' then -size else size;
      if -0x8000_0000_0000_0000 <= x < 0x8000_0000_0000_0000 then Some(x) else None
  }

  lemma ParseSnoc(s: string, d: nat)
    requires d < 10 && ParseDigits(s).Some?
    ensures ParseDigits(s + [Digit(d)]) == Some(ParseDigits(s).value * 10 + d)
  {
    assert (s + [Digit(d)])[..|s|] == s;
  }

  lemma {:induction false} ParsePrint(n: nat)
    ensures Digits(n) != "" && ParseDigits(Digits(n)) == Some(n)
    ensures forall c :: c in Digits(n) ==> IsDigit(c)
  {
    if n < 10 {
      assert ParseDigits("") == Some(0);
      assert Digits(n)[..0] == "";
    } else {
      ParsePrint(n / 10);
      ParseSnoc(Digits(n / 10), n % 10);
    }
  }

  lemma AtoiUnsigned(d: string, n: nat)
    requires d != "" && IsDigit(d[0]) && ParseDigits(d) == Some(n) && n < 0x8000_0000_0000_0000
    ensures Atoi(d) == Some(n)
  {
  }

  lemma AtoiNegative(d: string, n: nat)
    requires d != "" && ParseDigits(d) == Some(n) && n <= 0x8000_0000_0000_0000
    ensures Atoi("-" + d).Some? && Atoi("-" + d).value as int == 0 - n
  {
    assert ("-" + d)[1..] == d;
  }

  /** Printing and parsing back a number, negative ones included; no blank or newline is printed. */
  lemma AtoiPrint(x: Int64)
    ensures Atoi(PrintInt(x)) == Some(x)
    ensures ' ' !in PrintInt(x) && '\n' !in PrintInt(x)
  {
    var y: int := x;
    var n: nat := if y < 0 then 0 - y else y;
    ParsePrint(n);
    if y < 0 {
      AtoiNegative(Digits(n), n);
    } else {
      AtoiUnsigned(Digits(n), n);
    }
  }

  predicate AllDigits(d: string) {
    d != "" && forall i :: 0 <= i < |d| ==> IsDigit(d[i])
  }

  lemma {:induction false} ParseExact(d: string)
    ensures ParseDigits(d).Some? <==> d == "" || AllDigits(d)
  {
    if d != "" {
      var front := d[..|d| - 1];
      ParseExact(front);
      assert d == front + [d[|d| - 1]];
    }
  }

  /** Whether t starts with a sign. */
  predicate Signed(t: string) {
    t != "" && t[0] in "+-"
  }

  /** What Atoi accepts: digits in range after at most one sign, a plus sign included. */
  lemma AtoiExact(sign: string, d: string, x: Int64)
    requires sign in ["", "+", "-"] && (sign == "" ==> !Signed(d))
    ensures Atoi(sign + d) == Some(x) <==>
            AllDigits(d) && ParseDigits(d) == Some(if sign == "-" then 0 - x as int else x as int)
  {
    var s := sign + d;
    ParseExact(d);
    if sign == "" {
      assert s == d;
    } else {
      assert s[1..] == d;
    }
  }

  /** A number without plus sign, leading zero or minus zero. */
  predicate Canonical(s: string) {
    || s == "0"
    || (AllDigits(s) && s[0] != '0')
    || (s != "" && s[0] == '-' && AllDigits(s[1..]) && s[1] != '0')
  }

  lemma {:induction false} DigitsCanonical(n: nat)
    ensures AllDigits(Digits(n)) && (n > 0 ==> Digits(n)[0] != '0')
  {
    if n >= 10 {
      DigitsCanonical(n / 10);
      assert Digits(n)[0] == Digits(n / 10)[0];
    }
  }

  /** Digits without a leading zero are those of their value. */
  lemma {:induction false} DigitsUnique(d: string)
    requires AllDigits(d) && (d[0] == '0' ==> |d| == 1)
    ensures ParseDigits(d).Some? && Digits(ParseDigits(d).value) == d
    ensures d[0] != '0' ==> ParseDigits(d).value > 0
  {
    var front, last := d[..|d| - 1], d[|d| - 1];
    assert d == front + [last];
    ParseExact(front);
    if front == "" {
      assert d == [last] && ParseDigits(front) == Some(0);
    } else {
      DigitsUnique(front);
      DigitsSnoc(ParseDigits(front).value, last as int - '0' as int);
    }
  }

  lemma DigitsSnoc(n: nat, d: nat)
    requires n > 0 && d < 10
    ensures Digits(n * 10 + d) == Digits(n) + [Digit(d)]
  {
  }

  /** The printed form of a number is the one canonical text that parses to it. */
  lemma PrintExact(s: string, x: Int64)
    ensures s == PrintInt(x) <==> Canonical(s) && Atoi(s) == Some(x)
  {
    AtoiPrint(x);
    PrintCanonical(x);
    if Canonical(s) && Atoi(s) == Some(x) {
      if s[0] == '-' {
        DigitsUnique(s[1..]);
      } else {
        DigitsUnique(s);
      }
    }
  }

  lemma PrintCanonical(x: int)
    ensures Canonical(PrintInt(x))
  {
    if x < 0 {
      DigitsCanonical(-x);
      assert PrintInt(x)[1..] == Digits(-x);
    } else {
      DigitsCanonical(x);
    }
  }
}
