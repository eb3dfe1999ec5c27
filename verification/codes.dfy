// The two variable-length integer codes of the TDF bit format.
module Codes {
  import opened Bits
  import opened Views

  // Octal digits, four bits each, none of them marked.
  function OctalBits(n: nat): seq<bool> {
    (if n >= 8 then OctalBits(n / 8) else []) + BitsOf(4, n % 8)
  }

  // A TDF integer: octal digits, the last one marked by its top bit.
  function IntBits(n: nat): seq<bool> {
    (if n >= 8 then OctalBits(n / 8) else []) + BitsOf(4, n % 8 + 8)
  }

  // The extended encoding of d >= 1 as packets of k bits: a zero packet stands
  // for 2^k - 1, the last packet for the rest.
  function ExtnBits(k: nat, d: nat): seq<bool>
    requires k >= 1
    decreases d
  {
    var e := Pow2(k) - 1;
    if d <= e then BitsOf(k, d) else Zeros(k) + ExtnBits(k, d - e)
  }

  lemma ExtnUnfold(k: nat, d: nat)
    requires k >= 1
    ensures var e := Pow2(k) - 1;
            if d <= e then ExtnBits(k, d) == BitsOf(k, d) && d < Pow2(k)
            else ExtnBits(k, d) == Zeros(k) + ExtnBits(k, d - e)
  {
  }

  lemma PowTwice(k: nat)
    requires k >= 1
    ensures Pow2(k) >= 2
  {
  }

  lemma ZeroBelow(n: nat)
    ensures 0 < Pow2(n) && BitsOf(n, 0) == Zeros(n)
  {
  }

  lemma DigitBelow(m: nat)
    requires m < 16
    ensures m < Pow2(4)
  {
    assert Pow2(4) == 16;
  }

  // ----- reading

  // Read marked octal digits from position p, on top of the digits in acc: the
  // number and the position after it.  A digit without its mark starts with a
  // zero bit, and beyond the file there is none.
  function IntAt(data: seq<byte>, p: nat, acc: nat): (nat, nat)
    decreases Left(data, p)
  {
    var d := NumAt(data, p, 4);
    if d >= 8 then (8 * acc + d % 8, p + 4)
    else
      UnmarkedInside(data, p);
      IntAt(data, p + 4, 8 * acc + d)
  }

  // Read k-bit packets from position p.
  function ExtnAt(data: seq<byte>, p: nat, k: nat, acc: nat): (nat, nat)
    requires k >= 1
    decreases Left(data, p)
  {
    var d := NumAt(data, p, k);
    if d != 0 then (acc + d, p + k)
    else
      ZeroInside(data, p, k);
      ExtnAt(data, p + k, k, acc + Pow2(k) - 1)
  }

  lemma IntUnfold(data: seq<byte>, p: nat, acc: nat)
    ensures var d := NumAt(data, p, 4);
            IntAt(data, p, acc) == if d >= 8 then (8 * acc + d % 8, p + 4) else IntAt(data, p + 4, 8 * acc + d)
    ensures NumAt(data, p, 4) < 8 ==> Left(data, p + 4) < Left(data, p)
    ensures NumAt(data, p, 4) < 16
  {
    DigitRead(data, p);
    if NumAt(data, p, 4) < 8 { UnmarkedInside(data, p); }
  }

  lemma ExtnUnfoldAt(data: seq<byte>, p: nat, k: nat, acc: nat)
    requires k >= 1
    ensures var d := NumAt(data, p, k);
            ExtnAt(data, p, k, acc) == if d != 0 then (acc + d, p + k) else ExtnAt(data, p + k, k, acc + Pow2(k) - 1)
    ensures NumAt(data, p, k) == 0 ==> Left(data, p + k) < Left(data, p)
  {
    if NumAt(data, p, k) == 0 { ZeroInside(data, p, k); }
  }

  // Four bits make a number below 16; its mark is the first bit.
  lemma DigitRead(data: seq<byte>, p: nat)
    ensures NumAt(data, p, 4) < 16
    ensures NumAt(data, p, 4) >= 8 <==> BitAt(data, p)
  {
    hide Ahead, BitAt;
    var s := Ahead(data, p, 4);
    AheadAt(data, p, 4, 0);
    ValueBound(s);
    assert Pow2(4) == 16;
    BitValueOf(s, 3);
    TopBit(ValueOf(s));
  }

  lemma TopBit(x: nat)
    requires x < 16
    ensures Bit(x, 3) <==> x >= 8
  {
    assert Bit(x, 3) == Bit(x / 2, 2) == Bit(x / 2 / 2, 1) == Bit(x / 2 / 2 / 2, 0);
  }

  lemma UnmarkedInside(data: seq<byte>, p: nat)
    requires NumAt(data, p, 4) < 8
    ensures Left(data, p + 4) < Left(data, p)
  {
    hide NumAt, BitAt;
    DigitRead(data, p);
    if p >= 8 * |data| { OnesBeyond(data, p); }
  }

  lemma ZeroInside(data: seq<byte>, p: nat, k: nat)
    requires k >= 1 && NumAt(data, p, k) == 0
    ensures Left(data, p + k) < Left(data, p)
  {
    hide Ahead, BitAt;
    var s := Ahead(data, p, k);
    AheadAt(data, p, k, 0);
    BitValueOf(s, k - 1);
    BitZero(k - 1);
    if p >= 8 * |data| { OnesBeyond(data, p); }
  }

  // Reading a number ends on every file: at the latest with the first digit, or
  // the first packet, that starts behind the end of the file.
  lemma {:induction false} IntEnds(data: seq<byte>, p: nat, acc: nat)
    ensures var end := IntAt(data, p, acc).1;
            && p + 4 <= end && (end - p) % 4 == 0
            && (end <= p + 4 || end < 8 * |data| + 8)
    decreases Left(data, p)
  {
    hide NumAt;
    if NumAt(data, p, 4) < 8 {
      UnmarkedInside(data, p);
      IntEnds(data, p + 4, 8 * acc + NumAt(data, p, 4));
    }
  }

  lemma {:induction false} ExtnEnds(data: seq<byte>, p: nat, k: nat, acc: nat)
    requires k >= 1
    ensures var end := ExtnAt(data, p, k, acc).1;
            p + k <= end && (end <= p + k || end < 8 * |data| + 2 * k)
    decreases Left(data, p)
  {
    hide NumAt;
    if NumAt(data, p, k) == 0 {
      ZeroInside(data, p, k);
      ExtnEnds(data, p + k, k, acc + Pow2(k) - 1);
    }
  }

  // ----- reading back what was written

  // The bits s stand at position p.
  predicate Holds(data: seq<byte>, p: nat, s: seq<bool>) {
    Ahead(data, p, |s|) == s
  }

  lemma HoldsConcat(data: seq<byte>, p: nat, s: seq<bool>, t: seq<bool>)
    ensures Holds(data, p, s + t) <==> Holds(data, p, s) && Holds(data, p + |s|, t)
  {
    hide Ahead;
    AheadSplit(data, p, |s|, |t|);
    var x, y := Ahead(data, p, |s|), Ahead(data, p + |s|, |t|);
    assert x + y == s + t ==> x == (s + t)[..|s|] == s && y == (s + t)[|s|..] == t;
  }

  lemma HoldsNum(data: seq<byte>, p: nat, n: nat, d: nat)
    requires d < Pow2(n) && Holds(data, p, BitsOf(n, d))
    ensures NumAt(data, p, n) == d
  {
    ValueOfBitsOf(n, d);
  }

  lemma {:induction false} OctalInverts(data: seq<byte>, p: nat, n: nat)
    requires Holds(data, p, OctalBits(n))
    ensures IntAt(data, p, 0) == IntAt(data, p + |OctalBits(n)|, n)
    decreases n
  {
    hide Holds, IntAt, BitsOf, NumAt;
    var high := if n >= 8 then OctalBits(n / 8) else [];
    HoldsConcat(data, p, high, BitsOf(4, n % 8));
    if n >= 8 { OctalInverts(data, p, n / 8); }
    DigitBelow(n % 8);
    HoldsNum(data, p + |high|, 4, n % 8);
    IntUnfold(data, p + |high|, n / 8);
  }

  // Reading a TDF integer recovers it and stops at its end.
  lemma IntInverts(data: seq<byte>, p: nat, n: nat)
    requires Holds(data, p, IntBits(n))
    ensures IntAt(data, p, 0) == (n, p + |IntBits(n)|)
  {
    hide Holds, IntAt, BitsOf, OctalBits;
    var high := if n >= 8 then OctalBits(n / 8) else [];
    HoldsConcat(data, p, high, BitsOf(4, n % 8 + 8));
    if n >= 8 { OctalInverts(data, p, n / 8); }
    DigitBelow(n % 8 + 8);
    HoldsNum(data, p + |high|, 4, n % 8 + 8);
    IntUnfold(data, p + |high|, n / 8);
  }

  // Reading an extended number recovers it and stops at its end.
  lemma {:induction false} ExtnInverts(data: seq<byte>, p: nat, k: nat, d: nat, acc: nat)
    requires k >= 1 && d >= 1 && Holds(data, p, ExtnBits(k, d))
    ensures ExtnAt(data, p, k, acc) == (acc + d, p + |ExtnBits(k, d)|)
    decreases d
  {
    hide Holds, ExtnAt, BitsOf, ExtnBits, Zeros, Pow2;
    ExtnUnfold(k, d);
    ExtnUnfoldAt(data, p, k, acc);
    PowTwice(k);
    var e := Pow2(k) - 1;
    if d <= e {
      HoldsNum(data, p, k, d);
    } else {
      ZeroBelow(k);
      HoldsConcat(data, p, Zeros(k), ExtnBits(k, d - e));
      HoldsNum(data, p, k, 0);
      ExtnInverts(data, p + k, k, d - e, acc + e);
    }
  }

  // ----- the codes as prefix codes

  // The value of a whole number of octal digits, marks ignored.
  function OctalValue(s: seq<bool>): nat
    decreases |s|
  {
    if |s| < 4 then 0 else 8 * OctalValue(s[..|s| - 4]) + ValueOf(s[|s| - 4..]) % 8
  }

  lemma OctalStep(s: seq<bool>, m: nat)
    requires m < 16
    ensures OctalValue(s + BitsOf(4, m)) == 8 * OctalValue(s) + m % 8
  {
    hide BitsOf;
    var t := BitsOf(4, m);
    DigitBelow(m);
    ValueOfBitsOf(4, m);
    assert (s + t)[..|s + t| - 4] == s && (s + t)[|s + t| - 4..] == t;
  }

  // The number of octal digits of n.
  function Digits(n: nat): nat {
    if n < 8 then 1 else 1 + Digits(n / 8)
  }

  lemma {:induction false} OctalValueOf(n: nat)
    ensures OctalValue(OctalBits(n)) == n && OctalValue(IntBits(n)) == n
    ensures |IntBits(n)| == |OctalBits(n)| == 4 * Digits(n)
    decreases n
  {
    hide BitsOf, OctalValue;
    var high := if n >= 8 then OctalBits(n / 8) else [];
    if n >= 8 { OctalValueOf(n / 8); } else { NoOctal(); }
    OctalStep(high, n % 8);
    OctalStep(high, n % 8 + 8);
  }

  lemma NoOctal()
    ensures OctalValue([]) == 0
  {
  }

  lemma NibbleTop(m: nat)
    requires m < 16
    ensures BitsOf(4, m)[0] <==> m >= 8
  {
    BitsOfAt(4, m, 0);
    TopBit(m);
  }

  // Only the last digit of an integer carries its mark.
  lemma {:induction false} OctalUnmarked(n: nat, j: nat)
    requires j < Digits(n)
    ensures |OctalBits(n)| == 4 * Digits(n) && !OctalBits(n)[4 * j]
    decreases n
  {
    hide BitsOf, OctalValue;
    OctalValueOf(n);
    NibbleTop(n % 8);
    if n >= 8 {
      OctalValueOf(n / 8);
      if j < Digits(n / 8) { OctalUnmarked(n / 8, j); }
    }
  }

  lemma IntMarked(n: nat, j: nat)
    requires j < Digits(n)
    ensures |IntBits(n)| == 4 * Digits(n)
    ensures IntBits(n)[4 * j] <==> j == Digits(n) - 1
  {
    hide BitsOf, OctalValue, OctalBits;
    OctalValueOf(n);
    NibbleTop(n % 8 + 8);
    if n >= 8 {
      OctalValueOf(n / 8);
      if j < Digits(n / 8) { OctalUnmarked(n / 8, j); }
    }
  }

  // No integer's code is a prefix of another's.
  lemma IntPrefixFree(n: nat, m: nat)
    requires IntBits(n) <= IntBits(m)
    ensures n == m
  {
    hide IntBits, OctalBits, OctalValue;
    OctalValueOf(n);
    OctalValueOf(m);
    var j: nat := Digits(n) - 1;
    IntMarked(n, j);
    IntMarked(m, j);
    assert IntBits(n)[4 * j] == IntBits(m)[4 * j];
    assert IntBits(n) == IntBits(m)[..|IntBits(n)|] == IntBits(m);
  }

  // No extended number's code is a prefix of another's.
  lemma {:induction false} ExtnPrefixFree(k: nat, d: nat, d': nat)
    requires k >= 1 && d >= 1 && d' >= 1 && ExtnBits(k, d) <= ExtnBits(k, d')
    ensures d == d'
    decreases d + d'
  {
    hide ExtnBits, BitsOf, Zeros;
    var e := Pow2(k) - 1;
    PowTwice(k);
    ExtnUnfold(k, d);
    ExtnUnfold(k, d');
    ZeroBelow(k);
    var a, b := ExtnBits(k, d), ExtnBits(k, d');
    assert a[..k] == b[..k];
    ExtnHead(k, d);
    ExtnHead(k, d');
    if d > e {
      assert a[k..] <= b[k..];
      ExtnPrefixFree(k, d - e, d' - e);
    }
  }

  // The first packet: zero for large numbers, otherwise the number.
  lemma ExtnHead(k: nat, d: nat)
    requires k >= 1 && d >= 1
    ensures |ExtnBits(k, d)| >= k
    ensures ValueOf(ExtnBits(k, d)[..k]) == if d <= Pow2(k) - 1 then d else 0
    ensures d > Pow2(k) - 1 ==> ExtnBits(k, d)[k..] == ExtnBits(k, d - (Pow2(k) - 1))
  {
    hide ExtnBits, BitsOf, Zeros;
    ExtnUnfold(k, d);
    ZeroBelow(k);
    if d <= Pow2(k) - 1 {
      ValueOfBitsOf(k, d);
      assert BitsOf(k, d)[..k] == BitsOf(k, d);
    } else {
      ValueOfBitsOf(k, 0);
    }
  }

  // The octal code uses as few digits as the number allows.
  lemma {:induction false} IntMinimal(n: nat)
    ensures |IntBits(n)| == 4 * Digits(n) && Digits(n) >= 1
    ensures n < Pow2(3 * Digits(n))
    ensures Digits(n) > 1 ==> n >= Pow2(3 * (Digits(n) - 1))
    decreases n
  {
    hide IntBits, OctalBits, OctalValue;
    OctalValueOf(n);
    if n < 8 {
      assert Pow2(3) == 8;
    } else {
      IntMinimal(n / 8);
      PowThree(Digits(n / 8));
      PowThree(Digits(n / 8) - 1);
    }
  }

  lemma PowThree(j: nat)
    ensures Pow2(3 * (j + 1)) == 8 * Pow2(3 * j)
  {
    assert Pow2(3 * j + 3) == 2 * Pow2(3 * j + 2) == 4 * Pow2(3 * j + 1);
  }
}
