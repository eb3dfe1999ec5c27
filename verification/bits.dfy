// Bit-level arithmetic shared by the TDF writers and readers.  Machine words
// are naturals; the C operators <<, >>, | and & are defined digit by digit, so
// every fact about them is a fact about single bits.
module Bits {

  type byte = x: nat | x < 256

  const BYTE_SIZE: nat := 8
  const BYTE_MASK: nat := 0xff

  function Pow2(n: nat): (r: nat)
    ensures r > 0
  {
    if n == 0 then 1 else 2 * Pow2(n - 1)
  }

  // The i-th binary digit of x, least significant first.
  predicate Bit(x: nat, i: nat) {
    if i == 0 then x % 2 == 1 else Bit(x / 2, i - 1)
  }

  function Shl(x: nat, k: nat): nat
    decreases k
  {
    if k == 0 then x else Shl(2 * x, k - 1)
  }

  function Shr(x: nat, k: nat): nat {
    if k == 0 then x else Shr(x / 2, k - 1)
  }

  function Or(x: nat, y: nat): nat
    decreases x + y
  {
    if x == 0 && y == 0 then 0
    else 2 * Or(x / 2, y / 2) + (if x % 2 == 1 || y % 2 == 1 then 1 else 0)
  }

  function And(x: nat, y: nat): nat {
    if x == 0 || y == 0 then 0
    else 2 * And(x / 2, y / 2) + (if x % 2 == 1 && y % 2 == 1 then 1 else 0)
  }

  // n one bits.
  function Mask(n: nat): nat { Pow2(n) - 1 }

  // The low n bits of d, most significant first: what enc_bits is meant to write.
  function BitsOf(n: nat, d: nat): (s: seq<bool>)
    ensures |s| == n
  {
    if n == 0 then [] else BitsOf(n - 1, d / 2) + [d % 2 == 1]
  }

  // The number a bit string stands for, most significant bit first.
  function ValueOf(s: seq<bool>): nat {
    if s == [] then 0
    else 2 * ValueOf(s[..|s| - 1]) + (if s[|s| - 1] then 1 else 0)
  }

  function Zeros(n: nat): (s: seq<bool>)
    ensures |s| == n
  {
    BitsOf(n, 0)
  }

  // The bits of a byte sequence, each byte most significant bit first.
  function BytesBits(data: seq<byte>): (s: seq<bool>)
    ensures |s| == 8 * |data|
  {
    if data == [] then [] else BytesBits(data[..|data| - 1]) + BitsOf(8, data[|data| - 1])
  }

  // Bits needed to reach the next byte boundary from bit position p.
  function PadTo8(p: nat): nat {
    (8 - p % 8) % 8
  }

  lemma ConcatAssoc<T>(a: seq<T>, b: seq<T>, c: seq<T>)
    ensures (a + b) + c == a + (b + c)
  {
  }

  lemma SplitAt<T>(s: seq<T>, k: nat)
    requires k <= |s|
    ensures s == s[..k] + s[k..]
  {
  }

  lemma SliceTake<T>(s: seq<T>, m: nat, w: nat, k: nat)
    requires k <= w && m + w <= |s|
    ensures s[..m + k] == s[..m] + s[m..m + w][..k]
  {
  }

  lemma TakeTake<T>(s: seq<T>, m: nat, k: nat)
    requires k <= m <= |s|
    ensures s[..m][..k] == s[..k]
  {
  }

  lemma TakeMore<T>(base: seq<T>, s: seq<T>, i: nat, j: nat)
    requires i <= j <= |s|
    ensures (base + s[..i]) + s[i..j] == base + s[..j]
  {
  }

  lemma PadIs(p: nat)
    ensures PadTo8(p) == if p % 8 == 0 then 0 else 8 - p % 8
    ensures (p + PadTo8(p)) % 8 == 0
  {
  }

  lemma PadAt(k: nat, b: nat)
    requires b < 8
    ensures PadTo8(8 * k + b) == if b == 0 then 0 else 8 - b
  {
    assert (8 * k + b) % 8 == b;
  }

  // ----- single-bit characterisations

  lemma {:induction false} BitZero(i: nat)
    ensures !Bit(0, i)
  {
    if i > 0 { BitZero(i - 1); }
  }

  lemma {:induction false} BitShl(x: nat, k: nat, i: nat)
    ensures Bit(Shl(x, k), i) == (i >= k && Bit(x, i - k))
    decreases k
  {
    if k > 0 {
      BitShl(2 * x, k - 1, i);
      if i >= k { assert (2 * x) / 2 == x; assert Bit(2 * x, i - k + 1) == Bit((2 * x) / 2, i - k); }
    }
  }

  lemma {:induction false} BitShr(x: nat, k: nat, i: nat)
    ensures Bit(Shr(x, k), i) == Bit(x, i + k)
    decreases k
  {
    if k > 0 { BitShr(x / 2, k - 1, i); }
  }

  lemma {:induction false} BitOr(x: nat, y: nat, i: nat)
    ensures Bit(Or(x, y), i) == (Bit(x, i) || Bit(y, i))
    decreases x + y
  {
    if x == 0 && y == 0 {
      BitZero(i);
    } else if i > 0 {
      BitOr(x / 2, y / 2, i - 1);
      assert Or(x, y) / 2 == Or(x / 2, y / 2);
    }
  }

  lemma {:induction false} BitAnd(x: nat, y: nat, i: nat)
    ensures Bit(And(x, y), i) == (Bit(x, i) && Bit(y, i))
    decreases x
  {
    if x == 0 || y == 0 {
      BitZero(i);
    } else if i > 0 {
      BitAnd(x / 2, y / 2, i - 1);
      assert And(x, y) / 2 == And(x / 2, y / 2);
    }
  }

  lemma {:induction false} BitMask(n: nat, i: nat)
    ensures Bit(Mask(n), i) == (i < n)
    decreases n
  {
    if n == 0 {
      BitZero(i);
    } else if i > 0 {
      BitMask(n - 1, i - 1);
      assert Mask(n) / 2 == Mask(n - 1);
    }
  }

  // Two numbers with the same binary digits are equal.
  lemma {:induction false} BitsDetermine(x: nat, y: nat)
    requires forall i: nat :: Bit(x, i) == Bit(y, i)
    ensures x == y
    decreases x + y
  {
    if x != 0 || y != 0 {
      forall i: nat ensures Bit(x / 2, i) == Bit(y / 2, i) {
        assert Bit(x, i + 1) == Bit(y, i + 1);
      }
      BitsDetermine(x / 2, y / 2);
      assert Bit(x, 0) == Bit(y, 0);
    }
  }

  // A number below 2^n has no digit at or above n, and conversely.
  lemma {:induction false} BitBelow(x: nat, n: nat, i: nat)
    requires x < Pow2(n) && i >= n
    ensures !Bit(x, i)
    decreases n
  {
    if n == 0 { BitZero(i); } else { BitBelow(x / 2, n - 1, i - 1); }
  }

  lemma {:induction false} BelowFromBits(x: nat, n: nat)
    requires forall i: nat :: i >= n ==> !Bit(x, i)
    ensures x < Pow2(n)
    decreases n
  {
    if n == 0 {
      forall i: nat ensures Bit(x, i) == Bit(0, i) { BitZero(i); }
      BitsDetermine(x, 0);
    } else {
      forall i: nat | i >= n - 1 ensures !Bit(x / 2, i) { assert !Bit(x, i + 1); }
      BelowFromBits(x / 2, n - 1);
    }
  }

  // ----- numbers and bit strings

  lemma {:induction false} BitsOfAt(n: nat, d: nat, i: nat)
    requires i < n
    ensures BitsOf(n, d)[i] == Bit(d, n - 1 - i)
    decreases n
  {
    if i < n - 1 { BitsOfAt(n - 1, d / 2, i); }
  }

  // s is the low |s| digits of d exactly when it agrees with d digit by digit.
  lemma BitsOfFrom(s: seq<bool>, d: nat)
    requires forall i: nat :: i < |s| ==> s[i] == Bit(d, |s| - 1 - i)
    ensures s == BitsOf(|s|, d)
  {
    forall i: nat | i < |s| ensures s[i] == BitsOf(|s|, d)[i] { BitsOfAt(|s|, d, i); }
  }

  // Splitting a fixed-width number into its high and low digits.
  lemma BitsOfSplit(n: nat, k: nat, d: nat)
    requires k <= n
    ensures BitsOf(n, d) == BitsOf(n - k, Shr(d, k)) + BitsOf(k, d)
  {
    forall i: nat | i < n
      ensures BitsOf(n, d)[i] == (BitsOf(n - k, Shr(d, k)) + BitsOf(k, d))[i]
    {
      BitsOfAt(n, d, i);
      if i < n - k {
        BitsOfAt(n - k, Shr(d, k), i);
        BitShr(d, k, n - k - 1 - i);
      } else {
        BitsOfAt(k, d, i - (n - k));
      }
    }
  }

  lemma {:induction false} BitValueOf(s: seq<bool>, i: nat)
    ensures Bit(ValueOf(s), i) == (i < |s| && s[|s| - 1 - i])
    decreases |s|
  {
    if s == [] {
      BitZero(i);
    } else if i > 0 {
      BitValueOf(s[..|s| - 1], i - 1);
      assert ValueOf(s) / 2 == ValueOf(s[..|s| - 1]);
    }
  }

  lemma ValueBound(s: seq<bool>)
    ensures ValueOf(s) < Pow2(|s|)
  {
    forall i: nat | i >= |s| ensures !Bit(ValueOf(s), i) { BitValueOf(s, i); }
    BelowFromBits(ValueOf(s), |s|);
  }

  // Writing then reading a fixed-width number, and the converse.
  lemma {:induction false} ValueOfBitsOf(n: nat, d: nat)
    requires d < Pow2(n)
    ensures ValueOf(BitsOf(n, d)) == d
    decreases n
  {
    if n > 0 {
      ValueOfBitsOf(n - 1, d / 2);
      assert BitsOf(n, d)[..n - 1] == BitsOf(n - 1, d / 2);
    }
  }

  // A number is the value of s exactly when its digits are those of s.
  lemma ValueOfFromBits(x: nat, s: seq<bool>)
    requires forall i: nat :: Bit(x, i) == (i < |s| && s[|s| - 1 - i])
    ensures x == ValueOf(s)
  {
    forall i: nat ensures Bit(x, i) == Bit(ValueOf(s), i) { BitValueOf(s, i); }
    BitsDetermine(x, ValueOf(s));
  }

  // ----- algebra of shifts

  lemma ShlZero(x: nat)
    ensures Shl(x, 0) == x
  {
  }

  lemma ShrShl(x: nat, k: nat)
    ensures Shr(Shl(x, k), k) == x
  {
    forall i: nat ensures Bit(Shr(Shl(x, k), k), i) == Bit(x, i) {
      BitShr(Shl(x, k), k, i);
      BitShl(x, k, i + k);
    }
    BitsDetermine(Shr(Shl(x, k), k), x);
  }

  lemma ShrBelow(d: nat, n: nat, k: nat)
    requires d < Pow2(n) && k <= n
    ensures Shr(d, k) < Pow2(n - k)
  {
    forall i: nat | i >= n - k ensures !Bit(Shr(d, k), i) {
      BitShr(d, k, i);
      BitBelow(d, n, i + k);
    }
    BelowFromBits(Shr(d, k), n - k);
  }

  // Or-ing x in above the low n digits of d: the high part and the low part.
  lemma OrAbove(d: nat, x: nat, n: nat)
    ensures Shr(Or(d, Shl(x, n)), n) == Or(x, Shr(d, n))
    ensures BitsOf(n, Or(d, Shl(x, n))) == BitsOf(n, d)
  {
    var b := Or(d, Shl(x, n));
    forall i: nat ensures Bit(Shr(b, n), i) == Bit(Or(x, Shr(d, n)), i) {
      BitShr(b, n, i);
      BitOr(d, Shl(x, n), i + n);
      BitShl(x, n, i + n);
      BitOr(x, Shr(d, n), i);
      BitShr(d, n, i);
    }
    BitsDetermine(Shr(b, n), Or(x, Shr(d, n)));
    forall i: nat | i < n ensures BitsOf(n, d)[i] == Bit(b, n - 1 - i) {
      BitsOfAt(n, d, i);
      BitOr(d, Shl(x, n), n - 1 - i);
      BitShl(x, n, n - 1 - i);
    }
    BitsOfFrom(BitsOf(n, d), b);
  }

  // The odd bits of a byte, shifted down, are the number they stand for.
  lemma OddBits(c: byte, k: nat)
    requires k <= 8
    ensures BitsOf(8, c)[..k] == BitsOf(k, Shr(c, 8 - k))
    ensures ValueOf(BitsOf(8, c)[..k]) == Shr(c, 8 - k)
  {
    var x := Shr(c, 8 - k);
    BitsOfSplit(8, 8 - k, c);
    assert Pow2(8) == 256;
    forall i: nat | i >= k ensures !Bit(x, i) {
      BitShr(c, 8 - k, i);
      BitBelow(c, 8, i + 8 - k);
    }
    BelowFromBits(x, k);
    ValueOfBitsOf(k, x);
  }

  // ----- byte sequences

  lemma {:induction false} BytesBitsConcat(a: seq<byte>, b: seq<byte>)
    ensures BytesBits(a + b) == BytesBits(a) + BytesBits(b)
    decreases |b|
  {
    if b == [] {
      assert a + b == a;
    } else {
      assert (a + b)[..|a + b| - 1] == a + b[..|b| - 1];
      BytesBitsConcat(a, b[..|b| - 1]);
    }
  }

  lemma BytesBitsOne(c: byte)
    ensures BytesBits([c]) == BitsOf(8, c)
  {
    assert BytesBits([]) + BitsOf(8, c) == BitsOf(8, c);
  }

  lemma BytesBitsSnoc(a: seq<byte>, c: byte)
    ensures BytesBits(a + [c]) == BytesBits(a) + BitsOf(8, c)
  {
    assert (a + [c])[..|a|] == a;
  }

  lemma BytesBitsTake(a: seq<byte>, k: nat)
    requires k <= |a|
    ensures BytesBits(a[..k]) == BytesBits(a)[..8 * k]
    ensures BytesBits(a[k..]) == BytesBits(a)[8 * k..]
  {
    assert a == a[..k] + a[k..];
    BytesBitsConcat(a[..k], a[k..]);
    var x, y := BytesBits(a[..k]), BytesBits(a[k..]);
    assert BytesBits(a) == x + y;
    assert (x + y)[..8 * k] == x && (x + y)[8 * k..] == y;
  }

  lemma BytesBitsAt(a: seq<byte>, k: nat)
    requires k < |a|
    ensures BytesBits(a)[8 * k..8 * k + 8] == BitsOf(8, a[k])
  {
    hide BytesBits, BitsOf;
    BytesBitsTake(a, k + 1);
    BytesBitsSnoc(a[..k], a[k]);
    assert a[..k + 1] == a[..k] + [a[k]];
    BytesBitsTake(a, k);
    TailSlice(BytesBits(a), 8 * k, BitsOf(8, a[k]));
  }

  lemma TailSlice<T>(s: seq<T>, m: nat, w: seq<T>)
    requires m + |w| <= |s| && s[..m + |w|] == s[..m] + w
    ensures s[m..m + |w|] == w
  {
    assert s[m..m + |w|] == s[..m + |w|][m..];
  }

  lemma NoBytes(c: seq<bool>)
    ensures c + BytesBits([]) == c
  {
  }

  lemma BytesBitsNext(c: seq<bool>, s: seq<byte>, i: nat)
    requires i < |s|
    ensures (c + BytesBits(s[..i])) + BitsOf(8, s[i]) == c + BytesBits(s[..i + 1])
  {
    assert s[..i + 1] == s[..i] + [s[i]];
    BytesBitsSnoc(s[..i], s[i]);
    ConcatAssoc(c, BytesBits(s[..i]), BitsOf(8, s[i]));
  }

  lemma ByteBound(c: byte)
    ensures c < Pow2(8)
  {
    assert Pow2(8) == 256;
  }

  // The byte that masks and shifts cut out of a word is eight of its bits.
  lemma ByteOfWord(b: nat, n: nat, total: nat)
    requires n + 8 <= total
    ensures And(Shr(b, n), BYTE_MASK) < 256
    ensures BitsOf(8, And(Shr(b, n), BYTE_MASK)) == BitsOf(total, b)[total - n - 8..total - n]
  {
    var c := And(Shr(b, n), BYTE_MASK);
    assert Pow2(8) == 256 && Mask(8) == BYTE_MASK;
    forall i: nat ensures Bit(c, i) == (i < 8 && Bit(b, i + n)) {
      BitAnd(Shr(b, n), BYTE_MASK, i);
      BitMask(8, i);
      BitShr(b, n, i);
    }
    BelowFromBits(c, 8);
    var s := BitsOf(total, b)[total - n - 8..total - n];
    forall i: nat | i < 8 ensures s[i] == Bit(c, 7 - i) { BitsOfAt(total, b, total - n - 8 + i); }
    BitsOfFrom(s, c);
  }
}
