// What a reader of a TDF file sees: the bits of its bytes, then endless ones.
module Views {
  import opened Bits

  function ByteAt(data: seq<byte>, k: nat): byte {
    if k < |data| then data[k] else 255
  }

  predicate BitAt(data: seq<byte>, i: nat) {
    Bit(ByteAt(data, i / 8), 7 - i % 8)
  }

  // The n bits from position p on.
  function Ahead(data: seq<byte>, p: nat, n: nat): (s: seq<bool>)
    ensures |s| == n
  {
    if n == 0 then [] else Ahead(data, p, n - 1) + [BitAt(data, p + n - 1)]
  }

  // The number those n bits stand for: what every fixed-width read must return.
  function NumAt(data: seq<byte>, p: nat, n: nat): nat {
    ValueOf(Ahead(data, p, n))
  }

  // Bits of the file not yet read.
  function Left(data: seq<byte>, p: nat): nat {
    if p < 8 * |data| then 8 * |data| - p else 0
  }

  lemma {:induction false} AheadAt(data: seq<byte>, p: nat, n: nat, i: nat)
    requires i < n
    ensures Ahead(data, p, n)[i] == BitAt(data, p + i)
    decreases n
  {
    if i < n - 1 { AheadAt(data, p, n - 1, i); }
  }

  lemma {:induction false} AheadSplit(data: seq<byte>, p: nat, n: nat, m: nat)
    ensures Ahead(data, p, n + m) == Ahead(data, p, n) + Ahead(data, p + n, m)
    decreases m
  {
    if m == 0 {
      assert Ahead(data, p, n) + [] == Ahead(data, p, n);
    } else {
      AheadSplit(data, p, n, m - 1);
    }
  }

  lemma AheadByte(data: seq<byte>, k: nat)
    ensures Ahead(data, 8 * k, 8) == BitsOf(8, ByteAt(data, k))
  {
    forall i: nat | i < 8 ensures Ahead(data, 8 * k, 8)[i] == Bit(ByteAt(data, k), 7 - i) {
      AheadAt(data, 8 * k, 8, i);
    }
    BitsOfFrom(Ahead(data, 8 * k, 8), ByteAt(data, k));
  }

  // Inside the file a reader sees the file's own bits.
  lemma AheadInside(data: seq<byte>, p: nat, n: nat)
    requires p + n <= 8 * |data|
    ensures Ahead(data, p, n) == BytesBits(data)[p..p + n]
  {
    forall i: nat | i < n ensures Ahead(data, p, n)[i] == BytesBits(data)[p..p + n][i] {
      AheadAt(data, p, n, i);
      BytesBitAt(data, p + i);
    }
  }

  lemma BytesBitAt(data: seq<byte>, i: nat)
    requires i < 8 * |data|
    ensures BytesBits(data)[i] == BitAt(data, i)
  {
    BytesBitsAt(data, i / 8);
    BitsOfAt(8, data[i / 8], i % 8);
    assert BytesBits(data)[8 * (i / 8)..8 * (i / 8) + 8][i % 8] == BytesBits(data)[i];
  }

  // Beyond the file every bit is set.
  lemma OnesBeyond(data: seq<byte>, i: nat)
    requires i >= 8 * |data|
    ensures BitAt(data, i)
  {
    assert Mask(8) == 255;
    BitMask(8, 7 - i % 8);
  }

  // Two files look alike from p on when every bit does.
  lemma {:induction false} SameAhead(data: seq<byte>, data': seq<byte>, p: nat, n: nat)
    requires forall i: nat :: p <= i ==> BitAt(data, i) == BitAt(data', i)
    ensures Ahead(data, p, n) == Ahead(data', p, n)
    decreases n
  {
    if n > 0 { SameAhead(data, data', p, n - 1); }
  }

  // Digits shifted in at the low end, out at the low end, and masked.
  lemma ValueShiftIn(s: seq<bool>, t: seq<bool>)
    ensures Or(Shl(ValueOf(s), |t|), ValueOf(t)) == ValueOf(s + t)
  {
    forall i: nat
      ensures Bit(Or(Shl(ValueOf(s), |t|), ValueOf(t)), i)
              == (i < |s + t| && (s + t)[|s + t| - 1 - i])
    {
      BitOr(Shl(ValueOf(s), |t|), ValueOf(t), i);
      BitShl(ValueOf(s), |t|, i);
      BitValueOf(t, i);
      if i >= |t| { BitValueOf(s, i - |t|); }
    }
    ValueOfFromBits(Or(Shl(ValueOf(s), |t|), ValueOf(t)), s + t);
  }

  lemma ValueShiftOut(s: seq<bool>, k: nat)
    requires k <= |s|
    ensures Shr(ValueOf(s), k) == ValueOf(s[..|s| - k])
  {
    var t := s[..|s| - k];
    forall i: nat ensures Bit(Shr(ValueOf(s), k), i) == (i < |t| && t[|t| - 1 - i]) {
      BitShr(ValueOf(s), k, i);
      BitValueOf(s, i + k);
    }
    ValueOfFromBits(Shr(ValueOf(s), k), t);
  }

  lemma ValueMasked(s: seq<bool>, n: nat)
    requires n <= |s|
    ensures And(ValueOf(s), Mask(n)) == ValueOf(s[|s| - n..])
  {
    var t := s[|s| - n..];
    forall i: nat ensures Bit(And(ValueOf(s), Mask(n)), i) == (i < |t| && t[|t| - 1 - i]) {
      BitAnd(ValueOf(s), Mask(n), i);
      BitMask(n, i);
      BitValueOf(s, i);
    }
    ValueOfFromBits(And(ValueOf(s), Mask(n)), t);
  }
}
