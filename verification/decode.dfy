// The libtdf bit reader: libtdf/src/decode.c.
module Decode {
  import opened Bits
  import opened Codes
  import opened Files
  import opened Views
  import opened Bitstreams

  // The buffer holds size bytes of what a reader sees, starting at byte base of
  // the file; the file itself has been read up to there or to its end.
  ghost predicate Reading(bs: Bitstream)
    reads bs, bs.text, bs.file
  {
    && bs.file != null
    && bs.text.Length == CHUNK_SIZE
    && bs.bytes <= bs.size <= CHUNK_SIZE
    && bs.bits < 8
    && (bs.bits > 0 ==> bs.bytes < bs.size)
    && (forall k :: 0 <= k < bs.size ==> bs.text[k] == ByteAt(bs.file.data, bs.base + k))
    && bs.file.pos == (if bs.base + bs.size <= |bs.file.data| then bs.base + bs.size else |bs.file.data|)
  }

  // The position of the next bit to be read.
  ghost function Posn(bs: Bitstream): nat
    reads bs
  {
    8 * (bs.base + bs.bytes) + bs.bits
  }

  // The same file, read up to position p.
  twostate predicate ReadTo(bs: Bitstream, p: nat)
    reads bs, bs.text, bs.file
  {
    && Reading(bs) && Posn(bs) == p
    && bs.file == old(bs.file) && bs.file.data == old(bs.file.data)
  }

  // Refill the buffer from the file, or with ones at the end of the file.
  method FillBitstream(bs: Bitstream) returns (sz: nat)
    requires Reading(bs) && bs.bytes == bs.size
    modifies bs`size, bs`base, bs`bytes, bs`bits, bs.text, bs.file`pos
    ensures bs.size == sz > 0 && bs.bytes == 0 && bs.bits == 0
    ensures Reading(bs) && bs.base == old(bs.base) + old(bs.size)
  {
    var got := bs.file.Read(CHUNK_SIZE);
    sz := |got|;
    bs.base := bs.base + bs.size;
    forall i | 0 <= i < sz {
      bs.text[i] := got[i];
    }
    if sz == 0 {
      // A reader sees set bits where no file is left.
      while sz < CHUNK_SIZE
        invariant sz <= CHUNK_SIZE
        invariant forall k :: 0 <= k < sz ==> bs.text[k] == 255
        modifies bs.text
      {
        bs.text[sz] := BYTE_MASK;
        sz := sz + 1;
      }
    }
    bs.size := sz;
    bs.bytes, bs.bits := 0, 0;
  }

  // The byte that holds the next bit.
  method NextCharacter(bs: Bitstream) returns (c: byte)
    requires Reading(bs) && bs.bits == 0
    modifies bs`size, bs`base, bs`bytes, bs`bits, bs.text, bs.file`pos
    ensures ReadTo(bs, old(Posn(bs))) && bs.bits == 0 && bs.bytes < bs.size
    ensures c == ByteAt(bs.file.data, bs.base + bs.bytes)
  {
    hide ByteAt;
    // The view is the same before and after refilling.
    if bs.bytes >= bs.size {
      var _ := FillBitstream(bs);
    }
    c := bs.text[bs.bytes];
  }

  // The next n bits, as a number.
  method DeBits(bs: Bitstream, n: nat) returns (r: nat)
    requires Reading(bs) && n <= 16
    modifies bs`size, bs`base, bs`bytes, bs`bits, bs.text, bs.file`pos
    ensures ReadTo(bs, old(Posn(bs)) + n)
    ensures r == NumAt(bs.file.data, old(Posn(bs)), n)
  {
    hide NumAt, Ahead, ByteAt, Shl, Shr, Or, And, Mask, ValueOf, BitsOf;
    ghost var data, skip := bs.file.data, bs.bits;
    ghost var q := 8 * (bs.base + bs.bytes);
    var d: nat := 0;
    var m: nat := n + bs.bits;
    NothingRead(data, q);
    ghost var done := 0;
    bs.bits := 0;
    // The bits taken here come behind those taken before.
    while m > 0
      invariant m == n + skip - done && (m > 0 ==> bs.bits == 0)
      invariant bs.file == old(bs.file) && ReadTo(bs, q + done)
      invariant data == bs.file.data
      invariant d == NumAt(data, q, done)
    {
      var c := NextCharacter(bs);
      d := Or(Shl(d, BYTE_SIZE), c);
      OneMoreByte(data, q, done, bs.base + bs.bytes);
      if m < BYTE_SIZE {
        DropDigits(data, q, done + 8, 8 - m);
        d := Shr(d, BYTE_SIZE - m);
        bs.bits := m;
        done := done + m;
        m := 0;
      } else {
        m := m - BYTE_SIZE;
        bs.bytes := bs.bytes + 1;
        done := done + 8;
      }
    }
    KeepDigits(data, q, skip, n);
    r := And(d, Mask(n));
  }

  lemma NothingRead(data: seq<byte>, q: nat)
    ensures NumAt(data, q, 0) == 0
  {
  }

  lemma OneMoreByte(data: seq<byte>, q: nat, done: nat, k: nat)
    requires q + done == 8 * k
    ensures Or(Shl(NumAt(data, q, done), 8), ByteAt(data, k)) == NumAt(data, q, done + 8)
  {
    hide Ahead, BitsOf, Or, Shl, ByteAt;
    AheadSplit(data, q, done, 8);
    AheadByte(data, k);
    ByteBound(ByteAt(data, k));
    ValueOfBitsOf(8, ByteAt(data, k));
    ValueShiftIn(Ahead(data, q, done), Ahead(data, 8 * k, 8));
  }

  lemma DropDigits(data: seq<byte>, q: nat, done: nat, k: nat)
    requires k <= done
    ensures Shr(NumAt(data, q, done), k) == NumAt(data, q, done - k)
  {
    hide Ahead, Shr;
    AheadSplit(data, q, done - k, k);
    ValueShiftOut(Ahead(data, q, done), k);
    assert Ahead(data, q, done)[..done - k] == Ahead(data, q, done - k);
  }

  lemma KeepDigits(data: seq<byte>, q: nat, skip: nat, n: nat)
    ensures And(NumAt(data, q, skip + n), Mask(n)) == NumAt(data, q + skip, n)
  {
    hide Ahead, And, Mask;
    AheadSplit(data, q, skip, n);
    ValueMasked(Ahead(data, q, skip + n), n);
    assert Ahead(data, q, skip + n)[skip..] == Ahead(data, q + skip, n);
  }

  // Up to 32 bits, in two reads.
  method DeLongBits(bs: Bitstream, n: nat) returns (r: nat)
    requires Reading(bs) && n <= 32
    modifies bs`size, bs`base, bs`bytes, bs`bits, bs.text, bs.file`pos
    ensures ReadTo(bs, old(Posn(bs)) + n)
    ensures r == NumAt(bs.file.data, old(Posn(bs)), n)
  {
    hide NumAt, Ahead, ByteAt, Shl, Or, ValueOf;
    ghost var data, p := bs.file.data, Posn(bs);
    var a, m := 0, n;
    if n > 16 {
      a := DeBits(bs, n - 16);
      m := 16;
    } else {
      NothingRead(data, p);
    }
    var b := DeBits(bs, m);
    r := Or(Shl(a, 16), b);
    TwoReads(data, p, n - m, m);
  }

  lemma TwoReads(data: seq<byte>, p: nat, i: nat, j: nat)
    requires i == 0 || j == 16
    ensures Or(Shl(NumAt(data, p, i), 16), NumAt(data, p + i, j)) == NumAt(data, p, i + j)
  {
    hide Ahead;
    AheadSplit(data, p, i, j);
    if j == 16 {
      ValueShiftIn(Ahead(data, p, i), Ahead(data, p + i, j));
    } else {
      OrNothing(NumAt(data, p, j));
    }
  }

  lemma OrNothing(x: nat)
    ensures Or(Shl(0, 16), x) == x
  {
    forall i: nat ensures Bit(Or(Shl(0, 16), x), i) == Bit(x, i) {
      BitOr(Shl(0, 16), x, i);
      BitShl(0, 16, i);
      if i >= 16 { BitZero(i - 16); }
    }
    BitsDetermine(Or(Shl(0, 16), x), x);
  }

  // A number in marked octal digits.
  method DeInt(bs: Bitstream) returns (r: nat)
    requires Reading(bs)
    modifies bs`size, bs`base, bs`bytes, bs`bits, bs.text, bs.file`pos
    ensures var (n, p) := IntAt(bs.file.data, old(Posn(bs)), 0);
            r == n && ReadTo(bs, p)
  {
    hide NumAt, Ahead, ByteAt;
    ghost var data, start := bs.file.data, Posn(bs);
    var n := 0;
    var d := DeBits(bs, 4);
    while d < 8
      invariant bs.file == old(bs.file) && bs.file.data == data && Reading(bs) && Posn(bs) >= 4
      invariant d == NumAt(data, Posn(bs) - 4, 4)
      invariant IntAt(data, start, 0) == IntAt(data, Posn(bs) - 4, n)
      decreases Left(data, Posn(bs) - 4)
    {
      UnmarkedInside(data, Posn(bs) - 4);
      n := 8 * n + d;
      d := DeBits(bs, 4);
    }
    r := 8 * n + d % 8;
    DigitRead(data, Posn(bs) - 4);
  }

  // Skip to the next byte boundary.
  method DeBoundary(bs: Bitstream)
    requires Reading(bs)
    modifies bs`size, bs`base, bs`bytes, bs`bits, bs.text, bs.file`pos
    ensures ReadTo(bs, old(Posn(bs)) + PadTo8(old(Posn(bs))))
  {
    hide PadTo8, NumAt, ByteAt;
    PadAt(bs.base + bs.bytes, bs.bits);
    if bs.bits > 0 {
      var _ := DeBits(bs, BYTE_SIZE - bs.bits);
    }
  }
}
