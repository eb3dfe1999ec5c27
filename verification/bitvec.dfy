// Bit vectors packed in bytes: libexds/src/bitvec.c.
module BitVectors {
  import opened Bits

  const NUM_BITS: nat := 8

  // ----- vectors as sets

  // Whether the bit i is set.
  predicate Has(bits: seq<byte>, i: nat) {
    i / NUM_BITS < |bits| && Bit(bits[i / NUM_BITS], i % NUM_BITS)
  }

  // The numbers below n whose bits are set.
  function Members(bits: seq<byte>, n: nat): set<nat> {
    set i | 0 <= i < n && Has(bits, i)
  }

  // No bit from n on is set.
  ghost predicate Clean(bits: seq<byte>, n: nat) {
    forall i :: n <= i < NUM_BITS * |bits| ==> !Has(bits, i)
  }

  function BytesFor(n: nat): nat { (n + NUM_BITS - 1) / NUM_BITS }

  // The complement of a byte.
  function Not(b: byte): byte { BYTE_MASK - b }

  lemma HasAt(bits: seq<byte>, k: nat, j: nat)
    requires k < |bits| && j < 8
    ensures NUM_BITS * k + j < NUM_BITS * |bits|
    ensures Has(bits, NUM_BITS * k + j) == Bit(bits[k], j)
  {
    assert (NUM_BITS * k + j) / NUM_BITS == k && (NUM_BITS * k + j) % NUM_BITS == j;
  }

  lemma HasIs(bits: seq<byte>, i: nat)
    requires i < NUM_BITS * |bits|
    ensures i / NUM_BITS < |bits| && Has(bits, i) == Bit(bits[i / NUM_BITS], i % NUM_BITS)
  {
  }

  lemma BytesForAll(n: nat)
    ensures n <= NUM_BITS * BytesFor(n) < n + 8
  {
  }

  // ----- bytes bit by bit

  lemma ByteHigh(b: byte, i: nat)
    requires i >= 8
    ensures !Bit(b, i)
  {
    BitBelow(b, 8, i);
  }

  lemma SameByte(a: byte, b: byte)
    requires forall j :: 0 <= j < 8 ==> Bit(a, j) == Bit(b, j)
    ensures a == b
  {
    hide Bit;
    forall i: nat ensures Bit(a, i) == Bit(b, i) {
      if i >= 8 { ByteHigh(a, i); ByteHigh(b, i); }
    }
    BitsDetermine(a, b);
  }

  // All eight bits are v.
  ghost predicate Uniform(b: byte, v: bool) {
    forall j :: 0 <= j < 8 ==> Bit(b, j) == v
  }

  lemma NoBits(b: byte)
    ensures b == 0 <==> Uniform(b, false)
  {
    forall j | 0 <= j < 8 ensures !Bit(0, j) { BitZero(j); }
    if Uniform(b, false) { SameByte(b, 0); }
  }

  lemma AllOnes(b: byte)
    ensures b == BYTE_MASK <==> Uniform(b, true)
  {
    assert Mask(8) == BYTE_MASK;
    forall j | 0 <= j < 8 ensures Bit(BYTE_MASK, j) { BitMask(8, j); }
    if Uniform(b, true) { SameByte(b, BYTE_MASK); }
  }

  lemma OrByte(a: byte, b: byte)
    ensures Or(a, b) < 256
  {
    hide Bit, Or;
    forall i: nat | i >= 8 ensures !Bit(Or(a, b), i) {
      BitOr(a, b, i);
      ByteHigh(a, i);
      ByteHigh(b, i);
    }
    BelowFromBits(Or(a, b), 8);
  }

  lemma AndByte(a: byte, b: byte)
    ensures And(a, b) < 256
  {
    hide Bit, And;
    forall i: nat | i >= 8 ensures !Bit(And(a, b), i) {
      BitAnd(a, b, i);
      ByteHigh(a, i);
    }
    BelowFromBits(And(a, b), 8);
  }

  lemma {:induction false} BitComplement(x: nat, n: nat, i: nat)
    requires x < Pow2(n)
    ensures Mask(n) >= x && Bit(Mask(n) - x, i) == (i < n && !Bit(x, i))
    decreases n
  {
    if n == 0 {
      BitZero(i);
    } else {
      BitComplement(x / 2, n - 1, if i > 0 then i - 1 else 0);
      assert Mask(n) - x == 2 * (Mask(n - 1) - x / 2) + (1 - x % 2);
      assert (Mask(n) - x) / 2 == Mask(n - 1) - x / 2;
    }
  }

  lemma BitNot(b: byte, j: nat)
    ensures Bit(Not(b), j) == (j < 8 && !Bit(b, j))
  {
    assert Mask(8) == BYTE_MASK;
    BitComplement(b, 8, j);
  }

  // The single bit k.
  lemma BitOne(k: nat, j: nat)
    ensures Bit(Shl(1, k), j) == (j == k)
  {
    BitShl(1, k, j);
    if j >= k {
      if j > k { assert Bit(1, j - k) == Bit(0, j - k - 1); BitZero(j - k - 1); }
    }
  }

  // ----- sets and byte sequences

  // Vectors of one size without padding are equal if they have the same members.
  lemma SameMembers(a: seq<byte>, b: seq<byte>, n: nat)
    requires |a| == |b| == BytesFor(n) && Clean(a, n) && Clean(b, n)
    ensures a == b <==> Members(a, n) == Members(b, n)
  {
    hide Bit, BytesFor;
    if Members(a, n) == Members(b, n) {
      forall k | 0 <= k < |a| ensures a[k] == b[k] {
        forall j | 0 <= j < 8 ensures Bit(a[k], j) == Bit(b[k], j) {
          HasAt(a, k, j);
          HasAt(b, k, j);
          var i := NUM_BITS * k + j;
          if i < n { assert i in Members(a, n) <==> i in Members(b, n); }
        }
        SameByte(a[k], b[k]);
      }
    }
  }

  // The byte k has a bit set below n.
  lemma ByteEmpty(a: seq<byte>, k: nat, n: nat)
    requires k < |a| && Clean(a, n)
    ensures a[k] != 0 <==> exists i :: i in Members(a, n) && i / NUM_BITS == k
  {
    hide Bit;
    NoBits(a[k]);
    if j :| 0 <= j < 8 && Bit(a[k], j) {
      HasAt(a, k, j);
      assert (NUM_BITS * k + j) / NUM_BITS == k && NUM_BITS * k + j in Members(a, n);
    }
    if i :| i in Members(a, n) && i / NUM_BITS == k {
      assert Bit(a[k], i % NUM_BITS);
    }
  }

  // The members of what is made byte by byte.
  lemma MadeBy(a: seq<byte>, b: seq<byte>, c: seq<byte>, n: nat)
    requires |a| == |b| == |c| == BytesFor(n)
    ensures (forall k :: 0 <= k < |c| ==> c[k] == Or(a[k], b[k])) ==>
              Members(c, n) == Members(a, n) + Members(b, n) && (Clean(a, n) && Clean(b, n) ==> Clean(c, n))
    ensures (forall k :: 0 <= k < |c| ==> c[k] == And(a[k], b[k])) ==>
              Members(c, n) == Members(a, n) * Members(b, n) && (Clean(a, n) && Clean(b, n) ==> Clean(c, n))
  {
    hide Bit, Or, And, BytesFor;
    BytesForAll(n);
    forall i | 0 <= i < NUM_BITS * |c|
      ensures (forall k :: 0 <= k < |c| ==> c[k] == Or(a[k], b[k])) ==> Has(c, i) == (Has(a, i) || Has(b, i))
      ensures (forall k :: 0 <= k < |c| ==> c[k] == And(a[k], b[k])) ==> Has(c, i) == (Has(a, i) && Has(b, i))
    {
      HasIs(c, i);
      BitOr(a[i / NUM_BITS], b[i / NUM_BITS], i % NUM_BITS);
      BitAnd(a[i / NUM_BITS], b[i / NUM_BITS], i % NUM_BITS);
    }
  }

  // The bits of the last byte that count.
  ghost predicate MaskFor(mask: byte, n: nat) {
    forall j :: 0 <= j < 8 ==> Bit(mask, j) == (n % NUM_BITS == 0 || j < n % NUM_BITS)
  }

  lemma Complemented(a: seq<byte>, c: seq<byte>, mask: byte, n: nat)
    requires |a| == |c| == BytesFor(n) && n > 0 && MaskFor(mask, n)
    requires forall k :: 0 <= k < |c| ==> c[k] == if k == |c| - 1 then And(Not(a[k]), mask) else Not(a[k])
    ensures Clean(c, n) && forall i :: 0 <= i < n ==> (i in Members(c, n) <==> i !in Members(a, n))
  {
    hide Bit, And, BytesFor, Not;
    BytesForAll(n);
    forall i | 0 <= i < NUM_BITS * |c| ensures Has(c, i) == (i < n && !Has(a, i)) {
      HasIs(c, i);
      HasIs(a, i);
      var k, j := i / NUM_BITS, i % NUM_BITS;
      BitNot(a[k], j);
      BitAnd(Not(a[k]), mask, j);
    }
  }

  ghost predicate Full(a: seq<byte>, n: nat) {
    forall i :: 0 <= i < n ==> Has(a, i)
  }

  ghost predicate Covered(a: seq<byte>, k: nat, n: nat) {
    forall i :: NUM_BITS * k <= i < NUM_BITS * k + 8 && i < n ==> Has(a, i)
  }

  // A byte as it is compared, with what is behind the end of the vector set.
  function Compared(a: seq<byte>, k: nat, mask: byte): nat
    requires k < |a|
  {
    if k == |a| - 1 then Or(a[k], Not(mask)) else a[k]
  }

  lemma ByteFull(a: seq<byte>, k: nat, mask: byte, n: nat)
    requires |a| == BytesFor(n) && MaskFor(mask, n) && k < |a|
    ensures Compared(a, k, mask) < 256 && (Compared(a, k, mask) == BYTE_MASK <==> Covered(a, k, n))
  {
    hide Bit, Or, BytesFor, Not;
    BytesForAll(n);
    OrByte(a[k], Not(mask));
    var x := Compared(a, k, mask);
    AllOnes(x);
    forall j | 0 <= j < 8 ensures Bit(x, j) <==> (NUM_BITS * k + j < n ==> Has(a, NUM_BITS * k + j)) {
      HasAt(a, k, j);
      BitOr(a[k], Not(mask), j);
      BitNot(mask, j);
    }
    if x == BYTE_MASK {
      forall i | NUM_BITS * k <= i < NUM_BITS * k + 8 && i < n ensures Has(a, i) {
        assert Bit(x, i - NUM_BITS * k);
      }
    }
  }

  // The vector is full if every byte is.
  lemma FullBytes(a: seq<byte>, n: nat)
    requires |a| == BytesFor(n)
    ensures Full(a, n) <==> forall k :: 0 <= k < |a| ==> Covered(a, k, n)
  {
    hide Has, BytesFor;
    BytesForAll(n);
    if forall k :: 0 <= k < |a| ==> Covered(a, k, n) {
      forall i | 0 <= i < n ensures Has(a, i) { assert Covered(a, i / NUM_BITS, n); }
    }
  }

  // ----- the operations

  class BitVec {
    var bits: array<byte>

    constructor (n: nat)
      ensures fresh(bits) && bits.Length == n
    {
      bits := new byte[n];
    }
  }

  // The size set for all vectors, in bits and in bytes.
  class BitVectors {
    var size: nat
    var validBits: nat
    var mask: byte

    ghost predicate Valid()
      reads this
    {
      size == BytesFor(validBits) && MaskFor(mask, validBits)
    }

    ghost predicate Sized(v: BitVec)
      reads this, v
    {
      Valid() && v.bits.Length == size
    }

    ghost function Set(v: BitVec): set<nat>
      reads this, v, v.bits
    {
      Members(v.bits[..], validBits)
    }

    // A vector of the size set, with nothing behind its end.
    ghost predicate Proper(v: BitVec)
      reads this, v, v.bits
    {
      Sized(v) && Clean(v.bits[..], validBits)
    }

    constructor (n: nat)
      ensures Valid() && validBits == n
    {
      size, validBits, mask := 0, 0, 0xff;
      new;
      SetSize(n);
    }

    method SetSize(n: nat)
      modifies this
      ensures Valid() && validBits == n
    {
      hide Bit, Shr, Or, Shl;
      validBits := n;
      size := (n + NUM_BITS - 1) / NUM_BITS;
      var high: byte := 0;
      if n % NUM_BITS != 0 {
        var i := NUM_BITS - n % NUM_BITS;
        forall j | 0 <= j < 8 ensures !Bit(0, j) { BitZero(j); }
        while i > 0
          invariant 0 <= i <= NUM_BITS - n % NUM_BITS
          invariant HighFrom(high, n % NUM_BITS + i) && validBits == n && size == BytesFor(n)
        {
          PushDown(high, n % NUM_BITS + i);
          high := Or(Shr(high, 1), Shl(1, NUM_BITS - 1));
          i := i - 1;
        }
      } else {
        forall j | 0 <= j < 8 ensures !Bit(high, j) { BitZero(j); }
      }
      mask := Not(high);
      forall j | 0 <= j < 8 ensures Bit(mask, j) == (n % NUM_BITS == 0 || j < n % NUM_BITS) { BitNot(high, j); }
    }

    method Init() returns (v: BitVec)
      requires Valid()
      ensures fresh(v) && fresh(v.bits) && Sized(v)
    {
      v := new BitVec(size);
    }

    method Copy(from: BitVec) returns (to: BitVec)
      requires Sized(from)
      ensures fresh(to) && fresh(to.bits) && Sized(to) && to.bits[..] == from.bits[..]
    {
      to := new BitVec(size);
      Replace(to, from);
    }

    method Replace(to: BitVec, from: BitVec)
      requires Sized(to) && Sized(from)
      modifies to.bits
      ensures to.bits[..] == old(from.bits[..])
    {
      var i := 0;
      while i < size
        invariant i <= size && forall k :: 0 <= k < i ==> to.bits[k] == old(from.bits[k])
        invariant forall k :: i <= k < size ==> from.bits[k] == old(from.bits[k])
      {
        to.bits[i] := from.bits[i];
        i := i + 1;
      }
    }

    method Empty(v: BitVec)
      requires Sized(v)
      modifies v.bits
      ensures Proper(v) && Set(v) == {}
    {
      hide Bit;
      var i := 0;
      while i < size
        invariant i <= size && forall k :: 0 <= k < i ==> v.bits[k] == 0
      {
        v.bits[i] := 0;
        i := i + 1;
      }
      BytesForAll(validBits);
      forall i | 0 <= i < NUM_BITS * size ensures !Has(v.bits[..], i) {
        HasIs(v.bits[..], i);
        BitZero(i % NUM_BITS);
      }
    }

    method IsEmpty(v: BitVec) returns (r: bool)
      requires Proper(v)
      ensures r <==> Set(v) == {}
    {
      hide Has, Clean;
      var i := 0;
      while i < size
        invariant i <= size && forall k :: 0 <= k < i ==> v.bits[k] == 0
      {
        ByteEmpty(v.bits[..], i, validBits);
        if v.bits[i] != 0 { return false; }
        i := i + 1;
      }
      BytesForAll(validBits);
      forall m | m in Set(v) ensures false {
        ByteEmpty(v.bits[..], m / NUM_BITS, validBits);
      }
      r := true;
    }

    method IsFull(v: BitVec) returns (r: bool)
      requires Sized(v)
      ensures r <==> forall i :: 0 <= i < validBits ==> i in Set(v)
    {
      hide Has, Or, Not, Covered;
      ghost var bits := v.bits[..];
      FullBytes(bits, validBits);
      FullSet(bits, validBits);
      var i, bytes := 0, size;
      while bytes > 0
        invariant i + bytes == size && forall k :: 0 <= k < i ==> Covered(bits, k, validBits)
      {
        bytes := bytes - 1;
        ByteFull(bits, i, mask, validBits);
        var byte: nat := v.bits[i];
        if bytes == 0 { byte := Or(byte, Not(mask)); }
        if byte != BYTE_MASK {
          assert !Full(bits, validBits) && Set(v) == Members(bits, validBits);
          return false;
        }
        i := i + 1;
      }
      r := true;
    }

    method SetBit(v: BitVec, bit: nat)
      requires Proper(v) && bit < validBits
      modifies v.bits
      ensures Proper(v) && Set(v) == old(Set(v)) + {bit}
    {
      hide Bit, Or, Shl, BytesFor;
      BytesForAll(validBits);
      ghost var was := v.bits[..];
      var k := bit / NUM_BITS;
      OneFits(bit % NUM_BITS);
      OrByte(v.bits[k], Shl(1, bit % NUM_BITS));
      v.bits[k] := Or(v.bits[k], Shl(1, bit % NUM_BITS));
      forall i | 0 <= i < NUM_BITS * size ensures Has(v.bits[..], i) == (Has(was, i) || i == bit) {
        HasIs(v.bits[..], i);
        HasIs(was, i);
        if i / NUM_BITS == k {
          BitOr(was[k], Shl(1, bit % NUM_BITS), i % NUM_BITS);
          BitOne(bit % NUM_BITS, i % NUM_BITS);
        }
      }
    }

    method IsSet(v: BitVec, bit: nat) returns (r: bool)
      requires Sized(v) && bit < validBits
      ensures r <==> bit in Set(v)
    {
      hide Bit, And, Shl, BytesFor;
      BytesForAll(validBits);
      ghost var j := bit % NUM_BITS;
      var b: byte := v.bits[bit / NUM_BITS];
      OneFits(j);
      AndByte(b, Shl(1, j));
      NoBits(And(b, Shl(1, j)));
      forall i | 0 <= i < 8 ensures Bit(And(b, Shl(1, j)), i) == (i == j && Bit(b, i)) {
        BitAnd(b, Shl(1, j), i);
        BitOne(j, i);
      }
      r := And(b, Shl(1, bit % NUM_BITS)) != 0;
    }

    method Union(to: BitVec, from: BitVec)
      requires Proper(to) && Proper(from)
      modifies to.bits
      ensures Proper(to) && Set(to) == old(Set(to)) + old(Set(from))
    {
      hide Clean, Or;
      ghost var a, b := to.bits[..], from.bits[..];
      var i := 0;
      while i < size
        invariant i <= size && (forall k :: 0 <= k < i ==> to.bits[k] == Or(a[k], b[k]))
        invariant forall k :: i <= k < size ==> to.bits[k] == a[k] && from.bits[k] == b[k]
      {
        OrByte(to.bits[i], from.bits[i]);
        to.bits[i] := Or(to.bits[i], from.bits[i]);
        i := i + 1;
      }
      MadeBy(a, b, to.bits[..], validBits);
    }

    method Intersect(to: BitVec, from: BitVec)
      requires Proper(to) && Proper(from)
      modifies to.bits
      ensures Proper(to) && Set(to) == old(Set(to)) * old(Set(from))
    {
      hide Clean, And;
      ghost var a, b := to.bits[..], from.bits[..];
      var i := 0;
      while i < size
        invariant i <= size && (forall k :: 0 <= k < i ==> to.bits[k] == And(a[k], b[k]))
        invariant forall k :: i <= k < size ==> to.bits[k] == a[k] && from.bits[k] == b[k]
      {
        AndByte(to.bits[i], from.bits[i]);
        to.bits[i] := And(to.bits[i], from.bits[i]);
        i := i + 1;
      }
      MadeBy(a, b, to.bits[..], validBits);
    }

    method Complement(to: BitVec)
      requires Sized(to) && validBits > 0
      modifies to.bits
      ensures Proper(to) && forall i :: 0 <= i < validBits ==> (i in Set(to) <==> i !in old(Set(to)))
    {
      hide Clean, And, Not;
      ghost var a := to.bits[..];
      var i := 0;
      while i < size
        invariant i <= size && (forall k :: 0 <= k < i ==> to.bits[k] == Not(a[k]))
        invariant forall k :: i <= k < size ==> to.bits[k] == a[k]
      {
        to.bits[i] := Not(to.bits[i]);
        i := i + 1;
      }
      AndByte(to.bits[size - 1], mask);
      to.bits[size - 1] := And(to.bits[size - 1], mask);
      Complemented(a, to.bits[..], mask, validBits);
    }

    method Equal(v: BitVec, w: BitVec) returns (r: bool)
      requires Proper(v) && Proper(w)
      ensures r <==> Set(v) == Set(w)
    {
      hide Clean;
      SameMembers(v.bits[..], w.bits[..], validBits);
      var i := 0;
      while i < size
        invariant i <= size && v.bits[..i] == w.bits[..i]
      {
        if v.bits[i] != w.bits[i] {
          assert v.bits[..][i] != w.bits[..][i];
          return false;
        }
        i := i + 1;
      }
      assert v.bits[..] == v.bits[..i] && w.bits[..] == w.bits[..i];
      r := true;
    }

    method Intersects(v: BitVec, w: BitVec) returns (r: bool)
      requires Proper(v) && Proper(w)
      ensures r <==> Set(v) * Set(w) != {}
    {
      hide Clean, And, Has;
      ghost var a, b := v.bits[..], w.bits[..];
      ghost var c := Both(a, b);
      MadeBy(a, b, c, validBits);
      var i := 0;
      while i < size
        invariant i <= size && forall k :: 0 <= k < i ==> c[k] == 0
      {
        ByteEmpty(c, i, validBits);
        if And(v.bits[i], w.bits[i]) != 0 { return true; }
        i := i + 1;
      }
      BytesForAll(validBits);
      forall m | m in Members(c, validBits) ensures false { ByteEmpty(c, m / NUM_BITS, validBits); }
      r := false;
    }

    method NumBits(v: BitVec) returns (n: nat)
      requires Sized(v)
      ensures n == |Set(v)|
    {
      hide Has;
      n := 0;
      var i := 0;
      NoMembers(v.bits[..]);
      while i < validBits
        invariant i <= validBits && n == |Members(v.bits[..], i)|
      {
        var isSet := IsSet(v, i);
        MoreMembers(v.bits[..], i);
        if isSet { n := n + 1; }
        i := i + 1;
      }
    }

    method FirstBit(v: BitVec) returns (i: nat)
      requires Sized(v)
      ensures Set(v) == {} ==> i == validBits
      ensures Set(v) != {} ==> i in Set(v) && forall j :: j in Set(v) ==> i <= j
    {
      hide Has;
      i := 0;
      while i < validBits
        invariant i <= validBits && forall j :: j in Set(v) ==> i <= j
      {
        var isSet := IsSet(v, i);
        if isSet { return; }
        i := i + 1;
      }
      assert Set(v) == {};
    }

    // The next member after ref, if there is one.
    method NextBit(v: BitVec, ref: nat) returns (found: bool, next: nat)
      requires Sized(v)
      ensures found <==> exists j :: j in Set(v) && ref < j
      ensures found ==> next in Set(v) && ref < next && forall j :: j in Set(v) && ref < j ==> next <= j
      ensures !found ==> next == ref
    {
      hide Has;
      var i := ref + 1;
      while i < validBits
        invariant ref < i && forall j :: j in Set(v) && ref < j ==> i <= j
      {
        var isSet := IsSet(v, i);
        if isSet { return true, i; }
        i := i + 1;
      }
      return false, ref;
    }

    // Going from the first bit to the next until there is none visits the
    // members once each, in ascending order.
    method Enumerate(v: BitVec) returns (r: seq<nat>)
      requires Sized(v)
      ensures (set x | x in r) == Set(v) && forall i, j :: 0 <= i < j < |r| ==> r[i] < r[j]
    {
      hide Has;
      r := [];
      var i := FirstBit(v);
      var more := i < validBits;
      while more
        invariant more ==> i in Set(v)
        invariant forall k :: 0 <= k < |r| ==> r[k] in Set(v) && (more ==> r[k] < i)
        invariant forall j :: j in Set(v) ==> j in r || (more && i <= j)
        invariant forall k, j :: 0 <= k < j < |r| ==> r[k] < r[j]
        decreases more, validBits - i
      {
        r := r + [i];
        more, i := NextBit(v, i);
      }
    }
  }

  lemma FullSet(bits: seq<byte>, n: nat)
    ensures Full(bits, n) <==> forall i :: 0 <= i < n ==> i in Members(bits, n)
  {
    hide Has;
    if forall i :: 0 <= i < n ==> i in Members(bits, n) {
      forall i | 0 <= i < n ensures Has(bits, i) { assert i in Members(bits, n); }
    }
  }

  // The bits set are those from t on.
  ghost predicate HighFrom(b: nat, t: nat) {
    forall j :: 0 <= j < 8 ==> Bit(b, j) == (j >= t)
  }

  // One more high bit.
  lemma PushDown(high: byte, t: nat)
    requires 0 < t <= 8 && HighFrom(high, t)
    ensures Or(Shr(high, 1), Shl(1, NUM_BITS - 1)) < 256 && HighFrom(Or(Shr(high, 1), Shl(1, NUM_BITS - 1)), t - 1)
  {
    hide Bit, Or, Shl;
    assert Shr(high, 1) == high / 2;
    OneFits(7);
    OrByte(Shr(high, 1), Shl(1, 7));
    forall j | 0 <= j < 8 ensures Bit(Or(Shr(high, 1), Shl(1, 7)), j) == (j >= t - 1) {
      BitOr(Shr(high, 1), Shl(1, 7), j);
      BitShr(high, 1, j);
      BitOne(7, j);
      if j == 7 { ByteHigh(high, 8); }
    }
  }

  lemma OneFits(k: nat)
    requires k < 8
    ensures Shl(1, k) < 256
  {
    hide Bit, Shl;
    forall i: nat | i >= 8 ensures !Bit(Shl(1, k), i) { BitOne(k, i); }
    BelowFromBits(Shl(1, k), 8);
  }

  function Both(a: seq<byte>, b: seq<byte>): (c: seq<byte>)
    requires |a| == |b|
    ensures |c| == |a| && forall k :: 0 <= k < |c| ==> c[k] == And(a[k], b[k])
  {
    if a == [] then []
    else
      var last := |a| - 1;
      AndByte(a[last], b[last]);
      Both(a[..last], b[..last]) + [And(a[last], b[last])]
  }

  lemma NoMembers(bits: seq<byte>)
    ensures Members(bits, 0) == {}
  {
  }

  lemma MoreMembers(bits: seq<byte>, i: nat)
    ensures Members(bits, i + 1) == Members(bits, i) + (if Has(bits, i) then {i} else {})
    ensures |Members(bits, i + 1)| == |Members(bits, i)| + if Has(bits, i) then 1 else 0
  {
    assert Members(bits, i + 1) == Members(bits, i) + (if Has(bits, i) then {i} else {});
  }
}
