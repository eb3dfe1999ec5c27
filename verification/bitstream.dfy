// The TDF bit writer: libtdf/src/bitstream.c and libtdf/src/encode.c.
module Bitstreams {
  import opened Bits
  import opened Codes
  import opened Files

  const CHUNK_SIZE: nat := 64
  const CHUNK_COPY: nat := 8
  // Lengths are C unsigned numbers.
  const WORD: nat := 0x1_0000_0000

  // One chunk of a bitstream.  A stream is named by its newest chunk; prev
  // leads to older ones.
  class Bitstream {
    const text: array<byte>
    var bytes: nat
    var bits: nat
    var size: nat
    var file: File?
    var prev: Bitstream?
    // The whole stream, oldest chunk first; meaningful in the newest chunk only.
    ghost var chain: seq<Bitstream>
    // The chunks and buffers of chain.
    ghost var repr: set<object>
    // When reading: where in the file the buffer starts.
    ghost var base: nat

    constructor ()
      ensures fresh(text) && text.Length == CHUNK_SIZE
    {
      text := new byte[CHUNK_SIZE];
      bytes, bits, size, file, prev := 0, 0, 0, null, null;
      chain, repr, base := [], {}, 0;
    }

    // Odd bits imply that the partial byte lies inside the chunk.
    ghost predicate Ok()
      reads this
    {
      && text.Length == CHUNK_SIZE
      && bytes <= CHUNK_SIZE
      && bits < 8
      && (bits > 0 ==> bytes < CHUNK_SIZE)
    }

    // The bits held in this chunk alone.
    ghost function ChunkBits(): seq<bool>
      reads this, text
      requires Ok()
    {
      BytesBits(text[..])[..8 * bytes + bits]
    }

    // This is the newest chunk of a well-formed stream.  A stream with a file
    // has a single chunk.
    ghost predicate Valid()
      reads this, repr
    {
      && this in repr && text in repr && repr == Objs(chain)
      && |chain| > 0
      && chain[|chain| - 1] == this
      && Linked(chain)
      && Ok()
      && Memory(Older())
      && (file != null ==> |chain| == 1)
    }

    ghost function Older(): seq<Bitstream>
      reads this
      requires |chain| > 0
    {
      chain[..|chain| - 1]
    }

    ghost function Flushed(): seq<bool>
      reads this, file
    {
      if file == null then [] else BytesBits(file.data)
    }

    // Everything before this chunk: flushed bytes, then the older chunks.
    ghost function Before(): seq<bool>
      reads this, repr, file
      requires Valid()
    {
      Flushed() + ChainBits(Older())
    }

    // The stream's bits if this chunk held just its first m bits.
    ghost function Upto(m: nat): seq<bool>
      reads this, repr, file
      requires Valid() && m <= 8 * CHUNK_SIZE
    {
      Before() + BytesBits(text[..])[..m]
    }

    // Everything written to the stream so far.
    ghost function Content(): seq<bool>
      reads this, repr, file
      requires Valid()
    {
      Upto(8 * bytes + bits)
    }

    // Make this chunk an empty stream of its own.
    method Reset(f: File?)
      requires text.Length == CHUNK_SIZE
      modifies this
      ensures Valid() && chain == [this] && repr == {this, text}
      ensures file == f && bytes == 0 && bits == 0 && size == 0 && base == 0
      ensures Content() == Flushed()
    {
      bytes := 0;
      bits := 0;
      size := 0;
      file := f;
      prev := null;
      chain, repr, base := [this], {this, text}, 0;
      SingleContent(this);
      assert Flushed() + [] == Flushed();
    }

    // Move the end of the stream within this chunk.
    method SetEnd(newBytes: nat, newBits: nat)
      requires Valid()
      requires newBytes <= CHUNK_SIZE && newBits < 8 && (newBits > 0 ==> newBytes < CHUNK_SIZE)
      modifies this`bytes, this`bits
      ensures Valid() && bytes == newBytes && bits == newBits
      ensures Before() == old(Before())
      ensures Content() == old(Upto(8 * newBytes + newBits))
    {
      bytes := newBytes;
      bits := newBits;
    }

    // Store a byte inside this chunk.
    method Store(k: nat, c: byte)
      requires Valid() && k < CHUNK_SIZE
      modifies text
      ensures Valid()
      ensures Upto(8 * k + 8) == old(Upto(8 * k)) + BitsOf(8, c)
    {
      ghost var t, w := text[..], BitsOf(8, c);
      text[k] := c;
      assert text[..] == t[k := c];
      StoreByte(t, k, c);
      ConcatAssoc(Before(), BytesBits(t)[..8 * k], w);
    }

    // Put this empty chunk in front of the stream bs.
    method Attach(bs: Bitstream)
      requires bs.Valid() && bs.file == null
      requires Ok() && bytes == 0 && bits == 0 && file == null
      requires this !in bs.repr && text !in bs.repr
      modifies this`prev, this`chain, this`repr
      ensures Valid() && chain == old(bs.chain) + [this]
      ensures repr == old(bs.repr) + {this, text}
      ensures Content() == old(bs.Content())
    {
      hide BytesBits;
      WholeChain(bs);
      prev := bs;
      chain := bs.chain + [this];
      repr := bs.repr + {this, text};
      assert Older() == bs.chain;
      WholeChain(this);
    }

    // Become the newest chunk of the list cs.
    ghost method Adopt(cs: seq<Bitstream>)
      requires Linked(cs) && Memory(cs) && cs != [] && Last(cs) == this
      modifies this`chain, this`repr
      ensures Valid() && chain == cs && repr == Objs(cs)
      ensures Content() == old(ChainBits(cs))
    {
      hide BytesBits;
      chain, repr := cs, Objs(cs);
      WholeChain(this);
    }

    // Write the whole bytes to the file f, to which this chunk does not belong.
    method DumpTo(f: File)
      requires Ok() && file == null
      modifies this`bytes, this`file, text, f
      ensures Ok() && bytes == 0 && file == null
      ensures ChunkBits() == old(ChunkBits())[8 * old(bytes)..]
      ensures f.data == old(f.data) + old(text[..bytes])
    {
      file := f;
      Dump();
      file := null;
    }

    // Write the whole bytes to the file; the odd bits stay behind.
    method Dump()
      requires Ok()
      modifies this`bytes, text, file
      ensures Ok() && bytes == 0
      ensures ChunkBits() == old(ChunkBits())[8 * old(bytes)..]
      ensures file != null ==> file.data == old(file.data) + old(text[..bytes])
      ensures file != null ==> file.pos == old(file.pos)
    {
      if bytes == 0 { return; }
      if file != null {
        file.Write(text[..bytes]);
      }
      ghost var t, k := text[..], bytes;
      if bytes < CHUNK_SIZE {
        text[0] := text[bytes];
        FirstByte(t, k, text[..]);
      }
      bytes := 0;
    }
  }

  // The bits of a chunk are a prefix of the bits of its buffer.
  lemma ChunkPrefix(bs: Bitstream)
    requires bs.Ok()
    ensures 8 * bs.bytes <= |bs.ChunkBits()| <= 8 * |bs.text[..]|
    ensures bs.ChunkBits() == BytesBits(bs.text[..])[..|bs.ChunkBits()|]
  {
  }

  // The chunks and buffers a list of chunks is made of.
  ghost function Objs(cs: seq<Bitstream>): set<object> {
    if cs == [] then {}
    else Objs(cs[..|cs| - 1]) + {cs[|cs| - 1], cs[|cs| - 1].text}
  }

  lemma {:induction false} ObjsTyped(cs: seq<Bitstream>)
    ensures forall o :: o in Objs(cs) ==> o is Bitstream || o is array<byte>
  {
    if cs != [] { ObjsTyped(cs[..|cs| - 1]); }
  }

  // The last chunk of a list, as a C pointer.
  function Last(cs: seq<Bitstream>): Bitstream? {
    if cs == [] then null else cs[|cs| - 1]
  }

  // Consecutive chunks are joined by prev, and no chunk or buffer occurs twice.
  ghost predicate Linked(cs: seq<Bitstream>)
    reads Objs(cs)
  {
    cs == [] ||
    var older, c := cs[..|cs| - 1], cs[|cs| - 1];
    && c.text.Length == CHUNK_SIZE
    && c.prev == Last(older)
    && c !in Objs(older) && c.text !in Objs(older)
    && Linked(older)
  }

  // Well-formed chunks without a file.
  ghost predicate Memory(cs: seq<Bitstream>)
    reads Objs(cs)
  {
    cs == [] ||
    var older, c := cs[..|cs| - 1], cs[|cs| - 1];
    c.Ok() && c.file == null && Memory(older)
  }

  ghost function ChainBits(cs: seq<Bitstream>): seq<bool>
    reads Objs(cs)
    requires Memory(cs)
  {
    if cs == [] then []
    else ChainBits(cs[..|cs| - 1]) + cs[|cs| - 1].ChunkBits()
  }

  // A stream with a file: its flushed bytes, then its one chunk.
  lemma SingleContent(bs: Bitstream)
    requires bs.Valid() && |bs.chain| == 1
    ensures bs.Content() == bs.Flushed() + bs.ChunkBits()
  {
    assert bs.Flushed() + [] == bs.Flushed();
  }

  // Moving the whole bytes of a buffer to the file keeps the bits in order.
  lemma FlushedBits(data: seq<byte>, text: seq<byte>, k: nat, held: seq<bool>)
    requires k <= |text| && 8 * k <= |held| <= 8 * |text|
    requires held == BytesBits(text)[..|held|]
    ensures BytesBits(data + text[..k]) + held[8 * k..] == BytesBits(data) + held
  {
    BytesBitsConcat(data, text[..k]);
    BytesBitsTake(text, k);
    TakeTake(BytesBits(text), |held|, 8 * k);
    SplitAt(held, 8 * k);
    ConcatAssoc(BytesBits(data), held[..8 * k], held[8 * k..]);
  }

  // Copying byte k to the front moves its bits to the front.
  lemma FirstByte(t: seq<byte>, k: nat, t': seq<byte>)
    requires k < |t| && |t'| == |t| && t'[0] == t[k]
    ensures forall b: nat | b <= 8 :: BytesBits(t')[..b] == BytesBits(t)[8 * k..8 * k + b]
  {
    BytesBitsAt(t, k);
    BytesBitsAt(t', 0);
    var u, v := BytesBits(t')[0..8], BytesBits(t)[8 * k..8 * k + 8];
    forall b: nat | b <= 8 ensures BytesBits(t')[..b] == BytesBits(t)[8 * k..8 * k + b] {
      assert BytesBits(t')[..b] == u[..b] && BytesBits(t)[8 * k..8 * k + b] == v[..b];
    }
  }

  // Storing byte k extends the bits before it by that byte's bits.
  lemma StoreByte(t: seq<byte>, k: nat, c: byte)
    requires k < |t|
    ensures BytesBits(t[k := c])[..8 * k + 8] == BytesBits(t)[..8 * k] + BitsOf(8, c)
  {
    var u := t[k := c];
    assert u[..k + 1] == t[..k] + [c];
    BytesBitsTake(u, k + 1);
    BytesBitsTake(t, k);
    BytesBitsSnoc(t[..k], c);
  }

  // What enc_bits makes of a stream's bits c whose last k lie in a partial
  // byte: digits of d at or above n are or-ed into those k bits.
  function Written(c: seq<bool>, k: nat, n: nat, d: nat): seq<bool>
    requires k <= |c|
  {
    if n == 0 then c
    else c[..|c| - k] + BitsOf(k, Or(ValueOf(c[|c| - k..]), Shr(d, n))) + BitsOf(n, d)
  }

  lemma NothingWritten(c: seq<bool>, k: nat, d: nat)
    requires k <= |c|
    ensures Written(c, k, 0, d) == c
  {
  }

  // Every digit of d above its low n that lands on an odd bit lands on one that
  // is already set.
  predicate ExcessCovered(odd: seq<bool>, n: nat, d: nat) {
    forall j :: 0 <= j < |odd| ==> Bit(d, n + |odd| - 1 - j) ==> odd[j]
  }

  lemma OddOr(odd: seq<bool>, n: nat, d: nat, j: nat)
    requires j < |odd|
    ensures BitsOf(|odd|, Or(ValueOf(odd), Shr(d, n)))[j] == (odd[j] || Bit(d, n + |odd| - 1 - j))
  {
    var i: nat := |odd| - 1 - j;
    BitsOfAt(|odd|, Or(ValueOf(odd), Shr(d, n)), j);
    BitOr(ValueOf(odd), Shr(d, n), i);
    BitValueOf(odd, i);
    BitShr(d, n, i);
  }

  lemma OddKept(odd: seq<bool>, n: nat, d: nat)
    ensures BitsOf(|odd|, Or(ValueOf(odd), Shr(d, n))) == odd <==> ExcessCovered(odd, n, d)
  {
    hide BitsOf, Or, Shr, Bit, ValueOf;
    forall j: nat | j < |odd|
      ensures BitsOf(|odd|, Or(ValueOf(odd), Shr(d, n)))[j] == (odd[j] || Bit(d, n + |odd| - 1 - j))
    {
      OddOr(odd, n, d, j);
    }
  }

  // enc_bits appends exactly its n bits if and only if the excess is covered.
  lemma WrittenExactly(c: seq<bool>, k: nat, n: nat, d: nat)
    requires k <= |c| && n > 0
    ensures Written(c, k, n, d) == c + BitsOf(n, d) <==> ExcessCovered(c[|c| - k..], n, d)
  {
    hide BitsOf, Or, Shr, Bit, ValueOf, ExcessCovered;
    var odd := c[|c| - k..];
    SplitAt(c, |c| - k);
    SameMiddle(c[..|c| - k], BitsOf(k, Or(ValueOf(odd), Shr(d, n))), odd, BitsOf(n, d));
    OddKept(odd, n, d);
  }

  lemma SameMiddle<T>(a: seq<T>, x: seq<T>, y: seq<T>, b: seq<T>)
    requires |x| == |y|
    ensures a + x + b == (a + y) + b <==> x == y
  {
    if a + x + b == (a + y) + b {
      assert (a + x + b)[|a|..|a| + |x|] == x;
      assert ((a + y) + b)[|a|..|a| + |x|] == y;
    }
  }

  lemma WrittenSmall(c: seq<bool>, k: nat, n: nat, d: nat)
    requires k <= |c| && d < Pow2(n)
    ensures Written(c, k, n, d) == c + BitsOf(n, d)
  {
    if n > 0 {
      hide Written, BitsOf, Pow2;
      var odd := c[|c| - k..];
      forall j | 0 <= j < k ensures Bit(d, n + k - 1 - j) ==> odd[j] {
        BitBelow(d, n, n + k - 1 - j);
      }
      WrittenExactly(c, k, n, d);
    } else {
      assert c + [] == c;
    }
  }

  // After the high n - 16 digits of d < 2^n, the excess digits of the low word
  // fall on odd bits that hold the same values.
  lemma WrittenLow(c: seq<bool>, k: nat, n: nat, d: nat)
    requires n >= 16 && d < Pow2(n)
    requires k <= |c| + n - 16
    ensures Written(c + BitsOf(n - 16, Shr(d, 16)), k, 16, d) == c + BitsOf(n, d)
  {
    hide BitsOf, Shr, Bit, Written;
    var high := BitsOf(n - 16, Shr(d, 16));
    var c1 := c + high;
    var odd := c1[|c1| - k..];
    forall j | 0 <= j < k ensures Bit(d, 16 + k - 1 - j) ==> odd[j] {
      var i: nat := k - 1 - j;
      if i < n - 16 {
        BitsOfAt(n - 16, Shr(d, 16), n - 17 - i);
        BitShr(d, 16, i);
      } else {
        BitBelow(d, n, 16 + i);
      }
    }
    WrittenExactly(c1, k, 16, d);
    BitsOfSplit(n, 16, d);
    ConcatAssoc(c, high, BitsOf(16, d));
  }

  // The word enc_bits builds: odd bits x, then n digits of d, then padding.
  function Word(x: nat, k: nat, n: nat, d: nat): nat {
    Shl(if k == 0 then d else Or(d, Shl(x, n)), PadTo8(n + k))
  }

  lemma WordBits(x: nat, k: nat, n: nat, d: nat)
    ensures var p := PadTo8(n + k);
            BitsOf(n + k + p, Word(x, k, n, d))[..n + k] == BitsOf(k, Or(x, Shr(d, n))) + BitsOf(n, d)
  {
    hide BitsOf, Or, Shl, Shr, PadTo8;
    var p, b := PadTo8(n + k), if k == 0 then d else Or(d, Shl(x, n));
    BitsOfSplit(n + k + p, p, Shl(b, p));
    ShrShl(b, p);
    BitsOfSplit(n + k, n, b);
    OrAbove(d, x, n);
  }

  // Writing that word after the whole bytes, and dropping the padding.
  lemma WordWritten(base: seq<bool>, odd: seq<bool>, n: nat, d: nat)
    requires n > 0
    ensures var k := |odd|;
            base + BitsOf(n + k + PadTo8(n + k), Word(ValueOf(odd), k, n, d))[..n + k]
            == Written(base + odd, k, n, d)
  {
    var k := |odd|;
    WordBits(ValueOf(odd), k, n, d);
    assert (base + odd)[..|base|] == base && (base + odd)[|base|..] == odd;
    ConcatAssoc(base, BitsOf(k, Or(ValueOf(odd), Shr(d, n))), BitsOf(n, d));
  }

  // The bits of the partial byte.
  ghost function Odd(bs: Bitstream): seq<bool>
    reads bs, bs.text
    requires bs.Ok()
  {
    BytesBits(bs.text[..])[8 * bs.bytes..8 * bs.bytes + bs.bits]
  }

  lemma ContentOdd(bs: Bitstream)
    requires bs.Valid()
    ensures bs.Content() == bs.Upto(8 * bs.bytes) + Odd(bs)
    ensures |Odd(bs)| == bs.bits
    ensures ValueOf(Odd(bs)) == Shr(if bs.bits > 0 then bs.text[bs.bytes] else 0, 8 - bs.bits)
  {
    hide Linked, Memory, ChainBits, Objs, BitsOf;
    var t, m := BytesBits(bs.text[..]), 8 * bs.bytes;
    TakeMore(bs.Before(), t, m, m + bs.bits);
    if bs.bits > 0 {
      BytesBitsAt(bs.text[..], bs.bytes);
      OddBits(bs.text[bs.bytes], bs.bits);
      assert t[m..m + 8][..bs.bits] == t[m..m + bs.bits];
    }
  }

  lemma UptoLess(bs: Bitstream, m: nat, p: nat, base: seq<bool>, word: seq<bool>)
    requires bs.Valid() && p <= m <= 8 * CHUNK_SIZE && p <= |word|
    requires bs.Upto(m) == base + word
    ensures bs.Upto(m - p) == base + word[..|word| - p]
  {
    hide Linked, Memory, ChainBits, Objs, BytesBits;
    var t := BytesBits(bs.text[..]);
    assert bs.Upto(m - p) == (bs.Before() + t[..m])[..|bs.Before()| + m - p];
    assert (base + word)[..|base| + |word| - p] == base + word[..|word| - p];
  }

  // Assemble the odd bits of the partial byte c, then n bits of d, zero padded
  // to the m bits of a whole number of bytes.
  method PackWord(bits: nat, c: byte, n: nat, d: nat) returns (b: nat, m: nat)
    requires bits < 8
    ensures b == Word(Shr(c, 8 - bits), bits, n, d)
    ensures m == n + bits + PadTo8(n + bits)
  {
    hide Shl, Shr, Or, PadTo8;
    b, m := d, n;
    if bits > 0 {
      // The partial byte is the high part of the word so far.
      var r := BYTE_SIZE - bits;
      b := Or(b, Shl(Shr(c, r), m));
      m := m + bits;
    }
    PadIs(m);
    ShlZero(b);
    if m % BYTE_SIZE > 0 {
      // The whole bytes that the loop takes out of b end in zeros.
      var r := BYTE_SIZE - m % BYTE_SIZE;
      b := Shl(b, r);
      m := m + r;
    }
  }

  lemma ContentUpto(bs: Bitstream)
    requires bs.Valid()
    ensures bs.Content() == bs.Upto(8 * bs.bytes + bs.bits)
  {
  }

  lemma OddFits(bs: Bitstream)
    requires bs.Valid()
    ensures bs.bits <= |bs.Content()|
  {
    ContentOdd(bs);
  }

  ghost function LenBits(cs: seq<Bitstream>): nat
    reads Objs(cs)
  {
    if cs == [] then 0
    else LenBits(cs[..|cs| - 1]) + 8 * cs[|cs| - 1].bytes + cs[|cs| - 1].bits
  }

  lemma {:induction false} ChainLength(cs: seq<Bitstream>)
    requires Memory(cs)
    ensures |ChainBits(cs)| == LenBits(cs)
  {
    hide BytesBits;
    if cs != [] { ChainLength(cs[..|cs| - 1]); }
  }

  lemma StreamLength(bs: Bitstream)
    requires bs.Valid()
    ensures |bs.Content()| == |bs.Flushed()| + LenBits(bs.chain)
  {
    ChainLength(bs.Older());
  }

  // What has reached the file is a whole number of bytes.
  lemma FlushedWhole(bs: Bitstream)
    requires bs.Valid()
    ensures |bs.Content()| % 8 == LenBits(bs.chain) % WORD % 8
  {
    hide Bitstream.Content, LenBits, BytesBits;
    StreamLength(bs);
    WordMod(LenBits(bs.chain));
  }

  lemma WordMod(n: nat)
    ensures n % WORD % 8 == n % 8
  {
  }

  lemma WordAdd(n: nat, c: nat, rest: nat)
    ensures ((n + c) % WORD + rest) % WORD == (n + (rest + c)) % WORD
  {
  }

  // The length in bits of what a stream holds in memory, as a C unsigned.
  method LengthBitstream(bs: Bitstream?) returns (n: nat)
    requires bs != null ==> bs.Valid()
    ensures n == if bs == null then 0 else LenBits(bs.chain) % WORD
  {
    n := 0;
    var p := bs;
    ghost var cs := if bs == null then [] else bs.chain;
    while p != null
      invariant Linked(cs) && p == Last(cs)
      invariant n < WORD
      invariant bs == null ==> n == 0 && cs == []
      invariant bs != null ==> (n + LenBits(cs)) % WORD == LenBits(bs.chain) % WORD
      decreases |cs|
    {
      WordAdd(n, 8 * p.bytes + p.bits, LenBits(cs[..|cs| - 1]));
      n := (n + BYTE_SIZE * p.bytes + p.bits) % WORD;
      p := p.prev;
      cs := cs[..|cs| - 1];
    }
  }

  // Like Linked, but the oldest chunk leads to p.
  ghost predicate LinkedTo(cs: seq<Bitstream>, p: Bitstream?)
    reads Objs(cs)
  {
    cs == [] ||
    var older, c := cs[..|cs| - 1], cs[|cs| - 1];
    && c.text.Length == CHUNK_SIZE
    && c.prev == (if older == [] then p else Last(older))
    && c !in Objs(older) && c.text !in Objs(older)
    && LinkedTo(older, p)
  }

  // No chunk or buffer occurs twice.
  ghost predicate Distinct(cs: seq<Bitstream>) {
    cs == [] ||
    var older, c := cs[..|cs| - 1], cs[|cs| - 1];
    c.text.Length == CHUNK_SIZE && c !in Objs(older) && c.text !in Objs(older) && Distinct(older)
  }

  function PrevOf(cs: seq<Bitstream>, i: nat, p: Bitstream?): Bitstream?
    requires i < |cs|
  {
    if i == 0 then p else cs[i - 1]
  }

  lemma {:induction false} LinkedParts(cs: seq<Bitstream>)
    requires Linked(cs)
    ensures Distinct(cs)
    ensures forall i :: 0 <= i < |cs| ==> cs[i].prev == PrevOf(cs, i, null)
    decreases |cs|
  {
    if cs != [] {
      var older := cs[..|cs| - 1];
      LinkedParts(older);
      forall i | 0 <= i < |cs| ensures cs[i].prev == PrevOf(cs, i, null) {
        if i < |older| { assert older[i].prev == PrevOf(older, i, null); }
      }
    }
  }

  lemma {:induction false} Relinked(cs: seq<Bitstream>, p: Bitstream?)
    requires Distinct(cs)
    requires forall i :: 0 <= i < |cs| ==> cs[i].prev == PrevOf(cs, i, p)
    ensures LinkedTo(cs, p)
    decreases |cs|
  {
    if cs != [] {
      var older := cs[..|cs| - 1];
      forall i | 0 <= i < |older| ensures older[i].prev == PrevOf(older, i, p) {
        assert cs[i].prev == PrevOf(cs, i, p);
      }
      Relinked(older, p);
      assert cs[|older|].prev == PrevOf(cs, |older|, p);
    }
  }

  // The bits of a list do not depend on its links.
  twostate lemma {:induction false} BitsKept(cs: seq<Bitstream>)
    requires old(Memory(cs))
    requires forall i :: 0 <= i < |cs| ==>
               && cs[i].bytes == old(cs[i].bytes) && cs[i].bits == old(cs[i].bits)
               && cs[i].file == old(cs[i].file) && cs[i].text[..] == old(cs[i].text[..])
    ensures Memory(cs) && ChainBits(cs) == old(ChainBits(cs))
    decreases |cs|
  {
    hide BytesBits;
    if cs != [] {
      BitsKept(cs[..|cs| - 1]);
    }
  }

  lemma {:induction false} ObjsConcat(a: seq<Bitstream>, b: seq<Bitstream>)
    ensures Objs(a + b) == Objs(a) + Objs(b)
    decreases |b|
  {
    if b == [] {
      assert a + b == a;
    } else {
      assert (a + b)[..|a + b| - 1] == a + b[..|b| - 1];
      ObjsConcat(a, b[..|b| - 1]);
    }
  }

  lemma {:induction false} LinkedConcat(a: seq<Bitstream>, b: seq<Bitstream>)
    requires Linked(a) && LinkedTo(b, Last(a)) && Objs(a) !! Objs(b)
    ensures Linked(a + b)
    decreases |b|
  {
    if b == [] {
      assert a + b == a;
    } else {
      var older := b[..|b| - 1];
      assert (a + b)[..|a + b| - 1] == a + older;
      LinkedConcat(a, older);
      ObjsConcat(a, older);
    }
  }

  lemma {:induction false} BitsConcat(a: seq<Bitstream>, b: seq<Bitstream>)
    requires Memory(a) && Memory(b)
    ensures Memory(a + b) && ChainBits(a + b) == ChainBits(a) + ChainBits(b)
    decreases |b|
  {
    hide BytesBits;
    if b == [] {
      assert a + b == a;
    } else {
      var older := b[..|b| - 1];
      assert (a + b)[..|a + b| - 1] == a + older;
      BitsConcat(a, older);
      ConcatAssoc(ChainBits(a), ChainBits(older), b[|b| - 1].ChunkBits());
    }
  }

  lemma {:induction false} ChunkInObjs(cs: seq<Bitstream>, i: nat)
    requires i < |cs|
    ensures cs[i] in Objs(cs) && cs[i].text in Objs(cs)
    decreases |cs|
  {
    if i < |cs| - 1 { ChunkInObjs(cs[..|cs| - 1], i); }
  }

  lemma {:induction false} ChunksDiffer(cs: seq<Bitstream>, i: nat, j: nat)
    requires Linked(cs) && i < j < |cs|
    ensures cs[i] != cs[j]
    decreases |cs|
  {
    if j < |cs| - 1 { ChunksDiffer(cs[..|cs| - 1], i, j); } else { ChunkInObjs(cs[..|cs| - 1], i); }
  }

  // An emptied stream whose length is a multiple of 8 is all in its file.
  lemma Aligned(bs: Bitstream)
    requires bs.Valid() && bs.file != null && bs.bytes == 0 && |bs.Content()| % 8 == 0
    ensures BytesBits(bs.file.data) == bs.Content()
  {
    hide BytesBits;
    StreamLength(bs);
    assert bs.Older() == [];
    assert LenBits(bs.chain) == bs.bits;
    assert BytesBits(bs.file.data) + [] + [] == BytesBits(bs.file.data);
  }

  // A chunk's bits are its whole bytes and then its odd bits.
  lemma ChunkParts(bs: Bitstream)
    requires bs.Ok()
    ensures bs.bits == 0 ==> bs.ChunkBits() == BytesBits(bs.text[..bs.bytes])
    ensures bs.bits > 0 ==>
              var d := Shr(bs.text[bs.bytes], 8 - bs.bits);
              && d < Pow2(bs.bits)
              && bs.ChunkBits() == BytesBits(bs.text[..bs.bytes]) + BitsOf(bs.bits, d)
  {
    hide BytesBits, BitsOf;
    BytesBitsTake(bs.text[..], bs.bytes);
    assert bs.text[..][..bs.bytes] == bs.text[..bs.bytes];
    if bs.bits > 0 {
      BytesBitsAt(bs.text[..], bs.bytes);
      OddBits(bs.text[bs.bytes], bs.bits);
      ByteBound(bs.text[bs.bytes]);
      ShrBelow(bs.text[bs.bytes], 8, 8 - bs.bits);
      SliceTake(BytesBits(bs.text[..]), 8 * bs.bytes, 8, bs.bits);
    }
  }

  lemma EmptyContent(bs: Bitstream)
    requires bs.Valid() && bs.file != null && bs.bytes == 0 && bs.bits == 0
    ensures bs.Content() == BytesBits(bs.file.data)
  {
    hide BytesBits;
    assert bs.Older() == [];
    assert BytesBits(bs.file.data) + [] + [] == BytesBits(bs.file.data);
  }

  // A stream without a file is its chunks.
  lemma WholeChain(bs: Bitstream)
    requires bs.Valid() && bs.file == null
    ensures Memory(bs.chain) && bs.Content() == ChainBits(bs.chain) && bs == Last(bs.chain)
  {
    hide BytesBits;
    ConcatAssoc([], ChainBits(bs.Older()), bs.ChunkBits());
  }

  lemma OneChunk(bs: Bitstream)
    requires bs.Valid() && bs.file == null && bs.prev == null
    ensures bs.chain == [bs] && bs.Content() == bs.ChunkBits()
  {
    hide BytesBits;
    assert bs.Older() == [];
  }

  // A file is neither a chunk nor a buffer.
  lemma FileOutside(f: File, bs: Bitstream)
    requires bs.Valid()
    ensures f !in bs.repr
  {
    ObjsTyped(bs.chain);
  }

  // Follow prev to the oldest chunk.
  method Oldest(bs: Bitstream) returns (ps: Bitstream)
    requires bs.Valid()
    ensures ps == bs.chain[0]
  {
    hide Memory, BytesBits;
    ps := bs;
    ghost var cs := bs.chain;
    while ps.prev != null
      invariant cs != [] && Linked(cs) && ps == Last(cs) && cs[0] == bs.chain[0]
      decreases |cs|
    {
      ps := ps.prev;
      cs := cs[..|cs| - 1];
    }
  }

  ghost function Tail(cs: seq<Bitstream>): Bitstream
    requires cs != []
  {
    cs[0]
  }

  // Make the oldest chunk of a stream lead to p.
  method LinkTail(bs: Bitstream, p: Bitstream?)
    requires bs.Valid()
    modifies Tail(bs.chain)`prev
    ensures LinkedTo(bs.chain, p)
    ensures old(bs.file) == null ==> Memory(bs.chain) && ChainBits(bs.chain) == old(bs.Content())
  {
    hide BytesBits;
    ghost var cs := bs.chain;
    LinkedParts(cs);
    if bs.file == null {
      assert ChainBits(cs) == bs.Content() by { ConcatAssoc([], ChainBits(bs.Older()), bs.ChunkBits()); }
    }
    var ps := Oldest(bs);
    assert forall i :: 1 <= i < |cs| ==> cs[i] != cs[0] by {
      forall i | 1 <= i < |cs| ensures cs[i] != cs[0] { ChunksDiffer(cs, 0, i); }
    }
    ps.prev := p;
    Relinked(cs, p);
    if bs.file == null {
      BitsKept(cs);
    }
  }

  // The state of the library: the list of chunks that may be reissued.
  class Library {
    var freeBitstreams: Bitstream?
    // The free list from its tail to its head, and its footprint.
    ghost var free: seq<Bitstream>
    ghost var freeRepr: set<object>

    ghost predicate Valid()
      reads this, freeRepr
    {
      && this !in freeRepr && freeRepr == Objs(free)
      && Linked(free) && freeBitstreams == Last(free)
      && (freeBitstreams != null ==> freeBitstreams in freeRepr)
    }

    constructor ()
      ensures Valid() && free == []
    {
      freeBitstreams := null;
      free, freeRepr := [], {};
    }

    // The library and one of its live streams.
    ghost predicate Live(bs: Bitstream)
      reads this, freeRepr, bs, bs.repr
    {
      Valid() && bs.Valid() && bs in bs.repr && bs.repr !! freeRepr && this !in bs.repr
    }

    // What every writer keeps: the stream stays live, and takes new chunks only
    // from the free list or from fresh memory.
    twostate predicate Grown(bs: Bitstream, new r: Bitstream)
      reads this, freeRepr, bs, r, r.repr
    {
      && Live(r)
      && freeRepr <= old(freeRepr)
      && fresh(r.repr - old(bs.repr) - old(freeRepr))
      && r.file == old(bs.file)
      && (old(bs.file) != null ==> r == bs && r.repr == old(bs.repr) && free == old(free))
    }

    // What joining keeps: chunks of the second stream may be freed as well.
    twostate predicate Joined(fs: Bitstream, bs: Bitstream, new r: Bitstream)
      reads this, freeRepr, fs, bs, r, r.repr
    {
      && Live(r)
      && freeRepr <= old(freeRepr) + old(bs.repr)
      && fresh(r.repr - old(fs.repr) - old(bs.repr) - old(freeRepr))
      && r.file == old(fs.file)
      && (old(fs.file) != null ==> r == fs && r.repr == old(fs.repr))
    }

    method StartBitstream(f: File?) returns (bs: Bitstream)
      requires Valid()
      modifies this, freeBitstreams
      ensures Live(bs)
      ensures bs.chain == [bs] && bs.repr == {bs, bs.text}
      ensures bs.file == f && bs.bytes == 0 && bs.bits == 0 && bs.size == 0 && bs.base == 0
      ensures if old(free) == [] then free == [] && fresh(bs) && fresh(bs.text)
              else free == old(free)[..|old(free)| - 1] && bs == old(free)[|old(free)| - 1]
                   && old(freeRepr) == freeRepr + bs.repr
      ensures bs.Content() == bs.Flushed()
    {
      if freeBitstreams != null {
        bs := freeBitstreams;
        freeBitstreams := bs.prev;
        free := free[..|free| - 1];
        freeRepr := freeRepr - {bs, bs.text};
      } else {
        bs := new Bitstream();
      }
      bs.Reset(f);
    }

    // Make room for another byte when the newest chunk is full.
    method ExtendBitstream(bs: Bitstream) returns (r: Bitstream)
      requires Live(bs)
      modifies this, freeRepr, bs.repr, bs.file
      ensures Grown(bs, r)
      ensures r.bytes == 0 && r.bits == 0
      ensures r.Upto(0) == old(bs.Upto(8 * CHUNK_SIZE))
    {
      hide Linked, Memory, ChainBits, Objs, BytesBits;
      bs.SetEnd(CHUNK_SIZE, 0);
      if bs.file != null {
        FlushChunk(bs);
        r := bs;
      } else {
        r := LinkChunk(bs);
      }
    }

    // Store one byte at offset k of the newest chunk, or in a new chunk.
    method PutByte(bs: Bitstream, k: nat, c: byte) returns (r: Bitstream, k': nat)
      requires Live(bs) && k <= CHUNK_SIZE
      modifies this, freeRepr, bs.repr, bs.file
      ensures Grown(bs, r)
      ensures 1 <= k' <= CHUNK_SIZE
      ensures r.Upto(8 * k') == old(bs.Upto(8 * k)) + BitsOf(8, c)
    {
      hide Linked, Memory, ChainBits, Objs, BytesBits;
      r, k' := bs, k;
      if k' >= CHUNK_SIZE {
        r := ExtendBitstream(r);
        k' := 0;
      }
      r.Store(k', c);
      k' := k' + 1;
    }

    // Output the low total bits of b, a whole number of bytes.
    method PutWord(bs: Bitstream, k: nat, total: nat, b: nat) returns (r: Bitstream, bytes: nat)
      requires Live(bs) && k <= CHUNK_SIZE && total % 8 == 0
      modifies this, freeRepr, bs.repr, bs.file
      ensures Grown(bs, r)
      ensures bytes <= CHUNK_SIZE && (total > 0 ==> bytes > 0)
      ensures r.Upto(8 * bytes) == old(bs.Upto(8 * k)) + BitsOf(total, b)
    {
      hide Linked, Memory, ChainBits, Objs, BytesBits, BitsOf, Shl, Shr, Or, And;
      r, bytes := bs, k;
      ghost var base, word := bs.Upto(8 * k), BitsOf(total, b);
      var n: nat := total;
      while n > 0
        invariant n <= total && n % 8 == 0
        invariant Grown(bs, r) && bytes <= CHUNK_SIZE && (n < total ==> bytes > 0)
        invariant r.Upto(8 * bytes) == base + word[..total - n]
      {
        n := n - BYTE_SIZE;
        ByteOfWord(b, n, total);
        r, bytes := PutByte(r, bytes, And(Shr(b, n), BYTE_MASK));
        TakeMore(base, word, total - n - 8, total - n);
      }
    }

    // The bits of d, n of them, come behind the stream's.
    method EncBits(bs: Bitstream, n: nat, d: nat) returns (r: Bitstream)
      requires Live(bs) && n <= 16
      modifies this, freeRepr, bs.repr, bs.file
      ensures Grown(bs, r)
      ensures r.Content() == Written(old(bs.Content()), old(bs.bits), n, d)
      ensures d < Pow2(n) ==> r.Content() == old(bs.Content()) + BitsOf(n, d)
      ensures r.bits == (old(bs.bits) + n) % 8
    {
      hide Linked, Memory, ChainBits, Objs, BytesBits, BitsOf, Written, Pow2, Bitstream.Upto, Bitstream.Content;
      ContentOdd(bs);
      ghost var c, k := bs.Content(), bs.bits;
      if n == 0 {
        NothingWritten(c, k, d);
        r := bs;
      } else {
        r := EncNonempty(bs, n, d);
      }
      if d < Pow2(n) { WrittenSmall(c, k, n, d); }
    }

    method EncNonempty(bs: Bitstream, n: nat, d: nat) returns (r: Bitstream)
      requires Live(bs) && 0 < n <= 16
      modifies this, freeRepr, bs.repr, bs.file
      ensures Grown(bs, r)
      ensures r.Content() == Written(old(bs.Content()), old(bs.bits), n, d)
      ensures r.bits == (old(bs.bits) + n) % 8
    {
      hide Linked, Memory, ChainBits, Objs, BytesBits, BitsOf, Shl, Shr, Or, And, ValueOf, PadTo8, Word, Odd, Written,
           Bitstream.Upto, Bitstream.Content;
      ContentOdd(bs);
      var bytes := bs.bytes;
      ghost var base, odd, k := bs.Upto(8 * bytes), Odd(bs), bs.bits;
      WordWritten(base, odd, n, d);
      var b, m := PackWord(bs.bits, if bs.bits > 0 then bs.text[bytes] else 0, n, d);
      var bits := (n + bs.bits) % BYTE_SIZE;
      PadIs(n + k);
      r, bytes := PutWord(bs, bytes, m, b);
      UptoLess(r, 8 * bytes, PadTo8(n + k), base, BitsOf(m, b));
      if bits > 0 {
        bytes := bytes - 1;
      }
      r.SetEnd(bytes, bits);
    }

    // Add n <= 32 bits.  The second call passes all of d: its excess digits
    // meet odd bits the first call has just written.
    method EncLongBits(bs: Bitstream, n: nat, d: nat) returns (r: Bitstream)
      requires Live(bs) && n <= 32 && d < Pow2(n)
      modifies this, freeRepr, bs.repr, bs.file
      ensures Grown(bs, r)
      ensures r.Content() == old(bs.Content()) + BitsOf(n, d)
      ensures r.bits == (old(bs.bits) + n) % 8
    {
      hide Linked, Memory, ChainBits, Objs, BytesBits, BitsOf, Written, Pow2, Shr,
           Bitstream.Upto, Bitstream.Content;
      ghost var c := bs.Content();
      r := bs;
      if n > 16 {
        ShrBelow(d, n, 16);
        r := EncBits(r, n - 16, Shr(d, 16));
        OddFits(r);
        WrittenLow(c, r.bits, n, d);
        r := EncBits(r, 16, d);
      } else {
        r := EncBits(r, n, d);
      }
    }

    // Add a sequence of bytes, one by one or, when aligned, straight into text.
    method EncBytes(bs: Bitstream, s: seq<byte>) returns (r: Bitstream)
      requires Live(bs)
      modifies this, freeRepr, bs.repr, bs.file
      ensures Grown(bs, r)
      ensures r.Content() == old(bs.Content()) + BytesBits(s)
      ensures r.bits == old(bs.bits)
    {
      hide Linked, Memory, ChainBits, Objs, BytesBits, BitsOf, Written, Pow2,
           Bitstream.Upto, Bitstream.Content;
      ghost var c := bs.Content();
      r := bs;
      var i := 0;
      NoBytes(c);
      if bs.bits > 0 {
        while i < |s|
          invariant i <= |s| && Grown(bs, r) && r.bits == old(bs.bits)
          invariant r.Content() == c + BytesBits(s[..i])
        {
          ByteBound(s[i]);
          r := EncBits(r, BYTE_SIZE, s[i]);
          BytesBitsNext(c, s, i);
          i := i + 1;
        }
      } else {
        var bytes: nat := bs.bytes;
        ContentUpto(bs);
        while i < |s|
          invariant i <= |s| && Grown(bs, r) && bytes <= CHUNK_SIZE
          invariant r.Upto(8 * bytes) == c + BytesBits(s[..i])
        {
          r, bytes := PutByte(r, bytes, s[i]);
          BytesBitsNext(c, s, i);
          i := i + 1;
        }
        r.SetEnd(bytes, 0);
      }
      assert s[..i] == s;
    }

    // Pad the stream with zero bits to a whole number of bytes.
    method EncBoundary(bs: Bitstream) returns (r: Bitstream)
      requires Live(bs)
      modifies this, freeRepr, bs.repr, bs.file
      ensures Grown(bs, r)
      ensures r.Content() == old(bs.Content()) + Zeros(PadTo8(|old(bs.Content())|))
    {
      hide Linked, Memory, ChainBits, Objs, BytesBits, BitsOf, Written, Pow2,
           Bitstream.Upto, Bitstream.Content;
      ghost var c := bs.Content();
      var n := LengthBitstream(bs);
      FlushedWhole(bs);
      PadIs(|c|);
      r := bs;
      if n % BYTE_SIZE > 0 {
        ZeroBelow(BYTE_SIZE - n % BYTE_SIZE);
        r := EncBits(bs, BYTE_SIZE - n % BYTE_SIZE, 0);
      } else {
        assert c + Zeros(0) == c;
      }
    }

    // Add d in the extended encoding as n-bit packets.
    method EncExtn(bs: Bitstream, n: nat, d: nat) returns (r: Bitstream)
      requires Live(bs) && 1 <= n <= 16 && d >= 1
      modifies this, freeRepr, bs.repr, bs.file
      ensures Grown(bs, r)
      ensures r.Content() == old(bs.Content()) + ExtnBits(n, d)
    {
      hide Linked, Memory, ChainBits, Objs, BytesBits, BitsOf, Written, ExtnBits, Pow2,
           Bitstream.Upto, Bitstream.Content;
      ghost var c, done := bs.Content(), [];
      r := bs;
      var e, rest := Pow2(n) - 1, d;
      PowTwice(n);
      assert c + [] == c;
      while rest > e
        invariant 1 <= rest && Grown(bs, r)
        invariant r.Content() == c + done
        invariant done + ExtnBits(n, rest) == ExtnBits(n, d)
      {
        // Each packet of zeros stands for e.
        ZeroBelow(n);
        r := EncBits(r, n, 0);
        ExtnUnfold(n, rest);
        ConcatAssoc(c, done, Zeros(n));
        ConcatAssoc(done, Zeros(n), ExtnBits(n, rest - e));
        done := done + Zeros(n);
        rest := rest - e;
      }
      // The last packet is what is left of d, and not zero.
      ExtnUnfold(n, rest);
      r := EncBits(r, n, rest);
      ConcatAssoc(c, done, BitsOf(n, rest));
    }

    method EncIntAux(bs: Bitstream, n: nat) returns (r: Bitstream)
      requires Live(bs)
      modifies this, freeRepr, bs.repr, bs.file
      ensures Grown(bs, r)
      ensures r.Content() == old(bs.Content()) + OctalBits(n)
      decreases n
    {
      hide Linked, Memory, ChainBits, Objs, BytesBits, BitsOf, Written, Pow2,
           Bitstream.Upto, Bitstream.Content;
      ghost var c, high := bs.Content(), if n >= 8 then OctalBits(n / 8) else [];
      r := bs;
      assert c + [] == c;
      if n >= 8 {
        r := EncIntAux(r, n / 8);
      }
      DigitBelow(n % 8);
      r := EncBits(r, 4, n % 8);
      ConcatAssoc(c, high, BitsOf(4, n % 8));
    }

    // Add n as octal digits, the last one marked by a set bit.
    method EncInt(bs: Bitstream, n: nat) returns (r: Bitstream)
      requires Live(bs)
      modifies this, freeRepr, bs.repr, bs.file
      ensures Grown(bs, r)
      ensures r.Content() == old(bs.Content()) + IntBits(n)
    {
      hide Linked, Memory, ChainBits, Objs, BytesBits, BitsOf, Written, Pow2, OctalBits,
           Bitstream.Upto, Bitstream.Content;
      ghost var c, high := bs.Content(), if n >= 8 then OctalBits(n / 8) else [];
      r := bs;
      assert c + [] == c;
      if n >= 8 {
        r := EncIntAux(r, n / 8);
      }
      DigitBelow(n % 8 + 8);
      r := EncBits(r, 4, n % 8 + 8);
      ConcatAssoc(c, high, BitsOf(4, n % 8 + 8));
    }

    // Free a stream; if w, first align it and empty its buffer into its file.
    method EndBitstream(bs: Bitstream, w: bool)
      requires Live(bs)
      modifies this, freeRepr, bs.repr, bs.file
      ensures Valid()
      ensures free == old(free) + old(bs.chain) && freeRepr == old(freeRepr) + old(bs.repr)
      ensures old(bs.file) != null ==>
                BytesBits(old(bs.file).data) ==
                if w then old(bs.Content()) + Zeros(PadTo8(|old(bs.Content())|)) else old(bs.Flushed())
    {
      hide Linked, Memory, ChainBits, Objs, BytesBits, Zeros, PadTo8;
      ObjsTyped(bs.chain);
      var ps := bs;
      if w && ps.file != null {
        ps := WriteOut(bs);
      }
      Release(ps);
    }

    // Put the chunks of a stream in front of the free list.
    method Release(bs: Bitstream)
      requires Live(bs)
      modifies this, bs.repr
      ensures Valid()
      ensures free == old(free) + old(bs.chain) && freeRepr == old(freeRepr) + old(bs.repr)
    {
      hide Memory, ChainBits, BytesBits, Bitstream.Content, Bitstream.ChunkBits, LinkedTo;
      ghost var cs := bs.chain;
      ChunkInObjs(cs, 0);
      ObjsConcat(free, cs);
      LinkTail(bs, freeBitstreams);
      LinkedConcat(free, cs);
      free, freeRepr := free + cs, freeRepr + bs.repr;
      freeBitstreams := bs;
    }

    // Align a stream with a file and empty its buffer into the file.
    method WriteOut(bs: Bitstream) returns (r: Bitstream)
      requires Live(bs) && bs.file != null
      modifies this, freeRepr, bs.repr, bs.file
      ensures r == bs && Live(bs) && bs.repr == old(bs.repr) && bs.file == old(bs.file)
      ensures free == old(free)
      ensures BytesBits(bs.file.data) == old(bs.Content()) + Zeros(PadTo8(|old(bs.Content())|))
    {
      hide Linked, Memory, ChainBits, Objs, BytesBits, Zeros, PadTo8;
      ghost var c := bs.Content();
      r := EncBoundary(bs);
      PadIs(|c|);
      FlushChunk(r);
      Aligned(r);
    }

    // Put the bits of one chunk behind the stream fs.
    method CopyBitstream(fs: Bitstream, bs: Bitstream) returns (r: Bitstream)
      requires Live(fs) && Outside(bs, fs)
      modifies this, freeRepr, fs.repr, fs.file
      ensures Grown(fs, r)
      ensures r.Content() == old(fs.Content()) + old(bs.ChunkBits())
    {
      hide Linked, Memory, ChainBits, Objs, BytesBits, BitsOf, Pow2, Shr, Written,
           Bitstream.Upto, Bitstream.Content, Bitstream.ChunkBits;
      ghost var c := fs.Content();
      r := fs;
      ChunkParts(bs);
      NoBytes(c);
      assert c + [] == c;
      if bs.bytes > 0 {
        // The text is whole bytes.
        r := EncBytes(r, bs.text[..bs.bytes]);
      }
      // The partial byte gives the rest of the content.
      if bs.bits > 0 {
        var d := Shr(bs.text[bs.bytes], BYTE_SIZE - bs.bits);
        r := EncBits(r, bs.bits, d);
        ConcatAssoc(c, BytesBits(bs.text[..bs.bytes]), BitsOf(bs.bits, d));
      }
    }

    // A chunk that is neither free nor part of the stream fs.
    ghost predicate Outside(bs: Bitstream, fs: Bitstream)
      reads this, fs, bs
    {
      bs.Ok() && bs !in fs.repr + freeRepr && bs.text !in fs.repr + freeRepr
    }

    // Write the whole bytes of the chunk bs straight to the file of fs.
    method DumpBehind(fs: Bitstream, bs: Bitstream)
      requires Live(fs) && Outside(bs, fs) && fs.file != null && fs.bits == 0 && bs.file == null
      modifies fs`bytes, fs.text, fs.file, bs`bytes, bs`file, bs.text
      ensures Live(fs) && Outside(bs, fs) && fs.bits == 0 && bs.file == null
      ensures fs.Content() + bs.ChunkBits() == old(fs.Content()) + old(bs.ChunkBits())
    {
      hide Linked, Memory, ChainBits, Objs, BytesBits, Bitstream.ChunkBits, Bitstream.Content;
      FileApart(fs);
      ChunkPrefix(bs);
      ghost var t, k, held := bs.text[..], bs.bytes, bs.ChunkBits();
      if fs.bytes > 0 {
        FlushChunk(fs);
      }
      ghost var data := fs.file.data;
      EmptyContent(fs);
      bs.DumpTo(fs.file);
      EmptyContent(fs);
      FlushedBits(data, t, k, held);
    }

    // Append one chunk to a stream with a file: dump what can be dumped, copy
    // the rest.
    method MoveChunk(fs: Bitstream, bs: Bitstream) returns (r: Bitstream)
      requires Live(fs) && Outside(bs, fs) && fs.file != null && bs.file == null
      modifies this, freeRepr, fs.repr, fs.file, bs, bs.text
      ensures Grown(fs, r) && Outside(bs, r)
      ensures bs.prev == old(bs.prev) && bs.file == null
      ensures r.Content() == old(fs.Content()) + old(bs.ChunkBits())
    {
      hide Linked, Memory, ChainBits, Objs, BytesBits, Bitstream.ChunkBits, Bitstream.Content;
      if fs.bits == 0 && bs.bytes > 0 {
        DumpBehind(fs, bs);
      }
      r := CopyBitstream(fs, bs);
    }

    // Append the chunks cs of a stream, newest chunk bs, to a stream with a
    // file.  The oldest chunk is freed, the others are dropped.
    method JoinFile(fs: Bitstream, bs: Bitstream, ghost cs: seq<Bitstream>) returns (r: Bitstream)
      requires Live(fs) && fs.file != null
      requires Linked(cs) && Memory(cs) && cs != [] && bs == Last(cs)
      requires Objs(cs) !! fs.repr + freeRepr && this !in Objs(cs) && fs.file !in Objs(cs)
      modifies this, freeRepr, fs.repr, fs.file, Objs(cs)
      ensures Live(r) && r == fs && r.repr == old(fs.repr) && r.file == old(fs.file)
      ensures freeRepr <= old(freeRepr) + Objs(cs)
      ensures r.Content() == old(fs.Content()) + old(ChainBits(cs))
      decreases |cs|
    {
      hide BytesBits, Bitstream.ChunkBits, Bitstream.Content;
      ghost var older, c := cs[..|cs| - 1], fs.Content();
      ghost var oldBits, newBits := ChainBits(older), bs.ChunkBits();
      var ps := bs.prev;
      r := fs;
      assert c + [] == c;
      if ps != null {
        r := JoinFile(r, ps, older);
      }
      r := MoveChunk(r, bs);
      ConcatAssoc(c, oldBits, newBits);
      if ps == null {
        DropChunk(r, bs);
      }
    }

    // The bits of a stream that may be the null pointer.
    ghost function BitsIn(bs: Bitstream?): seq<bool>
      reads bs, if bs == null then {} else bs.repr, if bs == null then null else bs.file
      requires bs != null ==> bs.Valid()
    {
      if bs == null then [] else bs.Content()
    }

    // Put bs behind fs; either may be null.
    method JoinBitstreams(fs: Bitstream?, bs: Bitstream?) returns (r: Bitstream?)
      requires Valid()
      requires fs != null ==> Live(fs)
      requires bs != null ==> Live(bs) && bs.file == null
      requires fs != null && bs != null ==> fs.repr !! bs.repr
      modifies this, freeRepr, if fs == null then {} else fs.repr, if bs == null then {} else bs.repr,
               if fs == null then null else fs.file
      ensures bs == null ==> r == fs
      ensures fs == null ==> r == bs
      ensures fs != null && bs != null ==> r != null && Joined(fs, bs, r)
      ensures r != null ==> Live(r)
      ensures BitsIn(r) == old(BitsIn(fs)) + old(BitsIn(bs))
    {
      hide Linked, Memory, ChainBits, Objs, BytesBits, Bitstream.ChunkBits, Bitstream.Content;
      if bs == null {
        assert BitsIn(fs) + [] == BitsIn(fs);
        return fs;
      }
      if fs == null {
        assert [] + BitsIn(bs) == BitsIn(bs);
        return bs;
      }
      r := JoinStreams(fs, bs);
    }

    // Put ps behind bs, with its length in between.
    method EncBitstream(bs: Bitstream, ps: Bitstream) returns (r: Bitstream)
      requires Live(bs) && Live(ps) && bs.repr !! ps.repr && ps.file == null
      modifies this, freeRepr, bs.repr, ps.repr, bs.file
      ensures Joined(bs, ps, r)
      ensures var body := old(ps.Content());
              r.Content() == old(bs.Content()) + (IntBits(|body| % WORD) + body)
    {
      hide Linked, Memory, ChainBits, Objs, BytesBits, IntBits, Bitstream.ChunkBits, Bitstream.Content;
      ghost var c, body := bs.Content(), ps.Content();
      StreamLength(ps);
      if bs.file != null { FileOutside(bs.file, ps); }
      var n := LengthBitstream(ps);
      r := EncInt(bs, n);
      r := JoinStreams(r, ps);
      ConcatAssoc(c, IntBits(n), body);
    }

    // Both streams exist, and bs has no file: write it to the file of fs, copy it
    // if it is small, or link it.
    method JoinStreams(fs: Bitstream, bs: Bitstream) returns (r: Bitstream)
      requires Live(fs) && Live(bs) && fs.repr !! bs.repr && bs.file == null
      modifies this, freeRepr, fs.repr, bs.repr, fs.file
      ensures Joined(fs, bs, r)
      ensures r.Content() == old(fs.Content()) + old(bs.Content())
    {
      hide Linked, Memory, ChainBits, Objs, BytesBits, Bitstream.ChunkBits, Bitstream.Content;
      WholeChain(bs);
      if fs.file != null {
        FileOutside(fs.file, bs);
        r := JoinFile(fs, bs, bs.chain);
      } else if bs.prev == null && bs.bytes < CHUNK_COPY {
        r := JoinCopy(fs, bs);
      } else {
        r := JoinLink(fs, bs);
      }
    }

    // Copy a stream of one chunk to the end of fs and free it.
    method JoinCopy(fs: Bitstream, bs: Bitstream) returns (r: Bitstream)
      requires Live(fs) && Live(bs) && fs.repr !! bs.repr
      requires fs.file == null && bs.file == null && bs.prev == null
      modifies this, freeRepr, fs.repr, bs.repr
      ensures Joined(fs, bs, r)
      ensures r.Content() == old(fs.Content()) + old(bs.Content())
    {
      hide Linked, Memory, ChainBits, Objs, BytesBits, Bitstream.ChunkBits, Bitstream.Content;
      OneChunk(bs);
      ghost var was := bs.repr;
      r := CopyBitstream(fs, bs);
      EndBitstream(bs, false);
    }

    // Make the oldest chunk of bs lead to fs.
    method JoinLink(fs: Bitstream, bs: Bitstream) returns (r: Bitstream)
      requires Live(fs) && Live(bs) && fs.repr !! bs.repr
      requires fs.file == null && bs.file == null
      modifies bs.repr
      ensures Joined(fs, bs, r)
      ensures r.Content() == old(fs.Content()) + old(bs.Content())
    {
      hide BytesBits, Bitstream.ChunkBits, Bitstream.Content, Linked, LinkedTo, Memory, ChainBits;
      ghost var a, b := fs.chain, bs.chain;
      WholeChain(fs);
      WholeChain(bs);
      ChunkInObjs(b, 0);
      LinkTail(bs, fs);
      LinkedConcat(a, b);
      ObjsConcat(a, b);
      BitsConcat(a, b);
      bs.Adopt(a + b);
      r := bs;
    }

    // Free a chunk without a predecessor; the stream fs keeps its bits.
    method DropChunk(fs: Bitstream, bs: Bitstream)
      requires Live(fs) && Outside(bs, fs) && fs.file != null
      requires bs.prev == null && bs.file == null
      modifies this, freeRepr, bs, bs.text
      ensures Live(fs) && freeRepr == old(freeRepr) + {bs, bs.text}
      ensures fs.Content() == old(fs.Content())
    {
      hide ChainBits, BytesBits;
      FileApart(fs);
      bs.chain, bs.repr := [bs], {bs, bs.text};
      EndBitstream(bs, false);
    }

    lemma FileApart(fs: Bitstream)
      requires Live(fs) && fs.file != null
      ensures fs.file !in freeRepr && fs.file !in fs.repr
    {
      ObjsTyped(free);
      ObjsTyped(fs.chain);
    }

    // Dump a stream with a file: the same bits, fewer of them in the buffer.
    method FlushChunk(bs: Bitstream)
      requires Live(bs) && bs.file != null
      modifies bs`bytes, bs.text, bs.file
      ensures Live(bs) && bs.bytes == 0 && bs.bits == old(bs.bits)
      ensures bs.Content() == old(bs.Content())
    {
      FileApart(bs);
      ghost var data, t, k := bs.file.data, bs.text[..], bs.bytes;
      ghost var held := bs.ChunkBits();
      SingleContent(bs);
      bs.Dump();
      SingleContent(bs);
      FlushedBits(data, t, k, held);
    }

    // Put an empty chunk in front of a full one.
    method LinkChunk(bs: Bitstream) returns (r: Bitstream)
      requires Live(bs) && bs.file == null
      modifies this, freeRepr
      ensures Grown(bs, r)
      ensures r.bytes == 0 && r.bits == 0
      ensures r.Content() == old(bs.Content())
    {
      hide Linked, Memory, ChainBits, Objs, BytesBits, Bitstream.Content, Bitstream.ChunkBits, Last;
      r := StartBitstream(null);
      r.Attach(bs);
    }
  }
}
