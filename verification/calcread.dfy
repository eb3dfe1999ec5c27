// The calculus bit reader: calculus/src/read.c.
module CalcRead {
  import opened Bits
  import opened Codes
  import opened Files
  import opened Views

  const CHAR_BIT: nat := 8

  datatype Read = Got(value: nat) | PrematureEnd

  // A one byte input buffer: the low inputBits bits of inputBuff are unread.
  class Reader {
    const file: File
    var inputBuff: nat
    var inputBits: nat

    constructor (f: File)
      requires f.pos == 0
      ensures Valid() && file == f && Posn() == 0
    {
      file, inputBuff, inputBits := f, 0, 0;
    }

    ghost predicate Valid()
      reads this, file
    {
      && file.pos <= |file.data|
      && inputBits <= CHAR_BIT * file.pos
      && inputBits < CHAR_BIT
      && (inputBits > 0 ==> inputBuff == NumAt(file.data, Posn(), inputBits))
    }

    ghost function Posn(): int
      reads this, file
    {
      CHAR_BIT * file.pos - inputBits
    }

    // The next n bits; running out of file is an error.
    method ReadBits(n: nat) returns (r: Read)
      requires Valid()
      modifies this`inputBuff, this`inputBits, file`pos
      ensures r.Got? <==> old(Posn()) + n <= 8 * |file.data|
      ensures r.Got? ==> Valid() && Posn() == old(Posn()) + n && r.value == NumAt(file.data, old(Posn()), n)
    {
      hide NumAt, Shl, Shr, Or, And, Mask;
      ghost var data, start: nat, done: nat := file.data, Posn(), 0;
      var b: nat, m: nat, v: nat, left: nat := inputBits, inputBuff, 0, n;
      EmptyNum(data, start);
      while left > 0
        invariant left + done == n && b < CHAR_BIT
        invariant file.pos <= |data| && CHAR_BIT * file.pos - b == start + done
        invariant v == NumAt(data, start, done)
        invariant b > 0 ==> m == NumAt(data, start + done, b)
      {
        if b == 0 {
          // A byte of the file, or a premature end.
          var got := file.Read(1);
          if got == [] {
            return PrematureEnd;
          }
          m := got[0];
          b := CHAR_BIT;
          WholeByte(data, file.pos - 1);
        }
        ghost var p := start + done;
        if left >= b {
          JoinNums(data, start, done, b);
          v := Or(Shl(v, b), m);
          left := left - b;
          done := done + b;
          b := 0;
        } else {
          var c: nat := b - left;
          SplitNum(data, p, left, c);
          JoinNums(data, start, done, left);
          v := Or(Shl(v, left), Shr(m, c));
          m := And(m, Mask(c));
          done := done + left;
          left := 0;
          b := c;
        }
      }
      inputBits := b;
      inputBuff := m;
      r := Got(v);
    }

    // An integer in marked octal digits.
    method ReadInt() returns (r: Read)
      requires Valid()
      modifies this`inputBuff, this`inputBits, file`pos
      ensures r.Got? <==> IntAt(file.data, old(Posn()), 0).1 <= 8 * |file.data|
      ensures r.Got? ==> Valid() && (r.value, Posn()) == IntAt(file.data, old(Posn()), 0)
    {
      hide NumAt;
      ghost var data, start: nat := file.data, Posn();
      ghost var last: nat := start;
      var n: nat := 0;
      IntLength(data, start, 0);
      var d := ReadBits(4);
      DigitRead(data, last);
      while d.Got? && d.value < 8
        invariant d.Got? <==> last + 4 <= 8 * |data|
        invariant d.Got? ==> Valid() && Posn() == last + 4 && d.value == NumAt(data, last, 4) < 16
        invariant IntAt(data, last, n) == IntAt(data, start, 0) && last + 4 <= IntAt(data, start, 0).1
        decreases Left(data, last)
      {
        UnmarkedInside(data, last);
        n := 8 * n + d.value;
        last := last + 4;
        IntLength(data, last, n);
        d := ReadBits(4);
        DigitRead(data, last);
      }
      match d
      case PrematureEnd => r := PrematureEnd;
      case Got(v) => r := Got(8 * n + v % 8);
    }
  }

  lemma EmptyNum(data: seq<byte>, p: nat)
    ensures NumAt(data, p, 0) == 0
  {
  }

  lemma WholeByte(data: seq<byte>, k: nat)
    requires k < |data|
    ensures NumAt(data, 8 * k, 8) == data[k]
  {
    AheadByte(data, k);
    ByteBound(data[k]);
    ValueOfBitsOf(8, data[k]);
  }

  lemma JoinNums(data: seq<byte>, p: nat, n: nat, m: nat)
    ensures Or(Shl(NumAt(data, p, n), m), NumAt(data, p + n, m)) == NumAt(data, p, n + m)
  {
    AheadSplit(data, p, n, m);
    ValueShiftIn(Ahead(data, p, n), Ahead(data, p + n, m));
  }

  lemma SplitNum(data: seq<byte>, p: nat, n: nat, c: nat)
    ensures Shr(NumAt(data, p, n + c), c) == NumAt(data, p, n)
    ensures And(NumAt(data, p, n + c), Mask(c)) == NumAt(data, p + n, c)
  {
    hide Ahead, Shr, And, Mask;
    var s := Ahead(data, p, n + c);
    AheadSplit(data, p, n, c);
    ValueShiftOut(s, c);
    ValueMasked(s, c);
    assert s[..n] == Ahead(data, p, n) && s[n..] == Ahead(data, p + n, c);
  }

  lemma {:induction false} IntLength(data: seq<byte>, p: nat, acc: nat)
    ensures IntAt(data, p, acc).1 >= p + 4
    decreases Left(data, p)
  {
    hide NumAt;
    if NumAt(data, p, 4) < 8 {
      UnmarkedInside(data, p);
      IntLength(data, p + 4, 8 * acc + NumAt(data, p, 4));
    }
  }
}
