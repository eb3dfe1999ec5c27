// The disp readers for extended numbers and TDF integers: disp/src/basic.c.
module DispBasic {
  import opened Bits
  import opened Codes
  import opened Files
  import opened Views
  import opened DispFile

  const INT_BUFF: nat := 1000

  // An extended number in packets of n bits.
  method FetchExtn(inp: Input, n: nat) returns (r: nat)
    requires inp.Valid() && n >= 1
    modifies inp`here, inp`worksp, inp`ibPtr, inp`ibSize, inp`readError, inp.inbuffer, inp.file`pos
    ensures inp.Valid()
    ensures (r, inp.Posn()) == ExtnAt(old(inp.Seen()), old(inp.Posn()), n, 0)
    ensures inp.readError == (old(inp.readError) || inp.Posn() > 8 * |inp.file.data|)
  {
    hide NumAt, Pow2, ExtnAt, Left;
    ghost var seen, start := inp.Seen(), inp.Posn();
    ghost var last: nat := start;
    r := 0;
    var s := inp.Fetch(n);
    while s == 0
      invariant inp.Valid() && inp.Posn() == last + n
      invariant s == NumAt(seen, last, n)
      invariant ExtnAt(seen, last, n, r) == ExtnAt(seen, start, n, 0)
      invariant inp.readError == (old(inp.readError) || inp.Posn() > 8 * |inp.file.data|)
      decreases Left(seen, last)
    {
      ExtnUnfoldAt(seen, last, n, r);
      r := r + Pow2(n) - 1;
      last := last + n;
      ghost var now := inp.Seen();
      s := inp.Fetch(n);
      SeenAlike(seen, now, last, n);
    }
    ExtnUnfoldAt(seen, last, n, r);
    r := r + s;
  }

  // What tdf_int gives and where it leaves the reader.
  function AfterInt(data: seq<byte>, c: Cursor): (nat, Cursor) {
    if c.failed then (0, c)
    else var (n, p) := IntAt(data, c.pos, 0); (n, Cursor(p, p > 8 * |data|))
  }

  // A long skip past the end of an empty file and discarding the same bits look
  // alike to fetch, but not to tdf_int: after the skip it reads on.
  lemma SkipDiffers()
    ensures var skipped, discarded := AfterSkip([], Cursor(0, false), 40), AfterFetch([], Cursor(0, false), 40);
            && skipped == Cursor(40, false) && discarded == Cursor(40, true)
            && AfterInt([], skipped) == (7, Cursor(44, true)) && AfterInt([], discarded) == (0, discarded)
  {
    Ones(40);
  }

  // Going back to a byte of ones after an error: a fresh reader reads a number.
  lemma PlaceDiffers()
    ensures var back := AfterPlace([255], true, Place(0, 0));
            && AfterInt([255], back) == (0, back)
            && AfterInt([255], Cursor(0, false)) == (7, Cursor(4, false))
  {
    assert Mask(8) == 255;
    forall i | 0 <= i < 4 ensures BitAt([255], i) { BitMask(8, 7 - i % 8); }
    AllSet([255], 0);
  }

  // Four ones make the digit seven with its mark.
  lemma AllSet(data: seq<byte>, p: nat)
    requires forall i :: p <= i < p + 4 ==> BitAt(data, i)
    ensures IntAt(data, p, 0) == (7, p + 4)
  {
    hide BitAt;
    var s := Ahead(data, p, 4);
    forall i | 0 <= i < 4 ensures s[i] { AheadAt(data, p, 4, i); }
    assert s == [true, true, true, true];
    assert [true][..0] == [] && [true, true][..1] == [true];
    assert [true, true, true][..2] == [true, true] && [true, true, true, true][..3] == [true, true, true];
    assert ValueOf([true]) == 1;
    assert ValueOf([true, true]) == 3;
    assert ValueOf([true, true, true]) == 7;
  }

  lemma Ones(p: nat)
    ensures IntAt([], p, 0) == (7, p + 4)
  {
    forall i | p <= i < p + 4 ensures BitAt([], i) { OnesBeyond([], i); }
    AllSet([], p);
  }

  // A TDF integer; after a reading error, nothing is read and 0 returned.
  method TdfInt(inp: Input) returns (num: nat)
    requires inp.Valid()
    modifies inp`here, inp`worksp, inp`ibPtr, inp`ibSize, inp`readError, inp.inbuffer, inp.file`pos
    ensures inp.Valid()
    ensures (num, inp.Cur()) == AfterInt(inp.file.data, old(inp.Cur()))
    ensures old(inp.readError) ==> num == 0 && inp.Cur() == old(inp.Cur())
    ensures !old(inp.readError) ==>
              && (num, inp.Posn()) == IntAt(inp.file.data, old(inp.Posn()), 0)
              && inp.readError == (inp.Posn() > 8 * |inp.file.data|)
  {
    hide NumAt, IntAt, Left;
    if inp.readError { return 0; }
    ghost var data, start := inp.file.data, inp.Posn();
    ghost var last: nat := start;
    num := 0;
    var dig := inp.Fetch(4);
    IntUnfold(data, last, 0);
    // The do loop's first round is the read above.
    while dig < 8
      invariant inp.Valid() && inp.Posn() == last + 4
      invariant dig == NumAt(data, last, 4) < 16
      invariant IntAt(data, last, num) == IntAt(data, start, 0)
      invariant inp.readError == (inp.Posn() > 8 * |data|)
      decreases Left(data, last)
    {
      IntUnfold(data, last, num);
      num := 8 * num + dig;
      last := last + 4;
      ghost var now := inp.Seen();
      dig := inp.Fetch(4);
      SeenAlike(data, now, last, 4);
      IntUnfold(data, last, num);
    }
    IntUnfold(data, last, num);
    num := 8 * num + dig % 8;
  }

  // The octal digits of the TDF integer at position p.
  function DigitsAt(data: seq<byte>, p: nat): (ds: seq<nat>)
    ensures |ds| > 0 && forall k :: 0 <= k < |ds| ==> ds[k] < 8
    decreases Left(data, p)
  {
    var d := NumAt(data, p, 4);
    if d >= 8 then [d % 8]
    else
      UnmarkedInside(data, p);
      [d] + DigitsAt(data, p + 4)
  }

  // A digit as a character.
  function Charact(d: nat): char
    requires d < 8
  {
    '0' + d as char
  }

  // The buffer starts with the characters of the digits, as many as fit.
  predicate Kept(buff: seq<char>, i: nat, ds: seq<nat>) {
    && (forall k :: 0 <= k < |ds| ==> ds[k] < 8)
    && i == (if |ds| < INT_BUFF then |ds| else INT_BUFF) <= |buff|
    && forall k :: 0 <= k < i ==> buff[k] == Charact(ds[k])
  }

  // Put a digit behind the i-th, if there is room.
  method PutDigit(buff: array<char>, i: nat, d: nat, ghost ds: seq<nat>) returns (j: nat)
    requires buff.Length == INT_BUFF && Kept(buff[..], i, ds) && d < 8
    modifies buff
    ensures j <= INT_BUFF && Kept(buff[..], j, ds + [d])
  {
    j := i;
    if i < INT_BUFF {
      buff[i] := Charact(d);
      j := i + 1;
    }
  }

  // A TDF integer as its octal digits in a buffer, of which the first INT_BUFF are
  // kept.  The terminator has room behind them exactly if there are fewer; there
  // is none to be stored when an error came before and a constant is returned.
  method TdfIntStr(inp: Input, buff: array<char>) returns (digits: string, fits: bool)
    requires inp.Valid() && buff.Length == INT_BUFF
    modifies inp`here, inp`worksp, inp`ibPtr, inp`ibSize, inp`readError, inp.inbuffer, inp.file`pos, buff
    ensures inp.Valid()
    ensures old(inp.readError) ==>
              digits == "0" && fits && inp.Cur() == old(inp.Cur()) && buff[..] == old(buff[..])
    ensures !old(inp.readError) ==>
              var ds := DigitsAt(inp.file.data, old(inp.Posn()));
              && |digits| <= INT_BUFF && Kept(buff[..], |digits|, ds) && digits == buff[..|digits|]
              && inp.Cur() == Cursor(old(inp.Posn()) + 4 * |ds|, old(inp.Posn()) + 4 * |ds| > 8 * |inp.file.data|)
              && (fits <==> |ds| < INT_BUFF) && (fits ==> buff[|digits|] == '\0')
              && |digits| == (if |ds| < INT_BUFF then |ds| else INT_BUFF)
              && forall k :: 0 <= k < |digits| ==> digits[k] as int - '0' as int == ds[k]
  {
    hide NumAt, DigitsAt, Left, Kept, ByteAt, Remains, Input.Buffered;
    if inp.readError { return "0", true; }
    ghost var data, start := inp.file.data, inp.Posn();
    ghost var last: nat, all := start, [];
    var i: nat := 0;
    NoneKept(buff[..]);
    var dig := inp.Fetch(4);
    DigitsUnfold(data, last, []);
    while dig < 8
      invariant inp.Valid() && inp.Posn() == last + 4 && last == start + 4 * |all|
      invariant dig == NumAt(data, last, 4) < 16
      invariant all + DigitsAt(data, last) == DigitsAt(data, start)
      invariant Kept(buff[..], i, all)
      invariant inp.readError == (inp.Posn() > 8 * |data|)
      decreases Left(data, last)
    {
      DigitsUnfold(data, last, all);
      i := PutDigit(buff, i, dig, all);
      all := all + [dig];
      last := last + 4;
      ghost var now := inp.Seen();
      dig := inp.Fetch(4);
      SeenAlike(data, now, last, 4);
      DigitsUnfold(data, last, all);
    }
    DigitsUnfold(data, last, all);
    digits, fits := LastDigit(buff, i, dig % 8, all);
    KeptDigits(buff[..], |digits|, DigitsAt(data, start));
  }

  // Put the last digit and, if there is room, the terminator.
  method LastDigit(buff: array<char>, i: nat, d: nat, ghost ds: seq<nat>) returns (digits: string, fits: bool)
    requires buff.Length == INT_BUFF && Kept(buff[..], i, ds) && d < 8
    modifies buff
    ensures |digits| <= INT_BUFF && Kept(buff[..], |digits|, ds + [d]) && digits == buff[..|digits|]
    ensures (fits <==> |ds + [d]| < INT_BUFF) && (fits ==> buff[|digits|] == '\0')
  {
    hide Kept;
    var j := PutDigit(buff, i, d, ds);
    KeptMost(buff[..], j, ds + [d]);
    digits := buff[..j];
    fits := j < INT_BUFF;
    if fits {
      Terminated(buff[..], j, ds + [d], '\0');
      buff[j] := '\0';
      assert buff[..j] == digits;
    }
  }

  lemma NoneKept(buff: seq<char>)
    ensures Kept(buff, 0, [])
  {
  }

  lemma KeptMost(buff: seq<char>, i: nat, ds: seq<nat>)
    requires Kept(buff, i, ds)
    ensures i <= |buff| && i <= INT_BUFF && (i < INT_BUFF <==> |ds| < INT_BUFF)
  {
  }

  lemma KeptDigits(buff: seq<char>, i: nat, ds: seq<nat>)
    requires Kept(buff, i, ds)
    ensures i == (if |ds| < INT_BUFF then |ds| else INT_BUFF) <= |buff|
    ensures forall k :: 0 <= k < i ==> buff[k] as int - '0' as int == ds[k]
  {
  }

  lemma Terminated(buff: seq<char>, i: nat, ds: seq<nat>, c: char)
    requires Kept(buff, i, ds) && i < |buff|
    ensures Kept(buff[i := c], i, ds)
  {
  }

  lemma DigitsUnfold(data: seq<byte>, p: nat, before: seq<nat>)
    ensures [] + DigitsAt(data, p) == DigitsAt(data, p)
    ensures var d := NumAt(data, p, 4);
            && d < 16
            && (d >= 8 ==> before + DigitsAt(data, p) == before + [d % 8])
            && (d < 8 ==> before + DigitsAt(data, p) == before + [d] + DigitsAt(data, p + 4)
                          && Left(data, p + 4) < Left(data, p))
  {
    hide NumAt;
    DigitRead(data, p);
    if NumAt(data, p, 4) < 8 {
      UnmarkedInside(data, p);
      ConcatAssoc(before, [NumAt(data, p, 4)], DigitsAt(data, p + 4));
    }
  }

  // The digits and the number agree.
  function OctalNum(ds: seq<nat>, acc: nat): nat {
    if ds == [] then acc else OctalNum(ds[1..], 8 * acc + ds[0])
  }

  lemma {:induction false} DigitsAreInt(data: seq<byte>, p: nat, acc: nat)
    ensures IntAt(data, p, acc) == (OctalNum(DigitsAt(data, p), acc), p + 4 * |DigitsAt(data, p)|)
    decreases Left(data, p)
  {
    hide NumAt;
    var d := NumAt(data, p, 4);
    if d < 8 {
      UnmarkedInside(data, p);
      DigitsAreInt(data, p + 4, 8 * acc + d);
    } else {
      assert OctalNum([], 8 * acc + d % 8) == 8 * acc + d % 8;
    }
  }
}
