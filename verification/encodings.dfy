// Decode strings, the values they describe, and the bits of these values: the
// language that decode in disp/src/tdf.c reads.
module Encodings {
  import opened Bits
  import opened Codes

  // The structure of a decode string: letters, ignored marks, alignments, and
  // groups controlled by a character.
  datatype Op =
    | Letter(c: char)
    | Mark(c: char)
    | Bar
    | Group(c: char, body: seq<Op>)

  function Text(ops: seq<Op>): string {
    if ops == [] then "" else OpText(ops[0]) + Text(ops[1..])
  }

  function OpText(op: Op): string {
    match op
    case Letter(c) => [c]
    case Mark(c) => [c]
    case Bar => "|"
    case Group(c, body) => [c] + "[" + Text(body) + "]"
  }

  // No stray brackets: letters are no control characters.
  predicate OpsOk(ops: seq<Op>) {
    forall i :: 0 <= i < |ops| ==> OpOk(ops[i])
  }

  predicate OpOk(op: Op) {
    match op
    case Letter(c) => c !in "[]{}&|*+?@%\0"
    case Mark(c) => c in "{}&"
    case Bar => true
    case Group(c, body) => c in "*+?@%" && OpsOk(body)
  }


  // ----- values and their encoding

  // What reading a decode string yields.
  datatype Item =
    | INum(n: nat)
    | IStr(size: nat, chars: seq<nat>)
    | ISort(c: char, code: nat, args: seq<Item>)
    | IList(elems: seq<Items>)
    | IOpt(present: bool, some: Items)
    | ISub(sub: Items)

  datatype Items = Items(items: seq<Item>)

  // A sort's encoding: how many bits give the construct, whether they extend,
  // and each construct's decode string.
  datatype SortInfo = SortInfo(bits: nat, extend: bool, table: map<nat, seq<Op>>)

  type Grammar = map<char, SortInfo>

  predicate GrammarOk(g: Grammar) {
    forall c :: c in g ==>
      && g[c].bits <= 16 && (g[c].extend ==> g[c].bits >= 1)
      && forall k :: k in g[c].table ==>
           OpsOk(g[c].table[k]) && (if g[c].extend then k >= 1 else k < Pow2(g[c].bits))
  }

  // The items are a value of the decode string.
  predicate Fits(g: Grammar, ops: seq<Op>, items: seq<Item>)
    decreases items, ops
  {
    if ops == [] then items == []
    else match ops[0]
      case Mark(_) => Fits(g, ops[1..], items)
      case Bar => Fits(g, ops[1..], items)
      case Letter(c) => items != [] && FitsLetter(g, c, items[0]) && Fits(g, ops[1..], items[1..])
      case Group(c, body) => items != [] && FitsGroup(g, c, body, items[0]) && Fits(g, ops[1..], items[1..])
  }

  predicate FitsLetter(g: Grammar, c: char, item: Item)
    decreases item, 0
  {
    match item
    case INum(_) => c == 'i'
    case IStr(size, chars) => c == '$' && forall j :: 0 <= j < |chars| ==> chars[j] < Pow2(size)
    case ISort(d, k, args) => c == d && c !in "i$TF" && c in g && k in g[c].table && Fits(g, g[c].table[k], args)
    case _ => false
  }

  predicate FitsGroup(g: Grammar, c: char, body: seq<Op>, item: Item)
    decreases item, 0
  {
    match item
    case IList(elems) =>
      (c == '*' || (c == '+' && elems != [])) && FitsAll(g, body, elems)
    case IOpt(present, some) =>
      c == '?' && if present then Fits(g, body, some.items) else some.items == []
    case ISub(sub) => c == '@' && Fits(g, body, sub.items)
    case _ => false
  }

  predicate FitsAll(g: Grammar, body: seq<Op>, elems: seq<Items>)
    decreases elems
  {
    elems == [] || (Fits(g, body, elems[0].items) && FitsAll(g, body, elems[1..]))
  }

  // The bits of a value that starts at position p.
  function Enc(g: Grammar, ops: seq<Op>, items: seq<Item>, p: nat): seq<bool>
    requires GrammarOk(g) && Fits(g, ops, items)
    decreases items, ops
  {
    if ops == [] then []
    else match ops[0]
      case Mark(_) => Enc(g, ops[1..], items, p)
      case Bar => Zeros(PadTo8(p)) + Enc(g, ops[1..], items, p + PadTo8(p))
      case Letter(c) =>
        var b := EncLetter(g, c, items[0], p);
        b + Enc(g, ops[1..], items[1..], p + |b|)
      case Group(c, body) =>
        var b := EncGroup(g, c, body, items[0], p);
        b + Enc(g, ops[1..], items[1..], p + |b|)
  }

  function CodeBits(info: SortInfo, k: nat): seq<bool>
    requires info.extend ==> info.bits >= 1
  {
    if info.extend then ExtnBits(info.bits, k) else BitsOf(info.bits, k)
  }

  // A list starts with a bit that is not set and the number of its elements.
  function ListHead(n: nat): seq<bool> {
    [false] + IntBits(n)
  }

  function CharBits(size: nat, chars: seq<nat>): seq<bool> {
    if chars == [] then [] else BitsOf(size, chars[0]) + CharBits(size, chars[1..])
  }

  function EncLetter(g: Grammar, c: char, item: Item, p: nat): seq<bool>
    requires GrammarOk(g) && FitsLetter(g, c, item)
    decreases item, 0
  {
    match item
    case INum(n) => IntBits(n)
    case IStr(size, chars) => IntBits(size) + IntBits(|chars|) + CharBits(size, chars)
    case ISort(_, k, args) =>
      var b := CodeBits(g[c], k);
      b + Enc(g, g[c].table[k], args, p + |b|)
  }

  function EncGroup(g: Grammar, c: char, body: seq<Op>, item: Item, p: nat): seq<bool>
    requires GrammarOk(g) && FitsGroup(g, c, body, item)
    decreases item, 0
  {
    match item
    case IList(elems) =>
      var b := ListHead(if c == '*' then |elems| else |elems| - 1);
      b + EncAll(g, body, elems, p + |b|)
    case IOpt(present, some) =>
      if present then [true] + Enc(g, body, some.items, p + 1) else [false]
    case ISub(sub) =>
      // A bitstream is encoded by itself and put behind its length.
      var b := Enc(g, body, sub.items, 0);
      IntBits(|b|) + b
  }

  function EncAll(g: Grammar, body: seq<Op>, elems: seq<Items>, p: nat): seq<bool>
    requires GrammarOk(g) && FitsAll(g, body, elems)
    decreases elems
  {
    if elems == [] then []
    else
      var b := Enc(g, body, elems[0].items, p);
      b + EncAll(g, body, elems[1..], p + |b|)
  }

  // ----- alignments

  // The value comes past an alignment; one inside a bitstream does not matter.
  predicate Meets(g: Grammar, ops: seq<Op>, items: seq<Item>)
    requires Fits(g, ops, items)
    decreases items, ops
  {
    if ops == [] then false
    else match ops[0]
      case Mark(_) => Meets(g, ops[1..], items)
      case Bar => true
      case Letter(c) => MeetsLetter(g, c, items[0]) || Meets(g, ops[1..], items[1..])
      case Group(c, body) => MeetsGroup(g, c, body, items[0]) || Meets(g, ops[1..], items[1..])
  }

  predicate MeetsLetter(g: Grammar, c: char, item: Item)
    requires FitsLetter(g, c, item)
    decreases item, 0
  {
    item.ISort? && Meets(g, g[c].table[item.code], item.args)
  }

  predicate MeetsGroup(g: Grammar, c: char, body: seq<Op>, item: Item)
    requires FitsGroup(g, c, body, item)
    decreases item, 0
  {
    match item
    case IList(elems) => MeetsAll(g, body, elems)
    case IOpt(present, some) => present && Meets(g, body, some.items)
    case ISub(_) => false
  }

  predicate MeetsAll(g: Grammar, body: seq<Op>, elems: seq<Items>)
    requires FitsAll(g, body, elems)
    decreases elems
  {
    elems != [] && (Meets(g, body, elems[0].items) || MeetsAll(g, body, elems[1..]))
  }

  // Of a value that starts at position p, every bitstream either starts where a
  // byte does or comes past no alignment.
  predicate Placed(g: Grammar, ops: seq<Op>, items: seq<Item>, p: nat)
    requires GrammarOk(g) && Fits(g, ops, items)
    decreases items, ops
  {
    if ops == [] then true
    else match ops[0]
      case Mark(_) => Placed(g, ops[1..], items, p)
      case Bar => Placed(g, ops[1..], items, p + PadTo8(p))
      case Letter(c) =>
        && PlacedLetter(g, c, items[0], p)
        && Placed(g, ops[1..], items[1..], p + |EncLetter(g, c, items[0], p)|)
      case Group(c, body) =>
        && PlacedGroup(g, c, body, items[0], p)
        && Placed(g, ops[1..], items[1..], p + |EncGroup(g, c, body, items[0], p)|)
  }

  predicate PlacedLetter(g: Grammar, c: char, item: Item, p: nat)
    requires GrammarOk(g) && FitsLetter(g, c, item)
    decreases item, 0
  {
    item.ISort? ==> Placed(g, g[c].table[item.code], item.args, p + |CodeBits(g[c], item.code)|)
  }

  predicate PlacedGroup(g: Grammar, c: char, body: seq<Op>, item: Item, p: nat)
    requires GrammarOk(g) && FitsGroup(g, c, body, item)
    decreases item, 0
  {
    match item
    case IList(elems) =>
      PlacedAll(g, body, elems, p + |ListHead(if c == '*' then |elems| else |elems| - 1)|)
    case IOpt(present, some) => present ==> Placed(g, body, some.items, p + 1)
    case ISub(sub) =>
      var q := p + |IntBits(|Enc(g, body, sub.items, 0)|)|;
      (q % 8 == 0 || !Meets(g, body, sub.items)) && Placed(g, body, sub.items, q)
  }

  predicate PlacedAll(g: Grammar, body: seq<Op>, elems: seq<Items>, p: nat)
    requires GrammarOk(g) && FitsAll(g, body, elems)
    decreases elems
  {
    elems != [] ==>
      && Placed(g, body, elems[0].items, p)
      && PlacedAll(g, body, elems[1..], p + |Enc(g, body, elems[0].items, p)|)
  }
}
