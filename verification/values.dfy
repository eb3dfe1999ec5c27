// The values of sorts and their encodings: what the sort descriptions that
// make_tdf reads stand for.
module Values {
  import opened Bits
  import opened Codes
  import opened Encodings
  import opened Runs
  import opened TdfOutput
  import opened Compile

  // How a basic sort's constructs are told apart, and the constructs.
  datatype BasicSort = BasicSort(bits: nat, extend: bool, conses: map<nat, Construct>)

  type Spec = map<char, BasicSort>

  predicate SpecOk(spec: Spec) {
    forall c :: c in spec ==>
      && spec[c].bits <= 16 && (spec[c].extend ==> spec[c].bits >= 1)
      && forall k :: k in spec[c].conses ==>
           && DecodableCons(spec[c].conses[k])
           && (if spec[c].extend then k >= 1 else k < Pow2(spec[c].bits))
  }

  datatype Val =
    | Num(n: nat)
    | Str(size: nat, chars: seq<nat>)
    | Con(k: nat, args: seq<Val>)
    | Tuple(args: seq<Val>)
    | Vals(elems: seq<Val>)
    | Maybe(some: seq<Val>)
    | Stream(v: Val)

  predicate Typed(spec: Spec, s: Sort, v: Val)
    decreases v, 1
  {
    match s.info
    case Undefined => false
    case Builtin =>
      (s.code == 'i' as nat && v.Num?)
      || (s.code == '$' as nat && v.Str? && forall j :: 0 <= j < |v.chars| ==> v.chars[j] < Pow2(v.size))
    case Basic =>
      var c := s.code as char;
      v.Con? && c in spec && v.k in spec[c].conses && TypedPars(spec, spec[c].conses[v.k], 0, v.args)
    case Single(cons) => v.Tuple? && TypedPars(spec, cons, 0, v.args)
    case Compound(arg) =>
      (s.code == '*' as nat && v.Vals? && TypedAll(spec, arg, v.elems))
      || (s.code == '?' as nat && v.Maybe? && |v.some| <= 1 && TypedAll(spec, arg, v.some))
  }

  predicate TypedAll(spec: Spec, s: Sort, vs: seq<Val>)
    decreases vs
  {
    vs == [] || (Typed(spec, s, vs[0]) && TypedAll(spec, s, vs[1..]))
  }

  predicate TypedPars(spec: Spec, c: Construct, i: nat, args: seq<Val>)
    requires i <= |c.pars|
    decreases args
  {
    |args| == |c.pars| - i
    && (args != [] ==> TypedPar(spec, c, i, args[0]) && TypedPars(spec, c, i + 1, args[1..]))
  }

  predicate TypedPar(spec: Spec, c: Construct, i: nat, v: Val)
    requires i < |c.pars|
    decreases v, 2
  {
    if IsStream(c, i) then v.Stream? && Typed(spec, c.res, v.v) else Typed(spec, c.pars[i].sort, v)
  }

  // ----- the encoding of a value that starts at position p

  function EncVal(spec: Spec, s: Sort, v: Val, p: nat): seq<bool>
    requires SpecOk(spec) && Typed(spec, s, v)
    decreases v, 1
  {
    match s.info
    case Builtin => if v.Num? then IntBits(v.n) else IntBits(v.size) + IntBits(|v.chars|) + CharBits(v.size, v.chars)
    case Basic =>
      var b := spec[s.code as char];
      var code := if b.extend then ExtnBits(b.bits, v.k) else BitsOf(b.bits, v.k);
      code + EncPars(spec, b.conses[v.k], 0, v.args, p + |code|)
    case Single(cons) => EncPars(spec, cons, 0, v.args, p)
    case Compound(arg) =>
      if v.Vals? then
        var n := ListHead(|v.elems|);
        n + EncVals(spec, arg, v.elems, p + |n|)
      else [v.some != []] + EncVals(spec, arg, v.some, p + 1)
  }

  function EncVals(spec: Spec, s: Sort, vs: seq<Val>, p: nat): seq<bool>
    requires SpecOk(spec) && TypedAll(spec, s, vs)
    decreases vs
  {
    if vs == [] then []
    else
      var b := EncVal(spec, s, vs[0], p);
      b + EncVals(spec, s, vs[1..], p + |b|)
  }

  // The parameters from i on, each aligned if it is to be.
  function EncPars(spec: Spec, c: Construct, i: nat, args: seq<Val>, p: nat): seq<bool>
    requires i <= |c.pars| && SpecOk(spec) && TypedPars(spec, c, i, args)
    decreases args
  {
    if args == [] then []
    else
      var pad := if c.pars[i].align then Zeros(PadTo8(p)) else [];
      var b := pad + EncPar(spec, c, i, args[0], p + |pad|);
      b + EncPars(spec, c, i + 1, args[1..], p + |b|)
  }

  function EncPar(spec: Spec, c: Construct, i: nat, v: Val, p: nat): seq<bool>
    requires i < |c.pars| && SpecOk(spec) && TypedPar(spec, c, i, v)
    decreases v, 2
  {
    if IsStream(c, i) then
      var b := EncVal(spec, c.res, v.v, 0);
      IntBits(|b|) + b
    else EncVal(spec, c.pars[i].sort, v, p)
  }

  // ----- alignments in a value

  // The value comes past an alignment; one inside a bitstream does not matter.
  predicate MeetsVal(spec: Spec, s: Sort, v: Val)
    requires Typed(spec, s, v)
    decreases v, 1
  {
    match s.info
    case Builtin => false
    case Basic => MeetsPars(spec, spec[s.code as char].conses[v.k], 0, v.args)
    case Single(cons) => MeetsPars(spec, cons, 0, v.args)
    case Compound(arg) => MeetsVals(spec, arg, if v.Vals? then v.elems else v.some)
  }

  predicate MeetsVals(spec: Spec, s: Sort, vs: seq<Val>)
    requires TypedAll(spec, s, vs)
    decreases vs
  {
    vs != [] && (MeetsVal(spec, s, vs[0]) || MeetsVals(spec, s, vs[1..]))
  }

  predicate MeetsPars(spec: Spec, c: Construct, i: nat, args: seq<Val>)
    requires i <= |c.pars| && TypedPars(spec, c, i, args)
    decreases args
  {
    args != [] && (c.pars[i].align || MeetsPar(spec, c, i, args[0]) || MeetsPars(spec, c, i + 1, args[1..]))
  }

  predicate MeetsPar(spec: Spec, c: Construct, i: nat, v: Val)
    requires i < |c.pars| && TypedPar(spec, c, i, v)
    decreases v, 2
  {
    !IsStream(c, i) && MeetsVal(spec, c.pars[i].sort, v)
  }

  // Of a value that starts at position p, every bitstream either starts where a
  // byte does or comes past no alignment.
  predicate PlacedVal(spec: Spec, s: Sort, v: Val, p: nat)
    requires SpecOk(spec) && Typed(spec, s, v)
    decreases v, 1
  {
    match s.info
    case Builtin => true
    case Basic =>
      var b := spec[s.code as char];
      var code := if b.extend then ExtnBits(b.bits, v.k) else BitsOf(b.bits, v.k);
      PlacedPars(spec, b.conses[v.k], 0, v.args, p + |code|)
    case Single(cons) => PlacedPars(spec, cons, 0, v.args, p)
    case Compound(arg) =>
      if v.Vals? then PlacedVals(spec, arg, v.elems, p + |ListHead(|v.elems|)|)
      else PlacedVals(spec, arg, v.some, p + 1)
  }

  predicate PlacedVals(spec: Spec, s: Sort, vs: seq<Val>, p: nat)
    requires SpecOk(spec) && TypedAll(spec, s, vs)
    decreases vs
  {
    vs != [] ==> PlacedVal(spec, s, vs[0], p) && PlacedVals(spec, s, vs[1..], p + |EncVal(spec, s, vs[0], p)|)
  }

  predicate PlacedPars(spec: Spec, c: Construct, i: nat, args: seq<Val>, p: nat)
    requires i <= |c.pars| && SpecOk(spec) && TypedPars(spec, c, i, args)
    decreases args
  {
    args != [] ==>
      var q := p + if c.pars[i].align then PadTo8(p) else 0;
      && PlacedPar(spec, c, i, args[0], q)
      && PlacedPars(spec, c, i + 1, args[1..], q + |EncPar(spec, c, i, args[0], q)|)
  }

  predicate PlacedPar(spec: Spec, c: Construct, i: nat, v: Val, p: nat)
    requires i < |c.pars| && SpecOk(spec) && TypedPar(spec, c, i, v)
    decreases v, 2
  {
    if IsStream(c, i) then
      var q := p + |IntBits(|EncVal(spec, c.res, v.v, 0)|)|;
      (q % 8 == 0 || !MeetsVal(spec, c.res, v.v)) && PlacedVal(spec, c.res, v.v, q)
    else PlacedVal(spec, c.pars[i].sort, v, p)
  }

  // ----- all three together

  function ValAt(spec: Spec, s: Sort, v: Val, p: nat): Run
    requires SpecOk(spec) && Typed(spec, s, v)
  {
    Run(EncVal(spec, s, v, p), MeetsVal(spec, s, v), PlacedVal(spec, s, v, p))
  }

  function ValsAt(spec: Spec, s: Sort, vs: seq<Val>, p: nat): Run
    requires SpecOk(spec) && TypedAll(spec, s, vs)
  {
    Run(EncVals(spec, s, vs, p), MeetsVals(spec, s, vs), PlacedVals(spec, s, vs, p))
  }

  function ParsAt(spec: Spec, c: Construct, i: nat, args: seq<Val>, p: nat): Run
    requires i <= |c.pars| && SpecOk(spec) && TypedPars(spec, c, i, args)
  {
    Run(EncPars(spec, c, i, args, p), MeetsPars(spec, c, i, args), PlacedPars(spec, c, i, args, p))
  }

  function ParAt(spec: Spec, c: Construct, i: nat, v: Val, p: nat): Run
    requires i < |c.pars| && SpecOk(spec) && TypedPar(spec, c, i, v)
  {
    Run(EncPar(spec, c, i, v, p), MeetsPar(spec, c, i, v), PlacedPar(spec, c, i, v, p))
  }

  // ----- a value as the items its decode string reads

  function Flat(spec: Spec, s: Sort, v: Val): seq<Item>
    requires Typed(spec, s, v)
    decreases v, 1
  {
    match s.info
    case Builtin => if v.Num? then [INum(v.n)] else [IStr(v.size, v.chars)]
    case Basic =>
      var c := s.code as char;
      [ISort(c, v.k, FlatPars(spec, spec[c].conses[v.k], 0, v.args))]
    case Single(cons) => FlatPars(spec, cons, 0, v.args)
    case Compound(arg) =>
      if v.Vals? then [IList(FlatAll(spec, arg, v.elems))]
      else if v.some == [] then [IOpt(false, Items([]))]
      else [IOpt(true, FlatAll(spec, arg, v.some)[0])]
  }

  function FlatAll(spec: Spec, s: Sort, vs: seq<Val>): (r: seq<Items>)
    requires TypedAll(spec, s, vs)
    ensures |r| == |vs|
    decreases vs
  {
    if vs == [] then [] else [Items(Flat(spec, s, vs[0]))] + FlatAll(spec, s, vs[1..])
  }

  function FlatPars(spec: Spec, c: Construct, i: nat, args: seq<Val>): seq<Item>
    requires i <= |c.pars| && TypedPars(spec, c, i, args)
    decreases args
  {
    if args == [] then [] else FlatPar(spec, c, i, args[0]) + FlatPars(spec, c, i + 1, args[1..])
  }

  function FlatPar(spec: Spec, c: Construct, i: nat, v: Val): seq<Item>
    requires i < |c.pars| && TypedPar(spec, c, i, v)
    decreases v, 2
  {
    if IsStream(c, i) then [ISub(Items(Flat(spec, c.res, v.v)))] else Flat(spec, c.pars[i].sort, v)
  }
}
