// The types of the calculus tool and what is derived from them.  A type is named
// by its place in the store.
module TypeShapes {
  import opened Closure

  datatype Tag = PtrTag | ListTag | StackTag | VecTag | VecPtrTag

  // A map from unions: its return type and argument types.
  datatype Mapping = Mapping(ret: nat, args: seq<nat>)

  datatype Shape =
    | Undef
    | Quote
    | Primitive
    | Enumeration
    | Ident(defn: nat)
    | Structure(comps: seq<nat>)
    | Onion(comps: seq<nat>, fields: seq<seq<nat>>, maps: seq<Mapping>)
    | Compound(tag: Tag, sub: nat)

  // ----- the types from which a type is derived

  function MapParts(m: Mapping): seq<nat> { [m.ret] + m.args }

  function FieldsParts(fs: seq<seq<nat>>): seq<nat> {
    if fs == [] then [] else FieldsParts(fs[..|fs| - 1]) + fs[|fs| - 1]
  }

  function MapsParts(ms: seq<Mapping>): seq<nat> {
    if ms == [] then [] else MapsParts(ms[..|ms| - 1]) + MapParts(ms[|ms| - 1])
  }

  function Parts(s: Shape): seq<nat> {
    match s
    case Ident(defn) => [defn]
    case Structure(comps) => comps
    case Onion(comps, fields, maps) => comps + FieldsParts(fields) + MapsParts(maps)
    case Compound(_, sub) => [sub]
    case _ => []
  }

  function GraphOf(cells: seq<Shape>): (g: Graph)
    ensures |g| == |cells| && forall x :: 0 <= x < |g| ==> g[x] == Parts(cells[x])
  {
    seq(|cells|, i requires 0 <= i < |cells| => Parts(cells[i]))
  }

  function Elements(s: seq<nat>): set<nat> { set x | x in s }

  // The list r is p with what the roots add put in front of it, each type once.
  ghost predicate Derived(g: Graph, roots: seq<nat>, p: seq<nat>, r: seq<nat>) {
    && |p| <= |r| && r[|r| - |p|..] == p
    && (forall i {:trigger r[i]} :: 0 <= i < |r| - |p| ==> r[i] !in r[i + 1..])
    && Elements(r) == Closed(g, roots, Elements(p))
  }

  // What the type of that shape is made from.
  ghost predicate MadeFrom(s: Shape, x: nat) {
    match s
    case Ident(defn) => x == defn
    case Structure(comps) => x in comps
    case Onion(comps, fields, maps) =>
      x in comps || (exists f :: f in fields && x in f) || exists m :: m in maps && (x == m.ret || x in m.args)
    case Compound(_, sub) => x == sub
    case _ => false
  }

  // From t a list has grown from p to r: with a new type all that it is made from
  // is listed, and besides t nothing else is new.
  ghost predicate Grows(cells: seq<Shape>, t: nat, p: seq<nat>, r: seq<nat>) {
    && t in r
    && (forall x, y :: x in r && x !in p && x < |cells| && MadeFrom(cells[x], y) ==> y in r)
    && forall x :: x in r && x !in p ==>
         x == t || exists y :: y in r && y !in p && y < |cells| && MadeFrom(cells[y], x)
  }

  lemma {:induction false} FieldsAll(fs: seq<seq<nat>>, x: nat)
    ensures x in FieldsParts(fs) <==> exists f :: f in fs && x in f
    decreases |fs|
  {
    if fs != [] {
      var n := |fs| - 1;
      FieldsAll(fs[..n], x);
      assert forall f :: f in fs <==> f in fs[..n] || f == fs[n];
    }
  }

  lemma {:induction false} MapsAll(ms: seq<Mapping>, x: nat)
    ensures x in MapsParts(ms) <==> exists m :: m in ms && (x == m.ret || x in m.args)
    decreases |ms|
  {
    if ms != [] {
      var n := |ms| - 1;
      MapsAll(ms[..n], x);
      assert forall m :: m in ms <==> m in ms[..n] || m == ms[n];
      assert x in MapParts(ms[n]) <==> x == ms[n].ret || x in ms[n].args;
    }
  }

  lemma PartsOf(s: Shape, x: nat)
    ensures x in Parts(s) <==> MadeFrom(s, x)
  {
    hide FieldsParts, MapsParts;
    if s.Onion? {
      FieldsAll(s.fields, x);
      MapsAll(s.maps, x);
    }
  }

  lemma DerivedGrows(cells: seq<Shape>, t: nat, p: seq<nat>, r: seq<nat>)
    requires GraphOk(GraphOf(cells)) && t < |cells| && Derived(GraphOf(cells), [t], p, r)
    ensures Grows(cells, t, p, r)
  {
    hide Closed, Parts, MadeFrom;
    var g, was := GraphOf(cells), Elements(p);
    var now := Closed(g, [t], was);
    assert now == Elements(r);
    ClosedOn(g, [t], was, t, t);
    forall x, y | x in r && x !in p && x < |cells| && MadeFrom(cells[x], y) ensures y in r {
      PartsOf(cells[x], y);
      assert Inside(g, g[x]);
      assert x in now - was;
      ClosedOn(g, [t], was, x, y);
    }
    forall x | x in r && x !in p && x != t
      ensures exists y :: y in r && y !in p && y < |cells| && MadeFrom(cells[y], x)
    {
      assert x in now - was;
      var y := ClosedFrom(g, [t], was, x);
      PartsOf(cells[y], x);
    }
  }

  lemma DerivedNone(g: Graph, p: seq<nat>)
    ensures Derived(g, [], p, p)
  {
    hide Closed;
    ClosedEmpty(g, Elements(p));
  }

  lemma NoFields(g: Graph, fs: seq<seq<nat>>, p: seq<nat>)
    ensures Derived(g, FieldsParts(fs[..0]), p, p)
  {
    DerivedNone(g, p);
  }

  lemma NoMaps(g: Graph, ms: seq<Mapping>, p: seq<nat>)
    ensures Derived(g, MapsParts(ms[..0]), p, p)
  {
    DerivedNone(g, p);
  }

  lemma DerivedThen(g: Graph, a: seq<nat>, b: seq<nat>, p: seq<nat>, q: seq<nat>, r: seq<nat>)
    requires GraphOk(g) && Derived(g, a, p, q) && Derived(g, b, q, r)
    ensures Derived(g, a + b, p, r)
  {
    hide Closed, GraphOk, Elements;
    ClosedThen(g, a, b, Elements(p));
    var k: nat := |r| - |q|;
    forall i | 0 <= i < |r| - |p| ensures r[i] !in r[i + 1..] {
      if i >= k {
        assert r[i] == q[i - k] && r[i + 1..] == q[i - k + 1..];
      }
    }
    assert r[|r| - |p|..] == r[k..][|q| - |p|..];
  }

  // From the empty list: exactly the types reached, each once.
  lemma DerivedFromNothing(g: Graph, t: nat, r: seq<nat>)
    requires GraphOk(g) && t < |g| && Derived(g, [t], [], r)
    ensures forall b: nat :: b in r <==> Reaches(g, t, b, {})
    ensures forall i, j :: 0 <= i < j < |r| ==> r[i] != r[j]
  {
    hide Closed, Reaches;
    assert Elements([]) == {};
    forall b: nat ensures b in r <==> Reaches(g, t, b, {}) {
      ClosedFromNothing(g, t, b);
      assert b in r <==> b in Elements(r);
    }
    forall i, j | 0 <= i < j < |r| ensures r[i] != r[j] { assert r[i + 1..][j - i - 1] == r[j]; }
  }

  lemma DerivedEnter(g: Graph, t: nat, p: seq<nat>, r: seq<nat>)
    requires GraphOk(g) && t < |g| && t !in p && Derived(g, g[t], [t] + p, r)
    ensures Derived(g, [t], p, r)
  {
    hide Closed, GraphOk;
    ClosedEnter(g, t, Elements(p));
    assert Elements([t] + p) == Elements(p) + {t};
    var k: nat := |r| - |p| - 1;
    assert r[k..][1..] == r[k + 1..] && ([t] + p)[1..] == p && r[k] == t;
  }

  // Nothing is missing from r that was not missing from p.
  lemma NoneLost(g: Graph, roots: seq<nat>, p: seq<nat>, r: seq<nat>)
    requires Derived(g, roots, p, r)
    ensures forall x :: x in p ==> x in r
  {
    hide Closed;
    ClosedMore(g, roots, Elements(p));
    forall x | x in p ensures x in r { assert x in Elements(p) && x in Elements(r); }
  }

  lemma ClosedMore(g: Graph, roots: seq<nat>, avoid: set<nat>)
    ensures avoid <= Closed(g, roots, avoid)
  {
  }

  // ----- one copy of each compound type

  const MAX_TYPE_DEPTH: nat := 1000

  datatype Ref = Null | At(t: nat)

  // A compound type is made after the type it is made from.
  ghost predicate Heaped(cells: seq<Shape>) {
    forall x :: 0 <= x < |cells| && cells[x].Compound? ==> cells[x].sub < x
  }

  // No two entries of the list are the same compound type.
  ghost predicate Interned(cells: seq<Shape>, types: seq<nat>) {
    && (forall i :: 0 <= i < |types| ==> types[i] < |cells|)
    && forall i, j :: 0 <= i < j < |types| && cells[types[i]].Compound? ==> cells[types[i]] != cells[types[j]]
  }

  // The type r is an identity or a compound made, in some steps, from one.
  ghost predicate Rooted(cells: seq<Shape>, r: nat)
    requires Heaped(cells) && r < |cells|
    decreases r
  {
    match cells[r]
    case Ident(_) => true
    case Compound(_, sub) => Rooted(cells, sub)
    case _ => false
  }

  // The type e is r with the identity it is made from replaced by its definition.
  ghost predicate Expands(cells: seq<Shape>, r: nat, e: nat)
    requires Heaped(cells) && r < |cells|
    decreases r
  {
    match cells[r]
    case Ident(defn) => e == defn
    case Compound(tag, sub) =>
      e < |cells| && cells[e].Compound? && cells[e].tag == tag && Expands(cells, sub, cells[e].sub)
    case _ => false
  }

  // The types from the n-th on are compounds on the list, and so are those with
  // their identities expanded.
  ghost predicate Expanded(cells: seq<Shape>, types: seq<nat>, n: nat)
    requires Heaped(cells)
  {
    forall x :: n <= x < |cells| ==>
      x in types && cells[x].Compound? && (Rooted(cells, x) ==> exists e :: e in types && Expands(cells, x, e))
  }

  // A store and a list that have grown.
  ghost predicate Grown(cells: seq<Shape>, types: seq<nat>, cells': seq<Shape>, types': seq<nat>) {
    && cells <= cells' && |types| <= |types'| && types'[|types'| - |types|..] == types
  }

  lemma {:induction false} RootedGrow(cells: seq<Shape>, cells': seq<Shape>, r: nat)
    requires Heaped(cells) && Heaped(cells') && cells <= cells' && r < |cells|
    ensures Rooted(cells, r) == Rooted(cells', r)
    decreases r
  {
    if cells[r].Compound? { RootedGrow(cells, cells', cells[r].sub); }
  }

  lemma {:induction false} ExpandsGrow(cells: seq<Shape>, cells': seq<Shape>, r: nat, e: nat)
    requires Heaped(cells) && Heaped(cells') && cells <= cells' && r < |cells| && Expands(cells, r, e)
    ensures Expands(cells', r, e)
    decreases r
  {
    if cells[r].Compound? { ExpandsGrow(cells, cells', cells[r].sub, cells[e].sub); }
  }

  lemma RootedStep(cells: seq<Shape>, r: nat)
    requires Heaped(cells) && r < |cells|
    ensures Rooted(cells, r) == (cells[r].Ident? || (cells[r].Compound? && Rooted(cells, cells[r].sub)))
  {
  }

  lemma ExpandsIdent(cells: seq<Shape>, r: nat)
    requires Heaped(cells) && r < |cells| && cells[r].Ident?
    ensures Expands(cells, r, cells[r].defn)
  {
  }

  lemma ExpandsCompound(cells: seq<Shape>, r: nat, e: nat, t: nat)
    requires Heaped(cells) && r < |cells| && t < |cells| && cells[r].Compound?
    requires cells[t] == Compound(cells[r].tag, e) && Expands(cells, cells[r].sub, e)
    ensures Expands(cells, r, t)
  {
  }

  // A type that was there is as it was.
  lemma GrownBefore(cells: seq<Shape>, types: seq<nat>, cells': seq<Shape>, types': seq<nat>, r: nat)
    requires Heaped(cells) && Heaped(cells') && Grown(cells, types, cells', types') && r < |cells|
    ensures |cells| <= |cells'| && cells <= cells' && cells'[r] == cells[r] && Rooted(cells, r) == Rooted(cells', r)
  {
    RootedGrow(cells, cells', r);
  }

  // What was expanded stays so.
  lemma ExpandedGrow(cells: seq<Shape>, types: seq<nat>, cells': seq<Shape>, types': seq<nat>, n: nat)
    requires Heaped(cells) && Heaped(cells') && Grown(cells, types, cells', types')
    requires Expanded(cells, types, n) && Expanded(cells', types', |cells|)
    ensures Expanded(cells', types', n)
  {
    hide Expands, Rooted, Heaped;
    forall x | n <= x < |cells'|
      ensures x in types' && cells'[x].Compound?
      ensures Rooted(cells', x) ==> exists e :: e in types' && Expands(cells', x, e)
    {
      if x < |cells| {
        assert x in types && cells[x] == cells'[x];
        ListGrow(types, types', x);
        RootedGrow(cells, cells', x);
        if Rooted(cells, x) {
          var e :| e in types && Expands(cells, x, e);
          ListGrow(types, types', e);
          ExpandsGrow(cells, cells', x, e);
        }
      }
    }
  }

  lemma ListGrow(types: seq<nat>, types': seq<nat>, x: nat)
    requires |types| <= |types'| && types'[|types'| - |types|..] == types && x in types
    ensures x in types'
  {
  }

  lemma GrownTwice(a: seq<Shape>, s: seq<nat>, b: seq<Shape>, t: seq<nat>, c: seq<Shape>, u: seq<nat>)
    requires Grown(a, s, b, t) && Grown(b, t, c, u)
    ensures Grown(a, s, c, u)
  {
    assert u[|u| - |s|..] == u[|u| - |t|..][|t| - |s|..];
  }

  // What the compound type r and its sub-type are after the sub-type has been
  // looked at.
  lemma SubGrown(a: seq<Shape>, s: seq<nat>, b: seq<Shape>, t: seq<nat>, r: nat)
    requires Heaped(a) && Heaped(b) && Grown(a, s, b, t) && r < |a| && a[r].Compound?
    ensures a <= b && b[r] == a[r] && Rooted(b, r) == Rooted(b, b[r].sub)
  {
    GrownBefore(a, s, b, t, r);
    RootedStep(b, r);
  }

  // And once the compound of its expansion e is there, at x.
  lemma CompoundGrown(a: seq<Shape>, s: seq<nat>, b: seq<Shape>, t: seq<nat>, c: seq<Shape>, u: seq<nat>,
                      r: nat, e: nat, x: nat)
    requires Heaped(a) && Heaped(b) && Heaped(c) && Grown(a, s, b, t) && Grown(b, t, c, u)
    requires r < |a| && a[r].Compound? && b[r] == a[r] && e < |b| && Expands(b, b[r].sub, e)
    requires x < |c| && c[x] == Compound(a[r].tag, e)
    ensures Grown(a, s, c, u) && r < |c| && c[r] == a[r] && Expands(c, r, x)
    ensures Expanded(b, t, |a|) && Expanded(c, u, |b|) ==> Expanded(c, u, |a|)
  {
    hide Expands, Expanded, Rooted;
    GrownTwice(a, s, b, t, c, u);
    GrownBefore(b, t, c, u, r);
    ExpandsGrow(b, c, b[r].sub, e);
    ExpandsCompound(c, r, e, x);
    if Expanded(b, t, |a|) && Expanded(c, u, |b|) { ExpandedGrow(b, t, c, u, |a|); }
  }

  ghost predicate Known(cells: seq<Shape>, types: seq<nat>, tag: Tag, r: nat) {
    exists t :: t in types && t < |cells| && cells[t] == Compound(tag, r)
  }

  lemma NoneNew(cells: seq<Shape>, types: seq<nat>)
    requires Heaped(cells)
    ensures Expanded(cells, types, |cells|) && Grown(cells, types, cells, types)
  {
  }

  lemma OneStep(cells: seq<Shape>, types: seq<nat>, cells': seq<Shape>, types': seq<nat>, tag: Tag, r: nat, depth: nat)
    requires Heaped(cells) && Heaped(cells') && r < |cells|
    requires cells' == cells + [Compound(tag, r)] && types' == [|cells|] + types
    ensures Grown(cells, types, cells', types') && Rooted(cells', |cells|) == Rooted(cells, r)
    ensures Shallow(cells, r, depth) ==> Shallow(cells', |cells|, depth)
  {
    hide Ends;
    RootedGrow(cells, cells', r);
    if Shallow(cells, r, depth) {
      EndsGrow(cells, cells', r, MAX_TYPE_DEPTH - depth);
      SameRoot(cells', |cells|, depth);
    }
  }

  lemma StillThere(cells: seq<Shape>, types: seq<nat>, cells': seq<Shape>, types': seq<nat>, s: nat)
    requires Heaped(cells) && Heaped(cells') && Grown(cells, types, cells', types') && s < |cells| && s in types
    ensures s in types' && s < |cells'| && cells'[s] == cells[s] && Rooted(cells, s) == Rooted(cells', s)
  {
    ListGrow(types, types', s);
    RootedGrow(cells, cells', s);
  }

  // ----- where identities lead

  // The identity a type is made from, if it is made from one.
  ghost function Root(cells: seq<Shape>, r: nat): (i: Ref)
    requires Heaped(cells) && r < |cells|
    ensures i.At? ==> i.t <= r && cells[i.t].Ident?
    ensures i.At? == Rooted(cells, r)
    decreases r
  {
    match cells[r]
    case Ident(_) => At(r)
    case Compound(_, sub) => Root(cells, sub)
    case _ => Null
  }

  // Going from identities to definitions comes to an end in at most k steps.
  ghost predicate Ends(cells: seq<Shape>, r: nat, k: nat)
    requires Heaped(cells) && r < |cells|
    decreases k
  {
    match Root(cells, r)
    case Null => true
    case At(i) => k > 0 && cells[i].defn < |cells| && Ends(cells, cells[i].defn, k - 1)
  }

  // Replacing identities in a type, from a given depth on, stays in the bound.
  ghost predicate Shallow(cells: seq<Shape>, r: nat, depth: nat)
    requires Heaped(cells) && r < |cells|
  {
    depth <= MAX_TYPE_DEPTH && Ends(cells, r, MAX_TYPE_DEPTH - depth)
  }

  lemma TooDeep(cells: seq<Shape>, r: nat, depth: nat)
    requires Heaped(cells) && r < |cells| && depth > MAX_TYPE_DEPTH
    ensures !Shallow(cells, r, depth)
  {
  }

  lemma {:induction false} RootGrow(cells: seq<Shape>, cells': seq<Shape>, r: nat)
    requires Heaped(cells) && Heaped(cells') && cells <= cells' && r < |cells|
    ensures Root(cells, r) == Root(cells', r)
    decreases r
  {
    if cells[r].Compound? { RootGrow(cells, cells', cells[r].sub); }
  }

  lemma {:induction false} EndsGrow(cells: seq<Shape>, cells': seq<Shape>, r: nat, k: nat)
    requires Heaped(cells) && Heaped(cells') && cells <= cells' && r < |cells| && Ends(cells, r, k)
    ensures Ends(cells', r, k)
    decreases k
  {
    RootGrow(cells, cells', r);
    match Root(cells, r)
    case Null =>
    case At(i) => EndsGrow(cells, cells', cells[i].defn, k - 1);
  }

  // A type and one made from it by an operation lead to the same.
  lemma SameRoot(cells: seq<Shape>, r: nat, depth: nat)
    requires Heaped(cells) && r < |cells| && cells[r].Compound?
    ensures cells[r].sub < r && Shallow(cells, r, depth) == Shallow(cells, cells[r].sub, depth)
  {
    if depth <= MAX_TYPE_DEPTH { EndsSame(cells, r, cells[r].sub, MAX_TYPE_DEPTH - depth); }
  }

  lemma EndsSame(cells: seq<Shape>, r: nat, q: nat, k: nat)
    requires Heaped(cells) && r < |cells| && q < |cells| && Root(cells, r) == Root(cells, q)
    ensures Ends(cells, r, k) == Ends(cells, q, k)
  {
  }

  lemma {:induction false} ExpandsRoot(cells: seq<Shape>, r: nat, e: nat)
    requires Heaped(cells) && r < |cells| && e < |cells| && Expands(cells, r, e)
    ensures Root(cells, r).At? && cells[Root(cells, r).t].defn < |cells|
    ensures Root(cells, e) == Root(cells, cells[Root(cells, r).t].defn)
    decreases r
  {
    if cells[r].Compound? {
      ExpandsRoot(cells, cells[r].sub, cells[e].sub);
    }
  }

  // An expansion is one step nearer to the end.
  lemma ShallowNext(cells: seq<Shape>, cells': seq<Shape>, r: nat, e: nat, depth: nat)
    requires Heaped(cells) && Heaped(cells') && cells <= cells' && r < |cells| && e < |cells'|
    requires Expands(cells', r, e) && Shallow(cells, r, depth)
    ensures Shallow(cells', e, depth + 1)
  {
    var k: nat := MAX_TYPE_DEPTH - depth;
    EndsGrow(cells, cells', r, k);
    ExpandsRoot(cells', r, e);
    EndsSame(cells', e, cells'[Root(cells', r).t].defn, k - 1);
  }

  // A pointer type that is its own definition: this never ends.
  lemma {:induction false} SelfReference(k: nat)
    ensures Heaped([Ident(1), Compound(PtrTag, 0)]) && !Ends([Ident(1), Compound(PtrTag, 0)], 0, k)
    decreases k
  {
    var cells := [Ident(1), Compound(PtrTag, 0)];
    assert Root(cells, 0) == At(0) && Root(cells, 1) == Root(cells, 0);
    if k > 0 {
      SelfReference(k - 1);
      EndsSame(cells, 0, 1, k - 1);
    }
  }

  // The new compound and its expansion, and those made on the way.
  lemma OneMore(cells: seq<Shape>, types: seq<nat>, s: nat, e: Ref)
    requires Heaped(cells) && s < |cells| && cells[s].Compound? && s in types && Expanded(cells, types, s + 1)
    requires e.At? ==> Expands(cells, s, e.t) && e.t in types
    requires e.Null? ==> !Rooted(cells, s)
    ensures Expanded(cells, types, s)
  {
    hide Expands, Rooted, Heaped;
  }

  lemma PartsInside(cells: seq<Shape>, r: nat)
    requires GraphOk(GraphOf(cells)) && r < |cells|
    ensures forall i :: 0 <= i < |Parts(cells[r])| ==> Parts(cells[r])[i] < |cells|
  {
    assert Inside(GraphOf(cells), GraphOf(cells)[r]);
  }

  lemma PartsAdded(cells: seq<Shape>, types: seq<nat>, shape: Shape)
    requires GraphOk(GraphOf(cells)) && Inside(GraphOf(cells), types)
    requires forall i :: 0 <= i < |Parts(shape)| ==> Parts(shape)[i] < |cells|
    ensures var cells' := cells + [shape];
            GraphOk(GraphOf(cells')) && Inside(GraphOf(cells'), [|cells|] + types)
  {
    var g, h := GraphOf(cells), GraphOf(cells + [shape]);
    forall x | 0 <= x < |h| ensures Inside(h, h[x]) {
      if x < |g| { assert h[x] == g[x] && Inside(g, g[x]); }
    }
  }

  // ----- names

  function TagName(tag: Tag): string {
    match tag
    case PtrTag => "PTR"
    case ListTag => "LIST"
    case StackTag => "STACK"
    case VecTag => "VEC"
    case VecPtrTag => "VEC_PTR"
  }

  predicate IsTagName(nm: string) {
    nm in {"PTR", "LIST", "STACK", "VEC", "VEC_PTR"}
  }

  // The name of a type; compounds are known by their operation alone.
  function NameType(cells: seq<Shape>, names: seq<string>, t: nat): string
    requires t < |cells| == |names|
  {
    if cells[t].Compound? then TagName(cells[t].tag) else names[t]
  }

  // The first type on the list that has the name.
  function Lookup(cells: seq<Shape>, names: seq<string>, types: seq<nat>, nm: string): (r: Ref)
    requires |cells| == |names| && forall i :: 0 <= i < |types| ==> types[i] < |cells|
    ensures r.At? ==> r.t in types && r.t < |cells|
  {
    if types == [] then Null
    else if NameType(cells, names, types[0]) == nm then At(types[0])
    else Lookup(cells, names, types[1..], nm)
  }

  // No two types on the list that are no compounds have the same name.
  ghost predicate NamedOnce(cells: seq<Shape>, names: seq<string>, types: seq<nat>)
  {
    && |cells| == |names| && (forall i :: 0 <= i < |types| ==> types[i] < |cells|)
    && (forall i :: 0 <= i < |types| && !cells[types[i]].Compound? ==> !IsTagName(names[types[i]]))
    && forall i, j :: 0 <= i < j < |types| && !cells[types[i]].Compound? && !cells[types[j]].Compound? ==>
         names[types[i]] != names[types[j]]
  }

  lemma NotTag(cells: seq<Shape>, names: seq<string>, t: nat, nm: string)
    requires t < |cells| == |names| && NameType(cells, names, t) == nm && !IsTagName(nm)
    ensures !cells[t].Compound? && names[t] == nm
  {
  }

  lemma {:induction false} LookupNone(cells: seq<Shape>, names: seq<string>, types: seq<nat>, nm: string, i: nat)
    requires |cells| == |names| && forall i :: 0 <= i < |types| ==> types[i] < |cells|
    requires Lookup(cells, names, types, nm) == Null && i < |types|
    ensures NameType(cells, names, types[i]) != nm
    decreases i
  {
    if i > 0 { LookupNone(cells, names, types[1..], nm, i - 1); }
  }

  // Defining a type that is no compound leaves everything else as it is.
  lemma Redefined(cells: seq<Shape>, names: seq<string>, types: seq<nat>, t: nat, shape: Shape)
    requires GraphOk(GraphOf(cells)) && Inside(GraphOf(cells), types) && t < |cells|
    requires Heaped(cells) && Interned(cells, types) && NamedOnce(cells, names, types)
    requires !cells[t].Compound? && !shape.Compound?
    requires forall i :: 0 <= i < |Parts(shape)| ==> Parts(shape)[i] < |cells|
    ensures var cells' := cells[t := shape];
            && GraphOk(GraphOf(cells')) && Inside(GraphOf(cells'), types)
            && Heaped(cells') && Interned(cells', types) && NamedOnce(cells', names, types)
  {
    hide IsTagName;
    var g, h := GraphOf(cells), GraphOf(cells[t := shape]);
    forall x | 0 <= x < |h| ensures Inside(h, h[x]) {
      if x != t { assert h[x] == g[x] && Inside(g, g[x]); }
    }
  }

  lemma Registered(cells: seq<Shape>, names: seq<string>, types: seq<nat>, shape: Shape, nm: string)
    requires GraphOk(GraphOf(cells)) && Inside(GraphOf(cells), types)
    requires Heaped(cells) && Interned(cells, types) && NamedOnce(cells, names, types)
    requires !shape.Compound? && !IsTagName(nm) && Lookup(cells, names, types, nm) == Null
    requires forall i :: 0 <= i < |Parts(shape)| ==> Parts(shape)[i] < |cells|
    ensures var cells', types' := cells + [shape], [|cells|] + types;
            && GraphOk(GraphOf(cells')) && Inside(GraphOf(cells'), types')
            && Heaped(cells') && Interned(cells', types') && NamedOnce(cells', names + [nm], types')
  {
    hide IsTagName, GraphOk, GraphOf, Inside, Lookup;
    PartsAdded(cells, types, shape);
    forall i | 0 <= i < |types| ensures NameType(cells, names, types[i]) != nm {
      LookupNone(cells, names, types, nm, i);
    }
  }

  lemma CompoundAdded(cells: seq<Shape>, names: seq<string>, types: seq<nat>, tag: Tag, r: nat)
    requires NamedOnce(cells, names, types)
    ensures NamedOnce(cells + [Compound(tag, r)], names + [""], [|cells|] + types)
  {
    hide IsTagName;
  }

  lemma {:induction false} FieldsNext(g: Graph, fs: seq<seq<nat>>, i: nat)
    requires i < |fs| && Inside(g, FieldsParts(fs))
    ensures FieldsParts(fs[..i + 1]) == FieldsParts(fs[..i]) + fs[i]
    ensures Inside(g, FieldsParts(fs[..i])) && Inside(g, fs[i])
    decreases |fs| - i
  {
    if i + 1 == |fs| {
      assert fs[..i + 1] == fs;
    } else {
      FieldsNext(g, fs, i + 1);
    }
    assert fs[..i + 1][..i] == fs[..i];
    InsideBoth(g, FieldsParts(fs[..i]), fs[i]);
  }

  lemma {:induction false} MapsNext(g: Graph, ms: seq<Mapping>, i: nat)
    requires i < |ms| && Inside(g, MapsParts(ms))
    ensures MapsParts(ms[..i + 1]) == MapsParts(ms[..i]) + MapParts(ms[i])
    ensures Inside(g, MapsParts(ms[..i])) && Inside(g, MapParts(ms[i]))
    decreases |ms| - i
  {
    if i + 1 == |ms| {
      assert ms[..i + 1] == ms;
    } else {
      MapsNext(g, ms, i + 1);
    }
    assert ms[..i + 1][..i] == ms[..i];
    InsideBoth(g, MapsParts(ms[..i]), MapParts(ms[i]));
  }
}
