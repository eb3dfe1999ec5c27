// The size of a type, by its structure: calculus/src/common.c and common.h.
module TypeSizes {
  import opened TypeShapes

  const SIZE_PRIM: nat := 1
  const SIZE_ENUM: nat := 1
  const SIZE_UNION: nat := 1
  const SIZE_PTR: nat := 1
  const SIZE_LIST: nat := 1
  const SIZE_STACK: nat := 1
  const SIZE_VEC: nat := 3
  const SIZE_VEC_PTR: nat := 2

  function TagSize(tag: Tag): nat {
    match tag
    case PtrTag => SIZE_PTR
    case ListTag => SIZE_LIST
    case StackTag => SIZE_STACK
    case VecTag => SIZE_VEC
    case VecPtrTag => SIZE_VEC_PTR
  }

  // Identities and structures are nested at most d deep in the type t.
  predicate Within(cells: seq<Shape>, t: nat, d: nat)
    decreases d, 1, 0
  {
    t < |cells| &&
    match cells[t]
    case Ident(defn) => d > 0 && Within(cells, defn, d - 1)
    case Structure(comps) => comps == [] || (d > 0 && AllWithin(cells, comps, d - 1))
    case _ => true
  }

  predicate AllWithin(cells: seq<Shape>, ts: seq<nat>, d: nat)
    decreases d, 2, |ts|
  {
    ts == [] || (AllWithin(cells, ts[..|ts| - 1], d) && Within(cells, ts[|ts| - 1], d))
  }

  // The size of a type by its structure alone.
  function Size(cells: seq<Shape>, t: nat, d: nat): nat
    requires Within(cells, t, d)
    decreases d, 1, 0
  {
    match cells[t]
    case Ident(defn) => Size(cells, defn, d - 1)
    case Structure(comps) => if comps == [] then 0 else SumSize(cells, comps, d - 1)
    case Primitive => SIZE_PRIM
    case Enumeration => SIZE_ENUM
    case Onion(_, _, _) => SIZE_UNION
    case Compound(tag, _) => TagSize(tag)
    case Undef => 1
    case Quote => 1
  }

  function SumSize(cells: seq<Shape>, ts: seq<nat>, d: nat): nat
    requires AllWithin(cells, ts, d)
    decreases d, 2, |ts|
  {
    if ts == [] then 0 else SumSize(cells, ts[..|ts| - 1], d) + Size(cells, ts[|ts| - 1], d)
  }

  // No undefined type is nested in t.
  predicate Defined(cells: seq<Shape>, t: nat, d: nat)
    requires Within(cells, t, d)
    decreases d, 1, 0
  {
    match cells[t]
    case Ident(defn) => Defined(cells, defn, d - 1)
    case Structure(comps) => comps == [] || AllDefined(cells, comps, d - 1)
    case Undef => false
    case Quote => false
    case _ => true
  }

  predicate AllDefined(cells: seq<Shape>, ts: seq<nat>, d: nat)
    requires AllWithin(cells, ts, d)
    decreases d, 2, |ts|
  {
    ts == [] || (AllDefined(cells, ts[..|ts| - 1], d) && Defined(cells, ts[|ts| - 1], d))
  }

  // Nothing is missing where nothing is undefined.
  lemma {:induction false} NoneUndefined(cells: seq<Shape>, t: nat, d: nat)
    requires Within(cells, t, d) && forall x :: 0 <= x < |cells| ==> !cells[x].Undef? && !cells[x].Quote?
    ensures Defined(cells, t, d)
    decreases d, 1, 0
  {
    match cells[t]
    case Ident(defn) => NoneUndefined(cells, defn, d - 1);
    case Structure(comps) => if comps != [] { NoneUndefinedIn(cells, comps, d - 1); }
    case _ =>
  }

  lemma {:induction false} NoneUndefinedIn(cells: seq<Shape>, ts: seq<nat>, d: nat)
    requires AllWithin(cells, ts, d) && forall x :: 0 <= x < |cells| ==> !cells[x].Undef? && !cells[x].Quote?
    ensures AllDefined(cells, ts, d)
    decreases d, 2, |ts|
  {
    if ts != [] {
      NoneUndefinedIn(cells, ts[..|ts| - 1], d);
      NoneUndefined(cells, ts[|ts| - 1], d);
    }
  }

  // However deep one looks, the size is the same.
  lemma {:induction false} SizeDeeper(cells: seq<Shape>, t: nat, d: nat, e: nat)
    requires Within(cells, t, d) && d <= e
    ensures Within(cells, t, e) && Size(cells, t, e) == Size(cells, t, d)
    decreases d, 1, 0
  {
    match cells[t]
    case Ident(defn) => SizeDeeper(cells, defn, d - 1, e - 1);
    case Structure(comps) => if comps != [] { SumDeeper(cells, comps, d - 1, e - 1); }
    case _ =>
  }

  lemma {:induction false} SumDeeper(cells: seq<Shape>, ts: seq<nat>, d: nat, e: nat)
    requires AllWithin(cells, ts, d) && d <= e
    ensures AllWithin(cells, ts, e) && SumSize(cells, ts, e) == SumSize(cells, ts, d)
    decreases d, 2, |ts|
  {
    if ts != [] {
      SumDeeper(cells, ts[..|ts| - 1], d, e);
      SizeDeeper(cells, ts[|ts| - 1], d, e);
    }
  }

  // Every stored size that is set is the type's size.
  ghost predicate Cached(cells: seq<Shape>, sizes: seq<nat>, most: nat) {
    && |sizes| == |cells|
    && forall t :: 0 <= t < |cells| && sizes[t] != 0 && Within(cells, t, most) ==> sizes[t] == Size(cells, t, most)
  }

  // The type contains itself.
  ghost predicate Cyclic(cells: seq<Shape>, t: nat) {
    forall d: nat :: !Within(cells, t, d)
  }

  // No size is stored for a type that contains itself.
  ghost predicate CyclicUnset(cells: seq<Shape>, sizes: seq<nat>)
    requires |sizes| == |cells|
  {
    forall t :: 0 <= t < |cells| && Cyclic(cells, t) ==> sizes[t] == 0
  }

  // A structure that contains itself has a component that does.
  lemma {:induction false} CyclicPart(cells: seq<Shape>, ts: seq<nat>) returns (i: nat, d: nat)
    ensures AllWithin(cells, ts, d) || (i < |ts| && Cyclic(cells, ts[i]))
    decreases |ts|
  {
    i, d := 0, 0;
    if ts != [] {
      var last := |ts| - 1;
      i, d := CyclicPart(cells, ts[..last]);
      if AllWithin(cells, ts[..last], d) {
        if Cyclic(cells, ts[last]) {
          i := last;
        } else {
          var e: nat :| Within(cells, ts[last], e);
          var m := if d < e then e else d;
          SumDeeper(cells, ts[..last], d, m);
          SizeDeeper(cells, ts[last], e, m);
          d := m;
        }
      }
    }
  }

  // What contains itself below t.
  lemma CyclicBelow(cells: seq<Shape>, t: nat)
    requires t < |cells| && Cyclic(cells, t)
    ensures cells[t].Ident? || (cells[t].Structure? && cells[t].comps != [])
    ensures cells[t].Ident? ==> Cyclic(cells, cells[t].defn)
    ensures cells[t].Structure? ==> exists i :: 0 <= i < |cells[t].comps| && Cyclic(cells, cells[t].comps[i])
  {
    assert !Within(cells, t, 0);
    if cells[t].Ident? {
      forall d: nat ensures !Within(cells, cells[t].defn, d) { assert !Within(cells, t, d + 1); }
    } else {
      var i, d := CyclicPart(cells, cells[t].comps);
      assert !Within(cells, t, d + 1);
    }
  }

  // The first components, and one more.
  lemma {:induction false} SumNext(cells: seq<Shape>, ts: seq<nat>, i: nat, d: nat)
    requires i < |ts| && AllWithin(cells, ts, d)
    ensures AllWithin(cells, ts[..i], d) && Within(cells, ts[i], d) && AllWithin(cells, ts[..i + 1], d)
    ensures SumSize(cells, ts[..i + 1], d) == SumSize(cells, ts[..i], d) + Size(cells, ts[i], d)
    ensures AllDefined(cells, ts[..i + 1], d) == (AllDefined(cells, ts[..i], d) && Defined(cells, ts[i], d))
    ensures AllDefined(cells, ts, d) ==> AllDefined(cells, ts[..i + 1], d)
    decreases |ts| - i
  {
    if i + 1 == |ts| {
      assert ts[..i + 1] == ts;
    } else {
      SumNext(cells, ts, i + 1, d);
    }
    assert ts[..i + 1][..i] == ts[..i];
  }

  lemma SumNone(cells: seq<Shape>, ts: seq<nat>, d: nat)
    ensures AllWithin(cells, ts[..0], d) && SumSize(cells, ts[..0], d) == 0
  {
  }

  lemma {:induction false} AllEach(cells: seq<Shape>, ts: seq<nat>, i: nat, d: nat)
    requires i < |ts| && AllWithin(cells, ts, d)
    ensures Within(cells, ts[i], d) && (AllDefined(cells, ts, d) ==> Defined(cells, ts[i], d))
    decreases |ts|
  {
    if i < |ts| - 1 { AllEach(cells, ts[..|ts| - 1], i, d); }
  }

  lemma UndefinedNot(cells: seq<Shape>, t: nat)
    requires t < |cells| && cells[t].Undef?
    ensures forall d: nat :: Within(cells, t, d) ==> !Defined(cells, t, d)
  {
  }

  // A size that is stored is right however deep one looks.
  lemma SizeKnown(cells: seq<Shape>, sizes: seq<nat>, most: nat, t: nat, d: nat)
    requires Cached(cells, sizes, most) && t < |cells| && sizes[t] != 0
    ensures d <= most && Within(cells, t, d) ==> sizes[t] == Size(cells, t, d)
    ensures CyclicUnset(cells, sizes) ==> !Cyclic(cells, t)
  {
    hide Within, Size, Cyclic;
    if d <= most && Within(cells, t, d) { SizeDeeper(cells, t, d, most); }
  }

  // Storing a size that is right keeps the stored sizes right.
  lemma SizeStored(cells: seq<Shape>, sizes: seq<nat>, t: nat, sz: nat, most: nat)
    requires Cached(cells, sizes, most) && t < |cells|
    requires Within(cells, t, most) ==> sz == Size(cells, t, most)
    ensures Cached(cells, sizes[t := sz], most)
    ensures CyclicUnset(cells, sizes) && !Cyclic(cells, t) ==> CyclicUnset(cells, sizes[t := sz])
  {
    hide Within, Size, Cyclic;
  }

  // ----- laws of sizes

  lemma {:induction false} SumConcat(cells: seq<Shape>, a: seq<nat>, b: seq<nat>, d: nat)
    ensures AllWithin(cells, a + b, d) <==> AllWithin(cells, a, d) && AllWithin(cells, b, d)
    ensures AllWithin(cells, a + b, d) ==>
              SumSize(cells, a + b, d) == SumSize(cells, a, d) + SumSize(cells, b, d)
    decreases |b|
  {
    if b == [] {
      assert a + b == a;
    } else {
      var last := |b| - 1;
      assert (a + b)[..|a + b| - 1] == a + b[..last];
      SumConcat(cells, a, b[..last], d);
    }
  }

  // The sizes of types that are not made of others.
  lemma SizeLeaf(cells: seq<Shape>, t: nat, d: nat)
    requires t < |cells|
    ensures cells[t] in {Primitive, Enumeration, Undef, Quote} || cells[t].Onion? ==>
              Within(cells, t, d) && Size(cells, t, d) == 1
    ensures cells[t].Compound? ==>
              && Within(cells, t, d)
              && Size(cells, t, d) == (if cells[t].tag.VecTag? then 3 else if cells[t].tag.VecPtrTag? then 2 else 1)
  {
  }

  // An identity has the size of its definition.
  lemma SizeIdent(cells: seq<Shape>, t: nat, u: nat, d: nat)
    requires Within(cells, t, d) && cells[t] == Ident(u)
    ensures Within(cells, u, d) && Size(cells, t, d) == Size(cells, u, d)
  {
    SizeDeeper(cells, u, d - 1, d);
  }

  // A structure of one component has the size of the component.
  lemma SizeSingle(cells: seq<Shape>, t: nat, u: nat, d: nat)
    requires Within(cells, t, d) && cells[t] == Structure([u])
    ensures Within(cells, u, d) && Size(cells, t, d) == Size(cells, u, d)
  {
    assert [u][..0] == [];
    assert SumSize(cells, [u], d - 1) == Size(cells, u, d - 1);
    SizeDeeper(cells, u, d - 1, d);
  }

  // The components of two structures together make the sum of their sizes.
  lemma SizeBoth(cells: seq<Shape>, t: nat, u: nat, v: nat, a: seq<nat>, b: seq<nat>, d: nat)
    requires Within(cells, t, d) && cells[t] == Structure(a + b)
    requires u < |cells| && v < |cells| && cells[u] == Structure(a) && cells[v] == Structure(b)
    ensures Within(cells, u, d) && Within(cells, v, d)
    ensures Size(cells, t, d) == Size(cells, u, d) + Size(cells, v, d)
  {
    if a + b != [] { SumConcat(cells, a, b, d - 1); }
  }

  // What these laws say of a size found while right sizes are stored.
  lemma FoundLaws(cells: seq<Shape>, sizes: seq<nat>, most: nat, t: nat, sz: nat, d: nat)
    requires Cached(cells, sizes, most) && t < |cells| && d <= most
    requires Within(cells, t, d) ==> sz == Size(cells, t, d)
    ensures cells[t].Primitive? || cells[t].Enumeration? || cells[t].Onion? ==> sz == 1
    ensures cells[t].Compound? ==> sz == if cells[t].tag.VecTag? then 3 else if cells[t].tag.VecPtrTag? then 2 else 1
    ensures Within(cells, t, d) ==>
              forall u :: 0 <= u < |cells| && sizes[u] != 0 && cells[t] in {Ident(u), Structure([u])} ==>
                sz == sizes[u]
    ensures Within(cells, t, d) ==>
              forall u, v :: 0 <= u < |cells| && 0 <= v < |cells| && sizes[u] != 0 && sizes[v] != 0
                             && cells[u].Structure? && cells[v].Structure?
                             && cells[t] == Structure(cells[u].comps + cells[v].comps) ==>
                sz == sizes[u] + sizes[v]
  {
    SizeLeaf(cells, t, d);
    hide Within, Size;
    if !Within(cells, t, d) { return; }
    SizeDeeper(cells, t, d, most);
    forall u | 0 <= u < |cells| && sizes[u] != 0 && cells[t] in {Ident(u), Structure([u])} ensures sz == sizes[u] {
      if cells[t].Ident? { SizeIdent(cells, t, u, most); } else { SizeSingle(cells, t, u, most); }
    }
    forall u, v | 0 <= u < |cells| && 0 <= v < |cells| && sizes[u] != 0 && sizes[v] != 0
                  && cells[u].Structure? && cells[v].Structure?
                  && cells[t] == Structure(cells[u].comps + cells[v].comps)
      ensures sz == sizes[u] + sizes[v]
    {
      SizeBoth(cells, t, u, v, cells[u].comps, cells[v].comps, most);
    }
  }

  // And of all the sizes stored once they are.
  lemma StoredLaws(cells: seq<Shape>, types: seq<nat>, sizes: seq<nat>, most: nat)
    requires |sizes| == |cells| && (forall t :: t in types ==> t < |cells|)
    requires forall t :: t in types && !cells[t].Undef? && Within(cells, t, most) ==> sizes[t] == Size(cells, t, most)
    ensures forall t :: t in types && (cells[t].Primitive? || cells[t].Enumeration? || cells[t].Onion?) ==>
              sizes[t] == 1
    ensures forall t :: t in types && cells[t].Compound? ==>
              sizes[t] == if cells[t].tag.VecTag? then 3 else if cells[t].tag.VecPtrTag? then 2 else 1
    ensures forall t, u :: t in types && u in types && !cells[u].Undef? && Within(cells, t, most)
                           && cells[t] in {Ident(u), Structure([u])} ==>
              sizes[t] == sizes[u]
    ensures forall t, u, v :: t in types && u in types && v in types && Within(cells, t, most)
                              && cells[u].Structure? && cells[v].Structure?
                              && cells[t] == Structure(cells[u].comps + cells[v].comps) ==>
              sizes[t] == sizes[u] + sizes[v]
  {
    hide Within, Size;
    forall t | t in types ensures
      && (cells[t].Primitive? || cells[t].Enumeration? || cells[t].Onion? ==> sizes[t] == 1)
      && (cells[t].Compound? ==>
            sizes[t] == if cells[t].tag.VecTag? then 3 else if cells[t].tag.VecPtrTag? then 2 else 1)
    {
      SizeLeaf(cells, t, most);
    }
    forall t, u | t in types && u in types && !cells[u].Undef? && Within(cells, t, most)
                  && cells[t] in {Ident(u), Structure([u])}
      ensures sizes[t] == sizes[u]
    {
      if cells[t].Ident? { SizeIdent(cells, t, u, most); } else { SizeSingle(cells, t, u, most); }
    }
    forall t, u, v | t in types && u in types && v in types && Within(cells, t, most)
                     && cells[u].Structure? && cells[v].Structure?
                     && cells[t] == Structure(cells[u].comps + cells[v].comps)
      ensures sizes[t] == sizes[u] + sizes[v]
    {
      SizeBoth(cells, t, u, v, cells[u].comps, cells[v].comps, most);
    }
  }
}
