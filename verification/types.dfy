// The types of an algebra: calculus/src/common.c.
module Types {
  import opened Closure
  import opened TypeShapes
  import opened TypeSizes

  class Algebra {
    var cells: seq<Shape>
    var names: seq<string>
    var sizes: seq<nat>
    // The list of all types.
    var types: seq<nat>
    var errors: nat

    constructor ()
      ensures Unique() && cells == [] && types == []
    {
      cells, names, sizes, types, errors := [], [], [], [], 0;
    }

    ghost predicate Valid()
      reads this
    {
      |names| == |sizes| == |cells| && GraphOk(GraphOf(cells)) && Inside(GraphOf(cells), types)
    }

    // The state between calls: one entry for each compound type and each name.
    ghost predicate Unique()
      reads this
    {
      Valid() && Heaped(cells) && Interned(cells, types) && NamedOnce(cells, names, types)
    }

    // Add a type to the list of all types; a type used before it is defined is
    // there already.
    method RegisterType(nm: string, shape: Shape) returns (s: nat)
      requires Unique() && !shape.Compound? && !IsTagName(nm)
      requires forall i :: 0 <= i < |Parts(shape)| ==> Parts(shape)[i] < |cells|
      modifies this
      ensures Unique() && s in types && s < |cells| && cells[s] == shape && NameType(cells, names, s) == nm
      ensures var t := Lookup(old(cells), old(names), old(types), nm);
              if t.At? then
                && s == t.t && cells == old(cells)[s := shape] && types == old(types) && names == old(names)
                && errors == old(errors) + (if old(cells)[s].Undef? then 0 else 1)
              else
                && s == |old(cells)| && cells == old(cells) + [shape] && types == [s] + old(types)
                && names == old(names) + [nm] && errors == old(errors)
    {
      hide GraphOk, GraphOf, Interned, NamedOnce, Lookup;
      var r := FindName(nm);
      match r {
        case At(t) =>
          s := t;
          NotTag(cells, names, t, nm);
          Redefined(cells, names, types, t, shape);
          if !cells[t].Undef? { errors := errors + 1; }
          cells := cells[t := shape];
        case Null =>
          s := |cells|;
          Registered(cells, names, types, shape, nm);
          cells, names, sizes := cells + [shape], names + [nm], sizes + [0];
          types := [s] + types;
      }
    }

    // The type of that name, undefined if it is new.
    method FindType(nm: string) returns (s: nat)
      requires Unique() && !IsTagName(nm)
      modifies this
      ensures Unique() && s in types && s < |cells| && NameType(cells, names, s) == nm && errors == old(errors)
      ensures var t := Lookup(old(cells), old(names), old(types), nm);
              if t.At? then s == t.t && cells == old(cells) && types == old(types)
              else s == |old(cells)| && cells == old(cells) + [Undef] && types == [s] + old(types)
    {
      hide GraphOk, GraphOf, Interned, NamedOnce, Lookup;
      var r := FindName(nm);
      match r {
        case At(t) => s := t;
        case Null => s := RegisterType(nm, Undef);
      }
    }

    method FindName(nm: string) returns (s: Ref)
      requires Unique()
      ensures s == Lookup(cells, names, types, nm)
      ensures s.At? ==> s.t in types && s.t < |cells| && NameType(cells, names, s.t) == nm
    {
      hide GraphOk, GraphOf, Interned, NamedOnce, NameType, Heaped;
      var t := 0;
      assert types[0..] == types;
      while t < |types|
        invariant t <= |types| && Lookup(cells, names, types, nm) == Lookup(cells, names, types[t..], nm)
      {
        assert types[t..][0] == types[t] && types[t..][1..] == types[t + 1..];
        if NameType(cells, names, types[t]) == nm { return At(types[t]); }
        t := t + 1;
      }
      s := Null;
    }

    // A compound of an identity is the identity of a compound.
    method CompoundIdentity(r: nat, depth: nat) returns (s: Ref)
      requires Unique() && r < |cells|
      modifies this
      ensures Unique() && Grown(old(cells), old(types), cells, types) && old(errors) <= errors
      ensures errors == old(errors) ==> Expanded(cells, types, |old(cells)|)
      ensures s.At? ==> s.t < |cells| && Expands(cells, r, s.t) && (cells[r].Compound? ==> s.t in types)
      ensures s.Null? && errors == old(errors) ==> !Rooted(cells, r)
      ensures Shallow(old(cells), r, depth) ==> errors == old(errors)
      ensures depth <= MAX_TYPE_DEPTH && !Rooted(old(cells), r) ==>
                s == Null && cells == old(cells) && types == old(types) && errors == old(errors)
      decreases if depth <= MAX_TYPE_DEPTH then MAX_TYPE_DEPTH + 1 - depth else 0, 0, r
    {
      hide Expanded, GraphOk, GraphOf, Interned, NamedOnce, Rooted, Expands, Grown, Inside, Shallow;
      NoneNew(cells, types);
      RootedStep(cells, r);
      if depth > MAX_TYPE_DEPTH {
        TooDeep(cells, r, depth);
        errors := errors + 1;
        return Null;
      }
      match cells[r] {
        case Ident(defn) =>
          PartsInside(cells, r);
          assert Parts(cells[r])[0] == defn;
          ExpandsIdent(cells, r);
          return At(defn);
        case Compound(tag, sub) =>
          ghost var cells0, types0 := cells, types;
          SameRoot(cells, r, depth);
          s := CompoundIdentity(sub, depth);
          ghost var cells1, types1 := cells, types;
          SubGrown(cells0, types0, cells1, types1, r);
          if s.At? {
            if Shallow(cells0, sub, depth) { ShallowNext(cells0, cells1, sub, s.t, depth); }
            var t := CompoundType(tag, s.t, depth + 1);
            CompoundGrown(cells0, types0, cells1, types1, cells, types, r, s.t, t);
            return At(t);
          }
        case _ =>
      }
      s := Null;
    }

    // The compound of a sub-type, one for each operation and sub-type.
    method CompoundType(tag: Tag, r: nat, depth: nat) returns (s: nat)
      requires Unique() && r < |cells|
      modifies this
      ensures Unique() && Grown(old(cells), old(types), cells, types) && old(errors) <= errors
      ensures s in types && s < |cells| && cells[s] == Compound(tag, r)
      ensures errors == old(errors) ==> Expanded(cells, types, |old(cells)|)
      ensures Shallow(old(cells), r, depth) ==> errors == old(errors)
      ensures Known(old(cells), old(types), tag, r) ==>
                cells == old(cells) && types == old(types) && errors == old(errors)
      ensures !Known(old(cells), old(types), tag, r) ==> s == |old(cells)|
      ensures !Known(old(cells), old(types), tag, r) && depth <= MAX_TYPE_DEPTH && !Rooted(old(cells), r) ==>
                cells == old(cells) + [Compound(tag, r)] && types == [s] + old(types) && errors == old(errors)
      decreases if depth <= MAX_TYPE_DEPTH then MAX_TYPE_DEPTH + 1 - depth else 0, 1
    {
      hide Expanded, Heaped, Known, Rooted, Expands, Grown, Shallow, Unique;
      InHeap();
      NoneNew(cells, types);
      var known := FindCompound(tag, r);
      if known.At? { return known.t; }
      ghost var cells0, types0 := cells, types;
      s := AddCompound(tag, r);
      ghost var cells1, types1 := cells, types;
      InHeap();
      OneStep(cells0, types0, cells1, types1, tag, r, depth);
      var e := CompoundIdentity(s, depth);
      InHeap();
      GrownTwice(cells0, types0, cells1, types1, cells, types);
      StillThere(cells1, types1, cells, types, s);
      if errors == old(errors) {
        OneMore(cells, types, s, e);
      }
    }

    lemma InHeap()
      requires Unique()
      ensures Heaped(cells)
    {
    }

    // The compound may be there already.
    method FindCompound(tag: Tag, r: nat) returns (s: Ref)
      requires Unique()
      ensures s.At? ==> s.t in types && s.t < |cells| && cells[s.t] == Compound(tag, r) && Known(cells, types, tag, r)
      ensures s.Null? ==> !Known(cells, types, tag, r)
    {
      hide Heaped, GraphOk, GraphOf, NamedOnce;
      var t := 0;
      while t < |types|
        invariant t <= |types|
        invariant forall i :: 0 <= i < t ==> cells[types[i]] != Compound(tag, r)
      {
        var c := types[t];
        if cells[c].Compound? && cells[c].tag == tag && cells[c].sub == r { return At(c); }
        t := t + 1;
      }
      s := Null;
    }

    method AddCompound(tag: Tag, r: nat) returns (s: nat)
      requires Unique() && r < |cells| && !Known(cells, types, tag, r)
      modifies this`cells, this`types, this`names, this`sizes
      ensures Unique() && s == |old(cells)|
      ensures cells == old(cells) + [Compound(tag, r)] && types == [s] + old(types)
    {
      hide GraphOk, GraphOf, Inside, NamedOnce;
      s := |cells|;
      PartsAdded(cells, types, Compound(tag, r));
      CompoundAdded(cells, names, types, tag, r);
      cells, names, sizes := cells + [Compound(tag, r)], names + [""], sizes + [0];
      types := [s] + types;
    }

    // How big a type is, kept once it is known.
    method SizeType(t: nat, depth: nat) returns (sz: nat)
      requires Valid() && t < |cells| && depth <= MAX_TYPE_DEPTH + 1 && Cached(cells, sizes, MAX_TYPE_DEPTH)
      modifies this`errors
      ensures errors >= old(errors)
      ensures depth <= MAX_TYPE_DEPTH && Within(cells, t, MAX_TYPE_DEPTH - depth) ==>
                && sz == Size(cells, t, MAX_TYPE_DEPTH - depth)
                && (Defined(cells, t, MAX_TYPE_DEPTH - depth) ==> errors == old(errors))
      ensures CyclicUnset(cells, sizes) && Cyclic(cells, t) ==> errors > old(errors)
      ensures depth <= MAX_TYPE_DEPTH && (cells[t].Primitive? || cells[t].Enumeration? || cells[t].Onion?) ==> sz == 1
      ensures depth <= MAX_TYPE_DEPTH && cells[t].Compound? ==>
                sz == if cells[t].tag.VecTag? then 3 else if cells[t].tag.VecPtrTag? then 2 else 1
      ensures depth <= MAX_TYPE_DEPTH && Within(cells, t, MAX_TYPE_DEPTH - depth) ==>
                forall u :: 0 <= u < |cells| && sizes[u] != 0 && cells[t] in {Ident(u), Structure([u])} ==>
                  sz == sizes[u]
      ensures depth <= MAX_TYPE_DEPTH && Within(cells, t, MAX_TYPE_DEPTH - depth) ==>
                forall u, v :: 0 <= u < |cells| && 0 <= v < |cells| && sizes[u] != 0 && sizes[v] != 0
                               && cells[u].Structure? && cells[v].Structure?
                               && cells[t] == Structure(cells[u].comps + cells[v].comps) ==>
                  sz == sizes[u] + sizes[v]
      decreases MAX_TYPE_DEPTH + 1 - depth, 0
    {
      hide GraphOk, GraphOf, Cyclic, Cached, CyclicUnset;
      sz := sizes[t];
      if sz != 0 {
        SizeKnown(cells, sizes, MAX_TYPE_DEPTH, t, if depth <= MAX_TYPE_DEPTH then MAX_TYPE_DEPTH - depth else 0);
      } else {
        if depth > MAX_TYPE_DEPTH {
          errors := errors + 1;
          return 1;
        }
        if Cyclic(cells, t) { CyclicBelow(cells, t); }
        PartsInside(cells, t);
        match cells[t] {
          case Ident(defn) =>
            assert Parts(cells[t])[0] == defn;
            sz := SizeType(defn, depth + 1);
          case Structure(comps) =>
            sz := SizeList(comps, depth + 1);
          case Primitive => sz := SIZE_PRIM;
          case Enumeration => sz := SIZE_ENUM;
          case Onion(_, _, _) => sz := SIZE_UNION;
          case Compound(tag, _) =>
            match tag {
              case PtrTag => sz := SIZE_PTR;
              case ListTag => sz := SIZE_LIST;
              case StackTag => sz := SIZE_STACK;
              case VecTag => sz := SIZE_VEC;
              case VecPtrTag => sz := SIZE_VEC_PTR;
            }
          case Undef | Quote =>
            errors := errors + 1;
            sz := 1;
        }
      }
      if depth <= MAX_TYPE_DEPTH {
        FoundLaws(cells, sizes, MAX_TYPE_DEPTH, t, sz, MAX_TYPE_DEPTH - depth);
      }
    }

    method SizeList(comps: seq<nat>, depth: nat) returns (sz: nat)
      requires Valid() && (forall i :: 0 <= i < |comps| ==> comps[i] < |cells|)
      requires 0 < depth <= MAX_TYPE_DEPTH + 1 && Cached(cells, sizes, MAX_TYPE_DEPTH)
      modifies this`errors
      ensures errors >= old(errors)
      ensures comps == [] ==> sz == 0 && errors == old(errors)
      ensures depth <= MAX_TYPE_DEPTH && AllWithin(cells, comps, MAX_TYPE_DEPTH - depth) ==>
                && sz == SumSize(cells, comps, MAX_TYPE_DEPTH - depth)
                && (AllDefined(cells, comps, MAX_TYPE_DEPTH - depth) ==> errors == old(errors))
      ensures CyclicUnset(cells, sizes) && (exists i :: 0 <= i < |comps| && Cyclic(cells, comps[i])) ==>
                errors > old(errors)
      decreases MAX_TYPE_DEPTH + 1 - depth, 1
    {
      hide GraphOk, GraphOf, Cyclic, Cached, CyclicUnset, Within, Size, Defined, AllWithin, SumSize, AllDefined;
      sz := 0;
      var c := 0;
      ghost var ok := depth <= MAX_TYPE_DEPTH && AllWithin(cells, comps, MAX_TYPE_DEPTH - depth);
      if ok { SumNone(cells, comps, MAX_TYPE_DEPTH - depth); }
      while c < |comps|
        invariant c <= |comps| && errors >= old(errors) && (c == 0 ==> errors == old(errors) && sz == 0)
        invariant ok ==>
                    && AllWithin(cells, comps[..c], MAX_TYPE_DEPTH - depth)
                    && sz == SumSize(cells, comps[..c], MAX_TYPE_DEPTH - depth)
                    && (AllDefined(cells, comps, MAX_TYPE_DEPTH - depth) ==> errors == old(errors))
        invariant CyclicUnset(cells, sizes) && (exists i :: 0 <= i < c && Cyclic(cells, comps[i])) ==>
                    errors > old(errors)
      {
        if ok { SumNext(cells, comps, c, MAX_TYPE_DEPTH - depth); AllEach(cells, comps, c, MAX_TYPE_DEPTH - depth); }
        var one := SizeType(comps[c], depth);
        sz := sz + one;
        c := c + 1;
      }
      assert comps[..c] == comps;
    }

    // Report every type that is still undefined, and give the others their sizes.
    method CheckTypes()
      requires Unique() && Cached(cells, sizes, MAX_TYPE_DEPTH)
      modifies this`errors, this`sizes
      ensures Unique() && Cached(cells, sizes, MAX_TYPE_DEPTH) && errors >= old(errors)
      ensures forall t :: t in types && !cells[t].Undef? && Within(cells, t, MAX_TYPE_DEPTH) ==>
                sizes[t] == Size(cells, t, MAX_TYPE_DEPTH)
      ensures (forall t :: t in types ==> Within(cells, t, MAX_TYPE_DEPTH) && Defined(cells, t, MAX_TYPE_DEPTH)) ==>
                errors == old(errors)
      ensures (forall t :: t in types ==> Within(cells, t, MAX_TYPE_DEPTH))
              && (forall x :: 0 <= x < |cells| ==> !cells[x].Undef? && !cells[x].Quote?) ==>
                errors == old(errors)
      ensures CyclicUnset(cells, old(sizes)) && errors == old(errors) ==>
                forall t :: t in types ==> !cells[t].Undef? && !Cyclic(cells, t)
      ensures forall t :: t in types && (cells[t].Primitive? || cells[t].Enumeration? || cells[t].Onion?) ==>
                sizes[t] == 1
      ensures forall t :: t in types && cells[t].Compound? ==>
                sizes[t] == if cells[t].tag.VecTag? then 3 else if cells[t].tag.VecPtrTag? then 2 else 1
      ensures forall t, u :: t in types && u in types && !cells[u].Undef? && Within(cells, t, MAX_TYPE_DEPTH)
                             && cells[t] in {Ident(u), Structure([u])} ==>
                sizes[t] == sizes[u]
      ensures forall t, u, v :: t in types && u in types && v in types && Within(cells, t, MAX_TYPE_DEPTH)
                                && cells[u].Structure? && cells[v].Structure?
                                && cells[t] == Structure(cells[u].comps + cells[v].comps) ==>
                sizes[t] == sizes[u] + sizes[v]
    {
      hide GraphOk, GraphOf, Cyclic, Cached, CyclicUnset, Within, Size, Defined, Interned, NamedOnce;
      var t := 0;
      while t < |types|
        invariant t <= |types| && |sizes| == |cells| && Cached(cells, sizes, MAX_TYPE_DEPTH) && errors >= old(errors)
        invariant forall i :: 0 <= i < t && !cells[types[i]].Undef? && Within(cells, types[i], MAX_TYPE_DEPTH) ==>
                    sizes[types[i]] == Size(cells, types[i], MAX_TYPE_DEPTH)
        invariant (forall x :: x in types ==> Within(cells, x, MAX_TYPE_DEPTH) && Defined(cells, x, MAX_TYPE_DEPTH)) ==>
                    errors == old(errors)
        invariant CyclicUnset(cells, old(sizes)) && errors == old(errors) ==>
                    && CyclicUnset(cells, sizes)
                    && forall i :: 0 <= i < t ==> !cells[types[i]].Undef? && !Cyclic(cells, types[i])
      {
        var s := types[t];
        assert s in types;
        if cells[s].Undef? {
          UndefinedNot(cells, s);
          errors := errors + 1;
        } else {
          var sz := SizeType(s, 0);
          SizeStored(cells, sizes, s, sz, MAX_TYPE_DEPTH);
          sizes := sizes[s := sz];
        }
        t := t + 1;
      }
      StoredLaws(cells, types, sizes, MAX_TYPE_DEPTH);
      if forall x :: 0 <= x < |cells| ==> !cells[x].Undef? && !cells[x].Quote? {
        forall x | x in types && Within(cells, x, MAX_TYPE_DEPTH) ensures Defined(cells, x, MAX_TYPE_DEPTH) {
          NoneUndefined(cells, x, MAX_TYPE_DEPTH);
        }
      }
    }

    ghost function Missing(p: seq<nat>): set<nat>
      reads this
    {
      set x | 0 <= x < |cells| && x !in p
    }

    // Build up a list of all the types used in the derivation of t.
    method DerivedTypes(t: nat, p: seq<nat>) returns (r: seq<nat>)
      requires Valid() && t < |cells|
      ensures Derived(GraphOf(cells), [t], p, r) && Grows(cells, t, p, r)
      decreases Missing(p), 0
    {
      hide Closed, Grows;
      ghost var g := GraphOf(cells);
      var q := 0;
      while q < |p|
        invariant q <= |p| && t !in p[..q]
      {
        if p[q] == t {
          ClosedSkip(g, t, Elements(p));
          assert Derived(g, [t], p, p);
          DerivedGrows(cells, t, p, p);
          return p;
        }
        q := q + 1;
      }
      r := [t] + p;
      assert t in Missing(p) && t !in Missing(r) && Missing(r) < Missing(p);
      assert g[t] == Parts(cells[t]) && Inside(g, g[t]);
      match cells[t] {
        case Ident(defn) =>
          assert g[t][0] == defn;
          r := DerivedTypes(defn, r);
        case Structure(comps) =>
          r := DerivedList(comps, r);
        case Onion(comps, fields, maps) =>
          r := DerivedUnion(comps, fields, maps, r);
        case Compound(_, sub) =>
          assert g[t][0] == sub;
          r := DerivedTypes(sub, r);
        case Undef | Quote | Primitive | Enumeration =>
          DerivedNone(g, r);
      }
      DerivedEnter(g, t, p, r);
      DerivedGrows(cells, t, p, r);
    }

    // The list that importing a type starts from.
    method TypesToImport(t: nat) returns (r: seq<nat>)
      requires Valid() && t < |cells|
      ensures forall b: nat :: b in r <==> Reaches(GraphOf(cells), t, b, {})
      ensures forall i, j :: 0 <= i < j < |r| ==> r[i] != r[j]
      ensures Grows(cells, t, [], r)
    {
      hide Closed, Reaches, Derived, Grows;
      r := DerivedTypes(t, []);
      DerivedFromNothing(GraphOf(cells), t, r);
    }

    method DerivedList(ts: seq<nat>, p: seq<nat>) returns (r: seq<nat>)
      requires Valid() && Inside(GraphOf(cells), ts)
      ensures Derived(GraphOf(cells), ts, p, r)
      decreases Missing(p), 1
    {
      hide Closed, Derived, GraphOk;
      ghost var g := GraphOf(cells);
      r := p;
      DerivedNone(g, p);
      var i := 0;
      assert ts[..0] == [];
      while i < |ts|
        invariant i <= |ts| && Derived(g, ts[..i], p, r)
      {
        ghost var q := r;
        NoneMissing(this, ts[..i], p, r);
        r := DerivedTypes(ts[i], r);
        DerivedThen(g, ts[..i], [ts[i]], p, q, r);
        assert ts[..i + 1] == ts[..i] + [ts[i]];
        i := i + 1;
      }
      assert ts[..i] == ts;
    }
  
    // Union components, fields and maps.
    method DerivedUnion(comps: seq<nat>, fields: seq<seq<nat>>, maps: seq<Mapping>, p: seq<nat>) returns (r: seq<nat>)
      requires Valid() && Inside(GraphOf(cells), comps + FieldsParts(fields) + MapsParts(maps))
      ensures Derived(GraphOf(cells), comps + FieldsParts(fields) + MapsParts(maps), p, r)
      decreases Missing(p), 4
    {
      hide Closed, Derived, GraphOk, FieldsParts, MapsParts, Parts;
      ghost var g := GraphOf(cells);
      InsideBoth(g, comps + FieldsParts(fields), MapsParts(maps));
      InsideBoth(g, comps, FieldsParts(fields));
      var q := DerivedList(comps, p);
      NoneMissing(this, comps, p, q);
      var s := DerivedFields(fields, q);
      DerivedThen(g, comps, FieldsParts(fields), p, q, s);
      NoneMissing(this, comps + FieldsParts(fields), p, s);
      r := DerivedMaps(maps, s);
      DerivedThen(g, comps + FieldsParts(fields), MapsParts(maps), p, s, r);
    }

    method DerivedFields(fields: seq<seq<nat>>, p: seq<nat>) returns (r: seq<nat>)
      requires Valid() && Inside(GraphOf(cells), FieldsParts(fields))
      ensures Derived(GraphOf(cells), FieldsParts(fields), p, r)
      decreases Missing(p), 3
    {
      hide Closed, Derived, GraphOk, FieldsParts, Parts;
      ghost var g := GraphOf(cells);
      r := p;
      NoFields(g, fields, p);
      var i := 0;
      while i < |fields|
        invariant i <= |fields| && Derived(g, FieldsParts(fields[..i]), p, r)
      {
        ghost var q := r;
        NoneMissing(this, FieldsParts(fields[..i]), p, r);
        FieldsNext(g, fields, i);
        r := DerivedList(fields[i], r);
        DerivedThen(g, FieldsParts(fields[..i]), fields[i], p, q, r);
        i := i + 1;
      }
      assert fields[..i] == fields;
    }

    method DerivedMaps(maps: seq<Mapping>, p: seq<nat>) returns (r: seq<nat>)
      requires Valid() && Inside(GraphOf(cells), MapsParts(maps))
      ensures Derived(GraphOf(cells), MapsParts(maps), p, r)
      decreases Missing(p), 3
    {
      hide Closed, Derived, GraphOk, MapsParts, MapParts, Parts;
      ghost var g := GraphOf(cells);
      r := p;
      NoMaps(g, maps, p);
      var i := 0;
      while i < |maps|
        invariant i <= |maps| && Derived(g, MapsParts(maps[..i]), p, r)
      {
        ghost var q := r;
        NoneMissing(this, MapsParts(maps[..i]), p, r);
        MapsNext(g, maps, i);
        r := DerivedMap(maps[i], r);
        DerivedThen(g, MapsParts(maps[..i]), MapParts(maps[i]), p, q, r);
        i := i + 1;
      }
      assert maps[..i] == maps;
    }

    method DerivedMap(m: Mapping, p: seq<nat>) returns (r: seq<nat>)
      requires Valid() && Inside(GraphOf(cells), MapParts(m))
      ensures Derived(GraphOf(cells), MapParts(m), p, r)
      decreases Missing(p), 2
    {
      hide Closed, Derived, GraphOk;
      ghost var g := GraphOf(cells);
      InsideBoth(g, [m.ret], m.args);
      assert [m.ret][0] == m.ret;
      var q := DerivedTypes(m.ret, p);
      NoneMissing(this, [m.ret], p, q);
      r := DerivedList(m.args, q);
      DerivedThen(g, [m.ret], m.args, p, q, r);
    }
  }

  lemma NoneMissing(alg: Algebra, roots: seq<nat>, p: seq<nat>, r: seq<nat>)
    requires Derived(GraphOf(alg.cells), roots, p, r)
    ensures alg.Missing(r) <= alg.Missing(p)
  {
    hide Derived, GraphOf;
    NoneLost(GraphOf(alg.cells), roots, p, r);
  }
}
