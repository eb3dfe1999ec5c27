// Marking the sorts a sort is built from: mark_sort and mark_construct in
// make_tdf/src/input.c.  A sort is named by its place in the store.
module Marking {
  import opened Closure
  import Templates

  // A construct is known here by its name and its parameter sorts.
  datatype Construct = NullCons | Cons(name: string, pars: seq<nat>)

  datatype Info =
    | Null
    | Builtin
    | Basic(cons: seq<Construct>)
    | Dummy(con: Construct)
    | Compound(arg: nat)

  // The sorts in which a construct, several constructs, a sort are defined.
  function ConsParts(c: Construct): seq<nat> {
    if c.NullCons? then [] else c.pars
  }

  function AllParts(cs: seq<Construct>): seq<nat> {
    if cs == [] then [] else AllParts(cs[..|cs| - 1]) + ConsParts(cs[|cs| - 1])
  }

  function Parts(i: Info): seq<nat> {
    match i
    case Null => []
    case Builtin => []
    case Basic(cons) => AllParts(cons)
    case Dummy(con) => ConsParts(con)
    case Compound(arg) => [arg]
  }

  // The first of the constructs with the name c.
  function Named(cs: seq<Construct>, c: string): Construct {
    if cs == [] then NullCons
    else if cs[0].Cons? && cs[0].name == c then cs[0]
    else Named(cs[1..], c)
  }

  // Only a basic sort's constructs have names of their own.
  function ConstructOf(i: Info, c: string): Construct {
    if i.Basic? then Named(i.cons, c) else NullCons
  }

  // It has the name, and no construct in front of it does.
  lemma {:induction false} NamedFirst(cs: seq<Construct>, c: string) returns (k: nat)
    ensures k <= |cs| && forall i :: 0 <= i < k ==> cs[i].Cons? ==> cs[i].name != c
    ensures k == |cs| ==> Named(cs, c) == NullCons
    ensures k < |cs| ==> cs[k].Cons? && cs[k].name == c && Named(cs, c) == cs[k]
  {
    if cs == [] || (cs[0].Cons? && cs[0].name == c) { return 0; }
    var i := NamedFirst(cs[1..], c);
    k := i + 1;
  }

  // It is one of them, and there is one if some construct has the name.
  lemma {:induction false} NamedOne(g: Graph, cs: seq<Construct>, c: string)
    requires Inside(g, AllParts(cs))
    ensures Named(cs, c) == NullCons <==> forall x <- cs :: x.Cons? ==> x.name != c
    ensures Named(cs, c) != NullCons ==> Named(cs, c) in cs && Named(cs, c).name == c
    ensures Inside(g, ConsParts(Named(cs, c)))
  {
    if cs != [] {
      PartsFront(g, cs);
      NamedOne(g, cs[1..], c);
      assert forall x :: x in cs <==> x == cs[0] || x in cs[1..];
    }
  }

  // The parts of the first construct, and of the others.
  lemma {:induction false} PartsFront(g: Graph, cs: seq<Construct>)
    requires cs != [] && Inside(g, AllParts(cs))
    ensures Inside(g, ConsParts(cs[0])) && Inside(g, AllParts(cs[1..]))
    decreases |cs|
  {
    var n := |cs| - 1;
    InsideBoth(g, AllParts(cs[..n]), ConsParts(cs[n]));
    if n > 0 {
      PartsFront(g, cs[..n]);
      assert cs[1..][..n - 1] == cs[..n][1..];
      assert forall x :: x in AllParts(cs[1..]) ==> x in AllParts(cs[..n][1..]) || x in ConsParts(cs[n]);
    }
  }

  function GrammarOf(info: seq<Info>): (g: Graph)
    ensures |g| == |info| && forall x :: 0 <= x < |g| ==> g[x] == Parts(info[x])
  {
    seq(|info|, i requires 0 <= i < |info| => Parts(info[i]))
  }

  // The order of strcmp.
  function Strcmp(a: string, b: string): int {
    if a == "" && b == "" then 0
    else if a == "" then -1
    else if b == "" then 1
    else if a[0] != b[0] then (if a[0] < b[0] then -1 else 1)
    else Strcmp(a[1..], b[1..])
  }

  // From s the marked sorts have spread: whatever a newly marked sort is made of
  // is marked, and nothing else is newly marked besides s.
  ghost predicate Spread(info: seq<Info>, s: nat, was: set<nat>, now: set<nat>) {
    && s in now
    && (forall x :: x in now - was && x < |info| && info[x].Compound? ==> info[x].arg in now)
    && (forall x, c, p ::
          x in now - was && x < |info| && info[x].Basic? && c in info[x].cons && c.Cons? && p in c.pars ==> p in now)
    && (forall x, p ::
          x in now - was && x < |info| && info[x].Dummy? && info[x].con.Cons? && p in info[x].con.pars ==> p in now)
    && forall x :: x in now - was && x != s ==>
         exists y :: y in now - was && y < |info|
                     && (info[y] == Compound(x)
                         || (info[y].Basic? && exists c :: c in info[y].cons && c.Cons? && x in c.pars)
                         || (info[y].Dummy? && info[y].con.Cons? && x in info[y].con.pars))
  }

  // The list holds all of n sorts.
  ghost predicate Listed(all: seq<nat>, n: nat) {
    && |all| == n
    && (forall i :: 0 <= i < |all| ==> all[i] < n)
    && (forall x :: 0 <= x < n ==> x in all)
  }

  ghost predicate Sorted(names: seq<string>, all: seq<nat>)
    requires Listed(all, |names|)
  {
    forall i, j :: 0 <= i < j < |all| ==> Strcmp(names[all[i]], names[all[j]]) < 0
  }

  class Sorts {
    var names: seq<string>
    var info: seq<Info>
    var mark: seq<int>
    // The list of all sorts, in the order of their names.
    var all: seq<nat>

    constructor ()
      ensures Valid() && all == []
    {
      names, info, mark, all := [], [], [], [];
    }

    function Grammar(): (g: Graph)
      reads this`info
      ensures |g| == |info|
    {
      GrammarOf(info)
    }

    ghost predicate Valid()
      reads this
    {
      && |mark| == |info| == |names| && GraphOk(Grammar())
      && Listed(all, |info|) && Sorted(names, all)
    }

    ghost function Marked(m: int): set<nat>
      reads this`mark
    {
      set x | 0 <= x < |mark| && mark[x] == m
    }

    ghost function Unmarked(m: int): set<nat>
      reads this`mark
    {
      set x | 0 <= x < |mark| && mark[x] != m
    }

    // Marks other than m are as before on all sorts not marked m.
    twostate predicate OnlyMarks(m: int)
      reads this`mark
    {
      && |mark| == old(|mark|)
      && (forall x :: 0 <= x < |mark| && mark[x] != m ==> mark[x] == old(mark[x]))
      && old(Marked(m)) <= Marked(m)
    }

    // Mark the parameter sorts of a construct.
    method MarkConstruct(c: Construct, m: int)
      requires Valid() && Inside(Grammar(), ConsParts(c))
      modifies this`mark
      ensures Marked(m) == Closed(Grammar(), ConsParts(c), old(Marked(m)))
      ensures OnlyMarks(m)
      decreases Unmarked(m), 1
    {
      hide Closed, Grammar;
      if c.NullCons? {
        ClosedEmpty(Grammar(), Marked(m));
        return;
      }
      ghost var g, was := Grammar(), Marked(m);
      var i := 0;
      assert c.pars[..0] == [];
      ClosedEmpty(g, was);
      while i < |c.pars|
        invariant i <= |c.pars| && Grammar() == g && Valid()
        invariant Marked(m) == Closed(g, c.pars[..i], was) && OnlyMarks(m)
        invariant Unmarked(m) <= old(Unmarked(m))
      {
        ClosedNext(g, c.pars, i, was);
        MarkSort(c.pars[i], m);
        i := i + 1;
      }
      assert c.pars[..i] == c.pars;
    }

    // Mark a sort and all its constructs.
    method MarkSort(s: nat, m: int)
      requires Valid() && s < |info|
      modifies this`mark
      ensures Marked(m) == Closed(Grammar(), [s], old(Marked(m)))
      ensures OnlyMarks(m) && mark[s] == m
      ensures Spread(info, s, old(Marked(m)), Marked(m))
      decreases Unmarked(m), 0
    {
      hide Closed, Spread;
      ghost var g, was := Grammar(), Marked(m);
      if mark[s] == m {
        ClosedSkip(g, s, was);
        ClosedSpreads(info, s, was, was);
        return;
      }
      ClosedEnter(g, s, was);
      mark := mark[s := m];
      assert Marked(m) == was + {s};
      assert g[s] == Parts(info[s]) && Inside(g, g[s]);
      assert s in old(Unmarked(m)) && Unmarked(m) < old(Unmarked(m));
      match info[s] {
        case Null | Builtin =>
          ClosedEmpty(g, was + {s});
        case Basic(cons) =>
          MarkConstructs(cons, m);
        case Dummy(con) =>
          MarkConstruct(con, m);
        case Compound(arg) =>
          assert g[s][0] == arg;
          MarkSort(arg, m);
      }
      ClosedSpreads(info, s, was, Marked(m));
    }

    method MarkConstructs(cons: seq<Construct>, m: int)
      requires Valid() && Inside(Grammar(), AllParts(cons))
      modifies this`mark
      ensures Marked(m) == Closed(Grammar(), AllParts(cons), old(Marked(m)))
      ensures OnlyMarks(m)
      decreases Unmarked(m), 2
    {
      hide Closed, Grammar;
      ghost var g, was := Grammar(), Marked(m);
      var i := 0;
      assert cons[..0] == [] && cons[..|cons|] == cons;
      ClosedEmpty(g, was);
      while i < |cons|
        invariant i <= |cons| && Grammar() == g && Valid()
        invariant Marked(m) == Closed(g, AllParts(cons[..i]), was) && OnlyMarks(m)
        invariant Unmarked(m) <= old(Unmarked(m))
      {
        PartsNext(g, cons, i);
        ClosedThen(g, AllParts(cons[..i]), ConsParts(cons[i]), was);
        MarkConstruct(cons[i], m);
        i := i + 1;
      }
    }

    // Mark all sorts.
    method MarkAllSorts(m: int)
      requires Valid()
      modifies this`mark
      ensures Valid() && forall x :: 0 <= x < |mark| ==> mark[x] == m
    {
      var p := 0;
      while p < |all|
        invariant p <= |all| && |mark| == |info|
        invariant forall i :: 0 <= i < p ==> mark[all[i]] == m
      {
        mark := mark[all[p] := m];
        p := p + 1;
      }
      forall x | 0 <= x < |mark| ensures mark[x] == m {
        assert x in all;
      }
    }

    // Look up a sort, creating it if it is not there; it is an error if it is
    // not meant to be created.
    method FindSort(nm: string, create: bool) returns (s: nat, failed: bool)
      requires Valid()
      modifies this
      ensures Valid() && s < |info| && names[s] == nm
      ensures nm in old(names) ==>
                !failed && names == old(names) && info == old(info) && mark == old(mark) && all == old(all)
      ensures nm !in old(names) ==>
                && failed == !create && s == old(|info|)
                && names == old(names) + [nm] && mark == old(mark) + [0]
                && info == old(info) + [if create then Null else Builtin]
                && exists p :: 0 <= p <= old(|all|) && all == old(all)[..p] + [s] + old(all)[p..]
    {
      hide Strcmp, Sorted, GraphOk;
      failed := false;
      var p := 0;
      while p < |all|
        invariant Valid() && p <= |all|
        invariant names == old(names) && info == old(info) && mark == old(mark) && all == old(all)
        invariant forall i :: 0 <= i < p ==> Strcmp(names[all[i]], nm) < 0
      {
        s := all[p];
        var cmp := Strcmp(names[s], nm);
        StrcmpEqual(names[s], nm);
        if cmp == 0 { return; }
        if cmp > 0 { break; }
        p := p + 1;
      }
      NotThere(names, all, nm, p);
      InsertSorted(names, all, nm, p);
      LeafAdded(info, Null);
      LeafAdded(info, Builtin);
      s := |info|;
      names, mark := names + [nm], mark + [0];
      if create {
        info := info + [Null];
      } else {
        failed := true;
        info := info + [Builtin];
      }
      all := all[..p] + [s] + all[p..];
    }

    // The construct named c of a sort.
    method FindConstruct(s: nat, c: string) returns (r: Construct)
      requires Valid() && s < |info|
      ensures r == ConstructOf(info[s], c) && Inside(Grammar(), ConsParts(r))
      ensures r.NullCons? <==> info[s].Basic? ==> forall x :: x in info[s].cons && x.Cons? ==> x.name != c
      ensures r.Cons? ==>
                && info[s].Basic? && r.name == c
                && exists k :: 0 <= k < |info[s].cons| && info[s].cons[k] == r
                               && forall i :: 0 <= i < k && info[s].cons[i].Cons? ==> info[s].cons[i].name != c
    {
      hide Strcmp, Sorted, Listed;
      if !info[s].Basic? { return NullCons; }
      var cs, p := info[s].cons, 0;
      assert cs[0..] == cs;
      assert Grammar()[s] == Parts(info[s]) && Inside(Grammar(), Grammar()[s]);
      NamedOne(Grammar(), cs, c);
      ghost var k := NamedFirst(cs, c);
      assert Named(cs, c).Cons? ==> k < |cs| && cs[k] == Named(cs, c);
      while p < |cs|
        invariant p <= |cs| && Named(cs[p..], c) == Named(cs, c)
      {
        assert cs[p..][1..] == cs[p + 1..];
        if cs[p].Cons? && cs[p].name == c { return cs[p]; }
        p := p + 1;
      }
      r := NullCons;
    }

    // The command that marks all sorts, one sort, or one of its constructs, if
    // it has that one; every exclamation mark in front of the sort's name turns
    // marking into unmarking or back.
    method Use(arg: string, cons: Templates.Option<string>) returns (failed: bool, ghost s: nat)
      requires Valid()
      modifies this
      ensures Valid() && var (m, nm) := Target(arg, 1);
              var all := cons.None? && nm == "all";
              && (all ==> !failed && forall x :: 0 <= x < |mark| ==> mark[x] == m)
              && (!all ==>
                    && (failed <==> nm !in old(names)) && s < |names| && names[s] == nm
                    && var roots := if cons.None? then [s] else ConsParts(ConstructOf(info[s], cons.value));
                       Marked(m) == Closed(Grammar(), roots, old(Marked(m)) + if failed && m == 0 then {s} else {}))
    {
      hide Closed, Sorted, GraphOk, Listed, Strcmp, GrammarOf;
      var m, i := 1, 0;
      assert arg[0..] == arg;
      while i < |arg| && arg[i] == '!'
        invariant i <= |arg| && Target(arg[i..], m) == Target(arg, 1)
      {
        assert arg[i..][1..] == arg[i + 1..];
        m := 1 - m;
        i := i + 1;
      }
      var nm := arg[i..];
      failed, s := false, 0;
      if cons.None? && nm == "all" {
        MarkAllSorts(m);
      } else {
        var found;
        found, failed := FindSort(nm, false);
        s := found;
        assert Marked(m) == old(Marked(m)) + if failed && m == 0 then {s} else {};
        if cons.Some? {
          var c := FindConstruct(found, cons.value);
          MarkConstruct(c, m);
        } else {
          MarkSort(found, m);
        }
      }
    }
  }

  // ----- what the closure is in terms of the sorts' definitions

  lemma {:induction false} PartsAll(cs: seq<Construct>, x: nat)
    ensures x in AllParts(cs) <==> exists c :: c in cs && c.Cons? && x in c.pars
    decreases |cs|
  {
    if cs != [] {
      var n := |cs| - 1;
      PartsAll(cs[..n], x);
      assert forall c :: c in cs <==> c in cs[..n] || c == cs[n];
    }
  }

  lemma ClosedSpreads(info: seq<Info>, s: nat, was: set<nat>, now: set<nat>)
    requires GraphOk(GrammarOf(info)) && s < |info| && now == Closed(GrammarOf(info), [s], was)
    ensures Spread(info, s, was, now)
  {
    hide Closed, AllParts;
    var g := GrammarOf(info);
    ClosedOn(g, [s], was, s, s);
    forall x, p | x in now - was && x < |info| && p in Parts(info[x]) ensures p in now {
      assert Inside(g, g[x]);
      ClosedOn(g, [s], was, x, p);
    }
    forall x, c, p | x in now - was && x < |info| && info[x].Basic? && c in info[x].cons && c.Cons? && p in c.pars
      ensures p in now
    {
      PartsAll(info[x].cons, p);
      assert p in Parts(info[x]);
    }
    forall x | x in now - was && x < |info| && info[x].Compound? ensures info[x].arg in now {
      assert info[x].arg in Parts(info[x]);
    }
    forall x, p | x in now - was && x < |info| && info[x].Dummy? && info[x].con.Cons? && p in info[x].con.pars
      ensures p in now
    {
      assert p in Parts(info[x]);
    }
    forall x | x in now - was && x != s
      ensures exists y :: y in now - was && y < |info|
                          && (info[y] == Compound(x)
                              || (info[y].Basic? && exists c :: c in info[y].cons && c.Cons? && x in c.pars)
                              || (info[y].Dummy? && info[y].con.Cons? && x in info[y].con.pars))
    {
      var y := ClosedFrom(g, [s], was, x);
      if info[y].Basic? { PartsAll(info[y].cons, x); }
    }
  }

  // What a use command stands for: the mark and the name.
  function Target(arg: string, m: int): (int, string) {
    if arg != "" && arg[0] == '!' then Target(arg[1..], 1 - m) else (m, arg)
  }

  // The name is what is behind the exclamation marks; an odd number of them turns
  // the mark.
  lemma {:induction false} TargetParity(arg: string, m: int) returns (n: nat)
    ensures n <= |arg| && (forall i :: 0 <= i < n ==> arg[i] == '!') && (n < |arg| ==> arg[n] != '!')
    ensures Target(arg, m) == (if n % 2 == 0 then m else 1 - m, arg[n..])
  {
    if arg == "" || arg[0] != '!' { return 0; }
    var k := TargetParity(arg[1..], 1 - m);
    n := k + 1;
    assert arg[1..][k..] == arg[n..];
    assert forall i :: 0 < i < n ==> arg[i] == arg[1..][i - 1];
  }

  // A new sort without parts.
  lemma LeafAdded(info: seq<Info>, i: Info)
    requires GraphOk(GrammarOf(info)) && Parts(i) == []
    ensures GraphOk(GrammarOf(info + [i]))
  {
    var g, h := GrammarOf(info), GrammarOf(info + [i]);
    forall x | 0 <= x < |h| ensures Inside(h, h[x]) {
      if x < |g| { assert h[x] == g[x] && Inside(g, g[x]); }
    }
  }

  // ----- the order of names

  // The first characters that differ decide; a proper prefix comes first.
  lemma {:induction false} StrcmpFirst(a: string, b: string) returns (n: nat)
    ensures n <= |a| && n <= |b| && a[..n] == b[..n]
    ensures n < |a| && n < |b| ==> a[n] != b[n] && (Strcmp(a, b) < 0 <==> a[n] < b[n]) && Strcmp(a, b) != 0
    ensures n == |a| < |b| ==> Strcmp(a, b) < 0
    ensures n == |b| < |a| ==> Strcmp(a, b) > 0
    ensures n == |a| == |b| ==> Strcmp(a, b) == 0
  {
    if a == "" || b == "" || a[0] != b[0] { return 0; }
    var k := StrcmpFirst(a[1..], b[1..]);
    n := k + 1;
    assert a[..n] == [a[0]] + a[1..][..k] && b[..n] == [b[0]] + b[1..][..k];
  }

  lemma {:induction false} StrcmpEqual(a: string, b: string)
    ensures Strcmp(a, b) == 0 <==> a == b
  {
    if a != "" && b != "" && a[0] == b[0] {
      StrcmpEqual(a[1..], b[1..]);
      assert a == [a[0]] + a[1..] && b == [b[0]] + b[1..];
    }
  }

  lemma {:induction false} StrcmpOpposite(a: string, b: string)
    ensures Strcmp(a, b) == -Strcmp(b, a)
  {
    if a != "" && b != "" && a[0] == b[0] { StrcmpOpposite(a[1..], b[1..]); }
  }

  lemma {:induction false} StrcmpOrder(a: string, b: string, c: string)
    requires Strcmp(a, b) < 0 && Strcmp(b, c) < 0
    ensures Strcmp(a, c) < 0
  {
    if a != "" && a[0] == b[0] == c[0] { StrcmpOrder(a[1..], b[1..], c[1..]); }
  }

  // A name that would have to be put in front of the p-th sort is new.
  lemma NotThere(names: seq<string>, all: seq<nat>, nm: string, p: nat)
    requires Listed(all, |names|) && Sorted(names, all) && p <= |all|
    requires forall i :: 0 <= i < p ==> Strcmp(names[all[i]], nm) < 0
    requires p < |all| ==> Strcmp(names[all[p]], nm) > 0
    ensures nm !in names
    ensures forall i :: p <= i < |all| ==> Strcmp(nm, names[all[i]]) < 0
  {
    forall i | p <= i < |all| ensures Strcmp(nm, names[all[i]]) < 0 {
      StrcmpOpposite(names[all[p]], nm);
      if p < i { StrcmpOrder(nm, names[all[p]], names[all[i]]); }
    }
    forall x | 0 <= x < |names| ensures names[x] != nm {
      assert x in all;
      StrcmpEqual(nm, names[x]);
      StrcmpEqual(names[x], nm);
    }
  }

  lemma InsertSorted(names: seq<string>, all: seq<nat>, nm: string, p: nat)
    requires Listed(all, |names|) && Sorted(names, all) && p <= |all|
    requires forall i :: 0 <= i < p ==> Strcmp(names[all[i]], nm) < 0
    requires forall i :: p <= i < |all| ==> Strcmp(nm, names[all[i]]) < 0
    ensures var all', names' := all[..p] + [|names|] + all[p..], names + [nm];
            Listed(all', |names'|) && Sorted(names', all')
  {
    hide Strcmp;
    var all', names' := all[..p] + [|names|] + all[p..], names + [nm];
    forall x | 0 <= x < |names'| ensures x in all' {
      if x == |names| { assert all'[p] == x; } else { assert x in all; assert x in all[..p] || x in all[p..]; }
    }
    assert forall i :: 0 <= i < |all'| ==>
      all'[i] == if i < p then all[i] else if i == p then |names| else all[i - 1];
  }

  // The parts of the first constructs, and of one more.
  lemma {:induction false} PartsNext(g: Graph, cs: seq<Construct>, i: nat)
    requires i < |cs| && Inside(g, AllParts(cs))
    ensures AllParts(cs[..i + 1]) == AllParts(cs[..i]) + ConsParts(cs[i])
    ensures Inside(g, AllParts(cs[..i])) && Inside(g, ConsParts(cs[i]))
    decreases |cs| - i
  {
    if i + 1 == |cs| {
      assert cs[..i + 1] == cs;
    } else {
      PartsNext(g, cs, i + 1);
    }
    assert cs[..i + 1][..i] == cs[..i];
    InsideBoth(g, AllParts(cs[..i]), ConsParts(cs[i]));
  }
}
