// Binding tables and the linking of units: disp/src/binding.c and de_equation
// in disp/src/capsule.c.
module Bindings {

  // An object of some kind, known by its number.
  datatype Object = Object(kind: nat, id: nat)

  datatype Ref = Null | At(obj: Object)

  // One entry of a binding table; the space allocated is the length of table.
  datatype Binding = Binding(maxNo: nat, table: seq<Ref>)

  // A unit's variable is one of the variables outside.
  datatype Link = Link(inner: nat, outer: nat)

  function Nulls(n: nat): (t: seq<Ref>)
    ensures |t| == n && forall i :: 0 <= i < n ==> t[i] == Null
  {
    seq(n, _ => Null)
  }

  // ----- what a row of a unit's table is to be

  // How many of the first k entries are blank.
  function Blanks(t: seq<Ref>, k: nat): nat
    requires k <= |t|
  {
    if k == 0 then 0 else Blanks(t, k - 1) + if t[k - 1] == Null then 1 else 0
  }

  // The first k entries with the blanks filled by objects numbered from c on.
  function Fill(v: nat, t: seq<Ref>, k: nat, c: nat): (f: seq<Ref>)
    requires k <= |t|
    ensures |f| == |t|
  {
    if k == 0 then t
    else
      var f := Fill(v, t, k - 1, c);
      if t[k - 1] == Null then f[k - 1 := At(Object(v, c + Blanks(t, k - 1)))] else f
  }

  predicate InRange(links: seq<Link>, inner: nat, outer: nat) {
    forall j :: 0 <= j < |links| ==> links[j].inner < inner && links[j].outer < outer
  }

  // No variable is linked again once it is linked to an object.
  predicate NoClash(outer: seq<Ref>, links: seq<Link>)
    requires forall j :: 0 <= j < |links| ==> links[j].outer < |outer|
  {
    forall j, k :: 0 <= j < k < |links| && links[j].inner == links[k].inner ==> outer[links[j].outer] == Null
  }

  predicate Unlinked(links: seq<Link>, i: nat) {
    forall j :: 0 <= j < |links| ==> links[j].inner != i
  }

  // The table t after the links, into the table outer.
  function LinkRow(outer: seq<Ref>, t: seq<Ref>, links: seq<Link>): (r: seq<Ref>)
    requires InRange(links, |t|, |outer|)
    ensures |r| == |t|
  {
    if links == [] then t
    else
      var last := |links| - 1;
      LinkRow(outer, t, links[..last])[links[last].inner := outer[links[last].outer]]
  }

  // A unit's row of n variables of kind v.
  function UnitRow(v: nat, outer: seq<Ref>, n: nat, links: seq<Link>, c: nat): seq<Ref>
    requires InRange(links, n, |outer|)
  {
    Fill(v, LinkRow(outer, Nulls(n), links), n, c)
  }

  lemma {:induction false} FillAt(v: nat, t: seq<Ref>, k: nat, c: nat, i: nat)
    requires k <= |t| && i < |t|
    ensures Fill(v, t, k, c)[i] == if i < k && t[i] == Null then At(Object(v, c + Blanks(t, i))) else t[i]
    decreases k
  {
    if k > 0 { FillAt(v, t, k - 1, c, i); }
  }

  lemma {:induction false} BlanksGrow(t: seq<Ref>, i: nat, j: nat)
    requires i <= j <= |t|
    ensures Blanks(t, i) <= Blanks(t, j) <= j
    ensures i < j && t[i] == Null ==> Blanks(t, i) < Blanks(t, j)
    decreases j
  {
    if i < j { BlanksGrow(t, i, j - 1); } else if i > 0 { BlanksGrow(t, i - 1, i - 1); }
  }

  lemma {:induction false} LinkRowAt(outer: seq<Ref>, t: seq<Ref>, links: seq<Link>, i: nat)
    requires InRange(links, |t|, |outer|) && i < |t|
    ensures Unlinked(links, i) ==> LinkRow(outer, t, links)[i] == t[i]
    ensures NoClash(outer, links) ==>
              forall j :: 0 <= j < |links| && links[j].inner == i && outer[links[j].outer] != Null ==>
                LinkRow(outer, t, links)[i] == outer[links[j].outer]
    decreases |links|
  {
    if links != [] { LinkRowAt(outer, t, links[..|links| - 1], i); }
  }

  // Linking looks at an entry's own value only if nothing is linked to it.
  lemma {:induction false} LinkRowSame(outer: seq<Ref>, t: seq<Ref>, u: seq<Ref>, links: seq<Link>, i: nat)
    requires InRange(links, |t|, |outer|) && InRange(links, |u|, |outer|) && i < |t| && i < |u| && t[i] == u[i]
    ensures LinkRow(outer, t, links)[i] == LinkRow(outer, u, links)[i]
    decreases |links|
  {
    if links != [] { LinkRowSame(outer, t, u, links[..|links| - 1], i); }
  }

  // A blank entry stays blank just if it is linked to nothing.
  lemma {:induction false} LinkRowBlank(outer: seq<Ref>, t: seq<Ref>, links: seq<Link>, i: nat)
    requires InRange(links, |t|, |outer|) && NoClash(outer, links) && i < |t| && t[i] == Null
    ensures LinkRow(outer, t, links)[i] == Null
            <==> forall j :: 0 <= j < |links| && links[j].inner == i ==> outer[links[j].outer] == Null
    decreases |links|
  {
    if links != [] {
      var front, last := links[..|links| - 1], links[|links| - 1];
      LinkRowBlank(outer, t, front, i);
      assert forall j :: 0 <= j < |front| ==> front[j] == links[j];
    }
  }

  // One variable: linked, or with an object of its own.
  lemma UnitRowAt(v: nat, outer: seq<Ref>, n: nat, links: seq<Link>, c: nat, i: nat)
    requires InRange(links, n, |outer|) && NoClash(outer, links) && i < n
    ensures var t, row := LinkRow(outer, Nulls(n), links), UnitRow(v, outer, n, links, c);
            && |row| == n
            && (forall j :: 0 <= j < |links| && links[j].inner == i && outer[links[j].outer] != Null ==>
                  row[i] == outer[links[j].outer])
            && (Unlinked(links, i) ==> t[i] == Null && row[i] == At(Object(v, c + Blanks(t, i))) && Blanks(t, i) < n)
  {
    hide Fill, Blanks, LinkRow;
    var t := LinkRow(outer, Nulls(n), links);
    FillAt(v, t, n, c, i);
    LinkRowAt(outer, Nulls(n), links, i);
    BlanksGrow(t, i, i);
  }

  // Every variable of a unit is bound: a linked one to the object it is linked
  // to, any other to an object of its own whose number was never used.
  lemma UnitRowBound(v: nat, outer: seq<Ref>, n: nat, links: seq<Link>, c: nat)
    requires InRange(links, n, |outer|) && NoClash(outer, links)
    requires forall j :: 0 <= j < |links| ==> outer[links[j].outer] != Null
    ensures var row := UnitRow(v, outer, n, links, c);
            && |row| == n && (forall i :: 0 <= i < n ==> row[i] != Null)
            && (forall j :: 0 <= j < |links| ==> row[links[j].inner] == outer[links[j].outer])
            && (forall i :: 0 <= i < n && Unlinked(links, i) ==> row[i].obj.kind == v && c <= row[i].obj.id < c + n)
            && (forall i, k :: 0 <= i < k < n && Unlinked(links, i) && Unlinked(links, k) ==> row[i] != row[k])
  {
    hide UnitRow, LinkRow, Blanks;
    var t, row := LinkRow(outer, Nulls(n), links), UnitRow(v, outer, n, links, c);
    assert |row| == n by { if n > 0 { UnitRowAt(v, outer, n, links, c, 0); } else { NoRow(v, outer, links, c); } }
    forall i | 0 <= i < n
      ensures row[i] != Null && (Unlinked(links, i) ==> row[i].obj.kind == v && c <= row[i].obj.id < c + n)
    {
      UnitRowAt(v, outer, n, links, c, i);
    }
    forall j | 0 <= j < |links| ensures row[links[j].inner] == outer[links[j].outer] {
      UnitRowAt(v, outer, n, links, c, links[j].inner);
    }
    forall i, k | 0 <= i < k < n && Unlinked(links, i) && Unlinked(links, k) ensures row[i] != row[k] {
      UnitRowAt(v, outer, n, links, c, i);
      UnitRowAt(v, outer, n, links, c, k);
      BlanksGrow(t, i, k);
    }
  }

  lemma NoRow(v: nat, outer: seq<Ref>, links: seq<Link>, c: nat)
    requires InRange(links, 0, |outer|)
    ensures UnitRow(v, outer, 0, links, c) == []
  {
  }

  // ----- the tables

  // Every object in the row v has a number below c.
  predicate Below(b: Binding, v: nat, c: nat) {
    forall i :: 0 <= i < |b.table| && b.table[i] != Null ==> b.table[i].obj.kind == v && b.table[i].obj.id < c
  }

  // A unit: how many variables of each kind, the links, the uses in the body.
  datatype Unit = Unit(sizes: seq<nat>, noLinks: nat, links: seq<seq<Link>>, uses: seq<(nat, nat)>) {
    predicate Fits(n: nat) {
      |links| == |sizes| && (sizes != [] ==> n > 0) && forall i :: 0 <= i < |uses| ==> uses[i].0 < n
    }
  }

  predicate RowOk(b: Binding, v: nat, c: nat) {
    b.maxNo <= |b.table| && Below(b, v, c)
  }

  class Disp {
    const noVariables: nat
    var varCount: seq<nat>
    // The bindings in force, and a table not in use.
    var crt: array?<Binding>
    var spare: array?<Binding>
    var errors: nat

    ghost predicate Valid()
      reads this, crt, spare
    {
      && |varCount| == noVariables
      && (crt != null ==> Rows(crt))
      && (spare != null ==> Rows(spare) && spare != crt)
    }

    ghost predicate Rows(bt: array<Binding>)
      reads this, bt
    {
      && bt.Length == noVariables == |varCount|
      && forall v :: 0 <= v < noVariables ==> RowOk(bt[v], v, varCount[v])
    }

    constructor (n: nat)
      ensures Valid() && noVariables == n && crt == null && spare == null && errors == 0
    {
      noVariables := n;
      varCount := seq(n, _ => 0);
      crt, spare, errors := null, null, 0;
    }

    // A fresh object of the given kind.
    method NewObject(v: nat) returns (p: Object)
      requires v < noVariables == |varCount|
      modifies this`varCount
      ensures p == Object(v, old(varCount)[v]) && varCount == old(varCount)[v := old(varCount)[v] + 1]
    {
      p := Object(v, varCount[v]);
      varCount := varCount[v := varCount[v] + 1];
    }

    // A table whose sizes are all zero: the spare one if there is one, else fresh.
    method NewBindingTable() returns (bt: array?<Binding>)
      requires Valid()
      modifies this`spare, spare
      ensures noVariables == 0 ==> bt == null && spare == old(spare)
      ensures noVariables > 0 ==>
                && bt != null && (fresh(bt) || bt == old(spare)) && bt.Length == noVariables && spare == null
                && (forall v :: 0 <= v < noVariables ==> bt[v].maxNo == 0) && Rows(bt)
    {
      if noVariables == 0 { return null; }
      if spare != null {
        bt := spare;
        spare := null;
        var i := 0;
        while i < noVariables
          invariant i <= noVariables && (forall v :: 0 <= v < i ==> bt[v].maxNo == 0) && Rows(bt)
          modifies bt
        {
          bt[i] := bt[i].(maxNo := 0);
          i := i + 1;
        }
      } else {
        bt := new Binding[noVariables](_ => Binding(0, []));
      }
    }

    method FreeBindingTable(bt: array<Binding>)
      modifies this`spare
      ensures spare == bt
    {
      spare := bt;
    }

    // Fix how many entries a kind has, and blank them all.
    method SetBindingSize(bt: array<Binding>, v: nat, n: nat)
      requires bt.Length == noVariables
      modifies bt, this`errors
      ensures errors == old(errors) + if v < noVariables then 0 else 1
      ensures v < noVariables ==>
                && bt[v].maxNo == n && |bt[v].table| >= n + 10
                && forall i :: 0 <= i < |bt[v].table| ==> bt[v].table[i] == Null
      ensures forall w :: 0 <= w < noVariables && w != v ==> bt[w] == old(bt[w])
    {
      if v >= noVariables {
        errors := errors + 1;
        return;
      }
      var m := n + 10;
      var p := bt[v].table;
      if |p| < m { p := p + Nulls(m - |p|); }
      var i := 0;
      while i < |p|
        invariant i <= |p| && |p| >= m && forall k :: 0 <= k < i ==> p[k] == Null
      {
        p := p[i := Null];
        i := i + 1;
      }
      bt[v] := Binding(n, p);
    }

    // Enter an object; a table that is too small grows, which is an error.
    method SetBinding(bt: array<Binding>, v: nat, n: nat, p: Ref)
      requires bt.Length == noVariables && (v < noVariables ==> bt[v].maxNo <= |bt[v].table|)
      modifies bt, this`errors
      ensures errors >= old(errors) && (v >= noVariables ==> errors > old(errors) && bt[..] == old(bt[..]))
      ensures v < noVariables ==>
                && bt[v].maxNo == old(bt[v].maxNo) && |bt[v].table| >= |old(bt[v].table)| && n < |bt[v].table|
                && bt[v].table[n] == p
                && (n < |old(bt[v].table)| ==> bt[v].table == old(bt[v].table)[n := p])
                && (forall i :: 0 <= i < |bt[v].table| && i != n ==>
                      bt[v].table[i] == if i < |old(bt[v].table)| then old(bt[v].table)[i] else Null)
                && (forall w :: 0 <= w < noVariables && w != v ==> bt[w] == old(bt[w]))
                && (errors == old(errors) <==>
                      n < old(bt[v].maxNo) && old(bt[v].table)[n] == Null)
    {
      if v >= noVariables {
        errors := errors + 1;
        return;
      }
      var table := bt[v].table;
      if n >= bt[v].maxNo {
        errors := errors + 1;
        while n >= |table|
          invariant |table| >= |bt[v].table| && table[..|bt[v].table|] == bt[v].table
          invariant forall i :: |bt[v].table| <= i < |table| ==> table[i] == Null
          invariant n < |bt[v].table| ==> table == bt[v].table
          decreases n - |table|
        {
          // The grown table keeps the old entries in front.
          table := table + Nulls(100);
        }
      }
      if table[n] != Null { errors := errors + 1; }
      bt[v] := bt[v].(table := table[n := p]);
    }

    // The object at a number.
    method FindBinding(bt: array<Binding>, v: nat, n: nat) returns (p: Ref)
      requires bt.Length == noVariables
      modifies this`errors
      ensures errors == old(errors) + if v < noVariables && n < bt[v].maxNo then 0 else 1
      ensures p == if v < noVariables && n < |bt[v].table| then bt[v].table[n] else Null
    {
      if v >= noVariables {
        errors := errors + 1;
        return Null;
      }
      if n >= bt[v].maxNo { errors := errors + 1; }
      if n >= |bt[v].table| { return Null; }
      p := bt[v].table[n];
    }

    // Make objects for all the entries that have none.
    method CompleteBinding(bt: array<Binding>)
      requires bt.Length == noVariables == |varCount|
      requires forall v :: 0 <= v < noVariables ==> bt[v].maxNo <= |bt[v].table|
      modifies this`varCount, bt
      ensures |varCount| == noVariables
      ensures forall v :: 0 <= v < noVariables ==>
                && bt[v] == Completed(v, old(bt[v]), old(varCount)[v])
                && varCount[v] == old(varCount)[v] + Blanks(old(bt[v].table), old(bt[v].maxNo))
    {
      hide Completed, Blanks;
      var v := 0;
      while v < noVariables
        invariant v <= noVariables == |varCount|
        invariant forall w :: 0 <= w < v ==>
                    && bt[w] == Completed(w, old(bt[w]), old(varCount)[w])
                    && varCount[w] == old(varCount)[w] + Blanks(old(bt[w].table), old(bt[w].maxNo))
        invariant forall w :: v <= w < noVariables ==> bt[w] == old(bt[w]) && varCount[w] == old(varCount)[w]
      {
        CompleteRow(bt, v);
        v := v + 1;
      }
    }

    method CompleteRow(bt: array<Binding>, v: nat)
      requires v < bt.Length == noVariables == |varCount| && bt[v].maxNo <= |bt[v].table|
      modifies this`varCount, bt
      ensures bt[v] == Completed(v, old(bt[v]), old(varCount)[v])
      ensures varCount == old(varCount)[v := old(varCount)[v] + Blanks(old(bt[v].table), old(bt[v].maxNo))]
      ensures forall w :: 0 <= w < noVariables && w != v ==> bt[w] == old(bt[w])
    {
      ghost var t, c := bt[v].table, varCount[v];
      var i := 0;
      while i < bt[v].maxNo
        invariant i <= bt[v].maxNo == old(bt[v].maxNo) <= |t|
        invariant bt[v].table == Fill(v, t, i, c) && varCount == old(varCount)[v := c + Blanks(t, i)]
        invariant forall w :: 0 <= w < noVariables && w != v ==> bt[w] == old(bt[w])
      {
        FillAt(v, t, i, c, i);
        if bt[v].table[i] == Null {
          var p := NewObject(v);
          bt[v] := bt[v].(table := bt[v].table[i := At(p)]);
        }
        i := i + 1;
      }
    }

    // Set the size of every entry of a new table.
    method SetSizes(bt: array<Binding>, sizes: seq<nat>)
      requires bt.Length == noVariables && forall v :: 0 <= v < noVariables ==> bt[v].maxNo == 0
      modifies bt, this`errors
      ensures errors == old(errors) + if |sizes| > noVariables then |sizes| - noVariables else 0
      ensures forall v :: 0 <= v < noVariables ==> Cleared(bt[v], if v < |sizes| then sizes[v] else 0, v < |sizes|)
      ensures forall v :: |sizes| <= v < noVariables ==> bt[v] == old(bt[v])
    {
      var i := 0;
      while i < |sizes|
        invariant i <= |sizes| && errors == old(errors) + if i > noVariables then i - noVariables else 0
        invariant forall v :: 0 <= v < noVariables ==> Cleared(bt[v], if v < i then sizes[v] else 0, v < i)
        invariant forall v :: i <= v < noVariables ==> bt[v] == old(bt[v])
      {
        SetBindingSize(bt, i, sizes[i]);
        i := i + 1;
      }
    }

    // Link the variables of a unit, kind by kind, to those outside.
    method LinkAll(bt: array<Binding>, outer: array<Binding>, links: seq<seq<Link>>)
      requires Rows(bt) && Rows(outer) && bt != outer
      modifies bt, this`errors
      ensures errors >= old(errors) && Rows(bt)
      ensures forall v :: 0 <= v < noVariables && v < |links| && LinksOk(old(bt[v]), outer[v], links[v]) ==>
                bt[v] == Linked(old(bt[v]), outer[v], links[v])
      ensures |links| == noVariables && (forall v :: 0 <= v < noVariables ==> Blank(old(bt[v]))) ==>
                (errors == old(errors) <==>
                   forall v :: 0 <= v < noVariables ==> LinksOk(old(bt[v]), outer[v], links[v]))
    {
      hide LinksOk, Linked, Below, Blank;
      var v := 0;
      while v < |links|
        invariant v <= |links| && errors >= old(errors) && Rows(bt)
        invariant forall w :: 0 <= w < noVariables && w < v && LinksOk(old(bt[w]), outer[w], links[w]) ==>
                    bt[w] == Linked(old(bt[w]), outer[w], links[w])
        invariant forall w :: v <= w < noVariables ==> bt[w] == old(bt[w])
        invariant |links| == noVariables && (forall w :: 0 <= w < noVariables ==> Blank(old(bt[w]))) ==>
                    (errors == old(errors) <==> forall w :: 0 <= w < v ==> LinksOk(old(bt[w]), outer[w], links[w]))
      {
        LinkKind(bt, outer, v, links[v]);
        v := v + 1;
      }
    }

    method LinkKind(bt: array<Binding>, outer: array<Binding>, v: nat, links: seq<Link>)
      requires Rows(bt) && Rows(outer) && bt != outer
      modifies bt, this`errors
      ensures errors >= old(errors) && Rows(bt)
      ensures forall w :: 0 <= w < noVariables && w != v ==> bt[w] == old(bt[w])
      ensures v < noVariables && LinksOk(old(bt[v]), outer[v], links) ==> bt[v] == Linked(old(bt[v]), outer[v], links)
      ensures v < noVariables && Blank(old(bt[v])) ==> (errors == old(errors) <==> LinksOk(old(bt[v]), outer[v], links))
    {
      hide LinksOk, NoClash;
      var j := 0;
      ghost var row := if v < noVariables then bt[v] else Binding(0, []);
      ghost var out := if v < noVariables then outer[v] else Binding(0, []);
      assert links[..0] == [];
      NoLinks(row, out);
      while j < |links|
        invariant j <= |links| && errors >= old(errors) && Rows(bt)
        invariant v < noVariables ==> bt[v].maxNo == row.maxNo <= |row.table| <= |bt[v].table|
        invariant forall w :: 0 <= w < noVariables && w != v ==> bt[w] == old(bt[w])
        invariant v < noVariables && Blank(row) ==> (errors == old(errors) <==> LinksOk(row, out, links[..j]))
        invariant v < noVariables && LinksOk(row, out, links[..j]) ==> bt[v] == Linked(row, out, links[..j])
      {
        LinksStep(row, out, links, j);
        var p := FindBinding(outer, v, links[j].outer);
        SetBinding(bt, v, links[j].inner, p);
        j := j + 1;
      }
      assert links[..j] == links;
    }

    // A table for a unit with as many variables as the unit has, linked to those
    // outside; rows is what it was before the links.
    method LinkUnit(outer: array<Binding>, sizes: seq<nat>, noLinks: nat, links: seq<seq<Link>>)
      returns (bt: array<Binding>, ghost rows: seq<Binding>)
      requires Valid() && noVariables > 0 && outer == crt && |links| == |sizes|
      modifies this`spare, this`errors, spare
      ensures Rows(bt) && Rows(outer) && (fresh(bt) || bt == old(spare)) && spare == null && errors >= old(errors)
      ensures bt != outer && |rows| == noVariables
      ensures errors == old(errors) <==> UnitOk(outer[..], sizes, noLinks, links)
      ensures UnitOk(outer[..], sizes, noLinks, links) ==>
                forall v :: 0 <= v < noVariables ==>
                  && Cleared(rows[v], sizes[v], true)
                  && LinksOk(rows[v], outer[v], links[v]) && bt[v] == Linked(rows[v], outer[v], links[v])
    {
      hide RowOk, LinksOk, Linked, Cleared, RangeOk, Blank;
      if |sizes| != noVariables { errors := errors + 1; }
      bt := NewBindingTable();
      SetSizes(bt, sizes);
      forall v | 0 <= v < noVariables ensures RowOk(bt[v], v, varCount[v]) {
        if v < |sizes| { ClearedRow(bt[v], v, varCount[v], sizes[v]); }
      }
      if noLinks != |sizes| { errors := errors + 1; }
      rows := bt[..];
      if |sizes| == noVariables {
        forall v | 0 <= v < noVariables
          ensures Blank(rows[v]) && (LinksOk(rows[v], outer[v], links[v]) <==> RangeOk(sizes[v], outer[v], links[v]))
        {
          RowFits(outer[v], v, varCount[v]);
          ClearedLinks(rows[v], outer[v], sizes[v], links[v]);
        }
      }
      LinkAll(bt, outer, links);
    }

    // Bind the variables of a unit: as many as the unit has, the linked ones to
    // variables outside, the others to new objects.
    method BindUnit(outer: array<Binding>, sizes: seq<nat>, noLinks: nat, links: seq<seq<Link>>)
      returns (bt: array<Binding>)
      requires Valid() && noVariables > 0 && outer == crt && |links| == |sizes|
      modifies this`spare, this`errors, this`varCount, spare
      ensures Valid() && Rows(bt) && (fresh(bt) || bt == old(spare)) && spare == null && errors >= old(errors)
      ensures forall v :: 0 <= v < noVariables ==> old(varCount)[v] <= varCount[v]
      // What it takes for there to be no error.
      ensures errors == old(errors) <==>
                && |sizes| == noVariables && noLinks == noVariables
                && forall v :: 0 <= v < noVariables ==>
                     && (forall j :: 0 <= j < |links[v]| ==>
                           links[v][j].inner < sizes[v] && links[v][j].outer < outer[v].maxNo)
                     && (forall j, k :: 0 <= j < k < |links[v]| && links[v][j].inner == links[v][k].inner ==>
                           outer[v].table[links[v][j].outer] == Null)
      ensures errors == old(errors) <==> UnitOk(outer[..], sizes, noLinks, links)
      ensures errors == old(errors) ==>
                forall v :: 0 <= v < noVariables ==>
                     UnitBound(bt[v], v, outer[v], sizes[v], links[v], old(varCount)[v])
    {
      hide UnitBound, RowOk, LinksOk, Linked, Completed, Cleared, Blanks, UnitOk;
      ghost var rows;
      bt, rows := LinkUnit(outer, sizes, noLinks, links);
      ghost var linked, ok := bt[..], UnitOk(outer[..], sizes, noLinks, links);
      forall v | 0 <= v < noVariables
        ensures linked[v].maxNo <= |linked[v].table| && outer[v].maxNo <= |outer[v].table|
      {
        RowFits(linked[v], v, varCount[v]);
        RowFits(outer[v], v, varCount[v]);
      }
      UnitOkMeans(outer[..], sizes, noLinks, links);
      CompleteBinding(bt);
      forall v | 0 <= v < noVariables
        ensures RowOk(bt[v], v, varCount[v]) && RowOk(outer[v], v, varCount[v])
        ensures ok ==> UnitBound(bt[v], v, outer[v], sizes[v], links[v], old(varCount)[v])
      {
        CompletedRow(linked[v], v, old(varCount)[v]);
        RowGrow(outer[v], v, old(varCount)[v], varCount[v]);
        if ok { BoundRow(v, rows[v], outer[v], sizes[v], links[v], old(varCount)[v]); }
      }
    }

    // Look up an object while a unit is read, making it if it is not there.
    method LookUp(v: nat, n: nat) returns (obj: Object)
      requires Valid() && crt != null && v < noVariables
      modifies this`errors, this`varCount, crt
      ensures Valid() && n < |crt[v].table| && crt[v].table[n] == At(obj)
      ensures errors >= old(errors) && (errors == old(errors) <==> n < old(crt[v].maxNo))
      ensures n >= |old(crt[v].table)| || old(crt[v].table)[n] == Null ==>
                obj == Object(v, old(varCount)[v]) && varCount == old(varCount)[v := old(varCount)[v] + 1]
      ensures n < |old(crt[v].table)| && old(crt[v].table)[n] != Null ==>
                obj == old(crt[v].table)[n].obj && crt[..] == old(crt[..]) && varCount == old(varCount)
      ensures forall w :: 0 <= w < noVariables ==> old(varCount)[w] <= varCount[w]
    {
      var p := FindBinding(crt, v, n);
      if p != Null { return p.obj; }
      obj := NewObject(v);
      SetBinding(crt, v, n, At(obj));
      forall w | 0 <= w < noVariables ensures RowOk(crt[w], w, varCount[w]) {
        RowGrow(old(crt[w]), w, old(varCount)[w], varCount[w]);
      }
      if spare != null {
        forall w | 0 <= w < noVariables ensures RowOk(spare[w], w, varCount[w]) {
          RowGrow(spare[w], w, old(varCount)[w], varCount[w]);
        }
      }
    }

    // The body of a unit: a run of uses of variables.
    method Body(uses: seq<(nat, nat)>)
      requires Valid() && crt != null && forall i :: 0 <= i < |uses| ==> uses[i].0 < noVariables
      modifies this`errors, this`varCount, crt
      ensures Valid() && errors >= old(errors)
      ensures forall w :: 0 <= w < noVariables ==> old(varCount)[w] <= varCount[w]
    {
      var i := 0;
      while i < |uses|
        invariant i <= |uses| && Valid() && errors >= old(errors)
        invariant forall w :: 0 <= w < noVariables ==> old(varCount)[w] <= varCount[w]
      {
        var _ := LookUp(uses[i].0, uses[i].1);
        i := i + 1;
      }
    }

    // One unit.  If it has variables of its own, they are bound, and the bindings
    // outside are restored after the body.  What the body starts with is handed out.
    method DeEquation(u: Unit) returns (ghost start: seq<Binding>)
      requires Valid() && crt != null && u.Fits(noVariables)
      modifies this`crt, this`spare, this`errors, this`varCount, crt, spare
      ensures Valid() && crt == old(crt) && errors >= old(errors)
      ensures forall v :: 0 <= v < noVariables ==> old(varCount)[v] <= varCount[v]
      ensures u.sizes == [] ==>
                spare == old(spare) && start == old(crt[..]) && (u.noLinks != 0 ==> errors > old(errors))
      ensures u.sizes != [] ==>
                && crt[..] == old(crt[..]) && spare != null && (fresh(spare) || spare == old(spare))
                && |start| == noVariables && (forall v :: 0 <= v < noVariables ==> RowOk(start[v], v, varCount[v]))
                && (!UnitOk(old(crt[..]), u.sizes, u.noLinks, u.links) ==> errors > old(errors))
                && (UnitOk(old(crt[..]), u.sizes, u.noLinks, u.links) ==>
                      forall v :: 0 <= v < noVariables ==>
                        UnitBound(start[v], v, old(crt[v]), u.sizes[v], u.links[v], old(varCount)[v]))
    {
      hide UnitBound, RowOk, UnitOk;
      // What was bound outside, to come back below.
      var oldBinding := crt;
      if u.sizes == [] {
        if u.noLinks != 0 { errors := errors + 1; }
        start := crt[..];
        Body(u.uses);
        return;
      }
      var bt := BindUnit(oldBinding, u.sizes, u.noLinks, u.links);
      crt := bt;
      start := crt[..];
      ghost var counts := varCount;
      Body(u.uses);
      forall v | 0 <= v < noVariables ensures RowOk(oldBinding[v], v, varCount[v]) && RowOk(start[v], v, varCount[v]) {
        RowGrow(oldBinding[v], v, counts[v], varCount[v]);
        RowGrow(start[v], v, counts[v], varCount[v]);
      }
      // The outer table is current again.
      FreeBindingTable(crt);
      crt := oldBinding;
    }

    // Any number of units, all through the same two tables: each starts as the
    // first would, and what one makes for itself no other has.
    method DeUnits(us: seq<Unit>) returns (ghost starts: seq<seq<Binding>>, ghost counts: seq<seq<nat>>)
      requires Valid() && crt != null
      requires forall k :: 0 <= k < |us| ==> us[k].Fits(noVariables) && us[k].sizes != []
      requires forall k :: 0 <= k < |us| ==>
                 && |us[k].sizes| == |us[k].links| == noVariables
                 && UnitOk(crt[..], us[k].sizes, us[k].noLinks, us[k].links)
      modifies this`crt, this`spare, this`errors, this`varCount, crt, spare
      ensures Valid() && crt == old(crt) && crt[..] == old(crt[..])
      ensures |starts| == |counts| == |us|
      ensures forall k :: 0 <= k < |us| ==> |starts[k]| == |counts[k]| == noVariables
      ensures forall k, v :: 0 <= k < |us| && 0 <= v < noVariables ==>
                && old(varCount)[v] <= counts[k][v]
                && UnitBound(starts[k][v], v, old(crt[v]), us[k].sizes[v], us[k].links[v], counts[k][v])
      ensures forall k, l, v :: 0 <= k < l < |us| && 0 <= v < noVariables ==>
                Apart(starts[l][v], us[l].sizes[v], us[l].links[v], starts[k][v])
    {
      hide UnitBound, RowOk, RangeOk, Apart;
      starts, counts := [], [];
      ghost var outer := crt[..];
      var n := 0;
      while n < |us|
        invariant n <= |us| && |starts| == |counts| == n
        invariant Valid() && crt == old(crt) && crt[..] == outer
        invariant spare == null || spare == old(spare) || fresh(spare)
        invariant forall k :: 0 <= k < n ==> |starts[k]| == |counts[k]| == noVariables
        invariant forall v :: 0 <= v < noVariables ==> old(varCount)[v] <= varCount[v]
        invariant forall k, v :: 0 <= k < n && 0 <= v < noVariables ==>
                    && old(varCount)[v] <= counts[k][v] && RowOk(starts[k][v], v, varCount[v])
                    && UnitBound(starts[k][v], v, outer[v], us[k].sizes[v], us[k].links[v], counts[k][v])
        invariant forall k, l, v :: 0 <= k < l < n && 0 <= v < noVariables ==>
                    Apart(starts[l][v], us[l].sizes[v], us[l].links[v], starts[k][v])
      {
        ghost var before := varCount;
        var start := DeEquation(us[n]);
        forall k, v | 0 <= k < n && 0 <= v < noVariables
          ensures RowOk(starts[k][v], v, varCount[v])
          ensures Apart(start[v], us[n].sizes[v], us[n].links[v], starts[k][v])
        {
          RowGrow(starts[k][v], v, before[v], varCount[v]);
          OwnNew(start[v], v, outer[v], us[n].sizes[v], us[n].links[v], before[v], starts[k][v]);
        }
        starts, counts := starts + [start], counts + [before];
        n := n + 1;
      }
    }
  }

  function Completed(v: nat, b: Binding, c: nat): Binding
    requires b.maxNo <= |b.table|
  {
    b.(table := Fill(v, b.table, b.maxNo, c))
  }

  // No entry in use is set.
  predicate Blank(b: Binding) {
    b.maxNo <= |b.table| && forall i :: 0 <= i < b.maxNo ==> b.table[i] == Null
  }

  lemma NoLinks(b: Binding, outer: Binding)
    ensures Blank(b) && outer.maxNo <= |outer.table| ==> LinksOk(b, outer, [])
    ensures LinksOk(b, outer, []) ==> Linked(b, outer, []) == b
  {
  }

  // One more link is right if the ones before are, it is in range, and the
  // variable has no object yet.
  lemma LinksStep(b: Binding, outer: Binding, links: seq<Link>, j: nat)
    requires j < |links| && b.maxNo <= |b.table| && outer.maxNo <= |outer.table|
    ensures LinksOk(b, outer, links[..j + 1]) ==> LinksOk(b, outer, links[..j])
    ensures LinksOk(b, outer, links[..j]) ==>
              var (l, t) := (links[j], Linked(b, outer, links[..j]).table);
              && |t| == |b.table|
              && (LinksOk(b, outer, links[..j + 1]) <==>
                    l.inner < b.maxNo && l.outer < outer.maxNo && t[l.inner] == Null)
              && (LinksOk(b, outer, links[..j + 1]) ==>
                    Linked(b, outer, links[..j + 1]).table == t[l.inner := outer.table[l.outer]])
  {
    var front, more := links[..j], links[..j + 1];
    assert more[..j] == front && more[j] == links[j];
    assert forall k :: 0 <= k < j ==> more[k] == front[k];
    if LinksOk(b, outer, front) && links[j].inner < b.maxNo && links[j].outer < outer.maxNo {
      LinkRowBlank(outer.table, b.table, front, links[j].inner);
    }
  }

  function Linked(b: Binding, outer: Binding, links: seq<Link>): Binding
    requires LinksOk(b, outer, links)
  {
    b.(table := LinkRow(outer.table, b.table, links))
  }

  // A row of n entries; if it is clear, none of them is set.
  predicate Cleared(b: Binding, n: nat, clear: bool) {
    b.maxNo == n && n <= |b.table| && (clear ==> forall i :: 0 <= i < |b.table| ==> b.table[i] == Null)
  }

  // The links of a row are between declared variables, each linked once.
  predicate LinksOk(b: Binding, outer: Binding, links: seq<Link>)
  {
    && b.maxNo <= |b.table| && outer.maxNo <= |outer.table|
    && InRange(links, b.maxNo, outer.maxNo) && NoClash(outer.table, links)
    && Blank(b)
  }

  // ----- a unit's row

  predicate RangeOk(n: nat, outer: Binding, links: seq<Link>) {
    outer.maxNo <= |outer.table| && InRange(links, n, outer.maxNo) && NoClash(outer.table, links)
  }

  // A unit has every kind of variables, with links between declared ones.
  predicate UnitOk(outer: seq<Binding>, sizes: seq<nat>, noLinks: nat, links: seq<seq<Link>>) {
    |sizes| == |outer| == noLinks == |links| && forall v :: 0 <= v < |outer| ==> RangeOk(sizes[v], outer[v], links[v])
  }

  lemma UnitOkMeans(outer: seq<Binding>, sizes: seq<nat>, noLinks: nat, links: seq<seq<Link>>)
    requires |links| == |sizes| && forall v :: 0 <= v < |outer| ==> outer[v].maxNo <= |outer[v].table|
    ensures UnitOk(outer, sizes, noLinks, links) <==>
              && |sizes| == |outer| && noLinks == |outer|
              && forall v :: 0 <= v < |outer| ==>
                   && (forall j :: 0 <= j < |links[v]| ==>
                         links[v][j].inner < sizes[v] && links[v][j].outer < outer[v].maxNo)
                   && (forall j, k :: 0 <= j < k < |links[v]| && links[v][j].inner == links[v][k].inner ==>
                         outer[v].table[links[v][j].outer] == Null)
    ensures UnitOk(outer, sizes, noLinks, links) ==>
              forall v :: 0 <= v < |outer| ==> RangeOk(sizes[v], outer[v], links[v])
  {
  }

  // The row is what a unit's is to be, and nothing is behind its end.
  predicate UnitBound(b: Binding, v: nat, outer: Binding, n: nat, links: seq<Link>, c: nat) {
    && RangeOk(n, outer, links) && b.maxNo == n <= |b.table|
    && b.table[..n] == UnitRow(v, outer.table, n, links, c)
    && forall i :: n <= i < |b.table| ==> b.table[i] == Null
  }

  lemma ClearedRow(b: Binding, v: nat, c: nat, n: nat)
    requires Cleared(b, n, true)
    ensures RowOk(b, v, c)
  {
  }

  lemma RowFits(b: Binding, v: nat, c: nat)
    requires RowOk(b, v, c)
    ensures b.maxNo <= |b.table|
  {
  }

  lemma RowGrow(b: Binding, v: nat, c: nat, d: nat)
    requires RowOk(b, v, c) && c <= d
    ensures RowOk(b, v, d)
  {
  }

  // The unlinked ones of the first n entries are nowhere in another row.
  predicate Apart(b: Binding, n: nat, links: seq<Link>, other: Binding) {
    forall i :: 0 <= i < n && i < |b.table| && Unlinked(links, i) ==> b.table[i] !in other.table
  }

  // What a unit makes for itself is in no row that was there before.
  lemma OwnNew(b: Binding, v: nat, outer: Binding, n: nat, links: seq<Link>, c: nat, other: Binding)
    requires UnitBound(b, v, outer, n, links, c) && RowOk(other, v, c)
    ensures Apart(b, n, links, other)
  {
    var t := LinkRow(outer.table, Nulls(n), links);
    forall i | 0 <= i < n && Unlinked(links, i) ensures b.table[i] !in other.table {
      LinkRowAt(outer.table, Nulls(n), links, i);
      FillAt(v, t, n, c, i);
      assert b.table[i] == b.table[..n][i] == At(Object(v, c + Blanks(t, i)));
    }
  }

  lemma ClearedLinks(b: Binding, outer: Binding, n: nat, links: seq<Link>)
    requires Cleared(b, n, true) && outer.maxNo <= |outer.table|
    ensures Blank(b) && (LinksOk(b, outer, links) <==> RangeOk(n, outer, links))
  {
  }

  lemma CompletedRow(b: Binding, v: nat, c: nat)
    requires RowOk(b, v, c)
    ensures RowOk(Completed(v, b, c), v, c + Blanks(b.table, b.maxNo))
  {
    forall i | 0 <= i < |b.table|
      ensures Completed(v, b, c).table[i] ==
              if i < b.maxNo && b.table[i] == Null then At(Object(v, c + Blanks(b.table, i))) else b.table[i]
      ensures i < b.maxNo && b.table[i] == Null ==> Blanks(b.table, i) < Blanks(b.table, b.maxNo)
    {
      FillAt(v, b.table, b.maxNo, c, i);
      if i < b.maxNo { BlanksGrow(b.table, i, b.maxNo); }
    }
  }

  lemma {:induction false} BlanksWithin(t: seq<Ref>, u: seq<Ref>, k: nat)
    requires k <= |t| && k <= |u| && forall i :: 0 <= i < k ==> t[i] == u[i]
    ensures Blanks(t, k) == Blanks(u, k)
    decreases k
  {
    if k > 0 { BlanksWithin(t, u, k - 1); }
  }

  // A cleared row, linked and completed, is a unit's row.
  lemma BoundRow(v: nat, b: Binding, outer: Binding, n: nat, links: seq<Link>, c: nat)
    requires Cleared(b, n, true) && RangeOk(n, outer, links)
    ensures LinksOk(b, outer, links)
    ensures UnitBound(Completed(v, Linked(b, outer, links), c), v, outer, n, links, c)
  {
    var t, u := LinkRow(outer.table, b.table, links), LinkRow(outer.table, Nulls(n), links);
    forall i | 0 <= i < |t| ensures t[i] == if i < n then u[i] else Null {
      if i < n {
        LinkRowSame(outer.table, b.table, Nulls(n), links, i);
      } else {
        LinkRowAt(outer.table, b.table, links, i);
      }
    }
    forall i | 0 <= i < |t| ensures Fill(v, t, n, c)[i] == if i < n then Fill(v, u, n, c)[i] else Null {
      FillAt(v, t, n, c, i);
      if i < n {
        FillAt(v, u, n, c, i);
        BlanksWithin(t, u, i);
      }
    }
  }
}
