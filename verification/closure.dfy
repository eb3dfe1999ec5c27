// Reachability in a directed graph, cyclic or not, by paths that avoid a set.
module Closure {

  // Node x leads to the nodes g[x].
  type Graph = seq<seq<nat>>

  predicate Inside(g: Graph, xs: seq<nat>) {
    forall i :: 0 <= i < |xs| ==> xs[i] < |g|
  }

  predicate GraphOk(g: Graph) {
    forall x :: 0 <= x < |g| ==> Inside(g, g[x])
  }

  ghost predicate Path(g: Graph, p: seq<nat>, avoid: set<nat>) {
    && p != [] && Inside(g, p)
    && (forall i :: 0 <= i < |p| ==> p[i] !in avoid)
    && (forall i {:trigger p[i]} :: 0 < i < |p| ==> p[i] in g[p[i - 1]])
  }

  ghost predicate Joins(g: Graph, p: seq<nat>, a: nat, b: nat, avoid: set<nat>) {
    Path(g, p, avoid) && p[0] == a && p[|p| - 1] == b
  }

  // There is a path from a to b outside avoid.
  ghost predicate Reaches(g: Graph, a: nat, b: nat, avoid: set<nat>) {
    exists p :: Joins(g, p, a, b, avoid)
  }

  ghost predicate ReachedFrom(g: Graph, roots: seq<nat>, b: nat, avoid: set<nat>) {
    exists i :: 0 <= i < |roots| && Reaches(g, roots[i], b, avoid)
  }

  // What was there and what the roots reach outside it.
  ghost function Closed(g: Graph, roots: seq<nat>, avoid: set<nat>): set<nat> {
    avoid + set b | 0 <= b < |g| && ReachedFrom(g, roots, b, avoid)
  }

  lemma InsideBoth(g: Graph, a: seq<nat>, b: seq<nat>)
    requires Inside(g, a + b)
    ensures Inside(g, a) && Inside(g, b)
  {
    forall k | 0 <= k < |a| ensures a[k] < |g| { assert (a + b)[k] == a[k]; }
    forall k | 0 <= k < |b| ensures b[k] < |g| { assert (a + b)[|a| + k] == b[k]; }
  }

  // ----- paths

  lemma Alone(g: Graph, a: nat, avoid: set<nat>)
    requires a < |g| && a !in avoid
    ensures Reaches(g, a, a, avoid)
  {
    assert Joins(g, [a], a, a, avoid);
  }

  lemma Ends(g: Graph, a: nat, b: nat, avoid: set<nat>)
    requires Reaches(g, a, b, avoid)
    ensures a < |g| && b < |g| && a !in avoid && b !in avoid
  {
  }

  lemma Append(g: Graph, a: nat, b: nat, c: nat, avoid: set<nat>)
    requires Reaches(g, a, b, avoid) && b < |g| && c in g[b] && c < |g| && c !in avoid
    ensures Reaches(g, a, c, avoid)
  {
    var p :| Joins(g, p, a, b, avoid);
    var q := p + [c];
    assert forall i {:trigger q[i]} :: 0 < i < |q| ==> q[i - 1] == p[i - 1];
    assert Joins(g, q, a, c, avoid);
  }

  lemma Prepend(g: Graph, a: nat, b: nat, c: nat, avoid: set<nat>)
    requires Reaches(g, b, c, avoid) && a < |g| && b in g[a] && a !in avoid
    ensures Reaches(g, a, c, avoid)
  {
    var p :| Joins(g, p, b, c, avoid);
    var q := [a] + p;
    assert Path(g, q, avoid) by {
      forall i {:trigger q[i]} | 0 < i < |q| ensures q[i] in g[q[i - 1]] {
        assert q[i] == p[i - 1];
        if i > 1 { assert q[i - 1] == p[i - 2] && p[i - 1] in g[p[i - 2]]; }
      }
      forall i | 0 <= i < |q| ensures q[i] < |g| && q[i] !in avoid {
        if i > 0 { assert q[i] == p[i - 1]; }
      }
    }
    assert Joins(g, q, a, c, avoid);
  }

  // Avoiding less reaches more.
  lemma Wider(g: Graph, a: nat, b: nat, avoid: set<nat>, more: set<nat>)
    requires Reaches(g, a, b, more) && avoid <= more
    ensures Reaches(g, a, b, avoid)
  {
    var p :| Joins(g, p, a, b, more);
    assert Joins(g, p, a, b, avoid);
  }

  lemma Suffix(g: Graph, p: seq<nat>, k: nat, avoid: set<nat>)
    requires Path(g, p, avoid) && k < |p|
    ensures Path(g, p[k..], avoid) && p[k..][0] == p[k] && p[k..][|p| - k - 1] == p[|p| - 1]
  {
    var q := p[k..];
    assert forall i {:trigger q[i]} :: 0 < i < |q| ==> q[i] == p[k + i] && q[i - 1] == p[k + i - 1];
  }

  // A path from a to b either is a alone or has a part that leaves a for good.
  lemma {:induction false} Leaves(g: Graph, p: seq<nat>, a: nat, b: nat, avoid: set<nat>)
    requires Joins(g, p, a, b, avoid) && a != b
    ensures exists c :: c in g[a] && Reaches(g, c, b, avoid + {a})
    decreases |p|
  {
    var q := p[1..];
    Suffix(g, p, 1, avoid);
    if a in q {
      var k :| 0 <= k < |q| && q[k] == a;
      Suffix(g, q, k, avoid);
      Leaves(g, q[k..], a, b, avoid);
    } else {
      assert p[1] in g[p[0]];
      assert Joins(g, q, p[1], b, avoid + {a});
    }
  }

  // ----- visiting the roots one after the other

  lemma ClosedEmpty(g: Graph, avoid: set<nat>)
    ensures Closed(g, [], avoid) == avoid
  {
  }

  lemma NowhereFrom(g: Graph, a: nat, b: nat, avoid: set<nat>)
    requires a in avoid
    ensures !Reaches(g, a, b, avoid)
  {
  }

  // Visiting a node that is already there changes nothing.
  lemma ClosedSkip(g: Graph, a: nat, avoid: set<nat>)
    requires a in avoid
    ensures Closed(g, [a], avoid) == avoid
  {
    forall b: nat ensures !ReachedFrom(g, [a], b, avoid) { NowhereFrom(g, a, b, avoid); }
  }

  // Visiting a node is adding it and visiting where it leads.
  lemma ClosedEnter(g: Graph, a: nat, avoid: set<nat>)
    requires GraphOk(g) && a < |g| && a !in avoid
    ensures Closed(g, [a], avoid) == Closed(g, g[a], avoid + {a})
  {
    var l, r := Closed(g, [a], avoid), Closed(g, g[a], avoid + {a});
    forall b | b in l ensures b in r {
      if b !in avoid && b != a {
        assert Reaches(g, [a][0], b, avoid);
        var p :| Joins(g, p, a, b, avoid);
        Leaves(g, p, a, b, avoid);
        var c :| c in g[a] && Reaches(g, c, b, avoid + {a});
        var i :| 0 <= i < |g[a]| && g[a][i] == c;
        assert ReachedFrom(g, g[a], b, avoid + {a});
      }
    }
    forall b | b in r ensures b in l {
      if b == a {
        Alone(g, a, avoid);
        assert Reaches(g, [a][0], b, avoid);
      } else if b !in avoid {
        var i :| 0 <= i < |g[a]| && Reaches(g, g[a][i], b, avoid + {a});
        Wider(g, g[a][i], b, avoid, avoid + {a});
        Prepend(g, a, g[a][i], b, avoid);
        assert Reaches(g, [a][0], b, avoid);
      }
    }
  }

  // Visiting two lists of roots is visiting the one and then the other.
  lemma ClosedThen(g: Graph, a: seq<nat>, b: seq<nat>, avoid: set<nat>)
    requires GraphOk(g)
    ensures Closed(g, a + b, avoid) == Closed(g, b, Closed(g, a, avoid))
  {
    var v := Closed(g, a, avoid);
    var l, r := Closed(g, a + b, avoid), Closed(g, b, v);
    forall x | x in l ensures x in r {
      if x !in v {
        var i :| 0 <= i < |a + b| && Reaches(g, (a + b)[i], x, avoid);
        FromPart(g, a, b, i, x, avoid);
        Outside(g, a, b[i - |a|], x, avoid);
        assert ReachedFrom(g, b, x, v);
      }
    }
    forall x | x in r ensures x in l {
      if x in avoid {
      } else if x in v {
        var i :| 0 <= i < |a| && Reaches(g, a[i], x, avoid);
        assert (a + b)[i] == a[i];
      } else {
        var i :| 0 <= i < |b| && Reaches(g, b[i], x, v);
        Wider(g, b[i], x, avoid, v);
        assert (a + b)[|a| + i] == b[i];
      }
    }
  }

  // What is reached from either list, but not from the first.
  lemma FromPart(g: Graph, a: seq<nat>, b: seq<nat>, i: nat, x: nat, avoid: set<nat>)
    requires i < |a + b| && Reaches(g, (a + b)[i], x, avoid)
    ensures ReachedFrom(g, a, x, avoid) || (i >= |a| && Reaches(g, b[i - |a|], x, avoid))
  {
    if i < |a| { assert a[i] == (a + b)[i]; }
  }

  // A path that ends outside the closure never enters it.
  lemma Outside(g: Graph, a: seq<nat>, c: nat, x: nat, avoid: set<nat>)
    requires GraphOk(g) && Reaches(g, c, x, avoid) && x !in Closed(g, a, avoid)
    ensures Reaches(g, c, x, Closed(g, a, avoid))
  {
    var v := Closed(g, a, avoid);
    var p :| Joins(g, p, c, x, avoid);
    forall i | 0 <= i < |p| ensures p[i] !in v {
      if p[i] in v { StaysInside(g, a, p, i, |p| - 1, avoid); }
    }
    assert Joins(g, p, c, x, v);
  }

  lemma {:induction false} StaysInside(g: Graph, a: seq<nat>, p: seq<nat>, i: nat, j: nat, avoid: set<nat>)
    requires Path(g, p, avoid) && i <= j < |p| && p[i] in Closed(g, a, avoid)
    ensures p[j] in Closed(g, a, avoid)
    decreases j
  {
    if i < j {
      StaysInside(g, a, p, i, j - 1, avoid);
      var k :| 0 <= k < |a| && Reaches(g, a[k], p[j - 1], avoid);
      assert p[j] in g[p[j - 1]];
      Append(g, a[k], p[j - 1], p[j], avoid);
      assert ReachedFrom(g, a, p[j], avoid);
    }
  }

  // One root, then the others.
  lemma ClosedNext(g: Graph, roots: seq<nat>, i: nat, avoid: set<nat>)
    requires GraphOk(g) && i < |roots|
    ensures Closed(g, roots[..i + 1], avoid) == Closed(g, [roots[i]], Closed(g, roots[..i], avoid))
  {
    assert roots[..i + 1] == roots[..i] + [roots[i]];
    ClosedThen(g, roots[..i], [roots[i]], avoid);
  }

  // The closure holds the roots, and with a node it adds where that leads.
  lemma ClosedOn(g: Graph, roots: seq<nat>, avoid: set<nat>, x: nat, y: nat)
    requires y < |g| && (y in roots || (x in Closed(g, roots, avoid) - avoid && y in g[x]))
    ensures y in Closed(g, roots, avoid)
  {
    if y !in avoid {
      if y in roots {
        Alone(g, y, avoid);
        var k :| 0 <= k < |roots| && roots[k] == y;
        assert ReachedFrom(g, roots, y, avoid);
      } else {
        var k :| 0 <= k < |roots| && Reaches(g, roots[k], x, avoid);
        Append(g, roots[k], x, y, avoid);
        assert ReachedFrom(g, roots, y, avoid);
      }
    }
  }

  // And it adds nothing else: any other node it adds is led to by one.
  lemma ClosedFrom(g: Graph, roots: seq<nat>, avoid: set<nat>, x: nat) returns (y: nat)
    requires x in Closed(g, roots, avoid) - avoid && x !in roots
    ensures y < |g| && y in Closed(g, roots, avoid) - avoid && x in g[y]
  {
    var k :| 0 <= k < |roots| && Reaches(g, roots[k], x, avoid);
    var p :| Joins(g, p, roots[k], x, avoid);
    y := p[|p| - 2];
    Prefix(g, p, roots[k], avoid);
    assert ReachedFrom(g, roots, y, avoid);
  }

  // A path without its last node.
  lemma Prefix(g: Graph, p: seq<nat>, a: nat, avoid: set<nat>)
    requires Path(g, p, avoid) && p[0] == a && |p| > 1
    ensures p[|p| - 2] < |g| && p[|p| - 1] in g[p[|p| - 2]] && p[|p| - 2] !in avoid
    ensures Reaches(g, a, p[|p| - 2], avoid)
  {
    var q := p[..|p| - 1];
    assert forall i {:trigger q[i]} :: 0 < i < |q| ==> q[i] == p[i] && q[i - 1] == p[i - 1];
    assert Joins(g, q, a, p[|p| - 2], avoid);
  }

  // From nothing the closure is plain reachability.
  lemma ClosedFromNothing(g: Graph, a: nat, b: nat)
    requires a < |g|
    ensures b in Closed(g, [a], {}) <==> Reaches(g, a, b, {})
  {
    if Reaches(g, a, b, {}) {
      Ends(g, a, b, {});
      assert Reaches(g, [a][0], b, {});
    }
  }

  // ----- sets nothing leads out of

  ghost predicate Shut(g: Graph, s: set<nat>) {
    forall x, i :: x in s && x < |g| && 0 <= i < |g[x]| ==> g[x][i] in s
  }

  // Where nothing led out before, nothing leads out after, and paths need not
  // avoid anything.
  lemma ClosedShut(g: Graph, roots: seq<nat>, avoid: set<nat>)
    requires GraphOk(g) && Shut(g, avoid)
    ensures Shut(g, Closed(g, roots, avoid))
    ensures forall b: nat :: b in Closed(g, roots, avoid) <==> b in avoid || (b < |g| && ReachedFrom(g, roots, b, {}))
  {
    var v := Closed(g, roots, avoid);
    forall x, i | x in v && x < |g| && 0 <= i < |g[x]| ensures g[x][i] in v {
      if x !in avoid && g[x][i] !in avoid {
        var k :| 0 <= k < |roots| && Reaches(g, roots[k], x, avoid);
        Append(g, roots[k], x, g[x][i], avoid);
        assert ReachedFrom(g, roots, g[x][i], avoid);
      }
    }
    forall b: nat | ReachedFrom(g, roots, b, {}) ensures b in v {
      var k :| 0 <= k < |roots| && Reaches(g, roots[k], b, {});
      var p :| Joins(g, p, roots[k], b, {});
      if roots[k] !in avoid {
        Alone(g, roots[k], avoid);
        assert ReachedFrom(g, roots, roots[k], avoid);
      }
      PathShut(g, v, p, |p| - 1);
    }
    forall b | b in v && b !in avoid ensures ReachedFrom(g, roots, b, {}) {
      var k :| 0 <= k < |roots| && Reaches(g, roots[k], b, avoid);
      Wider(g, roots[k], b, {}, avoid);
    }
  }

  lemma {:induction false} PathShut(g: Graph, s: set<nat>, p: seq<nat>, j: nat)
    requires Shut(g, s) && Path(g, p, {}) && p[0] in s && j < |p|
    ensures p[j] in s
  {
    if j > 0 {
      PathShut(g, s, p, j - 1);
      assert p[j] in g[p[j - 1]];
    }
  }
}
