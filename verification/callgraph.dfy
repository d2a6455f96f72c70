/** The call graph and the queries on it (src/analyzer.cc). */
module CallGraph {
  import opened BitSets
  import opened Closure
  import opened Lists

  /** The targets of every function's calls, as a relation. */
  ghost function Calls(calls: seq<seq<nat>>): Relation {
    seq(|calls|, i requires 0 <= i < |calls| => set x | x in calls[i])
  }

  /** Reflexive closure: j is i itself or is called from it, directly or not. */
  ghost predicate Leads(r: Relation, i: nat, j: nat) {
    i == j || Connected(r, i, j)
  }

  lemma LeadsTwice(r: Relation, i: nat, j: nat, k: nat)
    requires Leads(r, i, j) && Leads(r, j, k)
    ensures Leads(r, i, k)
  {
    if i != j && j != k {
      ConnectedTwice(r, i, j, k);
    }
  }

  ghost predicate Reversed(r: Relation, t: Relation) {
    |r| == |t| && forall i: nat, j: nat :: i < |r| && j < |r| ==> (j in r[i] <==> i in t[j])
  }

  /** A path read backwards is a path of the reversed relation. */
  lemma ReversedPaths(r: Relation, t: Relation, i: nat, j: nat)
    requires Reversed(r, t) && Connected(r, i, j)
    ensures Connected(t, j, i)
  {
    var p :| IsPath(r, p) && p[0] == i && p[|p| - 1] == j;
    var q := Backwards(p);
    forall k | 0 <= k < |q| - 1 ensures q[k + 1] in t[q[k]] {
      var m := |p| - 2 - k;
      assert p[m + 1] in r[p[m]];
    }
    assert IsPath(t, q) && q[0] == j && q[|q| - 1] == i;
  }

  /** Adjacency before closing: callees of a row's function, or its callers. */
  ghost function Edges(calls: seq<seq<nat>>, callers: bool): Relation {
    seq(|calls|, i requires 0 <= i < |calls| =>
      set j | 0 <= j < |calls| && (if callers then j in calls[i] else i in calls[j]))
  }

  lemma EdgesReversed(calls: seq<seq<nat>>)
    requires forall i, x :: 0 <= i < |calls| && x in calls[i] ==> x < |calls|
    ensures Reversed(Edges(calls, true), Edges(calls, false)) && Reversed(Edges(calls, false), Edges(calls, true))
    ensures Edges(calls, true) == Calls(calls)
  {
    assert forall i :: 0 <= i < |calls| ==> Edges(calls, true)[i] == Calls(calls)[i];
  }

  /** The relation with the edges between `from` and the targets entered, in the given direction. */
  ghost predicate Entered(r: Relation, r': Relation, from: nat, targets: set<nat>, callers: bool) {
    && |r'| == |r|
    && forall i: nat, j: nat {:trigger j in r'[i]} {:trigger j in r[i]} :: i < |r| ==>
         (j in r'[i] <==>
            (j in r[i] || (callers && i == from && j in targets) || (!callers && j == from && i in targets)))
  }

  lemma EnterOne(r: Relation, s: Relation, from: nat, targets: set<nat>, x: nat, callers: bool)
    requires Entered(r, s, from, targets, callers) && from < |r| && x < |r|
    ensures var row, bit := if callers then from else x, if callers then x else from;
      Entered(r, s[row := s[row] + {bit}], from, targets + {x}, callers)
  {
  }

  /** The inner loop of BuildCallGraph: bits for the calls of one function. */
  method EnterCalls(m: seq<BitSet>, from: nat, targets: seq<nat>, callers: bool, ghost r: Relation)
    returns (ghost r': Relation)
    requires Matrix(m, |m|) && StandsFor(m, r) && from < |m|
    requires forall x :: x in targets ==> x < |m|
    modifies Arrays(m)
    ensures Matrix(m, |m|) && StandsFor(m, r') && Entered(r, r', from, (set x | x in targets), callers)
  {
    hide Packed, Members;
    r' := r;
    ghost var done: set<nat> := {};
    var k := 0;
    while k < |targets|
      invariant k <= |targets| && Matrix(m, |m|) && StandsFor(m, r') && |r'| == |m|
      invariant done == set x | x in targets[..k]
      invariant Entered(r, r', from, done, callers)
    {
      var row, bit := if callers then from else targets[k], if callers then targets[k] else from;
      assert targets[k] in targets && m[row].data in Arrays(m);
      assert targets[..k + 1] == targets[..k] + [targets[k]];
      EnterOne(r, r', from, done, targets[k], callers);
      hide Entered;
      m[row].Set(bit);
      r' := r'[row := r'[row] + {bit}];
      done := done + {targets[k]};
      k := k + 1;
    }
    assert targets[..k] == targets;
    assert done == set x | x in targets;
  }

  /** BuildCallGraph: row i of the result holds all functions that i calls, directly or not; with
      `callers` false, all functions that call i. */
  method BuildCallGraph(calls: seq<seq<nat>>, callers: bool) returns (g: seq<BitSet>, ghost c: Relation)
    requires forall i, x :: 0 <= i < |calls| && x in calls[i] ==> x < |calls|
    ensures Matrix(g, |calls|) && |g| == |calls| && New(g) && StandsFor(g, c)
    ensures forall i: nat, j: nat :: i < |calls| ==>
      (j in c[i] <==> if callers then Connected(Calls(calls), i, j) else Connected(Calls(calls), j, i))
  {
    hide Connected, Packed, Members, Entered, EdgesUpTo;
    var m := MakeBitMatrix(|calls|, |calls|);
    ghost var r: Relation := seq(|calls|, i => {});
    NoEdges(calls, callers, r);
    var n := 0;
    while n < |calls|
      invariant n <= |calls| == |m| == |r| && Matrix(m, |m|) && New(m) && StandsFor(m, r)
      invariant EdgesUpTo(calls, callers, r, n)
    {
      ghost var s := EnterCalls(m, n, calls[n], callers, r);
      EdgesGrow(calls, callers, r, s, n);
      r := s;
      n := n + 1;
    }
    AreEdges(calls, callers, r);
    g, c := TransitiveClosure(m, r);
    ClosedEdges(calls, callers, c);
  }

  /** The edges of the first `n` functions. */
  ghost predicate EdgesUpTo(calls: seq<seq<nat>>, callers: bool, r: Relation, n: nat)
    requires n <= |calls| == |r|
  {
    forall i: nat, j: nat {:trigger j in r[i]} :: i < |r| ==>
      (j in r[i] <==> if callers then i < n && j in calls[i] else j < n && i in calls[j])
  }

  lemma NoEdges(calls: seq<seq<nat>>, callers: bool, r: Relation)
    requires |r| == |calls| && forall i :: 0 <= i < |r| ==> r[i] == {}
    ensures EdgesUpTo(calls, callers, r, 0)
  {
  }

  lemma EdgesGrow(calls: seq<seq<nat>>, callers: bool, r: Relation, s: Relation, n: nat)
    requires n < |calls| == |r| && EdgesUpTo(calls, callers, r, n)
    requires Entered(r, s, n, (set x | x in calls[n]), callers)
    ensures EdgesUpTo(calls, callers, s, n + 1)
  {
  }

  lemma AreEdges(calls: seq<seq<nat>>, callers: bool, r: Relation)
    requires forall i, x :: 0 <= i < |calls| && x in calls[i] ==> x < |calls|
    requires |r| == |calls| && EdgesUpTo(calls, callers, r, |calls|)
    ensures r == Edges(calls, callers)
  {
    forall i | 0 <= i < |r| ensures r[i] == Edges(calls, callers)[i] {
      forall j: nat ensures j in r[i] <==> j in Edges(calls, callers)[i] {
      }
    }
  }

  lemma ClosedEdges(calls: seq<seq<nat>>, callers: bool, c: Relation)
    requires forall i, x :: 0 <= i < |calls| && x in calls[i] ==> x < |calls|
    requires forall i: nat, j: nat :: i < |c| ==> (j in c[i] <==> Connected(Edges(calls, callers), i, j))
    ensures forall i: nat, j: nat :: i < |c| ==>
      (j in c[i] <==> if callers then Connected(Calls(calls), i, j) else Connected(Calls(calls), j, i))
  {
    hide Connected, Edges, Calls;
    EdgesReversed(calls);
    forall i: nat, j: nat | i < |c|
      ensures j in c[i] <==> if callers then Connected(Calls(calls), i, j) else Connected(Calls(calls), j, i)
    {
      if !callers {
        if Connected(Edges(calls, false), i, j) {
          ReversedPaths(Edges(calls, false), Edges(calls, true), i, j);
        }
        if Connected(Edges(calls, true), j, i) {
          ReversedPaths(Edges(calls, true), Edges(calls, false), j, i);
        }
      }
    }
  }

  /** FindAllCalls: the functions named in `base` and everything in their rows, in index order. */
  method FindAllCalls(g: seq<BitSet>, names: seq<string>, base: set<string>, ghost c: Relation) returns (res: seq<nat>)
    requires Matrix(g, |g|) && StandsFor(g, c) && |names| == |g|
    ensures forall i: nat :: i in res <==>
      i < |g| && (names[i] in base || exists b: nat :: b < |g| && names[b] in base && i in c[b])
  {
    hide Packed, Members;
    res := [];
    if |g| == 0 {
      return;
    }
    var all := new BitSet(|g|);
    var n := 0;
    while n < |g|
      invariant n <= |g| && Matrix(g, |g|) && StandsFor(g, c)
      invariant all.Valid() && all.bits == |g| && fresh(all) && fresh(all.data)
      invariant forall i :: i in all.Elems() <==> exists b: nat :: b < n && names[b] in base && i in c[b]
    {
      if names[n] in base {
        all.UnionInPlace(g[n]);
      }
      n := n + 1;
    }
    ghost var found := all.Elems();
    n := 0;
    while n < |g|
      invariant n <= |g| && all.Valid() && all.bits == |g| && all.Elems() == found
      invariant forall i: nat :: i in res <==> i < n && (i in found || names[i] in base)
    {
      var hit := all.Test(n);
      if hit || names[n] in base {
        res := res + [n];
      }
      n := n + 1;
    }
  }
}
