/** Bit matrices: transposition and the Floyd-Warshall closure of adlib/bitset.cc. */
module Closure {
  import opened BitSets

  // ---------- relations and paths ----------

  /** Row i is the set of successors of i. */
  type Relation = seq<set<nat>>

  ghost predicate Square(r: Relation) {
    forall i, j :: 0 <= i < |r| && j in r[i] ==> j < |r|
  }

  ghost predicate IsPath(r: Relation, p: seq<nat>) {
    |p| >= 2 && (forall k :: 0 <= k < |p| ==> p[k] < |r|) && forall k :: 0 <= k < |p| - 1 ==> p[k + 1] in r[p[k]]
  }

  /** A path of length at least one leads from i to j. */
  ghost predicate Connected(r: Relation, i: nat, j: nat) {
    exists p :: IsPath(r, p) && p[0] == i && p[|p| - 1] == j
  }

  lemma EdgeConnects(r: Relation, i: nat, j: nat)
    requires Square(r) && i < |r| && j in r[i]
    ensures Connected(r, i, j)
  {
    assert IsPath(r, [i, j]);
  }

  lemma ConnectedTwice(r: Relation, i: nat, j: nat, k: nat)
    requires Connected(r, i, j) && Connected(r, j, k)
    ensures Connected(r, i, k)
  {
    var p :| IsPath(r, p) && p[0] == i && p[|p| - 1] == j;
    var q :| IsPath(r, q) && q[0] == j && q[|q| - 1] == k;
    var s := p + q[1..];
    forall n | 0 <= n < |s| - 1 ensures s[n + 1] in r[s[n]] {
      if n >= |p| - 1 {
        assert s[n] == q[n - (|p| - 1)] && s[n + 1] == q[n - (|p| - 1) + 1];
      }
    }
    assert IsPath(r, s);
  }

  // ---------- the algorithm on relations ----------

  /** Every row that reaches `c` takes over the successors of `c`. */
  ghost function Through(r: Relation, c: nat): (r': Relation)
    requires c < |r|
  {
    seq(|r|, i requires 0 <= i < |r| => if c in r[i] then r[i] + r[c] else r[i])
  }

  ghost predicate Contains(r: Relation, e: Relation) {
    |r| == |e| && forall i :: 0 <= i < |r| ==> e[i] <= r[i]
  }

  /** Chains through the first `c` indices are closed. */
  ghost predicate ClosedUpTo(r: Relation, c: nat) {
    forall i: nat, k: nat, j: nat :: i < |r| && k < c && k < |r| && k in r[i] && j in r[k] ==> j in r[i]
  }

  ghost predicate OnlyPaths(r: Relation, e: Relation) {
    |r| == |e| && forall i: nat, j: nat :: i < |r| && j in r[i] ==> Connected(e, i, j)
  }

  lemma ThroughKeeps(r: Relation, e: Relation, c: nat)
    requires c < |r| && Square(r) && Contains(r, e) && OnlyPaths(r, e) && ClosedUpTo(r, c)
    ensures Square(Through(r, c)) && Contains(Through(r, c), e)
    ensures OnlyPaths(Through(r, c), e) && ClosedUpTo(Through(r, c), c + 1)
  {
    hide Connected;
    var t := Through(r, c);
    forall i: nat, j: nat | i < |t| && j in t[i] ensures Connected(e, i, j) {
      if j !in r[i] {
        ConnectedTwice(e, i, c, j);
      }
    }
    forall i: nat, k: nat, j: nat | i < |t| && k < c + 1 && k < |t| && k in t[i] && j in t[k] ensures j in t[i] {
      if k < c && j !in r[i] {
        if k in r[i] {
          assert j !in r[k];
          assert c in r[i];
        } else {
          assert c in r[i] && k in r[c];
        }
      }
    }
  }

  /** A closed relation holds all paths of the relations below it. */
  lemma {:induction false} PathsAreClosed(r: Relation, e: Relation, p: seq<nat>)
    requires Contains(r, e) && ClosedUpTo(r, |r|) && IsPath(e, p)
    ensures p[|p| - 1] in r[p[0]]
  {
    var q := p[..|p| - 1];
    var k := p[|p| - 2];
    assert p[|p| - 2 + 1] in e[k];
    if |p| > 2 {
      forall n | 0 <= n < |q| - 1 ensures q[n + 1] in e[q[n]] {
        assert p[n + 1] in e[p[n]];
      }
      PathsAreClosed(r, e, q);
    }
  }

  lemma ClosureIsPaths(r: Relation, e: Relation)
    requires Contains(r, e) && OnlyPaths(r, e) && ClosedUpTo(r, |r|)
    ensures forall i: nat, j: nat :: i < |r| ==> (j in r[i] <==> Connected(e, i, j))
  {
    forall i: nat, j: nat | i < |r| && Connected(e, i, j) ensures j in r[i] {
      var p :| IsPath(e, p) && p[0] == i && p[|p| - 1] == j;
      PathsAreClosed(r, e, p);
    }
  }

  // ---------- matrices of packed rows ----------

  ghost function Arrays(m: seq<BitSet>): set<object>
    reads m
  {
    set b | b in m :: b.data
  }

  /** Rows of `cols` bits that share no storage. */
  ghost predicate Matrix(m: seq<BitSet>, cols: nat)
    reads m, Arrays(m)
  {
    && (forall i :: 0 <= i < |m| ==> m[i].Valid() && m[i].bits == cols)
    && (forall i, j :: 0 <= i < j < |m| ==> m[i] != m[j] && m[i].data != m[j].data)
  }

  /** The matrix stands for the relation. */
  ghost predicate StandsFor(m: seq<BitSet>, r: Relation)
    reads m, Arrays(m)
  {
    |m| == |r| && forall i :: 0 <= i < |m| ==> m[i].Valid() && m[i].Elems() == r[i]
  }

  twostate predicate New(new m: seq<BitSet>)
    reads m
  {
    forall b :: b in m ==> fresh(b) && fresh(b.data)
  }

  method MakeBitMatrix(rows: nat, cols: nat) returns (m: seq<BitSet>)
    ensures Matrix(m, cols) && |m| == rows && New(m)
    ensures StandsFor(m, seq(rows, i => {}))
  {
    hide Packed, Members;
    m := [];
    while |m| < rows
      invariant |m| <= rows && Matrix(m, cols) && New(m)
      invariant forall i :: 0 <= i < |m| ==> m[i].Elems() == {}
    {
      var b := new BitSet(cols);
      m := m + [b];
    }
  }

  method Clone(mat: seq<BitSet>, cols: nat, ghost r: Relation) returns (m: seq<BitSet>)
    requires Matrix(mat, cols) && StandsFor(mat, r)
    ensures Matrix(m, cols) && New(m) && StandsFor(m, r)
  {
    hide Packed, Members;
    m := [];
    while |m| < |mat|
      invariant |m| <= |mat| && Matrix(m, cols) && New(m)
      invariant forall i :: 0 <= i < |m| ==> m[i].Elems() == r[i]
    {
      var b := new BitSet.Copy(mat[|m|]);
      m := m + [b];
    }
  }

  /** One row of one column step: m[row] takes over m[col] if it has the bit. */
  method CloseRow(m: seq<BitSet>, col: nat, row: nat, ghost r: Relation)
    requires Matrix(m, |m|) && StandsFor(m, r) && col < |m| && row < |m|
    modifies m[row].data
    ensures Matrix(m, |m|)
    ensures StandsFor(m, if col in r[row] then r[row := r[row] + r[col]] else r)
  {
    hide Packed, Members;
    var hit := m[row].Test(col);
    if hit {
      m[row].UnionInPlace(m[col]);
    }
  }

  /** The inner loop of Floyd-Warshall. */
  method CloseColumn(m: seq<BitSet>, col: nat, ghost r: Relation)
    requires Matrix(m, |m|) && StandsFor(m, r) && col < |m|
    modifies Arrays(m)
    ensures Matrix(m, |m|) && StandsFor(m, Through(r, col))
  {
    hide Packed, Members, Through;
    ghost var t, s := Through(r, col), r;
    ThroughRows(r, col);
    var row := 0;
    while row < |m|
      invariant row <= |m| == |s| == |t| && Matrix(m, |m|) && StandsFor(m, s)
      invariant forall i :: 0 <= i < row ==> s[i] == t[i]
      invariant forall i :: row <= i < |m| ==> s[i] == r[i]
    {
      assert m[row].data in Arrays(m);
      CloseRow(m, col, row, s);
      s := if col in s[row] then s[row := s[row] + s[col]] else s;
      row := row + 1;
    }
    assert s == t;
  }

  /** Floyd-Warshall, in place on a copy: the result has bit (i, j) exactly when a path leads from i to j. */
  method TransitiveClosure(mat: seq<BitSet>, ghost e: Relation) returns (m: seq<BitSet>, ghost r: Relation)
    requires Matrix(mat, |mat|) && StandsFor(mat, e)
    ensures Matrix(m, |mat|) && |m| == |mat| && New(m) && StandsFor(m, r)
    ensures forall i: nat, j: nat :: i < |r| ==> (j in r[i] <==> Connected(e, i, j))
  {
    hide Connected, Through, Packed, Members;
    m := Clone(mat, |mat|, e);
    r := e;
    IsSquare(mat, e);
    StartClosed(e);
    var col := 0;
    while col < |m|
      invariant col <= |m| == |mat| == |r| && Matrix(m, |m|) && New(m)
      invariant StandsFor(m, r) && Square(r)
      invariant Contains(r, e) && OnlyPaths(r, e) && ClosedUpTo(r, col)
    {
      CloseColumn(m, col, r);
      ThroughKeeps(r, e, col);
      r := Through(r, col);
      col := col + 1;
    }
    ClosureIsPaths(r, e);
  }

  lemma ThroughRows(r: Relation, c: nat)
    requires c < |r|
    ensures |Through(r, c)| == |r| && Through(r, c)[c] == r[c]
    ensures forall i :: 0 <= i < |r| ==> Through(r, c)[i] == if c in r[i] then r[i] + r[c] else r[i]
  {
  }

  lemma IsSquare(m: seq<BitSet>, r: Relation)
    requires Matrix(m, |m|) && StandsFor(m, r)
    ensures Square(r)
  {
  }

  lemma StartClosed(e: Relation)
    requires Square(e)
    ensures Contains(e, e) && OnlyPaths(e, e) && ClosedUpTo(e, 0)
  {
    hide Connected;
    forall i: nat, j: nat | i < |e| && j in e[i] ensures Connected(e, i, j) {
      EdgeConnects(e, i, j);
    }
  }

  // ---------- transposition ----------

  ghost predicate Transposed(r: Relation, t: Relation) {
    forall i: nat, j: nat :: i < |r| && j < |t| ==> (j in r[i] <==> i in t[j])
  }

  /** The inner loop of Transpose: one row of the result is read off a column. */
  method FillRow(mat: seq<BitSet>, col: nat, row: BitSet, ghost r: Relation) returns (ghost t: set<nat>)
    requires (forall i :: 0 <= i < |mat| ==> mat[i].Valid() && col < mat[i].bits && mat[i].data != row.data)
    requires StandsFor(mat, r) && row.Valid() && row.bits == |mat| && row.Elems() == {}
    modifies row.data
    ensures row.Valid() && row.Elems() == t
    ensures forall i: nat :: i in t <==> i < |r| && col in r[i]
  {
    hide Packed, Members;
    t := {};
    var i := 0;
    while i < |mat|
      invariant i <= |mat| == |r| && row.Valid() && row.Elems() == t
      invariant forall j :: 0 <= j < |mat| ==> mat[j].Valid() && mat[j].Elems() == r[j]
      invariant forall j: nat :: j in t <==> j < i && col in r[j]
    {
      var hit := mat[i].Test(col);
      if hit {
        row.Set(i);
        t := t + {i};
      }
      i := i + 1;
    }
  }

  method Transpose(mat: seq<BitSet>, cols: nat, ghost r: Relation) returns (m: seq<BitSet>, ghost t: Relation)
    requires Matrix(mat, cols) && StandsFor(mat, r)
    requires mat != [] ==> cols > 0
    ensures Matrix(m, |mat|) && |m| == (if mat == [] then 0 else cols) && New(m)
    ensures StandsFor(m, t) && Transposed(r, t)
  {
    hide Packed, Members;
    if mat == [] {
      m := MakeBitMatrix(0, 0);
      t := [];
      return;
    }
    m := MakeBitMatrix(cols, |mat|);
    t := seq(cols, i => {});
    var col := 0;
    while col < cols
      invariant col <= cols == |m| == |t| && Matrix(m, |mat|) && New(m) && StandsFor(m, t)
      invariant Matrix(mat, cols) && StandsFor(mat, r)
      invariant forall i: nat, j: nat :: i < |r| && j < col ==> (j in r[i] <==> i in t[j])
      invariant forall j: nat :: col <= j < cols ==> t[j] == {}
    {
      ghost var s := FillRow(mat, col, m[col], r);
      t := t[col := s];
      col := col + 1;
    }
  }

  ghost predicate Within(r: Relation, cols: nat) {
    forall i, j :: 0 <= i < |r| && j in r[i] ==> j < cols
  }

  /** Transposing twice gives the relation back, for at least one row and one column. */
  lemma TransposeTwice(r: Relation, t: Relation, u: Relation)
    requires |r| > 0 && |t| > 0 && |u| == |r|
    requires Within(r, |t|) && Within(t, |r|) && Within(u, |t|)
    requires Transposed(r, t) && Transposed(t, u)
    ensures u == r
  {
    forall i | 0 <= i < |r| ensures u[i] == r[i] {
      forall j: nat ensures j in u[i] <==> j in r[i] {
        assert j < |t| ==> (j in r[i] <==> i in t[j]);
      }
    }
  }
}
