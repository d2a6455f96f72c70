/** The bottom-up merge sort of arrays (adlib/arr.h). */
module MergeSort {
  import opened Lists

  type Comparator<!T> = (T, T) -> int

  /** The comparator is a total preorder: signs mirror, and "not greater" is transitive. */
  ghost predicate Lawful<T(!new)>(cmp: Comparator<T>) {
    && (forall x, y :: cmp(x, y) < 0 <==> cmp(y, x) > 0)
    && (forall x, y, z :: cmp(x, y) <= 0 && cmp(y, z) <= 0 ==> cmp(x, z) <= 0)
  }

  ghost predicate Sorted<T>(cmp: Comparator<T>, s: seq<T>) {
    forall i, j :: 0 <= i < j < |s| ==> cmp(s[i], s[j]) <= 0
  }

  /** One merge: the left element goes first only when it is strictly smaller. */
  function Merged<T>(cmp: Comparator<T>, a: seq<T>, b: seq<T>): (r: seq<T>)
    ensures |r| == |a| + |b|
    decreases |a| + |b|
  {
    if a == [] then b
    else if b == [] then a
    else if cmp(a[0], b[0]) < 0 then [a[0]] + Merged(cmp, a[1..], b)
    else [b[0]] + Merged(cmp, a, b[1..])
  }

  lemma TakeLeft<T>(cmp: Comparator<T>, a: seq<T>, b: seq<T>)
    requires a != [] && (b == [] || cmp(a[0], b[0]) < 0)
    ensures Merged(cmp, a, b) == [a[0]] + Merged(cmp, a[1..], b)
  {
    assert a == [a[0]] + a[1..];
  }

  lemma TakeRight<T>(cmp: Comparator<T>, a: seq<T>, b: seq<T>)
    requires b != [] && (a == [] || cmp(a[0], b[0]) >= 0)
    ensures Merged(cmp, a, b) == [b[0]] + Merged(cmp, a, b[1..])
  {
    assert b == [b[0]] + b[1..];
  }

  lemma {:induction false} MergedPermutes<T>(cmp: Comparator<T>, a: seq<T>, b: seq<T>)
    ensures multiset(Merged(cmp, a, b)) == multiset(a) + multiset(b)
    decreases |a| + |b|
  {
    if a != [] && b != [] {
      hide Merged;
      if cmp(a[0], b[0]) < 0 {
        MergedPermutes(cmp, a[1..], b);
        TakeLeft(cmp, a, b);
        assert a == [a[0]] + a[1..];
      } else {
        MergedPermutes(cmp, a, b[1..]);
        TakeRight(cmp, a, b);
        assert b == [b[0]] + b[1..];
      }
    }
  }

  lemma {:induction false} MergedSorted<T(!new)>(cmp: Comparator<T>, a: seq<T>, b: seq<T>)
    requires Lawful(cmp) && Sorted(cmp, a) && Sorted(cmp, b)
    ensures Sorted(cmp, Merged(cmp, a, b))
    decreases |a| + |b|
  {
    if a != [] && b != [] {
      hide Merged, Lawful;
      if cmp(a[0], b[0]) < 0 {
        Tail(cmp, a);
        MergedSorted(cmp, a[1..], b);
        TakeLeft(cmp, a, b);
        ConsLeast(cmp, a[0], a[1..], b, a, b);
      } else {
        Tail(cmp, b);
        MergedSorted(cmp, a, b[1..]);
        TakeRight(cmp, a, b);
        ConsLeast(cmp, b[0], a, b[1..], a, b);
      }
    }
  }

  lemma Tail<T>(cmp: Comparator<T>, a: seq<T>)
    requires Sorted(cmp, a) && a != []
    ensures Sorted(cmp, a[1..])
  {
  }

  /** The first element of the merge is not greater than any other. */
  lemma ConsLeast<T(!new)>(cmp: Comparator<T>, x: T, a': seq<T>, b': seq<T>, a: seq<T>, b: seq<T>)
    requires Lawful(cmp) && a != [] && b != [] && Sorted(cmp, a) && Sorted(cmp, b) && Sorted(cmp, Merged(cmp, a', b'))
    requires if cmp(a[0], b[0]) < 0 then x == a[0] && a' == a[1..] && b' == b else x == b[0] && a' == a && b' == b[1..]
    ensures Sorted(cmp, [x] + Merged(cmp, a', b'))
  {
    hide Merged, Sorted;
    var rest := Merged(cmp, a', b');
    MergedPermutes(cmp, a', b');
    forall y | y in rest ensures cmp(x, y) <= 0 {
      assert y in multiset(rest);
      assert y in a || y in b;
      FirstLeast(cmp, a, y);
      FirstLeast(cmp, b, y);
    }
    SortedCons(cmp, x, rest);
  }

  lemma FirstLeast<T(!new)>(cmp: Comparator<T>, s: seq<T>, y: T)
    requires Lawful(cmp) && Sorted(cmp, s)
    ensures y in s ==> cmp(s[0], y) <= 0
  {
    assert cmp(y, y) <= 0;
  }

  lemma SortedCons<T>(cmp: Comparator<T>, x: T, s: seq<T>)
    requires Sorted(cmp, s) && forall y :: y in s ==> cmp(x, y) <= 0
    ensures Sorted(cmp, [x] + s)
  {
  }

  // ---------- equal elements ----------

  /** The elements equal to `x`, in their order. */
  ghost function Class<T>(cmp: Comparator<T>, s: seq<T>, x: T): seq<T> {
    if s == [] then [] else One(cmp, s[0], x) + Class(cmp, s[1..], x)
  }

  ghost function One<T>(cmp: Comparator<T>, y: T, x: T): seq<T> {
    if cmp(x, y) == 0 then [y] else []
  }

  /** Elements that are equal have changed to the opposite order. */
  ghost predicate Mirrored<T(!new)>(cmp: Comparator<T>, out: seq<T>, orig: seq<T>) {
    forall x :: Class(cmp, out, x) == Backwards(Class(cmp, orig, x))
  }

  lemma ClassCons<T>(cmp: Comparator<T>, s: seq<T>, y: T, rest: seq<T>, x: T)
    requires s == [y] + rest
    ensures Class(cmp, s, x) == One(cmp, y, x) + Class(cmp, rest, x)
  {
    assert s[1..] == rest;
  }

  lemma Associate<T>(a: seq<T>, b: seq<T>, c: seq<T>)
    ensures a + (b + c) == a + b + c
    ensures a == [] || b == [] ==> a + (b + c) == b + (a + c)
  {
  }

  lemma {:induction false} ClassAppend<T>(cmp: Comparator<T>, a: seq<T>, b: seq<T>, x: T)
    ensures Class(cmp, a + b, x) == Class(cmp, a, x) + Class(cmp, b, x)
  {
    if a == [] {
      assert a + b == b;
    } else {
      hide Class, One;
      ClassAppend(cmp, a[1..], b, x);
      ClassCons(cmp, a, a[0], a[1..], x);
      Associate([a[0]], a[1..], b);
      ClassCons(cmp, a + b, a[0], a[1..] + b, x);
      Associate(One(cmp, a[0], x), Class(cmp, a[1..], x), Class(cmp, b, x));
    }
  }

  lemma {:induction false} BackwardsAppend<T>(a: seq<T>, b: seq<T>)
    ensures Backwards(a + b) == Backwards(b) + Backwards(a)
  {
    if a == [] {
      assert a + b == b;
    } else {
      BackwardsAppend(a[1..], b);
      assert (a + b)[1..] == a[1..] + b;
    }
  }

  lemma {:induction false} NoClass<T>(cmp: Comparator<T>, s: seq<T>, x: T)
    requires forall y :: y in s ==> cmp(x, y) != 0
    ensures Class(cmp, s, x) == []
  {
    if s != [] {
      NoClass(cmp, s[1..], x);
    }
  }

  lemma Above<T(!new)>(cmp: Comparator<T>, x: T, y: T, first: T, z: T)
    requires Lawful(cmp) && cmp(x, y) == 0 && cmp(y, first) < 0 && cmp(first, z) <= 0
    ensures cmp(x, z) != 0
  {
    assert cmp(first, y) > 0 && (cmp(x, z) == 0 ==> cmp(z, x) <= 0);
    assert cmp(z, x) <= 0 ==> cmp(first, x) <= 0;
  }

  /** An element below the first one of a sorted sequence is equal to none of it. */
  lemma NotBoth<T(!new)>(cmp: Comparator<T>, y: T, s: seq<T>, x: T)
    requires Lawful(cmp) && Sorted(cmp, s) && s != [] && cmp(y, s[0]) < 0
    ensures One(cmp, y, x) == [] || Class(cmp, s, x) == []
  {
    hide Lawful, Sorted;
    if cmp(x, y) == 0 {
      forall z | z in s ensures cmp(x, z) != 0 {
        FirstLeast(cmp, s, z);
        Above(cmp, x, y, s[0], z);
      }
      NoClass(cmp, s, x);
    }
  }

  /** In a merge the elements of the right run come before the equal ones of the left run. */
  lemma {:induction false} MergedClass<T(!new)>(cmp: Comparator<T>, a: seq<T>, b: seq<T>, x: T)
    requires Lawful(cmp) && Sorted(cmp, a) && Sorted(cmp, b)
    ensures Class(cmp, Merged(cmp, a, b), x) == Class(cmp, b, x) + Class(cmp, a, x)
    decreases |a| + |b|
  {
    if a == [] || b == [] {
      return;
    }
    hide Merged, Lawful, Class, One, Sorted;
    ClassCons(cmp, a, a[0], a[1..], x);
    ClassCons(cmp, b, b[0], b[1..], x);
    if cmp(a[0], b[0]) < 0 {
      Tail(cmp, a);
      MergedClass(cmp, a[1..], b, x);
      TakeLeft(cmp, a, b);
      ClassCons(cmp, Merged(cmp, a, b), a[0], Merged(cmp, a[1..], b), x);
      NotBoth(cmp, a[0], b, x);
      Associate(One(cmp, a[0], x), Class(cmp, b, x), Class(cmp, a[1..], x));
    } else {
      Tail(cmp, b);
      MergedClass(cmp, a, b[1..], x);
      TakeRight(cmp, a, b);
      ClassCons(cmp, Merged(cmp, a, b), b[0], Merged(cmp, a, b[1..]), x);
      Associate(One(cmp, b[0], x), Class(cmp, b[1..], x), Class(cmp, a, x));
    }
  }

  lemma MergedMirrors<T(!new)>(cmp: Comparator<T>, a: seq<T>, b: seq<T>, origA: seq<T>, origB: seq<T>)
    requires Lawful(cmp) && Sorted(cmp, a) && Sorted(cmp, b) && Mirrored(cmp, a, origA) && Mirrored(cmp, b, origB)
    ensures Mirrored(cmp, Merged(cmp, a, b), origA + origB)
  {
    hide Merged, Lawful, Sorted, Class, Backwards;
    forall x ensures Class(cmp, Merged(cmp, a, b), x) == Backwards(Class(cmp, origA + origB, x)) {
      MergedClass(cmp, a, b, x);
      ClassAppend(cmp, origA, origB, x);
      BackwardsAppend(Class(cmp, origA, x), Class(cmp, origB, x));
    }
  }

  // ---------- what the outcome is ----------

  /** Equal elements are in the order they had. */
  ghost predicate Stable<T(!new)>(cmp: Comparator<T>, out: seq<T>, orig: seq<T>) {
    forall x :: Class(cmp, out, x) == Class(cmp, orig, x)
  }

  ghost predicate NoRepeats<T>(s: seq<T>) {
    forall i, j :: 0 <= i < j < |s| ==> s[i] != s[j]
  }

  lemma {:induction false} ClassElements<T>(cmp: Comparator<T>, s: seq<T>, x: T)
    ensures forall y :: y in Class(cmp, s, x) <==> y in s && cmp(x, y) == 0
    ensures NoRepeats(s) ==> NoRepeats(Class(cmp, s, x))
  {
    if s != [] {
      ClassElements(cmp, s[1..], x);
      assert s == [s[0]] + s[1..];
    }
  }

  /** For elements that can be told apart, the order of equal ones is kept just when there are no equal ones. */
  lemma StableWhen<T(!new)>(cmp: Comparator<T>, out: seq<T>, orig: seq<T>)
    requires Lawful(cmp) && NoRepeats(orig) && Mirrored(cmp, out, orig)
    ensures Stable(cmp, out, orig) <==> forall i, j :: 0 <= i < j < |orig| ==> cmp(orig[i], orig[j]) != 0
  {
    hide Lawful, Class, Backwards;
    if i, j :| 0 <= i < j < |orig| && cmp(orig[i], orig[j]) == 0 {
      SelfEqual(cmp, orig[i]);
      var c := Class(cmp, orig, orig[i]);
      ClassElements(cmp, orig, orig[i]);
      assert orig[i] in c && orig[j] in c;
      assert c[0] != c[|c| - 1];
    } else {
      forall x ensures Class(cmp, out, x) == Class(cmp, orig, x) {
        var c := Class(cmp, orig, x);
        ClassElements(cmp, orig, x);
        if |c| > 1 {
          TwoEqual(cmp, orig, x, c[0], c[1]);
        }
        ShortBackwards(c);
      }
    }
  }

  lemma ClassPair<T>(cmp: Comparator<T>, x: T, y: T, z: T)
    ensures Class(cmp, [x, y], z) == (if cmp(z, x) == 0 then [x] else []) + (if cmp(z, y) == 0 then [y] else [])
    ensures Backwards(Class(cmp, [x, y], z))
      == (if cmp(z, y) == 0 then [y] else []) + (if cmp(z, x) == 0 then [x] else [])
  {
    ClassCons(cmp, [x, y], x, [y], z);
    ClassCons(cmp, [y], y, [], z);
    assert Backwards<T>([]) == [] && Backwards([x]) == [x] && Backwards([y]) == [y];
    assert Backwards([x, y]) == Backwards([y]) + [x];
  }

  lemma SortedPair<T(!new)>(cmp: Comparator<T>, x: T, y: T)
    requires Lawful(cmp) && cmp(x, y) == 0
    ensures Sorted(cmp, [y, x])
  {
    assert cmp(y, x) <= 0;
  }

  lemma SelfEqual<T(!new)>(cmp: Comparator<T>, x: T)
    requires Lawful(cmp)
    ensures cmp(x, x) == 0
  {
  }

  lemma TwoEqual<T(!new)>(cmp: Comparator<T>, s: seq<T>, x: T, y: T, z: T)
    requires Lawful(cmp) && y in s && z in s && y != z && cmp(x, y) == 0 && cmp(x, z) == 0
    ensures exists i, j :: 0 <= i < j < |s| && cmp(s[i], s[j]) == 0
  {
    var i :| 0 <= i < |s| && s[i] == y;
    var j :| 0 <= j < |s| && s[j] == z;
    assert cmp(y, x) <= 0 && cmp(z, x) <= 0;
    assert cmp(y, z) <= 0 && cmp(z, y) <= 0;
    assert cmp(s[if i < j then i else j], s[if i < j then j else i]) == 0;
  }

  lemma ShortBackwards<T>(s: seq<T>)
    requires |s| <= 1
    ensures Backwards(s) == s
  {
  }

  /** Sorted, and with the same elements of each class in the same order: that is one sequence. */
  lemma {:induction false} OneOutcome<T(!new)>(cmp: Comparator<T>, a: seq<T>, b: seq<T>)
    requires Lawful(cmp) && Sorted(cmp, a) && Sorted(cmp, b) && forall x :: Class(cmp, a, x) == Class(cmp, b, x)
    ensures a == b
  {
    hide Lawful, Sorted, Class;
    if a == [] || b == [] {
      if a != [] {
        Elements(cmp, a, b, a[0]);
      }
      if b != [] {
        Elements(cmp, b, a, b[0]);
      }
    } else {
      SameFirst(cmp, a, b);
      Tail(cmp, a);
      Tail(cmp, b);
      forall x ensures Class(cmp, a[1..], x) == Class(cmp, b[1..], x) {
        ClassTail(cmp, a, b, x);
      }
      OneOutcome(cmp, a[1..], b[1..]);
      assert a == [a[0]] + a[1..] && b == [b[0]] + b[1..];
    }
  }

  lemma Elements<T(!new)>(cmp: Comparator<T>, a: seq<T>, b: seq<T>, x: T)
    requires Lawful(cmp) && x in a && Class(cmp, a, x) == Class(cmp, b, x)
    ensures x in b
  {
    SelfEqual(cmp, x);
    ClassElements(cmp, a, x);
    ClassElements(cmp, b, x);
  }

  lemma SameFirst<T(!new)>(cmp: Comparator<T>, a: seq<T>, b: seq<T>)
    requires Lawful(cmp) && Sorted(cmp, a) && Sorted(cmp, b) && a != [] && b != []
    requires forall x :: Class(cmp, a, x) == Class(cmp, b, x)
    ensures a[0] == b[0]
  {
    hide Lawful, Sorted;
    Elements(cmp, a, b, a[0]);
    Elements(cmp, b, a, b[0]);
    FirstLeast(cmp, b, a[0]);
    FirstLeast(cmp, a, b[0]);
    Antisymmetric(cmp, a[0], b[0]);
    SelfEqual(cmp, a[0]);
    assert Class(cmp, a, a[0])[0] == a[0] && Class(cmp, b, a[0])[0] == b[0];
  }

  lemma Antisymmetric<T(!new)>(cmp: Comparator<T>, x: T, y: T)
    requires Lawful(cmp) && cmp(x, y) <= 0 && cmp(y, x) <= 0
    ensures cmp(x, y) == 0
  {
  }

  lemma ClassTail<T>(cmp: Comparator<T>, a: seq<T>, b: seq<T>, x: T)
    requires a != [] && b != [] && a[0] == b[0] && Class(cmp, a, x) == Class(cmp, b, x)
    ensures Class(cmp, a[1..], x) == Class(cmp, b[1..], x)
  {
    var d := One(cmp, a[0], x);
    assert Class(cmp, a, x)[|d|..] == Class(cmp, a[1..], x) && Class(cmp, b, x)[|d|..] == Class(cmp, b[1..], x);
  }

  /** The sort is not stable: of two equal elements the later one comes out first. */
  lemma EqualsSwap<T(!new)>(cmp: Comparator<T>, x: T, y: T, out: seq<T>)
    requires Lawful(cmp) && cmp(x, y) == 0 && Sorted(cmp, out) && Mirrored(cmp, out, [x, y])
    ensures out == [y, x] && (Stable(cmp, out, [x, y]) ==> x == y)
  {
    hide Lawful, Sorted;
    forall z ensures Class(cmp, [y, x], z) == Backwards(Class(cmp, [x, y], z)) {
      ClassPair(cmp, x, y, z);
      ClassPair(cmp, y, x, z);
    }
    SortedPair(cmp, x, y);
    OneOutcome(cmp, out, [y, x]);
    SelfEqual(cmp, x);
    ClassPair(cmp, x, y, x);
    ClassPair(cmp, y, x, x);
  }

  // ---------- passes ----------

  function Min(a: nat, b: nat): nat {
    if a < b then a else b
  }

  /** A sorted permutation of the original, with equal elements in the opposite order. */
  ghost predicate Run<T(!new)>(cmp: Comparator<T>, s: seq<T>, orig: seq<T>) {
    Sorted(cmp, s) && multiset(s) == multiset(orig) && Mirrored(cmp, s, orig)
  }

  /** Every block of `step` elements, the last one perhaps shorter, is a run of the same block of the original. */
  ghost predicate Runs<T(!new)>(cmp: Comparator<T>, s: seq<T>, orig: seq<T>, step: nat)
    requires step > 0
    decreases |s|
  {
    && |s| == |orig|
    && (s != [] ==>
          var m := Min(step, |s|);
          Run(cmp, s[..m], orig[..m]) && Runs(cmp, s[m..], orig[m..], step))
  }

  /** One pass merges neighbouring blocks of `step` elements. */
  function Pass<T>(cmp: Comparator<T>, s: seq<T>, step: nat): (r: seq<T>)
    requires step > 0
    ensures |r| == |s|
    decreases |s|
  {
    if s == [] then []
    else
      var l, m := Min(step, |s|), Min(2 * step, |s|);
      Merged(cmp, s[..l], s[l..m]) + Pass(cmp, s[m..], step)
  }

  lemma {:induction false} SingletonRuns<T(!new)>(cmp: Comparator<T>, s: seq<T>)
    requires Lawful(cmp)
    ensures Runs(cmp, s, s, 1)
    decreases |s|
  {
    if s != [] {
      hide Run;
      SingletonRuns(cmp, s[1..]);
      ShortRun(cmp, s[..1]);
    }
  }

  lemma ShortRun<T(!new)>(cmp: Comparator<T>, s: seq<T>)
    requires |s| <= 1
    ensures Run(cmp, s, s)
  {
    forall x ensures Class(cmp, s, x) == Backwards(Class(cmp, s, x)) {
      ShortClass(cmp, s, x);
      ShortBackwards(Class(cmp, s, x));
    }
  }

  lemma ShortClass<T>(cmp: Comparator<T>, s: seq<T>, x: T)
    requires |s| <= 1
    ensures |Class(cmp, s, x)| <= 1
  {
  }

  lemma MergedRun<T(!new)>(cmp: Comparator<T>, a: seq<T>, b: seq<T>, origA: seq<T>, origB: seq<T>)
    requires Lawful(cmp) && Run(cmp, a, origA) && Run(cmp, b, origB)
    ensures Run(cmp, Merged(cmp, a, b), origA + origB)
  {
    hide Merged, Lawful, Sorted, Mirrored;
    MergedSorted(cmp, a, b);
    MergedPermutes(cmp, a, b);
    MergedMirrors(cmp, a, b, origA, origB);
  }

  /** A pass doubles the length of the runs. */
  lemma {:induction false} PassDoubles<T(!new)>(cmp: Comparator<T>, s: seq<T>, orig: seq<T>, step: nat)
    requires Lawful(cmp) && step > 0 && Runs(cmp, s, orig, step)
    ensures Runs(cmp, Pass(cmp, s, step), orig, 2 * step)
    decreases |s|
  {
    if s != [] {
      var l, m := Min(step, |s|), Min(2 * step, |s|);
      var p, block, rest := Pass(cmp, s, step), Merged(cmp, s[..l], s[l..m]), Pass(cmp, s[m..], step);
      assert p == block + rest;
      hide Merged, Pass, Runs, Lawful, Run;
      TwoRuns(cmp, s, orig, step, l, m);
      PassDoubles(cmp, s[m..], orig[m..], step);
      MergedRun(cmp, s[..l], s[l..m], orig[..l], orig[l..m]);
      FirstRun(cmp, p, block, rest, orig, 2 * step, m);
    }
  }

  /** The first two runs, and what follows them. */
  lemma TwoRuns<T(!new)>(cmp: Comparator<T>, s: seq<T>, orig: seq<T>, step: nat, l: nat, m: nat)
    requires step > 0 && Runs(cmp, s, orig, step) && l == Min(step, |s|) && m == Min(2 * step, |s|)
    ensures |orig| == |s| && Run(cmp, s[..l], orig[..l]) && Run(cmp, s[l..m], orig[l..m])
    ensures Runs(cmp, s[m..], orig[m..], step) && orig[..l] + orig[l..m] == orig[..m]
  {
    hide Run, Runs;
    RunsStep(cmp, s, orig, step, l);
    RunsStep(cmp, s[l..], orig[l..], step, m - l);
    hide Min;
    Slices(s, l, m);
    Slices(orig, l, m);
  }

  lemma RunsStep<T(!new)>(cmp: Comparator<T>, s: seq<T>, orig: seq<T>, step: nat, m: nat)
    requires step > 0 && Runs(cmp, s, orig, step) && m == Min(step, |s|)
    ensures |s| == |orig| && Run(cmp, s[..m], orig[..m]) && Runs(cmp, s[m..], orig[m..], step)
  {
    hide Run;
    if s == [] {
      ShortRun(cmp, s[..m]);
    }
  }

  lemma Slices<T>(s: seq<T>, l: nat, m: nat)
    requires l <= m <= |s|
    ensures s[l..][..m - l] == s[l..m]
    ensures s[l..][m - l..] == s[m..]
    ensures s[..l] + s[l..m] == s[..m]
  {
  }

  lemma FirstRun<T(!new)>(cmp: Comparator<T>, p: seq<T>, block: seq<T>, rest: seq<T>, orig: seq<T>, step: nat, m: nat)
    requires step > 0 && p == block + rest && |p| == |orig| && p != [] && m == |block| == Min(step, |p|)
    requires Run(cmp, block, orig[..m]) && Runs(cmp, rest, orig[m..], step)
    ensures Runs(cmp, p, orig, step)
  {
    hide Run;
    assert p[..m] == block && p[m..] == rest;
  }

  lemma OneRun<T(!new)>(cmp: Comparator<T>, s: seq<T>, orig: seq<T>, step: nat)
    requires step > 0 && step >= |s| && Runs(cmp, s, orig, step)
    ensures Run(cmp, s, orig)
  {
    hide Run;
    RunsStep(cmp, s, orig, step, |s|);
    assert s[..|s|] == s && orig[..|s|] == orig;
  }

  // ---------- the code ----------

  function From<T>(s: seq<T>, lo: nat, hi: nat): seq<T>
    requires hi <= |s|
  {
    if lo < hi then s[lo..hi] else []
  }

  /** The inner loops: blocks [i, i + step) and [i + step, i + 2 step) of `from` are merged into `into`. */
  method MergeBlocks<T>(from: array<T>, into: array<T>, i: nat, step: nat, cmp: Comparator<T>)
    requires from != into && from.Length == into.Length && i < from.Length && step > 0
    modifies into
    ensures var n, l, m := from.Length, Min(i + step, from.Length), Min(i + 2 * step, from.Length);
      into[..m] == old(into[..i]) + Merged(cmp, from[i..l], from[l..m])
  {
    hide Merged, From;
    var n := from.Length;
    var p, l, r := i, i, i + step;
    var lmax, rmax := l + step, r + step;
    if rmax > n {
      rmax := n;
    }
    if lmax > n {
      lmax := n;
    }
    ghost var s := from[..];
    TwoBlocks(s, i, step);
    assert from[i..lmax] == s[i..lmax] && from[lmax..rmax] == s[lmax..rmax];
    p, l, r := MergeWhile(from, into, p, l, lmax, r, rmax, cmp);
    RunOut(cmp, s, l, lmax, r, rmax);
    p := CopyOver(from, into, p, l, lmax);
    p := CopyOver(from, into, p, r, rmax);
  }

  lemma TwoBlocks<T>(s: seq<T>, i: nat, step: nat)
    requires i < |s| && step > 0
    ensures var l, m := Min(i + step, |s|), Min(i + 2 * step, |s|);
      && i <= l <= m <= |s| && From(s, i, l) == s[i..l] && From(s, i + step, m) == s[l..m]
      && i + |From(s, i, l)| + |From(s, i + step, m)| == m
  {
  }

  lemma RunOut<T>(cmp: Comparator<T>, s: seq<T>, l: nat, lmax: nat, r: nat, rmax: nat)
    requires lmax <= |s| && rmax <= |s| && (l >= lmax || r >= rmax)
    ensures Merged(cmp, From(s, l, lmax), From(s, r, rmax)) == From(s, l, lmax) + From(s, r, rmax)
  {
    NoMore(cmp, From(s, l, lmax), From(s, r, rmax));
  }

  lemma NoMore<T>(cmp: Comparator<T>, a: seq<T>, b: seq<T>)
    ensures |Merged(cmp, a, b)| == |a| + |b|
    ensures a == [] || b == [] ==> Merged(cmp, a, b) == a + b
  {
  }

  /** Elements are taken from the fronts of two runs while both last. */
  method MergeWhile<T>(from: array<T>, into: array<T>, p0: nat, l0: nat, lmax: nat, r0: nat, rmax: nat,
                       cmp: Comparator<T>)
    returns (p: nat, l: nat, r: nat)
    requires from != into && l0 <= lmax <= from.Length && rmax <= from.Length
    requires p0 + |From(from[..], l0, lmax)| + |From(from[..], r0, rmax)| <= into.Length
    modifies into
    ensures l <= lmax && (l >= lmax || r >= rmax) && p <= into.Length
    ensures p + |From(from[..], l, lmax)| + |From(from[..], r, rmax)|
      == p0 + |From(from[..], l0, lmax)| + |From(from[..], r0, rmax)|
    ensures into[..p] + Merged(cmp, From(from[..], l, lmax), From(from[..], r, rmax))
      == old(into[..p0]) + Merged(cmp, From(from[..], l0, lmax), From(from[..], r0, rmax))
  {
    hide Merged;
    p, l, r := p0, l0, r0;
    ghost var s := from[..];
    ghost var all := into[..p0] + Merged(cmp, From(s, l, lmax), From(s, r, rmax));
    ghost var room := p0 + |From(s, l, lmax)| + |From(s, r, rmax)|;
    while l < lmax && r < rmax
      invariant l <= lmax && p + |From(s, l, lmax)| + |From(s, r, rmax)| == room && p <= into.Length
      invariant into[..p] + Merged(cmp, From(s, l, lmax), From(s, r, rmax)) == all
      decreases lmax - l + rmax - r
    {
      var c := cmp(from[l], from[r]);
      ghost var done := into[..p];
      if c < 0 {
        PutLeft(cmp, done, s, l, lmax, r, rmax);
        into[p] := from[l];
        l := l + 1;
      } else {
        PutRight(cmp, done, s, l, lmax, r, rmax);
        into[p] := from[r];
        r := r + 1;
      }
      assert into[..p + 1] == done + [into[p]];
      p := p + 1;
    }
  }

  /** The rest of one run is copied. */
  method CopyOver<T>(from: array<T>, into: array<T>, p0: nat, lo0: nat, hi: nat) returns (p: nat)
    requires from != into && hi <= from.Length && p0 + |From(from[..], lo0, hi)| <= into.Length
    modifies into
    ensures p == p0 + |From(from[..], lo0, hi)| && into[..p] == old(into[..p0]) + From(from[..], lo0, hi)
  {
    p := p0;
    var lo := lo0;
    while lo < hi
      invariant p == p0 + lo - lo0 && (lo == lo0 || lo <= hi)
      invariant into[..p] == old(into[..p0]) + (if lo0 < lo then from[lo0..lo] else [])
    {
      ghost var done := into[..p];
      into[p] := from[lo];
      assert into[..p + 1] == done + [from[lo]];
      lo := lo + 1;
      p := p + 1;
    }
  }

  lemma PutLeft<T>(cmp: Comparator<T>, done: seq<T>, s: seq<T>, l: nat, lmax: nat, r: nat, rmax: nat)
    requires l < lmax <= |s| && rmax <= |s| && (r < rmax ==> cmp(s[l], s[r]) < 0)
    ensures done + Merged(cmp, From(s, l, lmax), From(s, r, rmax))
      == done + [s[l]] + Merged(cmp, From(s, l + 1, lmax), From(s, r, rmax))
  {
    var a, b := From(s, l, lmax), From(s, r, rmax);
    TakeLeft(cmp, a, b);
    assert a[1..] == From(s, l + 1, lmax);
    hide Merged, From;
  }

  lemma PutRight<T>(cmp: Comparator<T>, done: seq<T>, s: seq<T>, l: nat, lmax: nat, r: nat, rmax: nat)
    requires r < rmax <= |s| && lmax <= |s| && (l < lmax ==> cmp(s[l], s[r]) >= 0)
    ensures done + Merged(cmp, From(s, l, lmax), From(s, r, rmax))
      == done + [s[r]] + Merged(cmp, From(s, l, lmax), From(s, r + 1, rmax))
  {
    var a, b := From(s, l, lmax), From(s, r, rmax);
    TakeRight(cmp, a, b);
    assert b[1..] == From(s, r + 1, rmax);
    hide Merged, From;
  }

  lemma PassStep<T>(cmp: Comparator<T>, s: seq<T>, i: nat, step: nat)
    requires step > 0 && i < |s|
    ensures var l, m := Min(i + step, |s|), Min(i + 2 * step, |s|);
      Pass(cmp, s[i..], step) == Merged(cmp, s[i..l], s[l..m]) + Pass(cmp, s[m..], step)
  {
    hide Merged, Pass;
    var l, m, r := Min(i + step, |s|), Min(i + 2 * step, |s|), s[i..];
    Unfolded(cmp, r, step, l - i, m - i);
    Slices3(s, i, l, m);
  }

  lemma Slices3<T>(s: seq<T>, i: nat, l: nat, m: nat)
    requires i <= l <= m <= |s|
    ensures s[i..][..l - i] == s[i..l] && s[i..][l - i..m - i] == s[l..m] && s[i..][m - i..] == s[m..]
  {
  }

  lemma Unfolded<T>(cmp: Comparator<T>, r: seq<T>, step: nat, a: nat, b: nat)
    requires step > 0 && r != [] && a == Min(step, |r|) && b == Min(2 * step, |r|)
    ensures Pass(cmp, r, step) == Merged(cmp, r[..a], r[a..b]) + Pass(cmp, r[b..], step)
  {
  }

  /** One pass over the whole array. */
  method OnePass<T>(from: array<T>, into: array<T>, step: nat, cmp: Comparator<T>)
    requires from != into && from.Length == into.Length && step > 0
    modifies into
    ensures into[..] == Pass(cmp, from[..], step)
  {
    hide Pass, Merged;
    var n := from.Length;
    ghost var s := from[..];
    var i := 0;
    assert into[..0] + Pass(cmp, s[0..], step) == Pass(cmp, s, step) by { assert s[0..] == s; }
    while i < n
      invariant into[..Min(i, n)] + Pass(cmp, s[Min(i, n)..], step) == Pass(cmp, s, step)
    {
      PassStep(cmp, s, i, step);
      Blocks(from, i, step);
      MergeBlocks(from, into, i, step, cmp);
      i := i + step * 2;
    }
    assert s[n..] == [];
    NoPass(cmp, step, into[..n], s[n..]);
    assert into[..n] == into[..];
  }

  lemma Blocks<T>(from: array<T>, i: nat, step: nat)
    requires i < from.Length
    ensures var l, m := Min(i + step, from.Length), Min(i + 2 * step, from.Length);
      from[..][i..l] == from[i..l] && from[..][l..m] == from[l..m]
  {
  }

  lemma NoPass<T>(cmp: Comparator<T>, step: nat, a: seq<T>, s: seq<T>)
    requires step > 0 && s == []
    ensures a + Pass(cmp, s, step) == a
  {
  }

  class Arr<T(!new)> {
    var data: array<T>
    var len: nat

    ghost predicate Valid()
      reads this
    {
      len <= data.Length
    }

    /** Storage may be larger than the contents. */
    constructor (capacity: nat, contents: seq<T>, filler: T)
      requires |contents| <= capacity
      ensures Valid() && fresh(data) && len == |contents| && data[..len] == contents
    {
      data := new T[capacity](i => if 0 <= i < |contents| then contents[i] else filler);
      len := |contents|;
    }

    /** sort_in_place: the contents become a sorted permutation of themselves, with equal elements in the opposite
        order, in storage of their size. */
    method SortInPlace(cmp: Comparator<T>)
      requires Valid() && Lawful(cmp)
      modifies this`data
      ensures Valid() && fresh(data) && data.Length == len
      ensures Sorted(cmp, data[..]) && multiset(data[..]) == multiset(old(data[..len]))
      ensures Mirrored(cmp, data[..], old(data[..len]))
    {
      hide Lawful, Sorted, Mirrored, Runs, Pass;
      var n, old_ := len, data;
      ghost var orig := data[..len];
      var from := new T[n](i requires 0 <= i < n reads this, old_ requires n <= old_.Length => old_[i]);
      var into := new T[n](i requires 0 <= i < n reads this, old_ requires n <= old_.Length => old_[i]);
      assert from[..] == orig;
      SingletonRuns(cmp, orig);
      var step := 1;
      while step < n
        invariant step > 0 && from != into && from.Length == into.Length == n && fresh(from) && fresh(into)
        invariant Runs(cmp, from[..], orig, step)
        decreases n - step
      {
        PassDoubles(cmp, from[..], orig, step);
        OnePass(from, into, step, cmp);
        from, into := into, from;
        step := step + step;
      }
      OneRun(cmp, from[..], orig, step);
      data := from;
    }
  }
}
