/** The probe sequence of the hash tables: x -> 5x + 1 from the hash, modulo a power of two. */
module Probing {
  import opened Words

  // ---------- divisibility by a power of two ----------

  /** 2^k divides x. */
  predicate Divides2(x: int, k: nat)
    decreases k
  {
    k == 0 || (x % 2 == 0 && Divides2(x / 2, k - 1))
  }

  lemma {:induction false} DividesSum(x: int, y: int, k: nat)
    requires Divides2(x, k) && Divides2(y, k)
    ensures Divides2(x + y, k) && Divides2(x - y, k)
    decreases k
  {
    if k > 0 {
      DividesSum(x / 2, y / 2, k - 1);
      assert (x + y) / 2 == x / 2 + y / 2 && (x - y) / 2 == x / 2 - y / 2;
    }
  }

  lemma {:induction false} DividesZero(k: nat)
    ensures Divides2(0, k)
  {
    if k > 0 {
      DividesZero(k - 1);
    }
  }

  lemma {:induction false} DividesIsLarge(d: nat, k: nat)
    requires Divides2(d, k) && d > 0
    ensures d >= Pow2(k)
    decreases k
  {
    if k > 0 {
      DividesIsLarge(d / 2, k - 1);
    }
  }

  lemma {:induction false} DividesPow2(n: nat, k: nat)
    requires k <= n
    ensures Divides2(Pow2(n), k)
  {
    if k > 0 {
      DividesPow2(n - 1, k - 1);
    }
  }

  lemma Pow2Eight(n: nat)
    ensures Pow2(n + 8) == 256 * Pow2(n)
  {
    assert Pow2(n + 8) == 2 * Pow2(n + 7) == 4 * Pow2(n + 6) == 8 * Pow2(n + 5) == 16 * Pow2(n + 4);
    assert Pow2(n + 4) == 2 * Pow2(n + 3) == 4 * Pow2(n + 2) == 8 * Pow2(n + 1);
  }

  lemma Pow2At64()
    ensures Pow2(64) == WORD
  {
    hide Pow2;
    Pow2Eight(0);
    Pow2Eight(8);
    Pow2Eight(16);
    Pow2Eight(24);
    Pow2Eight(32);
    Pow2Eight(40);
    Pow2Eight(48);
    Pow2Eight(56);
    Pow2Zero();
  }

  lemma Pow2Zero()
    ensures Pow2(0) == 1
  {
  }

  lemma {:induction false} Pow2Monotone(a: nat, b: nat)
    requires a <= b
    ensures Pow2(a) <= Pow2(b)
    ensures a < b ==> 2 * Pow2(a) <= Pow2(b)
  {
    if a < b {
      Pow2Monotone(a, b - 1);
    }
  }

  lemma {:induction false} WordsDivide(q: nat, k: nat)
    requires k <= 64
    ensures Divides2(q * WORD, k)
  {
    if q == 0 {
      DividesZero(k);
    } else {
      WordsDivide(q - 1, k);
      Pow2At64();
      DividesPow2(64, k);
      DividesSum((q - 1) * WORD, WORD, k);
    }
  }

  /** Wrapping to a machine word keeps the low bits. */
  lemma WrapCongruent(x: int, k: nat)
    requires k <= 64
    ensures Divides2(Wrap(x) - x, k)
  {
    var q := x / WORD;
    DividesZero(k);
    if q >= 0 {
      WordsDivide(q, k);
      DividesSum(0, q * WORD, k);
    } else {
      WordsDivide(-q, k);
    }
    assert Wrap(x) - x == -q * WORD;
  }

  // ---------- masking ----------

  lemma {:induction false} LowCongruent(x: int, k: nat)
    ensures Divides2(Low(x, k) - x, k)
    decreases k
  {
    if k > 0 {
      LowCongruent(x / 2, k - 1);
      assert (Low(x, k) - x) / 2 == Low(x / 2, k - 1) - x / 2;
    }
  }

  /** Two numbers have the same low bits just when 2^k divides their difference. */
  lemma {:induction false} LowEqual(a: int, b: int, k: nat)
    ensures Low(a, k) == Low(b, k) <==> Divides2(a - b, k)
    decreases k
  {
    if k > 0 {
      LowEqual(a / 2, b / 2, k - 1);
      if a % 2 == b % 2 {
        assert (a - b) / 2 == a / 2 - b / 2;
      }
    }
  }

  // ---------- the steps from 0 ----------

  /** The n-th iterate of x -> 5x + 1 from 0. */
  function Steps(n: nat): (s: nat)
  {
    if n == 0 then 0 else 5 * Steps(n - 1) + 1
  }

  lemma {:induction false} StepsParity(n: nat)
    ensures Steps(n) % 2 == n % 2
  {
    if n > 0 {
      StepsParity(n - 1);
    }
  }

  lemma {:induction false} StepsAdd(m: nat, n: nat)
    ensures Steps(m + n) == Steps(m) + Steps(n) + 4 * (Steps(m) * Steps(n))
  {
    if m > 0 {
      StepsAdd(m - 1, n);
      FiveTimes(Steps(m - 1), Steps(n));
    }
  }

  lemma FiveTimes(a: nat, b: nat)
    ensures (5 * a + 1) * b == 5 * (a * b) + b
  {
  }

  lemma {:induction false} DividesOdd(x: nat, half: nat, k: nat)
    ensures Divides2(x + 2 * (x * half), k) <==> Divides2(x, k)
  {
    if k > 0 {
      var h := x / 2;
      SumParity(x, x * half);
      if x % 2 == 0 {
        HalfProduct(h, half);
        DividesOdd(h, half, k - 1);
      }
    }
  }

  lemma SumParity(x: nat, y: nat)
    ensures (x + 2 * y) % 2 == x % 2 && (x % 2 == 0 ==> (x + 2 * y) / 2 == x / 2 + y)
  {
  }

  lemma HalfProduct(h: nat, half: nat)
    ensures (2 * h) * half == 2 * (h * half)
  {
  }

  /** 2^k divides the d-th step just when it divides d. */
  lemma {:induction false} DividesSteps(d: nat, k: nat)
    ensures Divides2(Steps(d), k) <==> Divides2(d, k)
  {
    if k > 0 {
      StepsParity(d);
      if d % 2 == 0 {
        var e := d / 2;
        var s := Steps(e);
        StepsAdd(e, e);
        assert Steps(d) / 2 == s + 2 * (s * s);
        DividesOdd(s, s, k - 1);
        DividesSteps(e, k - 1);
      }
    }
  }

  // ---------- the probe sequence ----------

  /** The slot tried in round n, for a table of 2^k slots. */
  function Slot(hash: Word, n: nat, k: nat): (p: nat)
    ensures p < Pow2(k)
  {
    Low(hash + Steps(n), k)
  }

  /** next(pos, hash) of the source, in wrapping words. */
  function Next(pos: Word, hash: Word): Word {
    Wrap(Wrap(Wrap(pos - hash) * 5 + 1) + hash)
  }

  lemma NextSlot(hash: Word, n: nat, k: nat, pos: Word)
    requires k <= 63 && pos == Slot(hash, n, k)
    ensures Low(Next(pos, hash), k) == Slot(hash, n + 1, k)
  {
    hide Low, Wrap;
    var a := Wrap(pos - hash);
    var b := Wrap(a * 5 + 1);
    LowCongruent(hash + Steps(n), k);
    WrapCongruent(pos - hash, k);
    WrapCongruent(a * 5 + 1, k);
    WrapCongruent(b + hash, k);
    var d := a - Steps(n);
    DividesSum(a - (pos - hash), pos - (hash + Steps(n)), k);
    assert d == (a - (pos - hash)) + (pos - (hash + Steps(n)));
    DividesSum(d, d, k);
    DividesSum(d + d, d + d, k);
    DividesSum(d + d + (d + d), d, k);
    DividesSum(b - (a * 5 + 1), d + d + (d + d) + d, k);
    DividesSum(Wrap(b + hash) - (b + hash), (b - (a * 5 + 1)) + (d + d + (d + d) + d), k);
    assert Next(pos, hash) == Wrap(b + hash);
    assert Wrap(b + hash) - (hash + Steps(n + 1))
      == (Wrap(b + hash) - (b + hash)) + ((b - (a * 5 + 1)) + (d + d + (d + d) + d));
    LowEqual(Next(pos, hash), hash + Steps(n + 1), k);
  }

  /** No slot is tried twice within one period. */
  lemma Injective(hash: Word, i: nat, j: nat, k: nat)
    requires i < j < Pow2(k)
    ensures Slot(hash, i, k) != Slot(hash, j, k)
  {
    hide Low, Steps, Divides2;
    var d := j - i;
    var s, t := Steps(i), Steps(d);
    StepsAdd(i, d);
    StepsAdd(d, i);
    assert Steps(j) - s == t + 2 * (t * (2 * s)) by { Double(t, s); }
    LowEqual(hash + Steps(j), hash + s, k);
    DividesOdd(t, 2 * s, k);
    DividesSteps(d, k);
    if Divides2(d, k) {
      DividesIsLarge(d, k);
    }
  }

  lemma Double(t: nat, s: nat)
    ensures 2 * (t * (2 * s)) == 4 * (s * t)
  {
  }

  // ---------- full period ----------

  ghost function Tried(hash: Word, n: nat, k: nat): (s: set<nat>) {
    set i: nat | i < n :: Slot(hash, i, k)
  }

  lemma {:induction false} TriedSize(hash: Word, n: nat, k: nat)
    requires n <= Pow2(k)
    ensures |Tried(hash, n, k)| == n
  {
    hide Slot;
    if n == 0 {
      assert Tried(hash, 0, k) == {};
    } else {
      TriedSize(hash, n - 1, k);
      var p := Slot(hash, n - 1, k);
      assert Tried(hash, n, k) == Tried(hash, n - 1, k) + {p};
      forall i: nat | i < n - 1 ensures Slot(hash, i, k) != p {
        Injective(hash, i, n - 1, k);
      }
      assert p !in Tried(hash, n - 1, k);
    }
  }

  ghost function Below(n: nat): (s: set<nat>) {
    if n == 0 then {} else Below(n - 1) + {n - 1}
  }

  lemma {:induction false} BelowSize(n: nat)
    ensures |Below(n)| == n
    ensures forall x: nat :: x in Below(n) <==> x < n
  {
    if n > 0 {
      BelowSize(n - 1);
    }
  }

  lemma SubsetEqual(a: set<nat>, b: set<nat>)
    requires a <= b && |a| == |b|
    ensures a == b
  {
    assert |b - a| == |b| - |a|;
  }

  /** Full period: every slot is tried within the first 2^k rounds, and the sequence then starts over. */
  lemma FullPeriod(hash: Word, p: nat, k: nat)
    requires p < Pow2(k)
    ensures exists n: nat :: n < Pow2(k) && Slot(hash, n, k) == p
    ensures Slot(hash, Pow2(k), k) == Slot(hash, 0, k)
  {
    hide Low, Divides2, Pow2, Steps;
    TriedSize(hash, Pow2(k), k);
    BelowSize(Pow2(k));
    SubsetEqual(Tried(hash, Pow2(k), k), Below(Pow2(k)));
    assert p in Tried(hash, Pow2(k), k);
    DividesPow2(k, k);
    DividesSteps(Pow2(k), k);
    assert Steps(0) == 0 by { NoSteps(); }
    LowEqual(hash + Steps(Pow2(k)), hash + Steps(0), k);
  }

  lemma NoSteps()
    ensures Steps(0) == 0
  {
  }

  /** The round in which a slot is tried. */
  ghost function Rank(hash: Word, p: nat, k: nat): (n: nat)
    requires p < Pow2(k)
    ensures n < Pow2(k) && Slot(hash, n, k) == p
  {
    FullPeriod(hash, p, k);
    var n: nat :| n < Pow2(k) && Slot(hash, n, k) == p;
    n
  }

  lemma RankOfSlot(hash: Word, n: nat, k: nat)
    requires n < Pow2(k)
    ensures Rank(hash, Slot(hash, n, k), k) == n
  {
    hide Slot;
    var m := Rank(hash, Slot(hash, n, k), k);
    if m < n {
      Injective(hash, m, n, k);
    } else if n < m {
      Injective(hash, n, m, k);
    }
  }
}
