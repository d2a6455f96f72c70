/** The list of data roots: address intervals, sorted, with a gap between neighbours. */
module Roots {
  import opened Words

  datatype Interval = Interval(begin: Word, end: Word)

  ghost predicate Proper(d: Interval) {
    d.begin < d.end && d.begin % 8 == 0 && d.end % 8 == 0
  }

  ghost predicate Gapped(s: seq<Interval>) {
    && (forall i :: 0 <= i < |s| ==> Proper(s[i]))
    && (forall i, j :: 0 <= i < j < |s| ==> s[i].end < s[j].begin)
  }

  /** An address is inside some root. */
  ghost predicate Covers(s: seq<Interval>, x: int) {
    exists i :: 0 <= i < |s| && s[i].begin <= x < s[i].end
  }

  /** Total length; the value dataroot_size has to have. */
  function Length(s: seq<Interval>): int {
    if s == [] then 0 else s[0].end - s[0].begin + Length(s[1..])
  }

  lemma {:induction false} LengthConcat(s: seq<Interval>, t: seq<Interval>)
    ensures Length(s + t) == Length(s) + Length(t)
  {
    if s == [] {
      assert s + t == t;
    } else {
      LengthConcat(s[1..], t);
      assert (s + t)[1..] == s[1..] + t;
    }
  }

  lemma LengthReplace(s: seq<Interval>, i: nat, n: nat, t: seq<Interval>)
    requires i + n <= |s|
    ensures Length(s[..i] + t + s[i + n..]) + Length(s[i..i + n]) == Length(s) + Length(t)
  {
    hide Length;
    LengthConcat(s[..i], t);
    LengthConcat(s[..i] + t, s[i + n..]);
    LengthConcat(s[..i], s[i..i + n]);
    LengthConcat(s[..i] + s[i..i + n], s[i + n..]);
    assert s == s[..i] + s[i..i + n] + s[i + n..];
  }

  lemma {:induction false} LengthNotNegative(s: seq<Interval>)
    requires Gapped(s)
    ensures Length(s) >= 0
  {
    if s != [] {
      assert Proper(s[0]);
      Piece(s, 1, 0);
      LengthNotNegative(s[1..]);
    }
  }

  // ---------- covering, piece by piece ----------

  lemma CoversConcat(s: seq<Interval>, t: seq<Interval>, x: int)
    ensures Covers(s + t, x) <==> Covers(s, x) || Covers(t, x)
  {
    if Covers(s, x) {
      var i :| 0 <= i < |s| && s[i].begin <= x < s[i].end;
      assert (s + t)[i] == s[i];
    }
    if Covers(t, x) {
      var i :| 0 <= i < |t| && t[i].begin <= x < t[i].end;
      assert (s + t)[|s| + i] == t[i];
    }
  }

  /** Only the replaced stretch matters for what is covered. */
  lemma CoversReplace(s: seq<Interval>, i: nat, n: nat, t: seq<Interval>, x: int)
    requires i + n <= |s|
    ensures Covers(s[..i] + t + s[i + n..], x) <==> Covers(s[..i], x) || Covers(t, x) || Covers(s[i + n..], x)
    ensures Covers(s, x) <==> Covers(s[..i], x) || Covers(s[i..i + n], x) || Covers(s[i + n..], x)
  {
    hide Covers;
    CoversConcat(s[..i], t, x);
    CoversConcat(s[..i] + t, s[i + n..], x);
    CoversConcat(s[..i], s[i..i + n], x);
    CoversConcat(s[..i] + s[i..i + n], s[i + n..], x);
    assert s == s[..i] + s[i..i + n] + s[i + n..];
  }

  /** Replacing a stretch by a sorted piece that fits between the neighbours keeps the list in order. */
  lemma GappedReplace(s: seq<Interval>, i: nat, n: nat, t: seq<Interval>)
    requires i + n <= |s| && Gapped(s) && Gapped(t)
    requires t != [] && i > 0 ==> s[i - 1].end < t[0].begin
    requires t != [] && i + n < |s| ==> t[|t| - 1].end < s[i + n].begin
    ensures Gapped(s[..i] + t + s[i + n..])
  {
    hide Gapped;
    Piece(s, i, n);
    Ordered(s, i, n);
    GappedConcat(s[..i], t);
    GappedConcat(s[..i] + t, s[i + n..]);
  }

  lemma GappedConcat(s: seq<Interval>, t: seq<Interval>)
    requires Gapped(s) && Gapped(t)
    requires s != [] && t != [] ==> s[|s| - 1].end < t[0].begin
    ensures Gapped(s + t)
  {
    var u := s + t;
    forall j, k | 0 <= j < k < |u| ensures u[j].end < u[k].begin {
      if j < |s| <= k {
        assert s[j].end <= s[|s| - 1].end
          by { assert j == |s| - 1 || s[j].end < s[|s| - 1].begin; assert Proper(s[|s| - 1]); }
        assert t[0].begin <= t[k - |s|].begin
          by { assert k == |s| || t[0].end < t[k - |s|].begin; assert Proper(t[0]); }
      }
    }
  }

  lemma Ordered(s: seq<Interval>, i: nat, n: nat)
    requires i + n <= |s| && Gapped(s)
    ensures i > 0 && i + n < |s| ==> s[i - 1].end < s[i + n].begin
  {
  }

  lemma Piece(s: seq<Interval>, i: nat, n: nat)
    requires Gapped(s) && i + n <= |s|
    ensures Gapped(s[i..i + n]) && Gapped(s[..i]) && Gapped(s[i + n..])
  {
  }

  lemma CoversOne(d: Interval, x: int)
    ensures Covers([d], x) <==> d.begin <= x < d.end
    ensures Length([d]) == d.end - d.begin
  {
    assert [d][0] == d;
    assert Length([d][1..]) == 0;
  }

  lemma GrowStretch(s: seq<Interval>, k: nat, j: nat)
    requires k <= j < |s|
    ensures Length(s[k..j + 1]) == Length(s[k..j]) + s[j].end - s[j].begin
    ensures forall x :: Covers(s[k..j + 1], x) <==> Covers(s[k..j], x) || s[j].begin <= x < s[j].end
  {
    hide Covers, Length;
    assert s[k..j + 1] == s[k..j] + [s[j]];
    LengthConcat(s[k..j], [s[j]]);
    CoversOne(s[j], 0);
    forall x ensures Covers(s[k..j + 1], x) <==> Covers(s[k..j], x) || s[j].begin <= x < s[j].end {
      CoversConcat(s[k..j], [s[j]], x);
      CoversOne(s[j], x);
    }
  }

  // ---------- adding ----------

  ghost predicate Among(s: seq<Interval>, k: nat, j: nat, x: int)
    requires k <= j <= |s|
  {
    Covers(s[k..j], x)
  }

  /** Roots k to j together with [begin, end) make up the single stretch [lo, hi). */
  ghost predicate OneStretch(s: seq<Interval>, k: nat, j: nat, begin: int, end: int, lo: int, hi: int)
    requires k <= j <= |s|
  {
    forall x :: Among(s, k, j, x) || begin <= x < end <==> lo <= x < hi
  }

  lemma StretchStart(s: seq<Interval>, k: nat, begin: int, end: int)
    requires k < |s| && begin <= s[k].end && s[k].begin <= end && begin < end && s[k].begin < s[k].end
    ensures OneStretch(s, k, k + 1, begin, end, if begin < s[k].begin then begin else s[k].begin,
                       if s[k].end < end then end else s[k].end)
  {
    var j := k + 1;
    forall x ensures Among(s, k, j, x) <==> s[k].begin <= x < s[k].end {
      assert s[k..j] == [s[k]];
      CoversOne(s[k], x);
    }
  }

  lemma StretchMore(s: seq<Interval>, k: nat, j: nat, i: nat, begin: int, end: int, lo: int, hi: int)
    requires k <= j < |s| && i == j + 1 && OneStretch(s, k, j, begin, end, lo, hi)
    requires lo <= s[j].begin <= hi && lo <= hi
    ensures OneStretch(s, k, i, begin, end, lo, if s[j].end >= hi then s[j].end else hi)
  {
    GrowStretch(s, k, j);
    var hi' := if s[j].end >= hi then s[j].end else hi;
    forall x ensures (Among(s, k, i, x) || begin <= x < end) <==> lo <= x < hi' {
      AmongOne(s, k, j, x);
      assert Among(s, k, j, x) || begin <= x < end <==> lo <= x < hi;
    }
  }

  lemma AmongOne(s: seq<Interval>, k: nat, j: nat, x: int)
    requires k <= j < |s|
    ensures Among(s, k, j + 1, x) <==> Among(s, k, j, x) || s[j].begin <= x < s[j].end
  {
    hide Covers;
    GrowStretch(s, k, j);
    assert Covers(s[k..j + 1], x) <==> Covers(s[k..j], x) || s[j].begin <= x < s[j].end;
  }

  /** The first root that does not end before `begin`. */
  method SeekEnd(s: seq<Interval>, begin: Word) returns (k: nat)
    ensures k <= |s| && (forall j :: 0 <= j < k ==> s[j].end < begin) && (k < |s| ==> s[k].end >= begin)
  {
    k := 0;
    while k < |s| && s[k].end < begin
      invariant k <= |s| && forall j :: 0 <= j < k ==> s[j].end < begin
    {
      k := k + 1;
    }
  }

  lemma InsertOk(s: seq<Interval>, k: nat, d: Interval)
    requires Gapped(s) && Proper(d) && k <= |s|
    requires (forall j :: 0 <= j < k ==> s[j].end < d.begin) && (k < |s| ==> d.end < s[k].begin)
    ensures Gapped(s[..k] + [d] + s[k..]) && Length(s[..k] + [d] + s[k..]) == Length(s) + d.end - d.begin
    ensures forall x :: Covers(s[..k] + [d] + s[k..], x) <==> Covers(s, x) || d.begin <= x < d.end
  {
    hide Gapped, Covers, Length, Proper;
    GappedOne(d);
    GappedReplace(s, k, 0, [d]);
    LengthReplace(s, k, 0, [d]);
    CoversOne(d, 0);
    assert s[k..k] == [];
    Nothing(0);
    forall x ensures Covers(s[..k] + [d] + s[k..], x) <==> Covers(s, x) || d.begin <= x < d.end {
      InsertCovers(s, k, d, x);
    }
  }

  lemma InsertCovers(s: seq<Interval>, k: nat, d: Interval, x: int)
    requires k <= |s|
    ensures Covers(s[..k] + [d] + s[k..], x) <==> Covers(s, x) || d.begin <= x < d.end
  {
    hide Covers, Length;
    assert s[k..k] == [];
    CoversReplace(s, k, 0, [d], x);
    CoversOne(d, x);
    Nothing(x);
  }

  lemma GappedOne(d: Interval)
    requires Proper(d)
    ensures Gapped([d])
  {
  }

  lemma Nothing(x: int)
    ensures !Covers([], x) && Length([]) == 0
  {
  }

  /** Roots that begin no later than the stretch ends are swallowed by it, and it may then reach further. */
  method Swallow(s: seq<Interval>, k: nat, begin: Word, end: Word, ghost lo: int, size: int)
    returns (e: Word, total: int, freed: nat)
    requires Gapped(s) && k < |s| && end % 8 == 0 && lo <= s[k].begin && s[k].end < end
    requires OneStretch(s, k, k + 1, begin, end, lo, end)
    ensures k + 1 + freed <= |s| && end <= e && e % 8 == 0 && (k + 1 + freed < |s| ==> e < s[k + 1 + freed].begin)
    ensures total == size - (Length(s[k..k + 1 + freed]) - (s[k].end - s[k].begin))
    ensures OneStretch(s, k, k + 1 + freed, begin, end, lo, e)
  {
    hide Covers, Length, Gapped, OneStretch;
    Sorted(s, k);
    GrowStretch(s, k, k);
    assert s[k..k] == [];
    Nothing(0);
    e, total, freed := end, size, 0;
    while k + 1 + freed < |s| && e >= s[k + 1 + freed].begin
      invariant k + 1 + freed <= |s| && end <= e && e % 8 == 0
      invariant e == end || e == s[k + freed].end
      invariant freed > 0 ==> e >= s[k + freed].end
      invariant total == size - (Length(s[k..k + 1 + freed]) - (s[k].end - s[k].begin))
      invariant OneStretch(s, k, k + 1 + freed, begin, end, lo, e)
    {
      var j := k + 1 + freed;
      Sorted(s, j);
      GrowStretch(s, k, j);
      StretchMore(s, k, j, j + 1, begin, end, lo, e);
      if s[j].end >= e {
        e := s[j].end;
      }
      total := total - (s[j].end - s[j].begin);
      freed := freed + 1;
    }
  }

  /** The merging branch of GC_roots_add: root `k` is stretched over [begin, end) and swallows the roots it
      then touches. */
  method Merge(s: seq<Interval>, size: nat, k: nat, begin: Word, end: Word)
    returns (s': seq<Interval>, size': nat, freed: nat)
    requires Gapped(s) && size == Length(s) && k < |s| && Proper(Interval(begin, end))
    requires (forall j :: 0 <= j < k ==> s[j].end < begin) && s[k].end >= begin && end >= s[k].begin
    ensures Gapped(s') && size' == Length(s') && |s'| + freed == |s|
    ensures forall x :: Covers(s', x) <==> Covers(s, x) || begin <= x < end
  {
    hide Covers, Length, Gapped, OneStretch;
    GrowStretch(s, k, k);
    assert s[k..k] == [];
    Nothing(0);
    Sorted(s, k);
    var d := s[k];
    var total: int := size;
    freed := 0;
    if begin < d.begin {
      total := total + (d.begin - begin);
      d := d.(begin := begin);
    }
    StretchStart(s, k, begin, end);
    if d.end < end {
      var e;
      e, total, freed := Swallow(s, k, begin, end, d.begin, total);
      total := total + (e - d.end);
      d := d.(end := e);
    }
    s' := s[..k] + [d] + s[k + 1 + freed..];
    Merged(s, k, 1 + freed, d, begin, end);
    LengthNotNegative(s');
    size' := total;
  }

  lemma Sorted(s: seq<Interval>, k: nat)
    requires Gapped(s) && k < |s|
    ensures Proper(s[k]) && (forall j :: k < j < |s| ==> s[k].end < s[j].begin && Proper(s[j]))
    ensures forall j :: 0 <= j < k ==> s[j].end < s[k].begin
  {
  }

  lemma Merged(s: seq<Interval>, k: nat, n: nat, d: Interval, begin: Word, end: Word)
    requires Gapped(s) && Proper(d) && n > 0 && k + n <= |s|
    requires forall j :: 0 <= j < k ==> s[j].end < d.begin
    requires k + n < |s| ==> d.end < s[k + n].begin
    requires OneStretch(s, k, k + n, begin, end, d.begin, d.end)
    ensures var s' := s[..k] + [d] + s[k + n..];
      && Gapped(s') && Length(s') + Length(s[k..k + n]) == Length(s) + d.end - d.begin
      && forall x :: Covers(s', x) <==> Covers(s, x) || begin <= x < end
  {
    hide Gapped, Covers, Length, Proper;
    GappedOne(d);
    GappedReplace(s, k, n, [d]);
    LengthReplace(s, k, n, [d]);
    CoversOne(d, 0);
    var s' := s[..k] + [d] + s[k + n..];
    forall x ensures Covers(s', x) <==> Covers(s, x) || begin <= x < end {
      CoversReplace(s, k, n, [d], x);
      CoversOne(d, x);
      assert Among(s, k, k + n, x) || begin <= x < end <==> d.begin <= x < d.end;
    }
  }

  // ---------- removing ----------

  ghost predicate Inside(d: Interval, begin: int, end: int) {
    begin <= d.begin && d.end <= end
  }

  /** Some root begins before the range and ends behind it. */
  ghost predicate Splits(s: seq<Interval>, begin: int, end: int) {
    exists i :: 0 <= i < |s| && s[i].begin < begin && end < s[i].end
  }

  /** No other root lies in a range that is strictly inside one. */
  lemma SplitAlone(s: seq<Interval>, begin: int, end: int)
    requires Gapped(s) && begin < end && Splits(s, begin, end)
    ensures forall d :: d in s ==> !Inside(d, begin, end)
  {
    var i :| 0 <= i < |s| && s[i].begin < begin && end < s[i].end;
    forall d | d in s ensures !Inside(d, begin, end) {
      var j :| 0 <= j < |s| && s[j] == d;
      assert Proper(s[j]) && (j < i ==> s[j].end < s[i].begin) && (i < j ==> s[i].end < s[j].begin);
    }
  }

  lemma SplitStays(s: seq<Interval>, s': seq<Interval>, begin: int, end: int)
    requires Gapped(s) && forall d :: d in s' <==> d in s && !Inside(d, begin, end)
    ensures Splits(s', begin, end) && begin < end ==> forall d :: d in s ==> !Inside(d, begin, end)
    ensures begin < end ==> (Splits(s', begin, end) <==> Splits(s, begin, end))
  {
    if i :| 0 <= i < |s'| && s'[i].begin < begin && end < s'[i].end && begin < end {
      assert s'[i] in s;
      var j :| 0 <= j < |s| && s[j] == s'[i];
      assert Splits(s, begin, end);
      SplitAlone(s, begin, end);
    }
    if i :| 0 <= i < |s| && s[i].begin < begin && end < s[i].end && begin < end {
      SplitAlone(s, begin, end);
      assert s[i] in s';
      var j :| 0 <= j < |s'| && s'[j] == s[i];
    }
  }

  /** A range between two neighbours touches no root. */
  lemma ClearOfAll(s: seq<Interval>, k: nat, begin: int, end: int)
    requires Gapped(s) && k <= |s| && (forall j :: 0 <= j < k ==> s[j].end < begin) && (k < |s| ==> end < s[k].begin)
    ensures forall d :: d in s ==> d.end < begin || end < d.begin
  {
    forall d | d in s ensures d.end < begin || end < d.begin {
      var j :| 0 <= j < |s| && s[j] == d;
      assert Proper(s[j]) && (k < j ==> Proper(s[k]) && s[k].end < s[j].begin);
    }
  }

  lemma GappedNone()
    ensures Gapped([])
  {
  }

  /** GC_roots_del_inside: drops the roots that lie entirely in [begin, end), and only those. */
  method DelInside(s: seq<Interval>, size: nat, begin: Word, end: Word)
    returns (s': seq<Interval>, size': nat, freed: nat)
    requires Gapped(s) && size == Length(s)
    ensures Gapped(s') && size' == Length(s') && |s'| + freed == |s|
    ensures forall d :: d in s' <==> d in s && !Inside(d, begin, end)
    ensures (forall d :: d in s ==> !Inside(d, begin, end)) ==> s' == s
  {
    hide Covers, Length, Inside, Gapped;
    GappedNone();
    var k := 0;
    while k < |s| && s[k].begin < begin
      invariant k <= |s| && forall j :: 0 <= j < k ==> s[j].begin < begin
    {
      k := k + 1;
    }
    var total: int := size;
    freed := 0;
    assert s[k..k] == [];
    Nothing(0);
    while k + freed < |s| && !(end < s[k + freed].end)
      invariant k + freed <= |s| && total == size - Length(s[k..k + freed])
      invariant forall j :: k <= j < k + freed ==> s[j].end <= end
    {
      GrowStretch(s, k, k + freed);
      total := total - (s[k + freed].end - s[k + freed].begin);
      freed := freed + 1;
    }
    s' := s[..k] + [] + s[k + freed..];
    LengthReplace(s, k, freed, []);
    GappedReplace(s, k, freed, []);
    LengthNotNegative(s');
    size' := total;
    DroppedInside(s, k, freed, begin, end);
    NoneDropped(s, k, freed, begin, end);
  }

  lemma NoneDropped(s: seq<Interval>, k: nat, n: nat, begin: int, end: int)
    requires k + n <= |s| && (k < |s| ==> s[k].begin >= begin) && (n > 0 ==> s[k].end <= end)
    ensures if n > 0 then s[k] in s && Inside(s[k], begin, end) else s[..k] + [] + s[k + n..] == s
  {
  }

  lemma DroppedInside(s: seq<Interval>, k: nat, n: nat, begin: int, end: int)
    requires Gapped(s) && k + n <= |s|
    requires forall j :: 0 <= j < k ==> s[j].begin < begin
    requires k < |s| ==> s[k].begin >= begin
    requires forall j :: k <= j < k + n ==> s[j].end <= end
    requires k + n < |s| ==> end < s[k + n].end
    ensures forall d :: d in s[..k] + [] + s[k + n..] <==> d in s && !Inside(d, begin, end)
  {
    var s' := s[..k] + [] + s[k + n..];
    forall d | d in s' ensures d in s && !Inside(d, begin, end) {
      if d in s[..k] {
        var j :| 0 <= j < k && s[j] == d;
      } else {
        var j :| k + n <= j < |s| && s[j] == d;
        assert j == k + n || s[k + n].end < s[j].begin;
        assert Proper(s[j]);
      }
    }
    forall d | d in s ensures d in s' || Inside(d, begin, end) {
      var j :| 0 <= j < |s| && s[j] == d;
      if j < k {
        assert s[..k][j] == d;
      } else if j >= k + n {
        assert s[k + n..][j - k - n] == d;
      } else {
        assert j == k || s[k].end < s[j].begin;
        assert Proper(s[k]);
      }
    }
  }

  /** The first root ending after `begin`. */
  method SeekPast(s: seq<Interval>, begin: Word) returns (k: nat)
    ensures k <= |s| && (forall j :: 0 <= j < k ==> s[j].end <= begin) && (k < |s| ==> s[k].end > begin)
  {
    k := 0;
    while k < |s| && begin >= s[k].end
      invariant k <= |s| && forall j :: 0 <= j < k ==> s[j].end <= begin
    {
      k := k + 1;
    }
  }

  /** The list after GC_roots_exclude cut [begin, end) out of root `k` and, at its right end, the next one. */
  function Cut(s: seq<Interval>, k: nat, begin: Word, end: Word): seq<Interval>
    requires k < |s|
  {
    var d := s[k];
    if d.begin < begin then
      if end < d.end then
        s[..k] + [Interval(d.begin, begin), Interval(end, d.end)] + s[k + 1..]
      else if k + 1 < |s| && s[k + 1].begin < end < s[k + 1].end then
        s[..k] + [Interval(d.begin, begin), Interval(end, s[k + 1].end)] + s[k + 2..]
      else
        s[..k] + [Interval(d.begin, begin)] + s[k + 1..]
    else
      s[..k] + [Interval(end, d.end)] + s[k + 1..]
  }

  lemma LeftOf(s: seq<Interval>, k: nat, begin: int)
    requires k <= |s| && forall j :: 0 <= j < k ==> s[j].end <= begin
    ensures forall x :: Covers(s[..k], x) ==> x < begin
  {
  }

  lemma RightOf(s: seq<Interval>, m: nat, end: int)
    requires Gapped(s) && m <= |s| && (m < |s| ==> end <= s[m].begin)
    ensures forall x :: Covers(s[m..], x) ==> end <= x
  {
    forall x | Covers(s[m..], x) ensures end <= x {
      var i :| 0 <= i < |s[m..]| && s[m..][i].begin <= x < s[m..][i].end;
      assert i == 0 || s[m].end < s[m + i].begin;
      assert Proper(s[m]);
    }
  }

  /** Cutting within a stretch of `n` roots: order, length and cover of the result. */
  lemma CutStretch(s: seq<Interval>, k: nat, n: nat, t: seq<Interval>, begin: Word, end: Word)
    requires Gapped(s) && Gapped(t) && 0 < n && k + n <= |s| && t != []
    requires forall j :: 0 <= j < k ==> s[j].end <= begin
    requires k + n < |s| ==> end <= s[k + n].begin
    requires s[k].begin <= t[0].begin && t[|t| - 1].end <= s[k + n - 1].end
    requires forall x :: Covers(t, x) <==> Covers(s[k..k + n], x) && !(begin <= x < end)
    ensures var s' := s[..k] + t + s[k + n..];
      && Gapped(s') && Length(s') + Length(s[k..k + n]) == Length(s) + Length(t)
      && forall x :: Covers(s', x) <==> Covers(s, x) && !(begin <= x < end)
  {
    hide Covers, Length;
    GappedReplace(s, k, n, t);
    LengthReplace(s, k, n, t);
    LeftOf(s, k, begin);
    RightOf(s, k + n, end);
    forall x ensures Covers(s[..k] + t + s[k + n..], x) <==> Covers(s, x) && !(begin <= x < end) {
      CoversReplace(s, k, n, t, x);
    }
  }

  lemma CoversTwo(a: Interval, b: Interval, x: int)
    ensures Covers([a, b], x) <==> a.begin <= x < a.end || b.begin <= x < b.end
    ensures Length([a, b]) == a.end - a.begin + b.end - b.begin
  {
    CoversConcat([a], [b], x);
    CoversOne(a, x);
    CoversOne(b, x);
    LengthConcat([a], [b]);
    assert [a] + [b] == [a, b];
  }

  /** How much GC_roots_exclude subtracts from dataroot_size. */
  function CutSize(s: seq<Interval>, k: nat, begin: Word, end: Word): int
    requires k < |s|
  {
    var d := s[k];
    if d.begin < begin then
      if end < d.end then end - begin
      else if k + 1 < |s| && s[k + 1].begin < end < s[k + 1].end then (d.end - begin) + (end - s[k + 1].begin)
      else d.end - begin
    else end - d.begin
  }

  /** With no root inside [begin, end) the cut is set difference. */
  lemma CutOk(s: seq<Interval>, k: nat, begin: Word, end: Word)
    requires Gapped(s) && k < |s| && Proper(Interval(begin, end))
    requires forall d :: d in s ==> !Inside(d, begin, end)
    requires forall j :: 0 <= j < k ==> s[j].end <= begin
    requires s[k].end > begin && s[k].begin < end
    ensures Gapped(Cut(s, k, begin, end)) && Length(Cut(s, k, begin, end)) == Length(s) - CutSize(s, k, begin, end)
    ensures forall x :: Covers(Cut(s, k, begin, end), x) <==> Covers(s, x) && !(begin <= x < end)
  {
    Sorted(s, k);
    var d := s[k];
    assert d in s;
    hide Covers, Length, Gapped;
    if d.begin < begin && d.end <= end && k + 1 < |s| && s[k + 1].begin < end {
      assert s[k + 1] in s;
      CutAcross(s, k, begin, end);
    } else {
      CutInside(s, k, begin, end);
    }
  }

  /** The cut concerns one root only. */
  lemma CutInside(s: seq<Interval>, k: nat, begin: Word, end: Word)
    requires Gapped(s) && k < |s| && Proper(Interval(begin, end)) && Proper(s[k])
    requires !Inside(s[k], begin, end) && s[k].end > begin && s[k].begin < end
    requires forall j :: 0 <= j < k ==> s[j].end <= begin
    requires k + 1 < |s| ==> end <= s[k + 1].begin
    ensures Gapped(Cut(s, k, begin, end)) && Length(Cut(s, k, begin, end)) == Length(s) - CutSize(s, k, begin, end)
    ensures forall x :: Covers(Cut(s, k, begin, end), x) <==> Covers(s, x) && !(begin <= x < end)
  {
    hide Covers, Length, Gapped;
    var d := s[k];
    var t := if d.begin < begin then
               if end < d.end then [Interval(d.begin, begin), Interval(end, d.end)] else [Interval(d.begin, begin)]
             else [Interval(end, d.end)];
    assert s[k..k + 1] == [d];
    CutOne(d, t, begin, end);
    CutStretch(s, k, 1, t, begin, end);
  }

  /** The cut reaches from the end of one root into the next. */
  lemma CutAcross(s: seq<Interval>, k: nat, begin: Word, end: Word)
    requires Gapped(s) && k + 1 < |s| && Proper(Interval(begin, end))
    requires forall j :: 0 <= j < k ==> s[j].end <= begin
    requires s[k].begin < begin < s[k].end <= end && s[k + 1].begin < end < s[k + 1].end
    ensures var c := s[..k] + [Interval(s[k].begin, begin), Interval(end, s[k + 1].end)] + s[k + 2..];
      && Gapped(c) && Length(c) == Length(s) - (s[k].end - begin) - (end - s[k + 1].begin)
      && forall x :: Covers(c, x) <==> Covers(s, x) && !(begin <= x < end)
  {
    Sorted(s, k);
    Sorted(s, k + 1);
    hide Covers, Length;
    var d, c := s[k], s[k + 1];
    var t := [Interval(d.begin, begin), Interval(end, c.end)];
    assert s[k..k + 2] == [d, c];
    CoversTwo(d, c, 0);
    CoversTwo(t[0], t[1], 0);
    assert Gapped(t);
    hide Gapped;
    forall x ensures Covers(t, x) <==> Covers(s[k..k + 2], x) && !(begin <= x < end) {
      CoversTwo(t[0], t[1], x);
      CoversTwo(d, c, x);
    }
    CutStretch(s, k, 2, t, begin, end);
  }

  lemma CutOne(d: Interval, t: seq<Interval>, begin: Word, end: Word)
    requires Proper(d) && Proper(Interval(begin, end)) && !Inside(d, begin, end) && d.end > begin && d.begin < end
    requires t == if d.begin < begin then
                    if end < d.end then [Interval(d.begin, begin), Interval(end, d.end)] else [Interval(d.begin, begin)]
                  else [Interval(end, d.end)]
    ensures Gapped(t) && forall x :: Covers(t, x) <==> Covers([d], x) && !(begin <= x < end)
    ensures Length([d]) == d.end - d.begin
    ensures Length(t) == Length([d]) - CutSize([d], 0, begin, end)
  {
    hide Covers, Length;
    CoversOne(d, 0);
    CoversOne(t[0], 0);
    if |t| == 2 {
      CoversTwo(t[0], t[1], 0);
    }
    forall x ensures Covers(t, x) <==> Covers([d], x) && !(begin <= x < end) {
      CoversOne(d, x);
      CoversOne(t[0], x);
      if |t| == 2 {
        CoversTwo(t[0], t[1], x);
      }
    }
  }

  /** Only a cut through the middle of a root needs a new node. */
  lemma CutNodes(s: seq<Interval>, k: nat, begin: Word, end: Word)
    requires k < |s|
    ensures |Cut(s, k, begin, end)| == if s[k].begin < begin && end < s[k].end then |s| + 1 else |s|
  {
  }

  lemma UntouchedBy(s: seq<Interval>, k: nat, begin: Word, end: Word)
    requires Gapped(s) && k <= |s| && (forall j :: 0 <= j < k ==> s[j].end <= begin)
    requires k < |s| ==> end <= s[k].begin
    ensures forall x :: Covers(s, x) ==> !(begin <= x < end)
  {
    LeftOf(s, k, begin);
    RightOf(s, k, end);
    hide Covers, Gapped;
    forall x | Covers(s, x) ensures !(begin <= x < end) {
      CoversReplace(s, k, 0, [], x);
      assert s[k..k] == [];
      Nothing(x);
    }
  }

  /** Dropping the roots inside a range uncovers addresses of that range only. */
  lemma DelInsideCovers(s: seq<Interval>, s': seq<Interval>, begin: int, end: int)
    requires forall d :: d in s' <==> d in s && !Inside(d, begin, end)
    ensures forall x :: Covers(s, x) && !(begin <= x < end) <==> Covers(s', x) && !(begin <= x < end)
  {
    forall x | !(begin <= x < end) ensures Covers(s, x) <==> Covers(s', x) {
      if Covers(s, x) {
        var i :| 0 <= i < |s| && s[i].begin <= x < s[i].end;
        assert s[i] in s';
        var j :| 0 <= j < |s'| && s'[j] == s[i];
      }
      if Covers(s', x) {
        var i :| 0 <= i < |s'| && s'[i].begin <= x < s'[i].end;
        assert s'[i] in s;
        var j :| 0 <= j < |s| && s[j] == s'[i];
      }
    }
  }
}
