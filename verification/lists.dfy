/** Families of lists taken as one collection: hash buckets, bins, fast bins. */
module Lists {
  ghost function Backwards<T>(s: seq<T>): (r: seq<T>)
    ensures |r| == |s| && forall k :: 0 <= k < |s| ==> r[k] == s[|s| - 1 - k]
  {
    if s == [] then [] else Backwards(s[1..]) + [s[0]]
  }

  /** All elements of all lists. */
  ghost function InTable<T>(b: seq<seq<T>>): multiset<T> {
    if b == [] then multiset{} else multiset(b[0]) + InTable(b[1..])
  }

  lemma {:induction false} InTableReplace<T>(b: seq<seq<T>>, i: nat, s: seq<T>)
    requires i < |b|
    ensures InTable(b[i := s]) + multiset(b[i]) == InTable(b) + multiset(s)
    decreases |b|
  {
    if i > 0 {
      InTableReplace(b[1..], i - 1, s);
      assert b[i := s][1..] == b[1..][i - 1 := s];
      var old1, new1 := InTable(b[1..]), InTable(b[1..][i - 1 := s]);
      var h := multiset(b[0]);
      assert (h + new1) + multiset(b[i]) == h + (new1 + multiset(b[i]));
      assert (h + old1) + multiset(s) == h + (old1 + multiset(s));
    } else {
      assert b[i := s][1..] == b[1..];
    }
  }

  lemma {:induction false} InTableBucket<T>(b: seq<seq<T>>, i: nat)
    requires i < |b|
    ensures multiset(b[i]) <= InTable(b)
    decreases |b|
  {
    if i > 0 {
      InTableBucket(b[1..], i - 1);
    }
  }

  lemma {:induction false} BucketOf<T>(b: seq<seq<T>>, r: T) returns (i: nat)
    requires r in InTable(b)
    ensures i < |b| && r in b[i]
    decreases |b|
  {
    if r in b[0] {
      i := 0;
    } else {
      i := BucketOf(b[1..], r);
      i := i + 1;
    }
  }

  lemma {:induction false} AllEmpty<T>(b: seq<seq<T>>)
    requires forall i :: 0 <= i < |b| ==> b[i] == []
    ensures InTable(b) == multiset{}
    decreases |b|
  {
    if b != [] {
      AllEmpty(b[1..]);
    }
  }

  lemma SplitSeq<T>(s: seq<T>, k: nat)
    requires k < |s|
    ensures multiset(s) == multiset(s[..k] + s[k + 1..]) + multiset{s[k]}
  {
    assert s == s[..k] + [s[k]] + s[k + 1..];
  }

  lemma JoinSeq<T>(s: seq<T>, k: nat, r: T)
    requires k <= |s|
    ensures multiset(s[..k] + [r] + s[k..]) == multiset(s) + multiset{r}
  {
    assert s == s[..k] + s[k..];
  }

  /** The lists with one element unlinked from its list. */
  function Taken<T>(b: seq<seq<T>>, i: nat, k: nat): seq<seq<T>>
    requires i < |b| && k < |b[i]|
  {
    b[i := b[i][..k] + b[i][k + 1..]]
  }

  lemma InTableTake<T>(b: seq<seq<T>>, i: nat, k: nat)
    requires i < |b| && k < |b[i]|
    ensures b[i][k] in InTable(b)
    ensures InTable(Taken(b, i, k)) == InTable(b) - multiset{b[i][k]}
    ensures |InTable(Taken(b, i, k))| == |InTable(b)| - 1
  {
    var s := b[i][..k] + b[i][k + 1..];
    InTableReplace(b, i, s);
    SplitSeq(b[i], k);
    InTableBucket(b, i);
    assert b[i][k] in multiset(b[i]);
    OneGone(InTable(b), InTable(b[i := s]), multiset(b[i]), multiset(s), b[i][k]);
  }

  lemma OneGone<T>(all: multiset<T>, all': multiset<T>, l: multiset<T>, l': multiset<T>, x: T)
    requires all' + l == all + l' && l == l' + multiset{x} && l <= all
    ensures x in all && all' == all - multiset{x} && |all'| == |all| - 1
  {
    assert all' + multiset{x} + l' == all + l';
    Cancel(all' + multiset{x}, all, l');
  }

  lemma Cancel<T>(a: multiset<T>, b: multiset<T>, c: multiset<T>)
    requires a + c == b + c
    ensures a == b
  {
    forall r ensures a[r] == b[r] {
      assert (a + c)[r] == (b + c)[r];
    }
  }
}
