/** The fd and bk pointers of the bins, and the sequences they stand for (gclib/dlmalloc.c). */
module BinLinks {
  import opened Heap
  import opened Lists

  /** A list is circular through its bin header. */
  datatype Node = Bin(number: nat) | Chunk(addr: nat)

  type Pointers = map<Node, Node>

  /** Position 0 and the position after the last chunk are the header. */
  function At(i: nat, l: seq<nat>, j: nat): Node
    requires j <= |l| + 1
  {
    if j == 0 || j == |l| + 1 then Bin(i) else Chunk(l[j - 1])
  }

  /** x->fd == y and y->bk == x */
  predicate Linked(fd: Pointers, bk: Pointers, x: Node, y: Node) {
    x in fd && fd[x] == y && y in bk && bk[y] == x
  }

  predicate Link(fd: Pointers, bk: Pointers, i: nat, l: seq<nat>, j: nat)
    requires j <= |l|
  {
    Linked(fd, bk, At(i, l, j), At(i, l, j + 1))
  }

  ghost predicate Ring(fd: Pointers, bk: Pointers, i: nat, l: seq<nat>) {
    forall j {:trigger Link(fd, bk, i, l, j)} :: 0 <= j <= |l| ==> Link(fd, bk, i, l, j)
  }

  /** The pointers are the doubly linked lists of all bins. */
  ghost predicate Rings(fd: Pointers, bk: Pointers, bins: seq<seq<nat>>) {
    forall i {:trigger Ring(fd, bk, i, bins[i])} :: 1 <= i < |bins| ==> Ring(fd, bk, i, bins[i])
  }

  /** No chunk is in two places. */
  ghost predicate Separate(bins: seq<seq<nat>>) {
    forall i, k, i', k' :: 0 <= i < |bins| && 0 <= k < |bins[i]| && 0 <= i' < |bins| && 0 <= k' < |bins[i']| ==>
        bins[i][k] == bins[i'][k'] ==> i == i' && k == k'
  }

  lemma NoRepeatsSeparate(bins: seq<seq<nat>>)
    requires NoRepeats(InTable(bins))
    ensures Separate(bins)
  {
    forall i, k, i', k' | 0 <= i < |bins| && 0 <= k < |bins[i]| && 0 <= i' < |bins| && 0 <= k' < |bins[i']|
      && bins[i][k] == bins[i'][k'] ensures i == i' && k == k'
    {
      OnePlace(bins, i, k, i', k');
    }
  }

  lemma OnePlace(bins: seq<seq<nat>>, i: nat, k: nat, i': nat, k': nat)
    requires NoRepeats(InTable(bins)) && i < |bins| && k < |bins[i]| && i' < |bins| && k' < |bins[i']|
    requires bins[i][k] == bins[i'][k']
    ensures i == i' && k == k'
  {
    assert InTable(bins) + multiset{} == InTable(bins);
    ListedTake(bins, multiset{}, i, k);
    if i != i' || k != k' {
      StillThere(bins, i, k, i', k');
    }
  }

  lemma StillThere(bins: seq<seq<nat>>, i: nat, k: nat, i': nat, k': nat)
    requires i < |bins| && k < |bins[i]| && i' < |bins| && k' < |bins[i']| && (i != i' || k != k')
    ensures bins[i'][k'] in Listed(Taken<nat>(bins, i, k))
  {
    var rest := Taken<nat>(bins, i, k);
    InTableBucket(rest, i');
    var n := if i == i' && k < k' then k' - 1 else k';
    assert rest[i'][n] == bins[i'][k'] && rest[i'][n] in multiset(rest[i']);
  }

  /** Nodes of the rings are at one place only. */
  lemma NodePlace(bins: seq<seq<nat>>, i: nat, j: nat, i': nat, j': nat)
    requires Separate(bins) && i < |bins| && i' < |bins| && j <= |bins[i]| && j' <= |bins[i']|
    requires At(i, bins[i], j) == At(i', bins[i'], j')
    ensures i == i' && j == j'
  {
  }

  /** The same for the places 1 to the header after the last chunk. */
  lemma NextPlace(bins: seq<seq<nat>>, i: nat, j: nat, i': nat, j': nat)
    requires Separate(bins) && i < |bins| && i' < |bins| && j <= |bins[i]| && j' <= |bins[i']|
    requires At(i, bins[i], j + 1) == At(i', bins[i'], j' + 1)
    ensures i == i' && j == j'
  {
  }

  class Links {
    var fd: Pointers
    var bk: Pointers

    /** unlink(P, BK, FD): takes a chunk out of its list. */
    method Unlink(p: nat, ghost bins: seq<seq<nat>>, ghost i: nat, ghost k: nat)
      requires Rings(fd, bk, bins) && Separate(bins) && 1 <= i < |bins| && k < |bins[i]| && bins[i][k] == p
      modifies this
      ensures Rings(fd, bk, Taken<nat>(bins, i, k))
    {
      var x := Chunk(p);
      TwoLinks(fd, bk, bins, i, k);
      var f, b := fd[x], bk[x];
      UnlinkRings(fd, bk, bins, i, k);
      bk := bk[f := b];
      fd := fd[b := f];
    }

    /** A remainder becomes the only chunk of a list, whatever was on it. */
    method Reset(p: nat, ghost bins: seq<seq<nat>>, i: nat)
      requires Rings(fd, bk, bins) && 1 <= i < |bins|
      requires forall n, k :: 0 <= n < |bins| && 0 <= k < |bins[n]| && n != i ==> bins[n][k] != p
      modifies this
      ensures Rings(fd, bk, bins[i := [p]])
    {
      ResetRings(fd, bk, bins, i, p);
      bk, fd := bk[Bin(i) := Chunk(p)], fd[Bin(i) := Chunk(p)];
      bk, fd := bk[Chunk(p) := Bin(i)], fd[Chunk(p) := Bin(i)];
    }

    /** Links a chunk between two neighbours of a list. */
    method Insert(p: nat, bck: Node, fwd: Node, ghost bins: seq<seq<nat>>, ghost i: nat, ghost k: nat)
      requires Rings(fd, bk, bins) && Separate(bins) && 1 <= i < |bins| && k <= |bins[i]|
      requires bck == At(i, bins[i], k) && fwd == At(i, bins[i], k + 1)
      requires forall i, k :: 0 <= i < |bins| && 0 <= k < |bins[i]| ==> bins[i][k] != p
      modifies this
      ensures Rings(fd, bk, Put(bins, i, k, p))
    {
      var x := Chunk(p);
      InsertRings(fd, bk, bins, i, k, p);
      bk := bk[x := bck];
      fd := fd[x := fwd];
      bk := bk[fwd := x];
      fd := fd[bck := x];
    }
  }

  /** Sound states have each free chunk on one list, at one place. */
  lemma SoundSeparate(s: State)
    requires Sound(s)
    ensures Separate(s.bins)
  {
    hide InTable, NoRepeats;
    WithoutFast(InTable(s.bins), InTable(s.fast));
    NoRepeatsSeparate(s.bins);
  }

  lemma WithoutFast(a: multiset<nat>, b: multiset<nat>)
    requires NoRepeats(a + b)
    ensures NoRepeats(a)
  {
    forall p | p in a ensures a[p] == 1 {
      assert (a + b)[p] == a[p] + b[p];
    }
  }

  /** So have the states within a release, and a chunk that was unlinked, or fused with one that was, may be linked. */
  lemma TrimmedSeparate(s: State, bins: seq<seq<nat>>, gone: set<nat>, p: nat)
    requires Trimmed(s, bins, gone)
    ensures Separate(bins)
    ensures p in gone ==> forall i, k :: 0 <= i < |bins| && 0 <= k < |bins[i]| ==> bins[i][k] != p
  {
    hide InTable, NoRepeats;
    WithoutFast(InTable(bins), InTable(s.fast));
    NoRepeatsSeparate(bins);
    forall i, k | 0 <= i < |bins| && 0 <= k < |bins[i]| ensures bins[i][k] in Listed(bins) {
      InTableBucket(bins, i);
      assert bins[i][k] in multiset(bins[i]);
    }
  }

  lemma ResetRings(fd: Pointers, bk: Pointers, bins: seq<seq<nat>>, i: nat, p: nat)
    requires Rings(fd, bk, bins) && 1 <= i < |bins|
    requires forall n, k :: 0 <= n < |bins| && 0 <= k < |bins[n]| && n != i ==> bins[n][k] != p
    ensures Rings(fd[Bin(i) := Chunk(p)][Chunk(p) := Bin(i)], bk[Bin(i) := Chunk(p)][Chunk(p) := Bin(i)],
                  bins[i := [p]])
  {
    var bins' := bins[i := [p]];
    var fd', bk' := fd[Bin(i) := Chunk(p)][Chunk(p) := Bin(i)], bk[Bin(i) := Chunk(p)][Chunk(p) := Bin(i)];
    forall n | 1 <= n < |bins'| ensures Ring(fd', bk', n, bins'[n]) {
      assert Ring(fd, bk, n, bins[n]);
      forall j | 0 <= j <= |bins'[n]| ensures Link(fd', bk', n, bins'[n], j) {
        assert n != i ==> Link(fd, bk, n, bins[n], j);
      }
    }
  }

  /** A chunk of a list and its neighbours. */
  lemma TwoLinks(fd: Pointers, bk: Pointers, bins: seq<seq<nat>>, i: nat, k: nat)
    requires Rings(fd, bk, bins) && 1 <= i < |bins| && k < |bins[i]|
    ensures var l := bins[i];
      Linked(fd, bk, At(i, l, k), Chunk(l[k])) && Linked(fd, bk, Chunk(l[k]), At(i, l, k + 2))
  {
    assert Ring(fd, bk, i, bins[i]);
    assert Link(fd, bk, i, bins[i], k) && Link(fd, bk, i, bins[i], k + 1);
  }

  lemma UnlinkRings(fd: Pointers, bk: Pointers, bins: seq<seq<nat>>, i: nat, k: nat)
    requires Rings(fd, bk, bins) && Separate(bins) && 1 <= i < |bins| && k < |bins[i]|
    ensures var l := bins[i];
      Rings(fd[At(i, l, k) := At(i, l, k + 2)], bk[At(i, l, k + 2) := At(i, l, k)], Taken<nat>(bins, i, k))
  {
    var l := bins[i];
    var bins' := Taken<nat>(bins, i, k);
    var fd', bk' := fd[At(i, l, k) := At(i, l, k + 2)], bk[At(i, l, k + 2) := At(i, l, k)];
    forall n | 1 <= n < |bins'| ensures Ring(fd', bk', n, bins'[n]) {
      assert Ring(fd, bk, n, bins[n]);
      forall j | 0 <= j <= |bins'[n]| ensures Link(fd', bk', n, bins'[n], j) {
        UnlinkLink(fd, bk, bins, i, k, n, j);
      }
    }
  }

  lemma UnlinkLink(fd: Pointers, bk: Pointers, bins: seq<seq<nat>>, i: nat, k: nat, n: nat, j: nat)
    requires Separate(bins) && 1 <= i < |bins| && k < |bins[i]| && 1 <= n < |bins| && Ring(fd, bk, n, bins[n])
    requires j <= |Taken<nat>(bins, i, k)[n]|
    ensures var l := bins[i];
      Link(fd[At(i, l, k) := At(i, l, k + 2)], bk[At(i, l, k + 2) := At(i, l, k)], n, Taken<nat>(bins, i, k)[n], j)
  {
    var l, l' := bins[i], Taken<nat>(bins, i, k)[n];
    if n != i || j != k {
      var o := if n == i && j > k then j + 1 else j;
      assert Link(fd, bk, n, bins[n], o);
      assert At(n, l', j) == At(n, bins[n], o) && At(n, l', j + 1) == At(n, bins[n], o + 1);
      if At(n, bins[n], o) == At(i, l, k) {
        NodePlace(bins, n, o, i, k);
      }
      if At(n, bins[n], o + 1) == At(i, l, k + 2) {
        NextPlace(bins, n, o, i, k + 1);
      }
    }
  }

  lemma InsertRings(fd: Pointers, bk: Pointers, bins: seq<seq<nat>>, i: nat, k: nat, p: nat)
    requires Rings(fd, bk, bins) && Separate(bins) && 1 <= i < |bins| && k <= |bins[i]|
    requires forall i, k :: 0 <= i < |bins| && 0 <= k < |bins[i]| ==> bins[i][k] != p
    ensures var x, bck, fwd := Chunk(p), At(i, bins[i], k), At(i, bins[i], k + 1);
      Rings(fd[x := fwd][bck := x], bk[x := bck][fwd := x], Put(bins, i, k, p))
  {
    var x, bck, fwd := Chunk(p), At(i, bins[i], k), At(i, bins[i], k + 1);
    var bins', fd', bk' := Put(bins, i, k, p), fd[x := fwd][bck := x], bk[x := bck][fwd := x];
    forall n | 1 <= n < |bins'| ensures Ring(fd', bk', n, bins'[n]) {
      assert Ring(fd, bk, n, bins[n]);
      forall j | 0 <= j <= |bins'[n]| ensures Link(fd', bk', n, bins'[n], j) {
        InsertLink(fd, bk, bins, i, k, p, n, j);
      }
    }
  }

  lemma InsertLink(fd: Pointers, bk: Pointers, bins: seq<seq<nat>>, i: nat, k: nat, p: nat, n: nat, j: nat)
    requires Separate(bins) && 1 <= i < |bins| && k <= |bins[i]| && 1 <= n < |bins| && Ring(fd, bk, n, bins[n])
    requires forall i, k :: 0 <= i < |bins| && 0 <= k < |bins[i]| ==> bins[i][k] != p
    requires j <= |Put(bins, i, k, p)[n]|
    ensures var x, bck, fwd := Chunk(p), At(i, bins[i], k), At(i, bins[i], k + 1);
      Link(fd[x := fwd][bck := x], bk[x := bck][fwd := x], n, Put(bins, i, k, p)[n], j)
  {
    var l' := Put(bins, i, k, p)[n];
    if n != i || (j != k && j != k + 1) {
      var o := if n == i && j > k then j - 1 else j;
      assert Link(fd, bk, n, bins[n], o);
      assert At(n, l', j) == At(n, bins[n], o) && At(n, l', j + 1) == At(n, bins[n], o + 1);
      if At(n, bins[n], o) == At(i, bins[i], k) {
        NodePlace(bins, n, o, i, k);
      }
      if At(n, bins[n], o + 1) == At(i, bins[i], k + 1) {
        NextPlace(bins, n, o, i, k);
      }
    }
  }
}
