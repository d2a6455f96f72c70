/** States of the allocator and what each small step of it does to them (gclib/dlmalloc.c). */
module Heap {
  import opened BitSets
  import opened Bins
  import opened Chunks
  import opened Lists

  /** struct malloc_state with the memory it manages: boundary tags, bins (number 1 is the unsorted one), fast
      bins, bin map, the arena [base, end) ending with the chunk `top`, and the flag have_fastchunks. */
  datatype State = State(head: Heads, foot: Feet, bins: seq<seq<nat>>, fast: seq<seq<nat>>, binmap: Row,
                         base: nat, top: nat, end: nat, haveFast: bool)

  ghost function Listed(b: seq<seq<nat>>): set<nat> {
    set p | p in InTable(b)
  }

  ghost predicate NoRepeats(m: multiset<nat>) {
    forall p :: p in m ==> m[p] == 1
  }

  ghost predicate Empty(l: seq<seq<nat>>) {
    forall i :: 0 <= i < |l| ==> l[i] == []
  }

  /** The invariant: do_check_malloc_state together with the checks of single chunks. The bins hold exactly the
      free chunks, each once; fast chunks count as in use. */
  ghost predicate Sound(s: State) {
    && Arena(s.head, s.foot, Listed(s.bins), s.base, s.top, s.end)
    && NoRepeats(InTable(s.bins) + InTable(s.fast)) && s.top !in Listed(s.fast)
    && Binned(s.head, s.bins) && FastBinned(s.head, s.fast) && Marked(s.binmap, s.bins)
    && (!s.haveFast ==> Empty(s.fast))
  }

  ghost function InUse(h: Heads, top: nat, idle: set<nat>): map<nat, nat> {
    map p | p in h && p != top && p !in idle :: h[p].size
  }

  /** The chunks the client holds, with their sizes. */
  ghost function Used(s: State): map<nat, nat> {
    InUse(s.head, s.top, Listed(s.bins) + Listed(s.fast))
  }

  // ---------- lists ----------

  function Put(b: seq<seq<nat>>, i: nat, k: nat, p: nat): seq<seq<nat>>
    requires i < |b| && k <= |b[i]|
  {
    b[i := b[i][..k] + [p] + b[i][k..]]
  }

  lemma ListedTake(b: seq<seq<nat>>, g: multiset<nat>, i: nat, k: nat)
    requires i < |b| && k < |b[i]| && NoRepeats(InTable(b) + g)
    ensures b[i][k] in Listed(b) && b[i][k] !in g
    ensures Listed(Taken<nat>(b, i, k)) == Listed(b) - {b[i][k]}
    ensures NoRepeats(InTable(Taken<nat>(b, i, k)) + g)
    ensures InTable(Taken<nat>(b, i, k)) + multiset{b[i][k]} == InTable(b)
  {
    InTableTake(b, i, k);
    hide InTable, Taken;
    OneLess(InTable(b), InTable(Taken<nat>(b, i, k)), g, b[i][k]);
  }

  lemma OneLess(m: multiset<nat>, m': multiset<nat>, g: multiset<nat>, p: nat)
    requires p in m && m' == m - multiset{p} && NoRepeats(m + g)
    ensures p !in g && NoRepeats(m' + g) && m' + multiset{p} == m && forall q :: q in m' <==> q in m && q != p
  {
    assert (m + g)[p] == m[p] + g[p];
    forall q | q in m' + g ensures (m' + g)[q] == 1 {
      assert (m + g)[q] == m[q] + g[q] && q in m + g;
    }
  }

  lemma ListedPut(b: seq<seq<nat>>, g: multiset<nat>, i: nat, k: nat, p: nat)
    requires i < |b| && k <= |b[i]| && NoRepeats(InTable(b) + g) && p !in InTable(b) + g
    ensures Listed(Put(b, i, k, p)) == Listed(b) + {p}
    ensures NoRepeats(InTable(Put(b, i, k, p)) + g)
    ensures InTable(Put(b, i, k, p)) == InTable(b) + multiset{p}
  {
    var s := b[i][..k] + [p] + b[i][k..];
    InTableReplace(b, i, s);
    JoinSeq(b[i], k, p);
    var m, m' := InTable(b), InTable(b[i := s]);
    hide InTable;
    Cancel(m', m + multiset{p}, multiset(b[i]));
    forall q | q in m' + g ensures (m' + g)[q] == 1 {
      assert (m' + g)[q] == (m + g)[q] + multiset{p}[q];
    }
  }

  lemma BinnedFrame(h: Heads, h': Heads, bins: seq<seq<nat>>)
    requires Binned(h, bins) && forall p :: p in Listed(bins) ==> p in h' && p in h && h'[p].size == h[p].size
    ensures Binned(h', bins)
  {
    forall i | 2 <= i < NBINS ensures BinOk(h', bins[i], i) {
      assert BinOk(h, bins[i], i);
      InTableBucket(bins, i);
      assert forall p :: p in bins[i] ==> p in multiset(bins[i]) && p in Listed(bins);
    }
  }

  lemma FastFrame(h: Heads, h': Heads, fast: seq<seq<nat>>)
    requires FastBinned(h, fast) && forall p :: p in Listed(fast) ==> p in h' && p in h && h'[p].size == h[p].size
    ensures FastBinned(h', fast)
  {
    forall i | 0 <= i < NFASTBINS ensures FastBinOk(h', fast[i], i) {
      assert FastBinOk(h, fast[i], i);
      InTableBucket(fast, i);
      assert forall p :: p in fast[i] ==> p in multiset(fast[i]) && p in Listed(fast);
    }
  }

  lemma BinnedReplace(h: Heads, bins: seq<seq<nat>>, i: nat, l: seq<nat>)
    requires Binned(h, bins) && 1 <= i < NBINS && (i >= 2 ==> BinOk(h, l, i))
    ensures Binned(h, bins[i := l])
  {
    hide BinOk;
    var bins' := bins[i := l];
    forall j | 2 <= j < NBINS ensures BinOk(h, bins'[j], j) {
      assert BinOk(h, bins[j], j);
    }
  }

  lemma BinnedTake(h: Heads, bins: seq<seq<nat>>, i: nat, k: nat)
    requires Binned(h, bins) && 1 <= i < NBINS && k < |bins[i]|
    ensures Binned(h, Taken<nat>(bins, i, k))
  {
    if i >= 2 {
      assert BinOk(h, bins[i], i);
      DropBinOk(h, bins[i], i, k);
    }
    BinnedReplace(h, bins, i, bins[i][..k] + bins[i][k + 1..]);
  }

  lemma FastReplace(h: Heads, fast: seq<seq<nat>>, i: nat, l: seq<nat>)
    requires FastBinned(h, fast) && i < NFASTBINS && FastBinOk(h, l, i)
    ensures FastBinned(h, fast[i := l])
  {
    hide FastBinOk;
    var fast' := fast[i := l];
    forall j | 0 <= j < NFASTBINS ensures FastBinOk(h, fast'[j], j) {
      assert FastBinOk(h, fast[j], j);
    }
  }

  lemma NotBoth(a: multiset<nat>, b: multiset<nat>, p: nat)
    requires NoRepeats(a + b)
    ensures !(p in a && p in b)
  {
    assert (a + b)[p] == a[p] + b[p];
  }

  /** A chunk on a fast bin is in use as far as the tags go. */
  lemma FastChunk(s: State, p: nat)
    requires Sound(s) && p in Listed(s.fast)
    ensures p in s.head && p != s.top && p !in Listed(s.bins) && s.head[p].size <= MAX_FAST
  {
    hide Arena, Binned, Marked;
    var i := BucketOf(s.fast, p);
    assert FastBinOk(s.head, s.fast[i], i);
    NotBoth(InTable(s.bins), InTable(s.fast), p);
  }

  lemma FreeChunk(s: State, p: nat)
    requires Sound(s) && p in Listed(s.bins)
    ensures p in s.head && p != s.top && p !in Listed(s.fast) && s.head[p].pinuse && Next(s.head, p) in s.head
  {
    hide Binned, FastBinned, Marked, Tiles;
    FollowsUsed(s.head, s.foot, Listed(s.bins), s.base, s.top, s.end, p);
    assert TagOk(s.head, s.foot, Listed(s.bins), s.top, p);
    NotBoth(InTable(s.bins), InTable(s.fast), p);
  }

  lemma SizeOk(s: State, p: nat)
    requires Sound(s) && p in s.head
    ensures Aligned(s.head[p].size)
  {
    assert Placed(s.head, s.base, s.top, p);
  }

  // ---------- fast bins ----------

  /** Popping a fast bin hands its chunk to the client. */
  lemma PopFast(s: State, i: nat)
    requires Sound(s) && i < NFASTBINS && s.fast[i] != []
    ensures var p := s.fast[i][0];
      && p in s.head && p !in Used(s) && Sound(s.(fast := s.fast[i := s.fast[i][1..]]))
      && Used(s.(fast := s.fast[i := s.fast[i][1..]])) == Used(s)[p := s.head[p].size]
  {
    hide Arena, Binned, Marked, InTable;
    var p, fast' := s.fast[i][0], s.fast[i := s.fast[i][1..]];
    assert s.fast[i][..0] + s.fast[i][1..] == s.fast[i][1..];
    NoRepeatsSwap(InTable(s.bins), InTable(s.fast));
    ListedTake(s.fast, InTable(s.bins), i, 0);
    FastChunk(s, p);
    NoRepeatsSwap(InTable(fast'), InTable(s.bins));
    assert FastBinOk(s.head, s.fast[i], i);
    FastReplace(s.head, s.fast, i, s.fast[i][1..]);
  }

  lemma NoRepeatsSwap(a: multiset<nat>, b: multiset<nat>)
    requires NoRepeats(a + b)
    ensures NoRepeats(b + a)
  {
    assert a + b == b + a;
  }

  /** Freeing into a fast bin takes the chunk from the client. */
  lemma PushFast(s: State, p: nat)
    requires Sound(s) && p in Used(s) && s.head[p].size <= MAX_FAST
    ensures var i := FastIndex(s.head[p].size);
      && 0 <= i < NFASTBINS && i < |s.fast|
      && Sound(s.(fast := s.fast[i := [p] + s.fast[i]], haveFast := true))
      && Used(s.(fast := s.fast[i := [p] + s.fast[i]], haveFast := true)) == Used(s) - {p}
  {
    SizeOk(s, p);
    hide Arena, Binned, Marked, InTable, NoRepeats, FastBinned;
    var i := FastIndex(s.head[p].size);
    var fast' := s.fast[i := [p] + s.fast[i]];
    assert s.fast[i][..0] + [p] + s.fast[i][0..] == [p] + s.fast[i];
    NoRepeatsSwap(InTable(s.bins), InTable(s.fast));
    ListedPut(s.fast, InTable(s.bins), i, 0, p);
    NoRepeatsSwap(InTable(fast'), InTable(s.bins));
    FastPush(s.head, s.fast, i, p);
    hide Listed;
  }

  lemma FastPush(h: Heads, fast: seq<seq<nat>>, i: nat, p: nat)
    requires FastBinned(h, fast) && i < NFASTBINS && p in h && h[p].size <= MAX_FAST && FastIndex(h[p].size) == i
    ensures FastBinned(h, fast[i := [p] + fast[i]])
  {
    assert FastBinOk(h, fast[i], i);
    FastReplace(h, fast, i, [p] + fast[i]);
  }

  lemma FlagUp(s: State)
    requires Sound(s)
    ensures Sound(s.(haveFast := true)) && Used(s.(haveFast := true)) == Used(s)
  {
  }

  /** No chunk is small enough a fast chunk for the last two fast bins; with the others empty the flag may go. */
  lemma HighFastEmpty(s: State)
    requires Sound(s) && forall i :: 0 <= i <= 8 && i < |s.fast| ==> s.fast[i] == []
    ensures Empty(s.fast) && Sound(s.(haveFast := false)) && Used(s.(haveFast := false)) == Used(s)
  {
    hide Arena, Binned, Marked, InTable, NoRepeats;
    forall i | 0 <= i < |s.fast| ensures s.fast[i] == [] {
      assert FastBinOk(s.head, s.fast[i], i);
      FirstIn(s.fast[i]);
    }
  }

  lemma FirstIn(l: seq<nat>)
    ensures l != [] ==> l[0] in l
  {
  }

  // ---------- allocating ----------

  /** A whole free chunk is unlinked and marked in use. */
  lemma TakeChunk(s: State, i: nat, k: nat)
    requires Sound(s) && 1 <= i < NBINS && k < |s.bins[i]|
    ensures var p := s.bins[i][k];
      && p in s.head && Next(s.head, p) in s.head && p !in Used(s)
      && var n := Next(s.head, p);
      var s' := s.(bins := Taken<nat>(s.bins, i, k), head := s.head[n := s.head[n].(pinuse := true)]);
      Sound(s') && Used(s') == Used(s)[p := s.head[p].size] && s'.head[p].pinuse
  {
    hide Arena, InTable, Taken, BinOk, FastBinOk, Sorted, TestRow, Packed;
    var p, bins' := s.bins[i][k], Taken<nat>(s.bins, i, k);
    ListedTake(s.bins, InTable(s.fast), i, k);
    FreeChunk(s, p);
    Take(s.head, s.foot, Listed(s.bins), s.base, s.top, s.end, p);
    var n := Next(s.head, p);
    var h' := s.head[n := s.head[n].(pinuse := true)];
    BinnedTake(s.head, s.bins, i, k);
    TakenLists(s, h', bins');
    MarkedTake(s.binmap, s.bins, i, k);
    InUseTake(s.head, h', s.top, Listed(s.bins) + Listed(s.fast), p);
    assert Listed(bins') + Listed(s.fast) == Listed(s.bins) + Listed(s.fast) - {p};
  }

  /** Sizes in lists are untouched when only sizes of other chunks change. */
  lemma TakenLists(s: State, h': Heads, bins': seq<seq<nat>>)
    requires Sound(s) && Binned(s.head, bins') && Listed(bins') <= Listed(s.bins)
    requires forall p :: p in Listed(bins') + Listed(s.fast) && p in s.head ==> p in h' && h'[p].size == s.head[p].size
    ensures Binned(h', bins') && FastBinned(h', s.fast)
  {
    hide Arena, Marked, Binned, FastBinned, InTable, Empty;
    forall p | p in Listed(s.fast) ensures p in s.head {
      FastChunk(s, p);
    }
    forall p | p in Listed(bins') ensures p in s.head {
      FreeChunk(s, p);
    }
    BinnedFrame(s.head, h', bins');
    FastFrame(s.head, h', s.fast);
  }

  lemma MarkedTake(binmap: Row, bins: seq<seq<nat>>, i: nat, k: nat)
    requires Marked(binmap, bins) && i < NBINS && k < |bins[i]|
    ensures Marked(binmap, Taken<nat>(bins, i, k))
  {
    hide TestRow;
    var bins' := Taken<nat>(bins, i, k);
    forall j | 2 <= j < NBINS && bins'[j] != [] ensures TestRow(binmap, j) {
      assert bins[j] != [];
    }
  }

  lemma InUseTake(h: Heads, h': Heads, top: nat, idle: set<nat>, p: nat)
    requires h'.Keys == h.Keys && (forall q :: q in h ==> h'[q].size == h[q].size) && p in idle && p in h && p != top
    ensures p !in InUse(h, top, idle) && InUse(h', top, idle - {p}) == InUse(h, top, idle)[p := h[p].size]
  {
  }

  /** A free chunk is unlinked and split: the client gets the front, and the rest becomes the only chunk of the
      unsorted bin, which was empty. */
  lemma SplitChunk(s: State, i: nat, k: nat, n: nat)
    requires Sound(s) && 1 <= i < NBINS && k < |s.bins[i]| && Taken<nat>(s.bins, i, k)[UNSORTED] == []
    requires s.bins[i][k] in s.head && Aligned(n) && n + MINSIZE <= s.head[s.bins[i][k]].size
    ensures var p := s.bins[i][k];
      var r, rest := p + n, s.head[p].size - n;
      var s' := s.(bins := Taken<nat>(s.bins, i, k)[UNSORTED := [r]], head := Split(s.head, p, n),
                   foot := s.foot[Next(s.head, p) := rest]);
      p !in Used(s) && Sound(s') && Used(s') == Used(s)[p := n] && s'.head[p].pinuse
  {
    hide Arena, InTable, Taken, BinOk, FastBinOk, Sorted, TestRow, Packed;
    var p, mid := s.bins[i][k], Taken<nat>(s.bins, i, k);
    var r, h' := p + n, Split(s.head, p, n);
    ListedTake(s.bins, InTable(s.fast), i, k);
    FreeChunk(s, p);
    TakeFront(s.head, s.foot, Listed(s.bins), s.base, s.top, s.end, p, n);
    BinnedTake(s.head, s.bins, i, k);
    TakenLists(s, h', mid);
    MarkedTake(s.binmap, s.bins, i, k);
    NotListed(s, r);
    TopNotListed(s);
    PutUnsorted(h', s.binmap, mid, InTable(s.fast), r);
    assert [r] + mid[UNSORTED] == [r];
    assert Listed(mid[UNSORTED := [r]]) == Listed(s.bins) - {p} + {r};
    InUseSplit(s.head, s.top, Listed(s.bins) + Listed(s.fast), p, n);
    assert Listed(mid[UNSORTED := [r]]) + Listed(s.fast) == Listed(s.bins) + Listed(s.fast) - {p} + {r};
  }

  lemma NotListed(s: State, r: nat)
    requires Sound(s) && r !in s.head
    ensures r !in InTable(s.bins) + InTable(s.fast) && r !in Listed(s.bins) + Listed(s.fast)
  {
    hide Arena, Binned, FastBinned, Marked, InTable;
    if r in Listed(s.bins) {
      FreeChunk(s, r);
    }
    if r in Listed(s.fast) {
      FastChunk(s, r);
    }
  }

  /** Linking a chunk at the front of the unsorted bin. */
  lemma PutUnsorted(h: Heads, binmap: Row, bins: seq<seq<nat>>, g: multiset<nat>, r: nat)
    requires Binned(h, bins) && Marked(binmap, bins) && NoRepeats(InTable(bins) + g) && r !in InTable(bins) + g
    ensures var bins' := bins[UNSORTED := [r] + bins[UNSORTED]];
      && Listed(bins') == Listed(bins) + {r} && NoRepeats(InTable(bins') + g)
      && Binned(h, bins') && Marked(binmap, bins')
  {
    hide TestRow;
    var l := bins[UNSORTED];
    ListedPut(bins, g, UNSORTED, 0, r);
    assert l[..0] + [r] + l[0..] == [r] + l;
    BinnedReplace(h, bins, UNSORTED, [r] + l);
  }

  lemma InUseSplit(h: Heads, top: nat, idle: set<nat>, p: nat, n: nat)
    requires p in h && n <= h[p].size && n > 0 && p in idle && p != top && p + n !in h && p + n != top
    ensures p !in InUse(h, top, idle) && InUse(Split(h, p, n), top, idle - {p} + {p + n}) == InUse(h, top, idle)[p := n]
  {
  }

  /** The front of the top goes to the client. */
  lemma SplitTop(s: State, n: nat)
    requires Sound(s) && s.top in s.head && Aligned(n) && n + MINSIZE <= s.head[s.top].size
    ensures var s' := s.(head := Split(s.head, s.top, n), top := s.top + n);
      s.top !in Used(s) && Sound(s') && Used(s') == Used(s)[s.top := n] && s'.head[s.top].pinuse
  {
    hide Arena, InTable, BinOk, FastBinOk, Sorted, TestRow, Packed;
    var h', r := Split(s.head, s.top, n), s.top + n;
    TakeTop(s.head, s.foot, Listed(s.bins), s.base, s.top, s.end, n);
    NotListed(s, r);
    TopNotListed(s);
    TakenLists(s, h', s.bins);
    InUseTop(s.head, s.top, Listed(s.bins) + Listed(s.fast), n);
  }

  lemma NoneIdle(s: State)
    requires Sound(s) && !s.haveFast
    ensures Empty(s.fast)
  {
  }

  lemma TopNotListed(s: State)
    requires Sound(s)
    ensures s.top in s.head && s.top !in Listed(s.bins) + Listed(s.fast)
  {
    hide Binned, FastBinned, Marked, InTable;
    if s.top in Listed(s.bins) {
      FreeChunk(s, s.top);
    }
  }

  lemma InUseTop(h: Heads, top: nat, idle: set<nat>, n: nat)
    requires top in h && n <= h[top].size && n > 0 && top !in idle && top + n !in h
    ensures top !in InUse(h, top, idle) && InUse(Split(h, top, n), top + n, idle) == InUse(h, top, idle)[top := n]
  {
  }

  /** The system lengthens the top. */
  lemma GrowTop(s: State, n: nat)
    requires Sound(s) && n % 16 == 0
    ensures s.top in s.head
    ensures var s' := s.(head := s.head[s.top := Head(s.head[s.top].size + n, true)], end := s.end + n);
      Sound(s') && Used(s') == Used(s)
  {
    hide Arena, InTable, BinOk, FastBinOk, Sorted, TestRow, Packed;
    Grow(s.head, s.foot, Listed(s.bins), s.base, s.top, s.end, n);
    var h' := s.head[s.top := Head(s.head[s.top].size + n, true)];
    TopNotListed(s);
    TakenLists(s, h', s.bins);
    assert InUse(h', s.top, Listed(s.bins) + Listed(s.fast)) == InUse(s.head, s.top, Listed(s.bins) + Listed(s.fast));
  }

  // ---------- binning ----------

  function MarkBin(binmap: Row, i: nat): Row
    requires i < 32 * |binmap|
  {
    binmap[i / 32 := binmap[i / 32] | Bit(i % 32)]
  }

  function UnmarkBin(binmap: Row, i: nat): Row
    requires i < 32 * |binmap|
  {
    binmap[i / 32 := binmap[i / 32] & !Bit(i % 32)]
  }

  /** A chunk moves from the unsorted bin to its place in its regular bin. */
  lemma BinChunk(s: State, k: nat, i: nat, j: nat)
    requires Sound(s) && k < |s.bins[UNSORTED]| && 2 <= i < NBINS && j <= |s.bins[i]| && s.bins[UNSORTED][k] in s.head
    requires BinIndex(s.head[s.bins[UNSORTED][k]].size) == i && i < 32 * |s.binmap|
    requires forall x :: x in s.bins[i] ==> x in s.head
    requires forall x :: 0 <= x < j ==> s.head[s.bins[i][x]].size >= s.head[s.bins[UNSORTED][k]].size
    requires forall x :: j <= x < |s.bins[i]| ==> s.head[s.bins[i][x]].size <= s.head[s.bins[UNSORTED][k]].size
    ensures var mid := Taken<nat>(s.bins, UNSORTED, k);
      var s' := s.(bins := Put(mid, i, j, s.bins[UNSORTED][k]), binmap := MarkBin(s.binmap, i));
      && Sound(s') && Used(s') == Used(s) && Listed(s'.bins) == Listed(s.bins)
  {
    hide Arena, InTable, BinOk, FastBinned, TestRow, Packed, Sorted;
    var p, mid := s.bins[UNSORTED][k], Taken<nat>(s.bins, UNSORTED, k);
    ListedTake(s.bins, InTable(s.fast), UNSORTED, k);
    BinnedTake(s.head, s.bins, UNSORTED, k);
    MarkedTake(s.binmap, s.bins, UNSORTED, k);
    assert BinOk(s.head, s.bins[i], i) && mid[i] == s.bins[i];
    OnceMore(InTable(mid), InTable(s.fast), InTable(s.bins), p);
    PutBin(s.head, s.binmap, mid, InTable(s.fast), i, j, p);
    assert Listed(Put(mid, i, j, p)) == Listed(s.bins);
  }

  lemma OnceMore(mid: multiset<nat>, g: multiset<nat>, m: multiset<nat>, p: nat)
    requires mid + multiset{p} == m && NoRepeats(m + g)
    ensures p !in mid + g
  {
    assert (m + g)[p] == mid[p] + 1 + g[p];
  }

  lemma PutBin(h: Heads, binmap: Row, bins: seq<seq<nat>>, g: multiset<nat>, i: nat, j: nat, p: nat)
    requires Binned(h, bins) && Marked(binmap, bins) && NoRepeats(InTable(bins) + g) && p !in InTable(bins) + g
    requires 2 <= i < NBINS && BinOk(h, bins[i], i) && j <= |bins[i]| && p in h && BinIndex(h[p].size) == i
    requires i < 32 * |binmap| && forall x :: x in bins[i] ==> x in h
    requires forall x :: 0 <= x < j ==> h[bins[i][x]].size >= h[p].size
    requires forall x :: j <= x < |bins[i]| ==> h[bins[i][x]].size <= h[p].size
    ensures var bins' := Put(bins, i, j, p);
      && Listed(bins') == Listed(bins) + {p} && NoRepeats(InTable(bins') + g)
      && Binned(h, bins') && Marked(MarkBin(binmap, i), bins')
  {
    ListedPut(bins, g, i, j, p);
    InsertBinOk(h, bins[i], i, j, p);
    hide BinOk, InTable, TestRow, Packed;
    BinnedReplace(h, bins, i, bins[i][..j] + [p] + bins[i][j..]);
    MarkedPut(binmap, bins, i, j, p);
  }

  lemma MarkedPut(binmap: Row, bins: seq<seq<nat>>, i: nat, j: nat, p: nat)
    requires Marked(binmap, bins) && i < NBINS && j <= |bins[i]| && i < 32 * |binmap|
    ensures Marked(MarkBin(binmap, i), Put(bins, i, j, p))
  {
    SetRow(binmap, NBINS, i);
    hide TestRow;
    assert forall x: nat :: x < NBINS ==> (TestRow(MarkBin(binmap, i), x) <==> x in Members(MarkBin(binmap, i), NBINS));
    assert forall x: nat :: x < NBINS ==> (TestRow(binmap, x) <==> x in Members(binmap, NBINS));
  }

  /** The bit of a bin found empty is cleared. */
  lemma UnmarkEmpty(s: State, i: nat)
    requires Sound(s) && i < NBINS && i < 32 * |s.binmap| && s.bins[i] == []
    ensures Sound(s.(binmap := UnmarkBin(s.binmap, i)))
    ensures Used(s.(binmap := UnmarkBin(s.binmap, i))) == Used(s)
  {
    hide Arena, Binned, FastBinned, InTable, NoRepeats, UnmarkBin;
    UnmarkMarked(s.binmap, s.bins, i);
  }

  lemma UnmarkMarked(m: Row, bins: seq<seq<nat>>, i: nat)
    requires Marked(m, bins) && i < NBINS && i < 32 * |m| && bins[i] == []
    ensures Marked(UnmarkBin(m, i), bins)
  {
    var m' := UnmarkBin(m, i);
    ClearRow(m, NBINS, i);
    hide TestRow, UnmarkBin;
    assert forall x: nat :: x < NBINS ==> (TestRow(m', x) <==> x in Members(m', NBINS));
    assert forall x: nat :: x < NBINS ==> (TestRow(m, x) <==> x in Members(m, NBINS));
  }

  // ---------- releasing ----------

  /** What can be read off the tags around a chunk the client holds. */
  lemma TagsAround(s: State, p: nat)
    requires Sound(s) && p in Used(s)
    ensures p in s.head && p != s.top && p !in Listed(s.bins) && p !in Listed(s.fast) && Next(s.head, p) in s.head
    ensures !s.head[p].pinuse ==> p in s.foot && s.foot[p] <= p && p - s.foot[p] in Listed(s.bins)
    ensures !s.head[p].pinuse ==> p - s.foot[p] in s.head && Next(s.head, p - s.foot[p]) == p
    ensures var n := Next(s.head, p);
      n != s.top ==> Next(s.head, n) in s.head && (n in Listed(s.bins) <==> !s.head[Next(s.head, n)].pinuse)
  {
    hide Binned, FastBinned, Marked, InTable, NoRepeats;
    assert TagOk(s.head, s.foot, Listed(s.bins), s.top, p);
    assert TagOk(s.head, s.foot, Listed(s.bins), s.top, Next(s.head, p));
    if !s.head[p].pinuse {
      FootLeads(s.head, s.foot, Listed(s.bins), s.base, s.top, s.end, p);
    }
  }

  /** The stretch [a, b) that coalescing a chunk with its free neighbours makes. */
  ghost predicate Joins(s: State, p: nat, a: nat, b: nat)
    requires Sound(s) && p in Used(s)
  {
    TagsAround(s, p);
    var n := Next(s.head, p);
    && a == (if s.head[p].pinuse then p else p - s.foot[p])
    && b == (if n == s.top then s.end else if s.head[Next(s.head, n)].pinuse then n else Next(s.head, n))
  }

  /** Besides the chunk itself, the stretch holds its free neighbours, or the top, and nothing else. */
  lemma JoinFacts(s: State, p: nat, a: nat, b: nat)
    requires Sound(s) && p in Used(s) && Joins(s, p, a, b)
    ensures a in s.head && s.head[a].pinuse && a <= p < Next(s.head, p) <= b && Next(s.head, p) in s.head
    ensures a != p ==> a in Listed(s.bins) && Next(s.head, a) == p
    ensures var n := Next(s.head, p);
      && (forall q :: q in s.head && a <= q < b ==> q == a || q == p || q == n)
      && (n == s.top ==> b == s.end && a < s.end)
      && (n != s.top ==> b in s.head && b != s.top && b !in Listed(s.bins))
      && (n != s.top && b != n ==> n in Listed(s.bins) && b == Next(s.head, n) && !s.head[b].pinuse)
  {
    hide Binned, FastBinned, Marked, InTable, NoRepeats;
    TagsAround(s, p);
    var h, free, n := s.head, Listed(s.bins), Next(s.head, p);
    assert Placed(h, s.base, s.top, a) && Placed(h, s.base, s.top, p) && Placed(h, s.base, s.top, n);
    assert TagOk(h, s.foot, free, s.top, p) && TagOk(h, s.foot, free, s.top, n) && TagOk(h, s.foot, free, s.top, a);
    if a != p {
      FollowsUsed(h, s.foot, free, s.base, s.top, s.end, a);
    }
    forall q | q in h && a <= q < b ensures q == a || q == p || q == n {
      InOrder(h, s.base, s.top, s.end, q);
      Between(h, s.base, s.top, s.end, q, a);
      Between(h, s.base, s.top, s.end, q, p);
      Between(h, s.base, s.top, s.end, q, n);
    }
  }

  /** The bins after the chunks of `gone` were unlinked. */
  ghost predicate Trimmed(s: State, bins: seq<seq<nat>>, gone: set<nat>) {
    && Listed(bins) == Listed(s.bins) - gone && NoRepeats(InTable(bins) + InTable(s.fast))
    && Binned(s.head, bins) && Marked(s.binmap, bins)
  }

  lemma TrimmedTake(s: State, bins: seq<seq<nat>>, gone: set<nat>, i: nat, k: nat)
    requires Trimmed(s, bins, gone) && 1 <= i < NBINS && k < |bins[i]|
    ensures Trimmed(s, Taken<nat>(bins, i, k), gone + {bins[i][k]})
  {
    ListedTake(bins, InTable(s.fast), i, k);
    BinnedTake(s.head, bins, i, k);
    MarkedTake(s.binmap, bins, i, k);
    hide Taken, InTable, Binned, Marked, NoRepeats;
    assert Listed(Taken<nat>(bins, i, k)) == Listed(s.bins) - (gone + {bins[i][k]});
  }

  lemma TrimmedStart(s: State)
    requires Sound(s)
    ensures Trimmed(s, s.bins, {})
  {
    hide Arena, FastBinned;
  }

  /** Nothing has to be unlinked for a chunk that is on no bin. */
  lemma TrimmedAlso(s: State, bins: seq<seq<nat>>, gone: set<nat>, x: nat)
    requires Trimmed(s, bins, gone) && x !in Listed(bins)
    ensures Trimmed(s, bins, gone + {x})
  {
    hide Binned, Marked, NoRepeats, InTable;
    assert Listed(s.bins) - gone == Listed(s.bins) - (gone + {x});
  }

  /** A listed chunk is on some bin, never on number 0. */
  lemma WhereListed(s: State, bins: seq<seq<nat>>, gone: set<nat>, p: nat)
    requires Trimmed(s, bins, gone) && p in Listed(bins)
    ensures exists i, k :: 1 <= i < |bins| && 0 <= k < |bins[i]| && bins[i][k] == p
  {
    var i := BucketOf(bins, p);
    var k :| 0 <= k < |bins[i]| && bins[i][k] == p;
    assert 1 <= i < |bins| && bins[i][k] == p;
  }

  function Tied(h: Heads, a: nat, b: nat): Heads
    requires a <= b && b in h
  {
    Fuse(h, a, b)[b := Head(h[b].size, false)]
  }

  /** Coalescing next to chunks in use: the stretch becomes one free chunk on the unsorted bin. */
  lemma ReleaseChunk(s: State, p: nat, a: nat, b: nat, bins: seq<seq<nat>>)
    requires Sound(s) && p in Used(s) && Joins(s, p, a, b) && p in s.head && Next(s.head, p) != s.top
    requires Trimmed(s, bins, {a, Next(s.head, p)})
    ensures a < b && b in s.head
    ensures var s' := s.(head := Tied(s.head, a, b), foot := s.foot[b := b - a],
                         bins := bins[UNSORTED := [a] + bins[UNSORTED]]);
      Sound(s') && Used(s') == Used(s) - {p}
  {
    JoinFacts(s, p, a, b);
    hide Joins, Binned, FastBinned, Marked, InTable, BinOk, FastBinOk, NoRepeats, Tiles, Tagged;
    var free, n, h' := Listed(s.bins), Next(s.head, p), Tied(s.head, a, b);
    Release(s.head, s.foot, free, s.base, s.top, s.end, a, b);
    StretchUnlisted(s, p, a, b);
    assert Listed(bins) == set q | q in free && (q < a || b <= q);
    UntouchedLists(s, bins, h', a, b);
    NewInBins(s, p, a, bins);
    PutUnsorted(h', s.binmap, bins, InTable(s.fast), a);
    UsedLess(s, p, a, b, Listed(bins));
    assert Listed(bins[UNSORTED := [a] + bins[UNSORTED]]) + Listed(s.fast) == Listed(bins) + {a} + Listed(s.fast);
  }

  lemma UsedLess(s: State, p: nat, a: nat, b: nat, free: set<nat>)
    requires Sound(s) && p in Used(s) && Joins(s, p, a, b) && p in s.head && Next(s.head, p) != s.top
    requires free == Listed(s.bins) - {a, Next(s.head, p)}
    ensures a < b && b in s.head
    ensures InUse(Tied(s.head, a, b), s.top, free + {a} + Listed(s.fast)) == Used(s) - {p}
  {
    JoinFacts(s, p, a, b);
    TopNotListed(s);
    StretchUnlisted(s, p, a, b);
    hide Sound, Joins;
    InUseRelease(s.head, Tied(s.head, a, b), s.top, s.top, Listed(s.bins) + Listed(s.fast),
                 free + {a} + Listed(s.fast), p, a, b);
  }

  lemma StretchUnlisted(s: State, p: nat, a: nat, b: nat)
    requires Sound(s) && p in Used(s) && Joins(s, p, a, b)
    ensures forall q :: q in Listed(s.fast) ==> q < a || b <= q
    ensures p in s.head && forall q :: q in Listed(s.bins) && a <= q < b ==> q == a || q == Next(s.head, p)
    ensures a == p ==> a !in Listed(s.bins)
    ensures b == Next(s.head, p) && b != s.end ==> b !in Listed(s.bins)
    ensures forall q :: q in s.head && a <= q < b ==> q == p || q == s.top || q in Listed(s.bins)
  {
    TagsAround(s, p);
    JoinFacts(s, p, a, b);
    hide Joins, Binned, FastBinned, Marked, InTable, NoRepeats, Tiles, Tagged;
    TopNotListed(s);
    forall q | q in Listed(s.fast) ensures q < a || b <= q {
      FastChunk(s, q);
    }
    forall q | q in Listed(s.bins) ensures q in s.head {
      FreeChunk(s, q);
    }
    EndNotHead(s);
  }

  lemma EndNotHead(s: State)
    requires Sound(s)
    ensures s.end !in s.head
  {
    hide Binned, FastBinned, Marked, InTable, NoRepeats, Tagged;
    if s.end in s.head {
      NotEnd(s.head, s.base, s.top, s.end, s.end);
    }
  }

  lemma UntouchedLists(s: State, bins: seq<seq<nat>>, h': Heads, a: nat, b: nat)
    requires Sound(s) && Binned(s.head, bins) && Listed(bins) <= Listed(s.bins)
    requires forall q :: q in Listed(bins) + Listed(s.fast) ==> q < a || b <= q
    requires forall q :: q in s.head && (q < a || b <= q) ==> q in h' && h'[q].size == s.head[q].size
    ensures Binned(h', bins) && FastBinned(h', s.fast)
  {
    hide Binned, FastBinned, Marked, InTable, NoRepeats, Arena;
    TakenLists(s, h', bins);
  }

  lemma NewInBins(s: State, p: nat, a: nat, bins: seq<seq<nat>>)
    requires a !in Listed(bins) && a !in Listed(s.fast)
    ensures a !in InTable(bins) + InTable(s.fast)
  {
  }

  lemma InUseRelease(h: Heads, h': Heads, top: nat, top': nat, idle: set<nat>, idle': set<nat>, p: nat, a: nat, b: nat)
    requires p in h && a <= p < b && a in h && (top' == top || (top' == a && a <= top < b))
    requires forall q :: q in h && a <= q < b ==> q == p || q == top || q in idle
    requires forall q :: q in h' <==> q in h && (q <= a || b <= q)
    requires forall q :: q in h' && q != a ==> h'[q].size == h[q].size
    requires forall q :: q in h' && q != a ==> (q in idle' <==> q in idle)
    requires a in idle' || top' == a
    ensures InUse(h', top', idle') == InUse(h, top, idle) - {p}
  {
  }

  /** Coalescing next to the top: the stretch becomes the top. */
  lemma ReleaseIntoTop(s: State, p: nat, a: nat, b: nat, bins: seq<seq<nat>>)
    requires Sound(s) && p in Used(s) && Joins(s, p, a, b) && p in s.head && Next(s.head, p) == s.top
    requires Trimmed(s, bins, {a})
    ensures a <= s.end && var s' := s.(head := Fuse(s.head, a, s.end), top := a, bins := bins);
      Sound(s') && Used(s') == Used(s) - {p}
  {
    JoinFacts(s, p, a, b);
    hide Joins, Binned, FastBinned, Marked, InTable, BinOk, FastBinOk, NoRepeats, Tiles, Tagged;
    var free, h' := Listed(s.bins), Fuse(s.head, a, s.end);
    ReleaseTop(s.head, s.foot, free, s.base, s.top, s.end, a);
    TopNotListed(s);
    StretchUnlisted(s, p, a, b);
    FreeBelow(s, a, bins);
    EndNotHead(s);
    UntouchedLists(s, bins, h', a, b);
    BelowEnd(s);
    TopAbove(s, a);
    InUseRelease(s.head, h', s.top, a, free + Listed(s.fast), Listed(bins) + Listed(s.fast), p, a, b);
  }

  lemma BelowEnd(s: State)
    requires Sound(s)
    ensures forall q :: q in s.head ==> q < s.end
  {
    hide Binned, FastBinned, Marked, InTable, NoRepeats, Tagged;
    forall q | q in s.head ensures q < s.end {
      NotEnd(s.head, s.base, s.top, s.end, q);
    }
  }

  lemma TopAbove(s: State, a: nat)
    requires Sound(s) && a in s.head
    ensures a <= s.top
  {
    hide Binned, FastBinned, Marked, InTable, NoRepeats, Tagged;
    InOrder(s.head, s.base, s.top, s.end, a);
  }

  lemma FreeBelow(s: State, a: nat, bins: seq<seq<nat>>)
    requires Sound(s) && Listed(bins) == Listed(s.bins) - {a}
    requires forall q :: q in Listed(s.bins) && a <= q < s.end ==> q == a || q == s.top
    ensures Listed(bins) == set q | q in Listed(s.bins) && q < a
  {
    hide Binned, FastBinned, Marked, InTable, NoRepeats, Tiles, Tagged;
    TopNotListed(s);
    BelowEnd(s);
    forall q | q in Listed(s.bins) ensures q in s.head {
      FreeChunk(s, q);
    }
  }

  /** The size fields that the code writes when it coalesces make the fused tags. */
  lemma TiedSteps(s: State, p: nat, a: nat, b: nat)
    requires Sound(s) && p in Used(s) && Joins(s, p, a, b) && p in s.head && Next(s.head, p) != s.top
    requires Next(s.head, p) in s.head
    ensures a < b && b in s.head
    ensures var n := Next(s.head, p);
      var h := s.head[n := Head(s.head[n].size, false)] - {p};
      (if b == n then h else h - {n})[a := Head(b - a, true)] == Tied(s.head, a, b)
  {
    JoinFacts(s, p, a, b);
    hide Sound, Joins;
  }

  lemma TopSteps(s: State, p: nat, a: nat, b: nat)
    requires Sound(s) && p in Used(s) && Joins(s, p, a, b) && p in s.head && Next(s.head, p) == s.top
    ensures a < s.end && (s.head - {p, s.top})[a := Head(s.end - a, true)] == Fuse(s.head, a, s.end)
  {
    JoinFacts(s, p, a, b);
    BelowEnd(s);
    hide Sound, Joins;
  }

  // ---------- what a sound state gives ----------

  lemma Shape(s: State)
    requires Sound(s)
    ensures |s.bins| == NBINS && |s.fast| == NFASTBINS && |s.binmap| == 4 && s.bins[0] == []
    ensures s.top in s.head && Next(s.head, s.top) == s.end
  {
  }

  /** Chunks in the hands of the client never overlap and lie inside the arena. */
  lemma HeldApart(s: State, p: nat, q: nat)
    requires Sound(s) && p in Used(s) && q in Used(s)
    ensures s.base <= p && p + Used(s)[p] <= s.end && (p < q ==> p + Used(s)[p] <= q)
  {
    assert Placed(s.head, s.base, s.top, p) && Placed(s.head, s.base, s.top, q);
    assert p < q ==> Below(s.head, p, q);
    assert Placed(s.head, s.base, s.top, Next(s.head, p)) && Placed(s.head, s.base, s.top, s.top);
  }

  /** With the fast bins empty, the chunk after a chunk that is not in use is in use: nothing is left to coalesce. */
  lemma FullyCoalesced(s: State, p: nat)
    requires Sound(s) && Empty(s.fast) && p in s.head && p !in Used(s) && p != s.top
    ensures Next(s.head, p) in Used(s)
  {
    hide Binned, FastBinned, Marked;
    AllEmpty(s.fast);
    assert TagOk(s.head, s.foot, Listed(s.bins), s.top, p);
  }

  /** The client may write over the prev_size field behind a chunk it holds. */
  lemma ClientWrites(s: State, foot: Feet)
    requires Sound(s)
    requires forall a :: a in s.foot && (forall p :: p in Used(s) ==> p in s.head && Next(s.head, p) != a)
               ==> a in foot && foot[a] == s.foot[a]
    ensures Sound(s.(foot := foot)) && Used(s.(foot := foot)) == Used(s)
  {
    hide Binned, FastBinned, Marked, InTable, NoRepeats, Tiles;
    var free := Listed(s.bins);
    forall q | q in s.head ensures TagOk(s.head, foot, free, s.top, q) {
      assert TagOk(s.head, s.foot, free, s.top, q);
      if q in free {
        forall p | p in Used(s) ensures p in s.head && Next(s.head, p) != Next(s.head, q) {
          if Next(s.head, p) == Next(s.head, q) {
            SameEnd(s.head, s.base, s.top, s.end, p, q);
          }
        }
      }
    }
  }

  /** An arena that is all top. */
  lemma FreshHeap(base: nat, size: nat)
    requires base % 16 == 0 && Aligned(size)
    ensures var s := State(map[base := Head(size, true)], map[], seq(NBINS, i => []), seq(NFASTBINS, i => []),
                           [0, 0, 0, 0], base, base, base + size, false);
      Sound(s) && Used(s) == map[]
  {
    var h := map[base := Head(size, true)];
    var bins, fast: seq<seq<nat>> := seq(NBINS, i => []), seq(NFASTBINS, i => []);
    AllEmpty(bins);
    AllEmpty(fast);
    EmptyRow([0, 0, 0, 0], NBINS);
    assert Binned(h, bins) && FastBinned(h, fast);
  }

  // ---------- fit ----------

  /** The smallest chunk that fits in the first bin that has one is the best fit of all binned chunks. */
  lemma BestFit(s: State, i: nat, p: nat, nb: nat)
    requires Sound(s) && 2 <= i < NBINS && |s.bins| == NBINS && s.bins[UNSORTED] == [] && p in s.bins[i] && p in s.head
    requires forall j, q :: BinIndex(nb) <= j < i && q in s.bins[j] ==> q in s.head && s.head[q].size < nb
    requires forall q :: q in s.bins[i] ==> q in s.head && (nb <= s.head[q].size ==> s.head[p].size <= s.head[q].size)
    ensures forall q ::
      q in Listed(s.bins) ==> q in s.head && (nb <= s.head[q].size ==> s.head[p].size <= s.head[q].size)
  {
    hide Arena, FastBinned, Marked, NoRepeats;
    assert BinOk(s.head, s.bins[i], i);
    forall q | q in Listed(s.bins) ensures q in s.head && (nb <= s.head[q].size ==> s.head[p].size <= s.head[q].size) {
      var j := BucketOf(s.bins, q);
      assert 2 <= j && BinOk(s.head, s.bins[j], j);
      if nb <= s.head[q].size {
        BinMonotone(nb, s.head[q].size);
        if s.head[q].size < s.head[p].size {
          BinMonotone(s.head[q].size, s.head[p].size);
        }
      }
    }
  }

  /** The last chunk of a regular bin is its smallest. */
  lemma LastIsLeast(s: State, i: nat)
    requires Sound(s) && 2 <= i < NBINS && |s.bins| == NBINS && s.bins[i] != []
    ensures forall q :: q in s.bins[i] ==> q in s.head && BinIndex(s.head[q].size) == i
    ensures var last := s.bins[i][|s.bins[i]| - 1];
      last in s.head && forall q :: q in s.bins[i] ==> s.head[last].size <= s.head[q].size
  {
    hide Arena, FastBinned, Marked, NoRepeats;
    assert BinOk(s.head, s.bins[i], i);
    var l := s.bins[i];
    forall q | q in l ensures s.head[l[|l| - 1]].size <= s.head[q].size {
      var j :| 0 <= j < |l| && l[j] == q;
    }
  }

  /** A bin above that of the request holds only larger chunks. */
  lemma AboveFits(size: nat, nb: nat)
    requires BinIndex(size) > BinIndex(nb)
    ensures size > nb
  {
    if size <= nb {
      BinMonotone(size, nb);
    }
  }

  lemma OnUnsorted(s: State, k: nat)
    requires Sound(s) && |s.bins| == NBINS && k < |s.bins[UNSORTED]|
    ensures s.bins[UNSORTED][k] in s.head
    ensures Taken<nat>(s.bins, UNSORTED, k)[UNSORTED] == [] <==> |s.bins[UNSORTED]| == 1
  {
    hide Binned, FastBinned, Marked, NoRepeats, Arena;
    InTableBucket(s.bins, UNSORTED);
    assert s.bins[UNSORTED][k] in multiset(s.bins[UNSORTED]);
    FreeChunk(s, s.bins[UNSORTED][k]);
  }

  /** Chunks of a regular bin: sorted, with their PREV_INUSE bits set, of legal sizes. */
  lemma BinChunks(s: State, i: nat)
    requires Sound(s) && 2 <= i < NBINS && |s.bins| == NBINS
    ensures Sorted(s.head, s.bins[i])
    ensures forall p :: p in s.bins[i] ==> p in s.head && s.head[p].pinuse && Aligned(s.head[p].size)
    ensures forall p :: p in s.bins[i] ==> p in s.head && BinIndex(s.head[p].size) == i
  {
    hide FastBinned, Marked, NoRepeats, Arena;
    assert BinOk(s.head, s.bins[i], i);
    InTableBucket(s.bins, i);
    hide BinIndex, Aligned, Sound, InTable;
    forall p | p in s.bins[i] ensures s.head[p].pinuse && Aligned(s.head[p].size) {
      assert p in multiset(s.bins[i]);
      FreeChunk(s, p);
      SizeOk(s, p);
    }
  }

  lemma SameInSmallBin(s: State, i: nat, size: nat)
    requires Sound(s) && 2 <= i < NBINS && |s.bins| == NBINS && Small(size) && Aligned(size) && i == BinIndex(size)
    ensures forall p :: p in s.bins[i] ==> p in s.head && s.head[p].size == size
  {
    BinChunks(s, i);
    forall p | p in s.bins[i] ensures s.head[p].size == size {
      SmallBinExact(size, s.head[p].size);
    }
  }

  /** A clear bit: the bin is empty. */
  lemma SkipOne(s: State, bin: nat)
    requires Sound(s) && |s.bins| == NBINS && |s.binmap| == 4 && 2 <= bin < NBINS
    requires !TestBit(s.binmap[bin / 32], bin % 32)
    ensures s.bins[bin] == []
  {
    hide Arena, Binned, FastBinned, NoRepeats, TestBit;
    assert !TestRow(s.binmap, bin);
  }

  /** `bit > map`: the bins from here to the end of the map word are empty. */
  lemma SkipRest(s: State, bin: nat)
    requires Sound(s) && |s.bins| == NBINS && |s.binmap| == 4 && 2 <= bin < NBINS
    requires Passes(Bit(bin % 32), s.binmap[bin / 32])
    ensures forall i :: bin <= i < 32 * (bin / 32) + 32 ==> s.bins[i] == []
  {
    hide Sound, TestBit, Bit, Passes;
    BitPassesMap(s.binmap[bin / 32], bin % 32);
    forall i | bin <= i < 32 * (bin / 32) + 32 ensures s.bins[i] == [] {
      assert i / 32 == bin / 32 && bin % 32 <= i % 32;
      SkipOne(s, i);
    }
  }

  lemma SkipBlock(s: State, block: nat)
    requires Sound(s) && |s.bins| == NBINS && 1 <= block < |s.binmap| == 4 && s.binmap[block] == 0
    ensures forall i :: 32 * block <= i < 32 * block + 32 ==> s.bins[i] == []
  {
    hide Sound, TestBit;
    forall i | 32 * block <= i < 32 * block + 32 ensures s.bins[i] == [] {
      assert i / 32 == block;
      ZeroBits(i % 32);
      SkipOne(s, i);
    }
  }

  /** The smallest chunk of the first non-empty larger bin is the best fit. */
  lemma LastFits(s: State, i: nat, nb: nat)
    requires Sound(s) && BinIndex(nb) < i < NBINS && 2 <= i && |s.bins| == NBINS && s.bins[UNSORTED] == []
      && s.bins[i] != []
    requires forall q :: q in s.bins[BinIndex(nb)] ==> q in s.head && s.head[q].size < nb
    requires forall j :: BinIndex(nb) < j < i ==> s.bins[j] == []
    ensures var p := s.bins[i][|s.bins[i]| - 1];
      && p in s.head && nb <= s.head[p].size && p in Listed(s.bins)
      && forall q :: q in Listed(s.bins) ==> q in s.head && (nb <= s.head[q].size ==> s.head[p].size <= s.head[q].size)
  {
    var p := s.bins[i][|s.bins[i]| - 1];
    LastIsLeast(s, i);
    InTableBucket(s.bins, i);
    assert p in s.bins[i] && p in multiset(s.bins[i]);
    AboveFits(s.head[p].size, nb);
    hide Sound, BinIndex, InTable;
    BestFit(s, i, p, nb);
  }

  /** All larger bins empty: no binned chunk fits. */
  lemma NoneFits(s: State, nb: nat)
    requires Sound(s) && BinIndex(nb) < NBINS && |s.bins| == NBINS && s.bins[UNSORTED] == []
    requires forall q :: q in s.bins[BinIndex(nb)] ==> q in s.head && s.head[q].size < nb
    requires forall j :: BinIndex(nb) < j < NBINS ==> s.bins[j] == []
    ensures forall q :: q in Listed(s.bins) ==> q in s.head && s.head[q].size < nb
  {
    hide Arena, FastBinned, Marked, NoRepeats, BinIndex;
    forall q | q in Listed(s.bins) ensures q in s.head && s.head[q].size < nb {
      var j := BucketOf(s.bins, q);
      assert 2 <= j && BinOk(s.head, s.bins[j], j);
      if nb <= s.head[q].size {
        BinMonotone(nb, s.head[q].size);
      }
    }
  }

  /** The first chunk of a bin is its largest, and its size field tells whether the bin has a chunk that fits. */
  lemma LastAndFirst(s: State, i: nat)
    requires Sound(s) && 2 <= i < NBINS && |s.bins| == NBINS && s.bins[i] != []
    ensures var first := s.bins[i][0];
      first in s.head && s.head[first].pinuse && forall q ::
        q in s.bins[i] ==> q in s.head && s.head[q].size <= s.head[first].size
    ensures forall nb :: Aligned(nb) && s.head[s.bins[i][0]].Field() >= nb ==> s.head[s.bins[i][0]].size >= nb
  {
    BinChunks(s, i);
    hide Sound;
    var l := s.bins[i];
    assert l[0] in l;
    forall q | q in l ensures s.head[q].size <= s.head[l[0]].size {
      var j :| 0 <= j < |l| && l[j] == q;
    }
  }

  lemma FastSlot(nb: nat)
    requires Aligned(nb) && nb <= MAX_FAST
    ensures 0 <= FastIndex(nb) < NFASTBINS
  {
  }

  lemma SmallSlot(nb: nat)
    requires Aligned(nb) && Small(nb)
    ensures 2 <= BinIndex(nb) < 64
  {
  }

  lemma FastSize(s: State, i: nat, nb: nat)
    requires Sound(s) && i < |s.fast| == NFASTBINS && s.fast[i] != [] && Aligned(nb) && nb <= MAX_FAST
      && i == FastIndex(nb)
    ensures s.fast[i][0] in s.head && s.head[s.fast[i][0]].size == nb
  {
    hide Arena, Binned, Marked, InTable, NoRepeats;
    assert FastBinOk(s.head, s.fast[i], i) && s.fast[i][0] in s.fast[i];
    SizeOk(s, s.fast[i][0]);
    FastBinExact(nb, s.head[s.fast[i][0]].size);
  }
}
