/** mALLOc, fREe and malloc_consolidate over one contiguous arena (gclib/dlmalloc.c). */
module Dlmalloc {
  import opened BitSets
  import opened Bins
  import opened Chunks
  import opened Heap
  import opened Lists

  const FASTBIN_CONSOLIDATION_THRESHOLD: nat := 65536
  const MAX_FAST_BIN: nat := 8

  /** The client was given one more chunk, at `p`, that fits the request and wastes less than MINSIZE bytes. */
  ghost predicate Granted(before: map<nat, nat>, after: map<nat, nat>, p: nat, nb: nat) {
    p !in before && p in after && after == before[p := after[p]] && nb <= after[p] < nb + MINSIZE
  }

  /** The regular bin that an exact fit of a small request would be in is empty. */
  ghost predicate NoExactFit(bins: seq<seq<nat>>, nb: nat) {
    Small(nb) && BinIndex(nb) < |bins| ==> bins[BinIndex(nb)] == []
  }

  /** Of the binned chunks that are large enough, `p` is the smallest. */
  ghost predicate BestFitting(s: State, p: nat, nb: nat) {
    && p in Listed(s.bins) && p in s.head && nb <= s.head[p].size
    && forall q :: q in Listed(s.bins) ==> q in s.head && (nb <= s.head[q].size ==> s.head[p].size <= s.head[q].size)
  }

  /** No binned chunk is large enough. */
  ghost predicate NoneFitting(s: State, nb: nat) {
    forall q :: q in Listed(s.bins) ==> q in s.head && s.head[q].size < nb
  }

  /** No binned chunk has just this size. */
  ghost predicate NoneExact(s: State, nb: nat) {
    forall q :: q in Listed(s.bins) ==> q in s.head && s.head[q].size != nb
  }

  /** With the bin of a small size empty and another size left in the unsorted bin, no bin holds that size. */
  lemma OnlyVictimLeft(s: State, nb: nat)
    requires Sound(s) && Small(nb) && NoExactFit(s.bins, nb) && |s.bins| == NBINS
    requires |s.bins[UNSORTED]| == 1 && s.bins[UNSORTED][0] in s.head && s.head[s.bins[UNSORTED][0]].size != nb
    ensures NoneExact(s, nb)
  {
    hide Arena, FastBinned, Marked, NoRepeats, Sorted, BinIndex;
    forall q | q in Listed(s.bins) ensures q in s.head && s.head[q].size != nb {
      FreeChunk(s, q);
      var j := BucketOf(s.bins, q);
      assert 2 <= j ==> BinOk(s.head, s.bins[j], j);
    }
  }

  /** Where the chunk for a request comes from. */
  datatype Origin = FromFast | FromBin | FromRemainder | FromTop | FromSystem

  /** The choice is right for the state it was made in: a fast chunk fits exactly, a binned one is the best fit, unless
      a small request was split off the last remainder, which waited in the unsorted bin while no binned chunk had just
      the size asked for; the top serves only what no binned chunk can, and the system only what the top cannot either,
      with nothing left in the fast bins. */
  ghost predicate Chosen(s: State, last: nat, p: nat, nb: nat, how: Origin) {
    match how
    case FromFast => p in Listed(s.fast) && p in s.head && s.head[p].size == nb
    case FromBin => BestFitting(s, p, nb)
    case FromRemainder =>
      && Small(nb) && p == last && p in s.head && s.head[p].size > nb + MINSIZE
      && |s.bins| == NBINS && p in s.bins[UNSORTED] && NoneExact(s, nb)
    case FromTop => p == s.top && p in s.head && s.head[p].size >= nb + MINSIZE && NoneFitting(s, nb)
    case FromSystem => p == s.top && p in s.head && s.head[p].size < nb + MINSIZE && NoneFitting(s, nb) && Empty(s.fast)
  }

  lemma ChosenLater(s: State, s': State, p: nat, nb: nat)
    requires Listed(s'.bins) == Listed(s.bins) && s'.head == s.head
    ensures BestFitting(s', p, nb) == BestFitting(s, p, nb) && NoneFitting(s', nb) == NoneFitting(s, nb)
    ensures NoneExact(s', nb) == NoneExact(s, nb)
  {
    hide Listed;
  }

  // ---------- what comes first ----------

  /** Some fast chunk has just the size asked for. */
  ghost predicate FastFits(s: State, nb: nat) {
    exists q :: q in Listed(s.fast) && q in s.head && s.head[q].size == nb
  }

  /** Some chunk of a regular bin has just the size asked for, and it is a small one. */
  ghost predicate SmallFits(s: State, nb: nat) {
    nb < 512 && exists i, q :: 2 <= i < |s.bins| && q in s.bins[i] && q in s.head && s.head[q].size == nb
  }

  /** The last remainder is alone in the unsorted bin, and a small request can be split off it. */
  ghost predicate Remains(s: State, last: nat, nb: nat) {
    nb < 512 && |s.bins| == NBINS && s.bins[UNSORTED] == [last] && last in s.head && s.head[last].size > nb + 32
  }

  ghost predicate FrontOfFast(s: State, p: nat) {
    exists i :: 0 <= i < |s.fast| && s.fast[i] != [] && s.fast[i][0] == p
  }

  ghost predicate BackOfBin(s: State, p: nat) {
    exists i :: 2 <= i < |s.bins| && s.bins[i] != [] && s.bins[i][|s.bins[i]| - 1] == p
  }

  /** The exact fits are taken before anything else, a fast chunk first, and then the last remainder. */
  ghost predicate FirstChoice(s: State, last: nat, nb: nat, mem: nat, how: Origin) {
    && (FastFits(s, nb) ==> mem >= 16 && how == FromFast && FrontOfFast(s, mem - 16))
    && (!FastFits(s, nb) && SmallFits(s, nb) ==> mem >= 16 && how == FromBin && BackOfBin(s, mem - 16))
    && (!FastFits(s, nb) && !SmallFits(s, nb) && Remains(s, last, nb) ==> mem >= 16 && how == FromRemainder)
  }

  lemma QuickChoice(s: State, last: nat, nb: nat, p: nat, how: Origin)
    requires how == (if FastFits(s, nb) then FromFast else FromBin)
    requires if FastFits(s, nb) then FrontOfFast(s, p) else SmallFits(s, nb) && BackOfBin(s, p)
    ensures FirstChoice(s, last, nb, p + 16, how)
  {
    hide FastFits, SmallFits, Remains, FrontOfFast, BackOfBin;
  }

  lemma LaterChoice(s: State, last: nat, nb: nat, mem: nat, how: Origin)
    requires !FastFits(s, nb) && !SmallFits(s, nb) && (Remains(s, last, nb) ==> mem >= 16 && how == FromRemainder)
    ensures FirstChoice(s, last, nb, mem, how)
  {
    hide FastFits, SmallFits, Remains;
  }

  lemma FastFitsIndex(s: State, nb: nat)
    requires Sound(s) && Aligned(nb) && FastFits(s, nb)
    ensures nb <= MAX_FAST && |s.fast| == NFASTBINS && 0 <= FastIndex(nb) < NFASTBINS && s.fast[FastIndex(nb)] != []
  {
    hide Arena, Binned, Marked, NoRepeats, FastIndex;
    var q :| q in Listed(s.fast) && q in s.head && s.head[q].size == nb;
    var i := BucketOf(s.fast, q);
    assert FastBinOk(s.head, s.fast[i], i);
    FastSlot(nb);
  }

  lemma SmallFitsIndex(s: State, nb: nat)
    requires Sound(s) && Aligned(nb) && SmallFits(s, nb)
    ensures Small(nb) && |s.bins| == NBINS && BinIndex(nb) < NBINS && s.bins[BinIndex(nb)] != []
  {
    hide Arena, FastBinned, Marked, NoRepeats, BinIndex;
    var i, q :| 2 <= i < |s.bins| && q in s.bins[i] && q in s.head && s.head[q].size == nb;
    assert BinOk(s.head, s.bins[i], i);
  }

  class MallocState {
    var head: Heads
    var foot: Feet
    var bins: seq<seq<nat>>
    var fast: seq<seq<nat>>
    var binmap: Row
    var base: nat
    var top: nat
    var end: nat
    var haveFast: bool
    var lastRemainder: nat
    /** The environment: how many bytes the system puts behind the top at its n-th call. Anything but a multiple of 16
        stands for a refusal. */
    const system: nat -> int
    var calls: nat

    /** The state, with given fast bins and flag. */
    ghost function View(fast': seq<seq<nat>>, flag: bool): State
      reads this
    {
      State(head, foot, bins, fast', binmap, base, top, end, flag)
    }

    ghost function Now(): State
      reads this
    {
      View(fast, haveFast)
    }

    ghost predicate Valid()
      reads this
    {
      Sound(Now())
    }

    /** Sizes of the chunks the client holds, by address. */
    ghost function Held(): map<nat, nat>
      reads this
    {
      Used(Now())
    }

    constructor (start: nat, size: nat, system: nat -> int)
      requires start % 16 == 0 && Aligned(size)
      ensures this.system == system
      ensures Valid() && Held() == map[] && base == start && end == start + size
    {
      head, foot := map[start := Head(size, true)], map[];
      bins, fast := seq(NBINS, i => []), seq(NFASTBINS, i => []);
      binmap, base, top, end := [0, 0, 0, 0], start, start, start + size;
      haveFast, lastRemainder, this.system, calls := false, 0, system, 0;
      new;
      FreshHeap(start, size);
    }

    // ---------- coalescing ----------

    /** unlink: takes a free chunk off whatever bin it is on. */
    method Unlink(p: nat, ghost s: State, ghost gone: set<nat>)
      requires Trimmed(s, bins, gone) && p in Listed(bins)
      modifies this`bins
      ensures Trimmed(s, bins, gone + {p})
      ensures |bins| == |old(bins)| && forall i :: 2 <= i < |bins| && old(bins[i]) == [] ==> bins[i] == []
    {
      WhereListed(s, bins, gone, p);
      var i: nat, k: nat :| 1 <= i < |bins| && k < |bins[i]| && bins[i][k] == p;
      TrimmedTake(s, bins, gone, i, k);
      bins := Taken<nat>(bins, i, k);
    }

    /** The chunk at `a` reaches over address p and is the top or the newest one of the unsorted bin. */
    ghost predicate Coalesced(p: nat, a: nat, size: nat)
      reads this
    {
      && a <= p < a + size && a in head && head[a].size == size
      && (a == top || (|bins| == NBINS && bins[UNSORTED] != [] && bins[UNSORTED][0] == a))
    }

    /** The code that fREe and malloc_consolidate share: merges a chunk with its free neighbours and puts it on
        the unsorted bin, or into the top. */
    method Release(p0: nat, ghost fast0: seq<seq<nat>>, ghost flag: bool) returns (size: nat, ghost a: nat)
      requires Sound(View(fast0, flag)) && p0 in Used(View(fast0, flag))
      modifies this`head, this`foot, this`bins, this`top
      ensures Sound(View(fast0, flag))
      ensures Used(View(fast0, flag)) == old(Used(View(fast0, flag))) - {p0}
      ensures |bins| == |old(bins)| && forall i :: 2 <= i < |bins| && old(bins[i]) == [] ==> bins[i] == []
      ensures Coalesced(p0, a, size)
    {
      hide Sound, Used, Binned, Marked, NoRepeats, InTable, Listed, Tied, Fuse, Coalesced;
      ghost var s := View(fast0, flag);
      TagsAround(s, p0);
      Shape(s);
      TrimmedStart(s);
      var p := p0;
      size := head[p].size;
      var next := p + size;
      var nextsize := head[next].size;
      if !head[p].pinuse {
        var prevsize := foot[p];
        size := size + prevsize;
        p := p - prevsize;
        Unlink(p, s, {});
      } else {
        TrimmedAlso(s, bins, {}, p);
      }
      assert Trimmed(s, bins, {p});
      if next != top {
        var nextinuse := head[next + nextsize].pinuse;
        if !nextinuse {
          Unlink(next, s, {p});
          size := size + nextsize;
        } else {
          TrimmedAlso(s, bins, {p}, next);
        }
        SizeOk(s, next);
        TiedSteps(s, p0, p, p + size);
        ReleaseChunk(s, p0, p, p + size, bins);
        bins := bins[UNSORTED := [p] + bins[UNSORTED]];
        head := head[next := Head(nextsize, false)] - {p0};
        if !nextinuse {
          head := head - {next};
        }
        head := head[p := Head(size, true)];
        foot := foot[p + size := size];
      } else {
        size := size + nextsize;
        TopSteps(s, p0, p, p + size);
        ReleaseIntoTop(s, p0, p, p + size, bins);
        head := (head - {p0, top})[p := Head(size, true)];
        top := p;
      }
      a := p;
      IsCoalesced(p0, p, size);
    }

    lemma IsCoalesced(p: nat, a: nat, size: nat)
      requires a <= p < a + size && a in head && head[a].size == size
      requires a == top || (|bins| == NBINS && bins[UNSORTED] != [] && bins[UNSORTED][0] == a)
      ensures Coalesced(p, a, size)
    {
    }

    /** malloc_consolidate on an initialized state: every fast bin is emptied, the client keeps what it holds. */
    method Consolidate()
      requires Valid()
      modifies this`head, this`foot, this`bins, this`top, this`fast, this`haveFast
      ensures Valid() && Held() == old(Held()) && Empty(fast) && !haveFast
      ensures |bins| == |old(bins)| && forall i :: 2 <= i < |bins| && old(bins[i]) == [] ==> bins[i] == []
    {
      hide Sound, Used;
      Shape(Now());
      FlagUp(Now());
      haveFast := false;
      var i := 0;
      while i <= MAX_FAST_BIN
        invariant i <= MAX_FAST_BIN + 1
        invariant !haveFast && |fast| == NFASTBINS && Sound(View(fast, true)) && Used(View(fast, true)) == old(Held())
        invariant forall j :: 0 <= j < i ==> fast[j] == []
        invariant |bins| == |old(bins)| && forall j :: 2 <= j < |bins| && old(bins[j]) == [] ==> bins[j] == []
      {
        var p := fast[i];
        assert fast[i := []][i := p] == fast;
        fast := fast[i := []];
        while p != []
          invariant !haveFast && |fast| == NFASTBINS && Sound(View(fast[i := p], true))
            && Used(View(fast[i := p], true)) == old(Held())
          invariant forall j :: 0 <= j <= i ==> fast[j] == []
          invariant |bins| == |old(bins)| && forall j :: 2 <= j < |bins| && old(bins[j]) == [] ==> bins[j] == []
        {
          PopFast(View(fast[i := p], true), i);
          assert fast[i := p][i := p[1..]] == fast[i := p[1..]];
          var _, _ := Release(p[0], fast[i := p[1..]], true);
          p := p[1..];
        }
        assert fast[i := []] == fast;
        i := i + 1;
      }
      HighFastEmpty(View(fast, true));
    }

    /** fREe, for a null pointer or a chunk the client holds. */
    method Free(mem: nat)
      requires Valid() && (mem == 0 || (16 <= mem && mem - 16 in Held()))
      modifies this`head, this`foot, this`bins, this`top, this`fast, this`haveFast
      ensures Valid() && Held() == if mem == 0 then old(Held()) else old(Held()) - {mem - 16}
      ensures mem != 0 && old(Held())[mem - 16] <= 80 ==> Cached(mem - 16)
      ensures mem != 0 && old(Held())[mem - 16] > 80 ==> FreedFully(mem - 16)
    {
      hide Sound, Used;
      if mem != 0 {
        var p := mem - 16;
        TagsAround(Now(), p);
        HeldSize(Now(), p);
        var size := head[p].size;
        if size <= MAX_FAST {
          PushFast(Now(), p);
          haveFast := true;
          var i := FastIndex(size);
          fast := fast[i := [p] + fast[i]];
          assert fast == old(fast)[i := [p] + old(fast)[i]];
        } else {
          ghost var a;
          size, a := Release(p, fast, haveFast);
          if size >= FASTBIN_CONSOLIDATION_THRESHOLD && haveFast {
            Consolidate();
          } else if size >= FASTBIN_CONSOLIDATION_THRESHOLD {
            NoneIdle(Now());
          }
        }
      }
    }

    /** The chunk is the first one of its fast bin, and nothing else changed. */
    twostate predicate Cached(p: nat)
      reads this
    {
      && haveFast && head == old(head) && bins == old(bins) && top == old(top)
      && exists i :: 0 <= i < |old(fast)| && fast == old(fast)[i := [p] + old(fast)[i]]
    }

    /** The chunk was fused with its free neighbours, or large enough to consolidate the fast chunks as well. */
    twostate predicate FreedFully(p: nat)
      reads this
    {
      Empty(fast) || (fast == old(fast) && exists a, size :: Coalesced(p, a, size) && size < 65536)
    }

    // ---------- taking chunks ----------

    /** A free chunk that is not worth splitting is given whole. */
    method TakeWhole(i: nat, k: nat, ghost nb: nat) returns (p: nat)
      requires Valid() && 1 <= i < NBINS && i < |bins| && k < |bins[i]| && bins[i][k] in head
      requires nb <= head[bins[i][k]].size < nb + MINSIZE
      modifies this`head, this`bins
      ensures Valid() && Granted(old(Held()), Held(), p, nb) && p == old(bins[i][k]) && p in head && head[p].pinuse
    {
      hide Sound, Used;
      TakeChunk(Now(), i, k);
      p := bins[i][k];
      var size := head[p].size;
      bins := Taken<nat>(bins, i, k);
      head := head[p + size := head[p + size].(pinuse := true)];
    }

    /** A larger one is split, and the remainder replaces the contents of the unsorted bin. */
    method SplitVictim(i: nat, k: nat, nb: nat) returns (p: nat, remainder: nat)
      requires Valid() && 1 <= i < NBINS && i < |bins| && k < |bins[i]| && bins[i][k] in head
      requires Taken<nat>(bins, i, k)[UNSORTED] == [] && Aligned(nb) && nb + MINSIZE <= head[bins[i][k]].size
      modifies this`head, this`foot, this`bins
      ensures Valid() && Granted(old(Held()), Held(), p, nb) && p == old(bins[i][k]) && p in head && head[p].pinuse
      ensures remainder == p + nb && bins[UNSORTED] == [remainder]
    {
      hide Sound, Used;
      SplitChunk(Now(), i, k, nb);
      p := bins[i][k];
      var size := head[p].size;
      var remainderSize := size - nb;
      remainder := p + nb;
      bins := Taken<nat>(bins, i, k)[UNSORTED := [remainder]];
      head := head[p := Head(nb, true)][remainder := Head(remainderSize, true)];
      foot := foot[p + size := remainderSize];
    }

    /** The common end of the two best-fit searches. */
    method Carve(i: nat, k: nat, nb: nat) returns (p: nat, remainder: nat)
      requires Valid() && 2 <= i < NBINS && i < |bins| && k < |bins[i]| && bins[i][k] in head
      requires bins[UNSORTED] == [] && Aligned(nb) && nb <= head[bins[i][k]].size
      modifies this`head, this`foot, this`bins
      ensures Valid() && Granted(old(Held()), Held(), p, nb) && p == old(bins[i][k]) && p in head && head[p].pinuse
    {
      hide Sound, Used;
      remainder := lastRemainder;
      if head[bins[i][k]].size - nb < MINSIZE {
        p := TakeWhole(i, k, nb);
      } else {
        p, remainder := SplitVictim(i, k, nb);
      }
    }

    // ---------- the unsorted bin ----------

    /** Empties the unsorted bin into the regular bins, unless one of its chunks serves the request. */
    method Drain(nb: nat) returns (found: bool, p: nat, ghost how: Origin)
      requires Valid() && Aligned(nb) && NoExactFit(bins, nb)
      modifies this`head, this`foot, this`bins, this`binmap, this`lastRemainder
      ensures Valid() && |bins| == NBINS
      ensures if found then Granted(old(Held()), Held(), p, nb) && p in head && head[p].pinuse
                && Chosen(old(Now()), old(lastRemainder), p, nb, how)
              else Held() == old(Held()) && bins[UNSORTED] == [] && NoExactFit(bins, nb)
                   && lastRemainder == old(lastRemainder)
                   && head == old(head) && top == old(top) && Listed(bins) == old(Listed(bins))
      ensures found && how == FromRemainder ==> lastRemainder == p + nb && bins[UNSORTED] == [lastRemainder]
      ensures Remains(old(Now()), old(lastRemainder), nb) ==> found && how == FromRemainder
    {
      hide Sound, Used, BinIndex, Listed, NoneExact;
      found, p, how := false, 0, FromBin;
      Shape(Now());
      while bins[UNSORTED] != []
        invariant Valid() && Held() == old(Held()) && |bins| == NBINS && NoExactFit(bins, nb)
        invariant head == old(head) && Listed(bins) == old(Listed(bins))
        invariant lastRemainder == old(lastRemainder) && |old(bins)| == NBINS
        invariant Remains(old(Now()), old(lastRemainder), nb) ==> bins[UNSORTED] == old(bins)[UNSORTED]
        invariant forall q :: q in bins[UNSORTED] ==> q in old(bins)[UNSORTED]
        decreases |bins[UNSORTED]|
      {
        var k := |bins[UNSORTED]| - 1;
        var victim := bins[UNSORTED][k];
        OnUnsorted(Now(), k);
        InListed(bins, UNSORTED, k);
        var size := head[victim].size;
        if Small(nb) && k == 0 && victim == lastRemainder && size > nb + MINSIZE {
          OnlyVictimLeft(Now(), nb);
          ChosenLater(old(Now()), Now(), victim, nb);
          var r;
          p, r := SplitVictim(UNSORTED, k, nb);
          lastRemainder := r;
          Shape(Now());
          return true, p, FromRemainder;
        }
        if size == nb {
          ExactIsBest(Now(), victim, nb);
          ChosenLater(old(Now()), Now(), victim, nb);
          p := TakeWhole(UNSORTED, k, nb);
          Shape(Now());
          return true, p, FromBin;
        }
        BinVictim(k, victim, nb);
      }
    }

    /** Where the chunk is linked: at the front, or by size in a large bin. */
    method PlaceInBin(i: nat, size: nat) returns (j: nat)
      requires Valid() && |bins| == NBINS && 2 <= i < NBINS && i == BinIndex(size) && Aligned(size)
      ensures j <= |bins[i]| && forall q :: q in bins[i] ==> q in head
      ensures forall x :: 0 <= x < j ==> head[bins[i][x]].size >= size
      ensures forall x :: j <= x < |bins[i]| ==> head[bins[i][x]].size <= size
      ensures if Small(size) || bins[i] == [] then j == 0 else LargePlaced(head, bins[i], size, j)
    {
      hide Sound, BinIndex;
      BinChunks(Now(), i);
      j := 0;
      if !Small(size) && bins[i] != [] {
        j := LargePlace(head, bins[i], size);
      }
      if Small(size) {
        SameInSmallBin(Now(), i, size);
      }
    }

    /** Links a chunk of the unsorted bin into the regular bin of its size, at its place. */
    method BinVictim(k: nat, victim: nat, ghost nb: nat)
      requires Valid() && |bins| == NBINS && k < |bins[UNSORTED]| && victim == bins[UNSORTED][k]
      requires victim in head && Aligned(nb) && head[victim].size != nb && NoExactFit(bins, nb)
      modifies this`bins, this`binmap
      ensures Valid() && Held() == old(Held()) && |bins| == NBINS && NoExactFit(bins, nb)
      ensures |bins[UNSORTED]| < |old(bins[UNSORTED])| && Listed(bins) == old(Listed(bins))
      ensures forall q :: q in bins[UNSORTED] ==> q in old(bins[UNSORTED])
    {
      hide Sound, Used;
      Shape(Now());
      SizeOk(Now(), victim);
      var size := head[victim].size;
      var i := BinIndex(size);
      BinRange(size);
      if Small(nb) && i == BinIndex(nb) {
        SmallBinExact(nb, size);
      }
      hide BinIndex;
      var j := PlaceInBin(i, size);
      BinChunk(Now(), k, i, j);
      bins := Put(Taken<nat>(bins, UNSORTED, k), i, j, victim);
      binmap := MarkBin(binmap, i);
    }

    // ---------- best fit ----------

    /** A large request looks through its own bin. */
    method SearchLarge(nb: nat) returns (found: bool, p: nat)
      requires Valid() && |bins| == NBINS && bins[UNSORTED] == [] && Aligned(nb) && !Small(nb)
      modifies this`head, this`foot, this`bins
      ensures Valid()
      ensures if found then Granted(old(Held()), Held(), p, nb) && p in head && head[p].pinuse
                && BestFitting(old(Now()), p, nb)
              else head == old(head) && foot == old(foot) && bins == old(bins)
                   && forall q :: q in bins[BinIndex(nb)] ==> q in head && head[q].size < nb
    {
      hide Sound, Used, BinIndex, Sorted, InTable;
      found, p := false, 0;
      var i := BinIndex(nb);
      BinRange(nb);
      BinChunks(Now(), i);
      if bins[i] != [] {
        LastAndFirst(Now(), i);
      }
      if bins[i] != [] && head[bins[i][0]].Field() >= nb {
        var k := LargeScan(head, bins[i], nb);
        BestFit(Now(), i, bins[i][k], nb);
        InTableBucket(bins, i);
        assert bins[i][k] in multiset(bins[i]);
        var r;
        p, r := Carve(i, k, nb);
        found := true;
      }
    }

    /** `bit` stands for bin number `bin` in its map word; it has left the word when it is 0. */
    ghost predicate At(bin: nat, block: nat, bit: bv32) {
      block < 4 && if bit == 0 then bin == 32 * block + 32 else bin / 32 == block && bit == Bit(bin % 32)
    }

    /** Advances to the next bin whose bit is set; the bins passed over are empty. */
    method NextMarked(bin0: nat, block0: nat, map0: bv32, bit0: bv32)
      returns (some: bool, bin: nat, block: nat, map_: bv32, bit: bv32)
      requires Valid() && |bins| == NBINS && |binmap| == 4 && 2 <= bin0
      requires At(bin0, block0, bit0) && map0 == binmap[block0]
      ensures forall i :: bin0 <= i < bin && i < NBINS ==> bins[i] == []
      ensures if some then At(bin, block, bit) && bin0 <= bin < NBINS && bit != 0 && map_ == binmap[block]
              else NBINS <= bin
      ensures some ==> block < 4
    {
      hide Sound, Bit, Passes, Up, Meets;
      some, bin, block, map_, bit := true, bin0, block0, map0, bit0;
      if Passes(bit, map_) || bit == 0 {
        if bit != 0 {
          SkipRest(Now(), bin);
        }
        block := block + 1;
        while block < 4 && binmap[block] == 0
          invariant block0 < block <= 4 && forall i :: bin0 <= i < 32 * block && i < NBINS ==> bins[i] == []
        {
          SkipBlock(Now(), block);
          block := block + 1;
        }
        bin := 32 * block;
        if block == 4 {
          return false, bin, block, map_, bit;
        }
        map_ := binmap[block];
        bit := 1;
        FirstBit(map_);
      }
      while !Meets(map_, bit)
        invariant At(bin, block, bit) && bin0 <= bin && bit != 0 && map_ == binmap[block] && !Passes(bit, map_)
        invariant forall i :: bin0 <= i < bin && i < NBINS ==> bins[i] == []
        decreases NBINS - bin
      {
        SkipOne(Now(), bin);
        StepBit(map_, bin % 32);
        bin := bin + 1;
        bit := Up(bit);
      }
    }

    lemma FirstAt(bin: nat)
      requires bin < NBINS
      ensures At(bin, bin / 32, Bit(bin % 32))
    {
      hide Bit;
      NextBit(bin % 32);
    }

    lemma BitAfter(bin: nat, block: nat, bit: bv32)
      requires At(bin, block, bit) && bit != 0
      ensures At(bin + 1, block, Up(bit))
    {
      hide Bit, Up;
      NextBit(bin % 32);
      if bin % 32 < 31 {
        NextBit(bin % 32 + 1);
      }
    }

    /** A bin that is empty although its bit is set loses the bit. */
    method FalseAlarm(bin: nat, block: nat, map0: bv32, bit: bv32) returns (map_: bv32)
      requires Valid() && |bins| == NBINS && bin < NBINS && bins[bin] == []
      requires At(bin, block, bit) && bit != 0 && |binmap| == 4 && map0 == binmap[block]
      modifies this`binmap
      ensures Valid() && Held() == old(Held()) && |binmap| == 4 && map_ == binmap[block]
    {
      hide Sound, Used, Bit;
      UnmarkEmpty(Now(), bin);
      map_ := map0 & !bit;
      binmap := binmap[block := map_];
    }

    /** The first larger bin that is not empty gives its last chunk. */
    method TakeLast(bin: nat, nb: nat) returns (p: nat)
      requires Valid() && |bins| == NBINS && bins[UNSORTED] == [] && Aligned(nb)
      requires BinIndex(nb) < bin < NBINS && bins[bin] != []
      requires forall q :: q in bins[BinIndex(nb)] ==> q in head && head[q].size < nb
      requires forall i :: BinIndex(nb) < i < bin ==> bins[i] == []
      modifies this`head, this`foot, this`bins, this`lastRemainder
      ensures Valid() && Granted(old(Held()), Held(), p, nb) && p in head && head[p].pinuse
        && BestFitting(old(Now()), p, nb)
    {
      BinRange(nb);
      hide Sound, Used, BinIndex, InTable, Listed;
      var k := |bins[bin]| - 1;
      LastFits(Now(), bin, nb);
      var r;
      p, r := Carve(bin, k, nb);
      if Small(nb) {
        lastRemainder := r;
      }
    }

    /** The search of the larger bins by the bin map. */
    method SearchMap(nb: nat) returns (found: bool, p: nat)
      requires Valid() && |bins| == NBINS && bins[UNSORTED] == [] && Aligned(nb)
      requires forall q :: q in bins[BinIndex(nb)] ==> q in head && head[q].size < nb
      modifies this`head, this`foot, this`bins, this`binmap, this`lastRemainder
      ensures Valid()
      ensures if found then Granted(old(Held()), Held(), p, nb) && p in head && head[p].pinuse
                && BestFitting(old(Now()), p, nb)
              else Held() == old(Held()) && head == old(head) && foot == old(foot) && bins == old(bins)
                   && NoneFitting(Now(), nb) && lastRemainder == old(lastRemainder)
    {
      hide Sound, Used, BinIndex, InTable, Listed, Bit, Up, At;
      found, p := false, 0;
      BinRange(nb);
      Shape(Now());
      var bin: nat := BinIndex(nb) + 1;
      var block: nat := bin / 32;
      var map_ := binmap[block];
      var bit := Bit(bin % 32);
      FirstAt(bin);
      var some := true;
      while some
        invariant Valid() && Held() == old(Held()) && |binmap| == 4 && head == old(head) && bins == old(bins)
          && foot == old(foot)
        invariant lastRemainder == old(lastRemainder) && At(bin, block, bit) && block < 4 && map_ == binmap[block]
          && BinIndex(nb) < bin
        invariant forall i :: BinIndex(nb) < i < bin && i < NBINS ==> bins[i] == []
        decreases some, NBINS - bin
      {
        some, bin, block, map_, bit := NextMarked(bin, block, map_, bit);
        if !some {
          NoneFits(Now(), nb);
          return;
        }
        if bins[bin] == [] {
          map_ := FalseAlarm(bin, block, map_, bit);
          BitAfter(bin, block, bit);
          bin := bin + 1;
          bit := Up(bit);
        } else {
          p := TakeLast(bin, nb);
          return true, p;
        }
      }
    }

    // ---------- the top and the system ----------

    /** Splits the request off the top, which always keeps MINSIZE bytes. */
    method TakeTop(nb: nat) returns (p: nat)
      requires Valid() && Aligned(nb) && top in head && nb + MINSIZE <= head[top].size
      modifies this`head, this`top
      ensures Valid() && Granted(old(Held()), Held(), p, nb) && p in head && head[p].pinuse && p == old(top)
    {
      hide Sound, Used;
      SplitTop(Now(), nb);
      p := top;
      var remainderSize := head[p].size - nb;
      top := p + nb;
      head := head[p := Head(nb, true)][top := Head(remainderSize, true)];
    }

    /** Neither a binned chunk nor the top can take the request. */
    ghost predicate Outgrown(nb: nat)
      reads this
    {
      top in head && head[top].size < nb + MINSIZE && NoneFitting(Now(), nb)
    }

    /** The bytes that an answer of the system adds to the arena. */
    ghost function Supplied(more: int): nat {
      if 0 <= more && more % 16 == 0 then more else 0
    }

    /** sYSMALLOc as seen from the arena: the system fails, or puts `more` bytes after the top. */
    method SysMalloc(nb: nat) returns (found: bool, p: nat)
      requires Valid() && Aligned(nb) && Outgrown(nb)
      modifies this`head, this`top, this`end, this`calls
      ensures Valid() && calls == old(calls) + 1 && end == old(end) + Supplied(system(old(calls)))
      ensures if found then Granted(old(Held()), Held(), p, nb) && p in head && head[p].pinuse && p == old(top)
              else Held() == old(Held()) && Outgrown(nb)
    {
      hide Sound, Used;
      found, p := false, 0;
      TopNotListed(Now());
      var more := system(calls);
      calls := calls + 1;
      if 0 <= more && more % 16 == 0 {
        GrowTop(Now(), more);
        head := head[top := Head(head[top].size + more, true)];
        end := end + more;
        if head[top].size >= nb + MINSIZE {
          found := true;
          p := TakeTop(nb);
        }
      }
    }

    // ---------- malloc ----------

    /** The two exact fits that are tried first: a fast bin, then a small bin. */
    method QuickFit(nb: nat) returns (found: bool, p: nat, ghost how: Origin)
      requires Valid() && Aligned(nb)
      modifies this`head, this`bins, this`fast
      ensures Valid() && |bins| == NBINS && haveFast == old(haveFast)
      ensures if found then Granted(old(Held()), Held(), p, nb) && Held()[p] == nb
                && Chosen(old(Now()), old(lastRemainder), p, nb, how)
              else Now() == old(Now()) && NoExactFit(bins, nb)
      ensures if found then nb < 512 && how == (if FastFits(old(Now()), nb) then FromFast else FromBin)
                && (if FastFits(old(Now()), nb) then FrontOfFast(old(Now()), p)
                    else SmallFits(old(Now()), nb) && BackOfBin(old(Now()), p))
              else !FastFits(Now(), nb) && !SmallFits(Now(), nb)
    {
      hide Sound, Used, BinIndex, FastIndex, Aligned, Listed, FastFits, SmallFits;
      found, p, how := false, 0, FromFast;
      Shape(Now());
      ExactFits(Now(), nb);
      if nb <= MAX_FAST {
        FastSlot(nb);
        var i := FastIndex(nb);
        if fast[i] != [] {
          FastSize(Now(), i, nb);
          PopFast(Now(), i);
          p := fast[i][0];
          InListed(fast, i, 0);
          FastFound(Now(), i, nb);
          fast := fast[i := fast[i][1..]];
          return true, p, FromFast;
        }
      }
      if Small(nb) {
        SmallSlot(nb);
        var idx := BinIndex(nb);
        if bins[idx] != [] {
          SameInSmallBin(Now(), idx, nb);
          var k := |bins[idx]| - 1;
          assert bins[idx][k] in bins[idx];
          TakeChunk(Now(), idx, k);
          p := bins[idx][k];
          InListed(bins, idx, k);
          ExactIsBest(Now(), p, nb);
          SmallFound(Now(), idx, nb);
          bins := Taken<nat>(bins, idx, k);
          head := head[p + nb := head[p + nb].(pinuse := true)];
          return true, p, FromBin;
        }
      }
    }

    /** One pass of the main loop, up to the top: the unsorted bin, then the best fit, then the top. */
    method Pass(nb: nat) returns (found: bool, p: nat, ghost how: Origin)
      requires Valid() && Aligned(nb) && NoExactFit(bins, nb)
      modifies this`head, this`foot, this`bins, this`binmap, this`lastRemainder, this`top
      ensures Valid() && |bins| == NBINS
      ensures if found then Granted(old(Held()), Held(), p, nb) && p in head && head[p].pinuse
                && Chosen(old(Now()), old(lastRemainder), p, nb, how)
              else Held() == old(Held()) && NoExactFit(bins, nb) && Outgrown(nb) && lastRemainder == old(lastRemainder)
      ensures Remains(old(Now()), old(lastRemainder), nb) ==> found && how == FromRemainder
    {
      hide Sound, Used, BinIndex, Listed, BestFitting, NoneFitting, NoneExact, Remains;
      found, p, how := Drain(nb);
      if found {
        return;
      }
      how := FromBin;
      ghost var drained := Now();
      if !Small(nb) {
        found, p := SearchLarge(nb);
      }
      if !found {
        BinRange(nb);
        found, p := SearchMap(nb);
      }
      ChosenLater(old(Now()), drained, p, nb);
      Shape(Now());
      if !found {
        ChosenLater(old(Now()), Now(), p, nb);
        if head[top].size >= nb + MINSIZE {
          p := TakeTop(nb);
          found, how := true, FromTop;
        }
      }
    }

    /** mALLOc. A request that cannot be met leaves the client's chunks as they were; one that is met adds a
        chunk whose payload, up to the next size field, holds the bytes asked for. The loop runs at most twice. The
        choice is made in the state at the call, or after the fast bins were consolidated. */
    method Malloc(bytes: nat) returns (mem: nat, ghost how: Origin, ghost at: State)
      requires Valid()
      modifies this`head, this`foot, this`bins, this`binmap, this`lastRemainder, this`top, this`fast, this`haveFast,
        this`end, this`calls
      ensures Valid()
      ensures mem == 0 ==> Held() == old(Held())
      ensures mem != 0 ==>
        16 <= mem && Granted(old(Held()), Held(), mem - 16, Request2Size(bytes)) && bytes + 8 <= Held()[mem - 16]
      ensures bytes >= 0xffff_ffff_ffff_ffc0 ==> mem == 0
      ensures mem == 0 && bytes < 0xffff_ffff_ffff_ffc0 ==> Empty(fast) && Outgrown(Request2Size(bytes))
      ensures mem == 0 && bytes < 0xffff_ffff_ffff_ffc0 ==>
        calls == old(calls) + 1 && end == old(end) + Supplied(system(old(calls)))
      ensures bytes < 0xffff_ffff_ffff_ffc0 ==>
        FirstChoice(old(Now()), old(lastRemainder), Request2Size(bytes), mem, how)
      ensures mem != 0 && Request2Size(bytes) >= 512 ==> Empty(at.fast)
      ensures mem != 0 ==> Chosen(at, old(lastRemainder), mem - 16, Request2Size(bytes), how)
      ensures mem != 0 ==> Sound(at) && Used(at) == old(Held()) && (at == old(Now()) || Empty(at.fast))
    {
      hide Sound, Used, BinIndex, Chosen, FirstChoice, Empty, Outgrown;
      mem, at, how := 0, Now(), FromFast;
      if !OutOfRange(bytes) {
        RequestIsLeast(bytes);
        mem, how, at := Serve(Request2Size(bytes));
      }
    }

    /** The part of mALLOc behind the range check. */
    method Serve(nb: nat) returns (mem: nat, ghost how: Origin, ghost at: State)
      requires Valid() && Aligned(nb)
      modifies this`head, this`foot, this`bins, this`binmap, this`lastRemainder, this`top, this`fast, this`haveFast,
        this`end, this`calls
      ensures Valid()
      ensures mem == 0 ==> Held() == old(Held()) && Empty(fast) && Outgrown(nb)
      ensures mem == 0 ==> calls == old(calls) + 1 && end == old(end) + Supplied(system(old(calls)))
      ensures mem != 0 ==> 16 <= mem && Granted(old(Held()), Held(), mem - 16, nb)
      ensures mem != 0 ==> Chosen(at, old(lastRemainder), mem - 16, nb, how)
      ensures mem != 0 ==> Sound(at) && Used(at) == old(Held()) && (at == old(Now()) || Empty(at.fast))
      ensures mem != 0 && nb >= 512 ==> Empty(at.fast)
      ensures FirstChoice(old(Now()), old(lastRemainder), nb, mem, how)
    {
      hide Sound, Used, BinIndex, Chosen, FastFits, SmallFits, FrontOfFast, BackOfBin, FirstChoice, NoneFitting,
           Aligned;
      at, how := Now(), FromFast;
      var found, p;
      found, p, how := QuickFit(nb);
      if found {
        QuickChoice(at, lastRemainder, nb, p, how);
        return p + 16, how, at;
      }
      if !Small(nb) && haveFast {
        Consolidate();
      }
      if !haveFast {
        NoneIdle(Now());
      }
      ClearBin(nb);
      while true
        invariant Valid() && Held() == old(Held()) && NoExactFit(bins, nb) && (Small(nb) || !haveFast)
        invariant (Now() == old(Now()) || Empty(fast)) && lastRemainder == old(lastRemainder)
        invariant end == old(end) && calls == old(calls) && (Small(nb) || Empty(fast))
        invariant Remains(old(Now()), old(lastRemainder), nb) ==> Now() == old(Now())
        decreases haveFast
      {
        at := Now();
        found, p, how := Pass(nb);
        if found {
          LaterChoice(old(Now()), old(lastRemainder), nb, p + 16, how);
          return p + 16, how, at;
        }
        if !haveFast {
          break;
        }
        ClearBin(nb);
        Consolidate();
      }
      at := Now();
      NoneIdle(at);
      found, p := SysMalloc(nb);
      mem, how := if found then p + 16 else 0, FromSystem;
      NoneIdle(Now());
      LaterChoice(old(Now()), old(lastRemainder), nb, mem, how);
      if found {
        SystemChosen(at, lastRemainder, p, nb);
      }
    }

    /** The bin of the request is a regular one, so that consolidation leaves it empty. */
    lemma ClearBin(nb: nat)
      requires Aligned(nb)
      ensures 4 <= BinIndex(nb) <= 126
    {
      BinRange(nb);
    }
  }

  /** Where exact fits are. */
  lemma ExactFits(s: State, nb: nat)
    requires Sound(s) && Aligned(nb)
    ensures FastFits(s, nb) ==>
      nb <= MAX_FAST && |s.fast| == NFASTBINS && 0 <= FastIndex(nb) < NFASTBINS && s.fast[FastIndex(nb)] != []
    ensures SmallFits(s, nb) ==> Small(nb) && |s.bins| == NBINS && BinIndex(nb) < NBINS && s.bins[BinIndex(nb)] != []
  {
    hide Sound, FastFits, SmallFits, BinIndex, FastIndex, Aligned;
    if FastFits(s, nb) {
      FastFitsIndex(s, nb);
    }
    if SmallFits(s, nb) {
      SmallFitsIndex(s, nb);
    }
  }

  lemma FastFound(s: State, i: nat, nb: nat)
    requires i < |s.fast| && s.fast[i] != [] && s.fast[i][0] in Listed(s.fast)
    requires s.fast[i][0] in s.head && s.head[s.fast[i][0]].size == nb
    ensures FastFits(s, nb) && FrontOfFast(s, s.fast[i][0])
  {
    hide Listed;
  }

  lemma HeldSize(s: State, p: nat)
    requires p in Used(s)
    ensures p in s.head && Used(s)[p] == s.head[p].size
  {
  }

  lemma SmallFound(s: State, i: nat, nb: nat)
    requires 2 <= i < |s.bins| && s.bins[i] != [] && nb < 512
    requires var q := s.bins[i][|s.bins[i]| - 1]; q in s.head && s.head[q].size == nb
    ensures SmallFits(s, nb) && BackOfBin(s, s.bins[i][|s.bins[i]| - 1])
  {
    var q := s.bins[i][|s.bins[i]| - 1];
    assert q in s.bins[i];
  }

  lemma SystemChosen(s: State, last: nat, p: nat, nb: nat)
    requires p == s.top && p in s.head && s.head[p].size < nb + MINSIZE && NoneFitting(s, nb) && Empty(s.fast)
    ensures Chosen(s, last, p, nb, FromSystem)
  {
  }

  /** A binned chunk of just the right size is the best fit. */
  lemma ExactIsBest(s: State, p: nat, nb: nat)
    requires Sound(s) && p in Listed(s.bins) && p in s.head && s.head[p].size == nb
    ensures BestFitting(s, p, nb)
  {
    hide Sound, Listed;
    forall q | q in Listed(s.bins) ensures q in s.head {
      FreeChunk(s, q);
    }
  }

  lemma InListed(b: seq<seq<nat>>, i: nat, k: nat)
    requires i < |b| && k < |b[i]|
    ensures b[i][k] in Listed(b)
  {
    hide InTable;
    InTableBucket(b, i);
    assert b[i][k] in multiset(b[i]);
  }
}
