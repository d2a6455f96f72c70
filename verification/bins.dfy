/** Sizes, bin indexing, sorted bins and the bin map (gclib/dlmalloc.c). */
module Bins {
  import opened BitSets
  import opened Chunks

  const NBINS: nat := 128
  const UNSORTED: nat := 1
  const NFASTBINS: nat := 11
  const MAX_FAST: nat := 80
  const MIN_LARGE_SIZE: nat := 512
  const SIZE_LIMIT: nat := 0x1_0000_0000_0000_0000

  // ---------- request sizes ----------

  predicate OutOfRange(req: nat) {
    req >= SIZE_LIMIT - 64
  }

  /** The requests refused are those that come close to wrapping around. */
  lemma OutOfRangeWraps(req: nat)
    requires req < SIZE_LIMIT
    ensures OutOfRange(req) <==> (req + 2 * MINSIZE) % SIZE_LIMIT < 2 * MINSIZE
    ensures OutOfRange(req) <==> req >= 0xffff_ffff_ffff_ffc0
  {
  }

  /** request2size for 8-byte size fields and 16-byte alignment. */
  function Request2Size(req: nat): nat {
    if req + 23 < MINSIZE then MINSIZE else (req + 23) / 16 * 16
  }

  predicate Aligned(n: nat) {
    n % 16 == 0 && MINSIZE <= n
  }

  /** The least chunk size whose payload, which may run into the next prev_size field, holds the request.
      Nothing wraps, not even after adding MINSIZE. */
  lemma RequestIsLeast(req: nat)
    requires !OutOfRange(req)
    ensures var nb := Request2Size(req);
      && Aligned(nb) && req + 8 <= nb && req + 23 < SIZE_LIMIT && nb + MINSIZE < SIZE_LIMIT
      && forall n :: Aligned(n) && req + 8 <= n ==> nb <= n
  {
    var nb := Request2Size(req);
    forall n | Aligned(n) && req + 8 <= n ensures nb <= n {
      assert n == n / 16 * 16;
    }
  }

  // ---------- bin indices ----------

  predicate Small(size: nat) {
    size < MIN_LARGE_SIZE
  }

  function LargeBinIndex(size: nat): nat {
    if size / 64 <= 32 then 56 + size / 64
    else if size / 512 <= 20 then 91 + size / 512
    else if size / 4096 <= 10 then 110 + size / 4096
    else if size / 32768 <= 4 then 119 + size / 32768
    else if size / 262144 <= 2 then 124 + size / 262144
    else 126
  }

  function BinIndex(size: nat): nat {
    if Small(size) then size / 8 else LargeBinIndex(size)
  }

  function FastIndex(size: nat): int {
    size / 8 - 2
  }

  lemma BinRange(size: nat)
    requires MINSIZE <= size
    ensures 4 <= BinIndex(size) <= 126 && (Small(size) <==> BinIndex(size) < 64)
  {
  }

  /** Bin indices follow sizes through all the ranges, slop included. */
  lemma BinMonotone(a: nat, b: nat)
    requires a <= b
    ensures BinIndex(a) <= BinIndex(b)
  {
    if Small(b) {
    } else if Small(a) {
      assert BinIndex(a) <= 63 && 64 <= BinIndex(b);
    } else {
      LargeMonotone(a, b);
    }
  }

  lemma LargeMonotone(a: nat, b: nat)
    requires MIN_LARGE_SIZE <= a <= b
    ensures LargeBinIndex(a) <= LargeBinIndex(b)
  {
  }

  /** How far the sizes of one bin lie apart. Between 40960 and 65535 two of the widths share bin 120. */
  function BinWidth(i: nat): nat {
    if i < 64 then 8 else if i <= 88 then 64 else if i <= 111 then 512 else if i <= 119 then 4096
    else if i <= 123 then 32768 else 262144
  }

  lemma BinWidths(a: nat, b: nat)
    requires a <= b && BinIndex(a) == BinIndex(b) < 126
    ensures b - a < BinWidth(BinIndex(a))
  {
    WidthOf(a);
    WidthOf(b);
  }

  /** Each bin but the last has its sizes within one width. */
  lemma WidthOf(size: nat)
    requires BinIndex(size) < 126
    ensures BinFloor(BinIndex(size)) <= size < BinFloor(BinIndex(size)) + BinWidth(BinIndex(size))
  {
  }

  /** The least size of a bin. */
  function BinFloor(i: nat): nat {
    if i < 64 then 8 * i else if i <= 88 then 64 * (i - 56) else if i <= 94 then 2112
    else if i <= 111 then 512 * (i - 91)
    else if i <= 119 then 4096 * (i - 110) else if i == 120 then 40960 else if i <= 123 then 32768 * (i - 119)
    else 262144 * (i - 124)
  }

  /** Each small bin holds one size. */
  lemma SmallBinExact(a: nat, b: nat)
    requires Aligned(a) && Aligned(b) && Small(a) && BinIndex(a) == BinIndex(b)
    ensures a == b
  {
    BinRange(a);
    BinRange(b);
  }

  // ---------- lists of free chunks ----------

  /** Largest first, as do_check_malloc_state walks them. */
  ghost predicate Sorted(h: Heads, l: seq<nat>) {
    && (forall p :: p in l ==> p in h)
    && forall i, j :: 0 <= i < j < |l| ==> h[l[i]].size >= h[l[j]].size
  }

  ghost predicate BinOk(h: Heads, l: seq<nat>, i: nat) {
    Sorted(h, l) && forall p :: p in l ==> BinIndex(h[p].size) == i
  }

  /** Regular bins hold chunks of their index, in order. */
  ghost predicate Binned(h: Heads, bins: seq<seq<nat>>) {
    |bins| == NBINS && bins[0] == [] && forall i {:trigger BinOk(h, bins[i], i)} ::
      2 <= i < NBINS ==> BinOk(h, bins[i], i)
  }

  ghost predicate FastBinOk(h: Heads, l: seq<nat>, i: int) {
    forall p :: p in l ==> p in h && h[p].size <= MAX_FAST && FastIndex(h[p].size) == i
  }

  ghost predicate FastBinned(h: Heads, fast: seq<seq<nat>>) {
    |fast| == NFASTBINS && forall i {:trigger FastBinOk(h, fast[i], i)} ::
      0 <= i < NFASTBINS ==> FastBinOk(h, fast[i], i)
  }

  /** Two chunks of one fast bin have the same size. */
  lemma FastBinExact(a: nat, b: nat)
    requires Aligned(a) && Aligned(b) && a <= MAX_FAST && FastIndex(a) == FastIndex(b)
    ensures a == b
  {
  }

  /** Place of a chunk in a non-empty large bin: at the very end when it is not larger than the last one, otherwise
      before the first one that is not larger. */
  ghost predicate LargePlaced(h: Heads, l: seq<nat>, size: nat, k: nat) {
    && k <= |l| && l != [] && (forall p :: p in l ==> p in h)
    && (k == |l| <==> size <= h[l[|l| - 1]].size)
    && (k < |l| ==> h[l[k]].size <= size && forall i :: 0 <= i < k ==> h[l[i]].size > size)
  }

  /** Where the insertion into a non-empty large bin links a chunk. Size fields are compared with their PREV_INUSE
      bit, which is set in all of them. */
  method LargePlace(h: Heads, l: seq<nat>, size: nat) returns (k: nat)
    requires l != [] && Sorted(h, l) && forall p :: p in l ==> h[p].pinuse
    ensures k <= |l| && (forall i :: 0 <= i < k ==> h[l[i]].size >= size)
      && (forall i :: k <= i < |l| ==> h[l[i]].size <= size)
    ensures LargePlaced(h, l, size, k)
  {
    var field := size + 1;
    if field <= h[l[|l| - 1]].Field() {
      k := |l|;
    } else {
      k := 0;
      while field < h[l[k]].Field()
        invariant k < |l| && field > h[l[|l| - 1]].Field()
        invariant forall i :: 0 <= i < k ==> h[l[i]].size > size
        decreases |l| - k
      {
        k := k + 1;
      }
    }
  }

  lemma InsertBinOk(h: Heads, l: seq<nat>, i: nat, k: nat, p: nat)
    requires BinOk(h, l, i) && p in h && BinIndex(h[p].size) == i && k <= |l|
    requires (forall j :: 0 <= j < k ==> h[l[j]].size >= h[p].size)
      && (forall j :: k <= j < |l| ==> h[l[j]].size <= h[p].size)
    ensures BinOk(h, l[..k] + [p] + l[k..], i)
  {
    hide BinIndex;
    var m := l[..k] + [p] + l[k..];
    forall x | x in m ensures x in h && BinIndex(h[x].size) == i {
      assert x == p || x in l;
    }
    forall a, b | 0 <= a < b < |m| ensures h[m[a]].size >= h[m[b]].size {
      PutAt(l, k, p, a);
      PutAt(l, k, p, b);
    }
  }

  lemma DropAt(l: seq<nat>, k: nat, j: nat)
    requires k < |l| && j < |l| - 1
    ensures (l[..k] + l[k + 1..])[j] == l[if j < k then j else j + 1]
  {
  }

  lemma DropBinOk(h: Heads, l: seq<nat>, i: nat, k: nat)
    requires BinOk(h, l, i) && k < |l|
    ensures BinOk(h, l[..k] + l[k + 1..], i)
  {
    var m := l[..k] + l[k + 1..];
    forall x | x in m ensures x in h && BinIndex(h[x].size) == i {
      assert x in l;
    }
    hide BinIndex;
    forall a, b | 0 <= a < b < |m| ensures h[m[a]].size >= h[m[b]].size {
      DropAt(l, k, a);
      DropAt(l, k, b);
    }
  }

  /** The fitting chunk nearest to the end of the list. */
  ghost predicate LastFit(h: Heads, l: seq<nat>, nb: nat, k: nat) {
    && k < |l| && (forall p :: p in l ==> p in h)
    && nb <= h[l[k]].size && forall j :: k < j < |l| ==> h[l[j]].size < nb
  }

  /** When a size is taken from a large bin that held it before `p` joined, the newest chunk goes first just when it
      is as small as the last one of the bin. */
  lemma NewestFirst(h: Heads, l: seq<nat>, p: nat, k: nat, m: seq<nat>, nb: nat, x: nat)
    requires Sorted(h, l) && p in h && p !in l && LargePlaced(h, l, h[p].size, k) && m == l[..k] + [p] + l[k..]
    requires LastFit(h, m, nb, x) && h[m[x]].size == h[p].size && exists q :: q in l && h[q].size == h[p].size
    ensures m[x] == p <==> h[p].size == h[l[|l| - 1]].size
  {
    var i :| 0 <= i < |l| && h[l[i]].size == h[p].size;
    assert h[l[i]].size >= h[l[|l| - 1]].size;
    hide Sorted;
    PutAt(l, k, p, x);
    PutAt(l, k, p, if k == |l| then k else i + 1);
    FromBack(h, l, p, k, m, nb, x, i);
  }

  lemma FromBack(h: Heads, l: seq<nat>, p: nat, k: nat, m: seq<nat>, nb: nat, x: nat, i: nat)
    requires p in h && LargePlaced(h, l, h[p].size, k) && LastFit(h, m, nb, x) && |m| == |l| + 1
    requires p !in l && i < |l| && h[l[i]].size == h[p].size == h[m[x]].size >= h[l[|l| - 1]].size
    requires m[x] == if x < k then l[x] else if x == k then p else l[x - 1]
    requires if k == |l| then m[k] == p else k <= i && m[i + 1] == l[i]
    ensures m[x] == p <==> h[p].size == h[l[|l| - 1]].size
  {
    if k < |l| {
      assert x >= i + 1 > k;
    } else {
      assert x == k;
    }
  }

  lemma PutAt(l: seq<nat>, k: nat, p: nat, j: nat)
    requires k <= |l| && j <= |l|
    ensures (l[..k] + [p] + l[k..])[j] == if j < k then l[j] else if j == k then p else l[j - 1]
  {
  }

  /** Such a bin: the third chunk of 608 bytes is linked behind the two that wait, and is taken before them. */
  lemma NewestOfThree(h: Heads, l: seq<nat>, k: nat, x: nat)
    requires h == map[4096 := Head(608, true), 8192 := Head(608, true), 12288 := Head(608, true)] && l == [4096, 8192]
    requires LargePlaced(h, l, 608, k) && LastFit(h, l[..k] + [12288] + l[k..], 608, x)
    ensures k == 2 && x == 2 && (l[..k] + [12288] + l[k..])[x] == 12288
  {
    var m := l[..k] + [12288] + l[k..];
    assert m == [4096, 8192, 12288] && m[2] == 12288;
  }

  /** The scan of a large bin from its small end. */
  method LargeScan(h: Heads, l: seq<nat>, nb: nat) returns (k: nat)
    requires Sorted(h, l) && l != [] && h[l[0]].size >= nb
    ensures LastFit(h, l, nb, k) && forall q :: q in l && nb <= h[q].size ==> h[l[k]].size <= h[q].size
  {
    k := |l| - 1;
    while h[l[k]].size < nb
      invariant k < |l| && forall j :: k < j < |l| ==> h[l[j]].size < nb
      decreases k
    {
      k := k - 1;
    }
    forall q | q in l && nb <= h[q].size ensures h[l[k]].size <= h[q].size {
      var j :| 0 <= j < |l| && l[j] == q;
    }
  }

  // ---------- the bin map ----------

  /** A clear bit means an empty bin. */
  ghost predicate Marked(binmap: Row, bins: seq<seq<nat>>) {
    && Packed(binmap, NBINS) && |bins| == NBINS
    && forall i :: 2 <= i < NBINS && bins[i] != [] ==> TestRow(binmap, i)
  }

  /** bit <<= 1 */
  function Up(b: bv32): bv32 {
    b << 1
  }

  /** bit > map */
  predicate Passes(b: bv32, m: bv32) {
    b > m
  }

  ghost predicate PowerOfTwo(b: bv32) {
    b != 0 && b & (b - 1) == 0
  }

  lemma MaskIsPower(s: bv5)
    ensures PowerOfTwo(Mask(s)) && (s != 31 ==> Mask(s + 1) == Mask(s) << 1 && Mask(s + 1) > Mask(s))
    ensures Mask(31) == 0x8000_0000 && Mask(0) == 1
  {
  }

  lemma NextBit(k: nat)
    requires k < 32
    ensures PowerOfTwo(Bit(k))
    ensures k < 31 ==> Bit(k + 1) == Up(Bit(k)) && Bit(k + 1) > Bit(k)
    ensures k == 31 ==> Bit(k) == 0x8000_0000 && Up(Bit(k)) == 0
    ensures Bit(0) == 1
  {
    var s := k as bv5;
    MaskIsPower(s);
    assert k < 31 ==> (k + 1) as bv5 == s + 1;
  }

  lemma BelowPower(m: bv32, b: bv32)
    requires PowerOfTwo(b) && Passes(b, m)
    ensures !Meets(m, b)
  {
  }

  lemma AbovePower(m: bv32, b: bv32)
    requires PowerOfTwo(b) && !Passes(b, m) && !Meets(m, b)
    ensures b != 0x8000_0000 && !Passes(Up(b), m)
  {
  }

  lemma PassesUp(b: bv32, m: bv32)
    requires PowerOfTwo(b) && Up(b) > b && Passes(b, m)
    ensures Passes(Up(b), m)
  {
  }

  lemma {:induction false} PassesOn(m: bv32, k: nat, j: nat)
    requires k <= j < 32 && Passes(Bit(k), m)
    ensures Passes(Bit(j), m)
    decreases j
  {
    hide Bit, PowerOfTwo, Passes, Up;
    if k < j {
      PassesOn(m, k, j - 1);
      NextBit(j - 1);
      PassesUp(Bit(j - 1), m);
    }
  }

  /** `bit <= map` while the bit itself is clear: there is a set bit further up. */
  lemma BitAbove(m: bv32, k: nat)
    requires k < 32 && !Passes(Bit(k), m) && !TestBit(m, k)
    ensures k < 31 && Up(Bit(k)) == Bit(k + 1) && !Passes(Bit(k + 1), m)
  {
    hide Bit, Meets, PowerOfTwo, Up, Passes;
    NextBit(k);
    AbovePower(m, Bit(k));
  }

  lemma NoBitAbove(m: bv32, k: nat, j: nat)
    requires k <= j < 32 && Passes(Bit(k), m)
    ensures !TestBit(m, j)
  {
    hide Bit, Meets, PowerOfTwo, Passes;
    PassesOn(m, k, j);
    NextBit(j);
    BelowPower(m, Bit(j));
  }

  lemma {:induction false} OnlyClearAbove(m: bv32, k: nat)
    requires k < 32 && forall j :: k <= j < 32 ==> !TestBit(m, j)
    ensures Passes(Bit(k), m)
    decreases 32 - k
  {
    hide Bit, TestBit, Passes;
    if !Passes(Bit(k), m) {
      BitAbove(m, k);
      OnlyClearAbove(m, k + 1);
    }
  }

  /** The test `bit > map` holds exactly when no set bit remains at or above the bit. */
  lemma BitPassesMap(m: bv32, k: nat)
    requires k < 32
    ensures Passes(Bit(k), m) <==> forall j :: k <= j < 32 ==> !TestBit(m, j)
  {
    hide Bit, TestBit, Passes;
    if Passes(Bit(k), m) {
      forall j | k <= j < 32 ensures !TestBit(m, j) {
        NoBitAbove(m, k, j);
      }
    } else if forall j :: k <= j < 32 ==> !TestBit(m, j) {
      OnlyClearAbove(m, k);
    }
  }

  /** A word with a set bit is not passed by its lowest bit. */
  lemma FirstBit(m: bv32)
    requires m != 0
    ensures Bit(0) == 1 && !Passes(1, m)
  {
    NextBit(0);
  }

  /** Shifting past a clear bit below a set one. */
  lemma StepBit(m: bv32, k: nat)
    requires k < 32 && !Passes(Bit(k), m) && !Meets(m, Bit(k))
    ensures k < 31 && Up(Bit(k)) == Bit(k + 1) && Bit(k + 1) != 0 && !Passes(Bit(k + 1), m)
  {
    BitAbove(m, k);
    NextBit(k + 1);
  }
}
