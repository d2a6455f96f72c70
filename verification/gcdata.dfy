/** The collector's state (struct GC_gcdata_s): heap accounting, collection, allocation. */
module Gcdata {
  import opened Lists
  import opened Words
  import opened Records
  import opened ObjTable
  import opened Marking
  import opened Roots

  const MEM_SIZELIMIT := FLAG_BIT - 257
  const NEVER_COLLECT: int := -0x8000_0000
  const DATAROOT_BYTES := 24
  const OBJLINK_BYTES := 24

  /** Bytes of a bucket array with its end marker. */
  function HrootBytes(log2: nat): nat {
    8 * Pow2(log2) + 8
  }

  /** The bytes charged for the bucket array are 8 for each bucket and for the end marker. */
  lemma ArrayBytes(t: ObjHtable)
    requires t.Ok()
    ensures HrootBytes(t.log2Size) == 8 * (|t.hroots| + 1)
  {
    hide Layout;
  }

  /** The numbers the collector keeps, beside the object table. */
  datatype Books = Books(
    totalHeap: nat, freeBytes: nat, followscan: nat, blockBytes: nat, rootNodes: nat, otherBytes: nat, records: nat)

  /** Core-allocator bytes the collector holds. */
  ghost function Outstanding(t: ObjHtable, b: Books): nat {
    Tally(t.Objs()).bytes + HrootBytes(t.log2Size) + b.blockBytes + DATAROOT_BYTES * b.rootNodes + b.otherBytes
  }

  /** How often a record occurs over all the lists. */
  ghost function Census(t: ObjHtable): multiset<nat> {
    Tally(t.Objs()).ids + Tally(multiset(t.unlinkedList)).ids
  }

  /** Every record ever made is in exactly one place: table, follow, marked, free or unlinked list. */
  ghost predicate OnePlaceEach(t: ObjHtable, records: nat) {
    forall id: nat :: Census(t)[id] == if id < records then 1 else 0
  }

  /** The books agree with the lists. `owed` bytes were just taken from the core allocator and are not yet
      in use. */
  ghost predicate Balanced(t: ObjHtable, b: Books, owed: nat) {
    && t.pendingFree == Tally(multiset(t.freeList)).bytes
    && b.followscan == Tally(t.Objs()).followable
    && b.totalHeap == b.freeBytes + Outstanding(t, b) + owed
    && b.totalHeap - b.freeBytes < FLAG_BIT && b.totalHeap < WORD
  }

  ghost predicate Sound(t: ObjHtable, b: Books, owed: nat) {
    t.Ok() && t.log2Size >= 8 && OnePlaceEach(t, b.records) && Balanced(t, b, owed)
  }

  // ---------- blocks from the core allocator ----------

  predicate ClearOf(s: seq<Rec>, ptr: Word, size: nat) {
    forall r :: r in s ==> r.obj + r.Size() <= ptr || ptr + size <= r.obj
  }

  /** A block malloc may return: aligned, inside the address space and clear of every object. */
  predicate IsBlock(t: ObjHtable, ptr: Word, size: nat) {
    && 0 < ptr <= WORD - 257 && ptr % 8 == 0 && ptr + size < WORD
    && (forall i :: 0 <= i < |t.hroots| ==> ClearOf(t.hroots[i], ptr, size))
    && ClearOf(t.freeList, ptr, size) && ClearOf(t.markedList, ptr, size) && ClearOf(t.followList, ptr, size)
  }

  /** Every aligned block inside the address space that is clear of all objects may be returned, and no other. */
  lemma BlocksAreClear(t: ObjHtable, ptr: Word, size: nat)
    ensures IsBlock(t, ptr, size) <==>
      (0 < ptr <= WORD - 257 && ptr % 8 == 0 && ptr + size < WORD
       && forall r :: r in t.Objs() ==> r.obj + r.Size() <= ptr || ptr + size <= r.obj)
  {
    hide Rec.Size;
    if IsBlock(t, ptr, size) {
      forall r | r in t.Objs() ensures r.obj + r.Size() <= ptr || ptr + size <= r.obj {
        if r in t.White() {
          var i := BucketOf(t.hroots, r);
          assert ClearOf(t.hroots[i], ptr, size);
        } else {
          assert r in t.freeList || r in t.markedList || r in t.followList;
        }
      }
    }
    if forall r :: r in t.Objs() ==> r.obj + r.Size() <= ptr || ptr + size <= r.obj {
      forall i | 0 <= i < |t.hroots| ensures ClearOf(t.hroots[i], ptr, size) {
        forall r | r in t.hroots[i] ensures r in t.Objs() {
          InTableBucket(t.hroots, i);
          assert r in multiset(t.hroots[i]);
        }
      }
      assert forall r :: r in t.freeList || r in t.markedList || r in t.followList ==> r in t.Objs();
    }
  }

  lemma NullIsNoBlock(t: ObjHtable, size: nat)
    ensures !IsBlock(t, 0, size)
  {
  }

  /** Books after `size` bytes came from the core allocator. */
  function Charge(b: Books, size: nat): Books {
    if b.freeBytes < size then b.(totalHeap := b.totalHeap + (size - b.freeBytes), freeBytes := 0)
    else b.(freeBytes := b.freeBytes - size)
  }

  lemma ChargeSound(t: ObjHtable, b: Books, owed: nat, size: nat)
    requires Sound(t, b, owed) && b.totalHeap - b.freeBytes + size < FLAG_BIT
    ensures Sound(t, Charge(b, size), owed + size)
  {
    hide Tally, OnePlaceEach, Pow2;
  }

  /** The heap limit test does not wrap: what would be in use after the request is compared. */
  lemma LimitTest(total: nat, free: nat, size: nat)
    requires free <= total && total - free < FLAG_BIT && size < FLAG_BIT && total < WORD
    ensures Wrap(total - Wrap(free - size)) == total - free + size
  {
  }

  lemma SoundBounds(t: ObjHtable, b: Books, owed: nat)
    requires Sound(t, b, owed)
    ensures b.freeBytes + 16 <= b.totalHeap && b.totalHeap - b.freeBytes < FLAG_BIT && b.totalHeap < WORD
    ensures t.pendingFree <= b.totalHeap - b.freeBytes
  {
    hide Tally, OnePlaceEach, Pow2;
    TallyUnion(t.Kept(), multiset(t.freeList));
  }

  // ---------- giving garbage back ----------

  /** The first pending object is freed: its record is cleared and goes to the unused ones. */
  function Popped(t: ObjHtable): ObjHtable
    requires t.freeList != [] && t.freeList[0].Size() <= t.pendingFree
  {
    var r := t.freeList[0];
    t.(freeList := t.freeList[1..], unlinkedList := [Rec(r.id, 0, r.flagged)] + t.unlinkedList,
       pendingFree := t.pendingFree - r.Size())
  }

  function Credit(b: Books, r: Rec): Books
    requires r.Followable() <= b.followscan
  {
    b.(freeBytes := b.freeBytes + r.Size(), followscan := b.followscan - r.Followable())
  }

  lemma LayoutShrinks(m: multiset<Rec>, m': multiset<Rec>)
    requires Layout(m) && m' <= m
    ensures Layout(m')
  {
    forall r | r in m' ensures WellPlaced(r) && m'[r] == 1 {
      assert r in m;
    }
    forall r, q | r in m' && q in m' && r != q ensures Apart(r, q) {
      assert r in m && q in m;
    }
  }

  lemma FreeHead(k: multiset<Rec>, f: seq<Rec>)
    requires f != []
    ensures k + multiset(f) == k + multiset(f[1..]) + multiset{f[0]}
    ensures multiset(f) == multiset(f[1..]) + multiset{f[0]}
  {
    assert f == [f[0]] + f[1..];
  }

  lemma PoppedTally(t: ObjHtable)
    requires t.freeList != []
    ensures var r, rest := t.freeList[0], t.Kept() + multiset(t.freeList[1..]);
      && Tally(t.Objs()) == Plus(One(r), Tally(rest)) && rest <= t.Objs()
      && Tally(multiset(t.freeList)) == Plus(One(r), Tally(multiset(t.freeList[1..])))
      && forall c: Rec :: c.id == r.id ==>
           Tally(multiset([c] + t.unlinkedList)).ids == multiset{r.id} + Tally(multiset(t.unlinkedList)).ids
  {
    hide Tally;
    FreeHead(t.Kept(), t.freeList);
    TallyAdd(t.Kept() + multiset(t.freeList[1..]), t.freeList[0]);
    TallyAdd(multiset(t.freeList[1..]), t.freeList[0]);
    forall c: Rec | c.id == t.freeList[0].id
      ensures Tally(multiset([c] + t.unlinkedList)).ids == multiset{c.id} + Tally(multiset(t.unlinkedList)).ids
    {
      assert multiset([c] + t.unlinkedList) == multiset(t.unlinkedList) + multiset{c};
      TallyAdd(multiset(t.unlinkedList), c);
    }
  }

  lemma PopBalanced(t: ObjHtable, b: Books, owed: nat)
    requires Balanced(t, b, owed) && t.freeList != [] && t.freeList[0].Size() <= t.pendingFree
    requires t.freeList[0].Followable() <= b.followscan
    requires var r, rest := t.freeList[0], t.Kept() + multiset(t.freeList[1..]);
      && Tally(t.Objs()) == Plus(One(r), Tally(rest))
      && Tally(multiset(t.freeList)) == Plus(One(r), Tally(multiset(t.freeList[1..])))
    ensures Balanced(Popped(t), Credit(b, t.freeList[0]), owed)
  {
    hide Tally, Pow2, KeptOf, Rec.Size, Rec.Followable;
  }

  lemma PopOk(t: ObjHtable)
    requires t.Ok() && t.freeList != [] && t.freeList[0].Size() <= t.pendingFree
    requires t.Kept() + multiset(t.freeList[1..]) <= t.Objs()
    ensures Popped(t).Ok() && t.freeList[0].Size() > 0
  {
    hide TableOk, Layout, InTable;
    LayoutShrinks(t.Objs(), Popped(t).Objs());
    KeptInside(Popped(t));
    InLayout(t.Objs(), t.freeList[0]);
  }

  lemma PopSound(t: ObjHtable, b: Books, owed: nat)
    requires Sound(t, b, owed) && t.freeList != []
    ensures var r := t.freeList[0];
      && r.Size() <= t.pendingFree && r.Followable() <= b.followscan && r.Size() > 0
      && Sound(Popped(t), Credit(b, r), owed) && Popped(t).Kept() == t.Kept()
  {
    hide Tally, Pow2, Inv, KeptOf, InTable, Rec.Size, Rec.Followable;
    PoppedTally(t);
    assert t.freeList[0].Size() <= t.pendingFree && t.freeList[0].Followable() <= b.followscan by { hide OnePlaceEach; }
    PopBalanced(t, b, owed);
    PopOk(t);
    assert Census(Popped(t)) == Census(t);
  }

  lemma KeptInside(t: ObjHtable)
    ensures t.White() <= t.Objs()
  {
  }

  /** The loop of GC_objlink_free_pending. */
  method Drain(t0: ObjHtable, freeBytes: nat, followscan: nat, enough: Word, ghost b0: Books, ghost owed: nat)
    returns (t: ObjHtable, freeBytes': nat, followscan': nat, count: nat)
    requires Sound(t0, b0, owed) && b0.freeBytes == freeBytes && b0.followscan == followscan
    ensures Sound(t, b0.(freeBytes := freeBytes', followscan := followscan'), owed) && t.Kept() == t0.Kept()
    ensures count <= |t0.freeList| && t.freeList == t0.freeList[count..]
    ensures count == 0 <==> t0.freeList == []
    ensures count == 0 ==> t == t0 && freeBytes' == freeBytes
    ensures enough == WORD - 1 ==> t.freeList == []
    ensures |t.unlinkedList| == |t0.unlinkedList| + count
    ensures t == t0.(freeList := t.freeList, unlinkedList := t.unlinkedList, pendingFree := t.pendingFree)
  {
    hide Sound, KeptOf, Rec.Size, Rec.Atomic, Wrap, InTable, Tally, Inv;
    ghost var g, b := t0, b0;
    SoundBounds(g, b, owed);
    var free, unlinked := t0.freeList, t0.unlinkedList;
    var totalsize: Word := 0;
    freeBytes', followscan', count := freeBytes, followscan, 0;
    while free != []
      invariant Sound(g, b, owed) && g.Kept() == t0.Kept()
      invariant b == b0.(freeBytes := freeBytes', followscan := followscan')
      invariant g == t0.(freeList := free, unlinkedList := unlinked, pendingFree := g.pendingFree)
      invariant count <= |t0.freeList| && free == t0.freeList[count..] && |unlinked| == |t0.unlinkedList| + count
      invariant g.pendingFree <= t0.pendingFree < FLAG_BIT
      invariant count == 0 ==> freeBytes' == freeBytes && totalsize == 0 && unlinked == t0.unlinkedList
      invariant totalsize % FLAG_BIT == (t0.pendingFree - g.pendingFree) % FLAG_BIT
      decreases |free|
    {
      var r := free[0];
      PopSound(g, b, owed);
      MaskedSum(totalsize, t0.pendingFree - g.pendingFree, r.flagged);
      PopNumbers(r);
      g, b := Popped(g), Credit(b, r);
      SoundBounds(g, b, owed);
      free := free[1..];
      if !r.Atomic() {
        followscan' := followscan' - r.Size() / 8 * 8;
      }
      unlinked := [Rec(r.id, 0, r.flagged)] + unlinked;
      totalsize := Wrap(totalsize + r.flagged);
      count := count + 1;
      freeBytes' := freeBytes' + r.Size();
      if freeBytes' >= enough {
        break;
      }
    }
    t := t0.(freeList := free, unlinkedList := unlinked, pendingFree := t0.pendingFree - totalsize % FLAG_BIT);
    assert t == g;
  }

  lemma PopNumbers(r: Rec)
    ensures r.flagged % FLAG_BIT == r.Size()
    ensures r.Followable() == if r.Atomic() then 0 else r.Size() / 8 * 8
  {
  }

  // ---------- steps that move records without freeing any ----------

  lemma SameKeptSound(t: ObjHtable, t': ObjHtable, b: Books, owed: nat)
    requires Sound(t, b, owed) && t'.Ok() && t'.Kept() == t.Kept()
    requires t'.freeList == t.freeList && t'.unlinkedList == t.unlinkedList
    requires t'.log2Size == t.log2Size && t'.pendingFree == t.pendingFree
    ensures Sound(t', b, owed)
  {
    hide Tally, Pow2, Inv, KeptOf, InTable;
    assert Census(t') == Census(t);
  }

  /** Sweeping: the white records go to the free list and their bytes become pending. */
  lemma SweepSound(t: ObjHtable, t': ObjHtable, b: Books, removed: Word, live: nat)
    requires Sound(t, b, 0) && live == Tally(t.Kept()).bytes
    requires t'.Ok() && t'.White() == multiset{} && t'.Objs() == t.Objs()
    requires multiset(t'.freeList) == multiset(t.freeList) + t.White()
    requires t'.followList == t.followList && t'.markedList == t.markedList
    requires t'.unlinkedList == t.unlinkedList && t'.log2Size == t.log2Size
    requires removed % FLAG_BIT == Tally(t.White()).bytes % FLAG_BIT
    ensures removed % FLAG_BIT == Tally(t.White()).bytes <= live
    ensures t'.Kept() == multiset(t.followList) + multiset(t.markedList)
    ensures Tally(t'.Kept()).bytes == live - removed % FLAG_BIT
    ensures Sound(t'.(pendingFree := t.pendingFree + removed % FLAG_BIT), b, 0)
  {
    hide Tally, Pow2, Inv, InTable;
    var rest := multiset(t.followList) + multiset(t.markedList);
    assert t.Kept() == t.White() + rest;
    assert t'.Kept() == rest;
    TallyUnion(t.White(), rest);
    TallyUnion(multiset(t.freeList), t.White());
    TallyUnion(t.Kept(), multiset(t.freeList));
    assert Census(t'.(pendingFree := t.pendingFree + removed % FLAG_BIT)) == Census(t);
  }

  // ---------- replacing the bucket array ----------

  function Rehashed(t: ObjHtable): ObjHtable {
    t.(hroots := seq(Pow2(t.log2Size + 1), i => []), log2Size := t.log2Size + 1)
  }

  lemma RehashSound(t: ObjHtable, b: Books)
    requires Sound(t, b, HrootBytes(t.log2Size + 1)) && t.White() == multiset{}
    ensures Sound(Rehashed(t), b.(freeBytes := b.freeBytes + HrootBytes(t.log2Size)), 0)
    ensures Rehashed(t).Kept() == t.Kept() && Rehashed(t).White() == multiset{}
  {
    hide Tally, Layout, Pow2, Index;
    var t' := Rehashed(t);
    AllEmpty(t'.hroots);
    assert t'.Kept() == t.Kept();
    assert Census(t') == Census(t);
    assert TableOk(t'.hroots, t'.log2Size, t'.minObj, t'.maxObj);
  }

  // ---------- making room ----------

  lemma BlockSound(t: ObjHtable, b: Books, size: nat)
    requires Sound(t, b, size)
    ensures Sound(t, b.(blockBytes := b.blockBytes + size), 0)
  {
    hide Tally, Pow2, Inv, OnePlaceEach;
  }

  lemma ExpandSound(t: ObjHtable, b: Books, inc: nat)
    requires Sound(t, b, 0) && b.totalHeap + inc < WORD
    ensures Sound(t, b.(totalHeap := b.totalHeap + inc, freeBytes := b.freeBytes + inc), 0)
  {
    hide Tally, Pow2, Inv, OnePlaceEach;
  }

  lemma UnusedCensus(t: ObjHtable, c: Rec)
    ensures Census(t.(unlinkedList := [c] + t.unlinkedList)) == Census(t) + multiset{c.id}
  {
    hide Tally;
    assert multiset([c] + t.unlinkedList) == multiset(t.unlinkedList) + multiset{c};
    TallyAdd(multiset(t.unlinkedList), c);
  }

  /** A new record starts out unused. */
  lemma UnusedSound(t: ObjHtable, b: Books, owed: nat)
    requires Sound(t, b, owed)
    ensures var t' := t.(unlinkedList := [Rec(b.records, 0, 0)] + t.unlinkedList);
      Sound(t', b.(records := b.records + 1), owed) && t'.Kept() == t.Kept()
  {
    hide Tally, Pow2, Inv, Census, KeptOf;
    var t' := t.(unlinkedList := [Rec(b.records, 0, 0)] + t.unlinkedList);
    UnusedCensus(t, Rec(b.records, 0, 0));
    forall id: nat ensures Census(t')[id] == if id < b.records + 1 then 1 else 0 {
      assert Census(t)[id] == if id < b.records then 1 else 0;
    }
  }

  /** The records of a fresh block are linked into the unlinked list one by one. */
  method FillUnused(t0: ObjHtable, records: nat, count: nat, ghost b: Books)
    returns (t: ObjHtable, records': nat)
    requires Sound(t0, b, 0) && b.records == records && count > 0
    ensures Sound(t, b.(records := records'), 0) && t.Kept() == t0.Kept()
    ensures t.unlinkedList != [] && records' == records + count
  {
    hide Sound, KeptOf;
    t, records' := t0, records;
    while records' < records + count
      invariant records <= records' <= records + count
      invariant Sound(t, b.(records := records'), 0) && t.Kept() == t0.Kept()
      invariant records' > records ==> t.unlinkedList != []
    {
      UnusedSound(t, b.(records := records'), 0);
      t := t.(unlinkedList := [Rec(records', 0, 0)] + t.unlinkedList);
      records' := records' + 1;
    }
  }

  // ---------- enlarging the table without a collection ----------

  lemma LendOk(t: ObjHtable)
    requires t.Ok() && t.freeList == []
    ensures var l := t.(freeList := t.markedList, markedList := []);
      l.Ok() && l.Objs() == t.Objs() && l.White() == t.White() && l.Objs() == t.Kept()
  {
    hide Layout, TableOk, InTable;
    var l := t.(freeList := t.markedList, markedList := []);
    assert l.Objs() == t.Objs() == t.Kept();
  }

  lemma ParkSound(t: ObjHtable, t': ObjHtable, b: Books, owed: nat)
    requires Sound(t, b, owed) && t.freeList == []
    requires t'.Ok() && t'.White() == multiset{} && t'.Objs() == t.Kept()
    requires t'.markedList == [] && t'.unlinkedList == t.unlinkedList
    requires t'.log2Size == t.log2Size && t'.pendingFree == t.pendingFree
    ensures var p := t'.(markedList := t'.freeList, freeList := []);
      Sound(p, b, owed) && p.White() == multiset{} && p.Kept() == t.Kept()
  {
    hide Layout, TableOk, InTable, Tally, Pow2;
    var p := t'.(markedList := t'.freeList, freeList := []);
    assert p.Objs() == t'.Objs() && p.Kept() == t'.Objs();
    assert t.Objs() == t.Kept();
    assert Census(p) == Census(t);
  }

  // ---------- a new object ----------

  lemma BlockLayout(t: ObjHtable, ptr: Word, size: nat, r: Rec)
    requires t.Ok() && IsBlock(t, ptr, size) && 0 < size && r.obj == ptr && r.Size() == size
    ensures Layout(t.Objs() + multiset{r})
  {
    hide Rec.Size;
    forall q | q in t.Objs() ensures Apart(q, r) && q != r && t.Objs()[q] == 1 && WellPlaced(q) {
      BlockApart(t, ptr, size, q);
    }
    assert WellPlaced(r);
    forall q | q in t.Objs() + multiset{r} ensures WellPlaced(q) && (t.Objs() + multiset{r})[q] == 1 {
      assert q == r || q in t.Objs();
    }
    forall q, p | q in t.Objs() + multiset{r} && p in t.Objs() + multiset{r} && q != p ensures Apart(q, p) {
      assert q == r || q in t.Objs();
      assert p == r || p in t.Objs();
    }
  }

  lemma BlockApart(t: ObjHtable, ptr: Word, size: nat, q: Rec)
    requires t.Ok() && IsBlock(t, ptr, size) && q in t.Objs()
    ensures q.obj + q.Size() <= ptr || ptr + size <= q.obj
  {
    hide Rec.Size, TableOk, Layout;
    if q in t.White() {
      var i := BucketOf(t.hroots, q);
      assert ClearOf(t.hroots[i], ptr, size);
    } else {
      assert q in t.freeList || q in t.markedList || q in t.followList;
    }
  }

  lemma AddSound(t: ObjHtable, t': ObjHtable, b: Books, r: Rec)
    requires Sound(t, b, r.Size()) && t.unlinkedList != [] && r.id == t.unlinkedList[0].id
    requires t'.Ok() && t'.White() == t.White() + multiset{r} && t'.unlinkedList == t.unlinkedList[1..]
    requires t'.followList == t.followList && t'.markedList == t.markedList && t'.freeList == t.freeList
    requires t'.log2Size == t.log2Size && t'.pendingFree == t.pendingFree
    ensures t'.Kept() == t.Kept() + multiset{r}
    ensures Tally(t'.Kept()).bytes == Tally(t.Kept()).bytes + r.Size()
    ensures Sound(t', b.(followscan := b.followscan + r.Followable()), 0)
  {
    hide Inv, InTable, Tally, Pow2, Rec.Size, Rec.Followable, KeptOf;
    OneMoreKept(t, t', r);
    TallyAdd(t.Kept(), r);
    TallyAdd(t.Objs(), r);
    FirstUnused(t.unlinkedList);
    SameCensus(Tally(t.Objs()).ids, Tally(multiset(t'.unlinkedList)).ids, r.id);
    assert Census(t') == Census(t);
  }

  lemma OneMoreKept(t: ObjHtable, t': ObjHtable, r: Rec)
    requires t'.White() == t.White() + multiset{r} && t'.freeList == t.freeList
    requires t'.followList == t.followList && t'.markedList == t.markedList
    ensures t'.Kept() == t.Kept() + multiset{r} && t'.Objs() == t.Objs() + multiset{r}
  {
    hide InTable;
  }

  lemma FirstUnused(u: seq<Rec>)
    requires u != []
    ensures Tally(multiset(u)).ids == multiset{u[0].id} + Tally(multiset(u[1..])).ids
  {
    assert u == [u[0]] + u[1..];
    assert multiset(u) == multiset(u[1..]) + multiset{u[0]};
    TallyAdd(multiset(u[1..]), u[0]);
  }

  lemma SameCensus(a: multiset<nat>, b: multiset<nat>, id: nat)
    ensures multiset{id} + a + b == a + (multiset{id} + b)
  {
  }

  // ---------- root nodes ----------

  function RoundUp(a: Word): (r: Word)
    ensures r % 8 == 0
  {
    Wrap(a + 7) / 8 * 8
  }

  function RoundDown(a: Word): (r: Word)
    ensures r % 8 == 0
  {
    a / 8 * 8
  }

  /** A range that rounding leaves non-empty stays inside the one given, just when rounding up does not wrap. */
  lemma RoundedInwards(begin: Word)
    ensures (forall end: Word :: RoundUp(begin) < RoundDown(end) ==> begin <= RoundUp(begin) && RoundDown(end) <= end)
      <==> begin <= WORD - 8
  {
    if begin > WORD - 8 {
      assert RoundUp(begin) < RoundDown(8);
    }
  }

  /** A range that begins at the last byte of the address space becomes one from address 0 on. */
  lemma RoundedOutwards()
    ensures RoundUp(WORD - 1) == 0 && RoundDown(64) == 64
    ensures Covers([Interval(RoundUp(WORD - 1), RoundDown(64))], 0)
  {
    assert [Interval(0, 64)][0].begin <= 0;
  }

  /** Rounding moves an address by less than a word. */
  lemma RoundsToWords(a: Word)
    ensures RoundDown(a) % 8 == 0 && RoundDown(a) <= a < RoundDown(a) + 8
    ensures a <= WORD - 8 ==> RoundUp(a) % 8 == 0 && a <= RoundUp(a) < a + 8
  {
  }

  lemma RootNodes(t: ObjHtable, b: Books, owed: nat, nodes: nat)
    requires Sound(t, b, owed) && nodes >= b.rootNodes && owed == DATAROOT_BYTES * (nodes - b.rootNodes)
    ensures Sound(t, b.(rootNodes := nodes), 0)
  {
    hide Tally, Pow2, Inv, OnePlaceEach;
  }

  lemma DropNodes(t: ObjHtable, b: Books, freed: nat)
    requires Sound(t, b, 0) && freed <= b.rootNodes
    ensures Sound(t, b.(freeBytes := b.freeBytes + freed * DATAROOT_BYTES, rootNodes := b.rootNodes - freed), 0)
  {
    hide Tally, Pow2, Inv, OnePlaceEach;
  }

  lemma FreshSound(t: ObjHtable, b: Books)
    requires t == ObjHtable(seq(Pow2(8), i => []), [], [], [], [], WORD - 1, 256, 0, 8, 0)
    requires b == Books(2200, 0, 0, 0, 0, 144, 0)
    ensures Sound(t, b, 0) && t.Kept() == multiset{} && Tally(t.Kept()).bytes == 0
  {
    hide Layout, Index;
    AllEmpty(t.hroots);
    assert t.Kept() == multiset{} && t.Objs() == multiset{};
    assert Layout(multiset{}) by { EmptyLayout(); }
    assert Pow2(8) == 2 * Pow2(7) == 4 * Pow2(6) == 8 * Pow2(5) == 16 * Pow2(4);
    assert Pow2(4) == 2 * Pow2(3) == 4 * Pow2(2) == 8 * Pow2(1) == 16 * Pow2(0);
  }

  lemma EmptyLayout()
    ensures Layout(multiset{})
  {
  }

  class Collector {
    var table: ObjHtable
    var dataroots: seq<Interval>
    var datarootSize: nat
    var totalHeap: nat
    var freeBytes: nat
    var expandedHeap: nat
    var markedBytes: nat
    var bytesAllocd: nat
    var followscan: nat
    var allocdBefore: nat
    var blockBytes: nat
    var records: nat
    var gcNo: nat
    var recycling: bool
    var maxHeap: Word
    var dontExpand: bool
    var dontGc: int
    var interior: bool
    const otherBytes: nat
    /** The environment: what the core allocator answers to its n-th request, 0 for none, and what the stop function
        answers to its n-th call. */
    const core: nat -> Word
    const stops: nat -> bool
    var asked: nat
    var polls: nat

    ghost function Ledger(): Books
      reads this
    {
      Books(totalHeap, freeBytes, followscan, blockBytes, |dataroots|, otherBytes, records)
    }

    ghost predicate Held(owed: nat)
      reads this
    {
      Sound(table, Ledger(), owed)
    }

    /** marked_bytes and bytes_allocd together count the objects that are not pending. */
    ghost predicate LiveCounted()
      reads this
    {
      markedBytes + bytesAllocd == Tally(table.Kept()).bytes
    }

    ghost predicate Valid()
      reads this
    {
      Held(0) && LiveCounted()
    }

    /** The request is within the size limit and either covered by free bytes or within the heap limit. */
    ghost predicate Room(size: nat, dontExpand: bool)
      reads this
    {
      && size <= 0x8000_0000_0000_0000 - 257
      && (freeBytes > size || (!dontExpand && totalHeap - freeBytes + size <= maxHeap))
    }

    /** The answer of the core allocator can be used. */
    ghost predicate Usable(ptr: Word, size: nat)
      reads this
    {
      IsBlock(table, ptr, size) && totalHeap - freeBytes + size < FLAG_BIT
    }

    /** No room, or the core allocator was asked since then and had nothing in the end. */
    ghost predicate Denied(size: nat, since: nat)
      reads this
    {
      !Room(size, false) || (since < asked && !Usable(core(asked - 1), size))
    }

    lemma DeniedSince(size: nat, later: nat, since: nat)
      requires Denied(size, later) && since <= later
      ensures Denied(size, since)
    {
    }

    /** A collection was given up since then because the stop function asked for it. */
    ghost predicate Stopped(since: nat)
      reads this`polls
    {
      since < polls && stops(polls - 1)
    }

    /** GC_inner_core_malloc: 0 just when there is no room or the core allocator has nothing. */
    method InnerCoreMalloc(size: nat, dontExpand: bool) returns (ptr: Word)
      requires Held(0) && 0 < size
      modifies this`totalHeap, this`freeBytes, this`asked
      ensures ptr != 0 <==> old(Room(size, dontExpand)) && old(Usable(core(asked), size))
      ensures ptr != 0 ==> ptr == core(old(asked))
      ensures asked == old(asked) + if old(Room(size, dontExpand)) then 1 else 0
      ensures ptr == 0 ==> Held(0) && totalHeap == old(totalHeap) && freeBytes == old(freeBytes)
      ensures ptr != 0 ==> Held(size) && IsBlock(table, ptr, size) && size <= MEM_SIZELIMIT
      ensures old(totalHeap <= maxHeap) ==> totalHeap <= maxHeap
    {
      hide Sound, IsBlock, Balanced, Wrap;
      ptr := 0;
      ghost var before := Ledger();
      SoundBounds(table, before, 0);
      if size <= MEM_SIZELIMIT {
        LimitTest(totalHeap, freeBytes, size);
      }
      assert !IsBlock(table, 0, size) by { NullIsNoBlock(table, size); }
      if size <= MEM_SIZELIMIT
         && (freeBytes > size || (!dontExpand && Wrap(totalHeap - Wrap(freeBytes - size)) <= maxHeap)) {
        ptr := core(asked);
        asked := asked + 1;
        if !IsBlock(table, ptr, size) || totalHeap - freeBytes + size >= FLAG_BIT {
          ptr := 0;
        }
        if ptr != 0 {
          ChargeSound(table, before, 0, size);
          if freeBytes < size {
            totalHeap := totalHeap + (size - freeBytes);
            freeBytes := 0;
          } else {
            freeBytes := freeBytes - size;
          }
          assert Ledger() == Charge(before, size);
        }
      }
    }

    /** GC_objlink_free_pending: pending objects are freed until `enough` bytes are free. The freed sizes are
        summed with their flag bits and masked once. */
    method FreePending(enough: Word, ghost owed: nat) returns (count: nat)
      requires Held(owed)
      modifies this`table, this`freeBytes, this`followscan
      ensures Held(owed) && table.Kept() == old(table.Kept())
      ensures count <= |old(table.freeList)| && table.freeList == old(table.freeList)[count..]
      ensures count == 0 <==> old(table.freeList) == []
      ensures count == 0 ==> table == old(table) && freeBytes == old(freeBytes)
      ensures enough == WORD - 1 ==> table.freeList == []
      ensures |table.unlinkedList| == |old(table.unlinkedList)| + count
      ensures table == old(table).(freeList := table.freeList, unlinkedList := table.unlinkedList,
                                   pendingFree := table.pendingFree)
    {
      hide Sound, KeptOf;
      var t, free, follow;
      t, free, follow, count := Drain(table, freeBytes, followscan, enough, Ledger(), owed);
      table, freeBytes, followscan := t, free, follow;
    }

    /** Freeing pending objects changes nothing else of the table. */
    twostate predicate OnlyPendingFreed()
      reads this
    {
      && table == old(table).(freeList := table.freeList, unlinkedList := table.unlinkedList,
                              pendingFree := table.pendingFree)
      && |table.unlinkedList| >= |old(table.unlinkedList)|
    }

    /** GC_alloc_hroots, as far as the accounts go: room for a bucket array of 2^newLog2 entries. */
    method AllocHroots(newLog2: nat) returns (ok: bool)
      requires Held(0)
      modifies this`table, this`totalHeap, this`freeBytes, this`followscan, this`asked
      ensures Held(if ok then HrootBytes(newLog2) else 0)
      ensures OnlyPendingFreed() && table.Kept() == old(table.Kept())
      ensures old(totalHeap <= maxHeap) ==> totalHeap <= maxHeap
      ensures asked >= old(asked) && (!ok ==> Denied(HrootBytes(newLog2), old(asked)))
    {
      hide Sound, KeptOf, Pow2;
      var ptr := InnerCoreMalloc(HrootBytes(newLog2), dontExpand);
      if ptr == 0 {
        var n := FreePending(WORD - 1, 0);
        if n != 0 || dontExpand {
          ptr := InnerCoreMalloc(HrootBytes(newLog2), false);
        }
      }
      ok := ptr != 0;
    }

    /** The collector moves to a bucket array twice as long. The old one must hold no record. */
    method Rehash()
      requires Held(HrootBytes(table.log2Size + 1)) && table.White() == multiset{}
      modifies this`table, this`freeBytes
      ensures Held(0) && table.White() == multiset{} && table.Kept() == old(table.Kept())
      ensures table == Rehashed(old(table))
    {
      hide Sound, KeptOf, Pow2, InTable;
      RehashSound(table, Ledger());
      freeBytes := freeBytes + HrootBytes(table.log2Size);
      table := Rehashed(table);
    }

    /** The data roots are in order and dataroot_size is their total length. */
    ghost predicate RootsOk()
      reads this
    {
      Gapped(dataroots) && datarootSize == Length(dataroots)
    }

    /** GC_objlink_some_refill repeated until nothing is left to refill or the stop function says so. */
    method RefillAll(mayStop: bool) returns (stopped: bool)
      requires Valid()
      modifies this`table, this`polls
      ensures Valid() && table.Kept() == old(table.Kept())
      ensures table.freeList == old(table.freeList) && table.log2Size == old(table.log2Size)
      ensures table.unlinkedList == old(table.unlinkedList)
      ensures if stopped then mayStop && Stopped(old(polls)) else table.followList == [] && table.markedList == []
      ensures polls >= old(polls)
    {
      hide Sound, KeptOf, Inv, InTable, Tally;
      stopped := false;
      while true
        invariant Valid() && table.Kept() == old(table.Kept())
        invariant table.freeList == old(table.freeList) && table.log2Size == old(table.log2Size)
        invariant table.unlinkedList == old(table.unlinkedList) && polls >= old(polls)
        decreases |table.followList| + |table.markedList|
      {
        SoundIsOk(table, Ledger(), 0);
        var t, n := table.SomeRefill(1024);
        SameKeptSound(table, t, Ledger(), 0);
        table := t;
        if n == 0 {
          return;
        }
        if mayStop {
          polls := polls + 1;
          if stops(polls - 1) {
            stopped := true;
            return;
          }
        }
      }
    }

    /** The mark phase. `done` says that all roots and all grey objects were scanned. */
    method Mark(w: Snapshot, mayStop: bool) returns (done: bool)
      requires Valid() && w.Ok() && w.roots != []
      requires table.followList == [] && table.markedList == [] && table.count != 0
      modifies this`table, this`polls
      ensures Valid() && table.Kept() == old(table.Kept())
      ensures table.freeList == old(table.freeList) && table.log2Size == old(table.log2Size)
      ensures table.unlinkedList == old(table.unlinkedList)
      ensures table.count <= old(table.count) && polls >= old(polls)
      ensures done ==> MarkedRight(w, table.Kept(), multiset(table.followList) + multiset(table.markedList))
      ensures !done ==> mayStop && Stopped(old(polls))
    {
      hide Sound, KeptOf, Inv, Reachable;
      ghost var objs := table.Kept();
      SoundIsOk(table, Ledger(), 0);
      var t, n, q := ScanRoots(table, w, mayStop, stops, polls);
      done := false;
      if n == |w.roots| {
        t, q := ScanFollowable(t, w, mayStop, stops, q, objs, n);
        if t.followList == [] {
          done := true;
          MarkedExactly(t, w, objs);
          assert multiset(t.followList) + multiset(t.markedList) == multiset(t.markedList);
        }
      }
      SameKeptSound(table, t, Ledger(), 0);
      Populations(table);
      Populations(t);
      table, polls := t, q;
    }

    /** The end of a completed collection: white objects go to the free list. */
    method Sweep() returns (swept: nat)
      requires Held(0) && markedBytes == Tally(table.Kept()).bytes
      modifies this`table, this`markedBytes
      ensures Held(0) && markedBytes == Tally(table.Kept()).bytes && table.White() == multiset{}
      ensures table.Kept() == multiset(old(table.followList)) + multiset(old(table.markedList))
      ensures table.followList == old(table.followList) && table.markedList == old(table.markedList)
      ensures table.Objs() == old(table.Objs()) && table.log2Size == old(table.log2Size)
      ensures swept <= old(table.count) && table.unlinkedList == old(table.unlinkedList)
    {
      hide Sound, KeptOf, Inv, Tally;
      swept := 0;
      SoundIsOk(table, Ledger(), 0);
      if table.count != 0 {
        var pending := table.pendingFree + markedBytes;
        var t, n, removed := table.RemoveAll();
        swept := n;
        SweepSound(table, t, Ledger(), removed, markedBytes);
        Populations(table);
        markedBytes := markedBytes - removed % FLAG_BIT;
        table := t.(pendingFree := pending - markedBytes);
      } else {
        NothingWhite(table);
      }
    }

    /** An empty table moves to an array twice as long, if one can be had. */
    method Enlarge()
      requires Held(0) && table.White() == multiset{} && table.log2Size >= 8
      modifies this`table, this`totalHeap, this`freeBytes, this`followscan, this`asked
      ensures Held(0) && table.White() == multiset{} && table.Kept() == old(table.Kept()) && asked >= old(asked)
      ensures old(totalHeap <= maxHeap) ==> totalHeap <= maxHeap
      ensures |table.unlinkedList| >= |old(table.unlinkedList)|
    {
      hide Sound, KeptOf, Inv, Tally, Pow2, InTable, Denied;
      ghost var t := table;
      var ok := AllocHroots(table.log2Size + 1);
      assert table.White() == t.White();
      if ok {
        Rehash();
      }
    }

    /** The closing part of a collection: sweeping, a larger bucket array when the table was crowded, and
        the counters of a fresh cycle. `objCount` is the table's population before marking. */
    method Finish(objCount: nat)
      requires Held(0) && LiveCounted() && table.count <= objCount
      modifies this`table, this`totalHeap, this`freeBytes, this`markedBytes, this`bytesAllocd, this`followscan,
               this`allocdBefore, this`gcNo, this`asked
      ensures Valid() && table.White() == multiset{} && bytesAllocd == 0
      ensures table.Kept() == multiset(old(table.followList)) + multiset(old(table.markedList))
      ensures gcNo == old(gcNo) + 1 && asked >= old(asked)
      ensures old(totalHeap <= maxHeap) ==> totalHeap <= maxHeap
      ensures |table.unlinkedList| >= |old(table.unlinkedList)|
    {
      hide Sound, KeptOf, Inv, Tally, Pow2, InTable, Denied;
      gcNo := gcNo + 1;
      markedBytes := markedBytes + bytesAllocd;
      var swept := Sweep();
      SoundIsOk(table, Ledger(), 0);
      if objCount / 2 < objCount - swept && 3 * Pow2(table.log2Size - 2) <= objCount {
        Enlarge();
      }
      allocdBefore := allocdBefore + bytesAllocd;
      bytesAllocd := 0;
    }

    /** The part of a collection after the first question to the stop function. */
    method Collect(w: Snapshot, mayStop: bool)
      requires Valid() && w.Ok() && w.roots != []
      modifies this`table, this`totalHeap, this`freeBytes, this`markedBytes, this`bytesAllocd, this`followscan,
               this`asked, this`polls, this`allocdBefore, this`gcNo
      ensures Valid()
      ensures old(totalHeap <= maxHeap) ==> totalHeap <= maxHeap
      ensures gcNo == old(gcNo) || gcNo == old(gcNo) + 1
      ensures |table.unlinkedList| >= |old(table.unlinkedList)| && asked >= old(asked) && polls >= old(polls)
      ensures gcNo != old(gcNo) ==>
        MarkedRight(w, old(table.Kept()), table.Kept()) && table.White() == multiset{} && bytesAllocd == 0
      ensures gcNo == old(gcNo) ==> mayStop && Stopped(old(polls))
      ensures gcNo == old(gcNo) ==> table.Kept() == old(table.Kept()) && table.freeList == old(table.freeList)
      ensures gcNo == old(gcNo) ==> bytesAllocd == old(bytesAllocd) && totalHeap == old(totalHeap)
    {
      hide Sound, KeptOf, Inv, Tally, MarkedRight, Pow2, InTable;
      var stopped := RefillAll(mayStop);
      if !stopped {
        var objCount := table.count;
        SoundIsOk(table, Ledger(), 0);
        if table.count != 0 {
          var done := Mark(w, mayStop);
          stopped := !done;
        } else {
          NothingWhite(table);
          NothingMarked(w, table.Kept(), table.followList, table.markedList);
        }
        if !stopped {
          Finish(objCount);
        }
      }
    }

    /** GC_collect_unreachable. A collection counts as done when gc_no moves on. */
    method CollectUnreachable(mem: Word -> Word, stack: Interval, mayStop: bool)
      requires Valid() && RootsOk()
      modifies this`table, this`totalHeap, this`freeBytes, this`markedBytes, this`bytesAllocd, this`followscan,
               this`asked, this`polls, this`allocdBefore, this`gcNo, this`recycling
      ensures Valid() && RootsOk()
      ensures old(totalHeap <= maxHeap) ==> totalHeap <= maxHeap
      ensures gcNo == old(gcNo) || gcNo == old(gcNo) + 1
      ensures gcNo == old(gcNo) ==> dataroots == [] || (mayStop && Stopped(old(polls)))
      ensures asked >= old(asked) && polls >= old(polls)
      ensures |table.unlinkedList| >= |old(table.unlinkedList)|
      // done: what is kept contains everything reachable and nothing a scan did not reach
      ensures gcNo != old(gcNo) ==>
        MarkedRight(ScanSet(mem, stack, dataroots, interior), old(table.Kept()), table.Kept())
      ensures Survive(ScanSet(mem, stack, dataroots, interior), old(table.Kept()), table.Kept())
      ensures gcNo != old(gcNo) ==> NoneLost(mem, stack, dataroots, interior, old(table.Kept()), table.Kept())
      ensures gcNo != old(gcNo) && stack.begin <= WORD - 8 ==>
        NoneSpared(mem, stack, dataroots, interior, old(table.Kept()), table.Kept())
      ensures gcNo != old(gcNo) ==> table.White() == multiset{} && bytesAllocd == 0
      // given up: nothing is reclaimed
      ensures gcNo == old(gcNo) ==> table.Kept() == old(table.Kept()) && table.freeList == old(table.freeList)
      ensures gcNo == old(gcNo) ==> bytesAllocd == old(bytesAllocd) && totalHeap == old(totalHeap)
    {
      hide Sound, KeptOf, Inv, Gapped, Length, Tally, MarkedRight, Pow2, ScanSet, InTable, NoneLost, NoneSpared,
           WellPlaced, Survive;
      ObjectsPlaced();
      SurviveAll(ScanSet(mem, stack, dataroots, interior), table.Kept());
      if dataroots != [] {
        var stop := false;
        if mayStop {
          polls := polls + 1;
          stop := stops(polls - 1);
        }
        if !stop {
          Collect(ScanSet(mem, stack, dataroots, interior), mayStop);
          if gcNo != old(gcNo) {
            MarkedSurvive(ScanSet(mem, stack, dataroots, interior), old(table.Kept()), table.Kept());
            MarkedWords(mem, stack, dataroots, interior, old(table.Kept()), table.Kept());
          }
        }
        if bytesAllocd == 0 {
          recycling := true;
        }
      }
    }

    /** GC_core_malloc_with_gc. `res` is the caller's retry state: negative once a collection was run. */
    method CoreMallocWithGc(mem: Word -> Word, stack: Interval, size: nat, res: int) returns (ptr: Word, res': int)
      requires Valid() && RootsOk() && 0 < size
      modifies this`table, this`totalHeap, this`freeBytes, this`markedBytes, this`bytesAllocd, this`followscan,
               this`asked, this`polls, this`allocdBefore, this`gcNo, this`recycling
      ensures ptr == 0 ==> Held(0)
      ensures ptr != 0 ==> Held(size) && IsBlock(table, ptr, size) && size <= MEM_SIZELIMIT
      ensures LiveCounted() && RootsOk()
      ensures old(totalHeap <= maxHeap) ==> totalHeap <= maxHeap
      ensures Survive(ScanSet(mem, stack, dataroots, interior), old(table.Kept()), table.Kept())
      ensures |table.unlinkedList| >= |old(table.unlinkedList)|
      ensures asked >= old(asked) && polls >= old(polls) && (ptr == 0 ==> Denied(size, old(asked)))
    {
      hide Sound, KeptOf, Inv, Gapped, Length, Tally, Survive, MarkedRight, Pow2, ScanSet, IsBlock, InTable, Room,
           Usable, NoneLost, NoneSpared, Denied;
      ghost var w, objs := ScanSet(mem, stack, dataroots, interior), table.Kept();
      SurviveAll(w, objs);
      res' := res;
      ptr := InnerCoreMalloc(size, dontExpand);
      if ptr == 0 {
        if res >= 0 {
          ptr, res' := FreeOrCollect(mem, stack, size);
        }
        if ptr == 0 {
          ghost var later := asked;
          ptr := LastResort(size);
          if ptr == 0 {
            DeniedSince(size, later, old(asked));
          }
        }
      }
    }

    /** Pending objects are freed for the request, and if that is not enough there is a collection. */
    method FreeOrCollect(mem: Word -> Word, stack: Interval, size: nat) returns (ptr: Word, res': int)
      requires Valid() && RootsOk() && 0 < size
      modifies this`table, this`totalHeap, this`freeBytes, this`markedBytes, this`bytesAllocd, this`followscan,
               this`asked, this`polls, this`allocdBefore, this`gcNo, this`recycling
      ensures ptr == 0 ==> Held(0)
      ensures ptr != 0 ==> Held(size) && IsBlock(table, ptr, size) && size <= MEM_SIZELIMIT
      ensures LiveCounted() && RootsOk()
      ensures old(totalHeap <= maxHeap) ==> totalHeap <= maxHeap
      ensures Survive(ScanSet(mem, stack, dataroots, interior), old(table.Kept()), table.Kept())
      ensures |table.unlinkedList| >= |old(table.unlinkedList)| && asked >= old(asked) && polls >= old(polls)
    {
      hide Sound, KeptOf, Inv, Gapped, Length, Tally, Survive, MarkedRight, Pow2, ScanSet, IsBlock, InTable, Room,
           Usable, NoneLost, NoneSpared;
      ghost var w, objs := ScanSet(mem, stack, dataroots, interior), table.Kept();
      SurviveAll(w, objs);
      ptr, res' := 0, 0;
      var n := FreePending(WORD - 1, 0);
      if n != 0 {
        ptr := InnerCoreMalloc(size, dontExpand);
      }
      if ptr == 0 && dontGc == 0 {
        CollectUnreachable(mem, stack, false);
        res' := -1;
      }
    }

    method LastResort(size: nat) returns (ptr: Word)
      requires Held(0) && 0 < size
      modifies this`table, this`totalHeap, this`freeBytes, this`followscan, this`asked
      ensures ptr == 0 ==> Held(0)
      ensures ptr != 0 ==> Held(size) && IsBlock(table, ptr, size) && size <= MEM_SIZELIMIT
      ensures OnlyPendingFreed() && table.Kept() == old(table.Kept())
      ensures old(totalHeap <= maxHeap) ==> totalHeap <= maxHeap
      ensures asked >= old(asked) && (ptr == 0 ==> Denied(size, old(asked)))
    {
      hide Sound, KeptOf, Inv, Tally, Pow2, IsBlock;
      ptr := 0;
      var count := FreePending(if size < WORD then size else WORD - 1, 0);
      if count != 0 {
        ptr := InnerCoreMalloc(size, dontExpand);
      }
      if ptr == 0 && (count == 0 || dontExpand) {
        ptr := InnerCoreMalloc(size, false);
      }
    }

    /** GC_alloc_objlinks: a block of unused records, a quarter as many as there are buckets. */
    method AllocObjlinks(mem: Word -> Word, stack: Interval, res: int) returns (ok: bool, res': int)
      requires Valid() && RootsOk()
      modifies this`table, this`totalHeap, this`freeBytes, this`markedBytes, this`bytesAllocd, this`followscan,
               this`asked, this`polls, this`allocdBefore, this`gcNo, this`recycling, this`blockBytes, this`records
      ensures Valid() && RootsOk()
      ensures ok ==> table.unlinkedList != []
      ensures !ok ==> Denied(24 * Pow2(old(table.log2Size) - 2) + 8, old(asked))
      ensures asked >= old(asked) && polls >= old(polls)
      ensures old(totalHeap <= maxHeap) ==> totalHeap <= maxHeap
      ensures Survive(ScanSet(mem, stack, dataroots, interior), old(table.Kept()), table.Kept())
    {
      hide Sound, KeptOf, Inv, Gapped, Length, Tally, Survive, ScanSet, IsBlock, Pow2, Room, Usable;
      SoundIsOk(table, Ledger(), 0);
      var count := Pow2(table.log2Size - 2);
      var size := count * OBJLINK_BYTES + 8;
      var ptr;
      ptr, res' := CoreMallocWithGc(mem, stack, size, res);
      ok := ptr != 0;
      if ok {
        if res' >= 0 {
          res' := 0;
        }
        BlockSound(table, Ledger(), size);
        blockBytes := blockBytes + size;
        var t, n := FillUnused(table, records, count, Ledger());
        table, records := t, n;
      }
    }

    /** GC_heap_expand: raises the heap size without exceeding the limit. The probe of the core allocator
        gives its memory back at once. */
    method HeapExpand(request: Word) returns (res: int)
      requires Held(0)
      modifies this`totalHeap, this`freeBytes, this`expandedHeap, this`asked
      ensures Held(0)
      ensures old(totalHeap <= maxHeap) ==> totalHeap <= maxHeap
      ensures totalHeap - freeBytes == old(totalHeap - freeBytes)
      ensures res < 0 ==> totalHeap == old(totalHeap)
      ensures res == 0 ==> old(totalHeap) <= totalHeap <= maxHeap
      ensures asked >= old(asked)
    {
      hide Sound, Balanced, Wrap;
      SoundBounds(table, Ledger(), 0);
      res := -1;
      var inc: nat := if request > 2048 then Wrap(request + 7) / 8 * 8 else 2048;
      if Wrap(freeBytes + inc) <= MEM_SIZELIMIT {
        expandedHeap := Wrap(totalHeap + inc);
        if maxHeap > totalHeap {
          if maxHeap - totalHeap < inc {
            inc := maxHeap - totalHeap;
          }
          var n := asked + 1;
          var got := core(asked) != 0;
          while !got
            invariant inc <= maxHeap - totalHeap && n > asked
            decreases inc
          {
            inc := inc / 2;
            if inc == 0 {
              break;
            }
            got := core(n) != 0;
            n := n + 1;
          }
          asked := n;
          if got {
            ExpandSound(table, Ledger(), inc);
            totalHeap := totalHeap + inc;
            expandedHeap := totalHeap;
            freeBytes := freeBytes + inc;
            res := 0;
          }
        }
      }
    }

    /** The branch of GC_general_malloc that enlarges the table without collecting: the free list is drained
        and lent to GC_objlink_remove_all, so that the white records join the marked ones for refilling. */
    method RehashOnly() returns (ok: bool)
      requires Valid()
      modifies this`table, this`totalHeap, this`freeBytes, this`followscan, this`asked
      ensures Valid() && table.Kept() == old(table.Kept())
      ensures |table.unlinkedList| >= |old(table.unlinkedList)|
      ensures old(totalHeap <= maxHeap) ==> totalHeap <= maxHeap
      ensures asked >= old(asked)
    {
      hide Sound, KeptOf, Inv, Tally, Pow2, InTable;
      ok := AllocHroots(table.log2Size + 1);
      if ok {
        ghost var owed := HrootBytes(table.log2Size + 1);
        var n := FreePending(WORD - 1, owed);
        SoundIsOk(table, Ledger(), owed);
        LendOk(table);
        var t, cnt, removed := table.(freeList := table.markedList, markedList := []).RemoveAll();
        ParkSound(table, t, Ledger(), owed);
        table := t.(markedList := t.freeList, freeList := []);
        Rehash();
      }
    }

    /** A granted block becomes an object: one unused record describes it and enters the table. */
    method NewObject(obj: Word, size: nat, atomic: bool)
      requires Held(size) && LiveCounted() && IsBlock(table, obj, size) && 0 < size < FLAG_BIT
      requires table.unlinkedList != []
      modifies this`table, this`bytesAllocd, this`followscan
      ensures Valid()
      ensures table.Kept() == old(table.Kept()) + multiset{NewRec(old(table.unlinkedList)[0], obj, size, atomic)}
      ensures NewRec(old(table.unlinkedList)[0], obj, size, atomic) in table.White()
    {
      hide Sound, KeptOf, Inv, Tally, IsBlock, NewRec, InTable;
      ghost var r := NewRec(table.unlinkedList[0], obj, size, atomic);
      SoundIsOk(table, Ledger(), size);
      BlockLayout(table, obj, size, r);
      bytesAllocd := bytesAllocd + size;
      var t := table.Add(obj, size, atomic);
      AddSound(table, t, Ledger(), r);
      if !atomic {
        followscan := followscan + size / 8 * 8;
      }
      table := t;
    }

    /** The lazy work after an allocation: some records are refilled and some garbage is freed. */
    method Recycle()
      requires Valid()
      modifies this`table, this`freeBytes, this`followscan, this`recycling
      ensures Valid() && table.Kept() == old(table.Kept()) && old(table.White()) <= table.White()
    {
      hide Sound, KeptOf, Inv, Tally, InTable;
      SoundIsOk(table, Ledger(), 0);
      var t, n := table.SomeRefill(10);
      SameKeptSound(table, t, Ledger(), 0);
      table := t;
      if table.freeList != [] {
        var m := FreePending(0, 0);
        n := n + 2 * m;
        if n > 1 {
          var more := n > 2;
          if !more {
            m := FreePending(Wrap(freeBytes + 256), 0);
            more := m == 1;
          }
          if more {
            m := FreePending(0, 0);
          }
        }
      }
      if n == 0 {
        recycling := false;
      }
    }

    /** First pass of GC_general_malloc: a crowded table is collected or enlarged; otherwise the pacing
        heuristics, which are left open here, may ask for a collection or for a larger heap. `lazy` is the
        source's retry == 0. */
    method Prepare(mem: Word -> Word, stack: Interval) returns (res: int, lazy: bool)
      requires Valid() && RootsOk()
      modifies this`table, this`totalHeap, this`freeBytes, this`markedBytes, this`bytesAllocd, this`followscan,
               this`asked, this`polls, this`allocdBefore, this`gcNo, this`recycling, this`expandedHeap
      ensures Valid() && RootsOk()
      ensures old(totalHeap <= maxHeap) ==> totalHeap <= maxHeap
      ensures Survive(ScanSet(mem, stack, dataroots, interior), old(table.Kept()), table.Kept())
      ensures asked >= old(asked) && polls >= old(polls)
    {
      hide Sound, KeptOf, Inv, Gapped, Length, Tally, Survive, MarkedRight, Pow2, ScanSet, InTable, NoneLost,
           NoneSpared;
      ghost var w, objs := ScanSet(mem, stack, dataroots, interior), table.Kept();
      SurviveAll(w, objs);
      SoundIsOk(table, Ledger(), 0);
      res, lazy := 1, false;
      if 3 * Pow2(table.log2Size - 2) <= table.count && bytesAllocd != 0 {
        if dontGc != 0 || dataroots == [] {
          if dontGc == NEVER_COLLECT || dataroots == [] {
            var ok := RehashOnly();
            if ok {
              res := -1;
            }
          }
        } else {
          CollectUnreachable(mem, stack, true);
          res := -1;
        }
      } else {
        if !recycling && dontGc == 0 {
          var collect: bool := *;
          if collect {
            CollectUnreachable(mem, stack, true);
            res := -1;
          } else {
            lazy := true;
          }
        }
        if bytesAllocd != 0 {
          var expand: Word := *;
          if expand != 0 && !dontExpand && expandedHeap <= totalHeap {
            var r := HeapExpand(expand);
          }
          lazy := true;
        }
      }
    }

    /** One pass of GC_general_malloc after the preparation: a record, then a block, then the object. */
    method TryMalloc(mem: Word -> Word, stack: Interval, size: nat, atomic: bool, res: int)
      returns (obj: Word, res': int, ghost rec: Rec, ghost denied: nat)
      requires Valid() && RootsOk() && 0 < size
      modifies this`table, this`totalHeap, this`freeBytes, this`markedBytes, this`bytesAllocd, this`followscan,
               this`asked, this`polls, this`allocdBefore, this`gcNo, this`recycling, this`blockBytes, this`records
      ensures Valid() && RootsOk()
      ensures old(totalHeap <= maxHeap) ==> totalHeap <= maxHeap
      ensures obj != 0 ==> Describes(rec, obj, size, atomic) && rec in table.White()
      ensures Survive(ScanSet(mem, stack, dataroots, interior), old(table.Kept()), Before(table, obj, rec))
      ensures asked >= old(asked) && polls >= old(polls)
      ensures obj == 0 ==> Denied(denied, old(asked)) && (denied == size || BlockOfRecords(denied))
    {
      hide Sound, KeptOf, Inv, Gapped, Length, Tally, Survive, Pow2, ScanSet, InTable, IsBlock, NewRec, Denied;
      ghost var w, objs := ScanSet(mem, stack, dataroots, interior), table.Kept();
      SurviveAll(w, objs);
      obj, res', rec, denied := 0, res, Rec(0, 0, 0), size;
      var ok := true;
      if table.unlinkedList == [] {
        SoundIsOk(table, Ledger(), 0);
        denied := 24 * Pow2(table.log2Size - 2) + 8;
        assert BlockOfRecords(denied);
        ok, res' := AllocObjlinks(mem, stack, res');
      }
      if ok {
        denied := size;
        ghost var mid, later := table.Kept(), asked;
        obj, res', rec := GetObject(mem, stack, size, atomic, res');
        SurviveTwice(w, objs, mid, Before(table, obj, rec));
        if obj == 0 {
          DeniedSince(size, later, old(asked));
        }
      }
    }

    /** The block for an object, and the object in it. */
    method GetObject(mem: Word -> Word, stack: Interval, size: nat, atomic: bool, res: int)
      returns (obj: Word, res': int, ghost rec: Rec)
      requires Valid() && RootsOk() && 0 < size && table.unlinkedList != []
      modifies this`table, this`totalHeap, this`freeBytes, this`markedBytes, this`bytesAllocd, this`followscan,
               this`asked, this`polls, this`allocdBefore, this`gcNo, this`recycling
      ensures Valid() && RootsOk()
      ensures old(totalHeap <= maxHeap) ==> totalHeap <= maxHeap
      ensures obj != 0 ==> Describes(rec, obj, size, atomic) && rec in table.White()
      ensures Survive(ScanSet(mem, stack, dataroots, interior), old(table.Kept()), Before(table, obj, rec))
      ensures asked >= old(asked) && polls >= old(polls) && (obj == 0 ==> Denied(size, old(asked)))
    {
      hide Sound, KeptOf, Inv, Gapped, Length, Tally, Survive, Pow2, ScanSet, InTable, IsBlock, NewRec, Denied;
      rec := Rec(0, 0, 0);
      obj, res' := CoreMallocWithGc(mem, stack, size, res);
      if obj != 0 {
        rec := NewRec(table.unlinkedList[0], obj, size, atomic);
        ghost var kept := table.Kept();
        NewObject(obj, size, atomic);
        assert table.Kept() - multiset{rec} == kept;
      }
    }

    /** GC_general_malloc. Whatever collections it runs on the way, everything reachable stays allocated, and
        the object returned is in the table. There is none only if a request for it, or for a block of records, was
        denied. */
    method GeneralMalloc(mem: Word -> Word, stack: Interval, objsize: nat, atomic: bool, maxRetries: nat)
      returns (obj: Word, ghost rec: Rec, ghost denied: nat)
      requires Valid() && RootsOk()
      modifies this`table, this`totalHeap, this`freeBytes, this`markedBytes, this`bytesAllocd, this`followscan,
               this`asked, this`polls, this`allocdBefore, this`gcNo, this`recycling, this`blockBytes, this`records,
               this`expandedHeap
      ensures Valid() && RootsOk()
      ensures old(totalHeap <= maxHeap) ==> totalHeap <= maxHeap
      ensures objsize == 0 ==> obj == 0
      ensures obj != 0 ==> Describes(rec, obj, PaddedSize(objsize, interior), atomic) && rec in table.White()
      ensures obj != 0 ==> objsize <= rec.Size() <= objsize + 1
      ensures obj != 0 ==> (rec.Size() == objsize + 1 <==> interior && objsize < 256)
      ensures obj != 0 && rec.Size() == objsize + 1 ==>
        obj + objsize < WORD && Names(false, obj + objsize, rec, true)
      ensures Survive(ScanSet(mem, stack, dataroots, interior), old(table.Kept()), Before(table, obj, rec))
      ensures NoneLost(mem, stack, dataroots, interior, old(table.Kept()), Before(table, obj, rec))
      ensures obj == 0 && objsize != 0 ==> Denied(denied, old(asked))
      ensures obj == 0 && objsize != 0 ==> objsize <= denied <= objsize + 1 || BlockOfRecords(denied)
    {
      hide Sound, KeptOf, Inv, Gapped, Length, Tally, Survive, ScanSet, InTable, Valid, Describes, Pow2, NoneLost,
           WellPlaced, Names, Denied, BlockOfRecords;
      ghost var objs := table.Kept();
      ObjectsPlaced();
      SurviveAll(ScanSet(mem, stack, dataroots, interior), objs);
      obj, rec, denied := 0, Rec(0, 0, 0), 0;
      if objsize != 0 {
        obj, rec, denied := Serve(mem, stack, PaddedSize(objsize, interior), atomic, maxRetries);
        if obj != 0 {
          NewPlaced(rec);
          PaddedByOne(objsize, interior, obj, rec, atomic);
        }
      }
      SurviveWords(mem, stack, dataroots, interior, objs, Before(table, obj, rec));
    }

    /** The loop of GC_general_malloc. */
    method Serve(mem: Word -> Word, stack: Interval, size: nat, atomic: bool, maxRetries: nat)
      returns (obj: Word, ghost rec: Rec, ghost denied: nat)
      requires Valid() && RootsOk() && 0 < size
      modifies this`table, this`totalHeap, this`freeBytes, this`markedBytes, this`bytesAllocd, this`followscan,
               this`asked, this`polls, this`allocdBefore, this`gcNo, this`recycling, this`blockBytes, this`records,
               this`expandedHeap
      ensures Valid() && RootsOk()
      ensures old(totalHeap <= maxHeap) ==> totalHeap <= maxHeap
      ensures obj != 0 ==> Describes(rec, obj, size, atomic) && rec in table.White()
      ensures Survive(ScanSet(mem, stack, dataroots, interior), old(table.Kept()), Before(table, obj, rec))
      ensures obj == 0 ==> Denied(denied, old(asked)) && (denied == size || BlockOfRecords(denied))
    {
      hide Sound, KeptOf, Inv, Gapped, Length, Tally, Survive, ScanSet, InTable, Valid, Describes, Pow2, Room, Usable;
      ghost var w, objs := ScanSet(mem, stack, dataroots, interior), table.Kept();
      var res, lazy := Prepare(mem, stack);
      ghost var mid := table.Kept();
      obj, res, rec, denied := TryMalloc(mem, stack, size, atomic, res);
      SurviveTwice(w, objs, mid, Before(table, obj, rec));
      if obj != 0 {
        if lazy && recycling && res > 0 {
          Recycle();
        }
      } else if res > 0 {
        obj, rec, denied := Retry(mem, stack, size, atomic, maxRetries, objs, denied, old(asked));
      }
    }

    lemma NewPlaced(r: Rec)
      requires Valid() && r in table.White()
      ensures WellPlaced(r)
    {
      ObjectsPlaced();
      hide WellPlaced, InTable;
      assert r in table.Kept();
    }

    lemma ObjectsPlaced()
      requires Valid()
      ensures forall r :: r in table.Kept() ==> WellPlaced(r)
    {
      SoundIsOk(table, Ledger(), 0);
      KeptPlaced(table);
    }

    /** Later passes: no preparation and no lazy work. */
    method Retry(mem: Word -> Word, stack: Interval, size: nat, atomic: bool, passes: nat, ghost objs: multiset<Rec>,
                 ghost denied0: nat, ghost since: nat)
      returns (obj: Word, ghost rec: Rec, ghost denied: nat)
      requires Valid() && RootsOk() && 0 < size && since <= asked
      requires Survive(ScanSet(mem, stack, dataroots, interior), objs, table.Kept())
      requires Denied(denied0, since) && (denied0 == size || BlockOfRecords(denied0))
      modifies this`table, this`totalHeap, this`freeBytes, this`markedBytes, this`bytesAllocd, this`followscan,
               this`asked, this`polls, this`allocdBefore, this`gcNo, this`recycling, this`blockBytes, this`records
      ensures Valid() && RootsOk()
      ensures old(totalHeap <= maxHeap) ==> totalHeap <= maxHeap
      ensures obj != 0 ==> Describes(rec, obj, size, atomic) && rec in table.White()
      ensures Survive(ScanSet(mem, stack, dataroots, interior), objs, Before(table, obj, rec))
      ensures obj == 0 ==> Denied(denied, since) && (denied == size || BlockOfRecords(denied))
      decreases passes
    {
      hide Sound, KeptOf, Inv, Gapped, Length, Tally, Survive, ScanSet, InTable, Room, Usable, BlockOfRecords;
      obj, rec, denied := 0, Rec(0, 0, 0), denied0;
      ghost var w := ScanSet(mem, stack, dataroots, interior);
      var pass, res := 0, 1;
      while pass < passes && obj == 0 && res > 0
        invariant Valid() && RootsOk() && since <= asked
        invariant old(totalHeap <= maxHeap) ==> totalHeap <= maxHeap
        invariant obj != 0 ==> Describes(rec, obj, size, atomic) && rec in table.White()
        invariant Survive(w, objs, Before(table, obj, rec))
        invariant obj == 0 ==> Denied(denied, since) && (denied == size || BlockOfRecords(denied))
      {
        ghost var mid := table.Kept();
        obj, res, rec, denied := TryMalloc(mem, stack, size, atomic, 1);
        SurviveTwice(w, objs, mid, Before(table, obj, rec));
        pass := pass + 1;
      }
    }

    /** An empty table of 2^8 buckets, and the two small tables for links and finalizers. */
    constructor (limit: Word, core: nat -> Word, stops: nat -> bool)
      requires limit >= 2200
      ensures this.core == core && this.stops == stops
      ensures Valid() && RootsOk() && table.Kept() == multiset{} && dataroots == [] && records == 0
      ensures maxHeap == limit && totalHeap == 2200
    {
      maxHeap, dontExpand, dontGc, interior := limit, false, 0, false;
      dataroots, datarootSize := [], 0;
      totalHeap, freeBytes, expandedHeap, markedBytes, bytesAllocd, followscan := 2200, 0, 0, 0, 0, 0;
      allocdBefore, blockBytes, records, gcNo, recycling, otherBytes := 0, 0, 0, 0, false, 144;
      this.core, this.stops, asked, polls := core, stops, 0, 0;
      table := ObjHtable(seq(Pow2(8), i => []), [], [], [], [], WORD - 1, 256, 0, 8, 0);
      new;
      FreshSound(table, Ledger());
    }

    /** GC_roots_add: set union with the range, rounded to words. It fails only for a range that touches no root. */
    method RootsAdd(mem: Word -> Word, stack: Interval, begin0: Word, end0: Word) returns (res: int)
      requires Valid() && RootsOk()
      modifies this`table, this`totalHeap, this`freeBytes, this`markedBytes, this`bytesAllocd, this`followscan,
               this`asked, this`polls, this`allocdBefore, this`gcNo, this`recycling, this`dataroots, this`datarootSize
      ensures Valid() && RootsOk()
      ensures old(totalHeap <= maxHeap) ==> totalHeap <= maxHeap
      ensures Survive(ScanSet(mem, stack, old(dataroots), interior), old(table.Kept()), table.Kept())
      ensures res == 0 ==> forall x :: Covers(dataroots, x) <==>
        Covers(old(dataroots), x) || (begin0 != 0 && RoundUp(begin0) <= x < RoundDown(end0))
      ensures res == 0 && begin0 <= WORD - 8 ==>
        forall x :: Covers(dataroots, x) && !Covers(old(dataroots), x) ==> begin0 <= x < end0
      ensures res != 0 ==> res == -1 && dataroots == old(dataroots) && begin0 != 0 && RoundUp(begin0) < RoundDown(end0)
      ensures res != 0 ==> forall d :: d in dataroots ==> d.end < RoundUp(begin0) || RoundDown(end0) < d.begin
      ensures res != 0 ==> Denied(24, old(asked))
    {
      hide Sound, KeptOf, Inv, Gapped, Length, Tally, Survive, Covers, ScanSet, RoundUp, RoundDown, Denied;
      RoundedInwards(begin0);
      assert begin0 <= WORD - 8 && RoundUp(begin0) < RoundDown(end0) ==>
        begin0 <= RoundUp(begin0) && RoundDown(end0) <= end0;
      SurviveAll(ScanSet(mem, stack, dataroots, interior), table.Kept());
      res := 0;
      if begin0 != 0 {
        var begin, end := RoundUp(begin0), RoundDown(end0);
        if end > begin {
          var k := SeekEnd(dataroots, begin);
          if k == |dataroots| || end < dataroots[k].begin {
            ClearOfAll(dataroots, k, begin, end);
            var ptr;
            ptr, res := CoreMallocWithGc(mem, stack, DATAROOT_BYTES, 0);
            res := -1;
            if ptr != 0 {
              InsertOk(dataroots, k, Interval(begin, end));
              RootNodes(table, Ledger(), DATAROOT_BYTES, |dataroots| + 1);
              datarootSize := datarootSize + (end - begin);
              dataroots := dataroots[..k] + [Interval(begin, end)] + dataroots[k..];
              res := 0;
            }
          } else {
            var s, size, freed := Merge(dataroots, datarootSize, k, begin, end);
            DropNodes(table, Ledger(), freed);
            freeBytes := freeBytes + freed * DATAROOT_BYTES;
            dataroots, datarootSize := s, size;
          }
        }
      }
    }

    /** GC_roots_del_inside, as GC_remove_roots and GC_exclude_static_roots call it. */
    method RootsDelInside(begin: Word, end: Word)
      requires Valid() && RootsOk()
      modifies this`freeBytes, this`dataroots, this`datarootSize
      ensures Valid() && RootsOk()
      ensures forall d :: d in dataroots <==> d in old(dataroots) && !Inside(d, begin, end)
      ensures begin < end ==> (Splits(dataroots, begin, end) <==> Splits(old(dataroots), begin, end))
      ensures begin < end && Splits(dataroots, begin, end) ==> dataroots == old(dataroots)
    {
      hide Sound, KeptOf, Inv, Gapped, Length, Tally, Covers, Inside;
      var s, size, freed := DelInside(dataroots, datarootSize, begin, end);
      SplitStays(dataroots, s, begin, end);
      DropNodes(table, Ledger(), freed);
      freeBytes := freeBytes + freed * DATAROOT_BYTES;
      dataroots, datarootSize := s, size;
    }

    /** GC_exclude_static_roots: set difference. It fails only for a range strictly inside one root, for want of a
        node, and then the roots are what they were. */
    method ExcludeStaticRoots(mem: Word -> Word, stack: Interval, low: Word, high: Word) returns (res: int)
      requires Valid() && RootsOk()
      modifies this`table, this`totalHeap, this`freeBytes, this`markedBytes, this`bytesAllocd, this`followscan,
               this`asked, this`polls, this`allocdBefore, this`gcNo, this`recycling, this`dataroots, this`datarootSize
      ensures Valid() && RootsOk()
      ensures old(totalHeap <= maxHeap) ==> totalHeap <= maxHeap
      ensures Survive(ScanSet(mem, stack, old(dataroots), interior), old(table.Kept()), table.Kept())
      ensures res == 0 ==> forall x :: Covers(dataroots, x) <==>
        Covers(old(dataroots), x) && !(low != 0 && RoundUp(low) <= x < RoundDown(high))
      ensures res != 0 ==> Splits(old(dataroots), RoundUp(low), RoundDown(high)) && dataroots == old(dataroots)
      ensures res != 0 ==> Denied(24, old(asked))
    {
      hide Sound, KeptOf, Inv, Gapped, Length, Tally, Covers, Survive, Inside, Splits, ScanSet, RoundUp, RoundDown;
      SurviveAll(ScanSet(mem, stack, dataroots, interior), table.Kept());
      res := 0;
      if low != 0 {
        var begin, end := RoundUp(low), RoundDown(high);
        if begin < end {
          RootsDelInside(begin, end);
          DelInsideCovers(old(dataroots), dataroots, begin, end);
          res := RootsExclude(mem, stack, begin, end);
        }
      }
    }

    /** GC_roots_exclude. */
    method RootsExclude(mem: Word -> Word, stack: Interval, begin: Word, end: Word) returns (res: int)
      requires Valid() && RootsOk() && Proper(Interval(begin, end))
      requires forall d :: d in dataroots ==> !Inside(d, begin, end)
      modifies this`table, this`totalHeap, this`freeBytes, this`markedBytes, this`bytesAllocd, this`followscan,
               this`asked, this`polls, this`allocdBefore, this`gcNo, this`recycling, this`dataroots, this`datarootSize
      ensures Valid() && RootsOk()
      ensures res == 0 ==> forall x :: Covers(dataroots, x) <==> Covers(old(dataroots), x) && !(begin <= x < end)
      ensures res != 0 ==> dataroots == old(dataroots) && Splits(dataroots, begin, end) && Denied(24, old(asked))
      ensures old(totalHeap <= maxHeap) ==> totalHeap <= maxHeap
      ensures Survive(ScanSet(mem, stack, old(dataroots), interior), old(table.Kept()), table.Kept())
      ensures !Splits(old(dataroots), begin, end) ==> table == old(table)
    {
      hide Sound, KeptOf, Inv, Gapped, Length, Tally, Covers, Survive, Cut, Inside, ScanSet;
      SurviveAll(ScanSet(mem, stack, dataroots, interior), table.Kept());
      var k := SeekPast(dataroots, begin);
      res := 0;
      if k < |dataroots| && dataroots[k].begin < end {
        CutOk(dataroots, k, begin, end);
        CutNodes(dataroots, k, begin, end);
        if dataroots[k].begin < begin && end < dataroots[k].end {
          var ptr;
          ptr, res := CoreMallocWithGc(mem, stack, DATAROOT_BYTES, 0);
          res := -1;
          if ptr != 0 {
            RootNodes(table, Ledger(), DATAROOT_BYTES, |dataroots| + 1);
            LengthNotNegative(Cut(dataroots, k, begin, end));
            datarootSize := datarootSize - CutSize(dataroots, k, begin, end);
            dataroots := Cut(dataroots, k, begin, end);
            res := 0;
          }
        } else {
          LengthNotNegative(Cut(dataroots, k, begin, end));
          datarootSize := datarootSize - CutSize(dataroots, k, begin, end);
          dataroots := Cut(dataroots, k, begin, end);
        }
      } else {
        UntouchedBy(dataroots, k, begin, end);
      }
    }
  }

  /** GC_gcdata_alloc: the three bucket arrays are charged to the heap one after the other, and there is no collector
      just when the limit or the core allocator refuses one of them. */
  method GcdataAlloc(limit: Word, core: nat -> Word, stops: nat -> bool) returns (gc: Collector?)
    ensures gc != null ==> fresh(gc) && gc.Valid() && gc.RootsOk()
    ensures gc != null ==> gc.table.Kept() == multiset{} && gc.dataroots == []
    ensures gc != null ==> gc.maxHeap == limit && gc.totalHeap == 2200
    ensures gc != null <==> limit >= 2200 && core(0) != 0 && core(1) != 0 && core(2) != 0
  {
    gc := null;
    var objects, links := HrootBytes(8), HrootBytes(3);
    if objects <= limit && core(0) != 0 && objects + links <= limit && core(1) != 0
       && objects + links + links <= limit && core(2) != 0 {
      gc := new Collector(limit, n => core(n + 3), stops);
    }
  }

  /** What is kept has everything reachable by the strict reading of pointers, and only what the lax one reaches. */
  ghost predicate MarkedRight(w: Snapshot, objs: multiset<Rec>, kept: multiset<Rec>) {
    AllReachableIn(w, objs, kept) && OnlyReachableIn(w, objs, kept) && RootsIn(w, objs, kept) && ClosedIn(w, objs, kept)
  }

  /** Nothing reachable was reclaimed, and nothing unknown appeared. */
  ghost predicate Survive(w: Snapshot, objs: multiset<Rec>, kept: multiset<Rec>) {
    && AllReachableIn(w, objs, kept) && RootsIn(w, objs, kept) && ClosedIn(w, objs, kept)
    && forall r :: r in kept ==> r in objs
  }

  ghost predicate Describes(r: Rec, obj: Word, size: nat, atomic: bool) {
    r.obj == obj && r.Size() == size && r.Atomic() == atomic
  }

  /** The kept objects other than the one just made, if any. */
  ghost function Before(t: ObjHtable, obj: Word, rec: Rec): multiset<Rec> {
    if obj == 0 then t.Kept() else t.Kept() - multiset{rec}
  }

  /** The size of a block of a power of two of records of three words, with a word for the list of blocks. */
  ghost predicate BlockOfRecords(size: nat) {
    exists l: nat :: size == 24 * Pow2(l) + 8
  }

  /** With interior pointers on, small objects get a byte more, so that a pointer past the end still hits. */
  function PaddedSize(objsize: nat, interior: bool): nat {
    if objsize < 256 && interior then objsize + 1 else objsize
  }

  /** The size asked for, or one byte more, so that the address behind the request still names a small object. */
  lemma PaddedByOne(objsize: nat, interior: bool, obj: Word, r: Rec, atomic: bool)
    requires Describes(r, obj, PaddedSize(objsize, interior), atomic)
    ensures objsize <= r.Size() <= objsize + 1 && (r.Size() == objsize + 1 <==> interior && objsize < 256)
    ensures r.Size() == objsize + 1 && WellPlaced(r) ==> obj + objsize < WORD && Names(false, obj + objsize, r, true)
  {
  }

  lemma SurviveAll(w: Snapshot, objs: multiset<Rec>)
    ensures Survive(w, objs, objs)
  {
  }

  lemma MarkedSurvive(w: Snapshot, objs: multiset<Rec>, kept: multiset<Rec>)
    requires MarkedRight(w, objs, kept)
    ensures Survive(w, objs, kept)
  {
    hide Reachable;
  }

  lemma AlongChain(w: Snapshot, lax: bool, objs: multiset<Rec>, p: seq<Rec>, i: nat)
    requires Chain(w, lax, objs, p) && i < |p|
    ensures p[i] in objs && Reachable(w, lax, objs, p[i])
  {
    hide BodyNames, RootNames;
    var q := p[..i + 1];
    assert forall x :: x in q ==> x in p;
    forall j | 0 <= j < |q| - 1 ensures BodyNames(w, lax, q[j], q[j + 1]) {
      assert BodyNames(w, lax, p[j], p[j + 1]);
    }
    assert Chain(w, lax, objs, q) && q[|q| - 1] == p[i];
  }

  /** Objects that survive one step and then another survive both. */
  lemma SurviveTwice(w: Snapshot, a: multiset<Rec>, b: multiset<Rec>, c: multiset<Rec>)
    requires Survive(w, a, b) && Survive(w, b, c)
    ensures Survive(w, a, c)
  {
    hide BodyNames, RootNames;
    forall r | r in a && Reachable(w, false, a, r) ensures r in c {
      var p :| Chain(w, false, a, p) && p[|p| - 1] == r;
      forall i | 0 <= i < |p| ensures p[i] in b {
        AlongChain(w, false, a, p, i);
      }
      assert Chain(w, false, b, p);
      assert Reachable(w, false, b, r);
    }
  }

  lemma Populations(t: ObjHtable)
    requires t.Ok()
    ensures t.count == |t.White()| && |t.Kept()| == t.count + |t.followList| + |t.markedList|
  {
  }

  lemma NothingMarked(w: Snapshot, objs: multiset<Rec>, f: seq<Rec>, m: seq<Rec>)
    requires f == [] && m == [] && objs == multiset(f) + multiset(m)
    ensures MarkedRight(w, objs, multiset(f) + multiset(m))
  {
  }

  lemma SoundIsOk(t: ObjHtable, b: Books, owed: nat)
    requires Sound(t, b, owed)
    ensures t.Ok() && t.log2Size >= 8
    ensures t.count != 0 ==> t.minObj <= t.maxObj
  {
    hide Tally;
    if t.count != 0 {
      var r := Pick(t.White());
      AtHome(t.hroots, t.log2Size, t.minObj, t.maxObj, r);
    }
  }

  lemma NothingWhite(t: ObjHtable)
    requires t.Ok() && t.count == 0
    ensures t.White() == multiset{} && t.Kept() == multiset(t.followList) + multiset(t.markedList)
  {
  }

  /** What a collection scans: the stack, rounded inwards to words, then the data roots. */
  function ScanSet(mem: Word -> Word, stack: Interval, roots: seq<Interval>, interior: bool): (w: Snapshot)
    requires Gapped(roots)
    ensures w.roots != [] && w.Ok()
  {
    var s := Region(Wrap(stack.begin + 7) / 8 * 8, stack.end / 8 * 8, true);
    var data := seq(|roots|, i requires 0 <= i < |roots| => Region(roots[i].begin, roots[i].end, interior));
    Snapshot(mem, [s] + data, interior)
  }

  // ---------- survival in terms of words ----------

  /** The word at `a` is in the stack or in a data root, and names the record. */
  ghost predicate RootWord(mem: Word -> Word, stack: Interval, roots: seq<Interval>, interior: bool, lax: bool,
                           a: Word, r: Rec)
  {
    && a % 8 == 0
    && ((stack.begin <= a && a + 8 <= stack.end && Names(lax, mem(a), r, true))
        || (Covers(roots, a) && Names(lax, mem(a), r, interior)))
  }

  /** The word at `a` is in the body of the object and names the record; atomic objects have no words. */
  ghost predicate BodyWord(mem: Word -> Word, interior: bool, lax: bool, p: Rec, a: Word, r: Rec) {
    !p.Atomic() && a % 8 == 0 && p.obj <= a && a + 8 <= p.obj + p.Size() && Names(lax, mem(a), r, interior)
  }

  /** Objects that each have a word naming the next one, from one that a root word names. */
  ghost predicate Led(mem: Word -> Word, stack: Interval, roots: seq<Interval>, interior: bool, objs: multiset<Rec>,
                      c: seq<Rec>)
  {
    && c != [] && (forall r :: r in c ==> r in objs)
    && (exists a: Word :: RootWord(mem, stack, roots, interior, true, a, c[0]))
    && forall i :: 0 <= i < |c| - 1 ==> BodyNamesWord(mem, interior, true, c[i], c[i + 1])
  }

  ghost predicate BodyNamesWord(mem: Word -> Word, interior: bool, lax: bool, p: Rec, r: Rec) {
    exists a: Word :: BodyWord(mem, interior, lax, p, a, r)
  }

  /** Nothing that a word of the stack, of a data root or of a surviving object names is missing. */
  ghost predicate NoneLost(mem: Word -> Word, stack: Interval, roots: seq<Interval>, interior: bool,
                           objs: multiset<Rec>, kept: multiset<Rec>)
  {
    && (forall r :: r in kept ==> r in objs)
    && (forall r, a: Word :: r in objs && RootWord(mem, stack, roots, interior, false, a, r) ==> r in kept)
    && (forall p, a: Word, r :: p in kept && r in objs && BodyWord(mem, interior, false, p, a, r) ==> r in kept)
  }

  /** Every object kept is at the end of a chain that starts at a root word. */
  ghost predicate NoneSpared(mem: Word -> Word, stack: Interval, roots: seq<Interval>, interior: bool,
                             objs: multiset<Rec>, kept: multiset<Rec>)
  {
    forall r :: r in kept ==> exists c :: Led(mem, stack, roots, interior, objs, c) && c[|c| - 1] == r
  }

  /** Every word of the stack and of the data roots is scanned. */
  lemma WordScanned(mem: Word -> Word, stack: Interval, roots: seq<Interval>, interior: bool, lax: bool, a: Word,
                    r: Rec)
    requires Gapped(roots) && RootWord(mem, stack, roots, interior, lax, a, r)
    ensures RootNames(ScanSet(mem, stack, roots, interior), lax, r)
  {
    hide Names, Gapped;
    var w := ScanSet(mem, stack, roots, interior);
    if stack.begin <= a && a + 8 <= stack.end && Names(lax, mem(a), r, true) {
      var s := w.roots[0];
      StackWord(stack, a);
      assert s in w.roots && Hit(mem, s.begin, s.end, lax, r, true);
    } else {
      var i :| 0 <= i < |roots| && roots[i].begin <= a < roots[i].end;
      var g := w.roots[i + 1];
      assert g == Region(roots[i].begin, roots[i].end, interior) && g in w.roots;
      assert Hit(mem, g.begin, g.end, lax, r, interior);
    }
  }

  lemma RegionScanned(mem: Word -> Word, stack: Interval, roots: seq<Interval>, interior: bool, g: Region)
    requires Gapped(roots) && g in ScanSet(mem, stack, roots, interior).roots
    ensures g == Region(Wrap(stack.begin + 7) / 8 * 8, stack.end / 8 * 8, true)
      || exists i :: 0 <= i < |roots| && g == Region(roots[i].begin, roots[i].end, interior)
  {
    hide Gapped;
    var w := ScanSet(mem, stack, roots, interior);
    var k :| 0 <= k < |w.roots| && w.roots[k] == g;
    if k > 0 {
      assert g == Region(roots[k - 1].begin, roots[k - 1].end, interior);
    }
  }

  /** Nothing else is scanned, if the start of the stack can be rounded up. */
  lemma ScannedWord(mem: Word -> Word, stack: Interval, roots: seq<Interval>, interior: bool, lax: bool, r: Rec)
    returns (a: Word)
    requires Gapped(roots) && stack.begin <= WORD - 8 && RootNames(ScanSet(mem, stack, roots, interior), lax, r)
    ensures RootWord(mem, stack, roots, interior, lax, a, r)
  {
    hide Names, Gapped, Wrap;
    var w := ScanSet(mem, stack, roots, interior);
    ScanSetOf(mem, stack, roots, interior);
    hide ScanSet;
    var g :| g in w.roots && Hit(mem, g.begin, g.end, lax, r, g.interior);
    a :| g.begin <= a < g.end && a % 8 == 0 && Names(lax, mem(a), r, g.interior);
    RegionScanned(mem, stack, roots, interior, g);
    if g == Region(Wrap(stack.begin + 7) / 8 * 8, stack.end / 8 * 8, true) {
      WordOfStack(stack, a);
    }
  }

  lemma StackWord(stack: Interval, a: Word)
    requires a % 8 == 0 && stack.begin <= a && a + 8 <= stack.end
    ensures Wrap(stack.begin + 7) / 8 * 8 <= a < stack.end / 8 * 8
  {
  }

  lemma WordOfStack(stack: Interval, a: Word)
    requires a % 8 == 0 && stack.begin <= WORD - 8 && Wrap(stack.begin + 7) / 8 * 8 <= a < stack.end / 8 * 8
    ensures stack.begin <= a && a + 8 <= stack.end
  {
  }

  lemma WordInside(obj: nat, size: nat, a: nat)
    requires obj % 8 == 0 && a % 8 == 0 && obj <= a
    ensures a < obj + size / 8 * 8 <==> a + 8 <= obj + size
  {
  }

  lemma BodyAsWords(w: Snapshot, lax: bool, p: Rec, r: Rec)
    requires WellPlaced(p)
    ensures BodyNames(w, lax, p, r) <==> BodyNamesWord(w.mem, w.interior, lax, p, r)
  {
    hide Names, Rec.Size, Rec.Atomic;
    if BodyNames(w, lax, p, r) {
      var a: Word :| p.obj <= a < p.obj + p.Followable() && a % 8 == 0 && Names(lax, w.mem(a), r, w.interior);
      WordInside(p.obj, p.Size(), a);
      assert BodyWord(w.mem, w.interior, lax, p, a, r);
    }
    if a: Word :| BodyWord(w.mem, w.interior, lax, p, a, r) {
      WordInside(p.obj, p.Size(), a);
      assert Hit(w.mem, p.obj, p.obj + p.Followable(), lax, r, w.interior);
    }
  }

  lemma KeptPlaced(t: ObjHtable)
    requires t.Ok()
    ensures forall r :: r in t.Kept() ==> WellPlaced(r)
  {
    hide TableOk, WellPlaced;
    forall r | r in t.Kept() ensures WellPlaced(r) {
      InLayout(t.Objs(), r);
    }
  }

  lemma SurviveWords(mem: Word -> Word, stack: Interval, roots: seq<Interval>, interior: bool, objs: multiset<Rec>,
                     kept: multiset<Rec>)
    requires Gapped(roots) && (forall r :: r in objs ==> WellPlaced(r))
    requires Survive(ScanSet(mem, stack, roots, interior), objs, kept)
    ensures NoneLost(mem, stack, roots, interior, objs, kept)
  {
    hide ScanSet, Gapped, WellPlaced, RootWord, BodyWord, RootNames, BodyNames, AllReachableIn;
    var w := ScanSet(mem, stack, roots, interior);
    ScanSetOf(mem, stack, roots, interior);
    forall r, a: Word | r in objs && RootWord(mem, stack, roots, interior, false, a, r) ensures r in kept {
      WordScanned(mem, stack, roots, interior, false, a, r);
    }
    forall p, a: Word, r | p in kept && r in objs && BodyWord(mem, interior, false, p, a, r) ensures r in kept {
      BodyAsWords(w, false, p, r);
    }
  }

  lemma ScanSetOf(mem: Word -> Word, stack: Interval, roots: seq<Interval>, interior: bool)
    requires Gapped(roots)
    ensures var w := ScanSet(mem, stack, roots, interior); w.mem == mem && w.interior == interior
  {
  }

  lemma MarkedWords(mem: Word -> Word, stack: Interval, roots: seq<Interval>, interior: bool, objs: multiset<Rec>,
                    kept: multiset<Rec>)
    requires Gapped(roots) && (forall r :: r in objs ==> WellPlaced(r))
    requires MarkedRight(ScanSet(mem, stack, roots, interior), objs, kept)
    ensures NoneLost(mem, stack, roots, interior, objs, kept)
    ensures stack.begin <= WORD - 8 ==> NoneSpared(mem, stack, roots, interior, objs, kept)
  {
    hide ScanSet, Gapped, WellPlaced, RootWord, BodyWord, RootNames, BodyNames, AllReachableIn, RootsIn, ClosedIn,
         NoneLost, BodyNamesWord;
    var w := ScanSet(mem, stack, roots, interior);
    ScanSetOf(mem, stack, roots, interior);
    MarkedSurvive(w, objs, kept);
    SurviveWords(mem, stack, roots, interior, objs, kept);
    forall r | r in kept && stack.begin <= WORD - 8
      ensures exists c :: Led(mem, stack, roots, interior, objs, c) && c[|c| - 1] == r
    {
      var c :| Chain(w, true, objs, c) && c[|c| - 1] == r;
      var a := ScannedWord(mem, stack, roots, interior, true, c[0]);
      forall i | 0 <= i < |c| - 1 ensures BodyNamesWord(mem, interior, true, c[i], c[i + 1]) {
        assert c[i] in c;
        BodyAsWords(w, true, c[i], c[i + 1]);
      }
      assert Led(mem, stack, roots, interior, objs, c);
    }
  }
}
