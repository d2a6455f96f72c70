/** The collector's object table (struct GC_obj_htable_s): buckets of records and the colour lists. */
module ObjTable {
  import opened Lists
  import opened Words
  import opened Records

  // ---------- bucket arithmetic ----------

  /** Bucket of an address: ((addr >> log2) ^ addr) >> GC_LOG2_OFFIGNORE, masked to the table size. */
  function Index(addr: nat, log2: nat): (i: nat)
    ensures i < Pow2(log2)
  {
    Low(Shr(Xor(Shr(addr, log2), addr), 8), log2)
  }

  /** Addresses of one 256-byte block share a bucket. */
  lemma IndexOfBlock(a: nat, b: nat, log2: nat)
    requires a / 256 == b / 256
    ensures Index(a, log2) == Index(b, log2)
  {
    ShrXor(Shr(a, log2), a, 8);
    ShrXor(Shr(b, log2), b, 8);
    ShrAdd(a, log2, 8);
    ShrAdd(a, 8, log2);
    ShrAdd(b, log2, 8);
    ShrAdd(b, 8, log2);
    ShrByte(a);
    ShrByte(b);
  }

  type Buckets = seq<seq<Rec>>

  // ---------- order and placement ----------

  ghost predicate Descending(s: seq<Rec>) {
    forall j, k :: 0 <= j < k < |s| ==> s[j].obj > s[k].obj
  }

  ghost predicate Homed(s: seq<Rec>, i: int, log2: nat, lo: int, hi: int) {
    forall r :: r in s ==> Index(r.obj, log2) == i && lo <= r.obj && r.obj + 256 <= hi
  }

  ghost predicate TableOk(b: Buckets, log2: nat, lo: int, hi: int) {
    && |b| == Pow2(log2)
    && (forall i :: 0 <= i < |b| ==> Descending(b[i]) && Homed(b[i], i, log2, lo, hi))
  }

  lemma AtHome(b: Buckets, log2: nat, lo: int, hi: int, r: Rec)
    requires TableOk(b, log2, lo, hi) && r in InTable(b)
    ensures r in b[Index(r.obj, log2)] && lo <= r.obj && r.obj + 256 <= hi
  {
    var i := BucketOf(b, r);
  }

  // ---------- naming ----------

  /** A scanned word names a record. `lax` is what a scan may take for a pointer; otherwise what it
      must: interior pointers count for offsets under 256. */
  ghost predicate Names(lax: bool, w: Word, r: Rec, interior: bool) {
    if interior then
      r.obj <= w < r.obj + r.Size() && (lax || w < r.obj + 256)
    else
      w == r.obj
  }

  predicate Holds(s: seq<Rec>, k: nat, addr: Word) {
    k < |s| && s[k].obj <= addr < s[k].obj + s[k].Size()
  }

  /** Within one bucket, the first record at or below an address is the only one that can contain it. */
  lemma FirstBelow(s: seq<Rec>, k: nat, addr: Word, r: Rec)
    requires Descending(s) && k <= |s|
    requires forall j :: 0 <= j < k ==> s[j].obj > addr
    requires r in s && r.obj <= addr < r.obj + r.Size()
    requires forall q :: q in s && q != r ==> Apart(r, q)
    requires k < |s| ==> s[k].obj <= addr
    ensures k < |s| && s[k] == r
  {
    var j :| 0 <= j < |s| && s[j] == r;
    assert k <= j;
    assert s[k] in s && (s[k] == r || Apart(r, s[k]));
  }

  method Walk(s: seq<Rec>, addr: Word) returns (k: nat)
    ensures k <= |s|
    ensures forall j :: 0 <= j < k ==> s[j].obj > addr
    ensures k < |s| ==> s[k].obj <= addr
  {
    k := 0;
    while k < |s| && s[k].obj > addr
      invariant k <= |s|
      invariant forall j :: 0 <= j < k ==> s[j].obj > addr
    {
      k := k + 1;
    }
  }

  /** Some aligned word of the region [begin, end) names the record. */
  ghost predicate Hit(mem: Word -> Word, begin: int, end: int, lax: bool, r: Rec, interior: bool) {
    exists a: Word :: begin <= a < end && a % 8 == 0 && Names(lax, mem(a), r, interior)
  }

  /** A list that only grew, by records of the given colour that the region names. */
  ghost predicate GrewByHits(s: seq<Rec>, was: seq<Rec>, atomic: bool,
                             mem: Word -> Word, begin: int, end: int, interior: bool) {
    && multiset(was) <= multiset(s)
    && (forall r :: r in s ==> r in was || (r.Atomic() == atomic && Hit(mem, begin, end, true, r, interior)))
  }

  lemma GrowOne(s: seq<Rec>, t: seq<Rec>, was: seq<Rec>, atomic: bool,
                mem: Word -> Word, begin: int, a: Word, interior: bool)
    requires GrewByHits(s, was, atomic, mem, begin, a, interior)
    requires begin <= a && a % 8 == 0
    requires t == s || (t != [] && t[1..] == s && t[0].Atomic() == atomic && Names(true, mem(a), t[0], interior))
    ensures GrewByHits(t, was, atomic, mem, begin, a + 8, interior)
  {
    if t != s {
      assert t == [t[0]] + s;
    }
    forall r | r in t ensures r in was || (r.Atomic() == atomic && Hit(mem, begin, a + 8, true, r, interior)) {
      if r in s && r !in was {
        var b: Word :| begin <= b < a && b % 8 == 0 && Names(true, mem(b), r, interior);
      }
    }
  }

  /** No record of the collection is named by a word of the region. */
  ghost predicate Clean(m: multiset<Rec>, mem: Word -> Word, begin: int, end: int, interior: bool) {
    forall r :: r in m ==> !Hit(mem, begin, end, false, r, interior)
  }

  lemma HitSplit(mem: Word -> Word, begin: int, a: Word, r: Rec, interior: bool)
    requires begin % 8 == 0 && a % 8 == 0 && Hit(mem, begin, a + 8, false, r, interior)
    ensures Hit(mem, begin, a, false, r, interior) || Names(false, mem(a), r, interior)
  {
    var b: Word :| begin <= b < a + 8 && b % 8 == 0 && Names(false, mem(b), r, interior);
    assert b < a || b == a;
  }

  lemma CleanOne(m: multiset<Rec>, m': multiset<Rec>, mem: Word -> Word, begin: int, a: Word, interior: bool)
    requires Clean(m, mem, begin, a, interior) && m' <= m && begin % 8 == 0 && a % 8 == 0
    requires forall r :: r in m' ==> !Names(false, mem(a), r, interior)
    ensures Clean(m', mem, begin, a + 8, interior)
  {
    forall r | r in m' ensures !Hit(mem, begin, a + 8, false, r, interior) {
      if Hit(mem, begin, a + 8, false, r, interior) {
        HitSplit(mem, begin, a, r, interior);
      }
    }
  }

  lemma NoWords(m: multiset<Rec>, s: seq<Rec>, atomic: bool, mem: Word -> Word, begin: int, end: int, interior: bool)
    requires begin >= end
    ensures Clean(m, mem, begin, end, interior) && GrewByHits(s, s, atomic, mem, begin, end, interior)
  {
  }

  // ---------- inserting into a bucket ----------

  function Inserted(b: Buckets, i: nat, k: nat, r: Rec): Buckets
    requires i < |b| && k <= |b[i]|
  {
    b[i := b[i][..k] + [r] + b[i][k..]]
  }

  lemma PutOne(s: seq<Rec>, k: nat, r: Rec, i: int, log2: nat, lo: int, hi: int)
    requires k <= |s| && Descending(s) && Homed(s, i, log2, lo, hi)
    requires forall j :: 0 <= j < k ==> s[j].obj > r.obj
    requires k < |s| ==> s[k].obj < r.obj
    requires Index(r.obj, log2) == i && lo <= r.obj && r.obj + 256 <= hi
    ensures Descending(s[..k] + [r] + s[k..]) && Homed(s[..k] + [r] + s[k..], i, log2, lo, hi)
  {
    hide Index, Descending, Homed;
    PutHomed(s, k, r, i, log2, lo, hi);
    PutDescending(s, k, r);
  }

  lemma PutHomed(s: seq<Rec>, k: nat, r: Rec, i: int, log2: nat, lo: int, hi: int)
    requires k <= |s| && Homed(s, i, log2, lo, hi) && Index(r.obj, log2) == i && lo <= r.obj && r.obj + 256 <= hi
    ensures Homed(s[..k] + [r] + s[k..], i, log2, lo, hi)
  {
    hide Index;
    forall q | q in s[..k] + [r] + s[k..] ensures Index(q.obj, log2) == i && lo <= q.obj && q.obj + 256 <= hi {
      assert q == r || q in s;
    }
  }

  lemma PutDescending(s: seq<Rec>, k: nat, r: Rec)
    requires k <= |s| && Descending(s) && (forall j :: 0 <= j < k ==> s[j].obj > r.obj)
      && (k < |s| ==> s[k].obj < r.obj)
    ensures Descending(s[..k] + [r] + s[k..])
  {
    var t := s[..k] + [r] + s[k..];
    forall a, c | 0 <= a < c < |t| ensures t[a].obj > t[c].obj {
      if a == k {
        assert c == k + 1 || s[k].obj > s[c - 1].obj;
      } else if c == k {
        assert t[a] == s[a];
      } else {
        assert t[a] == s[if a < k then a else a - 1] && t[c] == s[if c < k then c else c - 1];
      }
    }
  }

  lemma Widen(b: Buckets, log2: nat, lo: int, hi: int, lo': int, hi': int)
    requires TableOk(b, log2, lo, hi) && lo' <= lo && hi <= hi'
    ensures TableOk(b, log2, lo', hi')
  {
    hide Index;
    assert forall i :: 0 <= i < |b| ==> Homed(b[i], i, log2, lo, hi) ==> Homed(b[i], i, log2, lo', hi');
  }

  lemma BucketUpdate(b: Buckets, log2: nat, lo: int, hi: int, i: nat, s: seq<Rec>)
    requires TableOk(b, log2, lo, hi) && i < |b| && Descending(s) && Homed(s, i, log2, lo, hi)
    ensures TableOk(b[i := s], log2, lo, hi)
  {
    hide Index, Descending, Homed;
  }

  /** Inserting where the walk stopped keeps the table in order and adds exactly the record. */
  lemma InsertedOk(b: Buckets, log2: nat, lo: int, hi: int, i: nat, k: nat, r: Rec, all: multiset<Rec>)
    requires TableOk(b, log2, lo, hi) && i < |b| && k <= |b[i]| && i == Index(r.obj, log2)
    requires lo <= r.obj && r.obj + 256 <= hi
    requires forall j :: 0 <= j < k ==> b[i][j].obj > r.obj
    requires k < |b[i]| ==> b[i][k].obj <= r.obj
    requires Layout(all) && InTable(b) + multiset{r} <= all
    ensures TableOk(Inserted(b, i, k, r), log2, lo, hi)
    ensures InTable(Inserted(b, i, k, r)) == InTable(b) + multiset{r}
  {
    hide Index, Descending, Homed, InTable, Layout;
    if k < |b[i]| {
      InTableBucket(b, i);
      NoSameAddress(InTable(b), b[i], k, r, all);
    }
    PutOne(b[i], k, r, i, log2, lo, hi);
    var s := b[i][..k] + [r] + b[i][k..];
    BucketUpdate(b, log2, lo, hi, i, s);
    hide TableOk;
    InTableReplace(b, i, s);
    JoinSeq(b[i], k, r);
    Cancel(InTable(b[i := s]), InTable(b) + multiset{r}, multiset(b[i]));
  }

  lemma NoSameAddress(m: multiset<Rec>, s: seq<Rec>, k: nat, r: Rec, all: multiset<Rec>)
    requires k < |s| && multiset(s) <= m && m + multiset{r} <= all && Layout(all)
    ensures s[k].obj != r.obj
  {
    assert s[k] in multiset(s) && s[k] in m && s[k] in all && r in all;
    assert all[r] == 1 && (m + multiset{r})[r] == m[r] + 1;
    assert s[k] != r;
    assert Apart(r, s[k]) && WellPlaced(r) && WellPlaced(s[k]);
  }

  datatype Lookup = Missing | Found(rec: Rec)

  lemma DropOne(s: seq<Rec>, k: nat, i: int, log2: nat, lo: int, hi: int)
    requires k < |s| && Descending(s) && Homed(s, i, log2, lo, hi)
    ensures Descending(s[..k] + s[k + 1..]) && Homed(s[..k] + s[k + 1..], i, log2, lo, hi)
    ensures s[k] !in s[..k] + s[k + 1..]
  {
    hide Index;
    var t := s[..k] + s[k + 1..];
    assert forall j :: 0 <= j < |t| ==> t[j] == s[if j < k then j else j + 1];
    assert forall q :: q in t ==> q in s;
  }

  lemma TakenIsGone(b: Buckets, log2: nat, lo: int, hi: int, i: nat, k: nat)
    requires TableOk(b, log2, lo, hi) && i < |b| && k < |b[i]|
    ensures TableOk(Taken(b, i, k), log2, lo, hi)
    ensures b[i][k] !in InTable(Taken(b, i, k))
  {
    hide Index;
    DropOne(b[i], k, i, log2, lo, hi);
    var b' := Taken(b, i, k);
    assert b[i][k] in b[i];
    if b[i][k] in InTable(b') {
      AtHome(b', log2, lo, hi, b[i][k]);
    }
  }

  // ---------- the invariant over the table's fields ----------

  ghost function KeptOf(b: Buckets, f: seq<Rec>, m: seq<Rec>): multiset<Rec> {
    InTable(b) + multiset(f) + multiset(m)
  }

  /** Buckets are descending and hold only addresses that hash to them, `n` is the population, the
      address range covers the table, and all objects still in memory are laid out disjointly. */
  ghost predicate Inv(b: Buckets, log2: nat, lo: int, hi: int, n: int, objs: multiset<Rec>) {
    && TableOk(b, log2, lo, hi)
    && n == |InTable(b)|
    && 1 <= lo && 256 <= hi
    && Layout(objs)
    && InTable(b) <= objs
  }

  /** A record pushed on a colour list as it leaves the table stays accounted for. */
  lemma ShadeOk(b: Buckets, log2: nat, lo: int, hi: int, n: int, objs: multiset<Rec>, i: nat, k: nat,
                f: seq<Rec>, m: seq<Rec>)
    requires Inv(b, log2, lo, hi, n, objs) && i < |b| && k < |b[i]|
    ensures var b' := Taken(b, i, k);
      && Inv(b', log2, lo, hi, n - 1, objs) && n > 0
      && b[i][k] !in InTable(b') && InTable(b') <= InTable(b)
      && KeptOf(b', [b[i][k]] + f, m) == KeptOf(b, f, m)
      && KeptOf(b', f, [b[i][k]] + m) == KeptOf(b, f, m)
  {
    hide Index, Layout, Descending, Homed;
    InTableTake(b, i, k);
    TakenIsGone(b, log2, lo, hi, i, k);
    KeptMoves(InTable(b), b[i][k], f, m);
  }

  lemma KeptMoves(t: multiset<Rec>, r: Rec, f: seq<Rec>, m: seq<Rec>)
    requires r in t
    ensures t + multiset(f) + multiset(m) == t - multiset{r} + multiset([r] + f) + multiset(m)
    ensures t + multiset(f) + multiset(m) == t - multiset{r} + multiset(f) + multiset([r] + m)
  {
    assert multiset([r] + f) == multiset{r} + multiset(f);
    assert multiset([r] + m) == multiset{r} + multiset(m);
    assert t - multiset{r} + multiset{r} == t;
  }

  lemma InRange(addr: Word, obj: nat, lo: Word, hi: Word)
    requires lo <= obj <= addr < obj + 256 <= hi
    ensures Wrap(addr - lo) < hi - lo
  {
    WrapBelow(addr - lo);
    hide Wrap;
  }

  /** struct GC_obj_htable_s. */
  datatype ObjHtable = ObjHtable(
    hroots: Buckets, freeList: seq<Rec>, markedList: seq<Rec>, followList: seq<Rec>, unlinkedList: seq<Rec>,
    minObj: Word, maxObj: Word, count: nat, log2Size: nat, pendingFree: nat)
  {
    ghost function White(): multiset<Rec> {
      InTable(hroots)
    }

    /** Records of objects that are not waiting to be freed. */
    ghost function Kept(): multiset<Rec> {
      KeptOf(hroots, followList, markedList)
    }

    /** Records of every object that still occupies memory. */
    ghost function Objs(): multiset<Rec> {
      Kept() + multiset(freeList)
    }

    ghost predicate Ok() {
      Inv(hroots, log2Size, minObj, maxObj, count, Objs())
    }

    /** One probe: walks the bucket of `at` for the first record at or below `addr`. */
    method Probe(addr: Word, at: Word) returns (i: nat, k: nat)
      requires Ok()
      ensures i == Index(at, log2Size) && i < |hroots| && k <= |hroots[i]|
      ensures k < |hroots[i]| ==> hroots[i][k].obj <= addr
      ensures forall r :: r in White() && Index(r.obj, log2Size) == i && Holds([r], 0, addr)
                ==> k < |hroots[i]| && hroots[i][k] == r
    {
      hide Index, InTable, KeptOf, Layout, Descending, Homed, Rec.Size;
      i := Index(at, log2Size);
      k := Walk(hroots[i], addr);
      forall r | r in White() && Index(r.obj, log2Size) == i && Holds([r], 0, addr)
        ensures k < |hroots[i]| && hroots[i][k] == r
      {
        Walked(i, k, addr, r);
      }
    }

    /** The walk stops at the one record of the bucket that contains the address. */
    lemma Walked(i: nat, k: nat, addr: Word, r: Rec)
      requires Ok() && i < |hroots| && k <= |hroots[i]|
      requires forall j :: 0 <= j < k ==> hroots[i][j].obj > addr
      requires k < |hroots[i]| ==> hroots[i][k].obj <= addr
      requires r in White() && Index(r.obj, log2Size) == i && Holds([r], 0, addr)
      ensures k < |hroots[i]| && hroots[i][k] == r
    {
      hide Index, KeptOf, InTable;
      AtHome(hroots, log2Size, minObj, maxObj, r);
      InTableBucket(hroots, i);
      assert forall q :: q in hroots[i] ==> q in multiset(hroots[i]);
      FirstBelow(hroots[i], k, addr, r);
    }

    /** The lookup inside GC_scan_region: the bucket of the address, then the one a block lower. */
    method Locate(addr: Word, interior: bool) returns (i: nat, k: nat, found: bool)
      requires Ok()
      requires interior || addr != 0
      ensures found ==> i < |hroots| && k < |hroots[i]| && Names(true, addr, hroots[i][k], interior)
      ensures forall r :: r in White() && Names(false, addr, r, interior) ==> found && hroots[i][k] == r
    {
      i, k := Probe(addr, addr);
      if interior {
        found := Holds(hroots[i], k, addr);
        if !found && addr % 256 != 255 {
          i, k := Probe(addr, Wrap(addr - 256));
          found := Holds(hroots[i], k, addr);
        }
        forall r | r in White() && Names(false, addr, r, interior) ensures found && hroots[i][k] == r {
          assert Holds([r], 0, addr);
          ProbeBlocks(addr, r.obj, log2Size);
          OnlyOne(Objs(), addr, r);
          if found { InTableBucket(hroots, i); assert hroots[i][k] in White(); }
        }
      } else {
        found := k < |hroots[i]| && hroots[i][k].obj == addr;
        forall r | r in White() && Names(false, addr, r, interior) ensures found && hroots[i][k] == r {
          assert WellPlaced(r);
          assert Holds([r], 0, addr);
        }
      }
    }

    /** GC_objlink_get: the second bucket is that of the address less 255, whatever the offset. */
    method Get(addr: Word) returns (res: Lookup)
      requires Ok()
      ensures res.Found? ==> res.rec in White() && Names(true, addr, res.rec, true)
      ensures forall r :: r in White() && Names(false, addr, r, true) ==> res == Found(r)
    {
      hide Index, InTable, KeptOf, TableOk, Layout, Rec.Size;
      var i, k := Probe(addr, addr);
      var hit := Holds(hroots[i], k, addr);
      if !hit {
        i, k := Probe(addr, Wrap(addr - 255));
        hit := Holds(hroots[i], k, addr);
      }
      res := if hit then Found(hroots[i][k]) else Missing;
      if hit { InTableBucket(hroots, i); assert hroots[i][k] in White(); }
      forall r | r in White() && Names(false, addr, r, true) ensures res == Found(r) {
        assert Holds([r], 0, addr);
        ProbeBlocks(addr, r.obj, log2Size);
        OnlyOne(Objs(), addr, r);
      }
    }

    /** Moves one record out of the table: atomic objects need no scan and go black at once. */
    method Shade(i: nat, k: nat) returns (t: ObjHtable)
      requires Ok() && i < |hroots| && k < |hroots[i]|
      ensures t.Ok() && t.Kept() == Kept() && t.White() <= White() && hroots[i][k] !in t.White()
      ensures if hroots[i][k].Atomic()
              then t.followList == followList && t.markedList == [hroots[i][k]] + markedList
              else t.markedList == markedList && t.followList == [hroots[i][k]] + followList
      ensures SameRest(t)
    {
      var r := hroots[i][k];
      ShadeOk(hroots, log2Size, minObj, maxObj, count, Objs(), i, k, followList, markedList);
      hide Inv, KeptOf, InTable, Taken;
      t := this.(hroots := Taken(hroots, i, k), count := count - 1);
      if r.Atomic() {
        t := t.(markedList := [r] + markedList);
      } else {
        t := t.(followList := [r] + followList);
      }
    }

    /** Marking touches nothing but the buckets, their population and the two colour lists. */
    ghost predicate SameRest(t: ObjHtable) {
      t == this.(hroots := t.hroots, count := t.count, markedList := t.markedList, followList := t.followList)
    }

    /** The unsigned range test never drops a word that names an object of the table. */
    lemma RangeFilter(addr: Word, r: Rec, interior: bool)
      requires Ok() && r in White() && Names(false, addr, r, interior)
      ensures Wrap(addr - minObj) < maxObj - minObj && (interior || addr % 8 == 0) && addr != 0
    {
      hide Index, InTable, TableOk, Rec.Size;
      AtHome(hroots, log2Size, minObj, maxObj, r);
      assert WellPlaced(r);
      hide Inv;
      InRange(addr, r.obj, minObj, maxObj);
    }

    /** Loop body of GC_scan_region for one word: a record it names leaves the table for a colour list. */
    method ScanWord(addr: Word, interior: bool) returns (t: ObjHtable)
      requires Ok() && minObj <= maxObj
      ensures t.Ok() && t.Kept() == Kept() && t.White() <= White() && SameRest(t)
      ensures forall r :: r in t.White() ==> !Names(false, addr, r, interior)
      ensures t.followList == followList
        || (t.followList != [] && t.followList[1..] == followList && !t.followList[0].Atomic()
            && Names(true, addr, t.followList[0], interior))
      ensures t.markedList == markedList
        || (t.markedList != [] && t.markedList[1..] == markedList && t.markedList[0].Atomic()
            && Names(true, addr, t.markedList[0], interior))
    {
      hide KeptOf, InTable, Index, Layout, Descending, Homed;
      t := this;
      if Wrap(addr - minObj) < maxObj - minObj && (interior || addr % 8 == 0) {
        var i, k, found := Locate(addr, interior);
        if found {
          t := Shade(i, k);
        }
      } else {
        forall r | r in White() ensures !Names(false, addr, r, interior) {
          if Names(false, addr, r, interior) {
            RangeFilter(addr, r, interior);
          }
        }
      }
    }

    /** GC_scan_region: every word of the region is tried against the table. */
    method ScanRegion(mem: Word -> Word, begin: Word, end: Word, interior: bool) returns (t: ObjHtable)
      requires Ok() && minObj <= maxObj
      requires begin % 8 == 0 && end % 8 == 0
      ensures t.Ok() && t.Kept() == Kept() && t.White() <= White() && SameRest(t)
      ensures Clean(t.White(), mem, begin, end, interior)
      ensures GrewByHits(t.followList, followList, false, mem, begin, end, interior)
      ensures GrewByHits(t.markedList, markedList, true, mem, begin, end, interior)
    {
      hide Inv, KeptOf, InTable, Names, GrewByHits, Clean, Hit;
      t := this;
      var region: int := begin;
      NoWords(White(), followList, false, mem, begin, if begin < end then begin else end, interior);
      NoWords(White(), markedList, true, mem, begin, if begin < end then begin else end, interior);
      if begin < end {
        while region < end
          invariant begin <= region <= end && region % 8 == 0
          invariant t.Ok() && t.Kept() == Kept() && t.White() <= White() && SameRest(t)
          invariant Clean(t.White(), mem, begin, region, interior)
          invariant GrewByHits(t.followList, followList, false, mem, begin, region, interior)
          invariant GrewByHits(t.markedList, markedList, true, mem, begin, region, interior)
        {
          ghost var was := t;
          t := t.ScanWord(mem(region), interior);
          CleanOne(was.White(), t.White(), mem, begin, region, interior);
          GrowOne(was.followList, t.followList, followList, false, mem, begin, region, interior);
          GrowOne(was.markedList, t.markedList, markedList, true, mem, begin, region, interior);
          region := region + 8;
        }
      }
    }

    /** GC_objlink_add: the first unused record describes the new object and enters its bucket. */
    method Add(obj: Word, size: nat, atomic: bool) returns (t: ObjHtable)
      requires Ok() && unlinkedList != []
      requires 0 < size < FLAG_BIT
      requires Layout(Objs() + multiset{NewRec(unlinkedList[0], obj, size, atomic)})
      ensures t.Ok() && t.minObj <= t.maxObj
      ensures t.unlinkedList == unlinkedList[1..]
      ensures t.White() == White() + multiset{NewRec(unlinkedList[0], obj, size, atomic)}
      ensures t.followList == followList && t.markedList == markedList && t.freeList == freeList
      ensures t.log2Size == log2Size && t.pendingFree == pendingFree
    {
      hide Index, Layout, Descending, Homed;
      var r := NewRec(unlinkedList[0], obj, size, atomic);
      PlacedIn(Objs(), r);
      AddedTo(White(), followList, markedList, freeList, r);
      var lo := if minObj >= obj then obj else minObj;
      var hi := if obj + 256 > maxObj then obj + 256 else maxObj;
      Widen(hroots, log2Size, minObj, maxObj, lo, hi);
      var b := InsertAt(hroots, log2Size, lo, hi, r, Objs() + multiset{r});
      t := this.(hroots := b, unlinkedList := unlinkedList[1..], minObj := lo, maxObj := hi, count := count + 1);
    }

    lemma OkParts()
      requires Ok()
      ensures TableOk(hroots, log2Size, minObj, maxObj) && 1 <= minObj && 256 <= maxObj
      ensures Layout(Objs()) && InTable(hroots) <= Objs()
    {
    }

    /** GC_objlink_some_refill: up to `most` records go back to the table, from the follow list if it has
        any, else from the marked list. */
    method SomeRefill(most: nat) returns (t: ObjHtable, n: nat)
      requires Ok() && most >= 1
      ensures t.Ok() && t.Kept() == Kept() && White() <= t.White()
      ensures n == 0 <==> followList == [] && markedList == []
      ensures n <= most && |t.followList| + |t.markedList| + n == |followList| + |markedList|
      ensures if followList != [] then
                n <= |followList| && t.followList == followList[n..] && t.markedList == markedList
              else t.followList == [] && n <= |markedList| && t.markedList == markedList[n..]
      ensures t == this.(hroots := t.hroots, minObj := t.minObj, maxObj := t.maxObj, count := t.count,
                         followList := t.followList, markedList := t.markedList)
      ensures n == 0 ==> t == this
    {
      hide TableOk, Layout, KeptOf, InTable, Rec.Size, Inv;
      OkParts();
      t, n := this, 0;
      if followList != [] || markedList != [] {
        var list := if followList != [] then followList else markedList;
        var hr, lo: int, hi: int := hroots, minObj, maxObj - 256;
        while n < most && n < |list|
          invariant n <= most && n <= |list| && 1 <= lo < WORD && 0 <= hi < WORD - 256
          invariant TableOk(hr, log2Size, lo, hi + 256)
          invariant InTable(hr) + multiset(list[n..]) == White() + multiset(list)
        {
          Refillable(this, hr, list, n);
          hr, lo, hi := LinkBack(hr, log2Size, lo, hi, list[n], Objs());
          n := n + 1;
        }
        t := this.(hroots := hr, minObj := lo, maxObj := hi + 256, count := count + n);
        if followList != [] {
          t := t.(followList := list[n..]);
        } else {
          t := t.(markedList := list[n..]);
        }
        RefilledOk(this, t, list, n);
      }
    }

    /** GC_objlink_remove_all: every bucket is emptied onto the free list. The byte sum runs over flagged
        size words and wraps; only its value below the flag bit is meaningful. */
    method RemoveAll() returns (t: ObjHtable, cnt: nat, removed: Word)
      requires Ok()
      ensures t.Ok() && t.White() == multiset{} && t.Objs() == Objs()
      ensures multiset(t.freeList) == multiset(freeList) + White()
      ensures cnt == |White()| && removed % FLAG_BIT == Tally(White()).bytes % FLAG_BIT
      ensures t == this.(hroots := t.hroots, freeList := t.freeList, count := 0, minObj := WORD - 1, maxObj := 256)
    {
      hide TableOk, Layout, KeptOf, InTable, Tally;
      var hr, free := hroots, freeList;
      ghost var gone := multiset{};
      cnt, removed := 0, 0;
      EmptyTally();
      var i := 0;
      while i < |hr|
        invariant i <= |hr| == |hroots|
        invariant forall j :: 0 <= j < i ==> hr[j] == []
        invariant forall j :: i <= j < |hr| ==> hr[j] == hroots[j]
        invariant InTable(hr) + gone == White()
        invariant multiset(free) == multiset(freeList) + gone
        invariant cnt == |gone| && removed % FLAG_BIT == Tally(gone).bytes % FLAG_BIT
      {
        if hr[i] != [] {
          var s := hr[i];
          var k := 0;
          assert gone + multiset(s[..0]) == gone;
          while k < |s|
            invariant k <= |s| && removed % FLAG_BIT == Tally(gone + multiset(s[..k])).bytes % FLAG_BIT
          {
            MaskStep(removed, gone, s, k);
            removed := Wrap(removed + s[k].flagged);
            k := k + 1;
          }
          assert s[..k] == s;
          Unhook(hr, i, gone, free, freeList, White());
          cnt := cnt + |s|;
          free := s + free;
          hr := hr[i := []];
          gone := gone + multiset(s);
        }
        i := i + 1;
      }
      AllEmpty(hr);
      Emptied(this, hr, free, gone);
      t := this.(hroots := hr, freeList := free, count := 0, minObj := WORD - 1, maxObj := 256);
    }
  }

  lemma EmptyTally()
    ensures Tally(multiset{}).bytes == 0
  {
  }

  lemma MaskStep(acc: Word, gone: multiset<Rec>, s: seq<Rec>, k: nat)
    requires k < |s| && acc % FLAG_BIT == Tally(gone + multiset(s[..k])).bytes % FLAG_BIT
    ensures Wrap(acc + s[k].flagged) % FLAG_BIT == Tally(gone + multiset(s[..k + 1])).bytes % FLAG_BIT
  {
    hide Tally;
    assert s[..k + 1] == s[..k] + [s[k]];
    TallyAdd(gone + multiset(s[..k]), s[k]);
    assert gone + multiset(s[..k]) + multiset{s[k]} == gone + multiset(s[..k + 1]);
    MaskedSum(acc, Tally(gone + multiset(s[..k])).bytes, s[k].flagged);
  }

  /** Adding flagged words modulo the word size adds their sizes modulo the flag bit. */
  lemma MaskedSum(acc: Word, sum: nat, flagged: Word)
    requires acc % FLAG_BIT == sum % FLAG_BIT
    ensures Wrap(acc + flagged) % FLAG_BIT == (sum + flagged % FLAG_BIT) % FLAG_BIT
  {
    var a, f := acc % FLAG_BIT, flagged % FLAG_BIT;
    var i, j, k := acc / FLAG_BIT, flagged / FLAG_BIT, sum / FLAG_BIT;
    var c := if a + f < FLAG_BIT then 0 else 1;
    var r := a + f - c * FLAG_BIT;
    Remainder(sum + f, k + c, r);
    var n := i + j + c;
    Remainder(Wrap(acc + flagged), if n < 2 then n else n - 2, r);
  }

  lemma Remainder(x: int, q: int, r: int)
    requires 0 <= r < FLAG_BIT && x == FLAG_BIT * q + r
    ensures x % FLAG_BIT == r
  {
  }

  lemma Unhook(hr: Buckets, i: nat, gone: multiset<Rec>, free: seq<Rec>, free0: seq<Rec>, w: multiset<Rec>)
    requires i < |hr| && InTable(hr) + gone == w && multiset(free) == multiset(free0) + gone
    ensures InTable(hr[i := []]) + (gone + multiset(hr[i])) == w
    ensures multiset(hr[i] + free) == multiset(free0) + (gone + multiset(hr[i]))
    ensures |gone + multiset(hr[i])| == |gone| + |hr[i]|
  {
    InTableReplace(hr, i, []);
    hide InTable;
    assert InTable(hr[i := []]) + multiset(hr[i]) == InTable(hr);
  }

  lemma Emptied(t: ObjHtable, hr: Buckets, free: seq<Rec>, gone: multiset<Rec>)
    requires t.Ok() && |hr| == |t.hroots| && (forall j :: 0 <= j < |hr| ==> hr[j] == [])
    requires InTable(hr) == multiset{} && gone == t.White() && multiset(free) == multiset(t.freeList) + gone
    ensures KeptOf(hr, t.followList, t.markedList) + multiset(free) == t.Objs()
    ensures Inv(hr, t.log2Size, WORD - 1, 256, 0, t.Objs())
  {
    hide InTable, Layout;
  }

  lemma InLayout(m: multiset<Rec>, r: Rec)
    requires Layout(m) && r in m
    ensures WellPlaced(r)
  {
  }

  /** The next record to refill is one of the objects, and leaves the list for the table. */
  lemma Refillable(t: ObjHtable, b: Buckets, list: seq<Rec>, n: nat)
    requires t.Ok() && (list == t.followList || list == t.markedList)
    requires n < |list| && InTable(b) + multiset(list[n..]) == t.White() + multiset(list)
    ensures WellPlaced(list[n]) && InTable(b) + multiset{list[n]} <= t.Objs()
    ensures InTable(b) + multiset{list[n]} + multiset(list[n + 1..]) == t.White() + multiset(list)
  {
    RefillStep(t.White(), t.followList, t.markedList, t.freeList, InTable(b), list, n);
    hide InTable, Index, TableOk, Layout;
    InLayout(t.Objs(), list[n]);
  }

  lemma RefillStep(w: multiset<Rec>, f: seq<Rec>, m: seq<Rec>, g: seq<Rec>, w': multiset<Rec>, list: seq<Rec>, n: nat)
    requires list == f || list == m
    requires n < |list| && w' + multiset(list[n..]) == w + multiset(list)
    ensures var all := w + multiset(f) + multiset(m) + multiset(g);
      list[n] in all && w' + multiset{list[n]} <= all
    ensures w' + multiset{list[n]} + multiset(list[n + 1..]) == w + multiset(list)
  {
    assert list[n..] == [list[n]] + list[n + 1..];
    assert w' + multiset{list[n]} <= w + multiset(list);
    assert list[n] in w + multiset(list);
  }

  lemma Refilled(t: ObjHtable, b: Buckets, list: seq<Rec>, n: nat)
    requires t.Ok() && (list == t.followList || list == t.markedList)
    requires n <= |list| && InTable(b) + multiset(list[n..]) == t.White() + multiset(list)
    ensures t.White() <= InTable(b) <= t.Objs() && |InTable(b)| == |t.White()| + n
    ensures list == t.followList ==> KeptOf(b, list[n..], t.markedList) == t.Kept()
    ensures list == t.markedList ==> KeptOf(b, t.followList, list[n..]) == t.Kept()
  {
    RefillEnd(t.White(), t.followList, t.markedList, t.freeList, InTable(b), list, n);
  }

  lemma RefilledOk(t: ObjHtable, t': ObjHtable, list: seq<Rec>, n: nat)
    requires t.Ok() && list == (if t.followList != [] then t.followList else t.markedList) && n <= |list|
    requires TableOk(t'.hroots, t.log2Size, t'.minObj, t'.maxObj) && 1 <= t'.minObj && 256 <= t'.maxObj
    requires InTable(t'.hroots) + multiset(list[n..]) == t.White() + multiset(list) && t'.count == t.count + n
    requires t'.log2Size == t.log2Size && t'.freeList == t.freeList
    requires if t.followList != [] then t'.followList == list[n..] && t'.markedList == t.markedList
             else t'.followList == t.followList && t'.markedList == list[n..]
    ensures t'.Ok() && t'.Kept() == t.Kept() && t.White() <= t'.White()
  {
    hide TableOk, Layout, KeptOf, InTable;
    Refilled(t, t'.hroots, list, n);
  }

  lemma RefillEnd(w: multiset<Rec>, f: seq<Rec>, m: seq<Rec>, g: seq<Rec>, w': multiset<Rec>, list: seq<Rec>, n: nat)
    requires n <= |list| && w' + multiset(list[n..]) == w + multiset(list)
    ensures w <= w' && |w'| == |w| + n
    ensures list == f ==> w' + multiset(list[n..]) + multiset(m) == w + multiset(f) + multiset(m)
    ensures list == m ==> w' + multiset(f) + multiset(list[n..]) == w + multiset(f) + multiset(m)
    ensures list == f || list == m ==> w' <= w + multiset(f) + multiset(m) + multiset(g)
  {
    assert list == list[..n] + list[n..];
    Cancel(w', w + multiset(list[..n]), multiset(list[n..]));
  }

  /** Walks to the place of a record in its bucket and links it there. */
  method InsertAt(b: Buckets, log2: nat, lo: Word, hi: Word, r: Rec, ghost all: multiset<Rec>) returns (b': Buckets)
    requires TableOk(b, log2, lo, hi) && lo <= r.obj && r.obj + 256 <= hi
    requires Layout(all) && InTable(b) + multiset{r} <= all
    ensures TableOk(b', log2, lo, hi) && InTable(b') == InTable(b) + multiset{r}
  {
    hide Index, Layout, Descending, Homed;
    var i := Index(r.obj, log2);
    var k := Walk(b[i], r.obj);
    InsertedOk(b, log2, lo, hi, i, k, r, all);
    b' := Inserted(b, i, k, r);
  }

  /** Links one record back into its bucket; the address range grows with it. */
  method LinkBack(b: Buckets, log2: nat, lo0: int, hi0: int, r: Rec, ghost all: multiset<Rec>)
    returns (b': Buckets, lo: int, hi: int)
    requires TableOk(b, log2, lo0, hi0 + 256) && 1 <= lo0 < WORD && 0 <= hi0 < WORD - 256 && WellPlaced(r)
    requires Layout(all) && InTable(b) + multiset{r} <= all
    ensures TableOk(b', log2, lo, hi + 256) && 1 <= lo < WORD && 0 <= hi < WORD - 256
    ensures InTable(b') == InTable(b) + multiset{r}
  {
    hide TableOk, Layout, InTable;
    lo := if lo0 >= r.obj then r.obj else lo0;
    hi := if hi0 <= r.obj then r.obj else hi0;
    Widen(b, log2, lo0, hi0 + 256, lo, hi + 256);
    b' := InsertAt(b, log2, lo, hi + 256, r, all);
  }

  function NewRec(unused: Rec, obj: Word, size: nat, atomic: bool): (r: Rec)
    requires 0 < size < FLAG_BIT
    ensures r.id == unused.id && r.obj == obj && r.Size() == size && r.Atomic() == atomic
  {
    Rec(unused.id, obj, if atomic then size + FLAG_BIT else size)
  }

  lemma PlacedIn(m: multiset<Rec>, r: Rec)
    requires Layout(m + multiset{r})
    ensures WellPlaced(r)
  {
    assert r in m + multiset{r};
  }

  lemma AddedTo(t: multiset<Rec>, f: seq<Rec>, m: seq<Rec>, g: seq<Rec>, r: Rec)
    ensures t + multiset{r} + multiset(f) + multiset(m) + multiset(g)
      == t + multiset(f) + multiset(m) + multiset(g) + multiset{r}
    ensures t + multiset{r} <= t + multiset(f) + multiset(m) + multiset(g) + multiset{r}
    ensures |t + multiset{r}| == |t| + 1
  {
  }

  /** Disjoint objects: at most one contains an address. */
  lemma OnlyOne(m: multiset<Rec>, addr: Word, r: Rec)
    requires Layout(m) && r in m && Holds([r], 0, addr)
    ensures forall q :: q in m && q.obj <= addr < q.obj + q.Size() ==> q == r
  {
    forall q | q in m && q.obj <= addr < q.obj + q.Size() ensures q == r {
      assert q == r || Apart(q, r);
    }
  }

  /** An object holding `addr` below offset 256 starts in the address's block or in the one before. */
  lemma ProbeBlocks(addr: Word, obj: Word, log2: nat)
    requires obj <= addr < obj + 256
    ensures Index(obj, log2) == Index(addr, log2)
      || (addr % 256 != 255 && Index(obj, log2) == Index(Wrap(addr - 256), log2) == Index(Wrap(addr - 255), log2))
  {
    hide Index;
    BlockBelow(addr, obj);
    if obj / 256 == addr / 256 {
      IndexOfBlock(obj, addr, log2);
    } else {
      IndexOfBlock(obj, addr - 256, log2);
      IndexOfBlock(addr - 255, addr - 256, log2);
    }
  }

  lemma BlockBelow(addr: Word, obj: Word)
    requires obj <= addr < obj + 256
    ensures obj / 256 == addr / 256
      || (addr >= 256 && addr % 256 != 255 && obj / 256 == (addr - 256) / 256 == (addr - 255) / 256)
  {
  }
}
