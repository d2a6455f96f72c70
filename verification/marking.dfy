/** The mark phase: scanning the stack and the data roots, then the bodies of grey objects. */
module Marking {
  import opened Lists
  import opened Words
  import opened Records
  import opened ObjTable

  datatype Region = Region(begin: Word, end: Word, interior: bool) {
    predicate Aligned() {
      begin % 8 == 0 && end % 8 == 0
    }
  }

  /** Memory and scan roots as they are while the mutator is stopped. The stack comes first among the
      roots; `interior` is GC_all_interior_pointers. */
  datatype Snapshot = Snapshot(mem: Word -> Word, roots: seq<Region>, interior: bool) {
    ghost predicate Ok() {
      forall g :: g in roots ==> g.Aligned()
    }
  }

  // ---------- reachability ----------

  ghost predicate RootNames(w: Snapshot, lax: bool, r: Rec) {
    exists g :: g in w.roots && Hit(w.mem, g.begin, g.end, lax, r, g.interior)
  }

  ghost predicate BodyNames(w: Snapshot, lax: bool, p: Rec, r: Rec) {
    Hit(w.mem, p.obj, p.obj + p.Followable(), lax, r, w.interior)
  }

  ghost predicate Chain(w: Snapshot, lax: bool, objs: multiset<Rec>, p: seq<Rec>) {
    && p != []
    && (forall r :: r in p ==> r in objs)
    && RootNames(w, lax, p[0])
    && (forall i :: 0 <= i < |p| - 1 ==> BodyNames(w, lax, p[i], p[i + 1]))
  }

  /** An object at the end of a chain of objects that starts at a root word; atomic objects have no body. */
  ghost predicate Reachable(w: Snapshot, lax: bool, objs: multiset<Rec>, r: Rec) {
    exists p :: Chain(w, lax, objs, p) && p[|p| - 1] == r
  }

  lemma RootReachable(w: Snapshot, objs: multiset<Rec>, g: Region, r: Rec)
    requires g in w.roots && r in objs && Hit(w.mem, g.begin, g.end, true, r, g.interior)
    ensures Reachable(w, true, objs, r)
  {
    hide Hit;
    assert Chain(w, true, objs, [r]);
  }

  lemma ChildReachable(w: Snapshot, lax: bool, objs: multiset<Rec>, p: Rec, r: Rec)
    requires Reachable(w, lax, objs, p) && r in objs && BodyNames(w, lax, p, r)
    ensures Reachable(w, lax, objs, r)
  {
    hide BodyNames, RootNames;
    var c :| Chain(w, lax, objs, c) && c[|c| - 1] == p;
    var d := c + [r];
    assert forall i :: 0 <= i < |d| - 1 ==> BodyNames(w, lax, d[i], d[i + 1]);
    assert Chain(w, lax, objs, d) && d[|d| - 1] == r;
  }

  // ---------- the tri-colour invariant ----------

  ghost predicate CleanRegion(t: ObjHtable, w: Snapshot, g: Region) {
    Clean(t.White(), w.mem, g.begin, g.end, g.interior)
  }

  ghost predicate CleanBody(t: ObjHtable, w: Snapshot, r: Rec) {
    Clean(t.White(), w.mem, r.obj, r.obj + r.Followable(), w.interior)
  }

  /** After `n` root regions: no scanned root word and no word of a black object names a white object,
      and whatever left the table was reached. */
  ghost predicate TriColour(t: ObjHtable, w: Snapshot, objs: multiset<Rec>, n: nat) {
    && t.Ok() && t.minObj <= t.maxObj && t.Kept() == objs
    && n <= |w.roots|
    && (forall i :: 0 <= i < n ==> CleanRegion(t, w, w.roots[i]))
    && (forall r :: r in t.markedList ==> CleanBody(t, w, r))
    && (forall r :: r in t.followList ==> !r.Atomic())
    && (forall r :: r in t.markedList || r in t.followList ==> Reachable(w, true, objs, r))
  }

  lemma CleanShrinks(m: multiset<Rec>, m': multiset<Rec>, mem: Word -> Word, begin: int, end: int, interior: bool)
    requires Clean(m, mem, begin, end, interior) && m' <= m
    ensures Clean(m', mem, begin, end, interior)
  {
    forall r | r in m' ensures !Hit(mem, begin, end, false, r, interior) {
      assert r in m;
    }
  }

  lemma ShrunkenStaysClean(t: ObjHtable, t': ObjHtable, w: Snapshot, n: nat)
    requires t'.White() <= t.White() && n <= |w.roots|
    requires forall i :: 0 <= i < n ==> CleanRegion(t, w, w.roots[i])
    requires forall r :: r in t.markedList ==> CleanBody(t, w, r)
    ensures forall i :: 0 <= i < n ==> CleanRegion(t', w, w.roots[i])
    ensures forall r :: r in t.markedList ==> CleanBody(t', w, r)
  {
    hide Clean;
    forall i | 0 <= i < n ensures CleanRegion(t', w, w.roots[i]) {
      var g := w.roots[i];
      assert CleanRegion(t, w, g);
      CleanShrinks(t.White(), t'.White(), w.mem, g.begin, g.end, g.interior);
    }
    forall r | r in t.markedList ensures CleanBody(t', w, r) {
      CleanShrinks(t.White(), t'.White(), w.mem, r.obj, r.obj + r.Followable(), w.interior);
    }
  }

  /** Records a scan newly pushed on a list are reachable if everything the region names is. */
  lemma HitsReachable(t: ObjHtable, t': ObjHtable, s: seq<Rec>, was: seq<Rec>, atomic: bool, w: Snapshot,
                      objs: multiset<Rec>, begin: int, end: int, interior: bool)
    requires t'.Kept() == objs && (s == t'.followList || s == t'.markedList)
    requires GrewByHits(s, was, atomic, w.mem, begin, end, interior)
    requires forall r :: r in was ==> Reachable(w, true, objs, r)
    requires forall r :: r in objs && Hit(w.mem, begin, end, true, r, interior) ==> Reachable(w, true, objs, r)
    ensures forall r :: r in s ==> Reachable(w, true, objs, r)
  {
    hide Reachable, Hit;
    forall r | r in s ensures Reachable(w, true, objs, r) {
      if r !in was {
        assert r in multiset(s);
        assert r in t'.Kept();
      }
    }
  }

  /** Newly marked records are atomic, so they have no body to scan. */
  lemma NewBlackIsClean(t: ObjHtable, s: seq<Rec>, was: seq<Rec>, w: Snapshot, begin: int, end: int, interior: bool)
    requires GrewByHits(s, was, true, w.mem, begin, end, interior)
    requires forall r :: r in was ==> CleanBody(t, w, r)
    ensures forall r :: r in s ==> CleanBody(t, w, r)
  {
    hide Clean, Hit;
    forall r | r in s ensures CleanBody(t, w, r) {
      if r !in was {
        NoWords(t.White(), [], true, w.mem, r.obj, r.obj, w.interior);
      }
    }
  }

  /** One root region scanned keeps the invariant. */
  lemma RootStep(t: ObjHtable, t': ObjHtable, w: Snapshot, objs: multiset<Rec>, n: nat)
    requires TriColour(t, w, objs, n) && n < |w.roots|
    requires t'.Ok() && t'.Kept() == objs && t'.White() <= t.White() && t.SameRest(t')
    requires CleanRegion(t', w, w.roots[n])
    requires var g := w.roots[n];
      GrewByHits(t'.followList, t.followList, false, w.mem, g.begin, g.end, g.interior)
      && GrewByHits(t'.markedList, t.markedList, true, w.mem, g.begin, g.end, g.interior)
    ensures TriColour(t', w, objs, n + 1)
  {
    hide Reachable, Hit, Clean, GrewByHits, Inv, KeptOf, InTable, CleanRegion, CleanBody;
    var g := w.roots[n];
    ShrunkenStaysClean(t, t', w, n);
    NewBlackIsClean(t', t'.markedList, t.markedList, w, g.begin, g.end, g.interior);
    forall r | r in objs && Hit(w.mem, g.begin, g.end, true, r, g.interior) ensures Reachable(w, true, objs, r) {
      RootReachable(w, objs, g, r);
    }
    HitsReachable(t, t', t'.followList, t.followList, false, w, objs, g.begin, g.end, g.interior);
    HitsReachable(t, t', t'.markedList, t.markedList, true, w, objs, g.begin, g.end, g.interior);
    OnlyGrey(t'.followList, t.followList, w, g.begin, g.end, g.interior);
  }

  /** GC_stack_scan_cur and GC_roots_scan: region 0 is the stack and is always scanned; before each later
      one the stop function may ask to give up. */
  method ScanRoots(t0: ObjHtable, w: Snapshot, mayStop: bool, stops: nat -> bool, polls: nat)
    returns (t: ObjHtable, n: nat, polls': nat)
    requires t0.Ok() && t0.minObj <= t0.maxObj && t0.followList == [] && t0.markedList == []
    requires w.Ok() && w.roots != []
    ensures TriColour(t, w, t0.Kept(), n) && t0.SameRest(t)
    ensures polls' >= polls && n <= |w.roots| && (n < |w.roots| ==> mayStop && polls' > polls && stops(polls' - 1))
  {
    hide Reachable, Hit, Clean, GrewByHits, Inv, KeptOf, InTable, CleanBody;
    t, n, polls' := t0, 0, polls;
    while n < |w.roots|
      invariant n <= |w.roots| && TriColour(t, w, t0.Kept(), n) && t0.SameRest(t) && polls' >= polls
    {
      if mayStop && n > 0 {
        polls' := polls' + 1;
        if stops(polls' - 1) {
          break;
        }
      }
      var g := w.roots[n];
      assert g in w.roots && g.Aligned();
      var t' := t.ScanRegion(w.mem, g.begin, g.end, g.interior);
      RootStep(t, t', w, t0.Kept(), n);
      t, n := t', n + 1;
    }
  }

  /** The record GC_scan_followable takes off the follow list is on the marked list while its body is read. */
  function Blacken(t: ObjHtable): ObjHtable
    requires t.followList != []
  {
    t.(followList := t.followList[1..], markedList := [t.followList[0]] + t.markedList)
  }

  lemma BlackenOk(t: ObjHtable)
    requires t.Ok() && t.followList != []
    ensures Blacken(t).Ok() && Blacken(t).Kept() == t.Kept() && t.followList[0] in t.Kept()
    ensures WellPlaced(t.followList[0])
  {
    hide Layout, TableOk;
    PopAndPush(t.White(), t.followList, t.markedList);
    InLayout(t.Objs(), t.followList[0]);
  }

  lemma PopAndPush(w: multiset<Rec>, f: seq<Rec>, m: seq<Rec>)
    requires f != []
    ensures w + multiset(f[1..]) + multiset([f[0]] + m) == w + multiset(f) + multiset(m)
    ensures f[0] in w + multiset(f) + multiset(m)
  {
    assert f == [f[0]] + f[1..];
    assert multiset([f[0]] + m) == multiset{f[0]} + multiset(m);
    assert f[0] in multiset(f);
  }

  /** One grey object scanned keeps the invariant. */
  lemma FollowStep(t: ObjHtable, t': ObjHtable, w: Snapshot, objs: multiset<Rec>, n: nat)
    requires TriColour(t, w, objs, n) && t.followList != []
    requires t'.Ok() && t'.Kept() == objs && t'.White() <= t.White() && Blacken(t).SameRest(t')
    requires CleanBody(t', w, t.followList[0]) && t.followList[0] in objs
    requires var r, b := t.followList[0], Blacken(t);
      GrewByHits(t'.followList, b.followList, false, w.mem, r.obj, r.obj + r.Followable(), w.interior)
      && GrewByHits(t'.markedList, b.markedList, true, w.mem, r.obj, r.obj + r.Followable(), w.interior)
    ensures TriColour(t', w, objs, n)
  {
    hide Reachable, Hit, Clean, GrewByHits, Inv, KeptOf, InTable, CleanRegion, CleanBody;
    var r, b := t.followList[0], Blacken(t);
    var end := r.obj + r.Followable();
    assert forall q :: q in b.followList ==> q in t.followList;
    assert forall q :: q in b.markedList ==> q == r || q in t.markedList;
    ShrunkenStaysClean(t, t', w, n);
    NewBlackIsClean(t', t'.markedList, b.markedList, w, r.obj, end, w.interior);
    forall q | q in objs && Hit(w.mem, r.obj, end, true, q, w.interior) ensures Reachable(w, true, objs, q) {
      ChildReachable(w, true, objs, r, q);
    }
    HitsReachable(t, t', t'.followList, b.followList, false, w, objs, r.obj, end, w.interior);
    HitsReachable(t, t', t'.markedList, b.markedList, true, w, objs, r.obj, end, w.interior);
    OnlyGrey(t'.followList, b.followList, w, r.obj, end, w.interior);
  }

  lemma OnlyGrey(s: seq<Rec>, was: seq<Rec>, w: Snapshot, begin: int, end: int, interior: bool)
    requires GrewByHits(s, was, false, w.mem, begin, end, interior)
    requires forall r :: r in was ==> !r.Atomic()
    ensures forall r :: r in s ==> !r.Atomic()
  {
  }

  /** GC_scan_followable: grey objects go black one by one until none is left or the stop function says so. */
  method ScanFollowable(t0: ObjHtable, w: Snapshot, mayStop: bool, stops: nat -> bool, polls: nat,
                        ghost objs: multiset<Rec>, ghost n: nat)
    returns (t: ObjHtable, polls': nat)
    requires TriColour(t0, w, objs, n)
    ensures TriColour(t, w, objs, n) && t0.SameRest(t)
    ensures polls' >= polls && (t.followList != [] ==> mayStop && polls' > polls && stops(polls' - 1))
  {
    hide Reachable, Hit, Clean, GrewByHits, Inv, KeptOf, InTable, CleanRegion;
    t, polls' := t0, polls;
    while t.followList != []
      invariant TriColour(t, w, objs, n) && t0.SameRest(t) && polls' >= polls
      decreases |t.White()| + |t.followList|
    {
      if mayStop {
        polls' := polls' + 1;
        if stops(polls' - 1) {
          break;
        }
      }
      var r := t.followList[0];
      BlackenOk(t);
      var b := Blacken(t);
      var t' := b.ScanRegion(w.mem, r.obj, r.obj + r.Size() / 8 * 8, w.interior);
      FollowStep(t, t', w, objs, n);
      LessToScan(t, t', w);
      t := t';
    }
  }

  lemma LessToScan(t: ObjHtable, t': ObjHtable, w: Snapshot)
    requires t.followList != [] && t'.Kept() == t.Kept()
    requires var r := t.followList[0];
      GrewByHits(t'.markedList, Blacken(t).markedList, true, w.mem, r.obj, r.obj + r.Followable(), w.interior)
    ensures |t'.White()| + |t'.followList| < |t.White()| + |t.followList|
  {
    assert |t.Kept()| == |t.White()| + |t.followList| + |t.markedList|;
    assert |t'.Kept()| == |t'.White()| + |t'.followList| + |t'.markedList|;
    SubsetSize(multiset(Blacken(t).markedList), multiset(t'.markedList));
  }

  lemma SubsetSize(a: multiset<Rec>, b: multiset<Rec>)
    requires a <= b
    ensures |a| <= |b|
  {
    assert b == a + (b - a);
  }

  // ---------- what a finished mark phase means ----------

  ghost predicate AllReachableIn(w: Snapshot, objs: multiset<Rec>, kept: multiset<Rec>) {
    forall r :: r in objs && Reachable(w, false, objs, r) ==> r in kept
  }

  ghost predicate OnlyReachableIn(w: Snapshot, objs: multiset<Rec>, kept: multiset<Rec>) {
    forall r :: r in kept ==> r in objs && Reachable(w, true, objs, r)
  }

  /** What a root word must be taken to name is kept. */
  ghost predicate RootsIn(w: Snapshot, objs: multiset<Rec>, kept: multiset<Rec>) {
    forall r :: r in objs && RootNames(w, false, r) ==> r in kept
  }

  /** No object that is kept names one that is not. */
  ghost predicate ClosedIn(w: Snapshot, objs: multiset<Rec>, kept: multiset<Rec>) {
    forall p, r :: p in kept && r in objs && BodyNames(w, false, p, r) ==> r in kept
  }

  lemma NoneMissed(t: ObjHtable, w: Snapshot, objs: multiset<Rec>)
    requires TriColour(t, w, objs, |w.roots|) && t.followList == []
    ensures RootsIn(w, objs, multiset(t.markedList)) && ClosedIn(w, objs, multiset(t.markedList))
  {
    hide Reachable, Hit, Inv;
    forall r | r in objs && RootNames(w, false, r) ensures r in t.markedList {
      var g :| g in w.roots && Hit(w.mem, g.begin, g.end, false, r, g.interior);
      var k :| 0 <= k < |w.roots| && w.roots[k] == g;
      assert CleanRegion(t, w, w.roots[k]);
      assert r !in t.White();
    }
    forall p, r | p in multiset(t.markedList) && r in objs && BodyNames(w, false, p, r) ensures r in t.markedList {
      assert CleanBody(t, w, p);
      assert r !in t.White();
    }
  }

  lemma {:induction false} ChainIsBlack(t: ObjHtable, w: Snapshot, objs: multiset<Rec>, p: seq<Rec>, i: nat)
    requires TriColour(t, w, objs, |w.roots|) && t.followList == []
    requires Chain(w, false, objs, p) && i < |p|
    ensures p[i] in t.markedList
  {
    hide Reachable, Hit, Inv;
    assert p[i] in objs;
    if i == 0 {
      var g :| g in w.roots && Hit(w.mem, g.begin, g.end, false, p[0], g.interior);
      var k :| 0 <= k < |w.roots| && w.roots[k] == g;
      assert CleanRegion(t, w, w.roots[k]);
      assert p[0] !in t.White();
    } else {
      ChainIsBlack(t, w, objs, p, i - 1);
      assert CleanBody(t, w, p[i - 1]) && BodyNames(w, false, p[i - 1], p[i - 1 + 1]);
      assert p[i] !in t.White();
    }
  }

  /** Mark-and-sweep safety: everything reachable is black, and everything black was reached. */
  lemma MarkedExactly(t: ObjHtable, w: Snapshot, objs: multiset<Rec>)
    requires TriColour(t, w, objs, |w.roots|) && t.followList == []
    ensures AllReachableIn(w, objs, multiset(t.markedList))
    ensures OnlyReachableIn(w, objs, multiset(t.markedList))
    ensures RootsIn(w, objs, multiset(t.markedList)) && ClosedIn(w, objs, multiset(t.markedList))
    ensures objs == t.White() + multiset(t.markedList)
  {
    NoneMissed(t, w, objs);
    hide TriColour, RootsIn, ClosedIn;
    assert t.Kept() == objs && forall r :: r in t.markedList ==> Reachable(w, true, objs, r) by {
      Unfold(t, w, objs);
    }
    forall r | r in objs && Reachable(w, false, objs, r) ensures r in multiset(t.markedList) {
      var p :| Chain(w, false, objs, p) && p[|p| - 1] == r;
      ChainIsBlack(t, w, objs, p, |p| - 1);
    }
  }

  lemma Unfold(t: ObjHtable, w: Snapshot, objs: multiset<Rec>)
    requires TriColour(t, w, objs, |w.roots|)
    ensures t.Kept() == objs && forall r :: r in t.markedList ==> Reachable(w, true, objs, r)
  {
  }
}
