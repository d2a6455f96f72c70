/** Boundary tags: how chunk headers and footers describe one contiguous arena (gclib/dlmalloc.c). */
module Chunks {
  const MINSIZE: nat := 32

  /** The size field of a chunk, with its PREV_INUSE bit kept apart. */
  datatype Head = Head(size: nat, pinuse: bool) {

    /** The word as it is stored, which is what the sorted bins compare. */
    function Field(): nat {
      if pinuse then size + 1 else size
    }
  }

  /** Size fields by chunk address. Fields that coalescing leaves inside a larger chunk are dropped. */
  type Heads = map<nat, Head>

  /** The prev_size fields, by the address of the chunk that follows. */
  type Feet = map<nat, nat>

  function Next(h: Heads, p: nat): nat
    requires p in h
  {
    p + h[p].size
  }

  ghost predicate Placed(h: Heads, base: nat, top: nat, p: nat)
    requires p in h
  {
    && base <= p <= top && p % 16 == 0 && h[p].size % 16 == 0 && MINSIZE <= h[p].size
    && (p != top ==> Next(h, p) in h)
  }

  ghost predicate Below(h: Heads, p: nat, q: nat)
    requires p in h
  {
    Next(h, p) <= q
  }

  /** The chunks tile the arena [base, end), and `top` is the last one. */
  ghost predicate Tiles(h: Heads, base: nat, top: nat, end: nat) {
    && base in h && top in h && Next(h, top) == end
    && (forall p {:trigger Placed(h, base, top, p)} :: p in h ==> Placed(h, base, top, p))
    && (forall p, q {:trigger Below(h, p, q)} :: p in h && q in h && p < q ==> Below(h, p, q))
  }

  /** The PREV_INUSE bit after the chunk tells whether it is free; a free chunk has its footer set and
      touches neither another free chunk nor the top. */
  ghost predicate TagOk(h: Heads, foot: Feet, free: set<nat>, top: nat, p: nat)
    requires p in h
  {
    p != top ==>
      var n := Next(h, p);
      && n in h && (p in free <==> !h[n].pinuse)
      && (p in free ==> n in foot && foot[n] == h[p].size && n !in free && n != top)
  }

  ghost predicate Tagged(h: Heads, foot: Feet, free: set<nat>, base: nat, top: nat) {
    && base in h && h[base].pinuse
    && (forall p :: p in free ==> p in h && p != top)
    && (forall p {:trigger TagOk(h, foot, free, top, p)} :: p in h ==> TagOk(h, foot, free, top, p))
  }

  /** What do_check_chunk, do_check_free_chunk and do_check_inuse_chunk ask of every chunk. */
  ghost predicate Arena(h: Heads, foot: Feet, free: set<nat>, base: nat, top: nat, end: nat) {
    Tiles(h, base, top, end) && Tagged(h, foot, free, base, top)
  }

  // ---------- neighbours ----------

  lemma {:induction false} Greatest(s: set<nat>) returns (m: nat)
    requires s != {}
    ensures m in s && forall x :: x in s ==> x <= m
    decreases |s|
  {
    m :| m in s;
    var rest := s - {m};
    assert forall x :: x in s ==> x == m || x in rest;
    if rest != {} {
      var n := Greatest(rest);
      m := if n > m then n else m;
    }
  }

  /** Every chunk but the first one is the end of another. */
  lemma Predecessor(h: Heads, base: nat, top: nat, end: nat, p: nat) returns (q: nat)
    requires Tiles(h, base, top, end) && p in h && p != base
    ensures q in h && q != top && Next(h, q) == p
  {
    assert Placed(h, base, top, p);
    var below := set x | x in h && x < p;
    assert base in below;
    q := Greatest(below);
    assert Placed(h, base, top, q) && Below(h, q, p);
    assert Next(h, q) in below || Next(h, q) == p;
  }

  lemma SameEnd(h: Heads, base: nat, top: nat, end: nat, p: nat, q: nat)
    requires Tiles(h, base, top, end) && p in h && q in h && Next(h, p) == Next(h, q)
    ensures p == q
  {
    assert Placed(h, base, top, p) && Placed(h, base, top, q);
    assert (p < q ==> Below(h, p, q)) && (q < p ==> Below(h, q, p));
  }

  /** A clear PREV_INUSE bit: the footer leads to the free chunk before. */
  lemma FootLeads(h: Heads, foot: Feet, free: set<nat>, base: nat, top: nat, end: nat, p: nat)
    requires Arena(h, foot, free, base, top, end) && p in h && !h[p].pinuse
    ensures p in foot && foot[p] <= p && p - foot[p] in free && p - foot[p] in h && Next(h, p - foot[p]) == p
    ensures p != top && p !in free
  {
    var q := Predecessor(h, base, top, end, p);
    assert TagOk(h, foot, free, top, q);
  }

  /** A free chunk, and the top, follow a chunk in use. */
  lemma FollowsUsed(h: Heads, foot: Feet, free: set<nat>, base: nat, top: nat, end: nat, p: nat)
    requires Arena(h, foot, free, base, top, end) && (p in free || p == top)
    ensures p in h && h[p].pinuse
  {
    if !h[p].pinuse {
      FootLeads(h, foot, free, base, top, end, p);
    }
  }

  /** Neighbouring chunks are never both free. */
  lemma NoFreeNeighbours(h: Heads, foot: Feet, free: set<nat>, base: nat, top: nat, end: nat, p: nat, q: nat)
    requires Arena(h, foot, free, base, top, end) && p in free && q in free + {top}
    ensures p in h && Next(h, p) != q
  {
    assert TagOk(h, foot, free, top, p);
  }

  // ---------- taking ----------

  lemma SameTiles(h: Heads, h': Heads, base: nat, top: nat, end: nat)
    requires Tiles(h, base, top, end) && h'.Keys == h.Keys && forall p :: p in h ==> h'[p].size == h[p].size
    ensures Tiles(h', base, top, end)
  {
    forall p | p in h' ensures Placed(h', base, top, p) {
      assert Placed(h, base, top, p);
    }
    forall p, q | p in h' && q in h' && p < q ensures Below(h', p, q) {
      assert Below(h, p, q);
    }
  }

  /** set_inuse_bit_at_offset on a free chunk takes it. */
  lemma Take(h: Heads, foot: Feet, free: set<nat>, base: nat, top: nat, end: nat, p: nat)
    requires Arena(h, foot, free, base, top, end) && p in free
    ensures p in h && Next(h, p) in h
    ensures Arena(h[Next(h, p) := h[Next(h, p)].(pinuse := true)], foot, free - {p}, base, top, end)
  {
    assert TagOk(h, foot, free, top, p);
    var n := Next(h, p);
    var h' := h[n := h[n].(pinuse := true)];
    SameTiles(h, h', base, top, end);
    forall q | q in h' ensures TagOk(h', foot, free - {p}, top, q) {
      assert TagOk(h, foot, free, top, q);
      if Next(h, q) == n {
        SameEnd(h, base, top, end, p, q);
      }
    }
  }

  // ---------- splitting ----------

  function Split(h: Heads, p: nat, n: nat): Heads
    requires p in h && n <= h[p].size
  {
    h[p := Head(n, true)][p + n := Head(h[p].size - n, true)]
  }

  lemma Inside(h: Heads, base: nat, top: nat, end: nat, p: nat, x: nat)
    requires Tiles(h, base, top, end) && p in h && x in h && p < x
    ensures Next(h, p) <= x
  {
    assert Below(h, p, x);
  }

  lemma SplitTiles(h: Heads, base: nat, top: nat, end: nat, p: nat, n: nat)
    requires Tiles(h, base, top, end) && p in h && n % 16 == 0 && MINSIZE <= n && n + MINSIZE <= h[p].size
    ensures p + n !in h && Tiles(Split(h, p, n), base, if p == top then p + n else top, end)
  {
    var h', r := Split(h, p, n), p + n;
    assert Placed(h, base, top, p);
    if r in h {
      Inside(h, base, top, end, p, r);
    }
    forall q | q in h' ensures Placed(h', base, if p == top then r else top, q) {
      SplitPlaced(h, base, top, end, p, n, q);
    }
    forall q, x | q in h' && x in h' && q < x ensures Below(h', q, x) {
      SplitBelow(h, base, top, end, p, n, q, x);
    }
  }

  lemma SplitPlaced(h: Heads, base: nat, top: nat, end: nat, p: nat, n: nat, q: nat)
    requires Tiles(h, base, top, end) && p in h && n % 16 == 0 && MINSIZE <= n && n + MINSIZE <= h[p].size
    requires q in Split(h, p, n) && p + n !in h
    ensures Placed(Split(h, p, n), base, if p == top then p + n else top, q)
  {
    assert Placed(h, base, top, p);
    if q == p + n {
      assert p != top ==> Placed(h, base, top, top) && Below(h, p, top);
    } else {
      assert Placed(h, base, top, q);
    }
  }

  lemma SplitBelow(h: Heads, base: nat, top: nat, end: nat, p: nat, n: nat, q: nat, x: nat)
    requires Tiles(h, base, top, end) && p in h && MINSIZE <= n && n + MINSIZE <= h[p].size && p + n !in h
    requires q in Split(h, p, n) && x in Split(h, p, n) && q < x
    ensures Below(Split(h, p, n), q, x)
  {
    var r := p + n;
    if q == r {
      assert Below(h, p, x);
    } else if x == r {
      assert q < p ==> Below(h, q, p);
      assert p < q ==> Below(h, p, q);
    } else {
      assert Below(h, q, x);
    }
  }

  /** The front of a free chunk is taken, the rest stays free. */
  lemma TakeFront(h: Heads, foot: Feet, free: set<nat>, base: nat, top: nat, end: nat, p: nat, n: nat)
    requires Arena(h, foot, free, base, top, end) && p in free
    requires p in h && n % 16 == 0 && MINSIZE <= n && n + MINSIZE <= h[p].size
    ensures p + n !in h
    ensures Arena(Split(h, p, n), foot[Next(h, p) := h[p].size - n], free - {p} + {p + n}, base, top, end)
  {
    hide Placed, Below;
    SplitTiles(h, base, top, end, p, n);
    var h', f', s', r := Split(h, p, n), foot[Next(h, p) := h[p].size - n], free - {p} + {p + n}, p + n;
    assert TagOk(h, foot, free, top, p);
    FollowsUsed(h, foot, free, base, top, end, p);
    forall q | q in h' ensures TagOk(h', f', s', top, q) {
      if q != r && q != p {
        FarFrom(h, base, top, end, p, q);
        assert TagOk(h, foot, free, top, q);
      }
    }
  }

  /** Another chunk does not end inside this one or with it. */
  lemma FarFrom(h: Heads, base: nat, top: nat, end: nat, p: nat, q: nat)
    requires Tiles(h, base, top, end) && p in h && q in h && p != q
    ensures Next(h, q) <= p || Next(h, p) < Next(h, q)
  {
    assert Placed(h, base, top, p) && Placed(h, base, top, q);
    assert (p < q ==> Below(h, p, q)) && (q < p ==> Below(h, q, p));
  }

  /** The front of the top is taken. */
  lemma TakeTop(h: Heads, foot: Feet, free: set<nat>, base: nat, top: nat, end: nat, n: nat)
    requires Arena(h, foot, free, base, top, end)
    requires top in h && n % 16 == 0 && MINSIZE <= n && n + MINSIZE <= h[top].size
    ensures top + n !in h && Arena(Split(h, top, n), foot, free, base, top + n, end)
  {
    hide Placed, Below;
    SplitTiles(h, base, top, end, top, n);
    var h', r := Split(h, top, n), top + n;
    FollowsUsed(h, foot, free, base, top, end, top);
    forall q | q in h' ensures TagOk(h', foot, free, r, q) {
      if q != r && q != top {
        FarFrom(h, base, top, end, top, q);
        assert TagOk(h, foot, free, top, q);
      }
    }
  }

  /** More memory from the system lengthens the top. */
  lemma Grow(h: Heads, foot: Feet, free: set<nat>, base: nat, top: nat, end: nat, n: nat)
    requires Arena(h, foot, free, base, top, end) && n % 16 == 0
    ensures top in h && Arena(h[top := Head(h[top].size + n, true)], foot, free, base, top, end + n)
  {
    var h' := h[top := Head(h[top].size + n, true)];
    FollowsUsed(h, foot, free, base, top, end, top);
    forall p | p in h' ensures Placed(h', base, top, p) && TagOk(h', foot, free, top, p) {
      assert Placed(h, base, top, p) && TagOk(h, foot, free, top, p);
    }
    forall p, q | p in h' && q in h' && p < q ensures Below(h', p, q) {
      assert Placed(h, base, top, q) && Below(h, p, q);
    }
  }

  // ---------- coalescing ----------

  /** The chunks from `a` up to `b` become one. */
  function Fuse(h: Heads, a: nat, b: nat): Heads
    requires a <= b
  {
    (map p | p in h && (p < a || b <= p) :: h[p])[a := Head(b - a, true)]
  }

  lemma Distance(h: Heads, base: nat, top: nat, end: nat, a: nat, b: nat)
    requires Tiles(h, base, top, end) && a in h && (b in h || b == end) && a < b
    ensures (b - a) % 16 == 0 && MINSIZE <= b - a && Next(h, a) <= b && b <= end
  {
    assert Placed(h, base, top, a) && Placed(h, base, top, top);
    if b in h {
      assert Placed(h, base, top, b) && Below(h, a, b);
      NotEnd(h, base, top, end, b);
      Steps16(a, b);
    } else {
      assert a < top ==> Below(h, a, top);
      Steps16(top, h[top].size);
      Steps16(a, end);
    }
  }

  lemma Steps16(a: nat, b: nat)
    requires a % 16 == 0 && b % 16 == 0
    ensures (a + b) % 16 == 0 && (b - a) % 16 == 0
  {
  }

  lemma FuseTiles(h: Heads, base: nat, top: nat, end: nat, a: nat, b: nat)
    requires Tiles(h, base, top, end) && a in h && a < b && (b in h || b == end)
    ensures Tiles(Fuse(h, a, b), base, if b == end then a else top, end)
  {
    var h', t := Fuse(h, a, b), if b == end then a else top;
    Distance(h, base, top, end, a, b);
    assert Placed(h, base, top, a) && Placed(h, base, top, top);
    forall p | p in h' ensures Placed(h', base, t, p) {
      FusePlaced(h, base, top, end, a, b, p);
    }
    forall p, q | p in h' && q in h' && p < q ensures Below(h', p, q) {
      if p != a {
        assert Below(h, p, q);
      }
    }
    if b != end {
      assert Placed(h, base, top, b);
    }
  }

  lemma FusePlaced(h: Heads, base: nat, top: nat, end: nat, a: nat, b: nat, p: nat)
    requires Tiles(h, base, top, end) && a in h && a < b && (b in h || b == end) && p in Fuse(h, a, b)
    ensures Placed(Fuse(h, a, b), base, if b == end then a else top, p)
  {
    Distance(h, base, top, end, a, b);
    assert Placed(h, base, top, a) && Placed(h, base, top, p) && Placed(h, base, top, top);
    assert (p < a ==> Below(h, p, a)) && (p < top ==> Below(h, p, top));
    if b in h {
      assert Placed(h, base, top, b);
    }
  }

  /** Coalescing from `a` up to the chunk at `b` gives one free chunk. */
  lemma Release(h: Heads, foot: Feet, free: set<nat>, base: nat, top: nat, end: nat, a: nat, b: nat)
    requires Arena(h, foot, free, base, top, end) && a in h && h[a].pinuse && b in h && a < b
    requires b != top && b !in free
    ensures Arena(Fuse(h, a, b)[b := Head(h[b].size, false)], foot[b := b - a],
                  (set p | p in free && (p < a || b <= p)) + {a}, base, top, end)
  {
    hide Placed, Below;
    var g := Fuse(h, a, b);
    var h', f', s' := g[b := Head(h[b].size, false)], foot[b := b - a], (set p | p in free && (p < a || b <= p)) + {a};
    NotEnd(h, base, top, end, b);
    FuseTiles(h, base, top, end, a, b);
    SameTiles(g, h', base, top, end);
    InOrder(h, base, top, end, a);
    InOrder(h, base, top, end, b);
    forall p | p in h' ensures TagOk(h', f', s', top, p) {
      if p != a {
        Between(h, base, top, end, a, p);
        Between(h, base, top, end, b, p);
        assert TagOk(h, foot, free, top, p);
        ReleaseTag(h, foot, free, top, a, b, p);
      }
    }
  }

  lemma ReleaseTag(h: Heads, foot: Feet, free: set<nat>, top: nat, a: nat, b: nat, p: nat)
    requires a in h && h[a].pinuse && b in h && a < b < top && b !in free && p in h && TagOk(h, foot, free, top, p)
    requires (p < a && Next(h, p) <= a) || (b <= p && b < Next(h, p))
    ensures TagOk(Fuse(h, a, b)[b := Head(h[b].size, false)], foot[b := b - a],
                  (set x | x in free && (x < a || b <= x)) + {a}, top, p)
  {
  }

  lemma NotEnd(h: Heads, base: nat, top: nat, end: nat, b: nat)
    requires Tiles(h, base, top, end) && b in h
    ensures b < end
  {
    assert Placed(h, base, top, b) && Placed(h, base, top, top);
  }

  lemma InOrder(h: Heads, base: nat, top: nat, end: nat, a: nat)
    requires Tiles(h, base, top, end) && a in h
    ensures base <= a <= top
  {
    assert Placed(h, base, top, a);
  }

  /** No chunk spans the start of another. */
  lemma Between(h: Heads, base: nat, top: nat, end: nat, b: nat, p: nat)
    requires Tiles(h, base, top, end) && b in h && p in h
    ensures if p < b then Next(h, p) <= b else b < Next(h, p)
  {
    assert Placed(h, base, top, p);
    assert p < b ==> Below(h, p, b);
  }

  /** Coalescing from `a` to the end makes it the top. */
  lemma ReleaseTop(h: Heads, foot: Feet, free: set<nat>, base: nat, top: nat, end: nat, a: nat)
    requires Arena(h, foot, free, base, top, end) && a in h && h[a].pinuse
    ensures a <= end && Arena(Fuse(h, a, end), foot, (set p | p in free && p < a), base, a, end)
  {
    hide Placed, Below;
    NotEnd(h, base, top, end, a);
    var h', s' := Fuse(h, a, end), (set p | p in free && p < a);
    InOrder(h, base, top, end, a);
    FuseTiles(h, base, top, end, a, end);
    forall p | p in h' ensures TagOk(h', foot, s', a, p) {
      if p != a {
        NotEnd(h, base, top, end, p);
        Between(h, base, top, end, a, p);
        assert TagOk(h, foot, free, top, p);
      }
    }
  }

  // ---------- the arena as a whole ----------

  lemma GreatestExists(s: set<nat>)
    requires s != {}
    ensures exists m :: m in s && forall x :: x in s ==> x <= m
  {
    var m := Greatest(s);
    assert m in s;
  }

  /** All bytes of all chunks. */
  ghost function Bytes(h: Heads): nat
    decreases |h|
  {
    if h == map[] then 0
    else
      assert h.Keys != {} by { var p :| p in h; }
      GreatestExists(h.Keys);
      var m :| m in h && forall x :: x in h ==> x <= m;
      h[m].size + Bytes(h - {m})
  }

  /** No byte of the arena is lost or counted twice. */
  lemma {:induction false} ArenaBytes(h: Heads, base: nat, top: nat, end: nat)
    requires Tiles(h, base, top, end)
    ensures Bytes(h) == end - base
    decreases |h|
  {
    forall p | p in h ensures base <= p <= top {
      InOrder(h, base, top, end, p);
    }
    var rest := h - {top};
    GreatestExists(h.Keys);
    var m :| m in h && (forall x :: x in h ==> x <= m) && Bytes(h) == h[m].size + Bytes(h - {m});
    assert Placed(h, base, top, m);
    if top == base {
      assert rest.Keys == {};
    } else {
      var q := Predecessor(h, base, top, end, top);
      DropTop(h, base, top, end, q);
      ArenaBytes(rest, base, q, top);
    }
  }

  lemma DropTop(h: Heads, base: nat, top: nat, end: nat, q: nat)
    requires Tiles(h, base, top, end) && q in h && q != top && Next(h, q) == top && top != base
    ensures Tiles(h - {top}, base, q, top)
  {
    var g := h - {top};
    InOrder(h, base, top, end, q);
    forall p | p in g ensures Placed(g, base, q, p) {
      assert Placed(h, base, top, p) && Placed(h, base, top, q);
      Between(h, base, top, end, top, p);
      Between(h, base, top, end, q, p);
      if p != q && Next(h, p) == top {
        SameEnd(h, base, top, end, p, q);
      }
      assert q < p ==> Below(h, q, p);
    }
    forall p, x | p in g && x in g && p < x ensures Below(g, p, x) {
      assert Below(h, p, x);
    }
  }
}
