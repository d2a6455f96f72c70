/** Object records of the collector, and totals over collections of them. */
module Records {
  import opened Words

  /** struct GC_objlink_s without its link: `flagged` is the size word whose top bit marks an atomic object. */
  datatype Rec = Rec(id: nat, obj: Word, flagged: Word) {
    function Size(): nat {
      flagged % FLAG_BIT
    }

    predicate Atomic() {
      flagged >= FLAG_BIT
    }

    /** Bytes of the object that marking scans. */
    function Followable(): nat {
      if Atomic() then 0 else Size() / 8 * 8
    }
  }

  // ---------- totals ----------

  datatype Totals = Totals(bytes: nat, followable: nat, ids: multiset<nat>)

  ghost function Plus(a: Totals, b: Totals): Totals {
    Totals(a.bytes + b.bytes, a.followable + b.followable, a.ids + b.ids)
  }

  ghost function One(r: Rec): Totals {
    Totals(r.Size(), r.Followable(), multiset{r.id})
  }

  lemma PlusExchange(a: Totals, b: Totals, c: Totals)
    ensures Plus(a, Plus(b, c)) == Plus(b, Plus(a, c))
    ensures Plus(a, Plus(b, c)) == Plus(Plus(a, b), c)
  {
  }

  ghost function Pick(m: multiset<Rec>): (r: Rec)
    requires m != multiset{}
    ensures r in m
  {
    var r :| r in m; r
  }

  ghost function Tally(m: multiset<Rec>): Totals {
    if m == multiset{} then Totals(0, 0, multiset{})
    else Plus(One(Pick(m)), Tally(m - multiset{Pick(m)}))
  }

  lemma {:induction false} TallyRemove(m: multiset<Rec>, r: Rec)
    requires r in m
    ensures Tally(m) == Plus(One(r), Tally(m - multiset{r}))
    decreases |m|
  {
    var q := Pick(m);
    if q != r {
      var rest := m - multiset{q} - multiset{r};
      assert rest == m - multiset{r} - multiset{q};
      TallyRemove(m - multiset{q}, r);
      TallyRemove(m - multiset{r}, q);
      PlusExchange(One(q), One(r), Tally(rest));
    }
  }

  lemma TallyAdd(m: multiset<Rec>, r: Rec)
    ensures Tally(m + multiset{r}) == Plus(One(r), Tally(m))
  {
    TallyRemove(m + multiset{r}, r);
    assert m + multiset{r} - multiset{r} == m;
  }

  lemma {:induction false} TallyUnion(a: multiset<Rec>, b: multiset<Rec>)
    ensures Tally(a + b) == Plus(Tally(a), Tally(b))
    decreases |b|
  {
    hide Tally, Plus, One;
    if b == multiset{} {
      assert a + b == a;
      TallyEmpty(Tally(a));
    } else {
      var r := Pick(b);
      var rest := b - multiset{r};
      TallyRemove(b, r);
      TallyUnion(a, rest);
      TallyAdd(a + rest, r);
      assert a + rest + multiset{r} == a + b;
      PlusExchange(One(r), Tally(a), Tally(rest));
    }
  }

  lemma TallyEmpty(t: Totals)
    ensures Plus(t, Tally(multiset{})) == t
  {
  }

  // ---------- layout of live objects ----------

  ghost predicate WellPlaced(r: Rec) {
    && 0 < r.obj <= WORD - 257 && r.obj % 8 == 0
    && 0 < r.Size() && r.obj + r.Size() < WORD
  }

  ghost predicate Apart(r: Rec, q: Rec) {
    r.obj + r.Size() <= q.obj || q.obj + q.Size() <= r.obj
  }

  /** Live objects are aligned, inside the address space and pairwise disjoint. */
  ghost predicate Layout(m: multiset<Rec>) {
    && (forall r :: r in m ==> WellPlaced(r) && m[r] == 1)
    && (forall r, q :: r in m && q in m && r != q ==> Apart(r, q))
  }
}
