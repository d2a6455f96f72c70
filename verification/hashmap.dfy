/** The open-addressing map of adlib/map.h: the table of HashSets with a value beside each key. */
module HashMaps {
  import opened Words
  import opened Slots
  import opened HashSets

  /** Only the keys of associations are compared and hashed. */
  function ByKey<K(!new), V(!new)>(g: Hashing<K>): Hashing<(K, V)> {
    Hashing((p: (K, V), q: (K, V)) => g.eq(p.0, q.0), (p: (K, V)) => g.hash(p.0))
  }

  lemma ByKeyLawful<K(!new), V(!new)>(g: Hashing<K>)
    requires g.Lawful()
    ensures ByKey<K, V>(g).Lawful()
  {
    var f := ByKey<K, V>(g);
    forall p: (K, V) ensures f.eq(p, p) {
      assert g.eq(p.0, p.0);
    }
    forall p: (K, V), q: (K, V) ensures f.eq(p, q) ==> f.eq(q, p) && f.hash(p) == f.hash(q) {
      assert f.eq(p, q) == g.eq(p.0, q.0);
    }
    forall p: (K, V), q: (K, V), r: (K, V) ensures f.eq(p, q) && f.eq(q, r) ==> f.eq(p, r) {
      assert f.eq(p, q) == g.eq(p.0, q.0) && f.eq(q, r) == g.eq(q.0, r.0);
    }
  }

  /** The value that goes with a key, of all keys that are equivalent to it. */
  ghost predicate Leads<K(!new), V(!new)>(items: set<(K, V)>, k: K, v: V, g: Hashing<K>) {
    exists p :: p in items && g.eq(p.0, k) && p.1 == v
  }

  ghost predicate HasKey<K(!new), V(!new)>(items: set<(K, V)>, k: K, g: Hashing<K>) {
    exists p :: p in items && g.eq(p.0, k)
  }

  /** No two associations have equivalent keys: a key leads to one value at most. */
  ghost predicate Functional<K(!new), V(!new)>(items: set<(K, V)>, g: Hashing<K>) {
    forall p, q :: p in items && q in items && g.eq(p.0, q.0) ==> p == q
  }

  lemma ItemsFunctional<K(!new), V(!new)>(state: seq<Byte>, keys: seq<(K, V)>, k: nat, g: Hashing<K>)
    requires Consistent(state, keys, k, ByKey<K, V>(g))
    ensures Functional(Slots.Items(state, keys), g)
  {
    hide SlotOk;
    var f := ByKey<K, V>(g);
    forall p, q | p in Slots.Items(state, keys) && q in Slots.Items(state, keys) && g.eq(p.0, q.0) ensures p == q {
      var i :| 0 <= i < |state| && Occupied(state[i]) && keys[i] == p;
      var j :| 0 <= j < |state| && Occupied(state[j]) && keys[j] == q;
      assert f.eq(keys[i], keys[j]);
    }
  }

  lemma Apart<K(!new)>(g: Hashing<K>, k: K, x: K, y: K)
    requires g.Lawful() && g.eq(y, x) && !g.eq(k, x)
    ensures !g.eq(y, k)
  {
    assert g.eq(y, k) ==> g.eq(k, y);
  }

  /** After `add`, equivalent keys lead to the new value if there was none or it is to be replaced; all other keys
      lead where they led. */
  lemma AddedLeads<K(!new), V(!new)>(items: set<(K, V)>, k: K, v: V, replace: bool, g: Hashing<K>, x: K, w: V)
    requires g.Lawful()
    ensures var after := Added(items, (k, v), replace, ByKey(g));
      Leads(after, x, w, g) <==>
        if g.eq(k, x) && (replace || !HasKey(items, k, g)) then w == v else Leads(items, x, w, g)
  {
    var f := ByKey<K, V>(g);
    var after := Added(items, (k, v), replace, f);
    SameKey(items, k, v, g);
    if HasKey(items, k, g) && !replace {
    } else if g.eq(k, x) {
      assert (k, v) in after && f.eq((k, v), (k, v));
      forall p | p in after && g.eq(p.0, x) ensures p == (k, v) {
        assert g.eq(x, k) && g.eq(p.0, k);
      }
    } else {
      forall p: (K, V) | g.eq(p.0, x) ensures p in after <==> p in items {
        Apart(g, k, x, p.0);
      }
    }
  }

  lemma SameKey<K(!new), V(!new)>(items: set<(K, V)>, k: K, v: V, g: Hashing<K>)
    ensures Has(items, (k, v), ByKey<K, V>(g)) <==> HasKey(items, k, g)
  {
    var f := ByKey<K, V>(g);
    assert forall p: (K, V) :: f.eq(p, (k, v)) <==> g.eq(p.0, k);
    if HasKey(items, k, g) {
      var p :| p in items && g.eq(p.0, k);
      assert f.eq(p, (k, v));
    }
  }

  /** After `remove`, equivalent keys lead nowhere, and all other keys lead where they led. */
  lemma WithoutLeads<K(!new), V(!new)>(items: set<(K, V)>, k: K, v: V, g: Hashing<K>, x: K, w: V)
    requires g.Lawful()
    ensures Leads(Without(items, (k, v), ByKey(g)), x, w, g) <==> !g.eq(k, x) && Leads(items, x, w, g)
  {
    var f := ByKey<K, V>(g);
    var after := Without(items, (k, v), f);
    forall p | p in items && g.eq(p.0, x) ensures p in after <==> !g.eq(k, x) {
      assert f.eq(p, (k, v)) <==> g.eq(p.0, k);
      assert g.eq(x, p.0);
    }
  }

  class Map<K(!new), V(!new)> {
    const g: Hashing<K>
    const table: Set<(K, V)>

    ghost predicate Valid()
      reads this, table, table.data, table.state
    {
      g.Lawful() && table.f == ByKey(g) && table.Valid()
    }

    ghost function Pairs(): set<(K, V)>
      reads this, table, table.data, table.state
      requires Valid()
    {
      table.Items()
    }

    constructor (g: Hashing<K>, zeroKey: K, zeroValue: V)
      requires g.Lawful()
      ensures Valid() && this.g == g && fresh(table) && fresh(table.data) && fresh(table.state) && Pairs() == {}
    {
      ByKeyLawful<K, V>(g);
      this.g := g;
      table := new Set<(K, V)>(ByKey(g), (zeroKey, zeroValue));
    }

    /** Each key leads to one value at most. */
    lemma OneValue(k: K, v: V, w: V)
      requires Valid() && Leads(Pairs(), k, v, g) && Leads(Pairs(), k, w, g)
      ensures v == w
    {
      ItemsFunctional(table.state[..], table.data[..], table.bits, g);
      var items := Pairs();
      var p :| p in items && g.eq(p.0, k) && p.1 == v;
      var q :| q in items && g.eq(q.0, k) && q.1 == w;
      assert g.eq(k, q.0);
    }

    method Add(k: K, v: V, replace: bool)
      requires Valid() && table.count < MAX_KEYS
      modifies table, table.data, table.state
      ensures Valid() && (table.data == old(table.data) || fresh(table.data))
        && (table.state == old(table.state) || fresh(table.state))
      ensures forall x, w :: Leads(Pairs(), x, w, g) <==>
        if g.eq(k, x) && (replace || !HasKey(old(Pairs()), k, g)) then w == v else Leads(old(Pairs()), x, w, g)
    {
      hide Added, HasKey, Leads, ByKey;
      ghost var before := Pairs();
      table.Add((k, v), replace);
      forall x, w {
        AddedLeads(before, k, v, replace, g, x, w);
      }
    }

    method Remove(k: K) returns (removed: bool)
      requires Valid() && table.count < MAX_KEYS
      modifies table, table.data, table.state
      ensures Valid() && (table.data == old(table.data) || fresh(table.data))
        && (table.state == old(table.state) || fresh(table.state))
      ensures removed == HasKey(old(Pairs()), k, g)
      ensures forall x, w :: Leads(Pairs(), x, w, g) <==> !g.eq(k, x) && Leads(old(Pairs()), x, w, g)
    {
      hide Without, HasKey, Leads, ByKey, Has;
      ghost var before, v := Pairs(), table.zero.1;
      SameKey(before, k, v, g);
      removed := table.Remove((k, table.zero.1));
      forall x, w {
        WithoutLeads(before, k, v, g, x, w);
      }
    }

    method Find(k: K) returns (value: Option<V>)
      requires Valid()
      ensures value.Some? <==> HasKey(Pairs(), k, g)
      ensures forall v :: Leads(Pairs(), k, v, g) <==> value == Some(v)
    {
      hide Has;
      SameKey(Pairs(), k, table.zero.1, g);
      var pair := table.Find((k, table.zero.1));
      value := None;
      if pair.Some? {
        value := Some(pair.value.1);
        assert Leads(Pairs(), k, pair.value.1, g);
        forall v | Leads(Pairs(), k, v, g) ensures v == pair.value.1 {
          OneValue(k, v, pair.value.1);
        }
      }
    }
  }
}
