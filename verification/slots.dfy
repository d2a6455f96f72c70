/** The slot arrays of the open-addressing tables: what makes them consistent, and what they contain. */
module Slots {
  import opened Words
  import opened Probing

  const SLOT_EMPTY: Byte := 0
  const SLOT_DELETED: Byte := 2
  const FIB_HASH_MULT_64: Word := 0x9e37_79b9_7f4a_7c13

  /** A set low bit means that the slot holds a key; the other bits are a fingerprint of its hash. */
  predicate Occupied(b: Byte) {
    b % 2 == 1
  }

  /** FibHash(hash, 8) with the occupied bit set. */
  function Fingerprint(hash: Word): (b: Byte)
    ensures Occupied(b)
  {
    var top := Wrap(hash * FIB_HASH_MULT_64) / 0x100_0000_0000_0000;
    top - top % 2 + 1
  }

  /** The compare and hash functions of a table. */
  datatype Hashing<!T(!new)> = Hashing(eq: (T, T) -> bool, hash: T -> Word) {
    ghost predicate Lawful() {
      && (forall x :: eq(x, x))
      && (forall x, y :: eq(x, y) ==> eq(y, x) && hash(x) == hash(y))
      && (forall x, y, z :: eq(x, y) && eq(y, z) ==> eq(x, z))
    }
  }

  /** No slot tried before `p` is empty, so a search for the hash gets to `p`. */
  ghost predicate Reached(state: seq<Byte>, hash: Word, p: nat, k: nat)
    requires |state| == Pow2(k) && p < Pow2(k)
  {
    forall m: nat :: m < Rank(hash, p, k) ==> state[Slot(hash, m, k)] != SLOT_EMPTY
  }

  ghost predicate SlotOk<T(!new)>(state: seq<Byte>, keys: seq<T>, k: nat, f: Hashing<T>, p: nat)
    requires |state| == |keys| == Pow2(k) && p < Pow2(k)
  {
    Occupied(state[p]) ==> state[p] == Fingerprint(f.hash(keys[p])) && Reached(state, f.hash(keys[p]), p, k)
  }

  ghost predicate Consistent<T(!new)>(state: seq<Byte>, keys: seq<T>, k: nat, f: Hashing<T>) {
    && |state| == |keys| == Pow2(k)
    && (forall p :: 0 <= p < |state| ==> state[p] == SLOT_EMPTY || state[p] == SLOT_DELETED || Occupied(state[p]))
    && (forall p :: 0 <= p < |state| ==> SlotOk(state, keys, k, f, p))
    && (forall p, q :: 0 <= p < |state| && 0 <= q < |state| && p != q && Occupied(state[p]) && Occupied(state[q])
          ==> !f.eq(keys[p], keys[q]))
  }

  /** The keys held. */
  ghost function Items<T>(state: seq<Byte>, keys: seq<T>): set<T>
    requires |state| == |keys|
  {
    set p | 0 <= p < |state| && Occupied(state[p]) :: keys[p]
  }

  ghost predicate Matches<T(!new)>(state: seq<Byte>, keys: seq<T>, f: Hashing<T>, p: nat, item: T)
    requires |state| == |keys| && p < |state|
  {
    state[p] == Fingerprint(f.hash(item)) && f.eq(keys[p], item)
  }

  /** A match lies on the probe sequence of the item, before any empty slot. */
  lemma MatchOnProbe<T(!new)>(state: seq<Byte>, keys: seq<T>, k: nat, f: Hashing<T>, item: T, n: nat, p: nat)
    requires Consistent(state, keys, k, f) && f.Lawful() && n < Pow2(k) && p < |state|
    requires state[Slot(f.hash(item), n, k)] == SLOT_EMPTY
    requires Occupied(state[p]) && f.eq(keys[p], item)
    ensures exists m: nat :: m < n && Matches(state, keys, f, Slot(f.hash(item), m, k), item)
  {
    hide Slot, Fingerprint;
    var h := f.hash(item);
    assert f.hash(keys[p]) == h;
    assert SlotOk(state, keys, k, f, p);
    var r := Rank(h, p, k);
    assert Slot(h, r, k) == p;
    assert Matches(state, keys, f, Slot(h, r, k), item);
  }

  /** A search that met an empty slot has not missed the item: the fingerprint test hides no match. */
  lemma NotThere<T(!new)>(state: seq<Byte>, keys: seq<T>, k: nat, f: Hashing<T>, item: T, n: nat)
    requires Consistent(state, keys, k, f) && f.Lawful() && n < Pow2(k)
    requires state[Slot(f.hash(item), n, k)] == SLOT_EMPTY
    requires forall m: nat :: m < n ==> !Matches(state, keys, f, Slot(f.hash(item), m, k), item)
    ensures forall y :: y in Items(state, keys) ==> !f.eq(y, item)
  {
    hide Slot, Fingerprint, Matches, SlotOk;
    forall p | 0 <= p < |state| && Occupied(state[p]) ensures !f.eq(keys[p], item) {
      if f.eq(keys[p], item) {
        MatchOnProbe(state, keys, k, f, item, n, p);
      }
    }
  }

  lemma Symmetric<T(!new)>(f: Hashing<T>, x: T, y: T)
    requires f.Lawful()
    ensures f.eq(x, y) <==> f.eq(y, x)
  {
  }

  lemma ReachedStill(state: seq<Byte>, state': seq<Byte>, hash: Word, p: nat, k: nat)
    requires |state| == |state'| == Pow2(k) && p < Pow2(k) && Reached(state, hash, p, k)
    requires forall q :: 0 <= q < |state| && state[q] != SLOT_EMPTY ==> state'[q] != SLOT_EMPTY
    ensures Reached(state', hash, p, k)
  {
    hide Slot;
  }

  /** Storing an absent item in the first free slot of its probe sequence. */
  lemma PutConsistent<T(!new)>(state: seq<Byte>, keys: seq<T>, k: nat, f: Hashing<T>, item: T, n: nat, p: nat)
    requires Consistent(state, keys, k, f) && f.Lawful() && n < Pow2(k)
    requires p == Slot(f.hash(item), n, k) && !Occupied(state[p])
    requires forall m: nat :: m < n ==> state[Slot(f.hash(item), m, k)] != SLOT_EMPTY
    requires forall y :: y in Items(state, keys) ==> !f.eq(y, item)
    ensures Consistent(state[p := Fingerprint(f.hash(item))], keys[p := item], k, f)
    ensures Items(state[p := Fingerprint(f.hash(item))], keys[p := item]) == Items(state, keys) + {item}
  {
    hide Slot, Fingerprint;
    var h := f.hash(item);
    var state', keys' := state[p := Fingerprint(h)], keys[p := item];
    RankOfSlot(h, n, k);
    forall q | 0 <= q < |state| && Occupied(state[q]) ensures !f.eq(keys[q], item) && !f.eq(item, keys[q]) {
      assert keys[q] in Items(state, keys);
    }
    forall q | 0 <= q < |state| ensures SlotOk(state', keys', k, f, q) {
      assert SlotOk(state, keys, k, f, q);
      if q == p {
        assert Reached(state', h, p, k);
      } else if Occupied(state[q]) {
        ReachedStill(state, state', f.hash(keys[q]), q, k);
      }
    }
    PutItems(state, keys, p, Fingerprint(h), item);
  }

  lemma PutItems<T>(state: seq<Byte>, keys: seq<T>, p: nat, b: Byte, item: T)
    requires |state| == |keys| && p < |state| && !Occupied(state[p]) && Occupied(b)
    ensures Items(state[p := b], keys[p := item]) == Items(state, keys) + {item}
  {
    var state', keys' := state[p := b], keys[p := item];
    forall y | y in Items(state, keys) + {item} ensures y in Items(state', keys') {
      if y in Items(state, keys) {
        var q :| 0 <= q < |state| && Occupied(state[q]) && keys[q] == y;
        assert Occupied(state'[q]) && keys'[q] == y;
      } else {
        assert Occupied(state'[p]) && keys'[p] == y;
      }
    }
    forall y | y in Items(state', keys') ensures y in Items(state, keys) + {item} {
      var q :| 0 <= q < |state'| && Occupied(state'[q]) && keys'[q] == y;
      if q != p {
        assert Occupied(state[q]) && keys[q] == y;
      }
    }
  }

  /** The items other than those equivalent to `item`. */
  ghost function Without<T(!new)>(s: set<T>, item: T, f: Hashing<T>): set<T> {
    set y | y in s && !f.eq(y, item)
  }

  ghost predicate Has<T(!new)>(s: set<T>, item: T, f: Hashing<T>) {
    exists y :: y in s && f.eq(y, item)
  }

  /** What `add` makes of a set: an equivalent item stays, or gives way when `replace` is set. */
  ghost function Added<T(!new)>(s: set<T>, item: T, replace: bool, f: Hashing<T>): set<T> {
    if Has(s, item, f) && !replace then s else Without(s, item, f) + {item}
  }

  lemma WithoutOne<T(!new)>(state: seq<Byte>, keys: seq<T>, k: nat, f: Hashing<T>, item: T, p: nat)
    requires Consistent(state, keys, k, f) && f.Lawful() && p < |state| && Occupied(state[p]) && f.eq(keys[p], item)
    ensures keys[p] in Items(state, keys) && Has(Items(state, keys), item, f)
    ensures forall q :: 0 <= q < |state| && Occupied(state[q]) ==> (q != p <==> !f.eq(keys[q], item))
  {
    hide Slot, Fingerprint, SlotOk;
    forall q | 0 <= q < |state| && Occupied(state[q]) ensures q != p <==> !f.eq(keys[q], item) {
      Symmetric(f, keys[q], item);
    }
  }

  lemma ReplaceConsistent<T(!new)>(state: seq<Byte>, keys: seq<T>, k: nat, f: Hashing<T>, item: T, p: nat)
    requires Consistent(state, keys, k, f) && f.Lawful() && p < |state| && Occupied(state[p]) && f.eq(keys[p], item)
    ensures Consistent(state, keys[p := item], k, f)
    ensures Items(state, keys[p := item]) == Without(Items(state, keys), item, f) + {item}
  {
    hide Slot, Fingerprint, Reached;
    var keys' := keys[p := item];
    WithoutOne(state, keys, k, f, item, p);
    forall q | 0 <= q < |state| ensures SlotOk(state, keys', k, f, q) {
      assert SlotOk(state, keys, k, f, q);
    }
    forall q, r | 0 <= q < |state| && 0 <= r < |state| && q != r && Occupied(state[q]) && Occupied(state[r])
      ensures !f.eq(keys'[q], keys'[r])
    {
      Symmetric(f, keys'[q], keys'[r]);
    }
    ReplaceItems(state, keys, p, item, f);
  }

  lemma ReplaceItems<T(!new)>(state: seq<Byte>, keys: seq<T>, p: nat, item: T, f: Hashing<T>)
    requires |state| == |keys| && p < |state| && Occupied(state[p])
    requires forall q :: 0 <= q < |state| && Occupied(state[q]) ==> (q != p <==> !f.eq(keys[q], item))
    ensures Items(state, keys[p := item]) == Without(Items(state, keys), item, f) + {item}
  {
    var keys' := keys[p := item];
    forall y | y in Without(Items(state, keys), item, f) + {item} ensures y in Items(state, keys') {
      if y in Without(Items(state, keys), item, f) {
        var q :| 0 <= q < |state| && Occupied(state[q]) && keys[q] == y;
        assert keys'[q] == y;
      } else {
        assert keys'[p] == y;
      }
    }
    forall y | y in Items(state, keys') ensures y in Without(Items(state, keys), item, f) + {item} {
      var q :| 0 <= q < |state| && Occupied(state[q]) && keys'[q] == y;
      assert q != p ==> keys[q] == y;
    }
  }

  /** Deleting leaves a tombstone, which keeps later slots reachable. */
  lemma DeleteConsistent<T(!new)>(state: seq<Byte>, keys: seq<T>, k: nat, f: Hashing<T>, item: T, p: nat, zero: T)
    requires Consistent(state, keys, k, f) && f.Lawful() && p < |state| && Occupied(state[p]) && f.eq(keys[p], item)
    ensures Consistent(state[p := SLOT_DELETED], keys[p := zero], k, f)
    ensures Items(state[p := SLOT_DELETED], keys[p := zero]) == Without(Items(state, keys), item, f)
  {
    hide Slot, Fingerprint, Reached;
    var state', keys' := state[p := SLOT_DELETED], keys[p := zero];
    WithoutOne(state, keys, k, f, item, p);
    forall q | 0 <= q < |state| ensures SlotOk(state', keys', k, f, q) {
      assert SlotOk(state, keys, k, f, q);
      if q != p && Occupied(state[q]) {
        ReachedStill(state, state', f.hash(keys[q]), q, k);
      }
    }
    DeleteItems(state, keys, p, item, zero, f);
  }

  lemma DeleteItems<T(!new)>(state: seq<Byte>, keys: seq<T>, p: nat, item: T, zero: T, f: Hashing<T>)
    requires |state| == |keys| && p < |state| && Occupied(state[p])
    requires forall q :: 0 <= q < |state| && Occupied(state[q]) ==> (q != p <==> !f.eq(keys[q], item))
    ensures Items(state[p := SLOT_DELETED], keys[p := zero]) == Without(Items(state, keys), item, f)
  {
    var state', keys' := state[p := SLOT_DELETED], keys[p := zero];
    forall y | y in Without(Items(state, keys), item, f) ensures y in Items(state', keys') {
      var q :| 0 <= q < |state| && Occupied(state[q]) && keys[q] == y;
      assert Occupied(state'[q]) && keys'[q] == y;
    }
    forall y | y in Items(state', keys') ensures y in Without(Items(state, keys), item, f) {
      var q :| 0 <= q < |state'| && Occupied(state'[q]) && keys'[q] == y;
      assert q != p && keys[q] == y && Occupied(state[q]);
    }
  }

  // ---------- counting slots ----------

  function Live(b: Byte): nat {
    if Occupied(b) then 1 else 0
  }

  function Dead(b: Byte): nat {
    if b == SLOT_DELETED then 1 else 0
  }

  ghost function CountLive(state: seq<Byte>): nat {
    if state == [] then 0 else Live(state[0]) + CountLive(state[1..])
  }

  ghost function CountDead(state: seq<Byte>): nat {
    if state == [] then 0 else Dead(state[0]) + CountDead(state[1..])
  }

  lemma {:induction false} CountUpdate(state: seq<Byte>, p: nat, b: Byte)
    requires p < |state|
    ensures CountLive(state[p := b]) + Live(state[p]) == CountLive(state) + Live(b)
    ensures CountDead(state[p := b]) + Dead(state[p]) == CountDead(state) + Dead(b)
  {
    if p > 0 {
      CountUpdate(state[1..], p - 1, b);
      assert state[p := b][1..] == state[1..][p - 1 := b];
    } else {
      assert state[p := b][1..] == state[1..];
    }
  }

  lemma {:induction false} SomeEmpty(state: seq<Byte>)
    requires forall p :: 0 <= p < |state| ==> state[p] == SLOT_EMPTY || state[p] == SLOT_DELETED || Occupied(state[p])
    requires CountLive(state) + CountDead(state) < |state|
    ensures exists p :: 0 <= p < |state| && state[p] == SLOT_EMPTY
  {
    if state[0] == SLOT_EMPTY {
    } else {
      SomeEmpty(state[1..]);
      var q :| 0 <= q < |state[1..]| && state[1..][q] == SLOT_EMPTY;
      assert state[q + 1] == SLOT_EMPTY;
    }
  }

  lemma {:induction false} AllEmptyCounts(n: nat)
    ensures CountLive(seq(n, i => SLOT_EMPTY)) == 0 && CountDead(seq(n, i => SLOT_EMPTY)) == 0
  {
    if n > 0 {
      AllEmptyCounts(n - 1);
      assert seq(n, i => SLOT_EMPTY)[1..] == seq(n - 1, i => SLOT_EMPTY);
    }
  }

  lemma {:induction false} CountLiveConcat(a: seq<Byte>, b: seq<Byte>)
    ensures CountLive(a + b) == CountLive(a) + CountLive(b)
  {
    if a == [] {
      assert a + b == b;
    } else {
      CountLiveConcat(a[1..], b);
      assert (a + b)[1..] == a[1..] + b;
    }
  }
}
