/** The open-addressing set of adlib/set.h. */
module HashSets {
  import opened Words
  import opened Probing
  import opened Slots

  datatype Option<+T> = None | Some(value: T)

  /** nextPow2, with the exponent that the mask of a table of that size stands for. */
  method NextPow2(n: nat) returns (result: nat, bits: nat)
    ensures result == Pow2(bits) && n <= result && (result == 1 || result < 2 * n)
  {
    result, bits := 1, 0;
    while result < n
      invariant result == Pow2(bits) && (result == 1 || result < 2 * n)
      decreases n - result
    {
      result := result * 2;
      bits := bits + 1;
    }
  }

  /** No table in memory has more keys than this. */
  const MAX_KEYS := 0x1000_0000_0000_0000

  class Set<T(!new)> {
    const f: Hashing<T>
    const zero: T
    var count: nat
    var size: nat
    var deleted: nat
    var bits: nat
    var data: array<T>
    var state: array<Byte>

    ghost function Items(): set<T>
      reads this, data, state
      requires data.Length == state.Length
    {
      Slots.Items(state[..], data[..])
    }

    /** The slots are consistent and counted, and one of them is empty. */
    ghost predicate Filled()
      reads this, data, state
    {
      && f.Lawful()
      && (data as object) != (state as object)
      && 3 <= bits <= 62 && 8 <= size == Pow2(bits) == data.Length == state.Length
      && Consistent(state[..], data[..], bits, f)
      && count == CountLive(state[..]) && deleted == CountDead(state[..])
      && count + deleted < size
    }

    /** Between operations tombstones are fewer than keys, and the table is not too large for its keys. */
    ghost predicate Valid()
      reads this, data, state
    {
      && Filled()
      && (deleted == 0 || deleted < count)
      && (size == 8 || size < 4 * (count + deleted))
    }

    constructor (f: Hashing<T>, zero: T)
      requires f.Lawful()
      ensures Valid() && fresh(data) && fresh(state) && Items() == {} && count == 0 && this.f == f && this.zero == zero
    {
      this.f, this.zero := f, zero;
      count, deleted, size, bits := 0, 0, 8, 3;
      data := new T[8](_ => zero);
      state := new Byte[8](_ => SLOT_EMPTY);
      new;
      EmptyTable(state[..], data[..], bits, f);
    }

    /** The probing loop that every operation runs. Without a match it ends at the first empty slot, and
        `free` is the first tombstone on the way, or -1. */
    method Search(item: T) returns (pos: nat, found: bool, free: int, ghost n: nat)
      requires Filled()
      ensures pos < size
      ensures found ==> Occupied(state[pos]) && f.eq(data[pos], item)
      ensures !found ==> state[pos] == SLOT_EMPTY && Candidate(state[..], f.hash(item), pos, bits)
      ensures !found ==> forall y :: y in Items() ==> !f.eq(y, item)
      ensures free >= 0 ==> free < size && state[free] == SLOT_DELETED && Candidate(state[..], f.hash(item), free, bits)
    {
      hide Slot, Steps, Low, Next, Fingerprint;
      var hash := f.hash(item);
      var occ := Fingerprint(hash);
      ghost var s, d := state[..], data[..];
      ghost var e := EmptyRank(s, d, hash, bits, f);
      n, free := 0, -1;
      FirstSlot(hash, bits);
      SlotsFitWords(bits);
      pos := Low(hash, bits);
      while state[pos] != SLOT_EMPTY
        invariant pos == Slot(hash, n, bits) && n <= e
        invariant forall m: nat ::
          m < n ==> s[Slot(hash, m, bits)] != SLOT_EMPTY && !Matches(s, d, f, Slot(hash, m, bits), item)
        invariant free == -1 || (0 <= free < size && s[free] == SLOT_DELETED && Candidate(s, hash, free, bits))
        decreases e - n
      {
        if state[pos] == occ && f.eq(data[pos], item) {
          found := true;
          return;
        }
        if state[pos] == SLOT_DELETED && free < 0 {
          free := pos;
          assert Candidate(s, hash, pos, bits);
        }
        NextSlot(hash, n, bits, pos);
        pos := Low(Next(pos, hash), bits);
        n := n + 1;
      }
      found := false;
      NotThere(s, d, bits, f, item, n);
    }

    /** uncheckedAdd. */
    method UncheckedAdd(item: T, replace: bool)
      requires Filled() && count + deleted + 1 < size
      modifies this`count, this`deleted, data, state
      ensures Filled() && Items() == Added(old(Items()), item, replace, f)
      ensures deleted <= old(deleted) && old(count) <= count && count + deleted >= old(count + deleted)
      ensures count == old(count) + if Has(old(Items()), item, f) then 0 else 1
    {
      hide Consistent, Slots.Items, CountLive, CountDead, Fingerprint, Candidate;
      var pos, found, free, n := Search(item);
      ghost var s, d := state[..], data[..];
      if found {
        FoundHas(s, d, bits, f, item, pos);
        if replace {
          ReplaceConsistent(s, d, bits, f, item, pos);
          data[pos] := item;
          assert data[..] == d[pos := item];
        }
        return;
      }
      if free >= 0 {
        SlotCounts(s, free);
        deleted := deleted - 1;
        pos := free;
      }
      AbsentAdded(s, d, item, replace, f);
      PutCandidate(s, d, bits, f, item, pos);
      CountUpdate(s, pos, Fingerprint(f.hash(item)));
      SlotCounts(s, pos);
      FingerprintCounts(f.hash(item));
      data[pos] := item;
      state[pos] := Fingerprint(f.hash(item));
      count := count + 1;
      assert data[..] == d[pos := item] && state[..] == s[pos := Fingerprint(f.hash(item))];
    }

    /** rebuild: the keys move to fresh arrays sized for them, and the tombstones are gone. */
    method Rebuild()
      requires Filled() && count < MAX_KEYS
      modifies this`count, this`size, this`deleted, this`bits, this`data, this`state
      ensures Valid() && fresh(data) && fresh(state)
      ensures Items() == old(Items()) && count == old(count) && deleted == 0
      ensures 2 * count <= size
    {
      hide Consistent, Slots.Items, CountLive, CountDead, Fingerprint, Live, Added, Has, Hashing.Lawful, Pow2;
      var n, k := NextPow2(count * 2);
      if n < 8 {
        n, k := 8, 3;
        PowThree();
      } else {
        TableBits(count, n, k);
      }
      var keys, marks, length := data, state, size;
      ghost var d, s, k0, total := data[..], state[..], bits, count;
      data := new T[n](_ => zero);
      state := new Byte[n](_ => SLOT_EMPTY);
      count, deleted, size, bits := 0, 0, n, k;
      EmptyTableOf(state[..], data[..], k, f);
      Refill(keys, marks, length, k0);
    }

    /** The loop of rebuild: every occupied slot of the old arrays is added to the new ones. */
    method Refill(keys: array<T>, marks: array<Byte>, length: nat, ghost k0: nat)
      requires Filled() && Items() == {} && count == 0 && deleted == 0
      requires keys != data && marks != state && (keys as object) != (state as object)
        && (marks as object) != (data as object)
      requires length == keys.Length == marks.Length && Consistent(marks[..], keys[..], k0, f)
      requires 2 * CountLive(marks[..]) <= size
      modifies this`count, this`deleted, data, state
      ensures Filled() && deleted == 0 && count == CountLive(marks[..])
      ensures Items() == Slots.Items(marks[..], keys[..])
    {
      hide Consistent, Slots.Items, CountLive, CountDead, Fingerprint, Live, Added, Has, Hashing.Lawful, Pow2;
      ghost var s, d := marks[..], keys[..];
      PrefixStart(s, d);
      var i := 0;
      while i < length
        invariant i <= length == |s| == |d| && keys[..] == d && marks[..] == s
        invariant Filled() && deleted == 0 && count == CountLive(s[..i])
        invariant Items() == Slots.Items(s[..i], d[..i])
      {
        PrefixStep(s, d, i);
        PrefixCount(s, i);
        if Occupied(marks[i]) {
          LiveSlot(s, i);
          DistinctFromPrefix(s, d, k0, f, i);
          UncheckedAdd(keys[i], false);
        } else {
          DeadSlot(s, i);
        }
        i := i + 1;
      }
      assert s[..i] == s && d[..i] == d;
    }

    /** True when the table is too full to take another key. */
    predicate Crowded()
      reads this
    {
      (count + deleted) * 3 / 2 >= size
    }

    method Add(item: T, replace: bool)
      requires Valid() && count < MAX_KEYS
      modifies this, data, state
      ensures Valid() && (data == old(data) || fresh(data)) && (state == old(state) || fresh(state))
      ensures Items() == Added(old(Items()), item, replace, f)
      ensures count <= old(count) + 1
    {
      hide Consistent, Slots.Items, CountLive, CountDead, Added;
      if Crowded() {
        Rebuild();
      }
      UncheckedAdd(item, replace);
    }

    /** get_or_add: unlike add it does not reuse a tombstone. */
    method GetOrAdd(item: T) returns (res: T)
      requires Valid() && count < MAX_KEYS
      modifies this, data, state
      ensures Valid() && (data == old(data) || fresh(data)) && (state == old(state) || fresh(state))
      ensures Items() == Added(old(Items()), item, false, f)
      ensures res in Items() && f.eq(res, item)
      ensures !Has(old(Items()), item, f) ==> res == item
      ensures deleted == if old(Crowded()) then 0 else old(deleted)
    {
      hide Consistent, Slots.Items, CountLive, CountDead, Fingerprint, Candidate;
      if Crowded() {
        Rebuild();
      }
      var pos, found, free, n := Search(item);
      ghost var s, d := state[..], data[..];
      if found {
        FoundHas(s, d, bits, f, item, pos);
        return data[pos];
      }
      AbsentAdded(s, d, item, false, f);
      PutCandidate(s, d, bits, f, item, pos);
      CountUpdate(s, pos, Fingerprint(f.hash(item)));
      SlotCounts(s, pos);
      FingerprintCounts(f.hash(item));
      data[pos] := item;
      state[pos] := Fingerprint(f.hash(item));
      count := count + 1;
      assert data[..] == d[pos := item] && state[..] == s[pos := Fingerprint(f.hash(item))];
      return item;
    }

    method Remove(item: T) returns (removed: bool)
      requires Valid() && count < MAX_KEYS
      modifies this, data, state
      ensures Valid() && (data == old(data) || fresh(data)) && (state == old(state) || fresh(state))
      ensures removed == Has(old(Items()), item, f)
      ensures Items() == Without(old(Items()), item, f) && count <= old(count)
    {
      hide Consistent, Slots.Items, CountLive, CountDead, Candidate;
      var pos, found, free, n := Search(item);
      ghost var s, d := state[..], data[..];
      if !found {
        AbsentWithout(s, d, item, f);
        return false;
      }
      FoundHas(s, d, bits, f, item, pos);
      DeleteConsistent(s, d, bits, f, item, pos, zero);
      CountUpdate(s, pos, SLOT_DELETED);
      SlotCounts(s, pos);
      data[pos] := zero;
      state[pos] := SLOT_DELETED;
      count := count - 1;
      deleted := deleted + 1;
      assert data[..] == d[pos := zero] && state[..] == s[pos := SLOT_DELETED];
      DeletedCounts();
      if (count + deleted) * 3 / 2 > size || deleted >= count {
        Rebuild();
      }
      return true;
    }

    method Find(item: T) returns (res: Option<T>)
      requires Valid()
      ensures res.Some? ==> res.value in Items() && f.eq(res.value, item)
      ensures res.Some? <==> Has(Items(), item, f)
    {
      hide Consistent, CountLive, CountDead, Candidate;
      var pos, found, free, n := Search(item);
      if found {
        FoundHas(state[..], data[..], bits, f, item, pos);
        return Some(data[pos]);
      }
      return None;
    }

    /** Every table is at least an eighth full, or of the smallest size; count() is the number of keys. */
    lemma SpaceBound()
      requires Valid()
      ensures 8 <= size && (size == 8 || size <= 8 * count)
      ensures count == |Items()|
    {
      CountIsSize(state[..], data[..], bits, f, size);
      assert state[..][..size] == state[..] && data[..][..size] == data[..];
    }

    /** diff_in_place: what the other set has is removed. */
    method DiffInPlace(that: Set<T>)
      requires Valid() && that.Valid() && that.f == f && count < MAX_KEYS
      requires that != this && {that.data as object, that.state} !! {data as object, state}
      modifies this, data, state
      ensures Valid() && (data == old(data) || fresh(data)) && (state == old(state) || fresh(state))
      ensures Items() == Minus(old(Items()), that.Items(), f)
    {
      hide Consistent, Slots.Items, CountLive, CountDead, Has, Without;
      ghost var s, d, mine := that.state[..], that.data[..], Items();
      var i, length := 0, that.size;
      DiffStart(mine, s, d, f);
      while i < length
        invariant i <= length == that.size == |s| && that.Valid() && that.state[..] == s && that.data[..] == d
        invariant Valid() && count <= old(count) && f == that.f
        invariant (data == old(data) || fresh(data)) && (state == old(state) || fresh(state))
        invariant {that.data as object, that.state} !! {data as object, state}
        invariant Items() == Minus(mine, Slots.Items(s[..i], d[..i]), f)
      {
        PrefixStep(s, d, i);
        if Occupied(that.state[i]) {
          MinusOne(mine, Slots.Items(s[..i], d[..i]), d[i], f);
          var gone := Remove(that.data[i]);
        }
        i := i + 1;
      }
      assert s[..i] == s && d[..i] == d;
    }

    /** intersect_with: a new set of this set's keys that the other one has. */
    method IntersectWith(that: Set<T>) returns (res: Set<T>)
      requires Valid() && that.Valid() && that.f == f && count < MAX_KEYS
      ensures fresh(res) && fresh(res.data) && fresh(res.state) && res.Valid() && res.f == f
      ensures res.Items() == Keep(Items(), that.Items(), f)
    {
      hide Consistent, Slots.Items, CountLive, CountDead, Has, Without, Added, Keep, Live, Hashing.Lawful;
      ghost var s, d, theirs := state[..], data[..], that.Items();
      res := new Set<T>(f, zero);
      var i := 0;
      KeepStart(theirs, s, d, f);
      while i < size
        invariant i <= size == |s| && Valid() && state[..] == s && data[..] == d
        invariant that.Valid() && that.Items() == theirs
        invariant fresh(res) && fresh(res.data) && fresh(res.state) && res.Valid() && res.f == f
        invariant res.count <= i && res.count <= CountLive(s[..i])
        invariant res.Items() == Keep(Slots.Items(s[..i], d[..i]), theirs, f)
      {
        PrefixStep(s, d, i);
        PrefixCount(s, i);
        if Occupied(state[i]) {
          LiveSlot(s, i);
          var hit := that.Find(data[i]);
          KeepOne(Slots.Items(s[..i], d[..i]), theirs, d[i], f);
          if hit.Some? {
            DistinctFromPrefix(s, d, bits, f, i);
            KeptAbsent(Slots.Items(s[..i], d[..i]), theirs, d[i], f);
            res.Add(data[i], false);
          }
        }
        i := i + 1;
      }
      assert s[..i] == s && d[..i] == d;
    }
  }

  ghost function Minus<T(!new)>(a: set<T>, b: set<T>, f: Hashing<T>): set<T> {
    set y | y in a && !Has(b, y, f)
  }

  ghost function Keep<T(!new)>(a: set<T>, b: set<T>, f: Hashing<T>): set<T> {
    set y | y in a && Has(b, y, f)
  }

  lemma DiffStart<T(!new)>(mine: set<T>, s: seq<Byte>, d: seq<T>, f: Hashing<T>)
    requires |s| == |d|
    ensures Minus(mine, Slots.Items(s[..0], d[..0]), f) == mine
  {
  }

  lemma KeepStart<T(!new)>(theirs: set<T>, s: seq<Byte>, d: seq<T>, f: Hashing<T>)
    requires |s| == |d|
    ensures Keep(Slots.Items(s[..0], d[..0]), theirs, f) == {} && CountLive(s[..0]) == 0
  {
  }

  lemma MinusOne<T(!new)>(mine: set<T>, b: set<T>, x: T, f: Hashing<T>)
    requires f.Lawful()
    ensures Minus(mine, b + {x}, f) == Without(Minus(mine, b, f), x, f)
  {
    forall y ensures Has(b + {x}, y, f) <==> Has(b, y, f) || f.eq(y, x) {
      if f.eq(y, x) {
        assert x in b + {x} && f.eq(x, y);
      }
      if Has(b, y, f) {
        var z :| z in b && f.eq(z, y);
        assert z in b + {x};
      }
    }
  }

  lemma KeepOne<T(!new)>(a: set<T>, theirs: set<T>, x: T, f: Hashing<T>)
    ensures Keep(a + {x}, theirs, f) == if Has(theirs, x, f) then Keep(a, theirs, f) + {x} else Keep(a, theirs, f)
  {
  }

  lemma KeptAbsent<T(!new)>(a: set<T>, theirs: set<T>, x: T, f: Hashing<T>)
    requires !Has(a, x, f)
    ensures !Has(Keep(a, theirs, f), x, f)
    ensures Added(Keep(a, theirs, f), x, false, f) == Keep(a, theirs, f) + {x}
  {
  }

  lemma LiveSlot(s: seq<Byte>, i: nat)
    requires i < |s| && Occupied(s[i])
    ensures Live(s[i]) == 1
  {
  }

  lemma DeadSlot(s: seq<Byte>, i: nat)
    requires i < |s| && !Occupied(s[i])
    ensures Live(s[i]) == 0
  {
  }

  lemma NewToPrefix<T(!new)>(a: set<T>, x: T, f: Hashing<T>)
    requires f.Lawful() && !Has(a, x, f)
    ensures x !in a && |a + {x}| == |a| + 1
  {
    assert f.eq(x, x);
  }

  lemma {:induction false} CountIsSize<T(!new)>(s: seq<Byte>, d: seq<T>, k: nat, f: Hashing<T>, i: nat)
    requires Consistent(s, d, k, f) && f.Lawful() && i <= |s|
    ensures CountLive(s[..i]) == |Slots.Items(s[..i], d[..i])|
  {
    assert |s| == |d|;
    hide Consistent, Slots.Items, CountLive, Has, Added;
    if i == 0 {
      PrefixStart(s, d);
    } else {
      CountIsSize(s, d, k, f, i - 1);
      PrefixStep(s, d, i - 1);
      PrefixCount(s, i - 1);
      if Occupied(s[i - 1]) {
        DistinctFromPrefix(s, d, k, f, i - 1);
        NewToPrefix(Slots.Items(s[..i - 1], d[..i - 1]), d[i - 1], f);
      }
    }
  }

  lemma DeletedCounts()
    ensures Live(SLOT_DELETED) == 0 && Dead(SLOT_DELETED) == 1
  {
  }

  lemma PowThree()
    ensures Pow2(3) == 8
  {
    assert Pow2(3) == 2 * Pow2(2) == 4 * Pow2(1) == 8;
  }

  /** The exponent of a rebuilt table stays in range. */
  lemma TableBits(count: nat, n: nat, k: nat)
    requires n == Pow2(k) && 8 <= n < 4 * count && count < MAX_KEYS
    ensures 3 <= k <= 62
  {
    PowThree();
    Pow2At64();
    assert Pow2(64) == 4 * Pow2(62);
    if k < 3 {
      Pow2Monotone(k, 3);
    }
    if k > 62 {
      Pow2Monotone(62, k);
    }
  }

  lemma EmptyTableOf<T(!new)>(state: seq<Byte>, keys: seq<T>, k: nat, f: Hashing<T>)
    requires |state| == |keys| == Pow2(k) && forall p :: 0 <= p < |state| ==> state[p] == SLOT_EMPTY
    ensures Consistent(state, keys, k, f) && Slots.Items(state, keys) == {}
    ensures CountLive(state) == 0 && CountDead(state) == 0
  {
    AllEmptyCounts(|state|);
    assert state == seq(|state|, i => SLOT_EMPTY);
  }

  lemma PrefixStart<T>(s: seq<Byte>, d: seq<T>)
    requires |s| == |d|
    ensures Slots.Items(s[..0], d[..0]) == {} && CountLive(s[..0]) == 0
  {
  }

  lemma PrefixStep<T>(s: seq<Byte>, d: seq<T>, i: nat)
    requires |s| == |d| && i < |s|
    ensures Slots.Items(s[..i + 1], d[..i + 1])
      == if Occupied(s[i]) then Slots.Items(s[..i], d[..i]) + {d[i]} else Slots.Items(s[..i], d[..i])
  {
    var a, b := s[..i], d[..i];
    var a', b' := s[..i + 1], d[..i + 1];
    forall y | y in Slots.Items(a, b) + (if Occupied(s[i]) then {d[i]} else {}) ensures y in Slots.Items(a', b') {
      if y in Slots.Items(a, b) {
        var p :| 0 <= p < |a| && Occupied(a[p]) && b[p] == y;
        assert Occupied(a'[p]) && b'[p] == y;
      } else {
        assert Occupied(a'[i]) && b'[i] == y;
      }
    }
    forall y | y in Slots.Items(a', b') ensures y in Slots.Items(a, b) + (if Occupied(s[i]) then {d[i]} else {}) {
      var p :| 0 <= p < |a'| && Occupied(a'[p]) && b'[p] == y;
      if p < i {
        assert Occupied(a[p]) && b[p] == y;
      }
    }
  }

  lemma PrefixCount(s: seq<Byte>, i: nat)
    requires i < |s|
    ensures CountLive(s[..i + 1]) == CountLive(s[..i]) + Live(s[i])
    ensures CountLive(s[..i + 1]) <= CountLive(s)
  {
    assert s[..i + 1] == s[..i] + [s[i]];
    CountLiveConcat(s[..i], [s[i]]);
    assert CountLive([s[i]]) == Live(s[i]);
    assert s == s[..i + 1] + s[i + 1..];
    CountLiveConcat(s[..i + 1], s[i + 1..]);
  }

  lemma DistinctFromPrefix<T(!new)>(s: seq<Byte>, d: seq<T>, k: nat, f: Hashing<T>, i: nat)
    requires Consistent(s, d, k, f) && i < |s| && Occupied(s[i])
    ensures !Has(Slots.Items(s[..i], d[..i]), d[i], f)
    ensures Added(Slots.Items(s[..i], d[..i]), d[i], false, f) == Slots.Items(s[..i], d[..i]) + {d[i]}
  {
    hide SlotOk;
    forall y | y in Slots.Items(s[..i], d[..i]) ensures !f.eq(y, d[i]) {
      var p :| 0 <= p < i && Occupied(s[..i][p]) && d[..i][p] == y;
      assert Occupied(s[p]) && d[p] == y;
    }
  }

  lemma AbsentWithout<T(!new)>(state: seq<Byte>, keys: seq<T>, item: T, f: Hashing<T>)
    requires |state| == |keys| && forall y :: y in Slots.Items(state, keys) ==> !f.eq(y, item)
    ensures !Has(Slots.Items(state, keys), item, f)
    ensures Without(Slots.Items(state, keys), item, f) == Slots.Items(state, keys)
  {
  }


  // ---------- facts about searches ----------

  /** A slot where an absent key of this hash may go: nothing before it on the probe sequence is empty. */
  ghost predicate Candidate(state: seq<Byte>, hash: Word, p: nat, k: nat)
    requires |state| == Pow2(k)
  {
    exists n: nat :: n < Pow2(k) && Slot(hash, n, k) == p
      && forall m: nat :: m < n ==> state[Slot(hash, m, k)] != SLOT_EMPTY
  }

  lemma SlotsFitWords(k: nat)
    requires k <= 62
    ensures Pow2(k) < WORD
  {
    Pow2Monotone(k, 64);
    Pow2At64();
  }

  lemma FirstSlot(hash: Word, k: nat)
    ensures Slot(hash, 0, k) == Low(hash, k)
  {
  }

  lemma EmptyTable<T(!new)>(state: seq<Byte>, keys: seq<T>, k: nat, f: Hashing<T>)
    requires k == 3 && |state| == |keys| == 8 && forall p :: 0 <= p < |state| ==> state[p] == SLOT_EMPTY
    ensures Pow2(k) == 8 && Consistent(state, keys, k, f) && Slots.Items(state, keys) == {}
    ensures CountLive(state) == 0 && CountDead(state) == 0
  {
    assert Pow2(3) == 2 * Pow2(2) == 4 * Pow2(1) == 8;
    AllEmptyCounts(8);
    assert state == seq(8, i => SLOT_EMPTY);
  }

  /** The round in which a search for the hash meets an empty slot at the latest. */
  lemma EmptyRank<T(!new)>(state: seq<Byte>, keys: seq<T>, hash: Word, k: nat, f: Hashing<T>) returns (e: nat)
    requires Consistent(state, keys, k, f) && CountLive(state) + CountDead(state) < |state|
    ensures e < Pow2(k) && state[Slot(hash, e, k)] == SLOT_EMPTY
  {
    hide Slot;
    SomeEmpty(state);
    var p :| 0 <= p < |state| && state[p] == SLOT_EMPTY;
    e := Rank(hash, p, k);
  }

  lemma FoundHas<T(!new)>(state: seq<Byte>, keys: seq<T>, k: nat, f: Hashing<T>, item: T, p: nat)
    requires Consistent(state, keys, k, f) && p < |state| && Occupied(state[p]) && f.eq(keys[p], item)
    ensures keys[p] in Slots.Items(state, keys) && Has(Slots.Items(state, keys), item, f)
  {
    assert keys[p] in Slots.Items(state, keys);
  }

  lemma AbsentAdded<T(!new)>(state: seq<Byte>, keys: seq<T>, item: T, replace: bool, f: Hashing<T>)
    requires |state| == |keys| && forall y :: y in Slots.Items(state, keys) ==> !f.eq(y, item)
    ensures !Has(Slots.Items(state, keys), item, f)
    ensures Added(Slots.Items(state, keys), item, replace, f) == Slots.Items(state, keys) + {item}
  {
  }

  lemma PutCandidate<T(!new)>(state: seq<Byte>, keys: seq<T>, k: nat, f: Hashing<T>, item: T, p: nat)
    requires Consistent(state, keys, k, f) && f.Lawful() && p < |state| && !Occupied(state[p])
    requires Candidate(state, f.hash(item), p, k)
    requires forall y :: y in Slots.Items(state, keys) ==> !f.eq(y, item)
    ensures Consistent(state[p := Fingerprint(f.hash(item))], keys[p := item], k, f)
    ensures Slots.Items(state[p := Fingerprint(f.hash(item))], keys[p := item]) == Slots.Items(state, keys) + {item}
  {
    hide Slot, Fingerprint;
    var n: nat :| n < Pow2(k) && Slot(f.hash(item), n, k) == p
      && forall m: nat :: m < n ==> state[Slot(f.hash(item), m, k)] != SLOT_EMPTY;
    PutConsistent(state, keys, k, f, item, n, p);
  }

  lemma SlotCounts(state: seq<Byte>, p: nat)
    requires p < |state|
    ensures Live(state[p]) <= CountLive(state) && Dead(state[p]) <= CountDead(state)
    ensures state[p] == SLOT_EMPTY ==> Live(state[p]) == 0 && Dead(state[p]) == 0
    ensures state[p] == SLOT_DELETED ==> Live(state[p]) == 0 && Dead(state[p]) == 1
    ensures Occupied(state[p]) ==> Live(state[p]) == 1 && Dead(state[p]) == 0
  {
    CountUpdate(state, p, SLOT_EMPTY);
  }

  lemma FingerprintCounts(hash: Word)
    ensures Live(Fingerprint(hash)) == 1 && Dead(Fingerprint(hash)) == 0
  {
    hide Fingerprint;
  }
}
