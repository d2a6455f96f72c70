/** Bit sets packed into 32-bit words (adlib/bitset.h, adlib/bitset.cc). */
module BitSets {

  // ---------- single words ----------

  /** bit(n): the mask of one bit of a word. */
  function Bit(k: nat): bv32
    requires k < 32
  {
    Mask(k as bv5)
  }

  function Mask(s: bv5): bv32 {
    1 << s
  }

  predicate TestBit(w: bv32, k: nat)
    requires k < 32
  {
    Meets(w, Bit(k))
  }

  predicate Meets(w: bv32, m: bv32) {
    w & m != 0
  }

  lemma OrMeets(a: bv32, b: bv32, m: bv32)
    ensures Meets(a | b, m) <==> Meets(a, m) || Meets(b, m)
  {
    assert (a | b) & m == (a & m) | (b & m);
  }

  lemma ClearMeets(w: bv32, m: bv32, n: bv32)
    requires !Meets(m, n)
    ensures Meets(w & !m, n) <==> Meets(w, n)
  {
    assert w & !m & n == w & n;
  }

  lemma ClearedMeets(w: bv32, m: bv32)
    ensures !Meets(w & !m, m)
  {
  }

  lemma MasksMeet(s: bv5, t: bv5)
    ensures Meets(Mask(s), Mask(t)) <==> s == t
  {
  }

  lemma Positions(j: nat, k: nat)
    requires j < 32 && k < 32
    ensures (j as bv5 == k as bv5) <==> (j == k)
  {
    assert j as bv5 as nat == j && k as bv5 as nat == k;
  }

  lemma BitsMeet(j: nat, k: nat)
    requires j < 32 && k < 32
    ensures Meets(Bit(j), Bit(k)) <==> j == k
  {
    hide Mask, Meets;
    Positions(j, k);
    MasksMeet(j as bv5, k as bv5);
  }

  lemma OrBits(a: bv32, b: bv32, k: nat)
    requires k < 32
    ensures TestBit(a | b, k) <==> TestBit(a, k) || TestBit(b, k)
  {
    hide Bit, Meets;
    OrMeets(a, b, Bit(k));
  }

  lemma BitOfBit(j: nat, k: nat)
    requires j < 32 && k < 32
    ensures TestBit(Bit(j), k) <==> j == k
  {
    hide Bit, Meets;
    BitsMeet(j, k);
  }

  lemma SetBit(w: bv32, j: nat, k: nat)
    requires j < 32 && k < 32
    ensures TestBit(w | Bit(j), k) <==> TestBit(w, k) || j == k
  {
    hide Bit, TestBit;
    OrBits(w, Bit(j), k);
    BitOfBit(j, k);
  }

  lemma ClearBit(w: bv32, j: nat, k: nat)
    requires j < 32 && k < 32
    ensures TestBit(w & !Bit(j), k) <==> TestBit(w, k) && j != k
  {
    hide Bit, Meets;
    BitsMeet(j, k);
    if j == k {
      ClearedMeets(w, Bit(j));
    } else {
      ClearMeets(w, Bit(j), Bit(k));
    }
  }

  lemma ZeroBits(k: nat)
    requires k < 32
    ensures !TestBit(0, k)
  {
    hide Bit;
  }

  lemma NotMeets(w: bv32, s: bv5)
    ensures Meets(!w, Mask(s)) <==> !Meets(w, Mask(s))
  {
  }

  lemma AndMeets(a: bv32, b: bv32, s: bv5)
    ensures Meets(a & b, Mask(s)) <==> Meets(a, Mask(s)) && Meets(b, Mask(s))
  {
  }

  lemma LowMeets(s: bv5, t: bv5)
    ensures Meets(Mask(s) - 1, Mask(t)) <==> Less(t, s)
  {
  }

  lemma BitOrder(j: nat, k: nat)
    requires j < 32 && k < 32
    ensures Less(j as bv5, k as bv5) <==> j < k
  {
    assert j as bv5 as nat == j && k as bv5 as nat == k;
  }

  lemma NotBit(w: bv32, k: nat)
    requires k < 32
    ensures TestBit(!w, k) <==> !TestBit(w, k)
  {
    hide Mask, Meets;
    NotMeets(w, k as bv5);
  }

  /** (1 << n) - 1 */
  function LowMask(n: nat): bv32
    requires n < 32
  {
    Bit(n) - 1
  }

  lemma AndBit(a: bv32, b: bv32, k: nat)
    requires k < 32
    ensures TestBit(a & b, k) <==> TestBit(a, k) && TestBit(b, k)
  {
    hide Mask, Meets;
    AndMeets(a, b, k as bv5);
  }

  predicate Less(s: bv5, t: bv5) {
    s < t
  }

  lemma LowBit(n: nat, k: nat)
    requires n < 32 && k < 32
    ensures TestBit(LowMask(n), k) <==> k < n
  {
    hide Mask, Meets, Less, LowMask;
    LowMaskIs(n);
    LowMeets(n as bv5, k as bv5);
    BitOrder(k, n);
  }

  lemma LowMaskIs(n: nat)
    requires n < 32
    ensures LowMask(n) == Mask(n as bv5) - 1
  {
    hide Mask;
  }

  /** The mask of the lowest n bits keeps just those. */
  lemma KeepLow(w: bv32, n: nat, k: nat)
    requires n < 32 && k < 32
    ensures TestBit(w & LowMask(n), k) <==> TestBit(w, k) && k < n
  {
    hide LowMask, TestBit;
    AndBit(w, LowMask(n), k);
    LowBit(n, k);
  }

  // ---------- counting bits ----------

  /** How many of the lowest k bits are set. */
  function Ones(w: bv32, k: nat): nat
    requires k <= 32
  {
    if k == 0 then 0 else Ones(w, k - 1) + (if TestBit(w, k - 1) then 1 else 0)
  }

  /** The number of set bits in each byte, side by side. */
  function ByteCounts(word: bv32): bv32 {
    var pairs := word - ((word >> 1) & 0x5555_5555);
    var nibbles := (pairs & 0x3333_3333) + ((pairs >> 2) & 0x3333_3333);
    (nibbles + (nibbles >> 4)) & 0x0F0F_0F0F
  }

  /** bitcount */
  function BitCount(word: bv32): bv32 {
    (ByteCounts(word) * 0x0101_0101) >> 24
  }

  function Pop8(w: bv32): bv32 {
    (w & 1) + ((w >> 1) & 1) + ((w >> 2) & 1) + ((w >> 3) & 1) + ((w >> 4) & 1) + ((w >> 5) & 1) + ((w >> 6) & 1)
      + ((w >> 7) & 1)
  }

  lemma Byte0(w: bv32)
    ensures ByteCounts(w) & 0xff == Pop8(Shift(w, 0))
  {
  }

  lemma Byte1(w: bv32)
    ensures (ByteCounts(w) >> 8) & 0xff == Pop8(Shift(w, 8))
  {
  }

  lemma Byte2(w: bv32)
    ensures (ByteCounts(w) >> 16) & 0xff == Pop8(Shift(w, 16))
  {
  }

  lemma Byte3(w: bv32)
    ensures (ByteCounts(w) >> 24) & 0xff == Pop8(Shift(w, 24))
  {
  }

  lemma SmallBytes(w: bv32)
    ensures ByteCounts(w) & 0xF0F0_F0F0 == 0
  {
  }

  /** The multiplication adds up the four bytes in the top one. */
  lemma AddBytes(x: bv32)
    requires x & 0xF0F0_F0F0 == 0
    ensures (x * 0x0101_0101) >> 24 == Plus(Plus(Plus(x & 0xff, (x >> 8) & 0xff), (x >> 16) & 0xff), (x >> 24) & 0xff)
  {
  }

  lemma BitCountBytes(w: bv32)
    ensures BitCount(w)
      == Plus(Plus(Plus(Pop8(Shift(w, 0)), Pop8(Shift(w, 8))), Pop8(Shift(w, 16))), Pop8(Shift(w, 24)))
  {
    Byte0(w);
    Byte1(w);
    Byte2(w);
    Byte3(w);
    SmallBytes(w);
    hide Pop8, ByteCounts, Plus, Shift;
    AddBytes(ByteCounts(w));
  }

  /** Bit number s, as a word. */
  function BitAt(w: bv32, s: bv5): bv32 {
    (w >> s) & 1
  }

  function Plus(a: bv32, b: bv32): bv32 {
    a + b
  }

  function Value(a: bv32): nat {
    a as nat
  }

  predicate Few(a: bv32) {
    a <= 24
  }

  lemma ValuePlus(a: bv32, b: bv32)
    requires Few(a) && Few(b)
    ensures Value(Plus(a, b)) == Value(a) + Value(b)
  {
  }

  lemma ValueBit(w: bv32, k: nat, s: bv5)
    requires k < 32 && k == s as nat
    ensures Value(BitAt(w, s)) == if TestBit(w, k) then 1 else 0
  {
    assert k as bv5 == s;
    MeetsAt(w, s);
    hide BitAt, Meets, Mask;
  }

  lemma MeetsAt(w: bv32, s: bv5)
    ensures BitAt(w, s) == if Meets(w, Mask(s)) then 1 else 0
  {
  }

  lemma BitShifted(w: bv32, s: bv5, i: bv5)
    requires s <= 24 && i <= 7
    ensures BitAt(Shift(w, s), i) == BitAt(w, s + i)
  {
  }

  lemma FewBits(w: bv32, s: bv5)
    ensures Few(BitAt(w, s))
  {
  }

  /** Eight bits added up one after the other. */
  lemma Pop8Steps(w: bv32)
    ensures var s1 := Plus(BitAt(w, 0), BitAt(w, 1));
      var s2 := Plus(s1, BitAt(w, 2));
      var s3 := Plus(s2, BitAt(w, 3));
      var s4 := Plus(s3, BitAt(w, 4));
      var s5 := Plus(s4, BitAt(w, 5));
      var s6 := Plus(s5, BitAt(w, 6));
      && Few(s1) && Few(s2) && Few(s3) && Few(s4) && Few(s5) && Few(s6)
      && Pop8(w) == Plus(s6, BitAt(w, 7))
  {
  }

  lemma Pop8Value(w: bv32)
    ensures Value(Pop8(w)) == Value(BitAt(w, 0)) + Value(BitAt(w, 1)) + Value(BitAt(w, 2)) + Value(BitAt(w, 3))
      + Value(BitAt(w, 4)) + Value(BitAt(w, 5)) + Value(BitAt(w, 6)) + Value(BitAt(w, 7))
  {
    Pop8Steps(w);
    forall s: bv5 ensures Few(BitAt(w, s)) {
      FewBits(w, s);
    }
    hide Few, Plus, BitAt, Pop8, Value;
    var s1 := Plus(BitAt(w, 0), BitAt(w, 1));
    var s2 := Plus(s1, BitAt(w, 2));
    var s3 := Plus(s2, BitAt(w, 3));
    var s4 := Plus(s3, BitAt(w, 4));
    var s5 := Plus(s4, BitAt(w, 5));
    var s6 := Plus(s5, BitAt(w, 6));
    ValuePlus(BitAt(w, 0), BitAt(w, 1));
    ValuePlus(s1, BitAt(w, 2));
    ValuePlus(s2, BitAt(w, 3));
    ValuePlus(s3, BitAt(w, 4));
    ValuePlus(s4, BitAt(w, 5));
    ValuePlus(s5, BitAt(w, 6));
    ValuePlus(s6, BitAt(w, 7));
  }

  function Shift(w: bv32, s: bv5): bv32 {
    w >> s
  }

  /** The set bits of the byte that starts at bit k. */
  lemma ByteOnes(w: bv32, k: nat, s: bv5)
    requires k == s as nat && s <= 24
    ensures k <= 24 && Ones(w, k + 8) == Ones(w, k) + Value(Pop8(Shift(w, s)))
  {
    SmallShift(k, s);
    hide BitAt, Value, Shift, Pop8, Ones, TestBit;
    Pop8Value(Shift(w, s));
    HalfByte(w, k, s, 0, 0, 1, 2, 3);
    HalfByte(w, k, s, 4, 4, 5, 6, 7);
  }

  lemma HalfByte(w: bv32, k: nat, s: bv5, i: nat, j0: bv5, j1: bv5, j2: bv5, j3: bv5)
    requires k == s as nat && s <= 24 && k <= 24 && i <= 4
    requires i == j0 as nat && i + 1 == j1 as nat && i + 2 == j2 as nat && i + 3 == j3 as nat
    requires j0 <= 7 && j1 <= 7 && j2 <= 7 && j3 <= 7
    ensures Ones(w, k + i + 4) == Ones(w, k + i) + Value(BitAt(Shift(w, s), j0)) + Value(BitAt(Shift(w, s), j1))
      + Value(BitAt(Shift(w, s), j2)) + Value(BitAt(Shift(w, s), j3))
  {
    hide BitAt, Value, Shift, Ones, TestBit;
    OneOfByte(w, k, s, i, j0);
    OneOfByte(w, k, s, i + 1, j1);
    OneOfByte(w, k, s, i + 2, j2);
    OneOfByte(w, k, s, i + 3, j3);
  }

  lemma SmallShift(k: nat, s: bv5)
    requires k == s as nat && s <= 24
    ensures k <= 24
  {
  }

  lemma OneOfByte(w: bv32, k: nat, s: bv5, i: nat, j: bv5)
    requires k == s as nat && s <= 24 && i == j as nat && j <= 7
    ensures k + i + 1 <= 32 && Ones(w, k + i + 1) == Ones(w, k + i) + Value(BitAt(Shift(w, s), j))
  {
    Places(s, j);
    BitShifted(w, s, j);
    hide BitAt, Value, TestBit;
    ValueBit(w, k + i, s + j);
  }

  lemma Places(s: bv5, j: bv5)
    requires s <= 24 && j <= 7
    ensures (s + j) as nat == s as nat + j as nat < 32
  {
  }

  /** bitcount counts the set bits. */
  lemma BitCountIsOnes(w: bv32)
    ensures Value(BitCount(w)) == Ones(w, 32)
  {
    BitCountBytes(w);
    ByteOnes(w, 0, 0);
    ByteOnes(w, 8, 8);
    ByteOnes(w, 16, 16);
    ByteOnes(w, 24, 24);
    hide Few, Plus, Pop8, Value, BitCount, Shift, UpTo8;
    var p0, p1, p2, p3 := Pop8(Shift(w, 0)), Pop8(Shift(w, 8)), Pop8(Shift(w, 16)), Pop8(Shift(w, 24));
    Pop8UpTo8(Shift(w, 0));
    Pop8UpTo8(Shift(w, 8));
    Pop8UpTo8(Shift(w, 16));
    Pop8UpTo8(Shift(w, 24));
    FewSums(p0, p1, p2, p3);
    ValuePlus(p0, p1);
    ValuePlus(Plus(p0, p1), p2);
    ValuePlus(Plus(Plus(p0, p1), p2), p3);
  }

  predicate UpTo8(a: bv32) {
    a <= 8
  }

  lemma Pop8UpTo8(w: bv32)
    ensures UpTo8(Pop8(w))
  {
  }

  lemma FewSums(p0: bv32, p1: bv32, p2: bv32, p3: bv32)
    requires UpTo8(p0) && UpTo8(p1) && UpTo8(p2) && UpTo8(p3)
    ensures Few(p0) && Few(p1) && Few(p2) && Few(p3) && Few(Plus(p0, p1)) && Few(Plus(Plus(p0, p1), p2))
  {
  }

  // ---------- packed rows ----------

  type Row = seq<bv32>

  predicate TestRow(r: Row, i: nat)
    requires i < 32 * |r|
  {
    TestBit(r[i / 32], i % 32)
  }

  /** Enough words for n bits, and no bit set past the last one. */
  ghost predicate Packed(r: Row, n: nat) {
    |r| == (n + 31) / 32 && forall i :: n <= i < 32 * |r| ==> !TestRow(r, i)
  }

  /** The set a packed row stands for. */
  ghost function Members(r: Row, n: nat): set<nat>
    requires n <= 32 * |r|
  {
    set i: nat | i < n && TestRow(r, i)
  }

  lemma PackedWords(n: nat)
    ensures n <= 32 * ((n + 31) / 32) < n + 32
  {
  }

  lemma SetRow(r: Row, n: nat, j: nat)
    requires Packed(r, n) && j < n
    ensures j / 32 < |r| && Packed(r[j / 32 := r[j / 32] | Bit(j % 32)], n)
    ensures Members(r[j / 32 := r[j / 32] | Bit(j % 32)], n) == Members(r, n) + {j}
  {
    hide TestBit, Bit;
    PackedWords(n);
    var r' := r[j / 32 := r[j / 32] | Bit(j % 32)];
    forall i: nat | i < 32 * |r| ensures TestRow(r', i) <==> TestRow(r, i) || i == j {
      SetBit(r[j / 32], j % 32, i % 32);
    }
  }

  lemma ClearRow(r: Row, n: nat, j: nat)
    requires Packed(r, n) && j < n
    ensures j / 32 < |r| && Packed(r[j / 32 := r[j / 32] & !Bit(j % 32)], n)
    ensures Members(r[j / 32 := r[j / 32] & !Bit(j % 32)], n) == Members(r, n) - {j}
  {
    hide TestBit, Bit;
    PackedWords(n);
    var r' := r[j / 32 := r[j / 32] & !Bit(j % 32)];
    forall i: nat | i < 32 * |r| ensures TestRow(r', i) <==> TestRow(r, i) && i != j {
      ClearBit(r[j / 32], j % 32, i % 32);
    }
  }

  /** Or-ing all words of two rows is set union. */
  lemma OrRows(a: Row, b: Row, c: Row, n: nat)
    requires Packed(a, n) && Packed(b, n) && |c| == |a|
    requires forall w :: 0 <= w < |a| ==> c[w] == a[w] | b[w]
    ensures Packed(c, n) && Members(c, n) == Members(a, n) + Members(b, n)
  {
    hide TestBit, Bit;
    PackedWords(n);
    forall i: nat | i < 32 * |a| ensures TestRow(c, i) <==> TestRow(a, i) || TestRow(b, i) {
      OrBits(a[i / 32], b[i / 32], i % 32);
    }
  }

  /** How many of the first i bits of the row are set. */
  ghost function FirstBits(r: Row, i: nat): set<nat>
    requires i <= 32 * |r|
  {
    set j: nat | j < i && TestRow(r, j)
  }

  lemma BitOfWord(r: Row, w: nat, k: nat)
    requires w < |r| && k < 32
    ensures TestRow(r, 32 * w + k) == TestBit(r[w], k)
  {
    hide TestBit;
    assert (32 * w + k) / 32 == w && (32 * w + k) % 32 == k;
  }

  lemma OneMoreBit(r: Row, i: nat)
    requires i < 32 * |r|
    ensures |FirstBits(r, i + 1)| == |FirstBits(r, i)| + (if TestRow(r, i) then 1 else 0)
  {
    hide TestRow;
    assert FirstBits(r, i + 1) == if TestRow(r, i) then FirstBits(r, i) + {i} else FirstBits(r, i);
  }

  lemma {:induction false} WordCount(r: Row, w: nat, k: nat)
    requires w < |r| && k <= 32
    ensures |FirstBits(r, 32 * w + k)| == |FirstBits(r, 32 * w)| + Ones(r[w], k)
    decreases k
  {
    if k > 0 {
      hide TestBit, TestRow, FirstBits;
      WordCount(r, w, k - 1);
      BitOfWord(r, w, k - 1);
      OneMoreBit(r, 32 * w + k - 1);
    }
  }

  lemma RowCount(r: Row, n: nat)
    requires Packed(r, n)
    ensures n <= 32 * |r| && FirstBits(r, 32 * |r|) == Members(r, n)
  {
    PackedWords(n);
    hide TestRow;
  }

  /** Where the row ends inside its last word. */
  lemma TailOf(n: nat, words: nat, i: nat)
    requires words == (n + 31) / 32 && i < 32 * words
    ensures i / 32 < words - 1 ==> i < n
    ensures i / 32 == words - 1 ==> (i < n <==> n % 32 == 0 || i % 32 < n % 32)
  {
  }

  function Flipped(w: bv32): bv32 {
    !w
  }

  function LowPart(w: bv32, n: nat): bv32
    requires n < 32
  {
    w & LowMask(n)
  }

  lemma FlippedBit(w: bv32, k: nat)
    requires k < 32
    ensures TestBit(Flipped(w), k) <==> !TestBit(w, k)
  {
    hide TestBit;
    NotBit(w, k);
  }

  lemma LowPartBit(w: bv32, n: nat, k: nat)
    requires n < 32 && k < 32
    ensures TestBit(LowPart(w, n), k) <==> TestBit(w, k) && k < n
  {
    hide TestBit, LowMask;
    KeepLow(w, n, k);
  }

  /** Every word flipped, and the last one cut off at the end of the row. */
  ghost predicate AllFlipped(r: Row, c: Row, n: nat) {
    && |c| == |r| && (forall w :: 0 <= w < |r| - 1 ==> c[w] == Flipped(r[w]))
    && (r != [] ==> c[|r| - 1] == if n % 32 != 0 then LowPart(Flipped(r[|r| - 1]), n % 32) else Flipped(r[|r| - 1]))
  }

  lemma ComplementBit(r: Row, c: Row, n: nat, i: nat)
    requires |r| == (n + 31) / 32 && i < 32 * |r| && AllFlipped(r, c, n)
    ensures TestRow(c, i) <==> i < n && !TestRow(r, i)
  {
    hide TestBit, LowPart, Flipped;
    TailOf(n, |r|, i);
    FlippedBit(r[i / 32], i % 32);
    if i / 32 == |r| - 1 && n % 32 != 0 {
      LowPartBit(Flipped(r[i / 32]), n % 32, i % 32);
    }
  }

  /** Flipping all words and clearing the tail of the last one gives the complement. */
  lemma ComplementRow(r: Row, c: Row, n: nat)
    requires Packed(r, n) && AllFlipped(r, c, n)
    ensures Packed(c, n) && n <= 32 * |r| && forall i: nat :: i in Members(c, n) <==> i < n && i !in Members(r, n)
  {
    PackedWords(n);
    assert |c| == |r|;
    hide AllFlipped;
    forall i: nat | i < 32 * |r| ensures TestRow(c, i) <==> i < n && !TestRow(r, i) {
      ComplementBit(r, c, n, i);
    }
    hide TestRow;
  }

  class BitSet {
    var bits: nat
    var data: array<bv32>

    ghost predicate Valid()
      reads this, data
    {
      Packed(data[..], bits)
    }

    ghost function Elems(): set<nat>
      reads this, data
      requires Valid()
    {
      PackedWords(bits);
      Members(data[..], bits)
    }

    constructor (n: nat)
      ensures Valid() && fresh(data) && bits == n && Elems() == {}
    {
      bits := n;
      data := new bv32[(n + 31) / 32](_ => 0);
      new;
      EmptyRow(data[..], n);
    }

    /** The copy constructor. */
    constructor Copy(other: BitSet)
      requires other.Valid()
      ensures Valid() && fresh(data) && bits == other.bits && data[..] == other.data[..]
    {
      var from := other.data;
      bits := other.bits;
      data := new bv32[from.Length](i requires 0 <= i < from.Length reads from => from[i]);
      new;
      assert data[..] == from[..];
    }

    method Set(i: nat)
      requires Valid() && i < bits
      modifies data
      ensures Valid() && Elems() == old(Elems()) + {i}
    {
      ghost var r := data[..];
      SetRow(r, bits, i);
      data[i / 32] := data[i / 32] | Bit(i % 32);
      assert data[..] == r[i / 32 := r[i / 32] | Bit(i % 32)];
    }

    method Clear(i: nat)
      requires Valid() && i < bits
      modifies data
      ensures Valid() && Elems() == old(Elems()) - {i}
    {
      ghost var r := data[..];
      ClearRow(r, bits, i);
      data[i / 32] := data[i / 32] & !Bit(i % 32);
      assert data[..] == r[i / 32 := r[i / 32] & !Bit(i % 32)];
    }

    method Test(i: nat) returns (b: bool)
      requires Valid() && i < bits
      ensures b <==> i in Elems()
    {
      hide TestBit;
      PackedWords(bits);
      b := TestBit(data[i / 32], i % 32);
    }

    /** count: the number of elements. */
    method Count() returns (result: nat)
      requires Valid()
      ensures result == |Elems()|
    {
      ghost var r := data[..];
      result := 0;
      var i := 0;
      hide Packed, TestRow, BitCount, Ones, Members, TestBit;
      assert FirstBits(r, 0) == {};
      while i < data.Length
        invariant i <= data.Length == |r| && data[..] == r && result == |FirstBits(r, 32 * i)|
      {
        WordCount(r, i, 32);
        BitCountIsOnes(data[i]);
        ZeroOnes(32);
        if data[i] != 0 {
          result := result + Value(BitCount(data[i]));
        }
        i := i + 1;
      }
      RowCount(r, bits);
    }

    method ComplementInPlace()
      requires Valid()
      modifies data
      ensures Valid() && forall i: nat :: i in Elems() <==> i < bits && i !in old(Elems())
    {
      ghost var r := data[..];
      PackedWords(bits);
      assert |r| == (bits + 31) / 32;
      hide Packed, Members, Flipped, LowPart;
      var i := 0;
      while i < data.Length
        invariant i <= data.Length == |r|
        invariant forall w :: 0 <= w < i ==> data[w] == Flipped(r[w])
        invariant forall w :: i <= w < data.Length ==> data[w] == r[w]
      {
        data[i] := Flipped(data[i]);
        i := i + 1;
      }
      var n := bits % 32;
      if n != 0 {
        data[data.Length - 1] := LowPart(data[data.Length - 1], n);
      }
      ComplementRow(r, data[..], bits);
    }

    /** union_in_place for operands of equal length; the other set may be this one. */
    method UnionInPlace(that: BitSet)
      requires Valid() && that.Valid() && that.bits == bits
      modifies data
      ensures Valid() && Elems() == old(Elems()) + old(that.Elems())
    {
      hide Members, TestBit, Bit;
      ghost var a, b := data[..], that.data[..];
      var i := 0;
      while i < data.Length
        invariant i <= data.Length == |a| == |b| == that.data.Length
        invariant forall w :: 0 <= w < i ==> data[w] == a[w] | b[w]
        invariant forall w :: i <= w < data.Length ==> data[w] == a[w] && that.data[w] == b[w]
      {
        data[i] := data[i] | that.data[i];
        i := i + 1;
      }
      OrRows(a, b, data[..], bits);
    }
  }

  lemma {:induction false} ZeroOnes(k: nat)
    requires k <= 32
    ensures Ones(0, k) == 0
  {
    if k > 0 {
      ZeroOnes(k - 1);
      ZeroBits(k - 1);
    }
  }

  lemma EmptyRow(r: Row, n: nat)
    requires |r| == (n + 31) / 32 && forall w :: 0 <= w < |r| ==> r[w] == 0
    ensures Packed(r, n) && n <= 32 * |r| && Members(r, n) == {}
  {
    PackedWords(n);
    forall i: nat | i < 32 * |r| ensures !TestRow(r, i) {
      ZeroBits(i % 32);
    }
  }
}
