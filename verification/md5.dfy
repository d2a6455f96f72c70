/** Streaming MD5 over an abstract block function (adlib/md5.cc, RFC 1321). */
module MD5 {
  import opened Words

  type Word32 = x: int | 0 <= x < 0x1_0000_0000

  datatype State = State(a: Word32, b: Word32, c: Word32, d: Word32)

  const INIT := State(0x67452301, 0xefcdab89, 0x98badcfe, 0x10325476)

  type Block = b: seq<Byte> | |b| == 64 witness seq(64, i => 0)

  /** The block function, which the model leaves open. */
  type Compress = (State, Block) -> State

  // ---------- what MD5 is of a whole message ----------

  ghost function Blocks(f: Compress, s: State, m: seq<Byte>): State
    requires |m| % 64 == 0
    decreases |m|
  {
    if m == [] then s else Blocks(f, f(s, m[..64]), m[64..])
  }

  function LittleEndian(n: nat, bytes: nat): (r: seq<Byte>)
    ensures |r| == bytes
  {
    if bytes == 0 then [] else [n % 256] + LittleEndian(n / 256, bytes - 1)
  }

  function Zeros(n: nat): (r: seq<Byte>)
    ensures |r| == n
  {
    seq(n, i => 0)
  }

  /** How many zero bytes go after the 0x80 byte of a message of this length. */
  function ZeroCount(n: nat): nat {
    if n % 64 < 56 then 55 - n % 64 else 119 - n % 64
  }

  /** Sections 3.1 and 3.2 of RFC 1321: a one bit, as few zero bits as bring the length to 448 modulo 512, and
      the length in bits modulo 2^64, low byte first. */
  function Padded(m: seq<Byte>): (r: seq<Byte>)
    ensures |r| % 64 == 0
  {
    PaddedLength(|m|);
    m + [0x80] + Zeros(ZeroCount(|m|)) + LittleEndian(8 * |m| % WORD, 8)
  }

  lemma PaddedLength(n: nat)
    ensures (n + 1 + ZeroCount(n) + 8) % 64 == 0
  {
    var q, r := n / 64, n % 64;
    assert n + 1 + ZeroCount(n) + 8 == 64 * (if r < 56 then q + 1 else q + 2);
  }

  predicate Reaches448(n: nat, k: nat) {
    (n + 1 + k) % 64 == 56
  }

  lemma PaddingIsLeast(n: nat)
    ensures Reaches448(n, ZeroCount(n)) && forall k: nat :: Reaches448(n, k) ==> ZeroCount(n) <= k
  {
    Reaches(n / 64, n % 64);
    hide ZeroCount;
    forall k: nat | Reaches448(n, k) ensures ZeroCount(n) <= k {
      LeastFor(n, k);
    }
  }

  lemma Reaches(q: nat, r: nat)
    requires r < 64
    ensures Reaches448(64 * q + r, if r < 56 then 55 - r else 119 - r)
  {
    assert 64 * q + r + 1 + (if r < 56 then 55 - r else 119 - r) == 64 * (if r < 56 then q else q + 1) + 56;
  }

  lemma LeastFor(n: nat, k: nat)
    requires Reaches448(n, k)
    ensures ZeroCount(n) <= k
  {
    var q, r, t := n / 64, n % 64, (n + 1 + k) / 64;
    assert 64 * q + r + 1 + k == 64 * t + 56;
  }

  ghost function Digest(f: Compress, m: seq<Byte>): State {
    Blocks(f, INIT, Padded(m))
  }

  function Encoded(s: State): (r: seq<Byte>)
    ensures |r| == 16
  {
    LittleEndian(s.a, 4) + LittleEndian(s.b, 4) + LittleEndian(s.c, 4) + LittleEndian(s.d, 4)
  }

  lemma FourBytes(n: nat)
    ensures LittleEndian(n, 4) == [n % 256, n / 256 % 256, n / 256 / 256 % 256, n / 256 / 256 / 256 % 256]
  {
    var b1, b2, b3 := n / 256, n / 256 / 256, n / 256 / 256 / 256;
    assert LittleEndian(b3, 1) == [b3 % 256] + LittleEndian(b3 / 256, 0);
    assert LittleEndian(b2, 2) == [b2 % 256] + LittleEndian(b3, 1);
    assert LittleEndian(b1, 3) == [b1 % 256] + LittleEndian(b2, 2);
    assert LittleEndian(n, 4) == [n % 256] + LittleEndian(b1, 3);
  }

  /** Section 3.3 of RFC 1321: the words start as the bytes 01 23 45 67 89 ab cd ef fe dc ba 98 76 54 32 10. */
  lemma InitialBytes()
    ensures forall i :: 0 <= i < 8 ==> Encoded(INIT)[i] == 16 * (2 * i) + (2 * i + 1)
    ensures forall i :: 8 <= i < 16 ==> Encoded(INIT)[i] == 16 * (31 - 2 * i) + (30 - 2 * i)
  {
    InitialWords();
    hide LittleEndian;
    var e := Encoded(INIT);
    assert e == [0x01, 0x23, 0x45, 0x67] + [0x89, 0xab, 0xcd, 0xef] + [0xfe, 0xdc, 0xba, 0x98]
      + [0x76, 0x54, 0x32, 0x10];
  }

  lemma InitialWords()
    ensures LittleEndian(INIT.a, 4) == [0x01, 0x23, 0x45, 0x67] && LittleEndian(INIT.b, 4) == [0x89, 0xab, 0xcd, 0xef]
    ensures LittleEndian(INIT.c, 4) == [0xfe, 0xdc, 0xba, 0x98] && LittleEndian(INIT.d, 4) == [0x76, 0x54, 0x32, 0x10]
  {
    FourBytes(INIT.a);
    FourBytes(INIT.b);
    FourBytes(INIT.c);
    FourBytes(INIT.d);
    hide LittleEndian;
  }

  /** What the padding of a message consists of: the message, a one bit, zeros, and its length in bits modulo 2^64 in
      the last eight bytes. */
  lemma PaddedParts(m: seq<Byte>)
    ensures var p := Padded(m);
      && |p| % 64 == 0 && |p| >= |m| + 9 && p[..|m|] == m && p[|m|] == 0x80
      && (forall i :: |m| < i < |p| - 8 ==> p[i] == 0)
      && FromLittleEndian(p[|p| - 8..]) == 8 * |m| % 0x1_0000_0000_0000_0000
  {
    var p, bits := Padded(m), 8 * |m| % WORD;
    assert p == (m + [0x80] + Zeros(ZeroCount(|m|))) + LittleEndian(bits, 8);
    assert p[|p| - 8..] == LittleEndian(bits, 8);
    EightBytes();
    LittleEndianRoundTrip(bits, 8);
  }

  lemma EightBytes()
    ensures Power256(8) == WORD
  {
    assert Power256(4) == 256 * Power256(3) == 256 * 256 * Power256(2) == 256 * 256 * 256 * Power256(1)
      == 0x1_0000_0000;
    assert Power256(8) == 256 * Power256(7) == 256 * 256 * Power256(6) == 256 * 256 * 256 * Power256(5)
      == 0x1_0000_0000 * Power256(4);
  }

  function FromLittleEndian(b: seq<Byte>): nat {
    if b == [] then 0 else b[0] + 256 * FromLittleEndian(b[1..])
  }

  function Power256(n: nat): (p: nat)
    ensures p > 0
  {
    if n == 0 then 1 else 256 * Power256(n - 1)
  }

  lemma {:induction false} LittleEndianRoundTrip(n: nat, bytes: nat)
    requires n < Power256(bytes)
    ensures FromLittleEndian(LittleEndian(n, bytes)) == n
  {
    if bytes > 0 {
      LittleEndianRoundTrip(n / 256, bytes - 1);
      assert LittleEndian(n, bytes)[1..] == LittleEndian(n / 256, bytes - 1);
    }
  }

  /** The 16 bytes determine the four words. */
  lemma EncodedRoundTrip(s: State)
    ensures var e := Encoded(s);
      && s.a == FromLittleEndian(e[..4]) && s.b == FromLittleEndian(e[4..8])
      && s.c == FromLittleEndian(e[8..12]) && s.d == FromLittleEndian(e[12..])
  {
    var e := Encoded(s);
    assert Power256(4) == 256 * Power256(3) == 256 * 256 * Power256(2) == 256 * 256 * 256 * Power256(1)
      == 0x1_0000_0000;
    assert e[..4] == LittleEndian(s.a, 4) && e[4..8] == LittleEndian(s.b, 4);
    assert e[8..12] == LittleEndian(s.c, 4) && e[12..] == LittleEndian(s.d, 4);
    hide LittleEndian, FromLittleEndian, Power256;
    LittleEndianRoundTrip(s.a, 4);
    LittleEndianRoundTrip(s.b, 4);
    LittleEndianRoundTrip(s.c, 4);
    LittleEndianRoundTrip(s.d, 4);
  }

  lemma {:induction false} BlocksConcat(f: Compress, s: State, m: seq<Byte>, n: seq<Byte>)
    requires |m| % 64 == 0 && |n| % 64 == 0
    ensures Blocks(f, s, m + n) == Blocks(f, Blocks(f, s, m), n)
    decreases |m|
  {
    if m == [] {
      assert m + n == n;
    } else {
      assert (m + n)[..64] == m[..64] && (m + n)[64..] == m[64..] + n;
      BlocksConcat(f, f(s, m[..64]), m[64..], n);
    }
  }

  lemma OneBlock(f: Compress, s: State, m: seq<Byte>, b: Block)
    requires |m| % 64 == 0
    ensures Blocks(f, s, m + b) == f(Blocks(f, s, m), b)
  {
    BlocksConcat(f, s, m, b);
    assert b[..64] == b && b[64..] == [];
  }

  // ---------- states in the middle of a message ----------

  /** All whole blocks of the message are absorbed, and the rest of it waits. */
  ghost predicate Running(f: Compress, s: State, waiting: seq<Byte>, m: seq<Byte>) {
    && |waiting| <= |m| && (|m| - |waiting|) % 64 == 0 && waiting == m[|m| - |waiting|..]
    && s == Blocks(f, INIT, m[..|m| - |waiting|])
  }

  lemma MoreWaits(f: Compress, s: State, waiting: seq<Byte>, m: seq<Byte>, data: seq<Byte>)
    requires Running(f, s, waiting, m)
    ensures Running(f, s, waiting + data, m + data)
  {
    var done := m[..|m| - |waiting|];
    assert (m + data)[..|m + data| - |waiting + data|] == done;
    assert (m + data)[|m + data| - |waiting + data|..] == waiting + data;
  }

  lemma BlockDone(f: Compress, s: State, b: Block, m: seq<Byte>)
    requires Running(f, s, b, m)
    ensures Running(f, f(s, b), [], m)
  {
    var done := m[..|m| - 64];
    assert m == done + b && m[..|m|] == m;
    OneBlock(f, INIT, done, b);
  }

  lemma FinishedIs(f: Compress, s: State, m: seq<Byte>)
    requires Running(f, s, [], Padded(m))
    ensures s == Digest(f, m)
  {
    assert Padded(m)[..|Padded(m)|] == Padded(m);
  }

  // ---------- the object ----------

  lemma OneByte(before: seq<Byte>, n: nat, bytes: nat)
    requires bytes > 0
    ensures before + LittleEndian(n, bytes) == before + [n % 256] + LittleEndian(n / 256, bytes - 1)
  {
    assert LittleEndian(n, bytes) == [n % 256] + LittleEndian(n / 256, bytes - 1);
    hide LittleEndian;
  }

  lemma NoBytes(n: nat)
    ensures LittleEndian(n, 0) == []
  {
  }

  class MD5 {
    const updateBlock: Compress
    const fragment: array<Byte>
    var state: State
    var fragmentLength: nat
    var totalLength: nat
    var finished: bool

    /** The bytes hashed so far. */
    ghost var message: seq<Byte>

    ghost predicate Valid()
      reads this, fragment
    {
      && fragment.Length == 64 && fragmentLength < 64 && totalLength == |message| % WORD
      && if finished then state == Digest(updateBlock, message)
         else Running(updateBlock, state, fragment[..fragmentLength], message)
    }

    constructor (f: Compress)
      ensures Valid() && fresh(fragment) && !finished && message == [] && updateBlock == f
      ensures state == INIT && fragmentLength == 0
    {
      updateBlock := f;
      fragment := new Byte[64](i => 0);
      state, fragmentLength, totalLength, finished, message := INIT, 0, 0, false, [];
    }

    method Reset()
      requires Valid()
      modifies this
      ensures Valid() && !finished && message == [] && state == INIT && fragmentLength == 0
    {
      state, fragmentLength, totalLength, finished, message := INIT, 0, 0, false, [];
    }

    /** memcpy into the fragment. */
    method CopyIn(data: seq<Byte>, at: nat)
      requires fragment.Length == 64 && at + |data| <= 64
      modifies fragment
      ensures fragment[..at + |data|] == old(fragment[..at]) + data
    {
      forall i | 0 <= i < |data| {
        fragment[at + i] := data[i];
      }
    }

    /** Data that fits waits in the fragment. */
    method Wait(data: seq<Byte>, ghost m: seq<Byte>)
      requires fragment.Length == 64 && fragmentLength + |data| <= 64
      requires Running(updateBlock, state, fragment[..fragmentLength], m)
      modifies this`fragmentLength, fragment
      ensures fragmentLength == old(fragmentLength) + |data|
      ensures Running(updateBlock, state, fragment[..fragmentLength], m + data)
    {
      hide Running;
      MoreWaits(updateBlock, state, fragment[..fragmentLength], m, data);
      CopyIn(data, fragmentLength);
      fragmentLength := fragmentLength + |data|;
    }

    /** The fragment is filled up and absorbed. */
    method Fill(data: seq<Byte>, ghost m: seq<Byte>)
      requires fragment.Length == 64 && fragmentLength + |data| == 64
      requires Running(updateBlock, state, fragment[..fragmentLength], m)
      modifies this`state, this`fragmentLength, fragment
      ensures fragmentLength == 0 && Running(updateBlock, state, [], m + data)
    {
      hide Running;
      Wait(data, m);
      BlockDone(updateBlock, state, fragment[..64], m + data);
      assert fragment[..64] == fragment[..];
      state := updateBlock(state, fragment[..]);
      fragmentLength := 0;
    }

    /** Whole blocks are absorbed straight from the data. */
    method AbsorbBlocks(data: seq<Byte>, start: nat, ghost m: seq<Byte>) returns (ptr: nat)
      requires start <= |data| && Running(updateBlock, state, [], m + data[..start])
      modifies this`state
      ensures start <= ptr <= |data| < ptr + 64 && Running(updateBlock, state, [], m + data[..ptr])
    {
      hide Running;
      ptr := start;
      while |data| - ptr >= 64
        invariant start <= ptr <= |data| && Running(updateBlock, state, [], m + data[..ptr])
      {
        var b := data[ptr..ptr + 64];
        MoreWaits(updateBlock, state, [], m + data[..ptr], b);
        assert m + data[..ptr] + b == m + data[..ptr + 64] && [] + b == b;
        BlockDone(updateBlock, state, b, m + data[..ptr + 64]);
        state := updateBlock(state, b);
        ptr := ptr + 64;
      }
    }

    method Update(data: seq<Byte>)
      requires Valid() && !finished
      modifies this, fragment
      ensures Valid() && !finished && message == old(message) + data
    {
      hide Running;
      ghost var m := message;
      AddWrap(|m|, |data|);
      totalLength := (totalLength + |data|) % WORD;
      message := message + data;
      if |data| + fragmentLength < 64 {
        Wait(data, m);
      } else {
        Spill(data, m);
      }
    }

    /** Data that does not fit: the fragment, whole blocks, and a new fragment. */
    method Spill(data: seq<Byte>, ghost m: seq<Byte>)
      requires fragment.Length == 64 && fragmentLength < 64 && fragmentLength + |data| >= 64
      requires Running(updateBlock, state, fragment[..fragmentLength], m)
      modifies this`state, this`fragmentLength, fragment
      ensures fragmentLength < 64 && Running(updateBlock, state, fragment[..fragmentLength], m + data)
    {
      hide Running;
      var ptr := 0;
      assert m + data[..0] == m && fragment[..0] == [];
      if fragmentLength != 0 {
        ptr := 64 - fragmentLength;
        Fill(data[..ptr], m);
      }
      ptr := AbsorbBlocks(data, ptr, m);
      assert fragment[..0] == [] && m + data[..ptr] + data[ptr..] == m + data;
      Wait(data[ptr..], m + data[..ptr]);
    }

    /** The last eight bytes of the fragment, low byte first. */
    method PutLength(length: nat)
      requires fragment.Length == 64
      modifies fragment
      ensures fragment[..] == old(fragment[..56]) + LittleEndian(length, 8)
    {
      hide LittleEndian;
      var n := length;
      var i: nat := 0;
      assert fragment[56..56] == [];
      while i < 8
        invariant i <= 8 && fragment[..56] == old(fragment[..56])
        invariant fragment[56..56 + i] + LittleEndian(n, 8 - i) == LittleEndian(length, 8)
      {
        ghost var before := fragment[56..56 + i];
        OneByte(before, n, 8 - i);
        fragment[56 + i] := n % 256;
        assert fragment[56..56 + i + 1] == before + [n % 256];
        n := n / 256;
        i := i + 1;
      }
      NoBytes(n);
      assert fragment[56..56 + i] == fragment[56..] && fragment[..] == fragment[..56] + fragment[56..];
    }

    /** The padding and the length, absorbed in one or two blocks; a second call changes nothing. */
    method Finish()
      requires Valid()
      modifies this, fragment
      ensures Valid() && finished && message == old(message) && state == Digest(updateBlock, message)
      ensures old(finished) ==> state == old(state)
    {
      if finished {
        return;
      }
      hide Running, LittleEndian, ZeroCount, Padded;
      Pad(message);
      ghost var p := message + [0x80] + Zeros(ZeroCount(|message|));
      var bits := totalLength * 8 % WORD;
      MoreWaits(updateBlock, state, fragment[..56], p, LittleEndian(bits, 8));
      PutLength(bits);
      BlockDone(updateBlock, state, fragment[..], p + LittleEndian(bits, 8));
      state := updateBlock(state, fragment[..]);
      PadSteps(message, p, bits);
      FinishedIs(updateBlock, state, message);
      finished := true;
    }

    /** The byte 0x80 and zeros, up to the place of the length in the last block. */
    method Pad(ghost m: seq<Byte>)
      requires fragment.Length == 64 && fragmentLength < 64
        && Running(updateBlock, state, fragment[..fragmentLength], m)
      modifies this`state, this`fragmentLength, fragment
      ensures fragmentLength <= 56
      ensures Running(updateBlock, state, fragment[..56], m + [0x80] + Zeros(ZeroCount(|m|)))
    {
      hide Running;
      RestLength(updateBlock, state, fragment[..fragmentLength], m);
      Wait([0x80], m);
      ghost var z := 0;
      ghost var p := m + [0x80];
      if fragmentLength > 56 {
        z := 64 - fragmentLength;
        Fill(Zeros(64 - fragmentLength), p);
        assert fragment[..0] == [];
      }
      assert p + Zeros(0) == p;
      MoreWaits(updateBlock, state, fragment[..fragmentLength], p + Zeros(z), Zeros(56 - fragmentLength));
      assert p + Zeros(z) + Zeros(56 - fragmentLength) == p + Zeros(z + 56 - fragmentLength);
      CopyIn(Zeros(56 - fragmentLength), fragmentLength);
    }
  }

  lemma RestLength(f: Compress, s: State, waiting: seq<Byte>, m: seq<Byte>)
    requires Running(f, s, waiting, m) && |waiting| < 64
    ensures |waiting| == |m| % 64
  {
  }

  lemma PadSteps(m: seq<Byte>, p: seq<Byte>, bits: nat)
    requires p == m + [0x80] + Zeros(ZeroCount(|m|)) && bits == |m| % WORD * 8 % WORD
    ensures p + LittleEndian(bits, 8) == Padded(m)
  {
    hide LittleEndian, ZeroCount;
    BitsWrap(|m|);
  }

  lemma BitsWrap(n: nat)
    ensures n % WORD * 8 % WORD == 8 * n % WORD
  {
    var q, r := n / WORD, n % WORD;
    assert n == WORD * q + r && 8 * n == WORD * (8 * q) + 8 * r;
    Multiples(8 * q, 8 * r);
  }

  lemma AddWrap(a: nat, b: nat)
    ensures (a % WORD + b) % WORD == (a + b) % WORD
  {
    var q := a / WORD;
    assert a + b == WORD * q + (a % WORD + b);
    Multiples(q, a % WORD + b);
  }

  lemma Multiples(q: nat, r: nat)
    ensures (WORD * q + r) % WORD == r % WORD
  {
  }

  // ---------- digests ----------

  function Joined(pieces: seq<seq<Byte>>): seq<Byte> {
    if pieces == [] then [] else Joined(pieces[..|pieces| - 1]) + pieces[|pieces| - 1]
  }

  /** However a message is cut into pieces, bytedigest gives the encoded digest of the whole. */
  method ByteDigest(f: Compress, pieces: seq<seq<Byte>>) returns (r: seq<Byte>)
    ensures r == Encoded(Digest(f, Joined(pieces)))
  {
    var md5 := new MD5(f);
    var i := 0;
    while i < |pieces|
      invariant i <= |pieces| && md5.Valid() && !md5.finished && fresh(md5) && fresh(md5.fragment)
      invariant md5.updateBlock == f && md5.message == Joined(pieces[..i])
    {
      md5.Update(pieces[i]);
      assert pieces[..i + 1][..i] == pieces[..i];
      i := i + 1;
    }
    assert pieces[..i] == pieces;
    md5.Finish();
    r := [];
    r := AddWord(r, md5.state.a);
    r := AddWord(r, md5.state.b);
    r := AddWord(r, md5.state.c);
    r := AddWord(r, md5.state.d);
  }

  /** add_word: four bytes, low byte first. */
  method AddWord(str: seq<Byte>, w: Word32) returns (r: seq<Byte>)
    ensures r == str + LittleEndian(w, 4)
  {
    var rest: nat := w;
    r := str;
    var i := 0;
    while i < 4
      invariant i <= 4 && r + LittleEndian(rest, 4 - i) == str + LittleEndian(w, 4)
    {
      assert LittleEndian(rest, 4 - i) == [rest % 256] + LittleEndian(rest / 256, 4 - i - 1);
      r := r + [rest % 256];
      rest := rest / 256;
      i := i + 1;
    }
  }
}
