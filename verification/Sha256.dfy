/**
 * SHA-256 and HMAC-SHA256: the streaming context against the padded-block
 * definition of FIPS 180-4 and the definition in section 2 of RFC 2104.
 */
module Sha256 {
  type Byte = bv8
  type Word = bv32

  const K: seq<Word> :=
    [0x428a2f98, 0x71374491, 0xb5c0fbcf, 0xe9b5dba5, 0x3956c25b, 0x59f111f1, 0x923f82a4, 0xab1c5ed5] +
    [0xd807aa98, 0x12835b01, 0x243185be, 0x550c7dc3, 0x72be5d74, 0x80deb1fe, 0x9bdc06a7, 0xc19bf174] +
    [0xe49b69c1, 0xefbe4786, 0x0fc19dc6, 0x240ca1cc, 0x2de92c6f, 0x4a7484aa, 0x5cb0a9dc, 0x76f988da] +
    [0x983e5152, 0xa831c66d, 0xb00327c8, 0xbf597fc7, 0xc6e00bf3, 0xd5a79147, 0x06ca6351, 0x14292967] +
    [0x27b70a85, 0x2e1b2138, 0x4d2c6dfc, 0x53380d13, 0x650a7354, 0x766a0abb, 0x81c2c92e, 0x92722c85] +
    [0xa2bfe8a1, 0xa81a664b, 0xc24b8b70, 0xc76c51a3, 0xd192e819, 0xd6990624, 0xf40e3585, 0x106aa070] +
    [0x19a4c116, 0x1e376c08, 0x2748774c, 0x34b0bcb5, 0x391c0cb3, 0x4ed8aa4a, 0x5b9cca4f, 0x682e6ff3] +
    [0x748f82ee, 0x78a5636f, 0x84c87814, 0x8cc70208, 0x90befffa, 0xa4506ceb, 0xbef9a3f7, 0xc67178f2]

  // ------------------------------------- the functions of section 4.1.2

  function Rotr(x: Word, n: nat): Word
    requires n < 32
  {
    (x >> n) | (x << (32 - n))
  }

  /** Addition modulo 2^32. */
  function Plus(x: Word, y: Word): Word { x + y }

  function Ch(x: Word, y: Word, z: Word): Word { (x & y) ^ (!x & z) }
  function Maj(x: Word, y: Word, z: Word): Word { (x & y) ^ (x & z) ^ (y & z) }
  function BigSigma0(x: Word): Word { Rotr(x, 2) ^ Rotr(x, 13) ^ Rotr(x, 22) }
  function BigSigma1(x: Word): Word { Rotr(x, 6) ^ Rotr(x, 11) ^ Rotr(x, 25) }
  function SmallSigma0(x: Word): Word { Rotr(x, 7) ^ Rotr(x, 18) ^ (x >> 3) }
  function SmallSigma1(x: Word): Word { Rotr(x, 17) ^ Rotr(x, 19) ^ (x >> 10) }

  // ---------------------------------------- the computation of section 6.2

  datatype Words = Words(a: Word, b: Word, c: Word, d: Word, e: Word, f: Word, g: Word, h: Word)

  const H0: Words := Words(0x6a09e667, 0xbb67ae85, 0x3c6ef372, 0xa54ff53a,
                           0x510e527f, 0x9b05688c, 0x1f83d9ab, 0x5be0cd19)

  function WordAt(block: seq<Byte>, t: nat): Word
    requires |block| == 64 && t < 16
  {
    ((block[4 * t] as Word) << 24) | ((block[4 * t + 1] as Word) << 16)
    | ((block[4 * t + 2] as Word) << 8) | (block[4 * t + 3] as Word)
  }

  /** The message schedule, its four terms in the order the code adds them. */
  function Schedule(block: seq<Byte>, t: nat): Word
    requires |block| == 64
  {
    if t < 16 then WordAt(block, t)
    else
      Plus(Plus(Plus(SmallSigma0(Schedule(block, t - 15)), Schedule(block, t - 7)),
                SmallSigma1(Schedule(block, t - 2))),
           Schedule(block, t - 16))
  }

  function Round(w: Words, k: Word, m: Word): Words {
    var t1 := Plus(Plus(Plus(Plus(w.h, BigSigma1(w.e)), Ch(w.e, w.f, w.g)), k), m);
    var t2 := Plus(BigSigma0(w.a), Maj(w.a, w.b, w.c));
    Words(Plus(t1, t2), w.a, w.b, w.c, Plus(w.d, t1), w.e, w.f, w.g)
  }

  function Rounds(block: seq<Byte>, w: Words, t: nat): Words
    requires |block| == 64 && t <= 64
  {
    if t == 0 then w else Round(Rounds(block, w, t - 1), K[t - 1], Schedule(block, t - 1))
  }

  function Add(x: Words, y: Words): Words {
    Words(Plus(x.a, y.a), Plus(x.b, y.b), Plus(x.c, y.c), Plus(x.d, y.d),
          Plus(x.e, y.e), Plus(x.f, y.f), Plus(x.g, y.g), Plus(x.h, y.h))
  }

  function Compress(h: Words, block: seq<Byte>): Words
    requires |block| == 64
  {
    Add(h, Rounds(block, h, 64))
  }

  /** The hash value after whole blocks. */
  function Hash(h: Words, s: seq<Byte>): Words
    requires |s| % 64 == 0
    decreases |s|
  {
    if s == [] then h else Hash(Compress(h, s[..64]), s[64..])
  }

  /** `n` as `len` big-endian bytes. */
  function BigEndian(n: nat, len: nat): (r: seq<Byte>)
    ensures |r| == len
  {
    if len == 0 then [] else BigEndian(n / 256, len - 1) + [(n % 256) as Byte]
  }

  function Zeros(n: nat): (r: seq<Byte>)
    ensures |r| == n && forall i :: 0 <= i < n ==> r[i] == 0
  {
    seq(n, _ => 0)
  }

  /** Section 5.1.1: a one bit, the fewest zero bits that fit, and the length in bits as 64 bits. */
  function Pad(msg: seq<Byte>): (r: seq<Byte>)
    ensures |r| % 64 == 0
  {
    PadLength(|msg|);
    msg + [0x80] + Zeros((119 - |msg| % 64) % 64) + BigEndian(8 * |msg|, 8)
  }

  lemma PadLength(n: nat)
    ensures (n + 1 + (119 - n % 64) % 64 + 8) % 64 == 0
  {
    var q, r := n / 64, n % 64;
    assert n == 64 * q + r;
    if r < 56 {
      assert n + 1 + (119 - r) % 64 + 8 == 64 * (q + 1);
    } else {
      assert n + 1 + (119 - r) % 64 + 8 == 64 * (q + 2);
    }
  }

  function WordBytes(w: Word): (r: seq<Byte>)
    ensures |r| == 4
  {
    [((w >> 24) & 0xff) as Byte, ((w >> 16) & 0xff) as Byte, ((w >> 8) & 0xff) as Byte, (w & 0xff) as Byte]
  }

  function Serialize(w: Words): (r: seq<Byte>)
    ensures |r| == 32
  {
    WordBytes(w.a) + WordBytes(w.b) + WordBytes(w.c) + WordBytes(w.d)
    + WordBytes(w.e) + WordBytes(w.f) + WordBytes(w.g) + WordBytes(w.h)
  }

  function Digest(msg: seq<Byte>): (r: seq<Byte>)
    ensures |r| == 32
  {
    Serialize(Hash(H0, Pad(msg)))
  }

  // ------------------------------------------------------------- RFC 2104

  function XorWith(s: seq<Byte>, b: Byte): (r: seq<Byte>)
    ensures |r| == |s|
  {
    seq(|s|, i requires 0 <= i < |s| => s[i] ^ b)
  }

  function BlockKey(key: seq<Byte>): (r: seq<Byte>)
    ensures |r| == 64
  {
    var k := if |key| > 64 then Digest(key) else key;
    k + Zeros(64 - |k|)
  }

  /** H(K XOR opad, H(K XOR ipad, text)). */
  function HmacOf(key: seq<Byte>, text: seq<Byte>): seq<Byte> {
    Digest(XorWith(BlockKey(key), 0x5c) + Digest(XorWith(BlockKey(key), 0x36) + text))
  }

  // ------------------------------------------------------- lemmas on hashing

  lemma HashEmpty()
    ensures Hash(H0, []) == H0
  {
  }

  /** Hashing one block more. */
  lemma {:induction false} HashSnoc(h: Words, s: seq<Byte>, block: seq<Byte>)
    requires |s| % 64 == 0 && |block| == 64
    ensures |s + block| % 64 == 0
    ensures Hash(h, s + block) == Compress(Hash(h, s), block)
    decreases |s|
  {
    hide Compress;
    if s == [] {
      assert s + block == block && block[..64] == block && block[64..] == [];
      assert Hash(Compress(h, block), []) == Compress(h, block);
    } else {
      assert (s + block)[..64] == s[..64] && (s + block)[64..] == s[64..] + block;
      HashSnoc(Compress(h, s[..64]), s[64..], block);
    }
  }

  lemma ZerosSplit(m: nat, n: nat)
    ensures Zeros(m + n) == Zeros(m) + Zeros(n)
  {
  }

  lemma PadParts(msg: seq<Byte>, full: nat)
    requires full <= |msg| && full % 64 == 0 && |msg| - full < 64
    ensures var tail := msg[full..];
            Pad(msg) == msg[..full] + (tail + [0x80]) + Zeros(if |tail| < 56 then 55 - |tail| else 119 - |tail|)
                        + BigEndian(8 * |msg|, 8)
  {
    hide BigEndian, Zeros;
    var tail := msg[full..];
    assert |msg| % 64 == |tail|;
    assert (119 - |tail|) % 64 == if |tail| < 56 then 55 - |tail| else 119 - |tail|;
    assert msg + [0x80] == msg[..full] + (tail + [0x80]);
  }

  /** The last block or two of a padded message, given its unfinished tail. */
  lemma PadEnds(msg: seq<Byte>, full: nat)
    requires full <= |msg| && full % 64 == 0 && |msg| - full < 64
    ensures var tail := msg[full..];
            var len := BigEndian(8 * |msg|, 8);
            Pad(msg) == msg[..full]
                        + if |tail| < 56 then tail + [0x80] + Zeros(55 - |tail|) + len
                          else (tail + [0x80] + Zeros(63 - |tail|)) + (Zeros(56) + len)
  {
    hide Pad, BigEndian, Zeros;
    PadParts(msg, full);
    var tail := msg[full..];
    var len := BigEndian(8 * |msg|, 8);
    if |tail| < 56 {
      Joins(msg[..full], tail + [0x80], Zeros(55 - |tail|), len);
    } else {
      ZerosSplit(63 - |tail|, 56);
      JoinsTwice(msg[..full], tail + [0x80], Zeros(63 - |tail|), Zeros(56), len);
    }
  }

  lemma Joins(a: seq<Byte>, b: seq<Byte>, c: seq<Byte>, e: seq<Byte>)
    ensures a + b + c + e == a + (b + c + e)
  {
  }

  lemma JoinsTwice(a: seq<Byte>, b: seq<Byte>, c: seq<Byte>, d: seq<Byte>, e: seq<Byte>)
    ensures a + b + (c + d) + e == a + ((b + c) + (d + e))
  {
  }

  /** n >> 8k. */
  function ShiftBytes(n: nat, k: nat): nat {
    if k == 0 then n else ShiftBytes(n / 256, k - 1)
  }

  /** (uint8_t)(n >> 8k), as the code stores the length. */
  function ByteOf(n: nat, k: nat): Byte { (ShiftBytes(n, k) % 256) as Byte }

  lemma {:induction false} BigEndianAt(n: nat, len: nat, k: nat)
    requires k < len
    ensures BigEndian(n, len)[len - 1 - k] == ByteOf(n, k)
    decreases k
  {
    if k > 0 { BigEndianAt(n / 256, len - 1, k - 1); }
  }

  // ----------------------------------------------------- the streaming context

  class Context {
    var state: array<Word>
    var bitlen: nat          // a 64-bit counter
    var data: array<Byte>
    var datalen: nat
    ghost var msg: seq<Byte> // everything hashed so far

    ghost function State(): Words
      reads this, state
      requires state.Length == 8
    {
      Words(state[0], state[1], state[2], state[3], state[4], state[5], state[6], state[7])
    }

    /** The whole blocks of the message are in the state, the rest is in `data`. */
    ghost predicate Valid()
      reads this, state, data
    {
      && state.Length == 8 && data.Length == 64 && datalen < 64
      && datalen <= |msg| && (|msg| - datalen) % 64 == 0
      && State() == Hash(H0, msg[..|msg| - datalen])
      && data[..datalen] == msg[|msg| - datalen..]
      && bitlen == 8 * (|msg| - datalen) % 0x1_0000_0000_0000_0000
    }

    constructor ()
      ensures Valid() && msg == [] && fresh(state) && fresh(data)
    {
      hide Hash;
      state := new Word[8];
      data := new Byte[64];
      new;
      Init();
    }

    /** bc_sha256_init. */
    method Init()
      requires state.Length == 8 && data.Length == 64
      modifies this`bitlen, this`datalen, this`msg, state
      ensures Valid() && msg == []
    {
      hide Hash;
      datalen, bitlen, msg := 0, 0, [];
      SetState();
      HashEmpty();
      assert msg[..|msg| - datalen] == [] && data[..datalen] == [];
    }

    method SetState()
      requires state.Length == 8
      modifies state
      ensures State() == H0
    {
      state[0], state[1], state[2], state[3] := 0x6a09e667, 0xbb67ae85, 0x3c6ef372, 0xa54ff53a;
      state[4], state[5], state[6], state[7] := 0x510e527f, 0x9b05688c, 0x1f83d9ab, 0x5be0cd19;
    }

    /** sha256_transform: the schedule loop, then the 64 rounds. */
    method Transform()
      requires state.Length == 8 && data.Length == 64
      modifies state
      ensures State() == Compress(old(State()), data[..])
    {
      hide WordAt, SmallSigma0, SmallSigma1, Round, Plus;
      ghost var block := data[..];
      var m := new Word[64];
      for i := 0 to 16
        invariant forall k :: 0 <= k < i ==> m[k] == Schedule(block, k)
        invariant state[..] == old(state[..])
      {
        m[i] := ReadWord(i);
      }
      for i := 16 to 64
        invariant forall k :: 0 <= k < i ==> m[k] == Schedule(block, k)
        invariant state[..] == old(state[..])
      {
        m[i] := Plus(Plus(Plus(SmallSigma0(m[i - 15]), m[i - 7]), SmallSigma1(m[i - 2])), m[i - 16]);
      }
      assert State() == old(State());
      ghost var start := State();
      var w := Words(state[0], state[1], state[2], state[3], state[4], state[5], state[6], state[7]);
      for i := 0 to 64
        invariant w == Rounds(block, start, i)
        invariant forall k :: 0 <= k < 64 ==> m[k] == Schedule(block, k)
        invariant state[..] == old(state[..])
      {
        w := Round(w, K[i], m[i]);
      }
      assert State() == start;
      AddWorking(w);
    }

    method AddWorking(w: Words)
      requires state.Length == 8
      modifies state
      ensures State() == Add(old(State()), w)
    {
      hide Plus;
      state[0], state[1] := Plus(state[0], w.a), Plus(state[1], w.b);
      state[2], state[3] := Plus(state[2], w.c), Plus(state[3], w.d);
      state[4], state[5] := Plus(state[4], w.e), Plus(state[5], w.f);
      state[6], state[7] := Plus(state[6], w.g), Plus(state[7], w.h);
    }

    method ReadWord(i: nat) returns (w: Word)
      requires data.Length == 64 && i < 16
      ensures w == WordAt(data[..], i)
    {
      w := ((data[4 * i] as Word) << 24) | ((data[4 * i + 1] as Word) << 16)
           | ((data[4 * i + 2] as Word) << 8) | (data[4 * i + 3] as Word);
    }

    /** bc_sha256_update: byte by byte, a block at a time. */
    method Update(input: seq<Byte>)
      requires Valid()
      modifies this`bitlen, this`datalen, this`msg, state, data
      ensures Valid() && msg == old(msg) + input
    {
      assert old(msg) + input[..0] == old(msg);
      for i := 0 to |input|
        invariant Valid() && msg == old(msg) + input[..i]
      {
        assert input[..i + 1] == input[..i] + [input[i]];
        assert old(msg) + input[..i + 1] == msg + [input[i]];
        AddByte(input[i]);
      }
      assert input[..|input|] == input;
    }

    method AddByte(b: Byte)
      requires Valid()
      modifies this`bitlen, this`datalen, this`msg, state, data
      ensures Valid() && msg == old(msg) + [b]
    {
      hide Hash, Compress;
      ghost var full := |msg| - datalen;
      data[datalen] := b;
      datalen := datalen + 1;
      msg := msg + [b];
      assert State() == old(State()) && msg[..full] == old(msg)[..full];
      assert data[..datalen] == msg[full..];
      if datalen == 64 {
        FullBlock(full);
      }
    }

    method FullBlock(ghost full: nat)
      requires state.Length == 8 && data.Length == 64 && datalen == 64
      requires |msg| == full + 64 && full % 64 == 0 && State() == Hash(H0, msg[..full]) && data[..64] == msg[full..]
      requires bitlen == 8 * full % 0x1_0000_0000_0000_0000
      modifies this`bitlen, this`datalen, state
      ensures Valid()
    {
      hide Hash, Compress;
      assert data[..] == data[..64] && msg[..full] + msg[full..] == msg && msg[..|msg|] == msg;
      Transform();
      HashSnoc(H0, msg[..full], msg[full..]);
      bitlen := (bitlen + 512) % 0x1_0000_0000_0000_0000;
      datalen := 0;
    }

    /** bc_sha256_final: one or two last blocks, then the state big-endian. */
    method Final() returns (out: seq<Byte>)
      requires Valid() && |msg| < 0x2000_0000_0000_0000
      modifies this`bitlen, state, data
      ensures out == Digest(msg)
    {
      hide Hash, Digest, Serialize;
      ghost var full := |msg| - datalen;
      data[datalen] := 0x80;
      assert data[..datalen + 1] == msg[full..] + [0x80];
      if datalen < 56 {
        FinishShort(full);
      } else {
        FinishLong(full);
      }
      out := Output();
    }

    /** What is known once the one bit is stored behind the tail. */
    ghost predicate Marked(full: nat)
      reads this, state, data
    {
      && state.Length == 8 && data.Length == 64 && datalen < 64 && |msg| == full + datalen < 0x2000_0000_0000_0000
      && full % 64 == 0 && State() == Hash(H0, msg[..full]) && data[..datalen + 1] == msg[full..] + [0x80]
      && bitlen == 8 * full % 0x1_0000_0000_0000_0000
    }

    /** The length fits behind the tail. */
    method FinishShort(ghost full: nat)
      requires Marked(full) && datalen < 56
      modifies this`bitlen, state, data
      ensures Serialize(State()) == Digest(msg)
    {
      hide Hash, Compress, Digest, BigEndian, Zeros, Serialize;
      ghost var before := data[..];
      assert before[..datalen + 1] == data[..datalen + 1];
      ZeroFill(datalen + 1, 56);
      Filled(before, data[..], datalen + 1, 56);
      ghost var head := msg[full..] + [0x80] + Zeros(55 - datalen);
      assert data[..56] == data[..][..56] == head;
      FinishBlock(head);
      LastBlock(msg, full);
    }

    /** The length goes into a block of its own. */
    method FinishLong(ghost full: nat)
      requires Marked(full) && datalen >= 56
      modifies this`bitlen, state, data
      ensures Serialize(State()) == Digest(msg)
    {
      hide Hash, Compress, Digest, BigEndian, Zeros, Serialize;
      ghost var before := data[..];
      assert before[..datalen + 1] == data[..datalen + 1];
      ZeroFill(datalen + 1, 64);
      Filled(before, data[..], datalen + 1, 64);
      ghost var block := msg[full..] + [0x80] + Zeros(63 - datalen);
      assert data[..] == data[..][..64] == block;
      Transform();
      ZeroFill(0, 56);
      Filled(block, data[..], 0, 56);
      assert data[..56] == data[..][..56] == Zeros(56);
      FinishBlock(Zeros(56));
      LastTwo(msg, full);
    }

    method ZeroFill(from: nat, to: nat)
      requires data.Length == 64 && from <= to <= 64
      modifies data
      ensures forall k :: 0 <= k < 64 ==> data[k] == if from <= k < to then 0 else old(data[k])
    {
      var i := from;
      while i < to
        invariant from <= i <= to
        invariant forall k :: 0 <= k < 64 ==> data[k] == if from <= k < i then 0 else old(data[k])
      {
        data[i] := 0;
        i := i + 1;
      }
    }

    /** Store the bit length in the last eight bytes and hash the block. */
    method FinishBlock(ghost head: seq<Byte>)
      requires state.Length == 8 && data.Length == 64 && datalen < 64 && datalen <= |msg| < 0x2000_0000_0000_0000
      requires bitlen == 8 * (|msg| - datalen) % 0x1_0000_0000_0000_0000
      requires |head| == 56 && data[..56] == head
      modifies this`bitlen, state, data
      ensures State() == Compress(old(State()), head + BigEndian(8 * |msg|, 8))
    {
      hide Hash, Compress, BigEndian;
      bitlen := (bitlen + datalen * 8) % 0x1_0000_0000_0000_0000;
      assert bitlen == 8 * |msg|;
      ghost var len := BigEndian(8 * |msg|, 8);
      data[63], data[62] := ByteOf(bitlen, 0), ByteOf(bitlen, 1);
      data[61], data[60] := ByteOf(bitlen, 2), ByteOf(bitlen, 3);
      data[59], data[58] := ByteOf(bitlen, 4), ByteOf(bitlen, 5);
      data[57], data[56] := ByteOf(bitlen, 6), ByteOf(bitlen, 7);
      assert data[..][..56] == data[..56];
      StoredLength(data[..], head, bitlen);
      assert State() == old(State());
      Transform();
    }

    method Output() returns (out: seq<Byte>)
      requires state.Length == 8
      ensures out == Serialize(State())
    {
      hide WordBytes;
      out := [];
      for k := 0 to 8
        invariant out == StateBytes(state[..], k)
      {
        out := out + WordBytes(state[k]);
      }
      SerializeIs(state[..]);
    }
  }

  /** A block whose last eight bytes are those of a length, the lowest last. */
  lemma StoredLength(block: seq<Byte>, head: seq<Byte>, n: nat)
    requires |block| == 64 && |head| == 56 && block[..56] == head
    requires forall k :: 0 <= k < 8 ==> block[63 - k] == ByteOf(n, k)
    ensures block == head + BigEndian(n, 8)
  {
    hide BigEndian, ByteOf;
    LengthBytes(n);
    var len := BigEndian(n, 8);
    forall j | 56 <= j < 64
      ensures block[j] == len[j - 56]
    {
      var k := 63 - j;
      assert block[63 - k] == ByteOf(n, k) == len[7 - k];
    }
    assert block == block[..56] + block[56..];
  }

  /** A block filled with zeros from `from` to `to`. */
  lemma Filled(before: seq<Byte>, after: seq<Byte>, from: nat, to: nat)
    requires |before| == |after| == 64 && from <= to <= 64
    requires forall k :: 0 <= k < 64 ==> after[k] == if from <= k < to then 0 else before[k]
    ensures after[..to] == before[..from] + Zeros(to - from)
  {
  }

  /** A digest whose last block holds the tail and the length. */
  lemma LastBlock(msg: seq<Byte>, full: nat)
    requires full <= |msg| && full % 64 == 0 && |msg| - full < 56
    ensures var tail := msg[full..];
            Digest(msg) == Serialize(Compress(Hash(H0, msg[..full]),
                                              tail + [0x80] + Zeros(55 - |tail|) + BigEndian(8 * |msg|, 8)))
  {
    hide Hash, Compress, Pad, BigEndian, Zeros, Serialize;
    PadEnds(msg, full);
    var tail := msg[full..];
    HashSnoc(H0, msg[..full], tail + [0x80] + Zeros(55 - |tail|) + BigEndian(8 * |msg|, 8));
  }

  /** A digest with one more block for the length. */
  lemma LastTwo(msg: seq<Byte>, full: nat)
    requires full <= |msg| && full % 64 == 0 && 56 <= |msg| - full < 64
    ensures var tail := msg[full..];
            Digest(msg) == Serialize(Compress(Compress(Hash(H0, msg[..full]), tail + [0x80] + Zeros(63 - |tail|)),
                                              Zeros(56) + BigEndian(8 * |msg|, 8)))
  {
    hide Hash, Compress, Pad, BigEndian, Zeros, Serialize;
    PadEnds(msg, full);
    var tail := msg[full..];
    var block, last := tail + [0x80] + Zeros(63 - |tail|), Zeros(56) + BigEndian(8 * |msg|, 8);
    HashSnoc(H0, msg[..full], block);
    HashSnoc(H0, msg[..full] + block, last);
    assert Pad(msg) == msg[..full] + block + last;
  }

  function StateBytes(w: seq<Word>, k: nat): seq<Byte>
    requires k <= |w|
  {
    if k == 0 then [] else StateBytes(w, k - 1) + WordBytes(w[k - 1])
  }

  lemma SerializeIs(w: seq<Word>)
    requires |w| == 8
    ensures StateBytes(w, 8) == Serialize(Words(w[0], w[1], w[2], w[3], w[4], w[5], w[6], w[7]))
  {
    hide WordBytes;
    assert StateBytes(w, 1) == WordBytes(w[0]);
    assert StateBytes(w, 2) == StateBytes(w, 1) + WordBytes(w[1]);
    assert StateBytes(w, 3) == StateBytes(w, 2) + WordBytes(w[2]);
    assert StateBytes(w, 4) == StateBytes(w, 3) + WordBytes(w[3]);
    assert StateBytes(w, 5) == StateBytes(w, 4) + WordBytes(w[4]);
    assert StateBytes(w, 6) == StateBytes(w, 5) + WordBytes(w[5]);
  }

  lemma LengthBytes(n: nat)
    ensures var len := BigEndian(n, 8);
            forall k :: 0 <= k < 8 ==> len[7 - k] == ByteOf(n, k)
  {
    forall k | 0 <= k < 8
      ensures BigEndian(n, 8)[7 - k] == ByteOf(n, k)
    {
      BigEndianAt(n, 8, k);
    }
  }

  /** Hashing in pieces is hashing the concatenation, whatever the pieces are. */
  method HashPieces(pieces: seq<seq<Byte>>) returns (out: seq<Byte>)
    requires |Concat(pieces)| < 0x2000_0000_0000_0000
    ensures out == Digest(Concat(pieces))
  {
    hide Digest;
    var ctx := new Context();
    var i := 0;
    assert pieces[0..] == pieces && [] + Concat(pieces) == Concat(pieces);
    while i < |pieces|
      invariant i <= |pieces| && ctx.Valid() && fresh(ctx) && fresh(ctx.state) && fresh(ctx.data)
      invariant ctx.msg + Concat(pieces[i..]) == Concat(pieces)
    {
      assert pieces[i..][1..] == pieces[i + 1..];
      assert ctx.msg + (pieces[i] + Concat(pieces[i + 1..])) == ctx.msg + pieces[i] + Concat(pieces[i + 1..]);
      ctx.Update(pieces[i]);
      i := i + 1;
    }
    assert ctx.msg + [] == ctx.msg;
    out := ctx.Final();
  }

  function Concat(pieces: seq<seq<Byte>>): seq<Byte> {
    if pieces == [] then [] else pieces[0] + Concat(pieces[1..])
  }

  method DigestOf(data: seq<Byte>) returns (out: seq<Byte>)
    requires |data| < 0x2000_0000_0000_0000
    ensures out == Digest(data)
  {
    hide Digest;
    var ctx := new Context();
    ctx.Update(data);
    assert [] + data == data;
    out := ctx.Final();
  }

  /** bc_hmac_sha256: a long key is hashed first, then the inner and the outer hash. */
  method Hmac(key: seq<Byte>, msg: seq<Byte>) returns (out: seq<Byte>)
    requires |key| < 0x2000_0000_0000_0000 && |msg| + 64 < 0x2000_0000_0000_0000
    ensures out == HmacOf(key, msg)
  {
    hide Digest;
    var k := key;
    if |key| > 64 {
      k := DigestOf(key);
    }
    k := k + Zeros(64 - |k|);
    assert k == BlockKey(key) by { KeyIs(key, k); }
    hide XorWith, BlockKey;
    var inner := DigestOfTwo(XorWith(k, 0x36), msg);
    out := DigestOfTwo(XorWith(k, 0x5c), inner);
  }

  lemma KeyIs(key: seq<Byte>, k: seq<Byte>)
    requires var short := if |key| > 64 then Digest(key) else key; k == short + Zeros(64 - |short|)
    ensures k == BlockKey(key)
  {
    hide Digest;
  }

  /** One context fed a prefix and a text. */
  method DigestOfTwo(prefix: seq<Byte>, text: seq<Byte>) returns (out: seq<Byte>)
    requires |prefix| + |text| < 0x2000_0000_0000_0000
    ensures out == Digest(prefix + text)
  {
    hide Digest;
    var ctx := new Context();
    ctx.Update(prefix);
    ctx.Update(text);
    assert [] + prefix + text == prefix + text;
    out := ctx.Final();
  }
}
