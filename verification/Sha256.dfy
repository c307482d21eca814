/** FIPS 180-4 SHA-256 as the standard states it: sections 4.1.2, 4.2.2, 5.1.1, 5.3.3 and 6.2.2. */
module Fips180 {
  import opened Prelude

  const K: seq<seq<bv32>> := [
    [0x428a2f98, 0x71374491, 0xb5c0fbcf, 0xe9b5dba5, 0x3956c25b, 0x59f111f1, 0x923f82a4, 0xab1c5ed5],
    [0xd807aa98, 0x12835b01, 0x243185be, 0x550c7dc3, 0x72be5d74, 0x80deb1fe, 0x9bdc06a7, 0xc19bf174],
    [0xe49b69c1, 0xefbe4786, 0x0fc19dc6, 0x240ca1cc, 0x2de92c6f, 0x4a7484aa, 0x5cb0a9dc, 0x76f988da],
    [0x983e5152, 0xa831c66d, 0xb00327c8, 0xbf597fc7, 0xc6e00bf3, 0xd5a79147, 0x06ca6351, 0x14292967],
    [0x27b70a85, 0x2e1b2138, 0x4d2c6dfc, 0x53380d13, 0x650a7354, 0x766a0abb, 0x81c2c92e, 0x92722c85],
    [0xa2bfe8a1, 0xa81a664b, 0xc24b8b70, 0xc76c51a3, 0xd192e819, 0xd6990624, 0xf40e3585, 0x106aa070],
    [0x19a4c116, 0x1e376c08, 0x2748774c, 0x34b0bcb5, 0x391c0cb3, 0x4ed8aa4a, 0x5b9cca4f, 0x682e6ff3],
    [0x748f82ee, 0x78a5636f, 0x84c87814, 0x8cc70208, 0x90befffa, 0xa4506ceb, 0xbef9a3f7, 0xc67178f2]]

  const H0: seq<bv32> := [
    0x6a09e667, 0xbb67ae85, 0x3c6ef372, 0xa54ff53a, 0x510e527f, 0x9b05688c, 0x1f83d9ab, 0x5be0cd19]

  function Constant(t: nat): bv32
    requires t < 64
  {
    K[t / 8][t % 8]
  }

  // Section 4.1.2; ROTR is the rotation of section 3.2.
  function Ch(x: bv32, y: bv32, z: bv32): bv32 { (x & y) ^ ((!x) & z) }

  function Maj(x: bv32, y: bv32, z: bv32): bv32 { (x & y) ^ (x & z) ^ (y & z) }

  function BigSigma0(x: bv32): bv32 { x.RotateRight(2) ^ x.RotateRight(13) ^ x.RotateRight(22) }

  function BigSigma1(x: bv32): bv32 { x.RotateRight(6) ^ x.RotateRight(11) ^ x.RotateRight(25) }

  function SmallSigma0(x: bv32): bv32 { x.RotateRight(7) ^ x.RotateRight(18) ^ (x >> 3) }

  function SmallSigma1(x: bv32): bv32 { x.RotateRight(17) ^ x.RotateRight(19) ^ (x >> 10) }

  /** Addition modulo 2^32 (`wrapping_add`). */
  function Add(x: bv32, y: bv32): bv32 { x + y }

  /** Section 3.2: a rotation to the right carries the low bits to the top. */
  lemma RotationsAreShifts(x: bv32)
    ensures BigSigma0(x) == ((x >> 2) | (x << 30)) ^ ((x >> 13) | (x << 19)) ^ ((x >> 22) | (x << 10))
    ensures BigSigma1(x) == ((x >> 6) | (x << 26)) ^ ((x >> 11) | (x << 21)) ^ ((x >> 25) | (x << 7))
    ensures SmallSigma0(x) == ((x >> 7) | (x << 25)) ^ ((x >> 18) | (x << 14)) ^ (x >> 3)
    ensures SmallSigma1(x) == ((x >> 17) | (x << 15)) ^ ((x >> 19) | (x << 13)) ^ (x >> 10)
  {
  }

  /** Ch takes the bits of y where x has ones, and those of z elsewhere. */
  lemma Choice(x: bv32, y: bv32, z: bv32)
    ensures Ch(x, y, z) & x == y & x && Ch(x, y, z) & !x == z & !x
  {
  }

  /** Maj takes the bit that two of the three agree on. */
  lemma Majority(x: bv32, y: bv32)
    ensures Maj(x, y, y) == y && Maj(y, x, y) == y && Maj(y, y, x) == y
  {
  }

  // Words are big-endian (section 3.1).
  function WordOf(b: seq<u8>): bv32
    requires |b| == 4
  {
    ((b[0] as bv32) << 24) | ((b[1] as bv32) << 16) | ((b[2] as bv32) << 8) | (b[3] as bv32)
  }

  function WordBytes(w: bv32): (r: seq<u8>)
    ensures |r| == 4
  {
    [((w >> 24) & 0xff) as int, ((w >> 16) & 0xff) as int, ((w >> 8) & 0xff) as int, (w & 0xff) as int]
  }

  /** The first byte of a word is the most significant. */
  lemma WordsAreBigEndian()
    ensures WordOf([0x12, 0x34, 0x56, 0x78]) == 0x12345678
    ensures WordBytes(0x12345678) == [0x12, 0x34, 0x56, 0x78]
  {
  }

  /** The message schedule W_t of section 6.2.2, step 1 (the four summands in the code's order). */
  function Schedule(block: seq<u8>, t: nat): bv32
    requires |block| == 64 && t < 64
  {
    if t < 16 then WordOf(block[4 * t..4 * t + 4])
    else Add(Add(Add(Schedule(block, t - 16), SmallSigma0(Schedule(block, t - 15))), Schedule(block, t - 7)),
             SmallSigma1(Schedule(block, t - 2)))
  }

  datatype Working = Working(a: bv32, b: bv32, c: bv32, d: bv32, e: bv32, f: bv32, g: bv32, h: bv32)

  /** One round of section 6.2.2, step 3. */
  function Round(v: Working, k: bv32, w: bv32): Working {
    var t1 := Add(Add(Add(Add(v.h, BigSigma1(v.e)), Ch(v.e, v.f, v.g)), k), w);
    var t2 := Add(BigSigma0(v.a), Maj(v.a, v.b, v.c));
    Working(Add(t1, t2), v.a, v.b, v.c, Add(v.d, t1), v.e, v.f, v.g)
  }

  function Rounds(v: Working, block: seq<u8>, t: nat): Working
    requires |block| == 64 && t <= 64
  {
    if t == 0 then v else Round(Rounds(v, block, t - 1), Constant(t - 1), Schedule(block, t - 1))
  }

  function Start(h: seq<bv32>): Working
    requires |h| == 8
  {
    Working(h[0], h[1], h[2], h[3], h[4], h[5], h[6], h[7])
  }

  function Registers(v: Working): (r: seq<bv32>)
    ensures |r| == 8
  {
    [v.a, v.b, v.c, v.d, v.e, v.f, v.g, v.h]
  }

  /** Step 4: each register is added to its word of the hash value. */
  function Sums(h: seq<bv32>, v: Working): (r: seq<bv32>)
    requires |h| == 8
    ensures |r| == 8
  {
    var registers := Registers(v);
    seq(8, i requires 0 <= i < 8 => Add(h[i], registers[i]))
  }

  /** The intermediate hash value after one block: section 6.2.2, steps 2 to 4. */
  function Compress(h: seq<bv32>, block: seq<u8>): (r: seq<bv32>)
    requires |h| == 8 && |block| == 64
    ensures |r| == 8
  {
    Sums(h, Rounds(Start(h), block, 64))
  }

  function Initial(): (r: seq<bv32>)
    ensures |r| == 8
  {
    H0
  }

  /** The hash value after the 64-byte blocks of `m`, in order. */
  function HashBlocks(m: seq<u8>): (r: seq<bv32>)
    requires |m| % 64 == 0
    ensures |r| == 8
  {
    if m == [] then Initial() else Compress(HashBlocks(m[..|m| - 64]), m[|m| - 64..])
  }

  /** Zero bytes between the marker and the length: the least k with l + 1 + k = 56 modulo 64. */
  function ZeroCount(n: nat): (k: nat)
    ensures k < 64 && (n + 1 + k) % 64 == 56
  {
    (119 - n % 64) % 64
  }

  /** ZeroCount is the first count at which the length field fits. */
  lemma ZeroCountLeast(n: nat, z: nat)
    requires z <= ZeroCount(n)
    ensures (n + 1 + z) % 64 == 56 <==> z == ZeroCount(n)
  {
  }

  function Zeros(n: nat): (r: seq<u8>)
    ensures |r| == n
    ensures forall i | 0 <= i < n :: r[i] == 0
  {
    seq(n, _ => 0)
  }

  /** `m` padded with a marker, zeros and an 8-byte big-endian length field. */
  function PadWith(m: seq<u8>, bits: nat): (r: seq<u8>)
    ensures |r| % 64 == 0
  {
    m + [0x80] + Zeros(ZeroCount(|m|)) + BeBytes(bits, 8)
  }

  /** Section 5.1.1, for the lengths the standard admits (below 2^64 bits). */
  function Pad(m: seq<u8>): (r: seq<u8>)
    requires 8 * |m| < U64_LIMIT
    ensures |r| % 64 == 0
  {
    PadWith(m, 8 * |m|)
  }

  function Output(h: seq<bv32>): (r: seq<u8>)
    requires |h| == 8
    ensures |r| == 32
  {
    WordBytes(h[0]) + WordBytes(h[1]) + WordBytes(h[2]) + WordBytes(h[3])
    + WordBytes(h[4]) + WordBytes(h[5]) + WordBytes(h[6]) + WordBytes(h[7])
  }

  /** SHA-256 of a message of fewer than 2^64 bits. */
  function Digest(m: seq<u8>): (r: seq<u8>)
    requires 8 * |m| < U64_LIMIT
    ensures |r| == 32
  {
    Output(HashBlocks(Pad(m)))
  }

  /** The padding keeps every message apart, so the block fold sees distinct inputs for distinct messages. */
  lemma PadInjective(m: seq<u8>, n: seq<u8>)
    requires 8 * |m| < U64_LIMIT && 8 * |n| < U64_LIMIT
    requires Pad(m) == Pad(n)
    ensures m == n
  {
    var p, q := Pad(m), Pad(n);
    assert p[|p| - 8..] == BeBytes(8 * |m|, 8) && q[|q| - 8..] == BeBytes(8 * |n|, 8);
    Pow256Values();
    BeBytesInjective(8 * |m|, 8 * |n|, 8);
    assert p[..|m|] == m && q[..|n|] == n;
  }

  /** Hashing a prefix of whole blocks first and the rest afterwards. */
  lemma HashBlocksStep(m: seq<u8>, block: seq<u8>)
    requires |m| % 64 == 0 && |block| == 64
    ensures HashBlocks(m + block) == Compress(HashBlocks(m), block)
  {
    var p := m + block;
    assert p[..|p| - 64] == m && p[|p| - 64..] == block;
  }
}

/** The streaming hasher of discovery.rs. */
module Sha256 {
  import opened Prelude
  import F = Fips180

  class Sha256 {
    const state: array<bv32>
    const buf: array<u8>
    var bufLen: nat
    var totalLen: u64
    /** The whole blocks already folded into `state`. */
    ghost var hashed: seq<u8>

    ghost predicate Valid()
      reads this, state, buf
    {
      && Shape()
      && totalLen == Wrap64(|hashed| + bufLen)
    }

    ghost predicate Shape()
      reads this, state, buf
    {
      && state.Length == 8 && buf.Length == 64 && bufLen < 64
      && |hashed| % 64 == 0
      && state[..] == F.HashBlocks(hashed)
    }

    /** Everything absorbed since construction. */
    ghost function Message(): seq<u8>
      requires buf.Length == 64 && bufLen <= 64
      reads this, buf
    {
      hashed + buf[..bufLen]
    }

    constructor ()
      ensures Valid() && Message() == []
      ensures fresh(state) && fresh(buf)
    {
      state := new bv32[] [0x6a09e667, 0xbb67ae85, 0x3c6ef372, 0xa54ff53a, 0x510e527f, 0x9b05688c, 0x1f83d9ab,
          0x5be0cd19];
      buf := new u8[64](_ => 0);
      bufLen, totalLen := 0, 0;
      hashed := [];
      new;
      assert state[..] == F.H0;
    }

    /** u32::from_be_bytes */
    static method FromBigEndian(b0: u8, b1: u8, b2: u8, b3: u8) returns (r: bv32)
      ensures r == F.WordOf([b0, b1, b2, b3])
    {
      r := ((b0 as bv32) << 24) | ((b1 as bv32) << 16) | ((b2 as bv32) << 8) | (b3 as bv32);
    }

    /** u32::wrapping_add */
    static method WrappingAdd(x: bv32, y: bv32) returns (r: bv32)
      ensures r == F.Add(x, y)
    {
      r := x + y;
    }

    /** The words the schedule loop combines. */
    static method NextWord(w16: bv32, w15: bv32, w7: bv32, w2: bv32) returns (r: bv32)
      ensures r == F.Add(F.Add(F.Add(w16, F.SmallSigma0(w15)), w7), F.SmallSigma1(w2))
    {
      hide F.Add, F.SmallSigma0, F.SmallSigma1;
      var s0, s1 := Extended(w15, w2);
      r := WrappingAdd(w16, s0);
      r := WrappingAdd(r, w7);
      r := WrappingAdd(r, s1);
    }

    static method Extended(w15: bv32, w2: bv32) returns (s0: bv32, s1: bv32)
      ensures s0 == F.SmallSigma0(w15) && s1 == F.SmallSigma1(w2)
    {
      s0 := w15.RotateRight(7) ^ w15.RotateRight(18) ^ (w15 >> 3);
      s1 := w2.RotateRight(17) ^ w2.RotateRight(19) ^ (w2 >> 10);
    }

    /** The 64 schedule words of a block. */
    static method Expand(block: seq<u8>) returns (w: array<bv32>)
      requires |block| == 64
      ensures fresh(w) && w.Length == 64
      ensures forall t | 0 <= t < 64 :: w[t] == F.Schedule(block, t)
    {
      hide F.Add, F.SmallSigma0, F.SmallSigma1, F.WordOf;
      w := new bv32[64](_ => 0);
      for i := 0 to 16
        invariant forall t | 0 <= t < i :: w[t] == F.Schedule(block, t)
      {
        var base := 4 * i;
        assert block[base..base + 4] == [block[base], block[base + 1], block[base + 2], block[base + 3]];
        w[i] := FromBigEndian(block[base], block[base + 1], block[base + 2], block[base + 3]);
      }
      for i := 16 to 64
        invariant forall t | 0 <= t < i :: w[t] == F.Schedule(block, t)
      {
        w[i] := NextWord(w[i - 16], w[i - 15], w[i - 7], w[i - 2]);
      }
    }

    /** The bit operations of a round on `e`, `f` and `g`. */
    static method MixLow(e: bv32, f: bv32, g: bv32) returns (s1: bv32, ch: bv32)
      ensures s1 == F.BigSigma1(e) && ch == F.Ch(e, f, g)
    {
      s1 := e.RotateRight(6) ^ e.RotateRight(11) ^ e.RotateRight(25);
      ch := (e & f) ^ ((!e) & g);
    }

    /** Those on `a`, `b` and `c`. */
    static method MixHigh(a: bv32, b: bv32, c: bv32) returns (s0: bv32, maj: bv32)
      ensures s0 == F.BigSigma0(a) && maj == F.Maj(a, b, c)
    {
      s0 := a.RotateRight(2) ^ a.RotateRight(13) ^ a.RotateRight(22);
      maj := (a & b) ^ (a & c) ^ (b & c);
    }

    /** The body of the round loop; `v` holds the working variables a to h. */
    static method OneRound(v: F.Working, k: bv32, w: bv32) returns (r: F.Working)
      ensures r == F.Round(v, k, w)
    {
      hide F.Add, F.BigSigma0, F.BigSigma1, F.Ch, F.Maj;
      var s1, ch := MixLow(v.e, v.f, v.g);
      var s0, maj := MixHigh(v.a, v.b, v.c);
      var temp1 := WrappingAdd(v.h, s1);
      temp1 := WrappingAdd(temp1, ch);
      temp1 := WrappingAdd(temp1, k);
      temp1 := WrappingAdd(temp1, w);
      var temp2 := WrappingAdd(s0, maj);
      var a := WrappingAdd(temp1, temp2);
      var e := WrappingAdd(v.d, temp1);
      r := F.Working(a, v.a, v.b, v.c, e, v.e, v.f, v.g);
    }

    static method RunRounds(block: seq<u8>, w: array<bv32>, start: seq<bv32>) returns (v: F.Working)
      requires |block| == 64 && w.Length == 64 && |start| == 8
      requires forall t | 0 <= t < 64 :: w[t] == F.Schedule(block, t)
      ensures v == F.Rounds(F.Start(start), block, 64)
    {
      hide F.Round, F.Constant, F.Schedule;
      v := F.Working(start[0], start[1], start[2], start[3], start[4], start[5], start[6], start[7]);
      for i := 0 to 64
        invariant v == F.Rounds(F.Start(start), block, i)
      {
        v := OneRound(v, F.Constant(i), w[i]);
      }
    }

    /** The sums that end a compression. */
    static method AddWords(h: seq<bv32>, v: F.Working) returns (r: seq<bv32>)
      requires |h| == 8
      ensures r == F.Sums(h, v)
    {
      hide F.Add;
      var a := WrappingAdd(h[0], v.a);
      var b := WrappingAdd(h[1], v.b);
      var c := WrappingAdd(h[2], v.c);
      var d := WrappingAdd(h[3], v.d);
      var e := WrappingAdd(h[4], v.e);
      var f := WrappingAdd(h[5], v.f);
      var g := WrappingAdd(h[6], v.g);
      var i := WrappingAdd(h[7], v.h);
      r := [a, b, c, d, e, f, g, i];
    }

    /** One compression of `block` into the state. */
    method Compress(block: seq<u8>)
      requires state.Length == 8 && |block| == 64
      modifies state
      ensures state[..] == F.Compress(old(state[..]), block)
    {
      hide F.Rounds, F.Start, F.Sums;
      var w := Expand(block);
      var v := RunRounds(block, w, state[..]);
      var words := AddWords(state[..], v);
      forall i | 0 <= i < 8 {
        state[i] := words[i];
      }
    }

    /** Fold one block into the state. */
    method Absorb(block: seq<u8>)
      requires state.Length == 8 && |hashed| % 64 == 0 && state[..] == F.HashBlocks(hashed)
      requires |block| == 64
      modifies this`hashed, state
      ensures hashed == old(hashed) + block && |hashed| % 64 == 0
      ensures state[..] == F.HashBlocks(hashed)
    {
      hide F.HashBlocks, F.Compress, F.Initial;
      Compress(block);
      F.HashBlocksStep(hashed, block);
      hashed := hashed + block;
    }

    method CopyInto(at: nat, bytes: seq<u8>)
      requires buf.Length == 64 && at + |bytes| <= 64
      modifies buf
      ensures buf[..at + |bytes|] == old(buf[..at]) + bytes
    {
      for i := 0 to |bytes|
        invariant buf[..at + i] == old(buf[..at]) + bytes[..i]
      {
        buf[at + i] := bytes[i];
      }
    }

    /** The `if self.buf_len > 0` part of `update`. */
    method FillPartial(data: seq<u8>) returns (rest: seq<u8>)
      requires Shape()
      modifies this`bufLen, this`hashed, state, buf
      ensures Shape() && (bufLen > 0 ==> rest == [])
      ensures Message() + rest == old(Message()) + data
    {
      hide F.HashBlocks;
      rest := data;
      if bufLen > 0 {
        var take := Min(64 - bufLen, |data|);
        CopyInto(bufLen, data[..take]);
        bufLen := bufLen + take;
        rest := data[take..];
        assert data == data[..take] + rest;
        if bufLen == 64 {
          assert buf[..] == buf[..64];
          Absorb(buf[..]);
          bufLen := 0;
        }
      }
    }

    /** The `if !data.is_empty()` part of `update`. */
    method KeepRest(rest: seq<u8>)
      requires Shape() && |rest| < 64 && (bufLen > 0 ==> rest == [])
      modifies this`bufLen, buf
      ensures Shape()
      ensures Message() == old(Message()) + rest
    {
      hide F.HashBlocks;
      if |rest| > 0 {
        CopyInto(0, rest);
        bufLen := |rest|;
        assert buf[..bufLen] == rest;
      }
    }

    /** Absorb `data`: fill the partial block, compress whole blocks, keep the rest. */
    method Update(data: seq<u8>)
      requires Valid()
      modifies this, state, buf
      ensures Valid()
      ensures Message() == old(Message()) + data
    {
      hide F.HashBlocks, Wrap64;
      ghost var m := Message();
      totalLen := AddLength(|m|, |data|, totalLen);
      var rest := FillPartial(data);
      rest := AbsorbBlocks(rest);
      KeepRest(rest);
      assert |Message()| == |m + data|;
    }

    static function AddLength(ghost n: nat, k: nat, total: u64): (r: u64)
      requires total == Wrap64(n)
      ensures r == Wrap64(n + k)
    {
      Wrap64(total + k)
    }

    /** The `while data.len() >= 64` loop of `update`. */
    method AbsorbBlocks(data: seq<u8>) returns (rest: seq<u8>)
      requires Shape() && (bufLen > 0 ==> data == [])
      modifies this`hashed, state
      ensures Shape() && |rest| < 64
      ensures Message() + rest == old(Message()) + data
      ensures bufLen > 0 ==> rest == []
    {
      hide F.HashBlocks;
      rest := data;
      while |rest| >= 64
        invariant Shape() && (bufLen > 0 ==> rest == [])
        invariant Message() + rest == old(Message()) + data
      {
        ghost var r0 := rest;
        Absorb(rest[..64]);
        rest := rest[64..];
        assert r0 == r0[..64] + rest;
      }
    }

    /** Zero bytes until the length field ends a block: as many as the standard asks for `n` bytes. */
    static method ZeroFill(start: seq<u8>, ghost n: nat) returns (tail: seq<u8>)
      requires |start| <= n + 1 && (n + 1 - |start|) % 64 == 0
      ensures tail == start + F.Zeros(F.ZeroCount(n)) && |tail| % 64 == 56
    {
      hide F.ZeroCount;
      tail := start;
      ghost var z: nat := 0;
      while |tail| % 64 != 56
        invariant tail == start + F.Zeros(z)
        invariant z <= F.ZeroCount(n)
        decreases F.ZeroCount(n) - z
      {
        F.ZeroCountLeast(n, z);
        SameResidue(|tail|, n + 1 + z);
        tail := tail + [0];
        z := z + 1;
        assert F.Zeros(z) == F.Zeros(z - 1) + [0];
      }
      F.ZeroCountLeast(n, z);
      SameResidue(|tail|, n + 1 + z);
    }

    static lemma SameResidue(a: nat, b: nat)
      requires a <= b && (b - a) % 64 == 0
      ensures a % 64 == b % 64
    {
    }

    /** The bytes left to compress when the message ends. */
    method Tail() returns (tail: seq<u8>)
      requires Valid()
      ensures |tail| % 64 == 0
      ensures hashed + tail == F.PadWith(Message(), Wrap64(8 * |Message()|))
    {
      hide F.HashBlocks, F.ZeroCount, Wrap64;
      ghost var n := |Message()|;
      var bitLen := BeBytes(BitLength(n, totalLen), 8);
      tail := ZeroFill(buf[..bufLen] + [0x80], n);
      tail := tail + bitLen;
      assert hashed + tail == Message() + [0x80] + F.Zeros(F.ZeroCount(n)) + bitLen;
    }

    static function BitLength(ghost n: nat, total: u64): (r: u64)
      requires total == Wrap64(n)
      ensures r == Wrap64(8 * n)
    {
      assert 8 * n == 0x1_0000_0000_0000_0000 * (8 * (n / 0x1_0000_0000_0000_0000)) + 8 * total;
      Wrap64(total * 8)
    }

    /** Pad, compress the last blocks and emit the digest. */
    method Finalize() returns (out: seq<u8>)
      requires Valid()
      modifies this, state
      ensures out == DigestOf(old(Message()))
    {
      hide F.HashBlocks, F.Output, F.PadWith;
      var tail := Tail();
      ghost var padded := hashed + tail;
      bufLen := 0;
      assert Message() == hashed;
      var rest := AbsorbBlocks(tail);
      assert |rest| % 64 == 0 && rest == [] by {
        assert |Message() + rest| == |padded|;
      }
      assert hashed == Message() + rest == padded;
      out := Bytes();
    }

    /** The state's words, in order. */
    method Bytes() returns (out: seq<u8>)
      requires state.Length == 8
      ensures out == F.Output(state[..])
    {
      hide F.WordBytes;
      out := [];
      for i := 0 to 8
        invariant |out| == 4 * i && out == F.Output(state[..])[..4 * i]
      {
        OutputWord(state[..], i);
        var word := ToBigEndian(state[i]);
        out := out + word;
      }
    }

    /** u32::to_be_bytes */
    static method ToBigEndian(w: bv32) returns (r: seq<u8>)
      ensures r == F.WordBytes(w)
    {
      r := [((w >> 24) & 0xff) as int, ((w >> 16) & 0xff) as int, ((w >> 8) & 0xff) as int, (w & 0xff) as int];
    }

    static lemma OutputWord(h: seq<bv32>, i: nat)
      requires |h| == 8 && i < 8
      ensures F.Output(h)[..4 * i + 4] == F.Output(h)[..4 * i] + F.WordBytes(h[i])
    {
      hide F.WordBytes;
    }
  }

  /** What the hasher returns for a message of any length: the length field wraps at 2^64 bits. */
  function DigestOf(m: seq<u8>): (r: seq<u8>)
    ensures |r| == 32
  {
    F.Output(F.HashBlocks(F.PadWith(m, Wrap64(8 * |m|))))
  }

  /** On the messages the standard admits, that is the SHA-256 digest. */
  lemma DigestOfIsSha256(m: seq<u8>)
    requires 8 * |m| < 0x1_0000_0000_0000_0000
    ensures DigestOf(m) == F.Digest(m)
  {
    hide F.HashBlocks, F.Output, F.PadWith;
    assert Wrap64(8 * |m|) == 8 * |m|;
  }

  /** Any way of cutting a message into `update` calls gives the digest of the whole message. */
  method DigestChunks(chunks: seq<seq<u8>>) returns (out: seq<u8>)
    ensures out == DigestOf(Flatten(chunks))
    ensures 8 * |Flatten(chunks)| < U64_LIMIT ==> out == F.Digest(Flatten(chunks))
  {
    hide F.HashBlocks, F.Digest, F.Output, DigestOf;
    var h := new Sha256();
    for i := 0 to |chunks|
      invariant h.buf.Length == 64 && h.bufLen <= 64
      invariant h.Valid() && fresh(h) && fresh(h.state) && fresh(h.buf)
      invariant h.Message() == Flatten(chunks[..i])
    {
      h.Update(chunks[i]);
      assert chunks[..i + 1][..i] == chunks[..i];
    }
    assert chunks[..|chunks|] == chunks;
    out := h.Finalize();
    if 8 * |Flatten(chunks)| < U64_LIMIT {
      DigestOfIsSha256(Flatten(chunks));
    }
  }

  /** `Sha256::digest`: one update, then finalize. */
  method Digest(data: seq<u8>) returns (out: seq<u8>)
    ensures out == DigestOf(data)
  {
    hide F.HashBlocks, DigestOf;
    var h := new Sha256();
    h.Update(data);
    assert h.Message() == data;
    out := h.Finalize();
  }
}
