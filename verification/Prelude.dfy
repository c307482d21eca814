/** Machine integers, result types and little/big-endian byte strings shared by every module. */
module Prelude {

  /** Usable with `:-`: a None propagates. */
  datatype Option<+T> = None | Some(value: T) {
    predicate IsFailure() { None? }

    function PropagateFailure<U>(): Option<U>
      requires None?
    {
      None
    }

    function Extract(): T
      requires Some?
    {
      value
    }
  }

  datatype Result<+T, +E> = Ok(value: T) | Err(error: E)

  const U32_LIMIT: nat := 0x1_0000_0000
  const U64_LIMIT: nat := 0x1_0000_0000_0000_0000
  const I64_LIMIT: nat := 0x8000_0000_0000_0000

  type u8 = x: int | 0 <= x < 0x100
  type u16 = x: int | 0 <= x < 0x1_0000
  type u32 = x: int | 0 <= x < 0x1_0000_0000
  type u64 = x: int | 0 <= x < 0x1_0000_0000_0000_0000
  type i64 = x: int | -0x8000_0000_0000_0000 <= x < 0x8000_0000_0000_0000

  /** A 64-bit target: usize and u64 have the same range. */
  type usize = u64

  function Min(a: int, b: int): int { if a <= b then a else b }

  function Max(a: int, b: int): int { if a >= b then a else b }

  /** u64::checked_add */
  function CheckedAdd(a: u64, b: u64): Option<u64> {
    if a + b < 0x1_0000_0000_0000_0000 then Some(a + b) else None
  }

  /** usize::checked_mul */
  function CheckedMul(a: usize, b: usize): Option<usize> {
    if a * b < 0x1_0000_0000_0000_0000 then Some(a * b) else None
  }

  /** u64::wrapping arithmetic */
  function Wrap64(n: nat): u64 { n % 0x1_0000_0000_0000_0000 }

  /** u64::saturating_add */
  function SaturatingAdd(a: u64, b: u64): (r: u64)
    ensures r == Min(a + b, 0xFFFF_FFFF_FFFF_FFFF)
  {
    if a + b < 0x1_0000_0000_0000_0000 then a + b else 0xFFFF_FFFF_FFFF_FFFF
  }

  /** u64::saturating_sub */
  function SaturatingSub(a: u64, b: u64): (r: u64)
    ensures r == Max(a - b, 0)
  {
    if b <= a then a - b else 0
  }

  /** usize::saturating_mul */
  function SaturatingMul(a: usize, b: usize): (r: usize)
    ensures r == Min(a * b, 0xFFFF_FFFF_FFFF_FFFF)
  {
    if a * b < 0x1_0000_0000_0000_0000 then a * b else 0xFFFF_FFFF_FFFF_FFFF
  }

  function Pow256(n: nat): (r: nat)
    ensures r >= 1
  {
    if n == 0 then 1 else 256 * Pow256(n - 1)
  }

  /** The `n` low-order bytes of `v`, least significant first (`to_le_bytes`). */
  function LeBytes(v: nat, n: nat): (r: seq<u8>)
    ensures |r| == n
  {
    if n == 0 then [] else [v % 256] + LeBytes(v / 256, n - 1)
  }

  /** The value of a little-endian byte string (`from_le_bytes`). */
  function FromLe(b: seq<u8>): nat {
    if b == [] then 0 else b[0] + 256 * FromLe(b[1..])
  }

  lemma {:induction false} FromLeOfLeBytes(v: nat, n: nat)
    requires v < Pow256(n)
    ensures FromLe(LeBytes(v, n)) == v
  {
    if n > 0 {
      FromLeOfLeBytes(v / 256, n - 1);
      assert LeBytes(v, n)[1..] == LeBytes(v / 256, n - 1);
    }
  }

  lemma SplitByte(low: u8, high: nat)
    ensures (low + 256 * high) % 256 == low && (low + 256 * high) / 256 == high
  {
  }

  lemma {:induction false} LeBytesOfFromLe(b: seq<u8>)
    ensures FromLe(b) < Pow256(|b|)
    ensures LeBytes(FromLe(b), |b|) == b
  {
    if b != [] {
      LeBytesOfFromLe(b[1..]);
      SplitByte(b[0], FromLe(b[1..]));
      assert b == [b[0]] + b[1..];
    }
  }

  lemma Pow256Values()
    ensures Pow256(1) == 0x100
    ensures Pow256(2) == 0x1_0000
    ensures Pow256(4) == 0x1_0000_0000
    ensures Pow256(8) == 0x1_0000_0000_0000_0000
  {
    assert Pow256(2) == 256 * Pow256(1);
    assert Pow256(3) == 256 * Pow256(2);
    assert Pow256(4) == 256 * Pow256(3);
    assert Pow256(5) == 256 * Pow256(4);
    assert Pow256(6) == 256 * Pow256(5);
    assert Pow256(7) == 256 * Pow256(6);
    assert Pow256(8) == 256 * Pow256(7);
  }

  /** The `n` low-order bytes of `v`, most significant first (`to_be_bytes`). */
  function BeBytes(v: nat, n: nat): (r: seq<u8>)
    ensures |r| == n
  {
    if n == 0 then [] else BeBytes(v / 256, n - 1) + [v % 256]
  }

  lemma {:induction false} BeBytesInjective(v: nat, w: nat, n: nat)
    requires v < Pow256(n) && w < Pow256(n)
    requires BeBytes(v, n) == BeBytes(w, n)
    ensures v == w
  {
    if n > 0 {
      var a, b := BeBytes(v / 256, n - 1), BeBytes(w / 256, n - 1);
      assert a == BeBytes(v, n)[..n - 1] && b == BeBytes(w, n)[..n - 1];
      assert BeBytes(v, n)[n - 1] == v % 256 && BeBytes(w, n)[n - 1] == w % 256;
      BeBytesInjective(v / 256, w / 256, n - 1);
    }
  }

  // ---- decimal numerals ----

  /** The decimal digits of a number, without leading zeros. */
  function Digits(n: nat): (r: seq<u8>)
    ensures |r| <= n + 1
  {
    if n < 10 then [0x30 + n] else Digits(n / 10) + [0x30 + n % 10]
  }

  /** The number a decimal numeral stands for. */
  function DecimalValue(digits: seq<u8>): int {
    if digits == [] then 0 else 10 * DecimalValue(digits[..|digits| - 1]) + digits[|digits| - 1] - 0x30
  }

  predicate AllDigits(s: seq<u8>) {
    forall i | 0 <= i < |s| :: 0x30 <= s[i] <= 0x39
  }

  lemma {:induction false} DigitsValue(n: nat)
    ensures DecimalValue(Digits(n)) == n && Digits(n) != [] && (n > 0 ==> Digits(n)[0] != 0x30)
    ensures AllDigits(Digits(n))
  {
    if n >= 10 {
      DigitsValue(n / 10);
      assert Digits(n)[..|Digits(n)| - 1] == Digits(n / 10);
    } else {
      assert DecimalValue([]) == 0 && Digits(n)[..0] == [];
    }
  }

  /** `k` leading zeros. */
  function LeadingZeros(k: nat): (r: seq<u8>)
    ensures |r| == k
  {
    seq(k, _ => 0x30)
  }

  /** Every numeral is the one without leading zeros of its value, after some leading zeros. */
  lemma {:induction false} NumeralsAreDigits(s: seq<u8>) returns (k: nat)
    requires s != [] && AllDigits(s)
    ensures DecimalValue(s) >= 0
    ensures k < |s| && s == LeadingZeros(k) + Digits(DecimalValue(s))
  {
    hide Digits, DecimalValue, AllDigits, LeadingZeros;
    var init, c := s[..|s| - 1], s[|s| - 1];
    assert s == init + [c];
    LastDigit(init, c);
    if init == [] {
      k := 0;
      OneDigit(c);
      NoZeros();
    } else {
      k := NumeralsAreDigits(init);
      var n := DecimalValue(init);
      if n == 0 {
        OneDigit(0x30);
        OneDigit(c);
        OneMoreZero(k);
        k := k + 1;
      } else {
        MoreDigits(n, c);
        assert LeadingZeros(k) + Digits(n) + [c] == LeadingZeros(k) + (Digits(n) + [c]);
      }
    }
  }

  lemma LastDigit(init: seq<u8>, c: u8)
    requires AllDigits(init + [c])
    ensures AllDigits(init) && 0x30 <= c <= 0x39
    ensures DecimalValue(init + [c]) == 10 * DecimalValue(init) + c - 0x30 && DecimalValue([]) == 0
  {
    var s := init + [c];
    assert s[..|init|] == init && s[|init|] == c && forall i | 0 <= i < |init| :: init[i] == s[i];
  }

  lemma NoZeros()
    ensures LeadingZeros(0) == []
  {
  }

  lemma OneMoreZero(k: nat)
    ensures LeadingZeros(k) + [0x30] == LeadingZeros(k + 1)
  {
  }

  lemma OneDigit(c: u8)
    requires 0x30 <= c <= 0x39
    ensures Digits(c - 0x30) == [c]
  {
  }

  lemma MoreDigits(n: nat, c: u8)
    requires n > 0 && 0x30 <= c <= 0x39
    ensures Digits(10 * n + c - 0x30) == Digits(n) + [c]
  {
  }

  lemma {:induction false} LeadingZerosValue(k: nat, s: seq<u8>)
    ensures DecimalValue(LeadingZeros(k) + s) == DecimalValue(s)
    decreases |s|, k
  {
    var all := LeadingZeros(k) + s;
    if s == [] {
      if k > 0 {
        assert all[..k - 1] == LeadingZeros(k - 1) + [];
        LeadingZerosValue(k - 1, []);
      } else {
        assert all == s;
      }
    } else {
      assert all[..|all| - 1] == LeadingZeros(k) + s[..|s| - 1];
      LeadingZerosValue(k, s[..|s| - 1]);
    }
  }

  /** The concatenation of a list of byte strings. */
  function Flatten<T>(parts: seq<seq<T>>): seq<T> {
    if parts == [] then [] else Flatten(parts[..|parts| - 1]) + parts[|parts| - 1]
  }
}
