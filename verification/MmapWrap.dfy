/** metal_host.rs `mapped_wrap_for` and `compose_bind_offset`: page arithmetic with saturating usize operations. */
module MmapWrap {
  import opened Prelude
  import opened Arithmetic

  /** usize saturation of an exact sum or product. */
  function Saturate(n: nat): usize {
    if n < 0x1_0000_0000_0000_0000 then n else 0xFFFF_FFFF_FFFF_FFFF
  }

  /** usize::div_ceil times the divisor, before saturation. */
  function RoundUp(n: nat, m: nat): nat
    requires m > 0
  {
    (n / m + if n % m == 0 then 0 else 1) * m
  }

  predicate IsPowerOfTwo(n: nat) {
    n == 1 || (n > 0 && n % 2 == 0 && IsPowerOfTwo(n / 2))
  }

  function Power(k: nat): nat {
    if k == 0 then 1 else 2 * Power(k - 1)
  }

  /** The page sizes the code insists on are the powers of two. */
  lemma PowerOfTwoIff(n: nat)
    ensures IsPowerOfTwo(n) <==> exists k :: n == Power(k)
  {
    if IsPowerOfTwo(n) {
      var k := Exponent(n);
    }
    if k: nat :| n == Power(k) {
      PowersPass(k);
    }
  }

  lemma {:induction false} Exponent(n: nat) returns (k: nat)
    requires IsPowerOfTwo(n)
    ensures n == Power(k)
  {
    if n == 1 {
      k := 0;
    } else {
      k := Exponent(n / 2);
      k := k + 1;
    }
  }

  lemma {:induction false} PowersPass(k: nat)
    ensures Power(k) > 0 && IsPowerOfTwo(Power(k))
  {
    if k > 0 {
      PowersPass(k - 1);
      assert Power(k) / 2 == Power(k - 1);
    }
  }

  /** A read-only mapping: where it starts, its page size, and its bytes (zero past the end of the file). */
  datatype MappedFile = MappedFile(start: usize, page: usize, bytes: seq<u8>)

  /**
   * Memory that ends below the last address, so that no end of it saturates. Whole pages of more than one byte at an
   * aligned address always do when their end is an address at all (AlignedIsMapping).
   */
  type Mapping = m: MappedFile | m.start + |m.bytes| < 0xFFFF_FFFF_FFFF_FFFF
    witness MappedFile(0, 1, [])

  function End(m: MappedFile): usize {
    Saturate(m.start + |m.bytes|)
  }

  /** `MappedWeightFile::contains` */
  predicate Contains(m: MappedFile, p: usize, len: nat) {
    var q := Saturate(p + len);
    m.start <= p && p <= q && q <= End(m)
  }

  /** A page-rounded piece of a mapping: its address, length, and where the wrapped slice starts in it. */
  datatype Wrap = Wrap(file: MappedFile, ptr: usize, len: usize, offset: usize)

  /** The wrap of a slice that a mapping contains. */
  function WrapIn(m: MappedFile, addr: usize, len: nat): Option<Wrap> {
    if m.page == 0 || !IsPowerOfTwo(m.page) then None
    else
      var offset := addr % m.page;
      var ptr := addr - offset;
      if ptr < m.start then None
      else
        var region := Max(Saturate(RoundUp(len, 4)), len);
        var need := Saturate(offset + region);
        var pageLen := Saturate(RoundUp(need, m.page));
        if Saturate(ptr + pageLen) > End(m) then None
        else Some(Wrap(m, ptr, pageLen, offset))
  }

  /** The first mapping that contains the slice decides. */
  function WrapFor(maps: seq<MappedFile>, addr: usize, len: nat): Option<Wrap> {
    if len == 0 || maps == [] then None
    else if Contains(maps[0], addr, len) then WrapIn(maps[0], addr, len)
    else WrapFor(maps[1..], addr, len)
  }

  /** `mapped_wrap_for` */
  method MappedWrapFor(maps: seq<MappedFile>, addr: usize, len: nat) returns (w: Option<Wrap>)
    ensures w == WrapFor(maps, addr, len)
  {
    hide Contains, WrapIn;
    if len == 0 {
      return None;
    }
    for k := 0 to |maps|
      invariant WrapFor(maps, addr, len) == WrapFor(maps[k..], addr, len)
    {
      assert maps[k..][1..] == maps[k + 1..];
      if Contains(maps[k], addr, len) {
        return WrapIn(maps[k], addr, len);
      }
    }
    return None;
  }

  // ---- rounding ----

  lemma RoundUpFacts(n: nat, m: nat)
    requires m > 0
    ensures n <= RoundUp(n, m) < n + m && RoundUp(n, m) % m == 0
  {
    var q := n / m + if n % m == 0 then 0 else 1;
    assert n == n / m * m + n % m;
    assert q * m == n / m * m + (if n % m == 0 then 0 else m);
    MultipleMod(q, m);
  }

  /** A multiple of `m` that covers `n` covers its rounding. */
  lemma RoundUpLeast(n: nat, m: nat, k: nat)
    requires m > 0 && n <= k && k % m == 0
    ensures RoundUp(n, m) <= k
  {
    hide RoundUp;
    RoundUpFacts(n, m);
    MultiplesApart(k, RoundUp(n, m), m);
  }

  lemma AlignedDown(addr: nat, page: nat)
    requires page > 0
    ensures (addr - addr % page) % page == 0 && addr % page < page <= addr - addr % page + page
  {
    assert addr == addr / page * page + addr % page;
    MultipleMod(addr / page, page);
  }

  // ---- what a wrap guarantees ----

  /** Inside a mapping, with no saturation, `contains` means what it says. */
  lemma ContainsExact(m: Mapping, p: usize, len: nat)
    ensures Contains(m, p, len) <==> m.start <= p && p + len <= m.start + |m.bytes|
  {
  }

  /** A page-aligned, page-multiple piece of the mapping that covers the slice rounded up to whole words. */
  ghost predicate SoundWrap(w: Wrap, m: Mapping, addr: usize, len: nat) {
    && w.file == m && m.page > 0
    && w.ptr % m.page == 0 && w.len % m.page == 0 && w.offset < m.page
    && m.start <= w.ptr && w.ptr + w.len <= m.start + |m.bytes|
    && w.ptr + w.offset == addr
    && w.offset + RoundUp(len, 4) <= w.len < w.offset + RoundUp(len, 4) + m.page
  }

  lemma WrapInSound(m: Mapping, addr: usize, len: nat)
    requires WrapIn(m, addr, len).Some?
    ensures SoundWrap(WrapIn(m, addr, len).value, m, addr, len)
  {
    hide RoundUp, IsPowerOfTwo;
    var w := WrapIn(m, addr, len).value;
    RoundUpFacts(len, 4);
    var region := Max(Saturate(RoundUp(len, 4)), len);
    var need := Saturate(w.offset + region);
    RoundUpFacts(need, m.page);
    AlignedDown(addr, m.page);
    assert w.ptr + w.len <= End(m);
  }

  /** Every wrap is sound for the mapping that contains the slice. */
  lemma {:induction false} WrapForSound(maps: seq<Mapping>, addr: usize, len: nat)
    requires WrapFor(maps, addr, len).Some?
    ensures var w := WrapFor(maps, addr, len).value;
      w.file in maps && Contains(w.file, addr, len) && SoundWrap(w, w.file, addr, len)
  {
    hide SoundWrap, WrapIn;
    if Contains(maps[0], addr, len) {
      WrapInSound(maps[0], addr, len);
      assert SoundWrap(WrapIn(maps[0], addr, len).value, maps[0], addr, len);
      WrapInFile(maps[0], addr, len);
    } else {
      WrapForSound(maps[1..], addr, len);
    }
  }

  lemma WrapInFile(m: MappedFile, addr: usize, len: nat)
    ensures WrapIn(m, addr, len).Some? ==> WrapIn(m, addr, len).value.file == m
  {
  }

  /** What `map_file` builds: page-aligned, whole pages of a power-of-two size. */
  predicate PageAligned(m: MappedFile) {
    m.page > 0 && IsPowerOfTwo(m.page) && m.start % m.page == 0 && |m.bytes| % m.page == 0
  }

  /** The covering pages of a slice whose word-rounded end stays in an aligned mapping stay there too. */
  lemma CoverInMapping(m: Mapping, addr: usize, region: nat)
    requires PageAligned(m) && m.start <= addr && addr + region <= m.start + |m.bytes|
    ensures m.start <= addr - addr % m.page
    ensures addr - addr % m.page + RoundUp(addr % m.page + region, m.page) <= m.start + |m.bytes|
  {
    hide RoundUp, IsPowerOfTwo;
    AlignedDown(addr, m.page);
    AlignedStart(addr, m.start, m.page);
    SumOfMultiples(m.start, |m.bytes|, m.page);
    DifferenceOfMultiples(m.start + |m.bytes|, addr - addr % m.page, m.page);
    RoundUpLeast(addr % m.page + region, m.page, m.start + |m.bytes| - (addr - addr % m.page));
  }

  /** In a page-aligned mapping a slice wraps exactly when its word-rounded end stays in the mapping. */
  lemma WrapInIff(m: Mapping, addr: usize, len: nat)
    requires PageAligned(m) && Contains(m, addr, len)
    ensures WrapIn(m, addr, len).Some? <==> addr + RoundUp(len, 4) <= m.start + |m.bytes|
  {
    hide RoundUp, IsPowerOfTwo, SoundWrap;
    ContainsExact(m, addr, len);
    RoundUpFacts(len, 4);
    if addr + RoundUp(len, 4) <= m.start + |m.bytes| {
      CoverInMapping(m, addr, RoundUp(len, 4));
    } else if WrapIn(m, addr, len).Some? {
      WrapInSound(m, addr, len);
      SoundCovers(WrapIn(m, addr, len).value, m, addr, len);
    }
  }

  lemma SoundCovers(w: Wrap, m: Mapping, addr: usize, len: nat)
    requires SoundWrap(w, m, addr, len)
    ensures addr + RoundUp(len, 4) <= m.start + |m.bytes|
  {
    hide RoundUp;
  }

  lemma AlignedStart(addr: nat, start: nat, page: nat)
    requires page > 0 && start % page == 0 && start <= addr
    ensures start <= addr - addr % page
  {
    AlignedDown(addr, page);
    MultiplesApart(addr - addr % page, start, page);
  }

  /** Whole pages of at least two bytes at an aligned address never end at the odd last address. */
  lemma AlignedIsMapping(m: MappedFile)
    requires PageAligned(m) && m.page > 1 && m.start + |m.bytes| < 0x1_0000_0000_0000_0000
    ensures m.start + |m.bytes| < 0xFFFF_FFFF_FFFF_FFFF
  {
    SumOfMultiples(m.start, |m.bytes|, m.page);
    EvenMultiple(m.start + |m.bytes|, m.page);
  }

  lemma EvenMultiple(n: nat, page: nat)
    requires page % 2 == 0 && page > 0 && n % page == 0
    ensures n % 2 == 0
  {
    var q, half := n / page, page / 2;
    assert page == half * 2 && n == q * page;
    assert q * (half * 2) == (q * half) * 2;
    MulNonNegative(q, half);
    MultipleMod(q * half, 2);
  }

  /** Saturation never lets a mapping contain a slice that ends at an address past its own end. */
  lemma ContainsReal(m: MappedFile, p: usize, len: nat)
    requires p + len < 0x1_0000_0000_0000_0000 && Contains(m, p, len)
    ensures m.start <= p && p + len <= m.start + |m.bytes|
  {
  }

  // ---- composing bind offsets ----

  /** `compose_bind_offset`: the page remainder plus the binding offset, or a refusal. */
  function Compose(region: u64, offset: u64, span: u64, bufferLen: u64): Option<u64> {
    var composed :- CheckedAdd(region, offset);
    var end :- if span == 0 then Some(composed) else CheckedAdd(composed, span);
    if composed > bufferLen || end > bufferLen then None else Some(composed)
  }

  /** Composition adds the offset to the remainder and accepts exactly the ranges inside the buffer. */
  lemma ComposeIff(region: u64, offset: u64, span: u64, bufferLen: u64)
    ensures Compose(region, offset, span, bufferLen).Some? <==> region + offset + span <= bufferLen
    ensures Compose(region, offset, span, bufferLen).Some? ==>
      Compose(region, offset, span, bufferLen).value == region + offset
  {
  }

  /** What the session admits for a handle of `len` bytes (metal_host.rs launch_kernel_bound). */
  predicate Admits(len: nat, offset: u64, span: u64) {
    span > 0 && offset + span <= len
  }

  /**
   * The two layers agree on every binding of a handle exactly when the handle's bytes lie inside the buffer
   * behind the page remainder.
   */
  lemma LayersAgreeIff(len: usize, region: u64, bufferLen: u64)
    requires len > 0
    ensures (forall offset: u64, span: u64 | Admits(len, offset, span) ::
               Compose(region, offset, span, bufferLen).Some?)
       <==> region + len <= bufferLen
  {
    hide Compose;
    if forall offset: u64, span: u64 | Admits(len, offset, span) :: Compose(region, offset, span, bufferLen).Some? {
      assert Admits(len, 0, len);
      ComposeIff(region, 0, len, bufferLen);
    }
    forall offset: u64, span: u64 | Admits(len, offset, span) && region + len <= bufferLen
      ensures Compose(region, offset, span, bufferLen).Some?
    {
      ComposeIff(region, offset, span, bufferLen);
    }
  }

  /**
   * A handle of `len` bytes fits behind the remainder of the wrap of a slice up to 3 bytes shorter exactly when
   * the pages that cover the slice's whole words cover the handle too, as they do for whole-word handles.
   */
  lemma WrapFitsIff(w: Wrap, m: Mapping, addr: usize, sliceLen: nat, len: nat)
    requires SoundWrap(w, m, addr, sliceLen) && sliceLen <= len < sliceLen + 4
    ensures w.offset + len <= w.len <==> addr % m.page + len <= RoundUp(addr % m.page + RoundUp(sliceLen, 4), m.page)
    ensures len % 4 == 0 ==> w.offset + len <= w.len
  {
    hide RoundUp, SoundWrap;
    WrapLength(w, m, addr, sliceLen);
    if len % 4 == 0 {
      RoundUpFour(sliceLen, len);
      assert w.offset + RoundUp(sliceLen, 4) <= w.len by { WrapCovers(w, m, addr, sliceLen); }
    }
  }

  lemma WrapCovers(w: Wrap, m: Mapping, addr: usize, len: nat)
    requires SoundWrap(w, m, addr, len)
    ensures w.file == m && w.offset + RoundUp(len, 4) <= w.len && w.ptr + w.offset == addr
    ensures m.start <= w.ptr && w.ptr + w.len <= m.start + |m.bytes|
  {
    hide RoundUp;
  }

  /** The page remainder and the page count of a wrap, from the slice alone. */
  lemma WrapLength(w: Wrap, m: Mapping, addr: usize, sliceLen: nat)
    requires SoundWrap(w, m, addr, sliceLen)
    ensures w.offset == addr % m.page && w.len == RoundUp(w.offset + RoundUp(sliceLen, 4), m.page)
  {
    hide RoundUp;
    AddressSplit(w.ptr, w.offset, m.page);
    var need := w.offset + RoundUp(sliceLen, 4);
    RoundUpFacts(need, m.page);
    SameMultiple(w.len, RoundUp(need, m.page), need, m.page);
  }

  lemma SameMultiple(a: nat, b: nat, need: nat, m: nat)
    requires m > 0 && a % m == 0 && b % m == 0 && need <= a < need + m && need <= b < need + m
    ensures a == b
  {
    MultiplesApart(a, b, m);
    MultiplesApart(b, a, m);
  }

  lemma AddressSplit(ptr: nat, offset: nat, page: nat)
    requires page > 0 && ptr % page == 0 && offset < page
    ensures (ptr + offset) % page == offset
  {
    DivMod(ptr + offset, page, ptr / page, offset);
  }

  lemma RoundUpFour(short: nat, len: nat)
    requires short <= len < short + 4 && len % 4 == 0
    ensures RoundUp(short, 4) == len
  {
    RoundUpFacts(short, 4);
    RoundUpLeast(short, 4, len);
  }
}
