/** device_identity.rs: device ids, health epochs and the deterministic byte encoding they share. */
module DeviceIdentity {
  import opened Prelude
  import opened Ordered

  /** A Rust string: its UTF-8 bytes, whose count fits usize. Equality and order are bytewise. */
  type Text = t: seq<u8> | |t| < 0x1_0000_0000_0000_0000 witness []

  datatype DeviceBackend = Cuda | Metal

  datatype PhysicalDeviceId =
    | CudaId(pciUuid: Text, driverUuid: Option<Text>)
    | MetalId(registryId: Text)
  {
    function Backend(): (r: DeviceBackend)
      ensures r == Cuda <==> CudaId?
    {
      if CudaId? then Cuda else Metal
    }
  }

  // ---- ordering (derived Ord) ----

  predicate TextLess(a: Text, b: Text)
    decreases |a|
  {
    b != [] && (a == [] || a[0] < b[0] || (a[0] == b[0] && TextLess(a[1..], b[1..])))
  }

  lemma {:induction false} TextLessTotal(a: Text, b: Text)
    ensures !TextLess(a, a)
    ensures a == b || TextLess(a, b) || TextLess(b, a)
    decreases |a|
  {
    if a != [] {
      TextLessTotal(a[1..], a[1..]);
      if b != [] && a[0] == b[0] {
        TextLessTotal(a[1..], b[1..]);
        assert a == [a[0]] + a[1..] && b == [b[0]] + b[1..];
      }
    }
  }

  lemma {:induction false} TextLessTransitive(a: Text, b: Text, c: Text)
    requires TextLess(a, b) && TextLess(b, c)
    ensures TextLess(a, c)
    decreases |a|
  {
    if a != [] && a[0] == b[0] == c[0] {
      TextLessTransitive(a[1..], b[1..], c[1..]);
    }
  }

  lemma TextOrder()
    ensures StrictOrder(TextLess)
  {
    forall x: Text, y: Text
      ensures !TextLess(x, x) && (x == y || TextLess(x, y) || TextLess(y, x))
    {
      TextLessTotal(x, y);
    }
    forall x: Text, y: Text, z: Text | TextLess(x, y) && TextLess(y, z)
      ensures TextLess(x, z)
    {
      TextLessTransitive(x, y, z);
    }
  }

  /** The two texts agree up to `n`, where `a` ends or has the smaller byte. */
  predicate FirstDifference(a: Text, b: Text, n: nat) {
    n <= |a| && n < |b| && a[..n] == b[..n] && (n == |a| || a[n] < b[n])
  }

  /** The order of strings is that of their first differing bytes; a proper prefix comes first. */
  lemma {:induction false} TextLessMeans(a: Text, b: Text)
    ensures TextLess(a, b) <==> exists n :: FirstDifference(a, b, n)
    decreases |a|
  {
    if b != [] && (a == [] || a[0] < b[0]) {
      assert FirstDifference(a, b, 0);
    } else if a != [] && b != [] && a[0] == b[0] {
      TextLessMeans(a[1..], b[1..]);
      if n: nat :| FirstDifference(a[1..], b[1..], n) {
        assert a[..n + 1] == [a[0]] + a[1..][..n] && b[..n + 1] == [b[0]] + b[1..][..n];
        assert FirstDifference(a, b, n + 1);
      }
      if n: nat :| FirstDifference(a, b, n) {
        assert n > 0;
        assert a[1..][..n - 1] == a[..n][1..] && b[1..][..n - 1] == b[..n][1..];
        assert FirstDifference(a[1..], b[1..], n - 1);
      }
    } else if a != [] && b != [] {
      forall n: nat
        ensures !FirstDifference(a, b, n)
      {
        if 0 < n <= |a| && n <= |b| {
          assert a[..n][0] == a[0] && b[..n][0] == b[0];
        }
      }
    }
  }

  predicate OptTextLess(a: Option<Text>, b: Option<Text>) {
    b.Some? && (a.None? || TextLess(a.value, b.value))
  }

  predicate IdLess(a: PhysicalDeviceId, b: PhysicalDeviceId) {
    match (a, b)
    case (CudaId(p, d), CudaId(q, e)) => TextLess(p, q) || (p == q && OptTextLess(d, e))
    case (CudaId(_, _), MetalId(_)) => true
    case (MetalId(_), CudaId(_, _)) => false
    case (MetalId(r), MetalId(s)) => TextLess(r, s)
  }

  lemma OptTextLessTotal(a: Option<Text>, b: Option<Text>)
    ensures !OptTextLess(a, a)
    ensures a == b || OptTextLess(a, b) || OptTextLess(b, a)
  {
    if a.Some? {
      TextLessTotal(a.value, if b.Some? then b.value else a.value);
    }
  }

  lemma OptTextLessTransitive(a: Option<Text>, b: Option<Text>, c: Option<Text>)
    requires OptTextLess(a, b) && OptTextLess(b, c)
    ensures OptTextLess(a, c)
  {
    if a.Some? {
      TextLessTransitive(a.value, b.value, c.value);
    }
  }

  lemma IdLessTotal(a: PhysicalDeviceId, b: PhysicalDeviceId)
    ensures !IdLess(a, a)
    ensures a == b || IdLess(a, b) || IdLess(b, a)
  {
    hide TextLess, OptTextLess;
    match (a, b)
    case (CudaId(p, d), CudaId(q, e)) =>
      TextLessTotal(p, q);
      OptTextLessTotal(d, e);
    case (MetalId(r), MetalId(s)) =>
      TextLessTotal(r, s);
    case (CudaId(p, d), MetalId(_)) =>
      TextLessTotal(p, p);
      OptTextLessTotal(d, d);
    case (MetalId(r), CudaId(_, _)) =>
      TextLessTotal(r, r);
  }

  lemma IdLessTransitive(a: PhysicalDeviceId, b: PhysicalDeviceId, c: PhysicalDeviceId)
    requires IdLess(a, b) && IdLess(b, c)
    ensures IdLess(a, c)
  {
    hide TextLess, OptTextLess;
    match (a, c)
    case (CudaId(p, d), CudaId(q, e)) =>
      if TextLess(p, b.pciUuid) && TextLess(b.pciUuid, q) {
        TextLessTransitive(p, b.pciUuid, q);
      } else if p == b.pciUuid == q {
        OptTextLessTransitive(d, b.driverUuid, e);
      }
    case (MetalId(r), MetalId(s)) =>
      TextLessTransitive(r, b.registryId, s);
    case _ =>
  }

  lemma IdOrder()
    ensures StrictOrder(IdLess)
  {
    hide IdLess;
    forall x, y
      ensures !IdLess(x, x) && (x == y || IdLess(x, y) || IdLess(y, x))
    {
      IdLessTotal(x, y);
    }
    forall x, y, z | IdLess(x, y) && IdLess(y, z)
      ensures IdLess(x, z)
    {
      IdLessTransitive(x, y, z);
    }
  }

  /** Every CUDA id comes before every Metal id; within a backend the fields decide in turn, an absent one first. */
  lemma IdLessMeans(p: Text, q: Text, d: Option<Text>, e: Option<Text>, x: Text, y: Text)
    ensures IdLess(CudaId(p, d), MetalId(x)) && !IdLess(MetalId(x), CudaId(p, d))
    ensures TextLess(p, q) ==> IdLess(CudaId(p, d), CudaId(q, e))
    ensures IdLess(CudaId(p, None), CudaId(p, Some(x)))
    ensures TextLess(x, y) ==> IdLess(CudaId(p, Some(x)), CudaId(p, Some(y)))
    ensures TextLess(x, y) ==> IdLess(MetalId(x), MetalId(y))
  {
  }

  function SortedIds(s: set<PhysicalDeviceId>): seq<PhysicalDeviceId> {
    IdOrder();
    Sorted(s, IdLess)
  }

  /** The listing holds each member once; what is less than the i-th id comes before it. */
  lemma SortedIdsListing(s: set<PhysicalDeviceId>)
    ensures var ids := SortedIds(s);
      && |ids| == |s| && Elements(ids) == s
      && (forall id :: id in ids <==> id in s)
      && (forall i, o | 0 <= i < |ids| && o in s && IdLess(o, ids[i]) :: o in ids[..i])
  {
    hide IdLess;
    IdOrder();
    SortedListing(s, IdLess);
    var ids := SortedIds(s);
    assert forall id :: id in Elements(ids) <==> id in ids;
    forall i, o | 0 <= i < |ids| && o in s && IdLess(o, ids[i])
      ensures o in ids[..i]
    {
      SortedBefore(s, IdLess, i, o);
    }
  }

  /** Any ascending list of the same ids is that listing: the order of a BTreeSet is determined by its members. */
  lemma SortedIdsUnique(ids: seq<PhysicalDeviceId>)
    requires Ascending(ids, IdLess)
    ensures ids == SortedIds(Elements(ids))
  {
    hide IdLess;
    IdOrder();
    SortedListing(Elements(ids), IdLess);
    AscendingUnique(ids, SortedIds(Elements(ids)), IdLess);
  }

  // ---- encoding: each Put writes a value in front of what follows ----

  function PutU64(v: u64, k: seq<u8>): seq<u8> { LeBytes(v, 8) + k }

  function PutU32(v: u32, k: seq<u8>): seq<u8> { LeBytes(v, 4) + k }

  function PutByte(v: u8, k: seq<u8>): seq<u8> { [v] + k }

  function PutBool(v: bool, k: seq<u8>): seq<u8> { PutByte(if v then 1 else 0, k) }

  function PutStr(s: Text, k: seq<u8>): seq<u8> { PutU64(|s|, s + k) }

  function PutOptStr(s: Option<Text>, k: seq<u8>): seq<u8> {
    PutBool(s.Some?, if s.Some? then PutStr(s.value, k) else k)
  }

  function PutOptU64(v: Option<u64>, k: seq<u8>): seq<u8> {
    PutBool(v.Some?, if v.Some? then PutU64(v.value, k) else k)
  }

  function PutId(id: PhysicalDeviceId, k: seq<u8>): seq<u8> {
    match id
    case CudaId(pci, driver) => PutByte(0, PutStr(pci, PutOptStr(driver, k)))
    case MetalId(registry) => PutByte(1, PutStr(registry, k))
  }

  function PutIds(ids: seq<PhysicalDeviceId>, k: seq<u8>): seq<u8> {
    if ids == [] then k else PutId(ids[0], PutIds(ids[1..], k))
  }

  // ---- decoding: the value in front and what follows it ----

  type Decoded<+T> = Option<(T, seq<u8>)>

  function GetU64(b: seq<u8>): Decoded<u64> {
    if |b| < 8 then None
    else
      LeBytesOfFromLe(b[..8]);
      Pow256Values();
      Some((FromLe(b[..8]), b[8..]))
  }

  function GetU32(b: seq<u8>): Decoded<u32> {
    if |b| < 4 then None
    else
      LeBytesOfFromLe(b[..4]);
      Pow256Values();
      Some((FromLe(b[..4]), b[4..]))
  }

  function GetByte(b: seq<u8>): Decoded<u8> {
    if b == [] then None else Some((b[0], b[1..]))
  }

  function GetBool(b: seq<u8>): Decoded<bool> {
    var (v, k) :- GetByte(b);
    if v == 0 then Some((false, k)) else if v == 1 then Some((true, k)) else None
  }

  function GetStr(b: seq<u8>): Decoded<Text> {
    var (n, k) :- GetU64(b);
    if |k| < n then None else Some((k[..n], k[n..]))
  }

  function GetOptStr(b: seq<u8>): Decoded<Option<Text>> {
    var (present, k) :- GetBool(b);
    if present then var (s, k1) :- GetStr(k); Some((Some(s), k1)) else Some((None, k))
  }

  function GetOptU64(b: seq<u8>): Decoded<Option<u64>> {
    var (present, k) :- GetBool(b);
    if present then var (v, k1) :- GetU64(k); Some((Some(v), k1)) else Some((None, k))
  }

  function GetId(b: seq<u8>): Decoded<PhysicalDeviceId> {
    var (tag, k) :- GetByte(b);
    if tag == 0 then
      var (pci, k1) :- GetStr(k);
      var (driver, k2) :- GetOptStr(k1);
      Some((CudaId(pci, driver), k2))
    else if tag == 1 then
      var (registry, k1) :- GetStr(k);
      Some((MetalId(registry), k1))
    else None
  }

  function GetIds(n: nat, b: seq<u8>): Decoded<seq<PhysicalDeviceId>> {
    if n == 0 then Some(([], b))
    else
      var (id, k) :- GetId(b);
      var (ids, k1) :- GetIds(n - 1, k);
      Some(([id] + ids, k1))
  }

  // ---- every Get undoes its Put, whatever follows ----

  lemma U64RoundTrip(v: u64, k: seq<u8>)
    ensures GetU64(PutU64(v, k)) == Some((v, k))
  {
    Pow256Values();
    FromLeOfLeBytes(v, 8);
    assert PutU64(v, k)[..8] == LeBytes(v, 8) && PutU64(v, k)[8..] == k;
  }

  lemma U32RoundTrip(v: u32, k: seq<u8>)
    ensures GetU32(PutU32(v, k)) == Some((v, k))
  {
    Pow256Values();
    FromLeOfLeBytes(v, 4);
    assert PutU32(v, k)[..4] == LeBytes(v, 4) && PutU32(v, k)[4..] == k;
  }

  lemma ByteRoundTrip(v: u8, k: seq<u8>)
    ensures GetByte(PutByte(v, k)) == Some((v, k))
  {
    assert PutByte(v, k)[1..] == k;
  }

  lemma BoolRoundTrip(v: bool, k: seq<u8>)
    ensures GetBool(PutBool(v, k)) == Some((v, k))
  {
    ByteRoundTrip(if v then 1 else 0, k);
  }

  lemma StrRoundTrip(s: Text, k: seq<u8>)
    ensures GetStr(PutStr(s, k)) == Some((s, k))
  {
    U64RoundTrip(|s|, s + k);
    assert (s + k)[..|s|] == s && (s + k)[|s|..] == k;
  }

  lemma OptStrRoundTrip(s: Option<Text>, k: seq<u8>)
    ensures GetOptStr(PutOptStr(s, k)) == Some((s, k))
  {
    hide PutStr, GetStr, PutBool, GetBool;
    BoolRoundTrip(s.Some?, if s.Some? then PutStr(s.value, k) else k);
    if s.Some? {
      StrRoundTrip(s.value, k);
    }
  }

  lemma OptU64RoundTrip(v: Option<u64>, k: seq<u8>)
    ensures GetOptU64(PutOptU64(v, k)) == Some((v, k))
  {
    hide PutU64, GetU64, PutBool, GetBool;
    BoolRoundTrip(v.Some?, if v.Some? then PutU64(v.value, k) else k);
    if v.Some? {
      U64RoundTrip(v.value, k);
    }
  }

  lemma IdRoundTrip(id: PhysicalDeviceId, k: seq<u8>)
    ensures GetId(PutId(id, k)) == Some((id, k))
  {
    hide PutStr, GetStr, PutOptStr, GetOptStr, PutByte, GetByte;
    match id
    case CudaId(pci, driver) =>
      ByteRoundTrip(0, PutStr(pci, PutOptStr(driver, k)));
      StrRoundTrip(pci, PutOptStr(driver, k));
      OptStrRoundTrip(driver, k);
    case MetalId(registry) =>
      ByteRoundTrip(1, PutStr(registry, k));
      StrRoundTrip(registry, k);
  }

  lemma {:induction false} IdsRoundTrip(ids: seq<PhysicalDeviceId>, k: seq<u8>)
    ensures GetIds(|ids|, PutIds(ids, k)) == Some((ids, k))
  {
    hide PutId, GetId;
    if ids != [] {
      IdRoundTrip(ids[0], PutIds(ids[1..], k));
      IdsRoundTrip(ids[1..], k);
      assert ids == [ids[0]] + ids[1..];
    }
  }

  // ---- the pushes of the code: append, leaving `k` still to be written ----

  method PushU64(out: seq<u8>, v: u64, ghost k: seq<u8>) returns (r: seq<u8>)
    ensures r + k == out + PutU64(v, k)
  {
    r := out + LeBytes(v, 8);
  }

  method PushU32(out: seq<u8>, v: u32, ghost k: seq<u8>) returns (r: seq<u8>)
    ensures r + k == out + PutU32(v, k)
  {
    r := out + LeBytes(v, 4);
  }

  method PushByte(out: seq<u8>, v: u8, ghost k: seq<u8>) returns (r: seq<u8>)
    ensures r + k == out + PutByte(v, k)
  {
    r := out + [v];
  }

  method PushBool(out: seq<u8>, v: bool, ghost k: seq<u8>) returns (r: seq<u8>)
    ensures r + k == out + PutBool(v, k)
  {
    r := PushByte(out, if v then 1 else 0, k);
  }

  method PushStr(out: seq<u8>, s: Text, ghost k: seq<u8>) returns (r: seq<u8>)
    ensures r + k == out + PutStr(s, k)
  {
    r := PushU64(out, |s|, s + k);
    r := r + s;
  }

  method PushOptStr(out: seq<u8>, s: Option<Text>, ghost k: seq<u8>) returns (r: seq<u8>)
    ensures r + k == out + PutOptStr(s, k)
  {
    r := PushBool(out, s.Some?, if s.Some? then PutStr(s.value, k) else k);
    if s.Some? {
      r := PushStr(r, s.value, k);
    }
  }

  method PushOptU64(out: seq<u8>, v: Option<u64>, ghost k: seq<u8>) returns (r: seq<u8>)
    ensures r + k == out + PutOptU64(v, k)
  {
    r := PushBool(out, v.Some?, if v.Some? then PutU64(v.value, k) else k);
    if v.Some? {
      r := PushU64(r, v.value, k);
    }
  }

  method PushId(out: seq<u8>, id: PhysicalDeviceId, ghost k: seq<u8>) returns (r: seq<u8>)
    ensures r + k == out + PutId(id, k)
  {
    match id
    case CudaId(pci, driver) =>
      r := PushByte(out, 0, PutStr(pci, PutOptStr(driver, k)));
      r := PushStr(r, pci, PutOptStr(driver, k));
      r := PushOptStr(r, driver, k);
    case MetalId(registry) =>
      r := PushByte(out, 1, PutStr(registry, k));
      r := PushStr(r, registry, k);
  }

  method PushIds(out: seq<u8>, ids: seq<PhysicalDeviceId>, ghost k: seq<u8>) returns (r: seq<u8>)
    ensures r + k == out + PutIds(ids, k)
  {
    r := out;
    for i := 0 to |ids|
      invariant r + PutIds(ids[i..], k) == out + PutIds(ids, k)
    {
      assert ids[i..][1..] == ids[i + 1..];
      r := PushId(r, ids[i], PutIds(ids[i + 1..], k));
    }
  }

  /** Equal identity bytes mean equal identity facts, whatever follows them. */
  lemma IdBytesPrefixFree(a: PhysicalDeviceId, b: PhysicalDeviceId, k: seq<u8>, l: seq<u8>)
    requires PutId(a, k) == PutId(b, l)
    ensures a == b && k == l
  {
    IdRoundTrip(a, k);
    IdRoundTrip(b, l);
  }
}
