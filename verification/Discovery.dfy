/** discovery.rs: one timestamped sample of device facts and its content address. */
module Discovery {
  import opened Prelude
  import opened Ordered
  import opened DeviceIdentity
  import Sha = Sha256

  datatype ComputeCapability = ComputeCapability(major: u32, minor: u32)

  datatype DtypeSurface = DtypeSurface(f32: bool, f64: bool, f16: bool, bf16: bool, i8: bool, i32: bool)

  datatype DeviceCapabilities = DeviceCapabilities(
    computeCapability: ComputeCapability,
    smCount: u32,
    dtypeSurface: DtypeSurface,
    maxThreadsPerWorkgroup: u32,
    sharedMemoryMinBytes: u32,
    sharedMemoryMaxBytes: u32,
    collectiveWidth: u32,
    unifiedMemory: bool)

  datatype DeviceMemory = DeviceMemory(toolReportTotalMib: Option<u64>, apiTotalBytes: u64)

  datatype DeviceHealth = Healthy | Degraded(reason: Text)

  datatype ProbeProvenance = ProbeProvenance(probe: Text, toolVersions: Text)

  datatype Entry = Entry(
    ordinal: u32,
    identity: PhysicalDeviceId,
    deviceModel: Option<Text>,
    capabilities: DeviceCapabilities,
    memory: DeviceMemory,
    health: DeviceHealth,
    healthGeneration: u64,
    provenance: ProbeProvenance)

  datatype P2pProbeState = NotAttempted | Attempted

  datatype Snapshot = Snapshot(id: seq<u8>, probeUtcNanos: u64, devices: map<u32, Entry>, p2p: P2pProbeState)

  /** What `new` establishes: entries sit under their own ordinal; the map has a usize length. */
  ghost predicate Keyed(devices: map<u32, Entry>) {
    && |devices| < U64_LIMIT
    && forall k | k in devices :: devices[k].ordinal == k
  }

  /** The entries in BTreeMap order. */
  function Values(devices: map<u32, Entry>): (r: seq<Entry>)
    ensures |r| == |devices|
    ensures forall k | k in devices :: devices[k] in r
    ensures forall e | e in r :: exists k :: k in devices && devices[k] == e
  {
    U32Order();
    SortedListing(devices.Keys, U32Less);
    var keys := Sorted(devices.Keys, U32Less);
    assert forall k | k in keys :: k in Elements(keys);
    var r := seq(|keys|, i requires 0 <= i < |keys| => devices[keys[i]]);
    assert forall k | k in devices :: k in Elements(keys) && k in keys;
    assert forall i | 0 <= i < |keys| :: r[i] == devices[keys[i]];
    r
  }

  /** BTreeMap order is ascending ordinals. */
  lemma ValuesAscending(devices: map<u32, Entry>, i: nat, j: nat)
    requires Keyed(devices) && i < j < |Values(devices)|
    ensures Values(devices)[i].ordinal < Values(devices)[j].ordinal
  {
    U32Order();
    SortedListing(devices.Keys, U32Less);
    var keys := Sorted(devices.Keys, U32Less);
    assert keys[i] in Elements(keys) && keys[j] in Elements(keys);
  }

  /** The entry found for an id is the one of least ordinal among those that record it. */
  lemma FindEntryLeast(devices: map<u32, Entry>, k: u32)
    requires Keyed(devices) && k in devices
    ensures var e := FindEntry(Values(devices), devices[k].identity);
      && e.Some? && e.value.identity == devices[k].identity && e.value in Values(devices)
      && e.value.ordinal <= k && e.value.ordinal in devices && devices[e.value.ordinal] == e.value
  {
    hide Values;
    var es := Values(devices);
    assert devices[k] in es;
    FindEntryFirst(es, devices[k].identity);
    var e := FindEntry(es, devices[k].identity).value;
    var i :| 0 <= i < |es| && es[i] == e && forall j | 0 <= j < i :: es[j].identity != e.identity;
    var j :| 0 <= j < |es| && es[j] == devices[k];
    if i < j {
      ValuesAscending(devices, i, j);
    }
  }

  lemma {:induction false} FindEntryFirst(entries: seq<Entry>, id: PhysicalDeviceId)
    ensures FindEntry(entries, id).Some? ==>
      exists i :: 0 <= i < |entries| && entries[i] == FindEntry(entries, id).value
                  && forall j | 0 <= j < i :: entries[j].identity != id
  {
    if entries != [] && entries[0].identity != id {
      FindEntryFirst(entries[1..], id);
      if FindEntry(entries[1..], id).Some? {
        var i :| 0 <= i < |entries| - 1 && entries[1..][i] == FindEntry(entries[1..], id).value
          && forall j | 0 <= j < i :: entries[1..][j].identity != id;
        assert entries[i + 1] == entries[1..][i];
        forall j | 0 <= j < i + 1
          ensures entries[j].identity != id
        {
          if j > 0 {
            assert entries[j] == entries[1..][j - 1];
          }
        }
      }
    }
  }

  /** The first entry, in BTreeMap order, recorded for `id`. */
  function FindEntry(entries: seq<Entry>, id: PhysicalDeviceId): (r: Option<Entry>)
    ensures r.Some? ==> r.value in entries && r.value.identity == id
    ensures r.None? <==> forall e | e in entries :: e.identity != id
  {
    if entries == [] then None
    else if entries[0].identity == id then Some(entries[0])
    else FindEntry(entries[1..], id)
  }

  /** Some entry was sampled under another epoch. */
  predicate IsStale(s: Snapshot, current: u64) {
    exists k | k in s.devices :: s.devices[k].healthGeneration != current
  }

  // ---- canonical bytes ----

  function PutCapabilities(c: DeviceCapabilities, k: seq<u8>): seq<u8> {
    PutU32(c.computeCapability.major, PutU32(c.computeCapability.minor, PutU32(c.smCount,
      PutSurface(c.dtypeSurface,
        PutU32(c.maxThreadsPerWorkgroup, PutU32(c.sharedMemoryMinBytes, PutU32(c.sharedMemoryMaxBytes,
          PutU32(c.collectiveWidth, PutBool(c.unifiedMemory, k)))))))))
  }

  function PutSurface(d: DtypeSurface, k: seq<u8>): seq<u8> {
    PutBool(d.f32, PutBool(d.f64, PutBool(d.f16, PutBool(d.bf16, PutBool(d.i8, PutBool(d.i32, k))))))
  }

  function PutHealth(h: DeviceHealth, k: seq<u8>): seq<u8> {
    match h
    case Healthy => PutByte(0, k)
    case Degraded(reason) => PutByte(1, PutStr(reason, k))
  }

  function PutEntry(e: Entry, k: seq<u8>): seq<u8> {
    PutU32(e.ordinal, PutId(e.identity, PutOptStr(e.deviceModel, PutCapabilities(e.capabilities,
      PutOptU64(e.memory.toolReportTotalMib, PutU64(e.memory.apiTotalBytes, PutHealth(e.health,
        PutU64(e.healthGeneration, PutStr(e.provenance.probe, PutStr(e.provenance.toolVersions, k))))))))))
  }

  function PutEntries(es: seq<Entry>, k: seq<u8>): seq<u8> {
    if es == [] then k else PutEntry(es[0], PutEntries(es[1..], k))
  }

  function PutP2p(p: P2pProbeState, k: seq<u8>): seq<u8> { PutByte(if p.NotAttempted? then 0 else 1, k) }

  /** The canonical bytes of a sample; the id is derived from them and takes no part. */
  function CanonicalBytes(probeUtcNanos: u64, devices: map<u32, Entry>, p2p: P2pProbeState): seq<u8>
    requires |devices| < U64_LIMIT
  {
    PutU64(probeUtcNanos, PutU64(|devices|, PutEntries(Values(devices), PutP2p(p2p, []))))
  }

  function GetSurface(b: seq<u8>): Decoded<DtypeSurface> {
    var (f32, k1) :- GetBool(b);
    var (f64, k2) :- GetBool(k1);
    var (f16, k3) :- GetBool(k2);
    var (bf16, k4) :- GetBool(k3);
    var (i8, k5) :- GetBool(k4);
    var (i32, k6) :- GetBool(k5);
    Some((DtypeSurface(f32, f64, f16, bf16, i8, i32), k6))
  }

  function GetCapabilities(b: seq<u8>): Decoded<DeviceCapabilities> {
    var (major, k1) :- GetU32(b);
    var (minor, k2) :- GetU32(k1);
    var (sms, k3) :- GetU32(k2);
    var (surface, k4) :- GetSurface(k3);
    var (threads, k5) :- GetU32(k4);
    var (low, k6) :- GetU32(k5);
    var (high, k7) :- GetU32(k6);
    var (width, k8) :- GetU32(k7);
    var (unified, k9) :- GetBool(k8);
    Some((DeviceCapabilities(ComputeCapability(major, minor), sms, surface, threads, low, high, width, unified), k9))
  }

  function GetHealth(b: seq<u8>): Decoded<DeviceHealth> {
    var (tag, k) :- GetByte(b);
    if tag == 0 then Some((Healthy, k))
    else if tag == 1 then var (reason, k1) :- GetStr(k); Some((Degraded(reason), k1))
    else None
  }

  function GetEntry(b: seq<u8>): Decoded<Entry> {
    var (ordinal, k1) :- GetU32(b);
    var (identity, k2) :- GetId(k1);
    var (model, k3) :- GetOptStr(k2);
    var (capabilities, k4) :- GetCapabilities(k3);
    var (mib, k5) :- GetOptU64(k4);
    var (api, k6) :- GetU64(k5);
    var (health, k7) :- GetHealth(k6);
    var (generation, k8) :- GetU64(k7);
    var (probe, k9) :- GetStr(k8);
    var (tools, k10) :- GetStr(k9);
    var provenance := ProbeProvenance(probe, tools);
    Some((Entry(ordinal, identity, model, capabilities, DeviceMemory(mib, api), health, generation, provenance), k10))
  }

  function GetEntries(n: nat, b: seq<u8>): Decoded<seq<Entry>> {
    if n == 0 then Some(([], b))
    else
      var (e, k) :- GetEntry(b);
      var (es, k1) :- GetEntries(n - 1, k);
      Some(([e] + es, k1))
  }

  function ByOrdinal(es: seq<Entry>): map<u32, Entry> {
    if es == [] then map[] else ByOrdinal(es[..|es| - 1])[es[|es| - 1].ordinal := es[|es| - 1]]
  }

  /** Reads a whole canonical encoding back. */
  function Decode(b: seq<u8>): Option<(u64, map<u32, Entry>, P2pProbeState)> {
    var (nanos, k1) :- GetU64(b);
    var (n, k2) :- GetU64(k1);
    var (es, k3) :- GetEntries(n, k2);
    var (tag, k4) :- GetByte(k3);
    if tag <= 1 && k4 == [] then Some((nanos, ByOrdinal(es), if tag == 0 then NotAttempted else Attempted)) else None
  }

  lemma SurfaceRoundTrip(d: DtypeSurface, k: seq<u8>)
    ensures GetSurface(PutSurface(d, k)) == Some((d, k))
  {
    hide GetBool, PutBool;
    var k5 := PutBool(d.i32, k);
    var k4 := PutBool(d.i8, k5);
    var k3 := PutBool(d.bf16, k4);
    var k2 := PutBool(d.f16, k3);
    var k1 := PutBool(d.f64, k2);
    BoolRoundTrip(d.f32, k1);
    BoolRoundTrip(d.f64, k2);
    BoolRoundTrip(d.f16, k3);
    BoolRoundTrip(d.bf16, k4);
    BoolRoundTrip(d.i8, k5);
    BoolRoundTrip(d.i32, k);
  }

  lemma CapabilitiesRoundTrip(c: DeviceCapabilities, k: seq<u8>)
    ensures GetCapabilities(PutCapabilities(c, k)) == Some((c, k))
  {
    hide GetBool, PutBool, GetU32, PutU32, GetSurface, PutSurface;
    var k8 := PutBool(c.unifiedMemory, k);
    var k7 := PutU32(c.collectiveWidth, k8);
    var k6 := PutU32(c.sharedMemoryMaxBytes, k7);
    var k5 := PutU32(c.sharedMemoryMinBytes, k6);
    var k4 := PutU32(c.maxThreadsPerWorkgroup, k5);
    var k3 := PutSurface(c.dtypeSurface, k4);
    var k2 := PutU32(c.smCount, k3);
    var k1 := PutU32(c.computeCapability.minor, k2);
    U32RoundTrip(c.computeCapability.major, k1);
    U32RoundTrip(c.computeCapability.minor, k2);
    U32RoundTrip(c.smCount, k3);
    SurfaceRoundTrip(c.dtypeSurface, k4);
    U32RoundTrip(c.maxThreadsPerWorkgroup, k5);
    U32RoundTrip(c.sharedMemoryMinBytes, k6);
    U32RoundTrip(c.sharedMemoryMaxBytes, k7);
    U32RoundTrip(c.collectiveWidth, k8);
    BoolRoundTrip(c.unifiedMemory, k);
  }

  lemma HealthRoundTrip(h: DeviceHealth, k: seq<u8>)
    ensures GetHealth(PutHealth(h, k)) == Some((h, k))
  {
    hide GetByte, PutByte, GetStr, PutStr;
    match h
    case Healthy =>
      ByteRoundTrip(0, k);
    case Degraded(reason) =>
      ByteRoundTrip(1, PutStr(reason, k));
      StrRoundTrip(reason, k);
  }

  lemma EntryRoundTrip(e: Entry, k: seq<u8>)
    ensures GetEntry(PutEntry(e, k)) == Some((e, k))
  {
    hide GetU32, PutU32, GetU64, PutU64, GetId, PutId, GetOptStr, PutOptStr, GetStr, PutStr, GetOptU64, PutOptU64,
      GetCapabilities, PutCapabilities, GetHealth, PutHealth;
    var k9 := PutStr(e.provenance.toolVersions, k);
    var k8 := PutStr(e.provenance.probe, k9);
    var k7 := PutU64(e.healthGeneration, k8);
    var k6 := PutHealth(e.health, k7);
    var k5 := PutU64(e.memory.apiTotalBytes, k6);
    var k4 := PutOptU64(e.memory.toolReportTotalMib, k5);
    var k3 := PutCapabilities(e.capabilities, k4);
    var k2 := PutOptStr(e.deviceModel, k3);
    var k1 := PutId(e.identity, k2);
    U32RoundTrip(e.ordinal, k1);
    IdRoundTrip(e.identity, k2);
    OptStrRoundTrip(e.deviceModel, k3);
    CapabilitiesRoundTrip(e.capabilities, k4);
    OptU64RoundTrip(e.memory.toolReportTotalMib, k5);
    U64RoundTrip(e.memory.apiTotalBytes, k6);
    HealthRoundTrip(e.health, k7);
    U64RoundTrip(e.healthGeneration, k8);
    StrRoundTrip(e.provenance.probe, k9);
    StrRoundTrip(e.provenance.toolVersions, k);
  }

  lemma {:induction false} EntriesRoundTrip(es: seq<Entry>, k: seq<u8>)
    ensures GetEntries(|es|, PutEntries(es, k)) == Some((es, k))
  {
    hide GetEntry, PutEntry;
    if es != [] {
      EntryRoundTrip(es[0], PutEntries(es[1..], k));
      EntriesRoundTrip(es[1..], k);
      assert es == [es[0]] + es[1..];
    }
  }

  /** The map built from the entries of a keyed map is that map. */
  lemma {:induction false} ByOrdinalMember(es: seq<Entry>, o: u32)
    ensures o in ByOrdinal(es) <==> exists e :: e in es && e.ordinal == o
    ensures o in ByOrdinal(es) ==> ByOrdinal(es)[o] in es && ByOrdinal(es)[o].ordinal == o
  {
    if es != [] {
      var init, last := es[..|es| - 1], es[|es| - 1];
      ByOrdinalMember(init, o);
      assert es == init + [last];
      assert forall e :: e in es <==> e in init || e == last;
    }
  }

  lemma ByOrdinalOfValues(devices: map<u32, Entry>)
    requires Keyed(devices)
    ensures ByOrdinal(Values(devices)) == devices
  {
    var es := Values(devices);
    forall o: u32
      ensures o in ByOrdinal(es) <==> o in devices
      ensures o in devices ==> ByOrdinal(es)[o] == devices[o]
    {
      ByOrdinalMember(es, o);
    }
  }

  /** The decoder recovers every encoded fact of a sample. */
  lemma SnapshotRoundTrip(nanos: u64, devices: map<u32, Entry>, p2p: P2pProbeState)
    requires Keyed(devices)
    ensures Decode(CanonicalBytes(nanos, devices, p2p)) == Some((nanos, devices, p2p))
  {
    hide GetU64, PutU64, GetByte, PutByte, GetEntries, PutEntries, ByOrdinal;
    var es := Values(devices);
    var k3 := PutP2p(p2p, []);
    var k2 := PutEntries(es, k3);
    U64RoundTrip(nanos, PutU64(|devices|, k2));
    U64RoundTrip(|devices|, k2);
    EntriesRoundTrip(es, k3);
    ByteRoundTrip(if p2p.NotAttempted? then 0 else 1, []);
    ByOrdinalOfValues(devices);
  }

  /** Two samples have the same canonical bytes exactly when they agree on every fact. */
  lemma SnapshotBytesDetermineFacts(s: Snapshot, t: Snapshot)
    requires Keyed(s.devices) && Keyed(t.devices)
    ensures CanonicalBytes(s.probeUtcNanos, s.devices, s.p2p) == CanonicalBytes(t.probeUtcNanos, t.devices, t.p2p)
       <==> s.probeUtcNanos == t.probeUtcNanos && s.devices == t.devices && s.p2p == t.p2p
  {
    SnapshotRoundTrip(s.probeUtcNanos, s.devices, s.p2p);
    SnapshotRoundTrip(t.probeUtcNanos, t.devices, t.p2p);
  }

  // ---- the pushing encoder of the code ----

  method PushCapabilities(out: seq<u8>, c: DeviceCapabilities, ghost k: seq<u8>) returns (r: seq<u8>)
    ensures r + k == out + PutCapabilities(c, k)
  {
    hide PutBool, PutU32;
    ghost var k8 := PutBool(c.unifiedMemory, k);
    ghost var k7 := PutU32(c.collectiveWidth, k8);
    ghost var k6 := PutU32(c.sharedMemoryMaxBytes, k7);
    ghost var k5 := PutU32(c.sharedMemoryMinBytes, k6);
    ghost var k4 := PutU32(c.maxThreadsPerWorkgroup, k5);
    ghost var k3 := PutSurface(c.dtypeSurface, k4);
    ghost var k2 := PutU32(c.smCount, k3);
    r := PushU32(out, c.computeCapability.major, PutU32(c.computeCapability.minor, k2));
    r := PushU32(r, c.computeCapability.minor, k2);
    r := PushU32(r, c.smCount, k3);
    r := PushSurface(r, c.dtypeSurface, k4);
    r := PushU32(r, c.maxThreadsPerWorkgroup, k5);
    r := PushU32(r, c.sharedMemoryMinBytes, k6);
    r := PushU32(r, c.sharedMemoryMaxBytes, k7);
    r := PushU32(r, c.collectiveWidth, k8);
    r := PushBool(r, c.unifiedMemory, k);
  }

  method PushSurface(out: seq<u8>, d: DtypeSurface, ghost k: seq<u8>) returns (r: seq<u8>)
    ensures r + k == out + PutSurface(d, k)
  {
    hide PutBool;
    ghost var k5 := PutBool(d.i32, k);
    ghost var k4 := PutBool(d.i8, k5);
    ghost var k3 := PutBool(d.bf16, k4);
    ghost var k2 := PutBool(d.f16, k3);
    r := PushBool(out, d.f32, PutBool(d.f64, k2));
    r := PushBool(r, d.f64, k2);
    r := PushBool(r, d.f16, k3);
    r := PushBool(r, d.bf16, k4);
    r := PushBool(r, d.i8, k5);
    r := PushBool(r, d.i32, k);
  }

  method PushHealth(out: seq<u8>, h: DeviceHealth, ghost k: seq<u8>) returns (r: seq<u8>)
    ensures r + k == out + PutHealth(h, k)
  {
    match h
    case Healthy =>
      r := PushByte(out, 0, k);
    case Degraded(reason) =>
      r := PushByte(out, 1, PutStr(reason, k));
      r := PushStr(r, reason, k);
  }

  method PushEntry(out: seq<u8>, e: Entry, ghost k: seq<u8>) returns (r: seq<u8>)
    ensures r + k == out + PutEntry(e, k)
  {
    hide PutU32, PutU64, PutId, PutOptStr, PutStr, PutOptU64, PutCapabilities, PutHealth;
    ghost var k9 := PutStr(e.provenance.toolVersions, k);
    ghost var k8 := PutStr(e.provenance.probe, k9);
    ghost var k7 := PutU64(e.healthGeneration, k8);
    ghost var k6 := PutHealth(e.health, k7);
    ghost var k5 := PutU64(e.memory.apiTotalBytes, k6);
    ghost var k4 := PutOptU64(e.memory.toolReportTotalMib, k5);
    ghost var k3 := PutCapabilities(e.capabilities, k4);
    ghost var k2 := PutOptStr(e.deviceModel, k3);
    r := PushU32(out, e.ordinal, PutId(e.identity, k2));
    r := PushId(r, e.identity, k2);
    r := PushOptStr(r, e.deviceModel, k3);
    r := PushCapabilities(r, e.capabilities, k4);
    r := PushOptU64(r, e.memory.toolReportTotalMib, k5);
    r := PushU64(r, e.memory.apiTotalBytes, k6);
    r := PushHealth(r, e.health, k7);
    r := PushU64(r, e.healthGeneration, k8);
    r := PushStr(r, e.provenance.probe, k9);
    r := PushStr(r, e.provenance.toolVersions, k);
  }

  method CanonicalBytesWithoutId(nanos: u64, devices: map<u32, Entry>, p2p: P2pProbeState) returns (out: seq<u8>)
    requires |devices| < U64_LIMIT
    ensures out == CanonicalBytes(nanos, devices, p2p)
  {
    hide PutU64, PutEntry;
    var es := Values(devices);
    ghost var end := PutP2p(p2p, []);
    out := PushU64([], nanos, PutU64(|devices|, PutEntries(es, end)));
    out := PushU64(out, |devices|, PutEntries(es, end));
    for i := 0 to |es|
      invariant out + PutEntries(es[i..], end) == CanonicalBytes(nanos, devices, p2p)
    {
      assert es[i..][1..] == es[i + 1..];
      out := PushEntry(out, es[i], PutEntries(es[i + 1..], end));
    }
    out := PushByte(out, if p2p.NotAttempted? then 0 else 1, []);
  }

  /** Build a sample; None is the panic on an entry filed under a foreign ordinal. */
  method New(nanos: u64, devices: map<u32, Entry>, p2p: P2pProbeState) returns (r: Option<Snapshot>)
    requires |devices| < U64_LIMIT
    ensures r.Some? <==> Keyed(devices)
    ensures r.Some? ==> r.value == Snapshot(Sha.DigestOf(CanonicalBytes(nanos, devices, p2p)), nanos, devices, p2p)
  {
    hide Sha.DigestOf, CanonicalBytes;
    if exists k | k in devices :: devices[k].ordinal != k {
      return None;
    }
    var bytes := CanonicalBytesWithoutId(nanos, devices, p2p);
    var id := Sha.Digest(bytes);
    return Some(Snapshot(id, nanos, devices, p2p));
  }

  /** Collect enumerated entries under their ordinals; the last entry of an ordinal stays. */
  method FromEnumerated(nanos: u64, entries: seq<Entry>) returns (r: Option<Snapshot>)
    requires |entries| < U64_LIMIT
    ensures r.Some? && r.value.p2p == NotAttempted && r.value.probeUtcNanos == nanos
    ensures r.value.devices == ByOrdinal(entries)
  {
    var devices: map<u32, Entry> := map[];
    for i := 0 to |entries|
      invariant devices == ByOrdinal(entries[..i]) && |devices| <= i
    {
      assert entries[..i + 1][..i] == entries[..i];
      devices := devices[entries[i].ordinal := entries[i]];
    }
    assert entries[..|entries|] == entries;
    forall k | k in devices
      ensures devices[k].ordinal == k
    {
      ByOrdinalMember(entries, k);
    }
    r := New(nanos, devices, NotAttempted);
  }
}
