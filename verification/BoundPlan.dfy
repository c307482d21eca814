/** bound_plan.rs: admission of a logical plan and its binding to a physical topology. */
module BoundPlan {
  import opened Prelude
  import opened Ordered
  import opened DeviceIdentity
  import opened Discovery
  import opened DeviceSet
  import opened Partition
  import Sha = Sha256

  /** Opaque logical partition identity. */
  type LogicalPartitionId = Text

  datatype Constraint =
    | DistinctPhysicalDevices
    | Colocated(partitions: set<LogicalPartitionId>)
    | RequiredBackend(partitions: set<LogicalPartitionId>, backend: DeviceBackend)

  datatype Demand = Demand(threads: Option<u32>, sharedMemoryBytes: Option<u32>)

  const NO_DEMAND := Demand(None, None)

  datatype AdmittedPlan = AdmittedPlan(
    hash: Text,
    partitions: set<LogicalPartitionId>,
    constraints: seq<Constraint>,
    demand: Demand)

  datatype AdmitError =
    | UnadmittedLogicalHash(given: Text)
    | NoDeclaredPartitions
    | ConstraintReferencesUnknownPartition(partition: LogicalPartitionId)

  datatype Binding = Binding(device: PhysicalDeviceId, virtualPartition: Option<VirtualDevicePartition>)

  type Bindings = map<LogicalPartitionId, Binding>

  datatype Kind =
    | ImplicitLocal(device: PhysicalDeviceId, virtualPartition: Option<VirtualDevicePartition>)
    | Distributed(bindings: Bindings)

  datatype Plan = Plan(
    logicalHash: Text,
    kind: Kind,
    deviceSet: set<PhysicalDeviceId>,
    snapshotId: seq<u8>,
    fixture: FixtureIdentityClass,
    transport: TransportClass,
    boundHash: seq<u8>)

  datatype BindError =
    | StaleSnapshot(snapshotId: seq<u8>, current: u64)
    | MembershipFailed(error: MembershipError)
    | TopologyMismatch
    | InvalidPartitionBinding(partition: LogicalPartitionId)
    | OverBudget(seed: u64, declaredTotalBytes: Option<u64>, policyLimitBytes: u64)
    | ConstraintViolation(constraint: Constraint)
    | LaunchResourceLimit(device: PhysicalDeviceId)

  // ---- admission ----

  /** "sha256:" */
  const PREFIX: seq<u8> := [0x73, 0x68, 0x61, 0x32, 0x35, 0x36, 0x3a]

  predicate IsLowerHex(c: u8) { 0x30 <= c <= 0x39 || 0x61 <= c <= 0x66 }

  predicate IsSha256Hex(hash: seq<u8>) {
    && |hash| == 71 && hash[..7] == PREFIX
    && forall i | 7 <= i < 71 :: IsLowerHex(hash[i])
  }

  /** The partitions a constraint names. */
  function Named(c: Constraint): set<LogicalPartitionId> {
    match c
    case DistinctPhysicalDevices => {}
    case Colocated(ps) => ps
    case RequiredBackend(ps, _) => ps
  }

  /** What every admitted plan satisfies; the type has no other constructor. */
  ghost predicate Admitted(a: AdmittedPlan) {
    && IsSha256Hex(a.hash)
    && a.partitions != {}
    && forall c | c in a.constraints :: Named(c) <= a.partitions
  }

  /** Admit a validated logical-plan reference: hash spelling, then partitions, then constraint references. */
  method AdmitPlan(hash: Text, declared: seq<LogicalPartitionId>, constraints: seq<Constraint>)
    returns (r: Result<AdmittedPlan, AdmitError>)
    ensures r.Ok? <==>
      IsSha256Hex(hash) && declared != [] && forall c | c in constraints :: Named(c) <= Elements(declared)
    ensures r.Ok? ==> r.value == AdmittedPlan(hash, Elements(declared), constraints, NO_DEMAND) && Admitted(r.value)
    ensures r.Err? ==> match r.error
      case UnadmittedLogicalHash(given) => given == hash && !IsSha256Hex(hash)
      case NoDeclaredPartitions => IsSha256Hex(hash) && declared == []
      case ConstraintReferencesUnknownPartition(p) =>
        && IsSha256Hex(hash) && declared != [] && p !in declared
        && exists i :: 0 <= i < |constraints| && p in Named(constraints[i])
                       && forall j | 0 <= j < i :: Named(constraints[j]) <= Elements(declared)
  {
    if !IsSha256Hex(hash) {
      return Err(UnadmittedLogicalHash(hash));
    }
    var partitions := Elements(declared);
    ElementsEmpty(declared);
    if partitions == {} {
      return Err(NoDeclaredPartitions);
    }
    for i := 0 to |constraints|
      invariant forall j | 0 <= j < i :: Named(constraints[j]) <= partitions
    {
      if !(Named(constraints[i]) <= partitions) {
        var unknown := Named(constraints[i]) - partitions;
        var q :| q in Named(constraints[i]) && q !in partitions;
        assert q in unknown;
        TextOrder();
        var p := Least(unknown, TextLess);
        assert p in Named(constraints[i]);
        return Err(ConstraintReferencesUnknownPartition(p));
      }
    }
    return Ok(AdmittedPlan(hash, partitions, constraints, NO_DEMAND));
  }

  // ---- the five stages ----

  function BoundDevices(b: Bindings): set<PhysicalDeviceId> {
    set p | p in b :: b[p].device
  }

  ghost predicate Recorded(s: Snapshot, id: PhysicalDeviceId) {
    exists k :: k in s.devices && s.devices[k].identity == id
  }

  /** Stage 1: the sample is of the current epoch and knows every member. */
  ghost predicate HealthEpoch(members: set<PhysicalDeviceId>, s: Snapshot, current: u64) {
    && !IsStale(s, current)
    && forall id | id in members :: Recorded(s, id)
  }

  /** Stage 2: bindings for exactly the declared partitions, on exactly the members. */
  ghost predicate TopologyMatches(a: AdmittedPlan, b: Bindings, members: set<PhysicalDeviceId>) {
    b.Keys == a.partitions && BoundDevices(b) == members
  }

  predicate BindingConsistent(b: Binding) {
    b.virtualPartition.Some? ==>
      b.virtualPartition.value.boundDevice == b.device && b.virtualPartition.value.state.Active?
  }

  /** Stage 3. */
  ghost predicate BindingsConsistent(b: Bindings) {
    forall p | p in b :: BindingConsistent(b[p])
  }

  /** Stage 4: what a constraint asks of the bindings. */
  ghost predicate ConstraintHolds(c: Constraint, b: Bindings)
    requires Named(c) <= b.Keys
  {
    match c
    case DistinctPhysicalDevices => Apart(b)
    case Colocated(ps) => forall p, q | p in ps && q in ps :: b[p].device == b[q].device
    case RequiredBackend(ps, backend) => forall p | p in ps :: b[p].device.Backend() == backend
  }

  /** A declared amount against a device ceiling: a zero ceiling cannot be evaluated. */
  predicate WithinLimit(demand: Option<u32>, limit: u32) {
    demand.Some? ==> 0 < limit && demand.value <= limit
  }

  predicate DeviceMeets(demand: Demand, entries: seq<Entry>, id: PhysicalDeviceId) {
    var e := FindEntry(entries, id);
    demand != NO_DEMAND ==>
      && e.Some?
      && WithinLimit(demand.threads, e.value.capabilities.maxThreadsPerWorkgroup)
      && WithinLimit(demand.sharedMemoryBytes, e.value.capabilities.sharedMemoryMaxBytes)
  }

  /** Stage 5. */
  ghost predicate LimitsHold(demand: Demand, devices: set<PhysicalDeviceId>, s: Snapshot) {
    forall id | id in devices :: DeviceMeets(demand, Values(s.devices), id)
  }

  ghost predicate ConstraintsHold(a: AdmittedPlan, b: Bindings)
    requires Admitted(a) && b.Keys == a.partitions
  {
    forall c | c in a.constraints :: ConstraintHolds(c, b)
  }

  // ---- constraint checks of the code ----

  /** No two bindings share a device. */
  ghost predicate Apart(b: Bindings) {
    forall p, q | p in b && q in b && p != q :: b[p].device != b[q].device
  }

  lemma ApartStep(b: Bindings, p: LogicalPartitionId)
    requires p in b
    ensures Apart(b) <==> Apart(b - {p}) && b[p].device !in BoundDevices(b - {p})
  {
    var rest := b - {p};
    if b[p].device in BoundDevices(rest) {
      var q :| q in rest && rest[q].device == b[p].device;
      assert q in b && q != p && b[q].device == b[p].device;
    }
    if Apart(b) {
      forall q, r | q in rest && r in rest && q != r
        ensures rest[q].device != rest[r].device
      {
        assert q in b && r in b;
      }
    } else {
      var q, r :| q in b && r in b && q != r && b[q].device == b[r].device;
      if q == p {
        assert r in rest;
      } else if r == p {
        assert q in rest;
      } else {
        assert q in rest && r in rest;
      }
    }
  }

  /** As many distinct devices as bindings exactly when no two bindings share one. */
  lemma {:induction false} DistinctCount(b: Bindings)
    ensures |BoundDevices(b)| <= |b|
    ensures |BoundDevices(b)| == |b| <==> Apart(b)
  {
    if b != map[] {
      hide Apart;
      var p :| p in b;
      var rest := b - {p};
      DistinctCount(rest);
      ApartStep(b, p);
      assert b.Keys == rest.Keys + {p};
      assert BoundDevices(b) == BoundDevices(rest) + {b[p].device};
      if b[p].device in BoundDevices(rest) {
        assert BoundDevices(b) == BoundDevices(rest);
      }
    }
  }

  lemma AtMostOne<T>(s: set<T>)
    ensures |s| <= 1 <==> forall x, y | x in s && y in s :: x == y
  {
    if s != {} {
      var x :| x in s;
      if s - {x} == {} {
        assert s == {x};
      } else {
        var y :| y in s - {x};
        assert {x, y} <= s;
        assert |{x, y}| == 2;
        SubsetSize({x, y}, s);
      }
    }
  }

  /** `check_constraint`: every named partition is bound, so no lookup can miss. */
  method CheckConstraint(c: Constraint, b: Bindings) returns (ok: bool)
    requires Named(c) <= b.Keys
    ensures ok <==> ConstraintHolds(c, b)
  {
    match c
    case DistinctPhysicalDevices =>
      DistinctCount(b);
      ok := |BoundDevices(b)| == |b|;
    case Colocated(ps) =>
      var devices: set<PhysicalDeviceId> := {};
      var todo := ps;
      while todo != {}
        invariant todo <= ps
        invariant devices == set p | p in ps - todo :: b[p].device
        decreases |todo|
      {
        var p :| p in todo;
        todo := todo - {p};
        devices := devices + {b[p].device};
      }
      AtMostOne(devices);
      assert forall p | p in ps :: b[p].device in devices;
      ok := |devices| <= 1;
    case RequiredBackend(ps, backend) =>
      var todo := ps;
      while todo != {}
        invariant todo <= ps
        invariant forall p | p in ps - todo :: b[p].device.Backend() == backend
        decreases |todo|
      {
        var p :| p in todo;
        if b[p].device.Backend() != backend {
          return false;
        }
        todo := todo - {p};
      }
      ok := true;
  }

  /** The checks of one device: it is recorded, and each declared amount has a nonzero ceiling that holds it. */
  method MeetsLimits(demand: Demand, entries: seq<Entry>, id: PhysicalDeviceId) returns (ok: bool)
    requires demand.threads.Some? || demand.sharedMemoryBytes.Some?
    ensures ok <==> DeviceMeets(demand, entries, id)
  {
    var e := FindEntry(entries, id);
    if e.None? {
      return false;
    }
    var caps := e.value.capabilities;
    if demand.threads.Some? {
      var limit := caps.maxThreadsPerWorkgroup;
      if limit == 0 || demand.threads.value > limit {
        return false;
      }
    }
    if demand.sharedMemoryBytes.Some? {
      var limit := caps.sharedMemoryMaxBytes;
      if limit == 0 || demand.sharedMemoryBytes.value > limit {
        return false;
      }
    }
    return true;
  }

  /** `check_launch_resource_limits`: the first failing device in identity order is reported. */
  method CheckLimits(demand: Demand, devices: set<PhysicalDeviceId>, s: Snapshot) returns (r: Option<PhysicalDeviceId>)
    ensures r.None? <==> LimitsHold(demand, devices, s)
    ensures r.Some? ==> r.value in devices && !DeviceMeets(demand, Values(s.devices), r.value)
                        && forall o | o in devices && IdLess(o, r.value) :: DeviceMeets(demand, Values(s.devices), o)
  {
    hide IdLess, SortedIds, WithinLimit, FindEntry;
    if demand.threads.None? && demand.sharedMemoryBytes.None? {
      return None;
    }
    var ids := SortedIds(devices);
    SortedIdsListing(devices);
    var entries := Values(s.devices);
    for i := 0 to |ids|
      invariant forall id | id in ids[..i] :: DeviceMeets(demand, entries, id)
    {
      var ok := MeetsLimits(demand, entries, ids[i]);
      if !ok {
        return Some(ids[i]);
      }
    }
    assert ids[..|ids|] == ids;
    return None;
  }

  // ---- canonical bytes ----

  function PutOptVirtual(v: Option<VirtualDevicePartition>, k: seq<u8>): seq<u8> {
    PutByte(if v.Some? then 1 else 0, if v.Some? then PutU64(v.value.id, k) else k)
  }

  function GetOptVirtual(b: seq<u8>): Decoded<Option<u64>> {
    var (tag, k) :- GetByte(b);
    if tag == 1 then var (id, k1) :- GetU64(k); Some((Some(id), k1))
    else if tag == 0 then Some((None, k))
    else None
  }

  /** A binding as the bytes record it. */
  datatype Row = Row(partition: Text, device: PhysicalDeviceId, virtualId: Option<u64>)

  function VirtualId(v: Option<VirtualDevicePartition>): Option<u64> {
    if v.Some? then Some(v.value.id) else None
  }

  function SortedPartitions(b: Bindings): seq<Text> {
    TextOrder();
    Sorted(b.Keys, TextLess)
  }

  function PutRow(p: Text, b: Binding, k: seq<u8>): seq<u8> {
    PutStr(p, PutId(b.device, PutOptVirtual(b.virtualPartition, k)))
  }

  function PutRows(ps: seq<Text>, b: Bindings, k: seq<u8>): seq<u8>
    requires forall p | p in ps :: p in b
  {
    if ps == [] then k else PutRow(ps[0], b[ps[0]], PutRows(ps[1..], b, k))
  }

  lemma SortedPartitionsListing(b: Bindings)
    ensures |SortedPartitions(b)| == |b| && Elements(SortedPartitions(b)) == b.Keys
    ensures forall p :: p in SortedPartitions(b) <==> p in b
    ensures forall i, q | 0 <= i < |b| && q in b && TextLess(q, SortedPartitions(b)[i]) :: q in SortedPartitions(b)[..i]
  {
    hide TextLess;
    TextOrder();
    SortedListing(b.Keys, TextLess);
    assert forall p :: p in Elements(SortedPartitions(b)) <==> p in SortedPartitions(b);
    forall i, q | 0 <= i < |b| && q in b && TextLess(q, SortedPartitions(b)[i])
      ensures q in SortedPartitions(b)[..i]
    {
      SortedBefore(b.Keys, TextLess, i, q);
    }
  }

  function PutKind(kind: Kind, k: seq<u8>): seq<u8>
    requires kind.Distributed? ==> |kind.bindings| < U64_LIMIT
  {
    match kind
    case ImplicitLocal(device, virtual) => PutByte(0, PutId(device, PutOptVirtual(virtual, k)))
    case Distributed(bindings) =>
      SortedPartitionsListing(bindings);
      PutByte(1, PutU64(|bindings|, PutRows(SortedPartitions(bindings), bindings, k)))
  }

  /** Map and set lengths are usize values; a snapshot id has 32 bytes. */
  ghost predicate Encodable(p: Plan) {
    && (p.kind.Distributed? ==> |p.kind.bindings| < U64_LIMIT)
    && |p.deviceSet| < U64_LIMIT
    && |p.snapshotId| == 32
  }

  function PlanBytes(p: Plan): seq<u8>
    requires Encodable(p)
  {
    PutStr(p.logicalHash, PutKind(p.kind, PutU64(|p.deviceSet|, PutIds(SortedIds(p.deviceSet),
      p.snapshotId + PutTags(p.fixture, p.transport, [])))))
  }

  /** The binding facts of a plan. */
  datatype KindFacts =
    | LocalFacts(device: PhysicalDeviceId, virtualId: Option<u64>)
    | DistributedFacts(rows: map<Text, (PhysicalDeviceId, Option<u64>)>)

  datatype Facts = Facts(
    logicalHash: Text,
    kind: KindFacts,
    deviceSet: set<PhysicalDeviceId>,
    snapshotId: seq<u8>,
    fixture: FixtureIdentityClass,
    transport: TransportClass)

  function KindFactsOf(kind: Kind): KindFacts {
    match kind
    case ImplicitLocal(device, virtual) => LocalFacts(device, VirtualId(virtual))
    case Distributed(b) => DistributedFacts(map p | p in b :: (b[p].device, VirtualId(b[p].virtualPartition)))
  }

  /** Everything the bound-plan bytes must determine. */
  function FactsOf(p: Plan): Facts {
    Facts(p.logicalHash, KindFactsOf(p.kind), p.deviceSet, p.snapshotId, p.fixture, p.transport)
  }

  function GetRows(n: nat, b: seq<u8>): Decoded<map<Text, (PhysicalDeviceId, Option<u64>)>> {
    if n == 0 then Some((map[], b))
    else
      var (p, k1) :- GetStr(b);
      var (device, k2) :- GetId(k1);
      var (virtual, k3) :- GetOptVirtual(k2);
      var (rows, k4) :- GetRows(n - 1, k3);
      Some((rows[p := (device, virtual)], k4))
  }

  function GetKind(b: seq<u8>): Decoded<KindFacts> {
    var (tag, k) :- GetByte(b);
    if tag == 0 then
      var (device, k1) :- GetId(k);
      var (virtual, k2) :- GetOptVirtual(k1);
      Some((LocalFacts(device, virtual), k2))
    else if tag == 1 then
      var (n, k1) :- GetU64(k);
      var (rows, k2) :- GetRows(n, k1);
      Some((DistributedFacts(rows), k2))
    else None
  }

  function DecodePlan(b: seq<u8>): Option<Facts> {
    var (hash, k1) :- GetStr(b);
    var (kind, k2) :- GetKind(k1);
    var (n, k3) :- GetU64(k2);
    var (ids, k4) :- GetIds(n, k3);
    if |k4| < 32 then None
    else
      var (tags, k5) :- GetTags(k4[32..]);
      Some(Facts(hash, kind, Elements(ids), k4[..32], tags.0, tags.1))
  }

  lemma OptVirtualRoundTrip(v: Option<VirtualDevicePartition>, k: seq<u8>)
    ensures GetOptVirtual(PutOptVirtual(v, k)) == Some((VirtualId(v), k))
  {
    hide PutU64, GetU64, PutByte, GetByte;
    ByteRoundTrip(if v.Some? then 1 else 0, if v.Some? then PutU64(v.value.id, k) else k);
    if v.Some? {
      U64RoundTrip(v.value.id, k);
    }
  }

  function RowFacts(ps: seq<Text>, b: Bindings): map<Text, (PhysicalDeviceId, Option<u64>)>
    requires forall p | p in ps :: p in b
  {
    if ps == [] then map[]
    else RowFacts(ps[1..], b)[ps[0] := (b[ps[0]].device, VirtualId(b[ps[0]].virtualPartition))]
  }

  lemma {:induction false} RowFactsAt(ps: seq<Text>, b: Bindings)
    requires forall p | p in ps :: p in b
    ensures forall p :: p in RowFacts(ps, b) <==> p in ps
    ensures forall p | p in ps :: RowFacts(ps, b)[p] == (b[p].device, VirtualId(b[p].virtualPartition))
  {
    if ps != [] {
      RowFactsAt(ps[1..], b);
    }
  }

  lemma {:induction false} RowsRoundTrip(ps: seq<Text>, b: Bindings, k: seq<u8>)
    requires forall p | p in ps :: p in b
    ensures GetRows(|ps|, PutRows(ps, b, k)) == Some((RowFacts(ps, b), k))
  {
    hide PutStr, GetStr, PutId, GetId, PutOptVirtual, GetOptVirtual;
    if ps != [] {
      var p := ps[0];
      var k3 := PutRows(ps[1..], b, k);
      var k2 := PutOptVirtual(b[p].virtualPartition, k3);
      StrRoundTrip(p, PutId(b[p].device, k2));
      IdRoundTrip(b[p].device, k2);
      OptVirtualRoundTrip(b[p].virtualPartition, k3);
      RowsRoundTrip(ps[1..], b, k);
    }
  }

  lemma KindRoundTrip(kind: Kind, k: seq<u8>)
    requires kind.Distributed? ==> |kind.bindings| < U64_LIMIT
    ensures GetKind(PutKind(kind, k)) == Some((KindFactsOf(kind), k))
  {
    hide PutByte, GetByte, PutId, GetId, PutOptVirtual, GetOptVirtual, PutU64, GetU64, PutRows, GetRows,
         SortedPartitions;
    match kind
    case ImplicitLocal(device, virtual) =>
      ByteRoundTrip(0, PutId(device, PutOptVirtual(virtual, k)));
      IdRoundTrip(device, PutOptVirtual(virtual, k));
      OptVirtualRoundTrip(virtual, k);
    case Distributed(b) =>
      SortedPartitionsListing(b);
      var ps := SortedPartitions(b);
      ByteRoundTrip(1, PutU64(|b|, PutRows(ps, b, k)));
      U64RoundTrip(|b|, PutRows(ps, b, k));
      RowsRoundTrip(ps, b, k);
      RowFactsAt(ps, b);
      assert RowFacts(ps, b) == KindFactsOf(kind).rows;
  }

  /** A decoder recovers every binding fact from the bytes. */
  lemma PlanRoundTrip(p: Plan)
    requires Encodable(p)
    ensures DecodePlan(PlanBytes(p)) == Some(FactsOf(p))
  {
    hide PutStr, GetStr, PutKind, GetKind, PutU64, GetU64, PutIds, GetIds, PutTags, GetTags, KindFactsOf, SortedIds;
    SortedIdsListing(p.deviceSet);
    var ids := SortedIds(p.deviceSet);
    var tags := PutTags(p.fixture, p.transport, []);
    var k4 := p.snapshotId + tags;
    var k3 := PutIds(ids, k4);
    var k2 := PutU64(|p.deviceSet|, k3);
    StrRoundTrip(p.logicalHash, PutKind(p.kind, k2));
    KindRoundTrip(p.kind, k2);
    U64RoundTrip(|p.deviceSet|, k3);
    IdsRoundTrip(ids, k4);
    assert k4[..32] == p.snapshotId && k4[32..] == tags;
    TagsRoundTrip(p.fixture, p.transport, []);
  }

  lemma PutRowsByFacts(ps: seq<Text>, b: Bindings, c: Bindings, k: seq<u8>)
    requires forall p | p in ps :: p in b && p in c
    requires forall p | p in ps :: b[p].device == c[p].device
    requires forall p | p in ps :: VirtualId(b[p].virtualPartition) == VirtualId(c[p].virtualPartition)
    ensures PutRows(ps, b, k) == PutRows(ps, c, k)
  {
  }

  /** Two plans have the same bytes exactly when they agree on every binding fact. */
  lemma PlanBytesDetermineFacts(p: Plan, q: Plan)
    requires Encodable(p) && Encodable(q)
    ensures PlanBytes(p) == PlanBytes(q) <==> FactsOf(p) == FactsOf(q)
  {
    PlanRoundTrip(p);
    PlanRoundTrip(q);
    if FactsOf(p) == FactsOf(q) {
      assert KindFactsOf(p.kind) == KindFactsOf(q.kind);
      if p.kind.Distributed? {
        var b, c := p.kind.bindings, q.kind.bindings;
        var rows := KindFactsOf(p.kind).rows;
        assert b.Keys == rows.Keys == c.Keys;
        assert |b| == |b.Keys| == |c.Keys| == |c|;
        SortedPartitionsListing(b);
        forall x | x in b
          ensures b[x].device == c[x].device && VirtualId(b[x].virtualPartition) == VirtualId(c[x].virtualPartition)
        {
          assert rows[x] == (b[x].device, VirtualId(b[x].virtualPartition));
          assert rows[x] == (c[x].device, VirtualId(c[x].virtualPartition));
        }
        forall k
          ensures PutKind(p.kind, k) == PutKind(q.kind, k)
        {
          PutRowsByFacts(SortedPartitions(b), b, c, k);
        }
      }
    }
  }

  method PushOptVirtual(out: seq<u8>, v: Option<VirtualDevicePartition>, ghost k: seq<u8>) returns (r: seq<u8>)
    ensures r + k == out + PutOptVirtual(v, k)
  {
    r := PushByte(out, if v.Some? then 1 else 0, if v.Some? then PutU64(v.value.id, k) else k);
    if v.Some? {
      r := PushU64(r, v.value.id, k);
    }
  }

  method PushKind(out: seq<u8>, kind: Kind, ghost k: seq<u8>) returns (r: seq<u8>)
    requires kind.Distributed? ==> |kind.bindings| < U64_LIMIT
    ensures r + k == out + PutKind(kind, k)
  {
    hide PutByte, PutId, PutOptVirtual, PutU64, PutStr;
    match kind
    case ImplicitLocal(device, virtual) =>
      r := PushByte(out, 0, PutId(device, PutOptVirtual(virtual, k)));
      r := PushId(r, device, PutOptVirtual(virtual, k));
      r := PushOptVirtual(r, virtual, k);
    case Distributed(b) =>
      SortedPartitionsListing(b);
      var ps := SortedPartitions(b);
      r := PushByte(out, 1, PutU64(|b|, PutRows(ps, b, k)));
      r := PushU64(r, |b|, PutRows(ps, b, k));
      for i := 0 to |ps|
        invariant r + PutRows(ps[i..], b, k) == out + PutKind(kind, k)
      {
        assert ps[i..][1..] == ps[i + 1..];
        ghost var rest := PutRows(ps[i + 1..], b, k);
        r := PushStr(r, ps[i], PutId(b[ps[i]].device, PutOptVirtual(b[ps[i]].virtualPartition, rest)));
        r := PushId(r, b[ps[i]].device, PutOptVirtual(b[ps[i]].virtualPartition, rest));
        r := PushOptVirtual(r, b[ps[i]].virtualPartition, rest);
      }
  }

  method CanonicalPlanBytes(p: Plan) returns (out: seq<u8>)
    requires Encodable(p)
    ensures out == PlanBytes(p)
  {
    hide PutStr, PutKind, PutU64, PutIds, PutTags, SortedIds;
    var ids := SortedIds(p.deviceSet);
    ghost var tags := PutTags(p.fixture, p.transport, []);
    ghost var k3 := PutIds(ids, p.snapshotId + tags);
    ghost var k2 := PutU64(|p.deviceSet|, k3);
    out := PushStr([], p.logicalHash, PutKind(p.kind, k2));
    out := PushKind(out, p.kind, k2);
    out := PushU64(out, |p.deviceSet|, k3);
    out := PushIds(out, ids, p.snapshotId + tags);
    assert out + (p.snapshotId + tags) == (out + p.snapshotId) + tags;
    out := out + p.snapshotId;
    out := PushTags(out, p.fixture, p.transport);
  }

  method PushTags(out: seq<u8>, fixture: FixtureIdentityClass, transport: TransportClass) returns (r: seq<u8>)
    ensures r == out + PutTags(fixture, transport, [])
  {
    r := PushU64(out, fixture.Tag(), PutU64(transport.Tag(), []));
    r := PushU64(r, transport.Tag(), []);
  }

  // ---- the bound hash ----

  function HexDigit(v: int): u8
    requires 0 <= v < 16
  {
    if v < 10 then 0x30 + v else 0x61 + v - 10
  }

  function HexLower(b: seq<u8>): (r: seq<u8>)
    ensures |r| == 2 * |b|
    ensures forall i | 0 <= i < |r| :: IsLowerHex(r[i])
  {
    if b == [] then [] else [HexDigit(b[0] / 16), HexDigit(b[0] % 16)] + HexLower(b[1..])
  }

  /** The value of a lowercase hex digit. */
  function DigitValue(c: u8): (v: int)
    ensures IsLowerHex(c) ==> 0 <= v < 16
  {
    if c < 0x61 then c - 0x30 else c - 0x57
  }

  /** Two digits a byte, the high half first. */
  lemma {:induction false} HexLowerValue(b: seq<u8>, i: nat)
    requires i < |b|
    ensures 16 * DigitValue(HexLower(b)[2 * i]) + DigitValue(HexLower(b)[2 * i + 1]) == b[i]
  {
    if i > 0 {
      HexLowerValue(b[1..], i - 1);
      assert HexLower(b)[2 * i] == HexLower(b[1..])[2 * (i - 1)];
      assert HexLower(b)[2 * i + 1] == HexLower(b[1..])[2 * (i - 1) + 1];
    }
  }

  /** The prefix is "sha256:". */
  lemma PrefixSpelling(k: nat)
    requires k < 7
    ensures |PREFIX| == 7 && PREFIX[k] == ("sha256:"[k] as int)
  {
  }

  /** The byte two digits stand for. */
  function Unhex(h: seq<u8>): (r: seq<u8>)
    requires |h| % 2 == 0 && forall i | 0 <= i < |h| :: IsLowerHex(h[i])
    ensures |r| == |h| / 2
  {
    if h == [] then []
    else
      var byte: u8 := 16 * DigitValue(h[0]) + DigitValue(h[1]);
      [byte] + Unhex(h[2..])
  }

  lemma {:induction false} HexOfUnhex(h: seq<u8>)
    requires |h| % 2 == 0 && forall i | 0 <= i < |h| :: IsLowerHex(h[i])
    ensures HexLower(Unhex(h)) == h
  {
    if h != [] {
      HexOfUnhex(h[2..]);
      assert Unhex(h)[1..] == Unhex(h[2..]);
      assert h == [h[0], h[1]] + h[2..];
    }
  }

  /** The well-formed hashes are exactly the spellings of 32 bytes. */
  lemma WellFormedIffSpelling(hash: seq<u8>)
    ensures IsSha256Hex(hash) <==> exists d: seq<u8> :: |d| == 32 && hash == PREFIX + HexLower(d)
  {
    hide HexLower, DigitValue;
    if IsSha256Hex(hash) {
      assert hash == PREFIX + hash[7..];
      assert forall i | 0 <= i < 64 :: hash[7..][i] == hash[i + 7];
      HexOfUnhex(hash[7..]);
      assert hash == PREFIX + HexLower(Unhex(hash[7..]));
    }
  }

  /** `hash` spells the digest out: after the prefix, two hex digits for each of its bytes. */
  predicate Spells(hash: seq<u8>, digest: seq<u8>) {
    && |digest| == 32 && IsSha256Hex(hash)
    && forall i | 0 <= i < 32 :: 16 * DigitValue(hash[7 + 2 * i]) + DigitValue(hash[8 + 2 * i]) == digest[i]
  }

  lemma SpellingIsDigest(bytes: seq<u8>)
    ensures Spells(HashSpelling(bytes), Sha.DigestOf(bytes))
  {
    hide Sha.DigestOf, HexLower, DigitValue;
    var digest, h := Sha.DigestOf(bytes), HashSpelling(bytes);
    forall i | 0 <= i < 32
      ensures 16 * DigitValue(h[7 + 2 * i]) + DigitValue(h[8 + 2 * i]) == digest[i]
    {
      HexLowerValue(digest, i);
      assert h[7 + 2 * i] == HexLower(digest)[2 * i] && h[8 + 2 * i] == HexLower(digest)[2 * i + 1];
    }
  }

  /** A spelling determines the digest it spells. */
  lemma SpelledDigestUnique(hash: seq<u8>, a: seq<u8>, b: seq<u8>)
    requires Spells(hash, a) && Spells(hash, b)
    ensures a == b
  {
    hide DigitValue, IsSha256Hex;
    forall i | 0 <= i < 32
      ensures a[i] == b[i]
    {
    }
  }

  /** "sha256:" and the digest of the bytes, in lowercase hex. */
  function HashSpelling(bytes: seq<u8>): (r: seq<u8>)
    ensures IsSha256Hex(r)
  {
    PREFIX + HexLower(Sha.DigestOf(bytes))
  }

  // ---- bind ----

  ghost predicate Accepts(a: AdmittedPlan, b: Bindings, members: set<PhysicalDeviceId>, s: Snapshot, current: u64)
    requires Admitted(a)
  {
    && HealthEpoch(members, s, current)
    && TopologyMatches(a, b, members)
    && BindingsConsistent(b)
    && ConstraintsHold(a, b)
    && LimitsHold(a.demand, members, s)
  }

  /** A single declared partition binds as the local plan, any other count as a distributed one. */
  ghost predicate KindMatches(kind: Kind, a: AdmittedPlan, b: Bindings) {
    if |a.partitions| == 1 then
      exists p :: a.partitions == {p} && p in b && kind == ImplicitLocal(b[p].device, b[p].virtualPartition)
    else kind == Distributed(b)
  }

  /** Which error stands for which first failing stage. */
  ghost predicate ErrorExplains(e: BindError, a: AdmittedPlan, b: Bindings, members: set<PhysicalDeviceId>,
                                s: Snapshot, current: u64)
    requires Admitted(a)
  {
    match e
    case StaleSnapshot(id, c) => IsStale(s, current) && id == s.id && c == current
    case MembershipFailed(UnknownDevice(id)) =>
      && !IsStale(s, current) && id in members && !Recorded(s, id)
      && forall o | o in members && IdLess(o, id) :: Recorded(s, o)
    case MembershipFailed(StaleEpoch(_, _, _)) => false
    case TopologyMismatch => HealthEpoch(members, s, current) && !TopologyMatches(a, b, members)
    case InvalidPartitionBinding(p) =>
      && HealthEpoch(members, s, current) && TopologyMatches(a, b, members) && p in b && !BindingConsistent(b[p])
      && forall q | q in b && TextLess(q, p) :: BindingConsistent(b[q])
    case ConstraintViolation(c) =>
      && HealthEpoch(members, s, current) && TopologyMatches(a, b, members) && BindingsConsistent(b)
      && exists i :: 0 <= i < |a.constraints| && a.constraints[i] == c && !ConstraintHolds(c, b)
                     && forall j | 0 <= j < i :: ConstraintHolds(a.constraints[j], b)
    case LaunchResourceLimit(id) =>
      && HealthEpoch(members, s, current) && TopologyMatches(a, b, members) && BindingsConsistent(b)
      && ConstraintsHold(a, b)
      && id in members && !DeviceMeets(a.demand, Values(s.devices), id)
      && forall o | o in members && IdLess(o, id) :: DeviceMeets(a.demand, Values(s.devices), o)
    case OverBudget(_, _, _) => false
  }

  /** With no stale entry, a member is current exactly when some entry records it. */
  lemma FreshMembers(s: Snapshot, current: u64, id: PhysicalDeviceId)
    requires !IsStale(s, current)
    ensures CurrentMember(Values(s.devices), current, id) <==> Recorded(s, id)
  {
    var entries := Values(s.devices);
    if k :| k in s.devices && s.devices[k].identity == id {
      assert s.devices[k] in entries;
      var e := FindEntry(entries, id).value;
      var j :| j in s.devices && s.devices[j] == e;
    }
  }

  lemma BytesIgnoreHash(p: Plan, hash: seq<u8>)
    requires Encodable(p)
    ensures PlanBytes(p.(boundHash := hash)) == PlanBytes(p)
  {
  }

  lemma SingletonKey(b: Bindings)
    requires |b.Keys| == 1
    ensures exists p :: p in b && b.Keys == {p}
  {
    var p :| p in b.Keys;
    AtMostOne(b.Keys);
    assert b.Keys == {p};
  }

  /** Stages 1 and 2 of `bind`. */
  method CheckTopology(a: AdmittedPlan, b: Bindings, members: set<PhysicalDeviceId>, s: Snapshot, current: u64)
    returns (r: Option<BindError>)
    requires Admitted(a)
    ensures r.None? <==> HealthEpoch(members, s, current) && TopologyMatches(a, b, members)
    ensures r.Some? ==> ErrorExplains(r.value, a, b, members, s, current)
  {
    hide IdLess, ConstraintsHold, LimitsHold, BindingsConsistent;
    if IsStale(s, current) {
      return Some(StaleSnapshot(s.id, current));
    }
    forall id {
      FreshMembers(s, current, id);
    }
    var error := Validate(members, s, current);
    if error.Some? {
      return Some(MembershipFailed(error.value));
    }
    if b.Keys != a.partitions || BoundDevices(b) != members {
      return Some(TopologyMismatch);
    }
    return None;
  }

  /** An attached partition must be bound to the same device, and active. */
  method CheckBinding(binding: Binding) returns (ok: bool)
    ensures ok <==> BindingConsistent(binding)
  {
    if binding.virtualPartition.Some? {
      var instance := binding.virtualPartition.value;
      if instance.boundDevice != binding.device {
        return false;
      }
      if !instance.state.Active? {
        return false;
      }
    }
    return true;
  }

  /** Stage 3 of `bind`, in partition order. */
  method CheckBindings(b: Bindings) returns (r: Option<LogicalPartitionId>)
    ensures r.None? <==> BindingsConsistent(b)
    ensures r.Some? ==> r.value in b && !BindingConsistent(b[r.value])
                        && forall q | q in b && TextLess(q, r.value) :: BindingConsistent(b[q])
  {
    hide TextLess, SortedPartitions, BindingConsistent;
    var ps := SortedPartitions(b);
    SortedPartitionsListing(b);
    for i := 0 to |ps|
      invariant forall j | 0 <= j < i :: BindingConsistent(b[ps[j]])
    {
      var ok := CheckBinding(b[ps[i]]);
      if !ok {
        forall q | q in b && TextLess(q, ps[i])
          ensures BindingConsistent(b[q])
        {
          assert q in ps[..i];
        }
        return Some(ps[i]);
      }
    }
    return None;
  }

  /** Stage 4 of `bind`: the first violated constraint in declaration order. */
  method CheckConstraints(a: AdmittedPlan, b: Bindings) returns (r: Option<Constraint>)
    requires Admitted(a) && b.Keys == a.partitions
    ensures r.None? <==> ConstraintsHold(a, b)
    ensures r.Some? ==>
      exists i :: 0 <= i < |a.constraints| && a.constraints[i] == r.value && !ConstraintHolds(r.value, b)
                                    && forall j | 0 <= j < i :: ConstraintHolds(a.constraints[j], b)
  {
    hide ConstraintHolds;
    for i := 0 to |a.constraints|
      invariant forall j | 0 <= j < i :: ConstraintHolds(a.constraints[j], b)
    {
      var ok := CheckConstraint(a.constraints[i], b);
      if !ok {
        return Some(a.constraints[i]);
      }
    }
    return None;
  }

  /**
   * Bind an admitted plan: Ok exactly when all five stages hold, otherwise the first failing stage.
   * Both lookups behind an `expect` in the code are plain map selections here, so neither can miss.
   */
  method Bind(a: AdmittedPlan, b: Bindings, members: set<PhysicalDeviceId>, s: Snapshot, current: u64,
              fixture: FixtureIdentityClass, transport: TransportClass) returns (r: Result<Plan, BindError>)
    requires Admitted(a) && |b| < U64_LIMIT && |members| < U64_LIMIT && |s.id| == 32
    ensures r.Ok? <==> Accepts(a, b, members, s, current)
    ensures r.Err? ==> ErrorExplains(r.error, a, b, members, s, current)
    ensures r.Ok? ==>
      && KindMatches(r.value.kind, a, b)
      && r.value.logicalHash == a.hash && r.value.deviceSet == members && r.value.snapshotId == s.id
      && r.value.fixture == fixture && r.value.transport == transport
      && Encodable(r.value) && Spells(r.value.boundHash, Sha.DigestOf(PlanBytes(r.value)))
  {
    hide IdLess, TextLess, HealthEpoch, ConstraintHolds, LimitsHold, DeviceMeets, PlanBytes, Spells, BindingConsistent,
         IsSha256Hex, KindMatches, Encodable;
    var topology := CheckTopology(a, b, members, s, current);
    if topology.Some? {
      return Err(topology.value);
    }
    var invalid := CheckBindings(b);
    if invalid.Some? {
      return Err(InvalidPartitionBinding(invalid.value));
    }
    var violated := CheckConstraints(a, b);
    if violated.Some? {
      return Err(ConstraintViolation(violated.value));
    }
    var over := CheckLimits(a.demand, BoundDevices(b), s);
    if over.Some? {
      return Err(LaunchResourceLimit(over.value));
    }
    var plan := Assemble(a, b, members, s.id, fixture, transport);
    return Ok(plan);
  }

  /** The bound plan and the hash of its bytes. */
  method Assemble(a: AdmittedPlan, b: Bindings, members: set<PhysicalDeviceId>, snapshotId: seq<u8>,
                  fixture: FixtureIdentityClass, transport: TransportClass) returns (p: Plan)
    requires b.Keys == a.partitions && |b| < U64_LIMIT && |members| < U64_LIMIT && |snapshotId| == 32
    ensures KindMatches(p.kind, a, b) && p.logicalHash == a.hash && p.deviceSet == members && p.snapshotId == snapshotId
    ensures p.fixture == fixture && p.transport == transport
    ensures Encodable(p) && Spells(p.boundHash, Sha.DigestOf(PlanBytes(p)))
  {
    hide PlanBytes, HashSpelling, Spells;
    var kind: Kind;
    if |a.partitions| == 1 {
      SingletonKey(b);
      var q :| q in b && b.Keys == {q};
      kind := ImplicitLocal(b[q].device, b[q].virtualPartition);
    } else {
      kind := Distributed(b);
    }
    var plan := Plan(a.hash, kind, members, snapshotId, fixture, transport, []);
    var bytes := CanonicalPlanBytes(plan);
    SpellingIsDigest(bytes);
    BytesIgnoreHash(plan, HashSpelling(bytes));
    p := plan.(boundHash := HashSpelling(bytes));
  }

  // ---- receipt ----

  function ReceiptOf(p: Plan): Receipt {
    match p.kind
    case ImplicitLocal(device, virtual) =>
      NewReceipt({device}, if virtual.Some? then {virtual.value.id} else {}, p.fixture, p.transport)
    case Distributed(b) =>
      NewReceipt(BoundDevices(b), VirtualIds(b), p.fixture, p.transport)
  }

  function VirtualIds(b: Bindings): set<u64> {
    set q | q in b && b[q].virtualPartition.Some? :: b[q].virtualPartition.value.id
  }

  /** The receipt of a bound plan names exactly the bound device set. */
  lemma ReceiptNamesDeviceSet(p: Plan, a: AdmittedPlan, b: Bindings, s: Snapshot, current: u64)
    requires Admitted(a) && Accepts(a, b, p.deviceSet, s, current) && KindMatches(p.kind, a, b)
    ensures ReceiptOf(p).physicalDeviceIds == p.deviceSet
    ensures ReceiptOf(p).physicalDeviceCount == |p.deviceSet|
    ensures p.kind.ImplicitLocal? <==> |a.partitions| == 1
  {
    hide HealthEpoch, ConstraintsHold, LimitsHold, BindingsConsistent;
    if |a.partitions| == 1 {
      var q :| a.partitions == {q} && q in b && p.kind == ImplicitLocal(b[q].device, b[q].virtualPartition);
      assert BoundDevices(b) == {b[q].device};
    }
  }
}
