/** distributed_translate.rs: binding a translated plan's virtual partitions onto a discovery sample. */
module DistributedTranslate {
  import opened Prelude
  import opened Ordered
  import opened DeviceIdentity
  import opened Discovery
  import opened Partition
  import opened BoundPlan
  import Sha = Sha256

  const DEFAULT_PARTITION_BUDGET_BYTES: u64 := 160 * 1024 * 1024

  /** DeviceHealthGeneration::initial() */
  const INITIAL_GENERATION: u64 := 1

  /** A translated plan: its hash, its partitions in plan order and their declared budgets. */
  datatype TranslatedPlan = TranslatedPlan(
    hash: Text,
    partitions: seq<LogicalPartitionId>,
    budgets: map<LogicalPartitionId, u64>)

  datatype Policy = ColocateOnSnapshot | OnePhysicalPerPartition | SplitAcrossMembership(bindCount: u32)

  /** `bind_policy_for_declared_count`: accepted exactly for 1 and for the divisors of the partition count. */
  function PolicyFor(partitionCount: nat, bindCount: u32): (r: Option<Policy>)
    ensures r.Some? <==> bindCount == 1 || (bindCount > 0 && partitionCount > 0 && partitionCount % bindCount == 0)
  {
    if bindCount == 0 then None
    else if bindCount == 1 then Some(ColocateOnSnapshot)
    else if bindCount == partitionCount then Some(OnePhysicalPerPartition)
    else if bindCount < partitionCount && partitionCount % bindCount == 0 then Some(SplitAcrossMembership(bindCount))
    else None
  }

  /** `oq2_default_headroom_policy_bytes`: nine tenths, rounded down, with every intermediate value in u64. */
  function Headroom(total: u64): (r: u64)
    ensures r == 9 * total / 10
  {
    var quotient: u64 := total / 10;
    var remainder: u64 := total % 10;
    var high: u64 := quotient * 9;
    var low: u64 := remainder * 9 / 10;
    high + low
  }

  function Budget(plan: TranslatedPlan, p: LogicalPartitionId): u64 {
    if p in plan.budgets then plan.budgets[p] else DEFAULT_PARTITION_BUDGET_BYTES
  }

  function LedgerFor(budget: u64): Ledger {
    Ledger(0, 0, budget / 4, 0, 0, budget / 4, 0)
  }

  /** The snapshot's devices in ordinal order. */
  function PhysicalIds(s: Snapshot): (r: seq<PhysicalDeviceId>)
    ensures |r| == |s.devices|
  {
    var entries := Values(s.devices);
    seq(|entries|, i requires 0 <= i < |entries| => entries[i].identity)
  }

  /** Different ranks are made up different ids. */
  lemma FabricatedInjective(i: nat, j: nat)
    requires i + 14 < 0x1_0000_0000_0000_0000 && j + 14 < 0x1_0000_0000_0000_0000
    requires Fabricated(i) == Fabricated(j)
    ensures i == j
  {
    assert Fabricated(i).pciUuid[13..] == Digits(i) && Fabricated(j).pciUuid[13..] == Digits(j);
    DigitsValue(i);
    DigitsValue(j);
  }

  lemma FabricatedSpelling(i: nat, k: nat)
    requires i + 14 < 0x1_0000_0000_0000_0000 && k < 13
    ensures Fabricated(i).pciUuid[k] == ("GPU-promoted-"[k] as int) && Fabricated(i).driverUuid.None?
    ensures Fabricated(i).pciUuid[13..] == Digits(i)
  {
  }

  /** "GPU-promoted-" and the rank. */
  function Fabricated(index: nat): PhysicalDeviceId
    requires index + 14 < 0x1_0000_0000_0000_0000
  {
    CudaId([0x47, 0x50, 0x55, 0x2d, 0x70, 0x72, 0x6f, 0x6d, 0x6f, 0x74, 0x65, 0x64, 0x2d] + Digits(index), None)
  }

  /** Half the budget a partition declares, 160 MiB if none, in two whole quarters: at most nine tenths of `total`. */
  predicate HasRoom(plan: TranslatedPlan, p: LogicalPartitionId, total: u64) {
    var budget := if p in plan.budgets then plan.budgets[p] else 167_772_160;
    2 * (budget / 4) <= 9 * total / 10
  }

  /** The partition has room in the memory the sample's first entry for the device reports. */
  predicate Fits(plan: TranslatedPlan, s: Snapshot, p: LogicalPartitionId, id: PhysicalDeviceId) {
    var e := FindEntry(Values(s.devices), id);
    e.Some? && HasRoom(plan, p, e.value.memory.apiTotalBytes)
  }

  /** A ledger holds a quarter of the budget for activations, one for transfers, and nothing else. */
  lemma LedgerQuarters(plan: TranslatedPlan, p: LogicalPartitionId, total: u64)
    ensures var ledger := LedgerFor(Budget(plan, p));
      && ledger.activationScratchBytes == ledger.transferStagingBytes && ledger.Sum() == 2 * ledger.transferStagingBytes
      && 4 * ledger.transferStagingBytes <= Budget(plan, p) < 4 * ledger.transferStagingBytes + 4
      && (ledger.Sum() <= Headroom(total) <==> HasRoom(plan, p, total))
  {
  }

  function SafeLimit(s: Snapshot, id: PhysicalDeviceId): Option<u64> {
    var e :- FindEntry(Values(s.devices), id);
    Some(Headroom(e.memory.apiTotalBytes))
  }

  /** The binding of the i-th partition when it is placed on `id`. */
  function BindingAt(plan: TranslatedPlan, s: Snapshot, i: nat, id: PhysicalDeviceId): Binding
    requires i < |plan.partitions| < U64_LIMIT && Fits(plan, s, plan.partitions[i], id)
  {
    var ledger := LedgerFor(Budget(plan, plan.partitions[i]));
    Binding(id, Some(VirtualDevicePartition(i + 1, id, ledger, SafeLimit(s, id).value, Active)))
  }

  ghost predicate AllFit(plan: TranslatedPlan, s: Snapshot, ranks: seq<PhysicalDeviceId>)
    requires |ranks| == |plan.partitions|
  {
    forall i | 0 <= i < |ranks| :: Fits(plan, s, plan.partitions[i], ranks[i])
  }

  /** The bindings after the first `n` partitions; a repeated partition keeps its last binding. */
  function Table(plan: TranslatedPlan, s: Snapshot, ranks: seq<PhysicalDeviceId>, n: nat): (b: Bindings)
    requires n <= |ranks| == |plan.partitions| < U64_LIMIT
    requires forall i | 0 <= i < n :: Fits(plan, s, plan.partitions[i], ranks[i])
    ensures |b| <= n
  {
    if n == 0 then map[]
    else Table(plan, s, ranks, n - 1)[plan.partitions[n - 1] := BindingAt(plan, s, n - 1, ranks[n - 1])]
  }

  /** Admit the i-th partition on `id`: its safe limit, then the budget check. */
  function AdmitVirtual(plan: TranslatedPlan, s: Snapshot, i: nat, id: PhysicalDeviceId)
    : (r: Result<Binding, BindError>)
    requires i < |plan.partitions| < U64_LIMIT
    ensures r.Ok? <==> Fits(plan, s, plan.partitions[i], id)
    ensures r.Ok? ==> r.value == BindingAt(plan, s, i, id)
  {
    assert SafeLimit(s, id).Some? ==> (Fits(plan, s, plan.partitions[i], id) <==>
        LedgerFor(Budget(plan, plan.partitions[i])).Sum() <= SafeLimit(s, id).value);
    var limit := SafeLimit(s, id);
    if limit.None? then Err(TopologyMismatch)
    else
      match Admit(i + 1, id, LedgerFor(Budget(plan, plan.partitions[i])), limit.value)
      case Ok(partition) => Ok(Binding(id, Some(partition)))
      case Err(e) => Err(OverBudget(i + 1, e.declaredTotalBytes, e.policyLimitBytes))
  }

  /** The shared loop of the three policies: admit each partition on its device, in plan order. */
  method BindAll(plan: TranslatedPlan, s: Snapshot, ranks: seq<PhysicalDeviceId>)
    returns (r: Result<Bindings, BindError>)
    requires |ranks| == |plan.partitions| < U64_LIMIT
    ensures r.Ok? <==> AllFit(plan, s, ranks)
    ensures r.Ok? ==> r.value == Table(plan, s, ranks, |ranks|)
    ensures r.Err? ==>
      exists i :: 0 <= i < |ranks| && !Fits(plan, s, plan.partitions[i], ranks[i])
                  && (forall j | 0 <= j < i :: Fits(plan, s, plan.partitions[j], ranks[j]))
                  && r.error == AdmitVirtual(plan, s, i, ranks[i]).error
  {
    hide Fits, AdmitVirtual, BindingAt;
    var b: Bindings := map[];
    for i := 0 to |ranks|
      invariant forall j | 0 <= j < i :: Fits(plan, s, plan.partitions[j], ranks[j])
      invariant b == Table(plan, s, ranks, i)
    {
      var admitted := AdmitVirtual(plan, s, i, ranks[i]);
      if admitted.Err? {
        return Err(admitted.error);
      }
      b := b[plan.partitions[i] := admitted.value];
    }
    return Ok(b);
  }

  function LogicalPlan(plan: TranslatedPlan, constraints: seq<Constraint>): AdmittedPlan {
    AdmittedPlan(plan.hash, Elements(plan.partitions), constraints, NO_DEMAND)
  }

  /** Logical admission and all stages of `bind`, for the bindings a policy built. */
  ghost predicate Bindable(plan: TranslatedPlan, constraints: seq<Constraint>, b: Bindings,
                           members: set<PhysicalDeviceId>, s: Snapshot) {
    && IsSha256Hex(plan.hash) && plan.partitions != []
    && (forall c | c in constraints :: Named(c) <= Elements(plan.partitions))
    && Admitted(LogicalPlan(plan, constraints))
    && Accepts(LogicalPlan(plan, constraints), b, members, s, INITIAL_GENERATION)
  }

  /** `finish_bind`: admit the logical plan, then bind under the initial generation. */
  method FinishBind(plan: TranslatedPlan, b: Bindings, members: set<PhysicalDeviceId>, s: Snapshot,
                    constraints: seq<Constraint>)
    returns (r: Result<Plan, BindError>)
    requires |b| < U64_LIMIT && |members| < U64_LIMIT && |s.id| == 32
    ensures r.Ok? <==> Bindable(plan, constraints, b, members, s)
    ensures r.Ok? ==> KindMatches(r.value.kind, LogicalPlan(plan, constraints), b) && r.value.deviceSet == members
    ensures r.Ok? ==> r.value.snapshotId == s.id && r.value.logicalHash == plan.hash
                      && r.value.fixture == Virtual && r.value.transport == HostStaged
  {
    hide Accepts, IsSha256Hex, KindMatches, Encodable, Spells, ErrorExplains, PlanBytes, Sha.DigestOf;
    var admitted := AdmitPlan(plan.hash, plan.partitions, constraints);
    if admitted.Err? {
      return Err(TopologyMismatch);
    }
    r := Bind(admitted.value, b, members, s, INITIAL_GENERATION, Virtual, HostStaged);
  }

  // ---- the three policies ----

  /** What a policy asks of the number of devices before it places anything. */
  predicate ShapeLegal(policy: Policy, n: nat, devices: nat) {
    && devices >= 1
    && (policy.SplitAcrossMembership? ==>
          0 < policy.bindCount < n && n % policy.bindCount == 0 && devices == policy.bindCount)
  }

  lemma MulLe(c: nat, a: int, b: int)
    requires a <= b
    ensures c * a <= c * b
  {
  }

  lemma QuotientIs(i: int, c: nat, j: int)
    requires c > 0
    ensures i / c == j <==> c * j <= i < c * j + c
  {
    var q, r := i / c, i % c;
    assert i == c * q + r && 0 <= r < c;
    if q < j {
      MulLe(c, q + 1, j);
    } else if q > j {
      MulLe(c, j + 1, q);
    }
  }

  /** Cutting n positions into m equal blocks numbers the blocks below m. */
  lemma BlockNumber(n: nat, m: nat, i: nat)
    requires m > 0 && n % m == 0 && i < n
    ensures n / m > 0 && n == (n / m) * m
    ensures i / (n / m) < m
  {
    var chunk := n / m;
    assert n == chunk * m;
    var q := i / chunk;
    QuotientIs(i, chunk, q);
    if q >= m {
      MulLe(chunk, m, q);
    }
  }

  /** The device a policy gives the i-th of `n` partitions. */
  function DeviceFor(policy: Policy, n: nat, devices: seq<PhysicalDeviceId>, i: nat): PhysicalDeviceId
    requires ShapeLegal(policy, n, |devices|) && i < n && n + 14 < 0x1_0000_0000_0000_0000
  {
    match policy
    case ColocateOnSnapshot => devices[0]
    case OnePhysicalPerPartition => if i < |devices| then devices[i] else Fabricated(i)
    case SplitAcrossMembership(m) =>
      BlockNumber(n, m, i);
      devices[i / (n / m)]
  }

  function Ranks(policy: Policy, n: nat, devices: seq<PhysicalDeviceId>): (r: seq<PhysicalDeviceId>)
    requires ShapeLegal(policy, n, |devices|) && n + 14 < 0x1_0000_0000_0000_0000
    ensures |r| == n
  {
    seq(n, i requires 0 <= i < n => DeviceFor(policy, n, devices, i))
  }

  /** The selected membership: one device when colocating, otherwise all of them. */
  function Members(policy: Policy, devices: seq<PhysicalDeviceId>): set<PhysicalDeviceId>
    requires devices != []
  {
    if policy.ColocateOnSnapshot? then {devices[0]} else Elements(devices)
  }

  /** A sequence has as many elements as positions exactly when no two are equal. */
  lemma {:induction false} ElementsSize<T>(s: seq<T>)
    ensures |Elements(s)| <= |s| && (|Elements(s)| == |s| <==> Distinct(s))
  {
    if s != [] {
      var init, last := s[..|s| - 1], s[|s| - 1];
      ElementsSize(init);
      assert s == init + [last];
      assert Elements(s) == Elements(init) + {last};
      if last in Elements(init) {
        assert Elements(s) == Elements(init);
      }
    }
  }

  /** When binding a plan under a policy succeeds. */
  ghost predicate Succeeds(plan: TranslatedPlan, s: Snapshot, policy: Policy, constraints: seq<Constraint>)
    requires |plan.partitions| + 14 < 0x1_0000_0000_0000_0000
  {
    var n, devices := |plan.partitions|, PhysicalIds(s);
    && ShapeLegal(policy, n, |devices|)
    && var ranks := Ranks(policy, n, devices);
    && AllFit(plan, s, ranks)
    && Bindable(plan, constraints, Table(plan, s, ranks, n), Members(policy, devices), s)
  }

  method BindTranslatedWithConstraints(plan: TranslatedPlan, s: Snapshot, policy: Policy, constraints: seq<Constraint>)
    returns (r: Result<Plan, BindError>)
    requires |plan.partitions| + 14 < 0x1_0000_0000_0000_0000 && |s.devices| < U64_LIMIT && |s.id| == 32
    ensures r.Ok? <==> Succeeds(plan, s, policy, constraints)
    ensures r.Ok? ==>
      var devices := PhysicalIds(s);
      var b := Table(plan, s, Ranks(policy, |plan.partitions|, devices), |plan.partitions|);
      && KindMatches(r.value.kind, LogicalPlan(plan, constraints), b)
      && r.value.deviceSet == Members(policy, devices)
    ensures r.Ok? ==> r.value.snapshotId == s.id && r.value.logicalHash == plan.hash
                      && r.value.fixture == Virtual && r.value.transport == HostStaged
  {
    hide Values, AllFit, Bindable, DeviceFor, Digits, Fits;
    var n, devices := |plan.partitions|, PhysicalIds(s);
    match policy {
      case SplitAcrossMembership(m) =>
        if m == 0 || m >= n || n % m != 0 {
          return Err(TopologyMismatch);
        }
        if |devices| != m {
          return Err(TopologyMismatch);
        }
      case _ =>
        if devices == [] {
          return Err(TopologyMismatch);
        }
    }
    var ranks := Ranks(policy, n, devices);
    var b := BindAll(plan, s, ranks);
    if b.Err? {
      return Err(b.error);
    }
    ElementsSize(devices);
    r := FinishBind(plan, b.value, Members(policy, devices), s, constraints);
  }

  // ---- counting, end to end ----

  /** No snapshot device carries an id the promotion policy would make up for these ranks. */
  ghost predicate NoneFabricated(devices: seq<PhysicalDeviceId>, n: nat)
    requires n + 14 < 0x1_0000_0000_0000_0000
  {
    forall i, j | 0 <= i < n && 0 <= j < |devices| :: devices[j] != Fabricated(i)
  }

  /** Partitions are distinct and, where every partition claims a device, so are the devices, none of them made up. */
  ghost predicate Unambiguous(plan: TranslatedPlan, s: Snapshot, bindCount: u32)
    requires |plan.partitions| + 14 < 0x1_0000_0000_0000_0000
  {
    && Distinct(plan.partitions)
    && (1 < bindCount == |plan.partitions| ==>
          Distinct(PhysicalIds(s)) && NoneFabricated(PhysicalIds(s), |plan.partitions|))
  }

  /** The device count a bind count asks for. */
  predicate CountMatches(bindCount: nat, devices: nat) {
    if bindCount == 1 then devices >= 1 else devices == bindCount
  }

  /** The device the i-th partition is bound to: n / bindCount consecutive partitions share one. */
  function BlockDevice(devices: seq<PhysicalDeviceId>, n: nat, bindCount: nat, i: nat): PhysicalDeviceId
    requires bindCount > 0 && n % bindCount == 0 && i < n && |devices| >= bindCount
  {
    BlockNumber(n, bindCount, i);
    devices[i / (n / bindCount)]
  }

  /** What the declared bind needs, stated on its inputs. */
  ghost predicate DeclaredBindLegal(plan: TranslatedPlan, s: Snapshot, bindCount: nat) {
    var n, devices := |plan.partitions|, PhysicalIds(s);
    && n > 0 && bindCount > 0 && n % bindCount == 0
    && CountMatches(bindCount, |devices|)
    && IsSha256Hex(plan.hash) && !IsStale(s, INITIAL_GENERATION)
    && forall i | 0 <= i < n :: Fits(plan, s, plan.partitions[i], BlockDevice(devices, n, bindCount, i))
  }

  lemma PhysicalIdsRecorded(s: Snapshot, j: nat)
    requires j < |PhysicalIds(s)|
    ensures Recorded(s, PhysicalIds(s)[j])
  {
    assert Values(s.devices)[j] in Values(s.devices);
  }

  lemma UnknownDoesNotFit(plan: TranslatedPlan, s: Snapshot, p: LogicalPartitionId, id: PhysicalDeviceId)
    requires forall j | 0 <= j < |PhysicalIds(s)| :: PhysicalIds(s)[j] != id
    ensures !Fits(plan, s, p, id)
  {
    var entries := Values(s.devices);
    assert forall j | 0 <= j < |entries| :: PhysicalIds(s)[j] == entries[j].identity;
  }

  /** Every binding in the table is that of some occurrence of its partition. */
  lemma {:induction false} TableOrigin(plan: TranslatedPlan, s: Snapshot, ranks: seq<PhysicalDeviceId>, n: nat)
    requires n <= |ranks| == |plan.partitions| < U64_LIMIT
    requires forall i | 0 <= i < n :: Fits(plan, s, plan.partitions[i], ranks[i])
    ensures forall p :: p in Table(plan, s, ranks, n) <==> p in plan.partitions[..n]
    ensures forall p | p in Table(plan, s, ranks, n) ::
              exists i :: 0 <= i < n && plan.partitions[i] == p
                          && Table(plan, s, ranks, n)[p] == BindingAt(plan, s, i, ranks[i])
  {
    hide Fits, BindingAt;
    if n > 0 {
      TableOrigin(plan, s, ranks, n - 1);
      var ps := plan.partitions;
      assert ps[..n] == ps[..n - 1] + [ps[n - 1]];
      var b := Table(plan, s, ranks, n);
      forall p | p in b
        ensures exists i :: 0 <= i < n && ps[i] == p && b[p] == BindingAt(plan, s, i, ranks[i])
      {
        if p == ps[n - 1] {
          assert b[p] == BindingAt(plan, s, n - 1, ranks[n - 1]);
        } else {
          var i :| 0 <= i < n - 1 && ps[i] == p && Table(plan, s, ranks, n - 1)[p] == BindingAt(plan, s, i, ranks[i]);
        }
      }
    }
  }

  /** Position `i` is the last that names its partition. */
  predicate LastNamed(partitions: seq<LogicalPartitionId>, i: nat)
    requires i < |partitions|
  {
    forall k | i < k < |partitions| :: partitions[k] != partitions[i]
  }

  lemma {:induction false} LastOccurrence(partitions: seq<LogicalPartitionId>, n: nat, i: nat) returns (k: nat)
    requires i < n <= |partitions|
    ensures i <= k < n && partitions[k] == partitions[i] && forall j | k < j < n :: partitions[j] != partitions[i]
  {
    if partitions[n - 1] == partitions[i] {
      k := n - 1;
    } else {
      k := LastOccurrence(partitions, n - 1, i);
    }
  }

  /** The table holds each partition under the binding of its last occurrence. */
  lemma {:induction false} TableLast(plan: TranslatedPlan, s: Snapshot, ranks: seq<PhysicalDeviceId>, n: nat, i: nat)
    requires i < n <= |ranks| == |plan.partitions| < U64_LIMIT
    requires forall j | 0 <= j < n :: Fits(plan, s, plan.partitions[j], ranks[j])
    requires forall k | i < k < n :: plan.partitions[k] != plan.partitions[i]
    ensures plan.partitions[i] in Table(plan, s, ranks, n)
    ensures Table(plan, s, ranks, n)[plan.partitions[i]] == BindingAt(plan, s, i, ranks[i])
  {
    hide Fits, BindingAt;
    if i < n - 1 {
      TableLast(plan, s, ranks, n - 1, i);
    }
  }

  /** With distinct partitions the table holds each partition under its own binding. */
  lemma TableAt(plan: TranslatedPlan, s: Snapshot, ranks: seq<PhysicalDeviceId>, i: nat)
    requires i < |ranks| == |plan.partitions| < U64_LIMIT && AllFit(plan, s, ranks) && Distinct(plan.partitions)
    ensures plan.partitions[i] in Table(plan, s, ranks, |ranks|)
    ensures Table(plan, s, ranks, |ranks|)[plan.partitions[i]] == BindingAt(plan, s, i, ranks[i])
  {
    hide Fits, BindingAt, Table;
    TableLast(plan, s, ranks, |ranks|, i);
  }

  /** Bindings made by the table always carry an active partition of their own device. */
  lemma TableConsistent(plan: TranslatedPlan, s: Snapshot, ranks: seq<PhysicalDeviceId>)
    requires |ranks| == |plan.partitions| < U64_LIMIT && AllFit(plan, s, ranks)
    ensures BindingsConsistent(Table(plan, s, ranks, |ranks|))
  {
    hide Fits, SafeLimit, Table;
    TableOrigin(plan, s, ranks, |ranks|);
  }

  /** The devices bound are the ranks of the last occurrences. */
  lemma TableClaims(plan: TranslatedPlan, s: Snapshot, ranks: seq<PhysicalDeviceId>, id: PhysicalDeviceId)
    requires |ranks| == |plan.partitions| < U64_LIMIT && AllFit(plan, s, ranks)
    ensures id in BoundDevices(Table(plan, s, ranks, |ranks|)) <==> Claimed(plan.partitions, ranks, id)
  {
    hide Fits, SafeLimit, Table, LastNamed;
    var n, b, ps := |ranks|, Table(plan, s, ranks, |ranks|), plan.partitions;
    TableOrigin(plan, s, ranks, n);
    if i :| 0 <= i < n && LastNamed(ps, i) && ranks[i] == id {
      TableLastOf(plan, s, ranks, i);
    }
    if p :| p in b && b[p].device == id {
      var i :| 0 <= i < n && ps[i] == p && b[p] == BindingAt(plan, s, i, ranks[i]);
      var k := LastOccurrence(ps, n, i);
      assert LastNamed(ps, k) by { LastNamedAt(ps, k); }
      TableLastOf(plan, s, ranks, k);
    }
  }

  lemma LastNamedAt(partitions: seq<LogicalPartitionId>, k: nat)
    requires k < |partitions| && forall j | k < j < |partitions| :: partitions[j] != partitions[k]
    ensures LastNamed(partitions, k)
  {
  }

  lemma TableLastOf(plan: TranslatedPlan, s: Snapshot, ranks: seq<PhysicalDeviceId>, i: nat)
    requires i < |ranks| == |plan.partitions| < U64_LIMIT && AllFit(plan, s, ranks) && LastNamed(plan.partitions, i)
    ensures var b := Table(plan, s, ranks, |ranks|);
      plan.partitions[i] in b && b[plan.partitions[i]].device == ranks[i]
  {
    hide Fits, SafeLimit, Table;
    TableLast(plan, s, ranks, |ranks|, i);
  }

  /** The device is that of the last occurrence of some partition. */
  ghost predicate Claimed(partitions: seq<LogicalPartitionId>, ranks: seq<PhysicalDeviceId>, id: PhysicalDeviceId)
    requires |ranks| == |partitions|
  {
    exists i :: 0 <= i < |ranks| && LastNamed(partitions, i) && ranks[i] == id
  }

  /** With distinct partitions every rank is claimed. */
  lemma ClaimedIffRank(partitions: seq<LogicalPartitionId>, ranks: seq<PhysicalDeviceId>, id: PhysicalDeviceId)
    requires |ranks| == |partitions| && Distinct(partitions)
    ensures Claimed(partitions, ranks, id) <==> id in ranks
  {
    if i :| 0 <= i < |ranks| && ranks[i] == id {
      assert LastNamed(partitions, i);
    }
  }

  /** With distinct partitions, the devices bound are exactly the ranks. */
  lemma TableDevices(plan: TranslatedPlan, s: Snapshot, ranks: seq<PhysicalDeviceId>)
    requires |ranks| == |plan.partitions| < U64_LIMIT && AllFit(plan, s, ranks) && Distinct(plan.partitions)
    ensures forall id :: id in BoundDevices(Table(plan, s, ranks, |ranks|)) <==> id in ranks
  {
    hide Fits, SafeLimit, Table, BoundDevices, Claimed;
    forall id
      ensures id in BoundDevices(Table(plan, s, ranks, |ranks|)) <==> id in ranks
    {
      TableClaims(plan, s, ranks, id);
      ClaimedIffRank(plan.partitions, ranks, id);
    }
  }

  /** The j-th block starts at position j * (n / m), so every block has a rank. */
  lemma BlockReaches(devices: seq<PhysicalDeviceId>, n: nat, m: nat, j: nat)
    requires m > 0 && n > 0 && n % m == 0 && |devices| >= m && j < m
    ensures (n / m) * j < n && BlockDevice(devices, n, m, (n / m) * j) == devices[j]
  {
    var chunk := n / m;
    BlockNumber(n, m, 0);
    MulLe(chunk, j + 1, m);
    assert chunk * (j + 1) == chunk * j + chunk;
    QuotientIs(chunk * j, chunk, j);
  }

  lemma BlockDeviceInFirst(devices: seq<PhysicalDeviceId>, n: nat, m: nat, i: nat)
    requires m > 0 && n % m == 0 && i < n && |devices| >= m
    ensures BlockDevice(devices, n, m, i) in devices[..m]
  {
    BlockNumber(n, m, i);
  }

  /** One rank under an accepted count, when there are at least as many devices as the count. */
  lemma RankIsBlock(n: nat, devices: seq<PhysicalDeviceId>, m: u32, i: nat)
    requires i < n && n + 14 < 0x1_0000_0000_0000_0000 && m > 0 && n % m == 0 && |devices| >= m
    requires ShapeLegal(PolicyFor(n, m).value, n, |devices|)
    ensures DeviceFor(PolicyFor(n, m).value, n, devices, i) == BlockDevice(devices, n, m, i)
  {
    hide Fabricated;
    BlockNumber(n, m, i);
    if m == 1 {
      assert n / m == n;
      QuotientIs(i, n, 0);
    } else if m == n {
      assert n / m == 1;
    }
  }

  /** The policy of an accepted count places partitions in consecutive blocks, or on a device that cannot fit. */
  lemma RanksAreBlocks(plan: TranslatedPlan, s: Snapshot, bindCount: u32)
    requires 0 < |plan.partitions| && |plan.partitions| + 14 < 0x1_0000_0000_0000_0000
    requires bindCount > 0 && |plan.partitions| % bindCount == 0
    requires Unambiguous(plan, s, bindCount)
    requires ShapeLegal(PolicyFor(|plan.partitions|, bindCount).value, |plan.partitions|, |PhysicalIds(s)|)
    ensures var n, devices := |plan.partitions|, PhysicalIds(s);
      var policy := PolicyFor(n, bindCount).value;
      var ranks := Ranks(policy, n, devices);
      && (|devices| >= bindCount ==>
            ranks == seq(n, i requires 0 <= i < n => BlockDevice(devices, n, bindCount, i)))
      && (|devices| < bindCount ==> !AllFit(plan, s, ranks))
  {
    hide Fabricated, Fits, BlockDevice, DeviceFor;
    var n, devices := |plan.partitions|, PhysicalIds(s);
    var policy := PolicyFor(n, bindCount).value;
    var ranks := Ranks(policy, n, devices);
    if |devices| >= bindCount {
      forall i | 0 <= i < n
        ensures ranks[i] == BlockDevice(devices, n, bindCount, i)
      {
        RankIsBlock(n, devices, bindCount, i);
      }
    } else {
      PromotedDoesNotFit(plan, s, bindCount);
    }
  }

  /** With too few devices the promotion policy makes an id up, and no limit exists for it. */
  lemma PromotedDoesNotFit(plan: TranslatedPlan, s: Snapshot, bindCount: u32)
    requires 0 < |plan.partitions| && |plan.partitions| + 14 < 0x1_0000_0000_0000_0000
    requires bindCount > 0 && |plan.partitions| % bindCount == 0 && |PhysicalIds(s)| < bindCount
    requires Unambiguous(plan, s, bindCount)
    requires ShapeLegal(PolicyFor(|plan.partitions|, bindCount).value, |plan.partitions|, |PhysicalIds(s)|)
    ensures !AllFit(plan, s, Ranks(PolicyFor(|plan.partitions|, bindCount).value, |plan.partitions|, PhysicalIds(s)))
  {
    hide Fabricated, Fits;
    var n, devices := |plan.partitions|, PhysicalIds(s);
    var ranks := Ranks(PolicyFor(n, bindCount).value, n, devices);
    var i := |devices|;
    assert bindCount == n && ranks[i] == Fabricated(i);
    UnknownDoesNotFit(plan, s, plan.partitions[i], ranks[i]);
  }

  /** The conditions of `bind` on a table of blocks come down to freshness, the hash and the device count. */
  lemma BlocksBind(plan: TranslatedPlan, s: Snapshot, policy: Policy, bindCount: nat, ranks: seq<PhysicalDeviceId>)
    requires 0 < |plan.partitions| == |ranks| < U64_LIMIT && bindCount > 0 && |plan.partitions| % bindCount == 0
    requires |PhysicalIds(s)| >= bindCount
    requires ranks == seq(|ranks|, i requires 0 <= i < |ranks| => BlockDevice(PhysicalIds(s), |ranks|, bindCount, i))
    requires AllFit(plan, s, ranks) && Distinct(plan.partitions) && Selects(policy, PhysicalIds(s), bindCount)
    ensures Bindable(plan, [], Table(plan, s, ranks, |ranks|), Members(policy, PhysicalIds(s)), s)
       <==> IsSha256Hex(plan.hash) && !IsStale(s, INITIAL_GENERATION) && CountMatches(bindCount, |PhysicalIds(s)|)
  {
    hide Fits, IsSha256Hex, IsStale, Table, BlockDevice, Values, Bindable;
    MembersRecorded(s, policy);
    TableBinds(plan, s, ranks, Members(policy, PhysicalIds(s)));
    BlockMembers(plan, s, policy, bindCount, ranks);
  }

  /** Bindings from a table of distinct partitions pass every stage once sample, hash and device set are right. */
  lemma TableBinds(plan: TranslatedPlan, s: Snapshot, ranks: seq<PhysicalDeviceId>, members: set<PhysicalDeviceId>)
    requires 0 < |plan.partitions| == |ranks| < U64_LIMIT && AllFit(plan, s, ranks)
    requires forall id | id in members :: Recorded(s, id)
    ensures Bindable(plan, [], Table(plan, s, ranks, |ranks|), members, s)
       <==> && IsSha256Hex(plan.hash) && !IsStale(s, INITIAL_GENERATION)
            && BoundDevices(Table(plan, s, ranks, |ranks|)) == members
  {
    hide Fits, IsSha256Hex, IsStale, Table, Values, BindingsConsistent, BoundDevices;
    var b := Table(plan, s, ranks, |ranks|);
    TableOrigin(plan, s, ranks, |ranks|);
    TableConsistent(plan, s, ranks);
    assert plan.partitions[..|ranks|] == plan.partitions;
    assert b.Keys == Elements(plan.partitions);
    if IsSha256Hex(plan.hash) {
      ElementsEmpty(plan.partitions);
      assert Admitted(LogicalPlan(plan, []));
      assert LimitsHold(NO_DEMAND, members, s);
    }
  }

  lemma MembersRecorded(s: Snapshot, policy: Policy)
    requires PhysicalIds(s) != []
    ensures forall id | id in Members(policy, PhysicalIds(s)) :: Recorded(s, id)
  {
    forall j | 0 <= j < |PhysicalIds(s)| {
      PhysicalIdsRecorded(s, j);
    }
  }

  /** The devices of a table of blocks are the selected members exactly when the device count is right. */
  lemma BlockMembers(plan: TranslatedPlan, s: Snapshot, policy: Policy, bindCount: nat, ranks: seq<PhysicalDeviceId>)
    requires 0 < |plan.partitions| == |ranks| < U64_LIMIT && bindCount > 0 && |plan.partitions| % bindCount == 0
    requires |PhysicalIds(s)| >= bindCount
    requires ranks == seq(|ranks|, i requires 0 <= i < |ranks| => BlockDevice(PhysicalIds(s), |ranks|, bindCount, i))
    requires AllFit(plan, s, ranks) && Distinct(plan.partitions) && Selects(policy, PhysicalIds(s), bindCount)
    ensures BoundDevices(Table(plan, s, ranks, |ranks|)) == Members(policy, PhysicalIds(s))
       <==> CountMatches(bindCount, |PhysicalIds(s)|)
  {
    hide Fits, Table, Values, BlockDevice, BoundDevices, PhysicalIds;
    var devices := PhysicalIds(s);
    TableDevices(plan, s, ranks);
    RanksReachPrefix(devices, bindCount, ranks);
    assert BoundDevices(Table(plan, s, ranks, |ranks|)) == Elements(devices[..bindCount]);
    PrefixIsMembership(policy, devices, bindCount);
  }

  /** Blocks of equal size reach the first devices and no others. */
  lemma RanksReachPrefix(devices: seq<PhysicalDeviceId>, m: nat, ranks: seq<PhysicalDeviceId>)
    requires 0 < m <= |devices| && ranks != [] && |ranks| % m == 0
    requires ranks == seq(|ranks|, i requires 0 <= i < |ranks| => BlockDevice(devices, |ranks|, m, i))
    ensures forall id :: id in ranks <==> id in Elements(devices[..m])
  {
    hide BlockDevice;
    var n := |ranks|;
    forall i | 0 <= i < n
      ensures ranks[i] in devices[..m]
    {
      BlockDeviceInFirst(devices, n, m, i);
    }
    forall j | 0 <= j < m
      ensures devices[j] in ranks
    {
      BlockReaches(devices, n, m, j);
      assert ranks[(n / m) * j] == devices[j];
    }
  }

  /** The policy of a bind count `m`; promotion meets distinct devices only, and a split exactly `m`. */
  ghost predicate Selects(policy: Policy, devices: seq<PhysicalDeviceId>, m: nat) {
    match policy
    case ColocateOnSnapshot => m == 1
    case OnePhysicalPerPartition => m != 1 && Distinct(devices)
    case SplitAcrossMembership(_) => m != 1 && |devices| == m
  }

  lemma PrefixIsMembership(policy: Policy, devices: seq<PhysicalDeviceId>, m: nat)
    requires 0 < m <= |devices| && Selects(policy, devices, m)
    ensures Elements(devices[..m]) == Members(policy, devices) <==> CountMatches(m, |devices|)
  {
    ElementsSize(devices);
    ElementsSize(devices[..m]);
    if m == 1 {
      assert devices[..1] == [devices[0]];
    } else if |devices| == m {
      assert devices[..m] == devices;
    }
  }

  lemma SucceedsIffLegal(plan: TranslatedPlan, s: Snapshot, bindCount: u32)
    requires |plan.partitions| + 14 < 0x1_0000_0000_0000_0000
    requires Unambiguous(plan, s, bindCount) && PolicyFor(|plan.partitions|, bindCount).Some?
    ensures Succeeds(plan, s, PolicyFor(|plan.partitions|, bindCount).value, [])
       <==> DeclaredBindLegal(plan, s, bindCount)
  {
    hide Values, Fits, IsSha256Hex, IsStale, Table, Fabricated, BlockDevice, Accepts;
    var n, devices := |plan.partitions|, PhysicalIds(s);
    var policy := PolicyFor(n, bindCount).value;
    if n > 0 && ShapeLegal(policy, n, |devices|) {
      var ranks := Ranks(policy, n, devices);
      RanksAreBlocks(plan, s, bindCount);
      if |devices| >= bindCount {
        assert forall i | 0 <= i < n :: ranks[i] == BlockDevice(devices, n, bindCount, i);
        if AllFit(plan, s, ranks) {
          BlocksBind(plan, s, policy, bindCount, ranks);
        }
      }
    }
  }

  /** The virtual ids in a table of distinct partitions are the seeds 1 to n. */
  lemma VirtualSeeds(plan: TranslatedPlan, s: Snapshot, ranks: seq<PhysicalDeviceId>)
    requires |ranks| == |plan.partitions| < U64_LIMIT && AllFit(plan, s, ranks) && Distinct(plan.partitions)
    ensures VirtualIds(Table(plan, s, ranks, |ranks|)) == Range(1, |ranks|)
  {
    hide Fits, SafeLimit, Table;
    var b := Table(plan, s, ranks, |ranks|);
    TableOrigin(plan, s, ranks, |ranks|);
    RangeMembers(1, |ranks|);
    forall v: int | v in Range(1, |ranks|)
      ensures v in VirtualIds(b)
    {
      TableAt(plan, s, ranks, v - 1);
      assert b[plan.partitions[v - 1]].virtualPartition.value.id == v;
    }
    forall v | v in VirtualIds(b)
      ensures v in Range(1, |ranks|)
    {
      var q :| q in b && b[q].virtualPartition.Some? && b[q].virtualPartition.value.id == v;
      var i :| 0 <= i < |ranks| && plan.partitions[i] == q && b[q] == BindingAt(plan, s, i, ranks[i]);
    }
  }

  /** What a plan bound from a table says about devices and counts. */
  lemma TableReceipt(plan: TranslatedPlan, s: Snapshot, ranks: seq<PhysicalDeviceId>, p: Plan)
    requires 0 < |ranks| == |plan.partitions| < U64_LIMIT && AllFit(plan, s, ranks) && Distinct(plan.partitions)
    requires KindMatches(p.kind, LogicalPlan(plan, []), Table(plan, s, ranks, |ranks|))
    requires Bindable(plan, [], Table(plan, s, ranks, |ranks|), p.deviceSet, s)
    ensures ReceiptOf(p).physicalDeviceCount == |p.deviceSet|
    ensures ReceiptOf(p).virtualPartitionCount == |ranks|
    ensures forall i | 0 <= i < |ranks| :: DeviceOf(p, plan.partitions[i]) == Some(ranks[i])
  {
    hide Fits, SafeLimit, Table, Accepts, VirtualIds;
    var n, b := |ranks|, Table(plan, s, ranks, |ranks|);
    ReceiptNamesDeviceSet(p, LogicalPlan(plan, []), b, s, INITIAL_GENERATION);
    ElementsSize(plan.partitions);
    VirtualSeeds(plan, s, ranks);
    RangeMembers(1, n);
    forall i | 0 <= i < n
      ensures DeviceOf(p, plan.partitions[i]) == Some(ranks[i])
    {
      TableAt(plan, s, ranks, i);
    }
    TableAt(plan, s, ranks, 0);
  }

  /** The plan positions a bound plan places on a device. */
  function PositionsOn(p: Plan, partitions: seq<LogicalPartitionId>, d: PhysicalDeviceId): set<int> {
    set i | 0 <= i < |partitions| && DeviceOf(p, partitions[i]) == Some(d)
  }

  lemma BlockOf(devices: seq<PhysicalDeviceId>, n: nat, m: nat, i: nat, j: nat)
    requires 0 < m <= |devices| && n % m == 0 && i < n && j < m && Distinct(devices[..m])
    ensures n / m > 0 && (BlockDevice(devices, n, m, i) == devices[j] <==> i / (n / m) == j)
  {
    BlockNumber(n, m, i);
    var first, k := devices[..m], i / (n / m);
    assert k < j ==> first[k] != first[j];
    assert j < k ==> first[j] != first[k];
  }

  /** When positions are placed in equal blocks, each of the devices holds one block. */
  lemma BlockHolds(p: Plan, partitions: seq<LogicalPartitionId>, devices: seq<PhysicalDeviceId>, m: nat, j: nat)
    requires 0 < m <= |devices| && 0 < |partitions| && |partitions| % m == 0 && Distinct(devices[..m]) && j < m
    requires forall i | 0 <= i < |partitions| ::
      DeviceOf(p, partitions[i]) == Some(BlockDevice(devices, |partitions|, m, i))
    ensures |PositionsOn(p, partitions, devices[j])| == |partitions| / m
  {
    hide DeviceOf, BlockDevice, Distinct;
    var n := |partitions|;
    BlockSize(n, m, j);
    RangeMembers(0, n);
    var block := set i | i in Range(0, n) && i / (n / m) == j;
    forall i: int
      ensures i in PositionsOn(p, partitions, devices[j]) <==> i in block
    {
      if 0 <= i < n {
        BlockOf(devices, n, m, i, j);
      }
    }
    assert PositionsOn(p, partitions, devices[j]) == block;
  }

  /** Every device of the membership holds the same number of positions. */
  lemma MembersHold(p: Plan, partitions: seq<LogicalPartitionId>, policy: Policy, devices: seq<PhysicalDeviceId>,
                    m: nat)
    requires 0 < m <= |devices| && 0 < |partitions| && |partitions| % m == 0 && Distinct(devices[..m])
    requires policy.ColocateOnSnapshot? <==> m == 1
    requires CountMatches(m, |devices|)
    requires forall i | 0 <= i < |partitions| ::
      DeviceOf(p, partitions[i]) == Some(BlockDevice(devices, |partitions|, m, i))
    ensures forall d | d in Members(policy, devices) :: |PositionsOn(p, partitions, d)| == |partitions| / m
  {
    hide DeviceOf, BlockDevice, PositionsOn;
    forall d | d in Members(policy, devices)
      ensures |PositionsOn(p, partitions, d)| == |partitions| / m
    {
      var j :| 0 <= j < m && devices[j] == d;
      BlockHolds(p, partitions, devices, m, j);
    }
  }

  /**
   * Declared bind, end to end: on unambiguous inputs it succeeds exactly when they are legal. Then partition i is on
   * the device of its block, and exactly when the first bindCount devices are distinct the set has that many; every
   * one of them then holds n / bindCount partitions.
   */
  method BindDeclared(plan: TranslatedPlan, s: Snapshot, bindCount: u32) returns (r: Option<Result<Plan, BindError>>)
    requires |plan.partitions| + 14 < 0x1_0000_0000_0000_0000 && |s.devices| < U64_LIMIT && |s.id| == 32
    ensures r.Some? <==> PolicyFor(|plan.partitions|, bindCount).Some?
    ensures r.Some? ==> (r.value.Ok? <==> Succeeds(plan, s, PolicyFor(|plan.partitions|, bindCount).value, []))
    ensures Unambiguous(plan, s, bindCount) ==> ((r.Some? && r.value.Ok?) <==> DeclaredBindLegal(plan, s, bindCount))
    ensures r.Some? && r.value.Ok? ==> r.value.value.snapshotId == s.id && r.value.value.logicalHash == plan.hash
    ensures Unambiguous(plan, s, bindCount) && r.Some? && r.value.Ok? ==> Counts(plan, s, bindCount, r.value.value)
  {
    hide Values, Fits, IsSha256Hex, IsStale, Table, Bindable, Fabricated, BlockDevice, DeviceFor, Counts, KindMatches;
    var n := |plan.partitions|;
    var policy := PolicyFor(n, bindCount);
    if policy.None? {
      return None;
    }
    var bound := BindTranslatedWithConstraints(plan, s, policy.value, []);
    r := Some(bound);
    if Unambiguous(plan, s, bindCount) {
      SucceedsIffLegal(plan, s, bindCount);
      if bound.Ok? {
        DeclaredPlanCounts(plan, s, bindCount, bound.value);
      }
    }
  }

  /** What a plan says that was bound from a legal declaration. */
  ghost predicate Counts(plan: TranslatedPlan, s: Snapshot, bindCount: u32, p: Plan)
    requires 0 < bindCount <= |PhysicalIds(s)| && |plan.partitions| % bindCount == 0
  {
    var n, devices := |plan.partitions|, PhysicalIds(s);
    && ReceiptOf(p).physicalDeviceCount == |p.deviceSet| && ReceiptOf(p).virtualPartitionCount == n
    && (forall i | 0 <= i < n :: DeviceOf(p, plan.partitions[i]) == Some(BlockDevice(devices, n, bindCount, i)))
    && (|p.deviceSet| == bindCount <==> Distinct(devices[..bindCount]))
    && (Distinct(devices[..bindCount]) ==>
          forall d | d in p.deviceSet :: |PositionsOn(p, plan.partitions, d)| == n / bindCount)
  }

  lemma DeclaredPlanCounts(plan: TranslatedPlan, s: Snapshot, bindCount: u32, p: Plan)
    requires |plan.partitions| + 14 < 0x1_0000_0000_0000_0000 && PolicyFor(|plan.partitions|, bindCount).Some?
    requires Unambiguous(plan, s, bindCount) && DeclaredBindLegal(plan, s, bindCount)
    requires var policy := PolicyFor(|plan.partitions|, bindCount).value;
      && Succeeds(plan, s, policy, [])
      && KindMatches(p.kind, LogicalPlan(plan, []),
                     Table(plan, s, Ranks(policy, |plan.partitions|, PhysicalIds(s)), |plan.partitions|))
      && p.deviceSet == Members(policy, PhysicalIds(s))
    ensures Counts(plan, s, bindCount, p)
  {
    hide Values, Fits, IsSha256Hex, IsStale, Table, Bindable, Fabricated, BlockDevice, DeviceFor, ReceiptOf, DeviceOf,
         KindMatches, PositionsOn;
    var n, devices := |plan.partitions|, PhysicalIds(s);
    var policy := PolicyFor(n, bindCount).value;
    var ranks := Ranks(policy, n, devices);
    TableReceipt(plan, s, ranks, p);
    RanksAreBlocks(plan, s, bindCount);
    PrefixIsMembership(policy, devices, bindCount);
    ElementsSize(devices[..bindCount]);
    assert forall i | 0 <= i < n :: ranks[i] == BlockDevice(devices, n, bindCount, i);
    if Distinct(devices[..bindCount]) {
      MembersHold(p, plan.partitions, policy, devices, bindCount);
    }
  }

  /** The device a bound plan gives a partition. */
  function DeviceOf(p: Plan, q: LogicalPartitionId): Option<PhysicalDeviceId> {
    match p.kind
    case ImplicitLocal(device, _) => Some(device)
    case Distributed(b) => if q in b then Some(b[q].device) else None
  }

  lemma BlockBounds(n: nat, m: nat, j: nat)
    requires m > 0 && n > 0 && n % m == 0 && j < m
    ensures n / m > 0 && (n / m) * j >= 0 && (n / m) * j + n / m <= n
  {
    BlockNumber(n, m, 0);
    var chunk := n / m;
    MulLe(chunk, 0, j);
    MulLe(chunk, j + 1, m);
    assert chunk * (j + 1) == chunk * j + chunk;
  }

  /** Every device of an accepted bind holds exactly n / m of the plan positions. */
  lemma BlockSize(n: nat, m: nat, j: nat)
    requires m > 0 && n > 0 && n % m == 0 && j < m
    ensures n / m > 0
    ensures |set i | i in Range(0, n) && i / (n / m) == j| == n / m
  {
    BlockBounds(n, m, j);
    BlockIsRange(n, n / m, j, (n / m) * j);
  }

  lemma BlockIsRange(n: nat, chunk: nat, j: nat, start: nat)
    requires chunk > 0 && start == chunk * j && start + chunk <= n
    ensures |set i | i in Range(0, n) && i / chunk == j| == chunk
  {
    RangeMembers(0, n);
    RangeMembers(start, chunk);
    forall i: int
      ensures i in Range(0, n) && i / chunk == j <==> i in Range(start, chunk)
    {
      QuotientIs(i, chunk, j);
    }
    assert (set i | i in Range(0, n) && i / chunk == j) == Range(start, chunk);
  }

  /** The promotion policy accepts exactly the samples whose ranks all fit and claim every recorded device. */
  lemma PromotedRanksSucceedIff(plan: TranslatedPlan, s: Snapshot)
    requires |plan.partitions| + 14 < 0x1_0000_0000_0000_0000
    ensures Succeeds(plan, s, OnePhysicalPerPartition, [])
       <==> && PhysicalIds(s) != [] && IsSha256Hex(plan.hash) && !IsStale(s, INITIAL_GENERATION)
            && var ranks := Ranks(OnePhysicalPerPartition, |plan.partitions|, PhysicalIds(s));
               AllFit(plan, s, ranks) && forall id | id in PhysicalIds(s) :: Claimed(plan.partitions, ranks, id)
  {
    hide Fits, IsSha256Hex, IsStale, Table, Values, Fabricated, Bindable, Claimed;
    var n, devices := |plan.partitions|, PhysicalIds(s);
    if devices != [] {
      var ranks := Ranks(OnePhysicalPerPartition, n, devices);
      if n == 0 {
        NothingBindable(plan, s);
        NothingClaimed(ranks, devices[0]);
      } else if AllFit(plan, s, ranks) {
        PromotedDevices(plan, s);
        MembersRecorded(s, OnePhysicalPerPartition);
        TableBinds(plan, s, ranks, Elements(devices));
      }
    }
  }

  lemma NothingBindable(plan: TranslatedPlan, s: Snapshot)
    requires plan.partitions == []
    ensures forall b, members :: !Bindable(plan, [], b, members, s)
  {
  }

  lemma NothingClaimed(ranks: seq<PhysicalDeviceId>, id: PhysicalDeviceId)
    requires ranks == []
    ensures !Claimed([], ranks, id)
  {
  }

  /** The devices bound are the sample's exactly when every recorded device is claimed. */
  lemma PromotedDevices(plan: TranslatedPlan, s: Snapshot)
    requires |plan.partitions| + 14 < 0x1_0000_0000_0000_0000 && PhysicalIds(s) != []
    requires AllFit(plan, s, Ranks(OnePhysicalPerPartition, |plan.partitions|, PhysicalIds(s)))
    ensures var ranks := Ranks(OnePhysicalPerPartition, |plan.partitions|, PhysicalIds(s));
      BoundDevices(Table(plan, s, ranks, |ranks|)) == Elements(PhysicalIds(s))
      <==> forall id | id in PhysicalIds(s) :: Claimed(plan.partitions, ranks, id)
  {
    hide Fits, Table, Values, Fabricated, BoundDevices, LastNamed;
    var n, devices := |plan.partitions|, PhysicalIds(s);
    var ranks := Ranks(OnePhysicalPerPartition, n, devices);
    forall id
      ensures id in BoundDevices(Table(plan, s, ranks, n)) <==> Claimed(plan.partitions, ranks, id)
      ensures Claimed(plan.partitions, ranks, id) ==> id in devices
    {
      TableClaims(plan, s, ranks, id);
      if id !in devices && id in ranks {
        var i :| 0 <= i < n && ranks[i] == id;
        UnknownDoesNotFit(plan, s, plan.partitions[i], id);
      }
    }
  }

  /** The partition's budget is within the headroom the sample gives the device, if it records the device. */
  predicate WithinHeadroom(plan: TranslatedPlan, s: Snapshot, p: LogicalPartitionId, id: PhysicalDeviceId) {
    var e := FindEntry(Values(s.devices), id);
    e.Some? ==> HasRoom(plan, p, e.value.memory.apiTotalBytes)
  }

  lemma FitsIff(plan: TranslatedPlan, s: Snapshot, p: LogicalPartitionId, id: PhysicalDeviceId)
    ensures Fits(plan, s, p, id) <==> id in PhysicalIds(s) && WithinHeadroom(plan, s, p, id)
  {
    hide HasRoom, Values;
    var entries := Values(s.devices);
    assert forall j | 0 <= j < |entries| :: PhysicalIds(s)[j] == entries[j].identity;
    var e := FindEntry(entries, id);
    if e.Some? {
      var j :| 0 <= j < |entries| && entries[j] == e.value;
      assert PhysicalIds(s)[j] == id;
    }
  }

  /** The device promotion gives rank `i`: the i-th recorded one, or a made-up one. */
  function PromotedRank(devices: seq<PhysicalDeviceId>, i: nat): PhysicalDeviceId
    requires i + 14 < 0x1_0000_0000_0000_0000
  {
    if i < |devices| then devices[i] else Fabricated(i)
  }

  function PromotedRanks(devices: seq<PhysicalDeviceId>, n: nat): seq<PhysicalDeviceId>
    requires n + 14 < 0x1_0000_0000_0000_0000
  {
    seq(n, i requires 0 <= i < n => PromotedRank(devices, i))
  }

  /**
   * Promotion, on its inputs: it accepts exactly the current samples in which the made-up id of every rank without a
   * device is recorded as a device, whose devices have room for their partitions, and in which every recorded device is
   * that of the last occurrence of a partition.
   */
  lemma PromotionSucceedsIff(plan: TranslatedPlan, s: Snapshot)
    requires |plan.partitions| + 14 < 0x1_0000_0000_0000_0000
    ensures var n, ps, devices := |plan.partitions|, plan.partitions, PhysicalIds(s);
      Succeeds(plan, s, OnePhysicalPerPartition, [])
      <==> && devices != [] && IsSha256Hex(plan.hash) && !IsStale(s, INITIAL_GENERATION)
           && (forall i | |devices| <= i < n :: Fabricated(i) in devices)
           && (forall i | 0 <= i < n :: WithinHeadroom(plan, s, ps[i], PromotedRank(devices, i)))
           && (forall id | id in devices :: Claimed(ps, PromotedRanks(devices, n), id))
  {
    hide Succeeds, Fits, Fabricated, IsSha256Hex, IsStale, WithinHeadroom, PhysicalIds, Claimed;
    var n, devices := |plan.partitions|, PhysicalIds(s);
    PromotedRanksSucceedIff(plan, s);
    if devices != [] {
      var ranks := PromotedRanks(devices, n);
      assert ranks == Ranks(OnePhysicalPerPartition, n, devices);
      forall i | 0 <= i < n
        ensures Fits(plan, s, plan.partitions[i], ranks[i])
           <==> ranks[i] in devices && WithinHeadroom(plan, s, plan.partitions[i], ranks[i])
      {
        FitsIff(plan, s, plan.partitions[i], ranks[i]);
      }
      assert forall i | |devices| <= i < n :: ranks[i] == Fabricated(i);
    }
  }

  /**
   * For distinct partitions: devices past the last rank must repeat earlier ones, and an accepted sample records as
   * many devices as there are partitions exactly when no two ranks share one.
   */
  lemma PromotionCountIff(plan: TranslatedPlan, s: Snapshot)
    requires |plan.partitions| + 14 < 0x1_0000_0000_0000_0000 && Distinct(plan.partitions)
    requires Succeeds(plan, s, OnePhysicalPerPartition, [])
    ensures var n, devices := |plan.partitions|, PhysicalIds(s);
      && (forall j | n <= j < |devices| :: devices[j] in devices[..n])
      && (|Elements(devices)| == n <==> Distinct(PromotedRanks(devices, n)))
      && (Distinct(devices) && NoneFabricated(devices, n) ==> |devices| == n)
  {
    hide Succeeds, Fits, Fabricated, IsSha256Hex, IsStale, WithinHeadroom, PhysicalIds, Claimed, Distinct;
    var n, devices := |plan.partitions|, PhysicalIds(s);
    var ranks := PromotedRanks(devices, n);
    PromotionSucceedsIff(plan, s);
    forall id
      ensures id in ranks <==> id in devices
      ensures n < |devices| && id in devices ==> id in devices[..n]
    {
      ClaimedIffRank(plan.partitions, ranks, id);
    }
    assert Elements(ranks) == Elements(devices);
    ElementsSize(ranks);
    if Distinct(devices) && NoneFabricated(devices, n) {
      OwnDevicesCount(devices, n);
    }
  }

  /** Distinct devices none of which is made up are as many as the partitions. */
  lemma OwnDevicesCount(devices: seq<PhysicalDeviceId>, n: nat)
    requires n + 14 < 0x1_0000_0000_0000_0000 && Distinct(devices) && NoneFabricated(devices, n)
    requires forall i | |devices| <= i < n :: Fabricated(i) in devices
    requires forall j | n <= j < |devices| :: devices[j] in devices[..n]
    ensures |devices| == n
  {
    hide Fabricated, Distinct, NoneFabricated;
    if |devices| < n {
      NotMadeUp(devices, n, |devices|);
    } else if n < |devices| {
      NotEarlier(devices, n);
    }
  }

  lemma NotMadeUp(devices: seq<PhysicalDeviceId>, n: nat, i: nat)
    requires i < n && n + 14 < 0x1_0000_0000_0000_0000 && NoneFabricated(devices, n)
    ensures Fabricated(i) !in devices
  {
  }

  lemma NotEarlier(devices: seq<PhysicalDeviceId>, n: nat)
    requires n < |devices| && Distinct(devices)
    ensures devices[n] !in devices[..n]
  {
  }

  // ---- one device accepted as two ----

  /** A healthy entry with room for any default partition. */
  function LargeEntry(ordinal: u32, id: PhysicalDeviceId): Entry {
    var surface := DtypeSurface(false, false, false, false, false, false);
    var capabilities := DeviceCapabilities(ComputeCapability(0, 0), 0, surface, 0, 0, 0, 0, false);
    Entry(ordinal, id, None, capabilities, DeviceMemory(None, 0xFFFF_FFFF_FFFF), Healthy, 1, ProbeProvenance([], []))
  }

  /** The sample a discovery of these devices builds, with the id of its own bytes. */
  function SampleOf(devices: map<u32, Entry>): Snapshot
    requires |devices| < U64_LIMIT
  {
    Snapshot(Sha.DigestOf(CanonicalBytes(0, devices, NotAttempted)), 0, devices, NotAttempted)
  }

  function TwoPartitions(): TranslatedPlan {
    TranslatedPlan(PREFIX + seq(64, _ => 0x30), [[0x61], [0x62]], map[])
  }

  lemma TwoPartitionsApart()
    ensures TwoPartitions().budgets == map[]
    ensures var ps := TwoPartitions().partitions; |ps| == 2 == |Elements(ps)| && Distinct(ps)
  {
    var ps := TwoPartitions().partitions;
    assert ps[0][0] != ps[1][0];
    ElementsSize(ps);
  }

  /** Every entry records the same device: one made-up for the second rank if there is a single entry. */
  ghost predicate OneDevice(devices: map<u32, Entry>, id: PhysicalDeviceId) {
    && 0 < |devices| < U64_LIMIT && (forall k | k in devices :: devices[k] == LargeEntry(k, id))
    && (|devices| == 1 ==> id == Fabricated(1))
  }

  lemma OneDeviceIds(devices: map<u32, Entry>, id: PhysicalDeviceId)
    requires OneDevice(devices, id)
    ensures forall j | 0 <= j < |devices| :: PhysicalIds(SampleOf(devices))[j] == id
    ensures Elements(PhysicalIds(SampleOf(devices))) == {id}
    ensures Ranks(OnePhysicalPerPartition, 2, PhysicalIds(SampleOf(devices))) == [id, id]
  {
    hide Fabricated, Values, Sha.DigestOf, CanonicalBytes;
    var entries, ids := Values(devices), PhysicalIds(SampleOf(devices));
    forall j | 0 <= j < |devices|
      ensures ids[j] == id
    {
      assert entries[j] in entries;
    }
    assert ids[0] in ids;
  }

  lemma OneDeviceFits(plan: TranslatedPlan, devices: map<u32, Entry>, id: PhysicalDeviceId, p: LogicalPartitionId)
    requires OneDevice(devices, id) && plan.budgets == map[]
    ensures Fits(plan, SampleOf(devices), p, id)
  {
    hide Fabricated, Values, Sha.DigestOf, CanonicalBytes, OneDevice, PhysicalIds;
    OneDeviceEntry(devices, id, 0);
    OneDeviceIds(devices, id);
    assert PhysicalIds(SampleOf(devices))[0] == id;
    FitsIff(plan, SampleOf(devices), p, id);
    var e := FindEntry(Values(devices), id);
    var j :| 0 <= j < |devices| && Values(devices)[j] == e.value;
    OneDeviceEntry(devices, id, j);
  }

  lemma OneDeviceEntry(devices: map<u32, Entry>, id: PhysicalDeviceId, j: nat)
    requires OneDevice(devices, id)
    ensures 0 < |devices| < U64_LIMIT
    ensures j < |devices| ==> Values(devices)[j].memory.apiTotalBytes == 0xFFFF_FFFF_FFFF
  {
    hide Fabricated, Values;
    if j < |devices| {
      assert Values(devices)[j] in Values(devices);
    }
  }

  /** Discovered samples of one device are accepted for two partitions of one device each. */
  lemma OneDeviceBindsAsTwo(devices: map<u32, Entry>, id: PhysicalDeviceId)
    requires OneDevice(devices, id)
    ensures var plan, s := TwoPartitions(), SampleOf(devices);
      && |plan.partitions| == 2 && Distinct(plan.partitions) && Elements(PhysicalIds(s)) == {id}
      && Keyed(devices) && |s.devices| < U64_LIMIT && |s.id| == 32
      && Succeeds(plan, s, OnePhysicalPerPartition, [])
  {
    hide Fabricated, Fits, Values, Bindable, Sha.DigestOf, CanonicalBytes, PhysicalIds, Succeeds, LastNamed;
    var plan, s := TwoPartitions(), SampleOf(devices);
    OneDeviceIds(devices, id);
    var ranks := Ranks(OnePhysicalPerPartition, 2, PhysicalIds(s));
    forall i | 0 <= i < 2
      ensures Fits(plan, s, plan.partitions[i], ranks[i])
    {
      OneDeviceFits(plan, devices, id, plan.partitions[i]);
    }
    TwoPartitionsApart();
    LastNamedAt(plan.partitions, 1);
    assert Claimed(plan.partitions, ranks, ranks[1]);
    PromotedRanksSucceedIff(plan, s);
  }

  /** Discovering them and binding two partitions by promotion does return a plan, of that one device. */
  method BindOneDeviceAsTwo(devices: map<u32, Entry>, id: PhysicalDeviceId) returns (r: Result<Plan, BindError>)
    requires OneDevice(devices, id)
    ensures r.Ok? && r.value.deviceSet == {id} && r.value.kind.Distributed?
    ensures r.value.kind.bindings.Keys == Elements(TwoPartitions().partitions)
    ensures forall p | p in r.value.kind.bindings :: r.value.kind.bindings[p].device == id
  {
    hide Fabricated, Fits, Values, Bindable, Sha.DigestOf, CanonicalBytes, Succeeds, Table, TwoPartitions, Ranks,
         AllFit, OneDevice, PhysicalIds;
    OneDeviceBindsAsTwo(devices, id);
    OneDeviceIds(devices, id);
    OneDeviceTable(devices, id);
    TwoPartitionsApart();
    var sample := New(0, devices, NotAttempted);
    r := BindTranslatedWithConstraints(TwoPartitions(), sample.value, OnePhysicalPerPartition, []);
  }

  lemma OneDeviceTable(devices: map<u32, Entry>, id: PhysicalDeviceId)
    requires OneDevice(devices, id)
    ensures AllFit(TwoPartitions(), SampleOf(devices), [id, id])
    ensures var b := Table(TwoPartitions(), SampleOf(devices), [id, id], 2);
      b.Keys == Elements(TwoPartitions().partitions) && forall p | p in b :: b[p].device == id
  {
    hide Fabricated, Fits, Values, Sha.DigestOf, CanonicalBytes, Table, OneDevice, BindingAt, TwoPartitions;
    OneDeviceEntry(devices, id, 0);
    TwoPartitionsApart();
    var plan, s, ranks := TwoPartitions(), SampleOf(devices), [id, id];
    forall i | 0 <= i < 2
      ensures Fits(plan, s, plan.partitions[i], ranks[i])
    {
      OneDeviceFits(plan, devices, id, plan.partitions[i]);
    }
    TableOrigin(plan, s, ranks, 2);
    assert plan.partitions[..2] == plan.partitions;
    BindingDevice(plan, s, 0, id);
    BindingDevice(plan, s, 1, id);
  }

  lemma BindingDevice(plan: TranslatedPlan, s: Snapshot, i: nat, id: PhysicalDeviceId)
    requires i < |plan.partitions| < U64_LIMIT && Fits(plan, s, plan.partitions[i], id)
    ensures BindingAt(plan, s, i, id).device == id
  {
    hide Fits, SafeLimit;
  }

  function FourPartitions(): TranslatedPlan {
    TwoPartitions().(partitions := [[0x61], [0x62], [0x63], [0x64]])
  }

  lemma FourPartitionsApart()
    ensures |FourPartitions().partitions| == 4 && Distinct(FourPartitions().partitions)
  {
    var ps := FourPartitions().partitions;
    assert forall i, j | 0 <= i < j < 4 :: ps[i][0] != ps[j][0];
  }

  /** Two entries of one device are also accepted as the two devices of a split. */
  lemma OneDeviceBindsSplit(devices: map<u32, Entry>, id: PhysicalDeviceId)
    requires OneDevice(devices, id) && |devices| == 2
    ensures var plan, s := FourPartitions(), SampleOf(devices);
      && |plan.partitions| == 4 && Distinct(plan.partitions) && Elements(PhysicalIds(s)) == {id}
      && PolicyFor(4, 2) == Some(SplitAcrossMembership(2)) && Succeeds(plan, s, SplitAcrossMembership(2), [])
  {
    hide Fabricated, Fits, Values, Sha.DigestOf, CanonicalBytes, PhysicalIds, Succeeds, BlockDevice;
    var plan, s := FourPartitions(), SampleOf(devices);
    FourPartitionsApart();
    OneDeviceIds(devices, id);
    SucceedsIffLegal(plan, s, 2);
    forall i | 0 <= i < 4
      ensures Fits(plan, s, plan.partitions[i], BlockDevice(PhysicalIds(s), 4, 2, i))
    {
      BlockDeviceInFirst(PhysicalIds(s), 4, 2, i);
      OneDeviceFits(plan, devices, id, plan.partitions[i]);
    }
  }

  /** One entry recorded under the id made up for the second rank; and two entries of one Metal device. */
  lemma OneDeviceInstances()
    ensures OneDevice(map[0 := LargeEntry(0, Fabricated(1))], Fabricated(1))
    ensures var id := MetalId([0x6d]); OneDevice(map[0 := LargeEntry(0, id), 1 := LargeEntry(1, id)], id)
  {
    hide Fabricated;
    var id := MetalId([0x6d]);
    var devices: map<u32, Entry> := map[0 := LargeEntry(0, id), 1 := LargeEntry(1, id)];
    assert devices.Keys == {0, 1} && |devices| == |devices.Keys|;
  }
}
