/** partition.rs: admission ledgers, the partition lifecycle and receipts. */
module Partition {
  import opened Prelude
  import opened Ordered
  import opened DeviceIdentity

  datatype Ledger = Ledger(
    weightBytes: u64,
    kvCacheBytes: u64,
    activationScratchBytes: u64,
    moduleStorageBytes: u64,
    allocatorOverheadBytes: u64,
    transferStagingBytes: u64,
    concurrentStateBytes: u64)
  {
    function Sum(): nat {
      weightBytes + kvCacheBytes + activationScratchBytes + moduleStorageBytes
      + allocatorOverheadBytes + transferStagingBytes + concurrentStateBytes
    }

    /** The checked sum of the seven classes: a value exactly when the sum fits u64. */
    function TotalBytes(): (r: Option<u64>)
      ensures r == if Sum() < U64_LIMIT then Some(Sum()) else None
    {
      var t2 :- CheckedAdd(weightBytes, kvCacheBytes);
      var t3 :- CheckedAdd(t2, activationScratchBytes);
      var t4 :- CheckedAdd(t3, moduleStorageBytes);
      var t5 :- CheckedAdd(t4, allocatorOverheadBytes);
      var t6 :- CheckedAdd(t5, transferStagingBytes);
      CheckedAdd(t6, concurrentStateBytes)
    }
  }

  datatype PartitionFailure = AllocationFailure(detail: Text) | DeviceLoss(detail: Text)

  datatype PartitionState = Active | Failed(failure: PartitionFailure) | TornDown

  datatype VirtualDevicePartition = VirtualDevicePartition(
    id: u64,
    boundDevice: PhysicalDeviceId,
    ledger: Ledger,
    safeLimit: u64,
    state: PartitionState)

  datatype AdmissionError = BudgetExceeded(declaredTotalBytes: Option<u64>, policyLimitBytes: u64)

  /** Admission: the declared total must fit both u64 and the policy limit. */
  function Admit(id: u64, device: PhysicalDeviceId, ledger: Ledger, limit: u64)
    : (r: Result<VirtualDevicePartition, AdmissionError>)
    ensures r.Ok? <==> ledger.Sum() <= limit
    ensures r.Ok? ==> r.value == VirtualDevicePartition(id, device, ledger, limit, Active)
    ensures r.Err? ==> r.error.policyLimitBytes == limit
    ensures r.Err? ==> r.error.declaredTotalBytes == if ledger.Sum() < U64_LIMIT then Some(ledger.Sum()) else None
  {
    match ledger.TotalBytes()
    case Some(total) =>
      if total <= limit then Ok(VirtualDevicePartition(id, device, ledger, limit, Active))
      else Err(BudgetExceeded(Some(total), limit))
    case None => Err(BudgetExceeded(None, limit))
  }

  // ---- lifecycle ----

  datatype Event = RecordFailure(failure: PartitionFailure) | Teardown

  /** What one event does to the state. */
  function Next(state: PartitionState, e: Event): PartitionState {
    match e
    case RecordFailure(f) => if state.Active? then Failed(f) else state
    case Teardown => TornDown
  }

  function Run(state: PartitionState, events: seq<Event>): PartitionState
    decreases |events|
  {
    if events == [] then state else Run(Next(state, events[0]), events[1..])
  }

  /** A partition whose owner records failures and tears it down. */
  class Bound {
    var partition: VirtualDevicePartition
    /** Every event so far. */
    ghost var history: seq<Event>

    ghost predicate Valid()
      reads this
    {
      partition.state == Run(Active, history)
    }

    constructor (admitted: VirtualDevicePartition)
      requires admitted.state == Active
      ensures Valid() && partition == admitted && history == []
    {
      partition := admitted;
      history := [];
    }

    method Record(failure: PartitionFailure)
      requires Valid()
      modifies this
      ensures Valid() && history == old(history) + [RecordFailure(failure)]
      ensures partition == old(partition).(state := Next(old(partition).state, RecordFailure(failure)))
    {
      if partition.state.Active? {
        partition := partition.(state := Failed(failure));
      }
      RunAppend(Active, history, RecordFailure(failure));
      history := history + [RecordFailure(failure)];
    }

    method TearDown()
      requires Valid()
      modifies this
      ensures Valid() && history == old(history) + [Teardown]
      ensures partition == old(partition).(state := TornDown)
    {
      partition := partition.(state := TornDown);
      RunAppend(Active, history, Teardown);
      history := history + [Teardown];
    }
  }

  lemma {:induction false} RunAppend(state: PartitionState, events: seq<Event>, e: Event)
    ensures Run(state, events + [e]) == Next(Run(state, events), e)
    decreases |events|
  {
    if events == [] {
      assert ([] + [e])[1..] == [];
    } else {
      RunAppend(Next(state, events[0]), events[1..], e);
      assert (events + [e])[1..] == events[1..] + [e];
    }
  }

  /** First failure wins, teardown is final, and an untouched partition stays active. */
  lemma {:induction false} LifecycleOutcome(events: seq<Event>)
    ensures Run(Active, events) ==
            if Teardown in events then TornDown
            else if events == [] then Active
            else Failed(events[0].failure)
  {
    if events != [] {
      var init, last := events[..|events| - 1], events[|events| - 1];
      assert events == init + [last];
      RunAppend(Active, init, last);
      LifecycleOutcome(init);
    }
  }

  // ---- receipts ----

  datatype FixtureIdentityClass = Physical | Virtual | Synthetic {
    function Tag(): u64 { if Physical? then 0 else if Virtual? then 1 else 2 }
  }

  datatype TransportClass = NoTransport | HostStaged | DirectedPeerNotAttempted {
    function Tag(): u64 { if NoTransport? then 0 else if HostStaged? then 1 else 2 }
  }

  datatype Receipt = Receipt(
    physicalDeviceCount: nat,
    physicalDeviceIds: set<PhysicalDeviceId>,
    virtualPartitionCount: nat,
    virtualPartitionIds: set<u64>,
    fixture: FixtureIdentityClass,
    transport: TransportClass)

  function NewReceipt(physical: set<PhysicalDeviceId>, virtuals: set<u64>, fixture: FixtureIdentityClass,
                      transport: TransportClass): Receipt {
    Receipt(|physical|, physical, |virtuals|, virtuals, fixture, transport)
  }

  /** Counts come from the id sets, which have usize lengths. */
  ghost predicate WellCounted(r: Receipt) {
    && r.physicalDeviceCount == |r.physicalDeviceIds| < U64_LIMIT
    && r.virtualPartitionCount == |r.virtualPartitionIds| < U64_LIMIT
  }

  function SortedU64(s: set<u64>): seq<u64> {
    U64Order();
    Sorted(s, U64Less)
  }

  /** The virtual ids are written in ascending order. */
  lemma SortedU64Ascending(s: set<u64>, i: nat, j: nat)
    requires i < j < |SortedU64(s)|
    ensures SortedU64(s)[i] < SortedU64(s)[j] && SortedU64(s)[i] in s && SortedU64(s)[j] in s
  {
    U64Order();
    SortedListing(s, U64Less);
    var r := SortedU64(s);
    assert r[i] in Elements(r) && r[j] in Elements(r);
  }

  function PutU64s(vs: seq<u64>, k: seq<u8>): seq<u8> {
    if vs == [] then k else PutU64(vs[0], PutU64s(vs[1..], k))
  }

  function GetU64s(n: nat, b: seq<u8>): Decoded<seq<u64>> {
    if n == 0 then Some(([], b))
    else
      var (v, k) :- GetU64(b);
      var (vs, k1) :- GetU64s(n - 1, k);
      Some(([v] + vs, k1))
  }

  lemma {:induction false} U64sRoundTrip(vs: seq<u64>, k: seq<u8>)
    ensures GetU64s(|vs|, PutU64s(vs, k)) == Some((vs, k))
  {
    hide PutU64, GetU64;
    if vs != [] {
      U64RoundTrip(vs[0], PutU64s(vs[1..], k));
      U64sRoundTrip(vs[1..], k);
      assert vs == [vs[0]] + vs[1..];
    }
  }

  function PutVirtual(r: Receipt, k: seq<u8>): seq<u8>
    requires WellCounted(r)
  {
    PutU64(r.virtualPartitionCount, PutU64(|r.virtualPartitionIds|, PutU64s(SortedU64(r.virtualPartitionIds), k)))
  }

  function PutTags(fixture: FixtureIdentityClass, transport: TransportClass, k: seq<u8>): seq<u8> {
    PutU64(fixture.Tag(), PutU64(transport.Tag(), k))
  }

  /** The receipt's canonical bytes; the isolation claim is always false. */
  function ReceiptBytes(r: Receipt): seq<u8>
    requires WellCounted(r)
  {
    PutU64(r.physicalDeviceCount, PutU64(|r.physicalDeviceIds|, PutIds(SortedIds(r.physicalDeviceIds),
      PutVirtual(r, PutTags(r.fixture, r.transport, PutBool(false, []))))))
  }

  method PushU64s(out: seq<u8>, vs: seq<u64>, ghost k: seq<u8>) returns (r: seq<u8>)
    ensures r + k == out + PutU64s(vs, k)
  {
    r := out;
    for i := 0 to |vs|
      invariant r + PutU64s(vs[i..], k) == out + PutU64s(vs, k)
    {
      assert vs[i..][1..] == vs[i + 1..];
      r := PushU64(r, vs[i], PutU64s(vs[i + 1..], k));
    }
  }

  /** `PartitionReceipt::canonical_bytes` */
  method CanonicalReceiptBytes(r: Receipt) returns (out: seq<u8>)
    requires WellCounted(r)
    ensures out == ReceiptBytes(r)
  {
    hide PutU64, PutU64s, PutIds, PutBool;
    var ids, vs := SortedIds(r.physicalDeviceIds), SortedU64(r.virtualPartitionIds);
    ghost var k6 := PutBool(false, []);
    ghost var k5 := PutTags(r.fixture, r.transport, k6);
    ghost var k4 := PutU64s(vs, k5);
    ghost var k3 := PutVirtual(r, k5);
    ghost var k2 := PutIds(ids, k3);
    out := PushU64([], r.physicalDeviceCount, PutU64(|r.physicalDeviceIds|, k2));
    out := PushU64(out, |r.physicalDeviceIds|, k2);
    out := PushIds(out, ids, k3);
    out := PushU64(out, r.virtualPartitionCount, PutU64(|r.virtualPartitionIds|, k4));
    out := PushU64(out, |r.virtualPartitionIds|, k4);
    out := PushU64s(out, vs, k5);
    out := PushU64(out, r.fixture.Tag(), PutU64(r.transport.Tag(), k6));
    out := PushU64(out, r.transport.Tag(), k6);
    out := PushBool(out, false, []);
    assert out + [] == out;
  }

  function FixtureOfTag(t: u64): Option<FixtureIdentityClass> {
    if t == 0 then Some(Physical) else if t == 1 then Some(Virtual) else if t == 2 then Some(Synthetic) else None
  }

  function TransportOfTag(t: u64): Option<TransportClass> {
    if t == 0 then Some(NoTransport) else if t == 1 then Some(HostStaged)
    else if t == 2 then Some(DirectedPeerNotAttempted) else None
  }

  function GetTags(b: seq<u8>): Decoded<(FixtureIdentityClass, TransportClass)> {
    var (f, k1) :- GetU64(b);
    var (t, k2) :- GetU64(k1);
    var fixture :- FixtureOfTag(f);
    var transport :- TransportOfTag(t);
    Some(((fixture, transport), k2))
  }

  function DecodeReceipt(b: seq<u8>): Option<Receipt> {
    var (pc, k1) :- GetU64(b);
    var (pn, k2) :- GetU64(k1);
    var (ids, k3) :- GetIds(pn, k2);
    var (vc, k4) :- GetU64(k3);
    var (vn, k5) :- GetU64(k4);
    var (vs, k6) :- GetU64s(vn, k5);
    var (tags, k7) :- GetTags(k6);
    Some(Receipt(pc, Elements(ids), vc, Elements(vs), tags.0, tags.1))
  }

  lemma TagsRoundTrip(fixture: FixtureIdentityClass, transport: TransportClass, k: seq<u8>)
    ensures GetTags(PutTags(fixture, transport, k)) == Some(((fixture, transport), k))
  {
    hide PutU64, GetU64;
    U64RoundTrip(fixture.Tag(), PutU64(transport.Tag(), k));
    U64RoundTrip(transport.Tag(), k);
  }

  lemma ReceiptRoundTrip(r: Receipt)
    requires WellCounted(r)
    ensures DecodeReceipt(ReceiptBytes(r)) == Some(r)
  {
    hide PutU64, GetU64, PutU64s, GetU64s, PutIds, GetIds, PutTags, GetTags;
    var ids, vs := SortedIds(r.physicalDeviceIds), SortedU64(r.virtualPartitionIds);
    IdOrder();
    SortedListing(r.physicalDeviceIds, IdLess);
    U64Order();
    SortedListing(r.virtualPartitionIds, U64Less);
    var k5 := PutTags(r.fixture, r.transport, PutBool(false, []));
    var k4 := PutU64s(vs, k5);
    var k3 := PutU64(|r.virtualPartitionIds|, k4);
    var k2 := PutVirtual(r, k5);
    var k1 := PutIds(ids, k2);
    U64RoundTrip(r.physicalDeviceCount, PutU64(|r.physicalDeviceIds|, k1));
    U64RoundTrip(|r.physicalDeviceIds|, k1);
    IdsRoundTrip(ids, k2);
    U64RoundTrip(r.virtualPartitionCount, k3);
    U64RoundTrip(|r.virtualPartitionIds|, k4);
    U64sRoundTrip(vs, k5);
    TagsRoundTrip(r.fixture, r.transport, PutBool(false, []));
  }

  /** Changing any receipt field changes the bytes. */
  lemma ReceiptBytesInjective(r: Receipt, s: Receipt)
    requires WellCounted(r) && WellCounted(s)
    requires ReceiptBytes(r) == ReceiptBytes(s)
    ensures r == s
  {
    ReceiptRoundTrip(r);
    ReceiptRoundTrip(s);
  }
}
