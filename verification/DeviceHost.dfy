/** device_host.rs: resolving launch records onto live handles, and the checks before a dispatch. */
module DeviceHost {
  import opened Prelude
  import opened DeviceIdentity
  import opened Handles
  import opened LaunchBindings

  datatype DeviceHandle = DeviceHandle(backend: DeviceBackend, kind: HandleKind, id: u64)

  datatype RuntimeSource = Constant | Position | ValidLenAfter | QueryRows | SequenceEpoch

  datatype Binding = Binding(handle: DeviceHandle, index: u32, offset: u64, span: u64, source: RuntimeSource)

  /** A descriptor's launch record names an allocation where a binding names a handle. */
  datatype Record = Record(allocation: u32, index: u32, offset: u64, span: u64, source: RuntimeSource)

  datatype Allocation = Allocation(id: u32, capacity: u64)

  datatype View = View(allocation: u32, base: u64, maxSpan: u64)

  /** A KV descriptor; `wellFormed` is the outcome of its own validation. */
  datatype Descriptor = Descriptor(
    wellFormed: bool,
    allocations: seq<Allocation>,
    views: seq<View>,
    records: seq<Record>)

  datatype Mapped = Mapped(allocation: u32, handle: DeviceHandle)

  datatype HostError = BadDescriptor | InvalidHandle | ShapeMismatch | CudaUnsupported

  // ---- dispatch checks ----

  /** The checks of `validate_dispatch_bindings` on one binding, in order. */
  function DispatchError(backend: DeviceBackend, b: Binding): Option<HostError> {
    if b.handle.backend != backend then Some(InvalidHandle)
    else if b.span == 0 then Some(BadDescriptor)
    else if b.handle.kind.ModuleHandle? then Some(InvalidHandle)
    else
      match CheckedAdd(b.offset, b.span)
      case None => Some(ShapeMismatch)
      case Some(end) =>
        if end > b.handle.kind.len then Some(ShapeMismatch)
        else if backend.Cuda? && (b.offset != 0 || b.source != Constant) then Some(CudaUnsupported)
        else None
  }

  /** What an admitted binding means: a nonempty byte range of a live buffer of this backend. */
  predicate Dispatchable(backend: DeviceBackend, b: Binding) {
    && b.handle.backend == backend && b.handle.kind.BufferHandle?
    && b.span > 0 && b.offset + b.span <= b.handle.kind.len
    && (backend.Cuda? ==> b.offset == 0 && b.source == Constant)
  }

  lemma DispatchErrorIff(backend: DeviceBackend, b: Binding)
    ensures DispatchError(backend, b).None? <==> Dispatchable(backend, b)
  {
  }

  /** `validate_dispatch_bindings`: the first refusal in caller order. */
  method ValidateDispatch(backend: DeviceBackend, bs: seq<Binding>) returns (e: Option<HostError>)
    ensures e.None? <==> forall b | b in bs :: Dispatchable(backend, b)
    ensures e.Some? ==> exists k ::
      0 <= k < |bs| && e == DispatchError(backend, bs[k]) && forall j | 0 <= j < k :: Dispatchable(backend, bs[j])
  {
    hide DispatchError, Dispatchable;
    for k := 0 to |bs|
      invariant forall j | 0 <= j < k :: Dispatchable(backend, bs[j])
    {
      DispatchErrorIff(backend, bs[k]);
      e := CheckDispatch(backend, bs[k]);
      if e.Some? {
        return;
      }
    }
    return None;
  }

  /** The body of that loop. */
  method CheckDispatch(backend: DeviceBackend, b: Binding) returns (e: Option<HostError>)
    ensures e == DispatchError(backend, b)
  {
    if b.handle.backend != backend {
      return Some(InvalidHandle);
    }
    if b.span == 0 {
      return Some(BadDescriptor);
    }
    if !b.handle.kind.BufferHandle? {
      return Some(InvalidHandle);
    }
    var end := CheckedAdd(b.offset, b.span);
    if end.None? {
      return Some(ShapeMismatch);
    }
    if end.value > b.handle.kind.len {
      return Some(ShapeMismatch);
    }
    if backend == Cuda && (b.offset != 0 || b.source != RuntimeSource.Constant) {
      return Some(CudaUnsupported);
    }
    return None;
  }

  // ---- resolving ----

  /** The first allocation with this identity. */
  function FindAllocation(allocations: seq<Allocation>, id: u32): (r: Option<Allocation>)
    ensures r.Some? ==> exists k :: 0 <= k < |allocations| && allocations[k] == r.value && r.value.id == id
                                    && forall j | 0 <= j < k :: allocations[j].id != id
    ensures r.None? ==> forall a | a in allocations :: a.id != id
  {
    if allocations == [] then None
    else if allocations[0].id == id then Some(allocations[0])
    else FindAllocation(allocations[1..], id)
  }

  function HandleFor(mapping: seq<Mapped>, id: u32): Option<DeviceHandle> {
    if mapping == [] then None
    else if mapping[0].allocation == id then Some(mapping[0].handle)
    else HandleFor(mapping[1..], id)
  }

  predicate MatchesView(kv: Descriptor, id: u32, offset: u64, span: u64) {
    exists v | v in kv.views :: v.allocation == id && v.base == offset && v.maxSpan >= span
  }

  /** `matching_view`: the search for a view of the allocation at that offset and with that span. */
  method FindView(kv: Descriptor, id: u32, offset: u64, span: u64) returns (found: bool)
    ensures found <==> MatchesView(kv, id, offset, span)
  {
    for k := 0 to |kv.views|
      invariant forall j | 0 <= j < k :: !(kv.views[j].allocation == id && kv.views[j].base == offset
                                           && kv.views[j].maxSpan >= span)
    {
      var v := kv.views[k];
      if v.allocation == id && v.base == offset && v.maxSpan >= span {
        assert v in kv.views;
        return true;
      }
    }
    return false;
  }

  /** One entry of the allocation map: a known allocation and a buffer of exactly its capacity. */
  predicate EntryLegal(kv: Descriptor, m: Mapped) {
    var a := FindAllocation(kv.allocations, m.allocation);
    a.Some? && m.handle.kind == BufferHandle(a.value.capacity)
  }

  predicate MapLegal(kv: Descriptor, mapping: seq<Mapped>) {
    && (forall m | m in mapping :: EntryLegal(kv, m))
    && (forall j, k | 0 <= j < k < |mapping| :: mapping[j].allocation != mapping[k].allocation)
  }

  /** What the first bad entry is refused for: its name, its kind of handle, or the handle's size. */
  predicate MapRefusedAt(kv: Descriptor, mapping: seq<Mapped>, k: nat, e: HostError)
    requires k < |mapping|
  {
    && MapLegal(kv, mapping[..k]) && !MapLegal(kv, mapping[..k + 1])
    && var named := FindAllocation(kv.allocations, mapping[k].allocation).Some?
        && forall j | 0 <= j < k :: mapping[j].allocation != mapping[k].allocation;
       e == if !named then BadDescriptor
            else if mapping[k].handle.kind.ModuleHandle? then InvalidHandle else ShapeMismatch
  }

  ghost predicate MapRefused(kv: Descriptor, mapping: seq<Mapped>, e: HostError) {
    exists k :: 0 <= k < |mapping| && MapRefusedAt(kv, mapping, k, e)
  }

  /** `validate_allocation_map` */
  method ValidateAllocationMap(kv: Descriptor, mapping: seq<Mapped>) returns (e: Option<HostError>)
    ensures e.None? <==> MapLegal(kv, mapping)
    ensures e.Some? ==> MapRefused(kv, mapping, e.value)
  {
    var seen: set<u32> := {};
    for k := 0 to |mapping|
      invariant MapLegal(kv, mapping[..k])
      invariant forall id :: id in seen <==> exists j :: 0 <= j < k && mapping[j].allocation == id
    {
      var m := mapping[k];
      if m.allocation in seen {
        MapRefusal(kv, mapping, k, BadDescriptor);
        return Some(BadDescriptor);
      }
      seen := seen + {m.allocation};
      var a := FindAllocation(kv.allocations, m.allocation);
      if a.None? {
        MapRefusal(kv, mapping, k, BadDescriptor);
        return Some(BadDescriptor);
      }
      if m.handle.kind.ModuleHandle? {
        MapRefusal(kv, mapping, k, InvalidHandle);
        return Some(InvalidHandle);
      }
      if m.handle.kind.len != a.value.capacity {
        MapRefusal(kv, mapping, k, ShapeMismatch);
        return Some(ShapeMismatch);
      }
      assert EntryLegal(kv, m);
    }
    assert mapping[..|mapping|] == mapping;
    return None;
  }

  lemma MapRefusal(kv: Descriptor, mapping: seq<Mapped>, k: nat, e: HostError)
    requires k < |mapping| && MapLegal(kv, mapping[..k])
    requires var named := FindAllocation(kv.allocations, mapping[k].allocation).Some?
        && forall j | 0 <= j < k :: mapping[j].allocation != mapping[k].allocation;
      && (named ==> !EntryLegal(kv, mapping[k]))
      && e == if !named then BadDescriptor
              else if mapping[k].handle.kind.ModuleHandle? then InvalidHandle else ShapeMismatch
    ensures !MapLegal(kv, mapping) && MapRefused(kv, mapping, e)
  {
    hide FindAllocation;
    var seen := mapping[..k + 1];
    assert seen[k] == mapping[k] && seen[k] in seen && seen[k] in mapping;
    assert forall j | 0 <= j < k :: seen[j] == mapping[j];
    if EntryLegal(kv, mapping[k]) {
      var j :| 0 <= j < k && mapping[j].allocation == mapping[k].allocation;
      assert seen[j].allocation == seen[k].allocation;
    }
    assert MapRefusedAt(kv, mapping, k, e);
  }

  /** `handle` backs allocation `id` and no other entry of the map. */
  ghost predicate MappedOnce(mapping: seq<Mapped>, handle: DeviceHandle, id: u32) {
    exists k :: 0 <= k < |mapping| && mapping[k] == Mapped(id, handle) && OnlyAt(mapping, handle, k)
  }

  ghost predicate OnlyAt(mapping: seq<Mapped>, handle: DeviceHandle, k: int) {
    forall j | 0 <= j < |mapping| && j != k :: mapping[j].handle != handle
  }

  /** `allocation_id_for_handle` */
  method AllocationIdFor(mapping: seq<Mapped>, handle: DeviceHandle) returns (r: Option<u32>)
    ensures r.Some? ==> MappedOnce(mapping, handle, r.value)
    ensures r.None? ==> forall id :: !MappedOnce(mapping, handle, id)
  {
    var found: Option<u32> := None;
    ghost var at := 0;
    for k := 0 to |mapping|
      invariant found.None? ==> forall j | 0 <= j < k :: mapping[j].handle != handle
      invariant found.Some? ==>
        0 <= at < k && mapping[at] == Mapped(found.value, handle) && OnlyAt(mapping[..k], handle, at)
    {
      if mapping[k].handle == handle {
        if found.Some? {
          return None;
        }
        found := Some(mapping[k].allocation);
        at := k;
      }
    }
    assert mapping[..|mapping|] == mapping;
    return found;
  }

  /** What `validate_launch_bindings` checks of one binding. */
  ghost predicate BindingLegal(kv: Descriptor, mapping: seq<Mapped>, b: Binding) {
    exists id :: MappedOnce(mapping, b.handle, id) && EnvelopeLegal(kv, id, b.offset, b.span)
  }

  /** The byte range fits the allocation and lies on one of its views. */
  predicate EnvelopeLegal(kv: Descriptor, id: u32, offset: u64, span: u64) {
    var a := FindAllocation(kv.allocations, id);
    a.Some? && offset + span <= a.value.capacity && MatchesView(kv, id, offset, span)
  }

  lemma MappedOnceUnique(mapping: seq<Mapped>, handle: DeviceHandle, a: u32, b: u32)
    requires MappedOnce(mapping, handle, a) && MappedOnce(mapping, handle, b)
    ensures a == b
  {
  }

  /** A bad binding is refused for its handle, unless that backs one known allocation; then for its range. */
  ghost predicate BindingRefused(kv: Descriptor, mapping: seq<Mapped>, b: Binding, e: HostError) {
    && !BindingLegal(kv, mapping, b)
    && var known := exists id :: MappedOnce(mapping, b.handle, id) && FindAllocation(kv.allocations, id).Some?;
       e == if known then ShapeMismatch else BadDescriptor
  }

  /** The refusal of `validate_launch_bindings`: the descriptor first, then the map, then the first bad binding. */
  ghost predicate LaunchRefused(kv: Descriptor, bs: seq<Binding>, mapping: seq<Mapped>, e: HostError) {
    if !kv.wellFormed then e == BadDescriptor
    else if !MapLegal(kv, mapping) then MapRefused(kv, mapping, e)
    else exists k :: 0 <= k < |bs| && RefusedFirst(kv, bs, mapping, k, e)
  }

  ghost predicate RefusedFirst(kv: Descriptor, bs: seq<Binding>, mapping: seq<Mapped>, k: nat, e: HostError)
    requires k < |bs|
  {
    BindingRefused(kv, mapping, bs[k], e) && forall j | 0 <= j < k :: BindingLegal(kv, mapping, bs[j])
  }

  /** `validate_launch_bindings` */
  method ValidateLaunch(kv: Descriptor, bs: seq<Binding>, mapping: seq<Mapped>) returns (e: Option<HostError>)
    ensures e.None? <==> kv.wellFormed && MapLegal(kv, mapping) && forall b | b in bs :: BindingLegal(kv, mapping, b)
    ensures e.Some? ==> LaunchRefused(kv, bs, mapping, e.value)
  {
    hide MapLegal, MappedOnce, MatchesView, FindAllocation, MapRefused, BindingRefused;
    if !kv.wellFormed {
      return Some(BadDescriptor);
    }
    e := ValidateAllocationMap(kv, mapping);
    if e.Some? {
      return;
    }
    for k := 0 to |bs|
      invariant forall j | 0 <= j < k :: BindingLegal(kv, mapping, bs[j])
    {
      e := ValidateOne(kv, bs[k], mapping);
      if e.Some? {
        assert RefusedFirst(kv, bs, mapping, k, e.value);
        return;
      }
    }
    return None;
  }

  method ValidateOne(kv: Descriptor, b: Binding, mapping: seq<Mapped>) returns (e: Option<HostError>)
    ensures e.None? <==> BindingLegal(kv, mapping, b)
    ensures e.Some? ==> BindingRefused(kv, mapping, b, e.value)
  {
    hide MappedOnce, MatchesView, FindAllocation;
    var id := AllocationIdFor(mapping, b.handle);
    if id.None? {
      return Some(BadDescriptor);
    }
    forall other | MappedOnce(mapping, b.handle, other)
      ensures other == id.value
    {
      MappedOnceUnique(mapping, b.handle, other, id.value);
    }
    var a := FindAllocation(kv.allocations, id.value);
    if a.None? {
      return Some(BadDescriptor);
    }
    var end := CheckedAdd(b.offset, b.span);
    if end.None? || end.value > a.value.capacity {
      return Some(ShapeMismatch);
    }
    var viewed := FindView(kv, id.value, b.offset, b.span);
    if !viewed {
      return Some(ShapeMismatch);
    }
    return None;
  }

  /** `b` carries the record's facts and a handle that backs the record's allocation and nothing else. */
  ghost predicate Resolves(kv: Descriptor, mapping: seq<Mapped>, r: Record, b: Binding) {
    && MappedOnce(mapping, b.handle, r.allocation) && EnvelopeLegal(kv, r.allocation, r.offset, r.span)
    && b == Binding(b.handle, r.index, r.offset, r.span, r.source)
  }

  lemma {:induction false} HandleForIsMapped(mapping: seq<Mapped>, id: u32)
    ensures HandleFor(mapping, id).Some? ==> Mapped(id, HandleFor(mapping, id).value) in mapping
    ensures HandleFor(mapping, id).None? ==> forall m | m in mapping :: m.allocation != id
  {
    if mapping != [] {
      HandleForIsMapped(mapping[1..], id);
    }
  }

  /** In a legal map an allocation is named once, so the first handle found for it is the only one. */
  lemma HandleForMappedOnce(kv: Descriptor, mapping: seq<Mapped>, handle: DeviceHandle, id: u32)
    requires MapLegal(kv, mapping) && MappedOnce(mapping, handle, id)
    ensures HandleFor(mapping, id) == Some(handle)
  {
    HandleForIsMapped(mapping, id);
  }

  lemma SameIdMapped(kv: Descriptor, mapping: seq<Mapped>, handle: DeviceHandle, a: u32, b: u32)
    requires MapLegal(kv, mapping) && Mapped(a, handle) in mapping && MappedOnce(mapping, handle, b)
    ensures a == b
  {
  }

  /** A resolved binding stays inside the handle it names. */
  lemma ResolvedFitsHandle(kv: Descriptor, mapping: seq<Mapped>, r: Record, b: Binding)
    requires MapLegal(kv, mapping) && Resolves(kv, mapping, r, b)
    ensures b.handle.kind.BufferHandle? && b.offset + b.span <= b.handle.kind.len
  {
    hide MatchesView, FindAllocation;
    var k :| 0 <= k < |mapping| && mapping[k] == Mapped(r.allocation, b.handle);
    assert EntryLegal(kv, mapping[k]);
  }

  /** A record names an allocation with a handle and a range on one of its views. */
  ghost predicate Placed(kv: Descriptor, mapping: seq<Mapped>, r: Record) {
    HandleFor(mapping, r.allocation).Some? && MatchesView(kv, r.allocation, r.offset, r.span)
  }

  ghost predicate Resolvable(kv: Descriptor, mapping: seq<Mapped>, r: Record) {
    exists b :: Resolves(kv, mapping, r, b)
  }

  /** Record `k` is the first without a handle, or without a view. */
  ghost predicate UnplacedFirst(kv: Descriptor, mapping: seq<Mapped>, k: nat, e: HostError)
    requires k < |kv.records|
  {
    && !Placed(kv, mapping, kv.records[k]) && (forall j | 0 <= j < k :: Placed(kv, mapping, kv.records[j]))
    && e == if HandleFor(mapping, kv.records[k].allocation).None? then BadDescriptor else ShapeMismatch
  }

  /** Record `k` is the first whose handle backs another allocation too, or that leaves its allocation. */
  ghost predicate UnresolvedFirst(kv: Descriptor, mapping: seq<Mapped>, k: nat, e: HostError)
    requires k < |kv.records|
  {
    var r := kv.records[k];
    && !Resolvable(kv, mapping, r) && (forall j | 0 <= j < k :: Resolvable(kv, mapping, kv.records[j]))
    && e == if exists h :: MappedOnce(mapping, h, r.allocation) then ShapeMismatch else BadDescriptor
  }

  /** The refusal of `resolve_launch_bindings`: every record is placed before any is validated. */
  ghost predicate ResolveRefused(kv: Descriptor, mapping: seq<Mapped>, e: HostError) {
    if !kv.wellFormed then e == BadDescriptor
    else if !MapLegal(kv, mapping) then MapRefused(kv, mapping, e)
    else if exists r :: r in kv.records && !Placed(kv, mapping, r) then
      exists k :: 0 <= k < |kv.records| && UnplacedFirst(kv, mapping, k, e)
    else exists k :: 0 <= k < |kv.records| && UnresolvedFirst(kv, mapping, k, e)
  }

  /**
   * `resolve_launch_bindings`: succeeds exactly when the descriptor and the map are legal and every record
   * has a handle that backs its allocation alone, a view, and room; the result keeps record order.
   */
  method Resolve(kv: Descriptor, mapping: seq<Mapped>) returns (r: Result<seq<Binding>, HostError>)
    ensures r.Ok? <==>
      kv.wellFormed && MapLegal(kv, mapping) && forall rec | rec in kv.records :: Resolvable(kv, mapping, rec)
    ensures r.Ok? ==>
      |r.value| == |kv.records| && forall k | 0 <= k < |r.value| :: Resolves(kv, mapping, kv.records[k], r.value[k])
    ensures r.Err? ==> ResolveRefused(kv, mapping, r.error)
  {
    hide MapLegal, MappedOnce, EnvelopeLegal, MapRefused, Resolvable, Resolves, Placed, BindingRefused, BindingLegal;
    if !kv.wellFormed {
      return Err(BadDescriptor);
    }
    var e := ValidateAllocationMap(kv, mapping);
    if e.Some? {
      return Err(e.value);
    }
    var resolved: seq<Binding> := [];
    for k := 0 to |kv.records|
      invariant |resolved| == k
      invariant forall j | 0 <= j < k :: Candidate(kv, mapping, kv.records[j], resolved[j])
      invariant forall j | 0 <= j < k :: Placed(kv, mapping, kv.records[j])
    {
      var b := ResolveOne(kv, mapping, kv.records[k]);
      if b.Err? {
        assert kv.records[k] in kv.records;
        assert UnplacedFirst(kv, mapping, k, b.error);
        return Err(b.error);
      }
      resolved := resolved + [b.value];
    }
    e := ValidateLaunch(kv, resolved, mapping);
    forall k | 0 <= k < |resolved|
      ensures BindingLegal(kv, mapping, resolved[k]) <==> Resolves(kv, mapping, kv.records[k], resolved[k])
      ensures BindingLegal(kv, mapping, resolved[k]) <==> Resolvable(kv, mapping, kv.records[k])
    {
      CandidateResolves(kv, mapping, kv.records[k], resolved[k]);
    }
    if e.Some? {
      ghost var k :| 0 <= k < |resolved| && RefusedFirst(kv, resolved, mapping, k, e.value);
      assert kv.records[k] in kv.records;
      CandidateRefused(kv, mapping, kv.records[k], resolved[k], e.value);
      assert UnresolvedFirst(kv, mapping, k, e.value);
      return Err(e.value);
    }
    return Ok(resolved);
  }

  /** What `resolve_one_binding` has established before the final validation. */
  ghost predicate Candidate(kv: Descriptor, mapping: seq<Mapped>, r: Record, b: Binding) {
    && HandleFor(mapping, r.allocation) == Some(b.handle) && MatchesView(kv, r.allocation, r.offset, r.span)
    && b == Binding(b.handle, r.index, r.offset, r.span, r.source)
  }

  method ResolveOne(kv: Descriptor, mapping: seq<Mapped>, rec: Record) returns (r: Result<Binding, HostError>)
    requires MapLegal(kv, mapping)
    ensures r.Ok? ==> Candidate(kv, mapping, rec, r.value)
    ensures r.Ok? <==> Placed(kv, mapping, rec)
    ensures r.Err? ==> !Resolvable(kv, mapping, rec)
    ensures r.Err? ==> r.error == if HandleFor(mapping, rec.allocation).None? then BadDescriptor else ShapeMismatch
  {
    hide MapLegal, MappedOnce, MatchesView, FindAllocation;
    var handle := HandleFor(mapping, rec.allocation);
    forall b | Resolves(kv, mapping, rec, b)
      ensures handle == Some(b.handle) && MatchesView(kv, rec.allocation, rec.offset, rec.span)
    {
      HandleForMappedOnce(kv, mapping, b.handle, rec.allocation);
    }
    if handle.None? {
      return Err(BadDescriptor);
    }
    var viewed := FindView(kv, rec.allocation, rec.offset, rec.span);
    if !viewed {
      return Err(ShapeMismatch);
    }
    return Ok(Binding(handle.value, rec.index, rec.offset, rec.span, rec.source));
  }

  /** The final validation accepts a candidate exactly when it resolves its record. */
  lemma CandidateResolves(kv: Descriptor, mapping: seq<Mapped>, r: Record, b: Binding)
    requires MapLegal(kv, mapping) && Candidate(kv, mapping, r, b)
    ensures BindingLegal(kv, mapping, b) <==> Resolves(kv, mapping, r, b)
    ensures Resolves(kv, mapping, r, b) <==> Resolvable(kv, mapping, r)
  {
    hide MapLegal, MappedOnce, MatchesView, FindAllocation;
    HandleForIsMapped(mapping, r.allocation);
    forall id | MappedOnce(mapping, b.handle, id)
      ensures id == r.allocation
    {
      SameIdMapped(kv, mapping, b.handle, r.allocation, id);
    }
    forall c | Resolves(kv, mapping, r, c)
      ensures c.handle == b.handle
    {
      HandleForMappedOnce(kv, mapping, c.handle, r.allocation);
    }
  }

  /** A candidate is refused for its handle exactly when that backs another allocation too. */
  lemma CandidateRefused(kv: Descriptor, mapping: seq<Mapped>, r: Record, b: Binding, e: HostError)
    requires MapLegal(kv, mapping) && Candidate(kv, mapping, r, b) && BindingRefused(kv, mapping, b, e)
    ensures !BindingLegal(kv, mapping, b)
    ensures e == if exists h :: MappedOnce(mapping, h, r.allocation) then ShapeMismatch else BadDescriptor
  {
    hide MapLegal, MappedOnce, MatchesView, FindAllocation, BindingLegal;
    HandleForIsMapped(mapping, r.allocation);
    MappedIsNamed(kv, mapping, Mapped(r.allocation, b.handle));
    forall id | MappedOnce(mapping, b.handle, id)
      ensures id == r.allocation
    {
      SameIdMapped(kv, mapping, b.handle, r.allocation, id);
    }
    forall h | MappedOnce(mapping, h, r.allocation)
      ensures h == b.handle
    {
      HandleForMappedOnce(kv, mapping, h, r.allocation);
    }
  }

  lemma MappedIsNamed(kv: Descriptor, mapping: seq<Mapped>, m: Mapped)
    requires MapLegal(kv, mapping) && m in mapping
    ensures FindAllocation(kv.allocations, m.allocation).Some?
  {
    assert EntryLegal(kv, m);
  }

  /** What resolves passes a Metal runtime's dispatch checks exactly when spans are nonzero and handles Metal. */
  lemma ResolvedDispatches(kv: Descriptor, mapping: seq<Mapped>, bs: seq<Binding>)
    requires MapLegal(kv, mapping) && |bs| == |kv.records|
    requires forall k | 0 <= k < |bs| :: Resolves(kv, mapping, kv.records[k], bs[k])
    ensures (forall b | b in bs :: Dispatchable(Metal, b))
       <==> forall b | b in bs :: b.span > 0 && b.handle.backend == Metal
  {
    hide Resolves, MapLegal;
    forall k | 0 <= k < |bs|
      ensures bs[k].handle.kind.BufferHandle? && bs[k].offset + bs[k].span <= bs[k].handle.kind.len
    {
      ResolvedFitsHandle(kv, mapping, kv.records[k], bs[k]);
    }
  }

  function ByIndex(bs: seq<Binding>): seq<Indexed<DeviceHandle>> {
    seq(|bs|, k requires 0 <= k < |bs| => Indexed(bs[k].index, bs[k].handle))
  }

  /** `handles_in_binding_order` */
  method HandlesInBindingOrder(bs: seq<Binding>) returns (r: Result<seq<DeviceHandle>, PlaceError>)
    ensures r.Ok? <==> Permutation(ByIndex(bs))
    ensures r.Ok? ==>
      && |r.value| == |bs|
      && forall k | 0 <= k < |bs| :: bs[k].index < |bs| && r.value[bs[k].index] == bs[k].handle
    ensures r.Err? ==> exists k :: FirstUnplaced(ByIndex(bs), k, r.error)
  {
    r := Place(ByIndex(bs));
    if r.Ok? {
      forall k | 0 <= k < |bs|
        ensures bs[k].index < |bs| && r.value[bs[k].index] == bs[k].handle
      {
        assert ByIndex(bs)[k].index < |r.value|;
      }
    }
  }
}
