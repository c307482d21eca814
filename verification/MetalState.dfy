/** metal_host.rs as a state machine: the sequencing fake driver, and the session over it. */
module MetalState {
  import opened Prelude
  import opened Handles
  import opened MmapWrap
  import opened LaunchBindings
  import opened ElementwiseAdd

  datatype HostError =
    | InvalidArgs | InvalidHandle | DriverFault | AbiMismatch | BadDescriptor | ShapeMismatch | EntryMismatch | Internal

  // ---- the driver ----

  datatype Stage = ModuleLoad | Alloc | CopyIn | Launch | Sync | Readback

  /** Stage to the 1-based call that fails; an absent stage never fails. */
  type FailurePlan = map<Stage, nat>

  /** Owned or mapped bytes, where the handle's bytes start in them, and the handle's length. */
  datatype Slot = Slot(bytes: seq<u8>, region: u64, len: nat)

  datatype Tally = Tally(moduleLoads: nat, moduleReleases: nat, bufferAllocs: nat, bufferReleases: nat)

  datatype Driver = Driver(
    nextToken: nat,
    buffers: map<nat, Slot>,
    modules: map<nat, seq<u8>>,
    maps: seq<Mapping>,
    stageCalls: map<Stage, nat>,
    tally: Tally,
    pending: nat,
    submits: nat,
    waits: nat,
    wraps: nat)

  datatype DriverOutcome = DriverOutcome(driver: Driver, error: Option<HostError>)

  /** Host memory handed to a copy: its bytes, and its address when it may lie in a retained mapping. */
  datatype Slice = Slice(place: Option<usize>, bytes: seq<u8>)

  /** What a kernel run does once its bindings are composed: refuse, or rewrite at most one buffer in place. */
  datatype KernelRun = Refused(error: HostError) | Ran(write: Option<KernelWrite>)

  datatype KernelWrite = KernelWrite(binding: nat, bytes: seq<u8>)

  function CallsOf(d: Driver, stage: Stage): nat {
    if stage in d.stageCalls then d.stageCalls[stage] else 0
  }

  function Count(d: Driver, stage: Stage): Driver {
    d.(stageCalls := d.stageCalls[stage := CallsOf(d, stage) + 1])
  }

  /** `maybe_fail`, before the call is counted. */
  predicate Fails(d: Driver, stage: Stage, plan: FailurePlan) {
    stage in plan && plan[stage] == CallsOf(d, stage) + 1
  }

  function AddModule(d: Driver, image: seq<u8>): Driver {
    d.(modules := d.modules[d.nextToken := image], nextToken := d.nextToken + 1,
       tally := d.tally.(moduleLoads := d.tally.moduleLoads + 1))
  }

  function AddBuffer(d: Driver, len: nat): Driver {
    d.(buffers := d.buffers[d.nextToken := Slot(seq(len, _ => 0), 0, len)], nextToken := d.nextToken + 1,
       tally := d.tally.(bufferAllocs := d.tally.bufferAllocs + 1))
  }

  /** The mapped bytes behind a wrap; zero where a wrap would leave the mapping. */
  function PageBytes(w: Wrap): (bytes: seq<u8>)
    ensures |bytes| == w.len
    ensures w.file.start <= w.ptr && w.ptr + w.len <= w.file.start + |w.file.bytes| ==>
      bytes == w.file.bytes[w.ptr - w.file.start..w.ptr - w.file.start + w.len]
  {
    var from := w.ptr - w.file.start;
    if 0 <= from && from + w.len <= |w.file.bytes| then w.file.bytes[from..from + w.len] else seq(w.len, _ => 0)
  }

  function WrapOf(d: Driver, slice: Slice): Option<Wrap> {
    if slice.place.None? then None else WrapFor(d.maps, slice.place.value, |slice.bytes|)
  }

  /** The slot after `copy_in`, or its refusal. */
  function CopiedSlot(slot: Slot, slice: Slice, wrap: Option<Wrap>): Result<Slot, HostError> {
    if wrap.Some? then Ok(Slot(PageBytes(wrap.value), wrap.value.offset, slot.len))
    else if slot.region != 0 || |slot.bytes| != |slice.bytes| then Err(InvalidArgs)
    else Ok(slot.(bytes := slice.bytes))
  }

  function DriverCopyIn(d: Driver, token: nat, slice: Slice, plan: FailurePlan): DriverOutcome {
    var counted := Count(d, CopyIn);
    if Fails(d, CopyIn, plan) then DriverOutcome(counted, Some(DriverFault))
    else if token !in d.buffers then DriverOutcome(counted, Some(Internal))
    else
      match CopiedSlot(d.buffers[token], slice, WrapOf(d, slice))
      case Err(e) => DriverOutcome(counted, Some(e))
      case Ok(slot) =>
        var wraps := d.wraps + if WrapOf(d, slice).Some? then 1 else 0;
        DriverOutcome(counted.(buffers := d.buffers[token := slot], wraps := wraps), None)
  }

  datatype Bound = Bound(token: nat, offset: u64, span: u64)

  /** The first binding whose slot is missing or whose composed range leaves it. */
  function ComposeError(buffers: map<nat, Slot>, bounds: seq<Bound>): Option<HostError> {
    if bounds == [] then None
    else if bounds[0].token !in buffers then Some(Internal)
    else if !Composes(buffers[bounds[0].token], bounds[0]) then Some(ShapeMismatch)
    else ComposeError(buffers, bounds[1..])
  }

  predicate Composes(slot: Slot, b: Bound) {
    |slot.bytes| < 0x1_0000_0000_0000_0000 && Compose(slot.region, b.offset, b.span, |slot.bytes|).Some?
  }

  /** A kernel writes in place: the buffer keeps its size. */
  function ApplyWrite(buffers: map<nat, Slot>, bounds: seq<Bound>, write: Option<KernelWrite>): map<nat, Slot> {
    if write.None? || write.value.binding >= |bounds| then buffers
    else
      var token := bounds[write.value.binding].token;
      if token in buffers && |buffers[token].bytes| == |write.value.bytes|
      then buffers[token := buffers[token].(bytes := write.value.bytes)] else buffers
  }

  function DriverLaunch(d: Driver, bounds: seq<Bound>, kernel: KernelRun, plan: FailurePlan): DriverOutcome {
    var counted := Count(d, Launch);
    if Fails(d, Launch, plan) then DriverOutcome(counted, Some(DriverFault))
    else
      var e := ComposeError(d.buffers, bounds);
      if e.Some? then DriverOutcome(counted, e)
      else if kernel.Refused? then DriverOutcome(counted, Some(kernel.error))
      else
        var buffers := ApplyWrite(d.buffers, bounds, kernel.write);
        DriverOutcome(counted.(buffers := buffers, pending := d.pending + 1), None)
  }

  /** `view_from` offset zero: the handle's bytes behind the remainder, as far as the buffer has them. */
  function ViewOf(d: Driver, token: nat): Result<seq<u8>, HostError> {
    if token !in d.buffers then Err(Internal)
    else if !Composes(d.buffers[token], Bound(token, 0, 0)) then Err(ShapeMismatch)
    else
      var slot := d.buffers[token];
      Ok(slot.bytes[slot.region..Max(Min(slot.region + slot.len, |slot.bytes|), slot.region)])
  }

  /** A slot whose bytes behind the remainder were overwritten by sums, word by word. */
  function SumInto(slot: Slot, left: seq<u8>, right: seq<u8>, add: Adder, n: nat): Slot
    requires slot.region <= |slot.bytes| && |left| == |right| == |slot.bytes| - slot.region && 4 * n <= |left|
  {
    slot.(bytes := slot.bytes[..slot.region] + Summed(slot.bytes[slot.region..], left, right, add, n))
  }

  /** The driver's add: no stage is counted, and the output is everything behind its remainder. */
  function DriverAdd(d: Driver, program: nat, a: nat, b: nat, out: nat, add: Adder): DriverOutcome {
    if program !in d.modules then DriverOutcome(d, Some(Internal))
    else
      match ViewOf(d, a)
      case Err(e) => DriverOutcome(d, Some(e))
      case Ok(left) =>
        match ViewOf(d, b)
        case Err(e) => DriverOutcome(d, Some(e))
        case Ok(right) =>
          match ViewOf(d, out)
          case Err(e) => DriverOutcome(d, Some(e))
          case Ok(_) =>
            var slot := d.buffers[out];
            if |left| != |right| || |left| != |slot.bytes| - slot.region then DriverOutcome(d, Some(InvalidArgs))
            else
              var buffers := d.buffers[out := SumInto(slot, left, right, add, |left| / 4)];
              DriverOutcome(d.(buffers := buffers, pending := d.pending + 1), None)
  }

  /** `flush_pending`: one submit and one wait, if anything is pending. */
  function Flush(d: Driver): Driver {
    if d.pending == 0 then d else d.(submits := d.submits + 1, waits := d.waits + 1, pending := 0)
  }

  function DriverSync(d: Driver, plan: FailurePlan): DriverOutcome {
    if Fails(d, Sync, plan) then DriverOutcome(Count(d, Sync), Some(DriverFault))
    else DriverOutcome(Flush(Count(d, Sync)), None)
  }

  /** Whether `copy_out` finds `len` bytes behind the slot's remainder. */
  predicate HasBytes(slot: Slot, len: nat) {
    slot.region + len <= |slot.bytes|
  }

  /** `copy_out` flushes before it can fail. */
  function DriverCopyOut(d: Driver, token: nat, len: nat, plan: FailurePlan): DriverOutcome {
    var flushed := Count(Flush(d), Readback);
    DriverOutcome(flushed,
                  if Fails(d, Readback, plan) then Some(DriverFault)
                  else if token !in d.buffers || !HasBytes(d.buffers[token], len) then Some(Internal)
                  else None)
  }

  function DriverFree(d: Driver, token: nat): Driver {
    if token in d.buffers then
      d.(buffers := d.buffers - {token}, tally := d.tally.(bufferReleases := d.tally.bufferReleases + 1))
    else if token in d.modules then
      d.(modules := d.modules - {token}, tally := d.tally.(moduleReleases := d.tally.moduleReleases + 1))
    else d
  }

  // ---- the session ----

  datatype Handle = Handle(kind: HandleKind, token: nat)

  datatype State = State(driver: Driver, handles: map<nat, Handle>, nextId: nat)

  datatype LaunchBinding = LaunchBinding(handle: nat, index: u32, offset: u64, span: u64)

  datatype Call =
    | DoLoad(image: seq<u8>)
    | DoAlloc(len: usize)
    | DoRetain(file: Mapping)
    | DoCopyIn(id: nat, slice: Slice)
    | DoLaunch(id: nat, entry: string, bindings: seq<LaunchBinding>, kernel: KernelRun)
    | DoLaunchWhole(id: nat, entry: string, buffers: seq<nat>, kernel: KernelRun)
    | DoElementwiseAdd(id: nat, a: nat, b: nat, out: nat, add: Adder)
    | DoSync
    | DoReadback(id: nat)
    | DoRelease(id: nat)

  datatype Reply = Done | NewHandle(id: nat) | Bytes(bytes: seq<u8>) | Failed(error: HostError)

  datatype Outcome = Outcome(st: State, reply: Reply)

  /** What a fresh fake driver and an empty registry look like: ids start at 1, tokens at 0. */
  predicate Initial(st: State) {
    st == State(Driver(0, map[], map[], [], map[], Tally(0, 0, 0, 0), 0, 0, 0, 0), map[], 1)
  }

  function Register(st: State, d: Driver, kind: HandleKind): Outcome {
    Outcome(State(d, st.handles[st.nextId := Handle(kind, st.driver.nextToken)], st.nextId + 1), NewHandle(st.nextId))
  }

  function DoneOr(e: Option<HostError>): Reply {
    if e.Some? then Failed(e.value) else Done
  }

  function Load(st: State, image: seq<u8>, plan: FailurePlan): Outcome {
    if image == [] then Outcome(st, Failed(InvalidArgs))
    else
      var counted := Count(st.driver, ModuleLoad);
      if Fails(st.driver, ModuleLoad, plan) then Outcome(st.(driver := counted), Failed(DriverFault))
      else Register(st, AddModule(counted, image), ModuleHandle)
  }

  function Allocate(st: State, len: usize, plan: FailurePlan): Outcome {
    if len == 0 then Outcome(st, Failed(InvalidArgs))
    else
      var counted := Count(st.driver, Alloc);
      if Fails(st.driver, Alloc, plan) then Outcome(st.(driver := counted), Failed(DriverFault))
      else Register(st, AddBuffer(counted, len), BufferHandle(len))
  }

  /** `module_token` */
  function ModuleError(st: State, id: nat): Option<HostError> {
    if id !in st.handles then Some(InvalidHandle)
    else if !st.handles[id].kind.ModuleHandle? then Some(InvalidArgs) else None
  }

  /** `buffer_token` */
  function BufferOf(st: State, id: nat): Result<Handle, HostError> {
    if id !in st.handles then Err(InvalidHandle)
    else if !st.handles[id].kind.BufferHandle? then Err(InvalidArgs) else Ok(st.handles[id])
  }

  function Padded(slice: Slice, len: nat): Slice
    requires |slice.bytes| <= len
  {
    Slice(None, slice.bytes + seq(len - |slice.bytes|, _ => 0))
  }

  /** Equal lengths copy; up to 3 bytes short tries the slice itself first, then zero-pads it. */
  function CopyInto(d: Driver, token: nat, len: nat, slice: Slice, plan: FailurePlan): DriverOutcome {
    if |slice.bytes| == len then DriverCopyIn(d, token, slice, plan)
    else if |slice.bytes| > len || len - |slice.bytes| >= 4 then DriverOutcome(d, Some(InvalidArgs))
    else
      var first := DriverCopyIn(d, token, slice, plan);
      if first.error.None? then first else DriverCopyIn(first.driver, token, Padded(slice, len), plan)
  }

  function CopyInBytes(st: State, id: nat, slice: Slice, plan: FailurePlan): Outcome {
    match BufferOf(st, id)
    case Err(e) => Outcome(st, Failed(e))
    case Ok(h) =>
      var r := CopyInto(st.driver, h.token, h.kind.len, slice, plan);
      Outcome(st.(driver := r.driver), DoneOr(r.error))
  }

  /** The first binding the session refuses, in slot order. */
  function AdmitError(st: State, ordered: seq<LaunchBinding>): Option<HostError> {
    if ordered == [] then None
    else
      var b := ordered[0];
      match BufferOf(st, b.handle)
      case Err(e) => Some(e)
      case Ok(h) =>
        if b.span == 0 then Some(BadDescriptor)
        else if !Admits(h.kind.len, b.offset, b.span) then Some(ShapeMismatch)
        else AdmitError(st, ordered[1..])
  }

  function Bounds(st: State, ordered: seq<LaunchBinding>): seq<Bound> {
    seq(|ordered|, k requires 0 <= k < |ordered| =>
      Bound(TokenOf(st, ordered[k].handle), ordered[k].offset, ordered[k].span))
  }

  function ByIndex(bs: seq<LaunchBinding>): seq<Indexed<LaunchBinding>> {
    seq(|bs|, k requires 0 <= k < |bs| => Indexed(bs[k].index, bs[k]))
  }

  ghost function LaunchBound(st: State, id: nat, entry: string, bs: seq<LaunchBinding>, kernel: KernelRun,
                             plan: FailurePlan): Outcome {
    var e := ModuleError(st, id);
    if e.Some? then Outcome(st, Failed(e.value))
    else if entry == "" then Outcome(st, Failed(InvalidArgs))
    else if !Permutation(ByIndex(bs)) then Outcome(st, Failed(AbiMismatch))
    else Dispatch(st, InSlotOrder(ByIndex(bs)), kernel, plan)
  }

  /** Admission of the ordered bindings, then the driver. */
  function Dispatch(st: State, ordered: seq<LaunchBinding>, kernel: KernelRun, plan: FailurePlan): Outcome {
    var e := AdmitError(st, ordered);
    if e.Some? then Outcome(st, Failed(e.value))
    else
      var r := DriverLaunch(st.driver, Bounds(st, ordered), kernel, plan);
      Outcome(st.(driver := r.driver), DoneOr(r.error))
  }

  function BufferError(st: State, ids: seq<nat>): Option<HostError> {
    if ids == [] then None
    else match BufferOf(st, ids[0])
      case Err(e) => Some(e)
      case Ok(_) => BufferError(st, ids[1..])
  }

  function Whole(st: State, ids: seq<nat>): seq<Bound> {
    seq(|ids|, k requires 0 <= k < |ids| => Bound(TokenOf(st, ids[k]), 0, 0))
  }

  /** `launch_kernel_3d`: every buffer at offset zero, no span check. */
  function LaunchWhole(st: State, id: nat, entry: string, ids: seq<nat>, kernel: KernelRun,
                       plan: FailurePlan): Outcome {
    var e := ModuleError(st, id);
    if e.Some? then Outcome(st, Failed(e.value))
    else if entry == "" then Outcome(st, Failed(InvalidArgs))
    else
      var b := BufferError(st, ids);
      if b.Some? then Outcome(st, Failed(b.value))
      else
        var r := DriverLaunch(st.driver, Whole(st, ids), kernel, plan);
        Outcome(st.(driver := r.driver), DoneOr(r.error))
  }

  /** The lengths of the three buffers of an add, when all are live; they must be equal and whole words. */
  function AddError(st: State, id: nat, a: nat, b: nat, out: nat): Option<HostError> {
    var e := ModuleError(st, id);
    var missing := BufferError(st, [a, b, out]);
    if e.Some? then e
    else if missing.Some? then missing
    else if LenOf(st, a) != LenOf(st, b) || LenOf(st, a) != LenOf(st, out) then Some(InvalidArgs)
    else if LenOf(st, a) % 4 != 0 then Some(InvalidArgs) else None
  }

  function LenOf(st: State, id: nat): nat {
    if id in st.handles && st.handles[id].kind.BufferHandle? then st.handles[id].kind.len else 0
  }

  function TokenOf(st: State, id: nat): nat {
    if id in st.handles then st.handles[id].token else 0
  }

  function EncodeAdd(st: State, id: nat, a: nat, b: nat, out: nat, add: Adder): DriverOutcome {
    DriverAdd(st.driver, TokenOf(st, id), TokenOf(st, a), TokenOf(st, b), TokenOf(st, out), add)
  }

  /** `launch_elementwise_add_f32`: encode the add, then sync at once. */
  function AddBuffers(st: State, id: nat, a: nat, b: nat, out: nat, add: Adder, plan: FailurePlan): Outcome {
    var e := AddError(st, id, a, b, out);
    if e.Some? then Outcome(st, Failed(e.value))
    else
      var encoded := EncodeAdd(st, id, a, b, out, add);
      if encoded.error.Some? then Outcome(st.(driver := encoded.driver), Failed(encoded.error.value))
      else
        var synced := DriverSync(encoded.driver, plan);
        Outcome(st.(driver := synced.driver), DoneOr(synced.error))
  }

  function ReadSlot(d: Driver, token: nat, len: nat): seq<u8>
    requires token in d.buffers && HasBytes(d.buffers[token], len)
  {
    d.buffers[token].bytes[d.buffers[token].region..d.buffers[token].region + len]
  }

  function ReadbackBytes(st: State, id: nat, plan: FailurePlan): Outcome {
    match BufferOf(st, id)
    case Err(e) => Outcome(st, Failed(e))
    case Ok(h) =>
      var r := DriverCopyOut(st.driver, h.token, h.kind.len, plan);
      Outcome(st.(driver := r.driver),
              if r.error.Some? then Failed(r.error.value) else Bytes(ReadSlot(st.driver, h.token, h.kind.len)))
  }

  /** `release`: the registration goes first, then the driver frees the token. */
  function Release(st: State, id: nat): Outcome {
    if id !in st.handles then Outcome(st, Failed(InvalidHandle))
    else Outcome(st.(driver := DriverFree(st.driver, st.handles[id].token), handles := st.handles - {id}), Done)
  }

  ghost function Next(st: State, call: Call, plan: FailurePlan): Outcome {
    match call
    case DoLoad(image) => Load(st, image, plan)
    case DoAlloc(len) => Allocate(st, len, plan)
    case DoRetain(file) => Outcome(st.(driver := st.driver.(maps := st.driver.maps + [file])), Done)
    case DoCopyIn(id, slice) => CopyInBytes(st, id, slice, plan)
    case DoLaunch(id, entry, bs, kernel) => LaunchBound(st, id, entry, bs, kernel, plan)
    case DoLaunchWhole(id, entry, ids, kernel) => LaunchWhole(st, id, entry, ids, kernel, plan)
    case DoElementwiseAdd(id, a, b, out, add) => AddBuffers(st, id, a, b, out, add, plan)
    case DoSync =>
      var r := DriverSync(st.driver, plan);
      Outcome(st.(driver := r.driver), DoneOr(r.error))
    case DoReadback(id) => ReadbackBytes(st, id, plan)
    case DoRelease(id) => Release(st, id)
  }

  /** The state after a whole run, whatever was refused or failed on the way. */
  ghost function Run(st: State, calls: seq<Call>, plan: FailurePlan): State {
    if calls == [] then st else Next(Run(st, calls[..|calls| - 1], plan), calls[|calls| - 1], plan).st
  }
}
