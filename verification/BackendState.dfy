/** transaction_backend.rs as a state machine: what each call does to sessions, handles and write sets. */
module BackendState {
  import opened Prelude
  import BoundPlan
  import opened DeviceIdentity
  import opened Handles

  type Partition = BoundPlan.LogicalPartitionId

  /** The identity of an operation's output, barrier or launch. */
  datatype Reference = Reference(name: string)

  /** The partition an error names when none is at fault: "unknown". */
  const UNKNOWN: Partition := [0x75, 0x6e, 0x6b, 0x6e, 0x6f, 0x77, 0x6e]

  type Device = PhysicalDeviceId

  // ---- device sessions and injected faults ----

  /** A device session: ids are handed out from `next` on; `live` holds the registered ones. */
  datatype Session = Session(next: nat, live: map<nat, HandleKind>, moduleLoads: nat)

  /** How a device call fails, by error code. */
  datatype Fault = TimedOut | CancelledCall | Unavailable | OtherFault

  /** The outcome of each device call of a run, in order: an arbitrary plan of failures. */
  type Faults = seq<Option<Fault>>

  function FaultAt(faults: Faults, call: nat): Option<Fault> {
    if call < |faults| then faults[call] else None
  }

  datatype BackendError =
    | Allocation(partition: Partition)
    | Operation(partition: Partition)
    | DeviceLoss(partition: Partition)
    | Cancelled(partition: Partition)
    | Timeout(partition: Partition)

  datatype FaultClass = AllocationFault | OperationFault

  /** `map_host_error` */
  function MapHostError(p: Partition, fault: Fault, cls: FaultClass): BackendError {
    match fault
    case TimedOut => Timeout(p)
    case CancelledCall => Cancelled(p)
    case Unavailable => DeviceLoss(p)
    case OtherFault => if cls.AllocationFault? then Allocation(p) else Operation(p)
  }

  /** The error a device call reports, if its outcome is a fault. */
  function ErrorFor(p: Partition, fault: Option<Fault>, cls: FaultClass): Option<BackendError> {
    if fault.Some? then Some(MapHostError(p, fault.value, cls)) else None
  }

  // ---- operations and writes ----

  datatype Reservation = Reservation(transferStaging: u64, outputBuffer: u64, event: u64, scratch: u64)

  datatype Write = Write(partition: Partition, reference: Reference, byteCount: u64)

  datatype Event =
    | LaunchCompleted(partition: Partition, reference: Reference)
    | TransferCompleted(partition: Partition, reference: Reference)
    | BroadcastCompleted(partition: Partition, reference: Reference)
    | BarrierCompleted(partition: Partition, reference: Reference)

  /** Partition lists are in BTreeSet order. */
  datatype Op =
    | Launch(partition: Partition, reference: Reference, outputBytes: u64)
    | Transfer(source: Partition, destination: Partition, reference: Reference, byteCount: u64)
    | Broadcast(source: Partition, participants: seq<Partition>, reference: Reference, byteCount: u64)
    | Barrier(partitions: seq<Partition>, reference: Reference)

  function Events(op: Op): set<Event> {
    match op
    case Launch(p, r, _) => {LaunchCompleted(p, r)}
    case Transfer(src, dst, r, _) => {TransferCompleted(src, r), TransferCompleted(dst, r)}
    case Broadcast(_, ps, r, _) => set p | p in ps :: BroadcastCompleted(p, r)
    case Barrier(ps, r) => set p | p in ps :: BarrierCompleted(p, r)
  }

  /** The event says the same kind of operation completed. */
  predicate SameKind(e: Event, op: Op) {
    && (e.LaunchCompleted? <==> op.Launch?) && (e.TransferCompleted? <==> op.Transfer?)
    && (e.BroadcastCompleted? <==> op.Broadcast?) && (e.BarrierCompleted? <==> op.Barrier?)
  }

  /** The partition takes part: alone, on either side of a transfer, or in the list of participants. */
  predicate TakesPart(p: Partition, op: Op) {
    && (op.Launch? ==> p == op.partition)
    && (op.Transfer? ==> p == op.source || p == op.destination)
    && (op.Broadcast? ==> p in op.participants)
    && (op.Barrier? ==> p in op.partitions)
  }

  /** An operation completes, for each partition that takes part, the event of its kind and reference. */
  lemma EventsMeans(op: Op, e: Event)
    ensures e in Events(op) <==> SameKind(e, op) && e.reference == op.reference && TakesPart(e.partition, op)
  {
  }

  /** An error names the partition of the call; only an uncoded fault depends on what was called. */
  lemma FaultsKeepTheirMeaning(p: Partition, fault: Fault, cls: FaultClass)
    ensures var e := MapHostError(p, fault, cls);
      && e.partition == p
      && (e.Timeout? <==> fault.TimedOut?) && (e.Cancelled? <==> fault.CancelledCall?)
      && (e.DeviceLoss? <==> fault.Unavailable?)
      && (e.Allocation? <==> fault.OtherFault? && cls.AllocationFault?)
      && (e.Operation? <==> fault.OtherFault? && cls.OperationFault?)
  {
  }

  /** The name given when no partition is at fault is "unknown". */
  lemma UnknownSpelling(k: nat)
    requires k < 7
    ensures |UNKNOWN| == 7 && UNKNOWN[k] == ("unknown"[k] as int)
  {
  }

  datatype State = State(
    bound: map<Partition, Device>,
    sessions: map<Device, Session>,
    modules: map<Device, nat>,
    reservations: map<Partition, Reservation>,
    resources: map<Partition, seq<nat>>,
    staged: map<Reference, Write>,
    published: map<Reference, Write>,
    stagedTotal: u64,
    publishedTotal: u64,
    publishedOnce: bool,
    completed: set<Event>,
    calls: nat)

  /** What `new` builds: partitions bound to member sessions that hold nothing yet. */
  ghost predicate Initial(st: State) {
    && st.bound != map[]
    && (forall p | p in st.bound :: st.bound[p] in st.sessions)
    && (forall d | d in st.sessions :: st.sessions[d].live == map[] && st.sessions[d].moduleLoads == 0)
    && st.modules == map[] && st.reservations == map[] && st.resources == map[]
    && st.staged == map[] && st.published == map[] && st.stagedTotal == 0 && st.publishedTotal == 0
    && !st.publishedOnce && st.completed == {} && st.calls == 0
  }

  // ---- device calls ----

  /** The state after a call, and the error it returned, if any. */
  datatype Outcome = Outcome(st: State, error: Option<BackendError>)

  /** The session of a partition, or the error of looking it up. */
  function Lookup(st: State, p: Partition): Result<Device, BackendError> {
    if p !in st.bound then Err(Operation(p))
    else if st.bound[p] !in st.sessions then Err(DeviceLoss(p))
    else Ok(st.bound[p])
  }

  function Tracked(st: State, p: Partition): seq<nat> {
    if p in st.resources then st.resources[p] else []
  }

  /** Register a new handle with the session of `d`. */
  function Register(s: Session, kind: HandleKind): Session {
    Session(s.next + 1, s.live[s.next := kind], s.moduleLoads + if kind.ModuleHandle? then 1 else 0)
  }

  /** One device call that may fail and changes no handle: copy, readback, launch or sync. */
  function Call(st: State, p: Partition, faults: Faults): (r: Outcome)
    ensures r.st == st || r.st == st.(calls := st.calls + 1)
  {
    match Lookup(st, p)
    case Err(e) => Outcome(st, Some(e))
    case Ok(_) =>
      Outcome(st.(calls := st.calls + 1), ErrorFor(p, FaultAt(faults, st.calls), OperationFault))
  }

  /** Register a new buffer with the session of `p` and track it under `p`. */
  function AddBuffer(st: State, p: Partition, len: u64): State
    requires p in st.bound && st.bound[p] in st.sessions
  {
    var d := st.bound[p];
    st.(sessions := st.sessions[d := Register(st.sessions[d], BufferHandle(len))],
        resources := st.resources[p := Tracked(st, p) + [st.sessions[d].next]],
        calls := st.calls + 1)
  }

  /** Load the module once for the device of `p`. */
  function AddModule(st: State, p: Partition): State
    requires p in st.bound && st.bound[p] in st.sessions
  {
    var d := st.bound[p];
    st.(sessions := st.sessions[d := Register(st.sessions[d], ModuleHandle)],
        modules := st.modules[d := st.sessions[d].next],
        calls := st.calls + 1)
  }

  /** `alloc`: sessions refuse a length of zero; a new buffer is tracked under its partition. */
  function Alloc(st: State, p: Partition, len: u64, faults: Faults): (r: Outcome)
    ensures r.st == st || r.st == st.(calls := st.calls + 1)
         || (p in st.bound && st.bound[p] in st.sessions && r.st == AddBuffer(st, p, len))
  {
    match Lookup(st, p)
    case Err(e) => Outcome(st, Some(e))
    case Ok(_) =>
      if len == 0 then Outcome(st, Some(Allocation(p)))
      else
        var e := ErrorFor(p, FaultAt(faults, st.calls), AllocationFault);
        if e.Some? then Outcome(st.(calls := st.calls + 1), e) else Outcome(AddBuffer(st, p, len), None)
  }

  /** `ensure_module`: load once per device, then reuse. */
  function EnsureModule(st: State, p: Partition, faults: Faults): (r: Outcome)
    ensures r.st == st || r.st == st.(calls := st.calls + 1)
         || (p in st.bound && st.bound[p] in st.sessions && st.bound[p] !in st.modules && r.st == AddModule(st, p))
  {
    if p in st.bound && st.bound[p] in st.modules then Outcome(st, None)
    else
      match Lookup(st, p)
      case Err(e) => Outcome(st, Some(e))
      case Ok(_) =>
        var e := ErrorFor(p, FaultAt(faults, st.calls), OperationFault);
        if e.Some? then Outcome(st.(calls := st.calls + 1), e) else Outcome(AddModule(st, p), None)
  }

  /** The host-staged copy itself; it fails on behalf of the destination. */
  function HostCopy(st: State, dst: Partition, faults: Faults): Outcome {
    Outcome(st.(calls := st.calls + 1), ErrorFor(dst, FaultAt(faults, st.calls), OperationFault))
  }

  datatype Step =
    | AllocStep(p: Partition, len: u64)
    | ModuleStep(p: Partition)
    | CallStep(p: Partition)
    | CopyStep(p: Partition)

  function Perform(st: State, step: Step, faults: Faults): Outcome {
    match step
    case AllocStep(p, len) => Alloc(st, p, len, faults)
    case ModuleStep(p) => EnsureModule(st, p, faults)
    case CallStep(p) => Call(st, p, faults)
    case CopyStep(p) => HostCopy(st, p, faults)
  }

  /** Steps in order, up to and including the first that fails. */
  function Exec(st: State, steps: seq<Step>, faults: Faults): Outcome
    decreases |steps|
  {
    if steps == [] then Outcome(st, None)
    else
      var r := Perform(st, steps[0], faults);
      if r.error.Some? then r else Exec(r.st, steps[1..], faults)
  }

  // ---- the calls of the backend ----

  /** The seven device calls of `host_stage_copy`. */
  function CopySteps(src: Partition, dst: Partition, len: u64): seq<Step> {
    [AllocStep(src, len), CallStep(src), CallStep(src), CopyStep(dst),
     AllocStep(dst, len), CallStep(dst), CallStep(dst)]
  }

  function LaunchSteps(p: Partition, len: u64): seq<Step> {
    if len == 0 then []
    else [ModuleStep(p), AllocStep(p, len), AllocStep(p, len), CallStep(p), CallStep(p), CallStep(p)]
  }

  function BroadcastSteps(src: Partition, ps: seq<Partition>, len: u64): seq<Step> {
    if ps == [] then []
    else (if ps[0] == src then [] else CopySteps(src, ps[0], len)) + BroadcastSteps(src, ps[1..], len)
  }

  /** One sync per distinct device. */
  function BarrierSteps(bound: map<Partition, Device>, ps: seq<Partition>, synced: set<Device>): seq<Step> {
    if ps == [] then []
    else if ps[0] in bound && bound[ps[0]] in synced then BarrierSteps(bound, ps[1..], synced)
    else [CallStep(ps[0])] + BarrierSteps(bound, ps[1..], if ps[0] in bound then synced + {bound[ps[0]]} else synced)
  }

  function OpSteps(st: State, op: Op): seq<Step> {
    match op
    case Launch(p, _, len) => LaunchSteps(p, len)
    case Transfer(src, dst, _, len) => CopySteps(src, dst, len)
    case Broadcast(src, ps, _, len) => BroadcastSteps(src, ps, len)
    case Barrier(ps, _) => BarrierSteps(st.bound, ps, {})
  }

  /** `run_operation`: events complete only when every device call succeeded. */
  function RunOperation(st: State, op: Op, faults: Faults): Outcome {
    var r := Exec(st, OpSteps(st, op), faults);
    if r.error.Some? then r else Outcome(r.st.(completed := r.st.completed + Events(op)), None)
  }

  function ReserveSteps(p: Partition, r: Reservation): seq<Step> {
    (if r.outputBuffer > 0 then [AllocStep(p, r.outputBuffer)] else [])
    + (if r.transferStaging > 0 then [AllocStep(p, r.transferStaging)] else [])
    + (if r.scratch > 0 then [AllocStep(p, r.scratch)] else [])
  }

  function Reserve(st: State, p: Partition, r: Reservation, faults: Faults): Outcome {
    if p in st.reservations then Outcome(st, Some(Allocation(p)))
    else if p !in st.bound then Outcome(st, Some(Operation(p)))
    else
      var o := Exec(st, ReserveSteps(p, r), faults);
      if o.error.Some? then o else Outcome(o.st.(reservations := o.st.reservations[p := r]), None)
  }

  function StageWrite(st: State, w: Write): Outcome {
    if w.reference in st.staged then Outcome(st, Some(Allocation(w.partition)))
    else
      var total := SaturatingAdd(st.stagedTotal, w.byteCount);
      Outcome(st.(stagedTotal := total, staged := st.staged[w.reference := w]), None)
  }

  /** `publish`: one-shot; a second call fails and changes nothing. */
  function Publish(st: State): Outcome {
    if st.publishedOnce then Outcome(st, Some(Operation(UNKNOWN)))
    else Outcome(st.(published := st.staged, publishedTotal := st.stagedTotal, publishedOnce := true), None)
  }

  function Drop(s: Session, handles: seq<nat>): Session {
    s.(live := map h | h in s.live && h !in handles :: s.live[h])
  }

  /** `free_partition`: forget the partition's handles and release them in its session. */
  function Free(st: State, p: Partition): State {
    var released := if p in st.bound && st.bound[p] in st.sessions
      then st.sessions[st.bound[p] := Drop(st.sessions[st.bound[p]], Tracked(st, p))] else st.sessions;
    st.(sessions := released, resources := st.resources - {p}, reservations := st.reservations - {p})
  }

  ghost function Bytes(m: map<Reference, Write>): nat {
    if m == map[] then 0 else var r :| r in m; m[r].byteCount + Bytes(m - {r})
  }

  function Of(m: map<Reference, Write>, p: Partition): map<Reference, Write> {
    map r | r in m && m[r].partition == p :: m[r]
  }

  function NotOf(m: map<Reference, Write>, p: Partition): map<Reference, Write> {
    map r | r in m && m[r].partition != p :: m[r]
  }

  /** `retire`: withdraw the partition's staged writes (their u64 sum wraps), then free it. */
  ghost function Retire(st: State, p: Partition): State {
    var total := SaturatingSub(st.stagedTotal, Wrap64(Bytes(Of(st.staged, p))));
    Free(st.(stagedTotal := total, staged := NotOf(st.staged, p)), p)
  }

  datatype Command =
    | DoReserve(p: Partition, r: Reservation)
    | DoRun(op: Op)
    | DoStage(w: Write)
    | DoPublish
    | DoRelease(p: Partition)
    | DoRetire(p: Partition)

  ghost function Next(st: State, c: Command, faults: Faults): State {
    match c
    case DoReserve(p, r) => Reserve(st, p, r, faults).st
    case DoRun(op) => RunOperation(st, op, faults).st
    case DoStage(w) => StageWrite(st, w).st
    case DoPublish => Publish(st).st
    case DoRelease(p) => Free(st, p)
    case DoRetire(p) => Retire(st, p)
  }

  /** The state after a whole run, whatever failed on the way. */
  ghost function Run(st: State, cs: seq<Command>, faults: Faults): State {
    if cs == [] then st else Next(Run(st, cs[..|cs| - 1], faults), cs[|cs| - 1], faults)
  }
}

/** Conservation of handles over every run, including runs that fail inside an operation. */
module BackendHandles {
  import opened Prelude
  import opened Ordered
  import opened Handles
  import opened BackendState

  type Bound = map<Partition, Device>
  type Resources = map<Partition, seq<nat>>

  /** `h` is tracked by a partition bound to `d`. */
  ghost predicate Owned(bound: Bound, res: Resources, d: Device, h: nat) {
    exists p :: p in res && p in bound && bound[p] == d && h in res[p]
  }

  /** Every partition tracks distinct handles, and no two partitions of a device share one. */
  ghost predicate TrackedApart(bound: Bound, res: Resources) {
    && (forall p | p in res :: p in bound && Distinct(res[p]))
    && (forall p, q, h | p in res && q in res && p != q && h in res[p] && h in res[q] :: bound[p] != bound[q])
  }

  /** A session holds exactly the tracked buffers and the cached module, which it loaded once. */
  ghost predicate SessionConserved(s: Session, d: Device, bound: Bound, res: Resources, modules: map<Device, nat>) {
    && (forall h | h in s.live :: h < s.next)
    && (forall h :: h in s.live && s.live[h].BufferHandle? <==> Owned(bound, res, d, h))
    && (forall h :: h in s.live && s.live[h].ModuleHandle? <==> d in modules && modules[d] == h)
    && s.moduleLoads == (if d in modules then 1 else 0)
  }

  ghost predicate Conserved(st: State) {
    && (forall p | p in st.bound :: st.bound[p] in st.sessions)
    && TrackedApart(st.bound, st.resources)
    && (forall d | d in st.sessions :: SessionConserved(st.sessions[d], d, st.bound, st.resources, st.modules))
    && st.modules.Keys <= st.sessions.Keys
  }

  lemma InitialConserved(st: State)
    requires Initial(st)
    ensures Conserved(st)
  {
  }

  /** Tracking a handle that nobody on the device tracks keeps the tracking lists apart. */
  lemma TrackApart(bound: Bound, res: Resources, p: Partition, had: seq<nat>, h0: nat)
    requires TrackedApart(bound, res) && p in bound && had == (if p in res then res[p] else [])
    requires !Owned(bound, res, bound[p], h0)
    ensures TrackedApart(bound, res[p := had + [h0]])
  {
    var after := res[p := had + [h0]];
    assert p in res ==> h0 !in res[p];
    assert Distinct(had + [h0]);
  }

  lemma TrackOwned(bound: Bound, res: Resources, p: Partition, had: seq<nat>, h0: nat, d: Device, h: nat)
    requires p in bound && had == (if p in res then res[p] else [])
    ensures Owned(bound, res[p := had + [h0]], d, h) <==> Owned(bound, res, d, h) || (d == bound[p] && h == h0)
  {
    var after := res[p := had + [h0]];
    if q :| q in res && q in bound && bound[q] == d && h in res[q] {
      assert q in after && h in after[q];
    }
    if d == bound[p] && h == h0 {
      assert p in after && h in after[p];
    }
  }

  /** The session that hands out a buffer, and every other one, stay conserved when the buffer is tracked. */
  lemma TrackedSession(s: Session, d: Device, e: Device, bound: Bound, res: Resources, after: Resources,
                       modules: map<Device, nat>, len: u64, h0: nat)
    requires SessionConserved(s, e, bound, res, modules)
    requires d == e ==> h0 == s.next
    requires forall h :: Owned(bound, after, e, h) <==> Owned(bound, res, e, h) || (e == d && h == h0)
    ensures SessionConserved(if d == e then Register(s, BufferHandle(len)) else s, e, bound, after, modules)
  {
    hide Owned;
  }

  lemma AddBufferConserves(st: State, p: Partition, len: u64)
    requires Conserved(st) && p in st.bound && st.bound[p] in st.sessions
    ensures Conserved(AddBuffer(st, p, len))
  {
    hide TrackedApart, Owned, SessionConserved, Register;
    var after := AddBuffer(st, p, len);
    var d, h0, had := st.bound[p], st.sessions[st.bound[p]].next, Tracked(st, p);
    FreshUnowned(st.sessions[d], d, st.bound, st.resources, st.modules);
    TrackApart(st.bound, st.resources, p, had, h0);
    forall e | e in st.sessions
      ensures SessionConserved(after.sessions[e], e, st.bound, after.resources, st.modules)
    {
      forall h {:trigger Owned(st.bound, after.resources, e, h)}
        ensures Owned(st.bound, after.resources, e, h) <==> Owned(st.bound, st.resources, e, h) || (e == d && h == h0)
      {
        TrackOwned(st.bound, st.resources, p, had, h0, e, h);
      }
      TrackedSession(st.sessions[e], d, e, st.bound, st.resources, after.resources, st.modules, len, h0);
    }
  }

  lemma AllocConserves(st: State, p: Partition, len: u64, faults: Faults)
    requires Conserved(st)
    ensures Conserved(Alloc(st, p, len, faults).st)
  {
    hide Conserved, Alloc, AddBuffer;
    var after := Alloc(st, p, len, faults).st;
    if after == st || after == st.(calls := st.calls + 1) {
      SameHandles(st, after);
    } else {
      AddBufferConserves(st, p, len);
    }
  }

  lemma FreshUnowned(s: Session, d: Device, bound: Bound, res: Resources, modules: map<Device, nat>)
    requires SessionConserved(s, d, bound, res, modules)
    ensures !Owned(bound, res, d, s.next)
  {
    hide Owned;
  }

  lemma LoadedSession(s: Session, d: Device, e: Device, bound: Bound, res: Resources, modules: map<Device, nat>,
                      h0: nat)
    requires SessionConserved(s, e, bound, res, modules) && d !in modules
    requires d == e ==> h0 == s.next
    ensures SessionConserved(if d == e then Register(s, ModuleHandle) else s, e, bound, res, modules[d := h0])
  {
    FreshUnowned(s, e, bound, res, modules);
    hide Owned;
  }

  lemma AddModuleConserves(st: State, p: Partition)
    requires Conserved(st) && p in st.bound && st.bound[p] in st.sessions && st.bound[p] !in st.modules
    ensures Conserved(AddModule(st, p))
  {
    hide TrackedApart, SessionConserved, Register;
    var after, d := AddModule(st, p), st.bound[p];
    forall e | e in st.sessions
      ensures SessionConserved(after.sessions[e], e, st.bound, st.resources, after.modules)
    {
      LoadedSession(st.sessions[e], d, e, st.bound, st.resources, st.modules, st.sessions[d].next);
    }
  }

  lemma ModuleConserves(st: State, p: Partition, faults: Faults)
    requires Conserved(st)
    ensures Conserved(EnsureModule(st, p, faults).st)
  {
    hide Conserved, EnsureModule, AddModule;
    var after := EnsureModule(st, p, faults).st;
    if after == st || after == st.(calls := st.calls + 1) {
      SameHandles(st, after);
    } else {
      AddModuleConserves(st, p);
    }
  }

  lemma SameHandles(st: State, after: State)
    requires Conserved(st)
    requires after.bound == st.bound && after.sessions == st.sessions && after.modules == st.modules
    requires after.resources == st.resources
    ensures Conserved(after)
  {
    hide TrackedApart, SessionConserved;
  }

  lemma CallConserves(st: State, p: Partition, faults: Faults)
    requires Conserved(st)
    ensures Conserved(Call(st, p, faults).st)
  {
    hide Conserved, Call;
    SameHandles(st, Call(st, p, faults).st);
  }

  lemma CopyConserves(st: State, p: Partition, faults: Faults)
    requires Conserved(st)
    ensures Conserved(HostCopy(st, p, faults).st)
  {
    hide Conserved, ErrorFor;
    SameHandles(st, HostCopy(st, p, faults).st);
  }

  lemma PerformConserves(st: State, step: Step, faults: Faults)
    requires Conserved(st)
    ensures Conserved(Perform(st, step, faults).st)
  {
    hide Alloc, EnsureModule, Conserved, Call, HostCopy;
    match step {
      case AllocStep(p, len) => AllocConserves(st, p, len, faults);
      case ModuleStep(p) => ModuleConserves(st, p, faults);
      case CallStep(p) => CallConserves(st, p, faults);
      case CopyStep(p) => CopyConserves(st, p, faults);
    }
  }

  lemma {:induction false} ExecConserves(st: State, steps: seq<Step>, faults: Faults)
    requires Conserved(st)
    ensures Conserved(Exec(st, steps, faults).st)
    decreases |steps|
  {
    hide Perform, Conserved;
    if steps != [] {
      PerformConserves(st, steps[0], faults);
      ExecConserves(Perform(st, steps[0], faults).st, steps[1..], faults);
    }
  }

  lemma ForgetOwned(bound: Bound, res: Resources, p: Partition, d: Device, h: nat)
    requires TrackedApart(bound, res)
    ensures Owned(bound, res - {p}, d, h)
       <==> Owned(bound, res, d, h) && !(p in res && bound[p] == d && h in res[p])
  {
    if q :| q in res && q in bound && bound[q] == d && h in res[q] {
      if q != p {
        assert q in res - {p};
      }
    }
  }

  lemma FreeConserves(st: State, p: Partition)
    requires Conserved(st)
    ensures Conserved(Free(st, p))
  {
    hide SessionConserved;
    var after := Free(st, p);
    forall e | e in st.sessions
      ensures SessionConserved(after.sessions[e], e, st.bound, after.resources, st.modules)
    {
      FreedSession(st, p, e);
    }
  }

  lemma FreedSession(st: State, p: Partition, e: Device)
    requires TrackedApart(st.bound, st.resources) && e in st.sessions
    requires SessionConserved(st.sessions[e], e, st.bound, st.resources, st.modules)
    ensures SessionConserved(Free(st, p).sessions[e], e, st.bound, st.resources - {p}, st.modules)
  {
    hide Owned;
    forall h {:trigger Owned(st.bound, st.resources - {p}, e, h)}
      ensures Owned(st.bound, st.resources - {p}, e, h)
         <==> && Owned(st.bound, st.resources, e, h)
              && !(p in st.resources && p in st.bound && st.bound[p] == e && h in st.resources[p])
    {
      ForgetOwned(st.bound, st.resources, p, e, h);
    }
    forall h | p in st.resources && p in st.bound && st.bound[p] == e && h in st.resources[p]
      ensures Owned(st.bound, st.resources, e, h)
    {
      TrackedIsOwned(st.bound, st.resources, p, h);
    }
  }

  lemma TrackedIsOwned(bound: Bound, res: Resources, p: Partition, h: nat)
    requires p in bound && p in res && h in res[p]
    ensures Owned(bound, res, bound[p], h)
  {
  }

  lemma NextConserves(st: State, c: Command, faults: Faults)
    requires Conserved(st)
    ensures Conserved(Next(st, c, faults))
  {
    hide Exec, Free, TrackedApart, SessionConserved;
    match c
    case DoReserve(p, r) => ExecConserves(st, ReserveSteps(p, r), faults);
    case DoRun(op) => ExecConserves(st, OpSteps(st, op), faults);
    case DoStage(w) =>
    case DoPublish =>
    case DoRelease(p) => FreeConserves(st, p);
    case DoRetire(p) =>
      var total := SaturatingSub(st.stagedTotal, Wrap64(Bytes(Of(st.staged, p))));
      FreeConserves(st.(stagedTotal := total, staged := NotOf(st.staged, p)), p);
  }

  /** Handles are conserved in every state of every run under every plan of failures. */
  lemma {:induction false} RunConserves(st: State, cs: seq<Command>, faults: Faults)
    requires Initial(st)
    ensures Conserved(Run(st, cs, faults))
    decreases |cs|
  {
    hide Conserved, Next;
    if cs == [] {
      InitialConserved(st);
    } else {
      RunConserves(st, cs[..|cs| - 1], faults);
      NextConserves(Run(st, cs[..|cs| - 1], faults), cs[|cs| - 1], faults);
    }
  }

  predicate Frees(c: Command, p: Partition) {
    c == DoRelease(p) || c == DoRetire(p)
  }

  /** A command that only releases or retires. */
  predicate IsTeardown(c: Command) {
    c.DoRelease? || c.DoRetire?
  }

  /** A teardown command forgets its own partition and no other. */
  lemma TeardownStep(st: State, c: Command, faults: Faults, p: Partition)
    requires IsTeardown(c)
    ensures p in Next(st, c, faults).resources <==> p in st.resources && !Frees(c, p)
    ensures Next(st, c, faults).bound == st.bound && Next(st, c, faults).modules == st.modules
  {
  }

  lemma {:induction false} TeardownKeeps(st: State, cs: seq<Command>, faults: Faults, p: Partition)
    requires forall c | c in cs :: IsTeardown(c)
    ensures p in Run(st, cs, faults).resources ==> p in st.resources && forall c | c in cs :: !Frees(c, p)
    ensures Run(st, cs, faults).bound == st.bound && Run(st, cs, faults).modules == st.modules
    decreases |cs|
  {
    hide Next;
    if cs != [] {
      var init, last := cs[..|cs| - 1], cs[|cs| - 1];
      TeardownKeeps(st, init, faults, p);
      TeardownStep(Run(st, init, faults), last, faults, p);
      assert cs == init + [last];
    }
  }

  lemma {:induction false} RunAppend(st: State, a: seq<Command>, b: seq<Command>, faults: Faults)
    ensures Run(st, a + b, faults) == Run(Run(st, a, faults), b, faults)
    decreases |b|
  {
    if b == [] {
      assert a + b == a;
    } else {
      RunAppend(st, a, b[..|b| - 1], faults);
      assert (a + b)[..|a + b| - 1] == a + b[..|b| - 1];
    }
  }

  /** After a run, releasing or retiring every bound partition leaves each session with its cached module at most. */
  lemma TeardownLeavesModules(st: State, run: seq<Command>, teardown: seq<Command>, faults: Faults, d: Device)
    requires Initial(st) && d in Run(st, run + teardown, faults).sessions
    requires forall c | c in teardown :: IsTeardown(c)
    requires forall p | p in Run(st, run, faults).bound :: exists c :: c in teardown && Frees(c, p)
    ensures var end := Run(st, run + teardown, faults);
      && end.modules == Run(st, run, faults).modules
      && end.sessions[d].live == (if d in end.modules then map[end.modules[d] := ModuleHandle] else map[])
      && end.sessions[d].moduleLoads <= 1
  {
    hide Initial, Run, Conserved, TrackedApart;
    RunConserves(st, run + teardown, faults);
    RunAppend(st, run, teardown, faults);
    var mid, end := Run(st, run, faults), Run(st, run + teardown, faults);
    RunConserves(st, run, faults);
    forall p
      ensures p !in end.resources
    {
      TeardownKeeps(mid, teardown, faults, p);
      TrackedBound(mid, p);
    }
    TeardownKeeps(mid, teardown, faults, []);
    NothingTracked(end, d);
  }

  lemma TrackedBound(st: State, p: Partition)
    requires Conserved(st)
    ensures p in st.resources ==> p in st.bound
  {
    hide SessionConserved;
  }

  /** Nothing tracked: only the cached module is live. */
  lemma NothingTracked(st: State, d: Device)
    requires Conserved(st) && d in st.sessions && forall p :: p !in st.resources
    ensures st.sessions[d].live == (if d in st.modules then map[st.modules[d] := ModuleHandle] else map[])
    ensures st.sessions[d].moduleLoads <= 1
  {
    hide TrackedApart;
    assert SessionConserved(st.sessions[d], d, st.bound, st.resources, st.modules);
    forall h
      ensures h in st.sessions[d].live <==> d in st.modules && st.modules[d] == h
    {
      assert !Owned(st.bound, st.resources, d, h);
    }
  }
}
