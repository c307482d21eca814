/** What the operations of transaction_backend.rs leave behind: buffers per partition, syncs per device. */
module BackendOperations {
  import opened Prelude
  import opened BackendState

  /** Buffers that a list of steps allocates for a partition. */
  function Allocations(steps: seq<Step>, p: Partition): nat {
    if steps == [] then 0
    else (if steps[0].AllocStep? && steps[0].p == p then 1 else 0) + Allocations(steps[1..], p)
  }

  lemma {:induction false} AllocationsAppend(a: seq<Step>, b: seq<Step>, p: Partition)
    ensures Allocations(a + b, p) == Allocations(a, p) + Allocations(b, p)
  {
    if a == [] {
      assert a + b == b;
    } else {
      AllocationsAppend(a[1..], b, p);
      assert (a + b)[1..] == a[1..] + b;
    }
  }

  /** One step keeps every tracked handle and adds one exactly when it allocates. */
  lemma PerformTracks(st: State, step: Step, faults: Faults, p: Partition)
    ensures var r := Perform(st, step, faults);
      && Tracked(st, p) <= Tracked(r.st, p)
      && (r.error.None? ==> |Tracked(r.st, p)| == |Tracked(st, p)| + (if step.AllocStep? && step.p == p then 1 else 0))
  {
    hide Tracked, Alloc, EnsureModule, Call, HostCopy;
    match step {
      case AllocStep(q, len) => AllocTracks(st, q, len, faults, p);
      case ModuleStep(q) => SameTracked(st, EnsureModule(st, q, faults).st, p);
      case CallStep(q) => SameTracked(st, Call(st, q, faults).st, p);
      case CopyStep(q) => CopyTracks(st, q, faults, p);
    }
  }

  lemma CopyTracks(st: State, q: Partition, faults: Faults, p: Partition)
    ensures Tracked(HostCopy(st, q, faults).st, p) == Tracked(st, p)
  {
    hide ErrorFor;
  }

  lemma AllocTracks(st: State, q: Partition, len: u64, faults: Faults, p: Partition)
    ensures var r := Alloc(st, q, len, faults);
      && Tracked(st, p) <= Tracked(r.st, p)
      && (r.error.None? ==> |Tracked(r.st, p)| == |Tracked(st, p)| + (if q == p then 1 else 0))
  {
    hide Register;
    var r := Alloc(st, q, len, faults);
    if r.error.None? {
      assert r.st == AddBuffer(st, q, len);
    }
  }

  /** Steps never forget a handle; when all succeed a partition gains exactly its allocations. */
  lemma {:induction false} ExecTracks(st: State, steps: seq<Step>, faults: Faults, p: Partition)
    ensures var r := Exec(st, steps, faults);
      && Tracked(st, p) <= Tracked(r.st, p)
      && (r.error.None? ==> |Tracked(r.st, p)| == |Tracked(st, p)| + Allocations(steps, p))
    decreases |steps|
  {
    hide Perform, Tracked;
    if steps != [] {
      PerformTracks(st, steps[0], faults, p);
      ExecTracks(Perform(st, steps[0], faults).st, steps[1..], faults, p);
    }
  }

  /** How often a partition occurs. */
  function Occurrences(ps: seq<Partition>, p: Partition): (n: nat)
    ensures n <= |ps|
  {
    if ps == [] then 0 else (if ps[0] == p then 1 else 0) + Occurrences(ps[1..], p)
  }

  /** Buffers an operation leaves with a partition. */
  function Footprint(op: Op, p: Partition): nat {
    match op
    case Launch(q, _, len) => if q == p && len > 0 then 2 else 0
    case Transfer(src, dst, _, _) => (if src == p then 1 else 0) + if dst == p then 1 else 0
    case Broadcast(src, ps, _, _) => if p == src then |ps| - Occurrences(ps, src) else Occurrences(ps, p)
    case Barrier(_, _) => 0
  }

  lemma CopyAllocations(src: Partition, dst: Partition, len: u64, p: Partition)
    ensures Allocations(CopySteps(src, dst, len), p) == (if src == p then 1 else 0) + if dst == p then 1 else 0
  {
    var a := [AllocStep(src, len), CallStep(src), CallStep(src), CopyStep(dst)];
    var b := [AllocStep(dst, len), CallStep(dst), CallStep(dst)];
    assert CopySteps(src, dst, len) == a + b;
    AllocationsAppend(a, b, p);
    AllocationsAppend([AllocStep(src, len)], [CallStep(src), CallStep(src), CopyStep(dst)], p);
    AllocationsAppend([AllocStep(dst, len)], [CallStep(dst), CallStep(dst)], p);
    assert a == [AllocStep(src, len)] + [CallStep(src), CallStep(src), CopyStep(dst)];
    assert b == [AllocStep(dst, len)] + [CallStep(dst), CallStep(dst)];
    NoAllocations([CallStep(src), CallStep(src), CopyStep(dst)], p);
    NoAllocations([CallStep(dst), CallStep(dst)], p);
  }

  lemma {:induction false} NoAllocations(steps: seq<Step>, p: Partition)
    requires forall i | 0 <= i < |steps| :: !steps[i].AllocStep?
    ensures Allocations(steps, p) == 0
  {
    if steps != [] {
      NoAllocations(steps[1..], p);
    }
  }

  lemma {:induction false} BroadcastAllocations(src: Partition, ps: seq<Partition>, len: u64, p: Partition)
    ensures Allocations(BroadcastSteps(src, ps, len), p)
         == if p == src then |ps| - Occurrences(ps, src) else Occurrences(ps, p)
  {
    hide CopySteps;
    if ps != [] {
      var head := if ps[0] == src then [] else CopySteps(src, ps[0], len);
      BroadcastAllocations(src, ps[1..], len, p);
      AllocationsAppend(head, BroadcastSteps(src, ps[1..], len), p);
      CopyAllocations(src, ps[0], len, p);
    }
  }

  lemma {:induction false} BarrierAllocatesNothing(bound: map<Partition, Device>, ps: seq<Partition>,
                                                   synced: set<Device>, p: Partition)
    ensures Allocations(BarrierSteps(bound, ps, synced), p) == 0
  {
    if ps != [] {
      var seen := if ps[0] in bound then synced + {bound[ps[0]]} else synced;
      BarrierAllocatesNothing(bound, ps[1..], synced, p);
      BarrierAllocatesNothing(bound, ps[1..], seen, p);
      AllocationsAppend([CallStep(ps[0])], BarrierSteps(bound, ps[1..], seen), p);
    }
  }

  lemma LaunchAllocations(q: Partition, len: u64, p: Partition)
    ensures Allocations(LaunchSteps(q, len), p) == if q == p && len > 0 then 2 else 0
  {
    if len > 0 {
      var a, b := [ModuleStep(q), AllocStep(q, len), AllocStep(q, len)], [CallStep(q), CallStep(q), CallStep(q)];
      assert LaunchSteps(q, len) == a + b;
      AllocationsAppend(a, b, p);
      NoAllocations(b, p);
      assert a[1..] == [AllocStep(q, len), AllocStep(q, len)] && a[1..][1..] == [AllocStep(q, len)];
      assert Allocations(a[1..][1..], p) == if q == p then 1 else 0;
    }
  }

  /**
   * A successful operation leaves every partition exactly its footprint of new buffers: two per nonempty launch, one on
   * each side of a copy, one copy per participant of a broadcast other than its source. A failed one loses none.
   */
  lemma OperationTracks(st: State, op: Op, faults: Faults, p: Partition)
    ensures var r := RunOperation(st, op, faults);
      && Tracked(st, p) <= Tracked(r.st, p)
      && (r.error.None? ==> |Tracked(r.st, p)| == |Tracked(st, p)| + Footprint(op, p))
  {
    hide Exec, LaunchSteps, CopySteps, BroadcastSteps, BarrierSteps;
    ExecTracks(st, OpSteps(st, op), faults, p);
    match op
    case Launch(q, _, len) => LaunchAllocations(q, len, p);
    case Transfer(src, dst, _, len) => CopyAllocations(src, dst, len, p);
    case Broadcast(src, ps, _, len) => BroadcastAllocations(src, ps, len, p);
    case Barrier(ps, _) => BarrierAllocatesNothing(st.bound, ps, {}, p);
  }

  /** A reservation that succeeds leaves one buffer per nonzero field. */
  lemma ReserveTracks(st: State, q: Partition, r: Reservation, faults: Faults, p: Partition)
    ensures var o := Reserve(st, q, r, faults);
      && Tracked(st, p) <= Tracked(o.st, p)
      && (o.error.None? ==>
            |Tracked(o.st, p)| == |Tracked(st, p)|
              + if p != q then 0 else (if r.outputBuffer > 0 then 1 else 0) + (if r.transferStaging > 0 then 1 else 0)
                                      + (if r.scratch > 0 then 1 else 0))
  {
    hide Exec, Tracked;
    ExecTracks(st, ReserveSteps(q, r), faults, p);
    ReserveAllocations(q, r, p);
    if Reserve(st, q, r, faults).error.None? {
      SameTracked(Exec(st, ReserveSteps(q, r), faults).st, Reserve(st, q, r, faults).st, p);
    }
  }

  lemma SameTracked(st: State, after: State, p: Partition)
    requires st.resources == after.resources
    ensures Tracked(st, p) == Tracked(after, p)
  {
  }

  lemma ReserveAllocations(q: Partition, r: Reservation, p: Partition)
    ensures Allocations(ReserveSteps(q, r), p)
         == if p != q then 0 else (if r.outputBuffer > 0 then 1 else 0) + (if r.transferStaging > 0 then 1 else 0)
                                  + (if r.scratch > 0 then 1 else 0)
  {
    var a := if r.outputBuffer > 0 then [AllocStep(q, r.outputBuffer)] else [];
    var b := if r.transferStaging > 0 then [AllocStep(q, r.transferStaging)] else [];
    var c := if r.scratch > 0 then [AllocStep(q, r.scratch)] else [];
    assert ReserveSteps(q, r) == a + b + c;
    AllocationsAppend(a + b, c, p);
    AllocationsAppend(a, b, p);
  }

  // ---- barriers ----

  /** The devices of bound partitions. */
  function DevicesOf(bound: map<Partition, Device>, ps: seq<Partition>): set<Device>
    requires forall i | 0 <= i < |ps| :: ps[i] in bound
  {
    if ps == [] then {} else {bound[ps[0]]} + DevicesOf(bound, ps[1..])
  }

  function StepPartitions(steps: seq<Step>): seq<Partition> {
    if steps == [] then [] else [steps[0].p] + StepPartitions(steps[1..])
  }

  /** A barrier over bound partitions makes one sync call for each of their devices that is not synced yet. */
  lemma {:induction false} BarrierSyncsOnce(bound: map<Partition, Device>, ps: seq<Partition>, synced: set<Device>)
    requires forall i | 0 <= i < |ps| :: ps[i] in bound
    ensures var steps := BarrierSteps(bound, ps, synced);
      var called := StepPartitions(steps);
      && (forall i | 0 <= i < |steps| :: steps[i].CallStep?) && |called| == |steps|
      && (forall i | 0 <= i < |called| :: called[i] in bound)
      && DevicesOf(bound, called) == DevicesOf(bound, ps) - synced
      && |steps| == |DevicesOf(bound, ps) - synced|
    decreases |ps|
  {
    if ps != [] {
      var first := bound[ps[0]];
      if first in synced {
        BarrierSyncsOnce(bound, ps[1..], synced);
        assert DevicesOf(bound, ps) - synced == DevicesOf(bound, ps[1..]) - synced;
      } else {
        BarrierSyncsOnce(bound, ps[1..], synced + {first});
        var rest := BarrierSteps(bound, ps[1..], synced + {first});
        assert BarrierSteps(bound, ps, synced)[1..] == rest;
        assert StepPartitions(BarrierSteps(bound, ps, synced))[1..] == StepPartitions(rest);
        assert DevicesOf(bound, ps) - synced == {first} + (DevicesOf(bound, ps[1..]) - (synced + {first}));
      }
    }
  }
}
