/** The backend object of transaction_backend.rs, proved to take exactly the steps of BackendState. */
module TransactionBackend {
  import opened Prelude
  import opened Handles
  import opened BackendState
  import Publication = BackendPublication

  class DeviceRuntimeBackend {
    const bound: map<Partition, Device>
    /** The failures the devices will report, in call order. */
    const faults: Faults
    var sessions: map<Device, Session>
    var modules: map<Device, nat>
    var reservations: map<Partition, Reservation>
    var resources: map<Partition, seq<nat>>
    var staged: map<Reference, Write>
    var published: map<Reference, Write>
    var stagedTotal: u64
    var publishedTotal: u64
    var publishedOnce: bool
    var completed: set<Event>
    var calls: nat

    ghost function View(): State
      reads this
    {
      State(bound, sessions, modules, reservations, resources, staged, published, stagedTotal, publishedTotal,
            publishedOnce, completed, calls)
    }

    constructor (sessions: map<Device, Session>, bound: map<Partition, Device>, faults: Faults)
      requires bound != map[] && (forall p | p in bound :: bound[p] in sessions)
      requires forall d | d in sessions :: sessions[d].live == map[] && sessions[d].moduleLoads == 0
      ensures this.bound == bound && this.faults == faults && this.sessions == sessions && Initial(View())
    {
      this.sessions, this.bound, this.faults := sessions, bound, faults;
      modules, reservations, resources := map[], map[], map[];
      staged, published := map[], map[];
      stagedTotal, publishedTotal, publishedOnce := 0, 0, false;
      completed, calls := {}, 0;
    }

    /** `new`: refused without bindings or when a partition names no member of the set. */
    static method New(sessions: map<Device, Session>, bound: map<Partition, Device>, faults: Faults)
      returns (r: Option<DeviceRuntimeBackend>)
      requires forall d | d in sessions :: sessions[d].live == map[] && sessions[d].moduleLoads == 0
      ensures r.Some? <==> bound != map[] && forall p | p in bound :: bound[p] in sessions
      ensures r.Some? ==> fresh(r.value) && Initial(r.value.View())
      ensures r.Some? ==> r.value.bound == bound && r.value.faults == faults
    {
      if bound == map[] || exists p | p in bound :: bound[p] !in sessions {
        return None;
      }
      var b := new DeviceRuntimeBackend(sessions, bound, faults);
      return Some(b);
    }

    /** The error of the next device call, if it is one that fails. */
    method DeviceCall(p: Partition, cls: FaultClass) returns (error: Option<BackendError>)
      modifies this`calls
      ensures error == ErrorFor(p, FaultAt(faults, old(calls)), cls) && calls == old(calls) + 1
    {
      var call := calls;
      calls := calls + 1;
      if call >= |faults| || faults[call].None? {
        return None;
      }
      match faults[call].value {
        case TimedOut => return Some(Timeout(p));
        case CancelledCall => return Some(Cancelled(p));
        case Unavailable => return Some(DeviceLoss(p));
        case OtherFault =>
          match cls {
            case AllocationFault => return Some(Allocation(p));
            case OperationFault => return Some(Operation(p));
          }
      }
    }

    /** A copy, readback, launch or sync on the session of `p`. */
    method CallDevice(p: Partition) returns (error: Option<BackendError>)
      modifies this
      ensures Outcome(View(), error) == Perform(old(View()), CallStep(p), faults)
    {
      hide ErrorFor;
      if p !in bound {
        return Some(Operation(p));
      }
      if bound[p] !in sessions {
        return Some(DeviceLoss(p));
      }
      error := DeviceCall(p, OperationFault);
    }

    method CopyThroughHost(dst: Partition) returns (error: Option<BackendError>)
      modifies this
      ensures Outcome(View(), error) == Perform(old(View()), CopyStep(dst), faults)
    {
      hide ErrorFor;
      error := DeviceCall(dst, OperationFault);
    }

    /** `alloc` and `track`. */
    method AllocBytes(p: Partition, len: u64) returns (error: Option<BackendError>)
      modifies this
      ensures Outcome(View(), error) == Perform(old(View()), AllocStep(p, len), faults)
    {
      hide ErrorFor;
      if p !in bound {
        return Some(Operation(p));
      }
      var d := bound[p];
      if d !in sessions {
        return Some(DeviceLoss(p));
      }
      if len == 0 {
        return Some(Allocation(p));
      }
      error := DeviceCall(p, AllocationFault);
      if error.None? {
        var s := sessions[d];
        var handle := s.next;
        sessions := sessions[d := Session(handle + 1, s.live[handle := BufferHandle(len)], s.moduleLoads)];
        resources := resources[p := (if p in resources then resources[p] else []) + [handle]];
      }
    }

    method EnsureModuleLoaded(p: Partition) returns (error: Option<BackendError>)
      modifies this
      ensures Outcome(View(), error) == Perform(old(View()), ModuleStep(p), faults)
    {
      hide ErrorFor;
      if p !in bound {
        return Some(Operation(p));
      }
      var d := bound[p];
      if d in modules {
        return None;
      }
      if d !in sessions {
        return Some(DeviceLoss(p));
      }
      error := DeviceCall(p, OperationFault);
      if error.None? {
        var s := sessions[d];
        modules := modules[d := s.next];
        sessions := sessions[d := Session(s.next + 1, s.live[s.next := ModuleHandle], s.moduleLoads + 1)];
      }
    }

    /** `host_stage_copy`: fill and read back the source, copy on the host, fill and read back the destination. */
    method HostStageCopy(src: Partition, dst: Partition, len: u64) returns (error: Option<BackendError>)
      modifies this
      ensures Outcome(View(), error) == Exec(old(View()), CopySteps(src, dst, len), faults)
    {
      hide Perform;
      ghost var s := View();
      ghost var steps := CopySteps(src, dst, len);
      error := AllocBytes(src, len);
      s, steps := ExecFirst(s, steps, Outcome(View(), error));
      if error.Some? { return; }
      error := CallDevice(src);
      s, steps := ExecFirst(s, steps, Outcome(View(), error));
      if error.Some? { return; }
      error := CallDevice(src);
      s, steps := ExecFirst(s, steps, Outcome(View(), error));
      if error.Some? { return; }
      error := CopyThroughHost(dst);
      s, steps := ExecFirst(s, steps, Outcome(View(), error));
      if error.Some? { return; }
      error := AllocBytes(dst, len);
      s, steps := ExecFirst(s, steps, Outcome(View(), error));
      if error.Some? { return; }
      error := CallDevice(dst);
      s, steps := ExecFirst(s, steps, Outcome(View(), error));
      if error.Some? { return; }
      error := CallDevice(dst);
      s, steps := ExecFirst(s, steps, Outcome(View(), error));
    }

    /** The first step of a list is done with outcome `o`; what is left runs from there. */
    lemma ExecFirst(s: State, steps: seq<Step>, o: Outcome) returns (after: State, rest: seq<Step>)
      requires steps != [] && o == Perform(s, steps[0], faults)
      ensures after == o.st && rest == steps[1..]
      ensures Exec(s, steps, faults) == if o.error.Some? then o else Exec(after, rest, faults)
    {
      return o.st, steps[1..];
    }

    method RunLaunch(p: Partition, len: u64) returns (error: Option<BackendError>)
      modifies this
      ensures Outcome(View(), error) == Exec(old(View()), LaunchSteps(p, len), faults)
    {
      hide Perform;
      if len == 0 {
        return None;
      }
      ghost var s := View();
      ghost var steps := LaunchSteps(p, len);
      error := EnsureModuleLoaded(p);
      s, steps := ExecFirst(s, steps, Outcome(View(), error));
      if error.Some? { return; }
      error := AllocBytes(p, len);
      s, steps := ExecFirst(s, steps, Outcome(View(), error));
      if error.Some? { return; }
      error := AllocBytes(p, len);
      s, steps := ExecFirst(s, steps, Outcome(View(), error));
      if error.Some? { return; }
      error := CallDevice(p);
      s, steps := ExecFirst(s, steps, Outcome(View(), error));
      if error.Some? { return; }
      error := CallDevice(p);
      s, steps := ExecFirst(s, steps, Outcome(View(), error));
      if error.Some? { return; }
      error := CallDevice(p);
      s, steps := ExecFirst(s, steps, Outcome(View(), error));
    }

    method RunBroadcast(src: Partition, ps: seq<Partition>, len: u64) returns (error: Option<BackendError>)
      modifies this
      ensures Outcome(View(), error) == Exec(old(View()), BroadcastSteps(src, ps, len), faults)
    {
      hide CopySteps, Perform;
      for i := 0 to |ps|
        invariant Exec(View(), BroadcastSteps(src, ps[i..], len), faults)
               == Exec(old(View()), BroadcastSteps(src, ps, len), faults)
      {
        assert ps[i..][1..] == ps[i + 1..];
        if ps[i] != src {
          ghost var before := View();
          error := HostStageCopy(src, ps[i], len);
          ExecAppend(before, CopySteps(src, ps[i], len), BroadcastSteps(src, ps[i + 1..], len), faults);
          if error.Some? {
            return;
          }
        } else {
          assert [] + BroadcastSteps(src, ps[i + 1..], len) == BroadcastSteps(src, ps[i + 1..], len);
        }
      }
      return None;
    }

    method RunBarrier(ps: seq<Partition>) returns (error: Option<BackendError>)
      modifies this
      ensures Outcome(View(), error) == Exec(old(View()), BarrierSteps(bound, ps, {}), faults)
    {
      hide Perform;
      var synced: set<Device> := {};
      for i := 0 to |ps|
        invariant Exec(View(), BarrierSteps(bound, ps[i..], synced), faults)
               == Exec(old(View()), BarrierSteps(bound, ps, {}), faults)
      {
        assert ps[i..][1..] == ps[i + 1..];
        if ps[i] in bound && bound[ps[i]] in synced {
          continue;
        }
        ghost var steps := BarrierSteps(bound, ps[i..], synced);
        if ps[i] in bound {
          synced := synced + {bound[ps[i]]};
        }
        assert steps[1..] == BarrierSteps(bound, ps[i + 1..], synced);
        ghost var before := View();
        error := CallDevice(ps[i]);
        ghost var s, rest := ExecFirst(before, steps, Outcome(View(), error));
        if error.Some? {
          return;
        }
      }
      return None;
    }

    method RunOperation(op: Op) returns (error: Option<BackendError>)
      modifies this
      ensures Outcome(View(), error) == BackendState.RunOperation(old(View()), op, faults)
    {
      hide Exec, LaunchSteps, CopySteps, BroadcastSteps, BarrierSteps;
      match op {
        case Launch(p, _, len) => error := RunLaunch(p, len);
        case Transfer(src, dst, _, len) => error := HostStageCopy(src, dst, len);
        case Broadcast(src, ps, _, len) => error := RunBroadcast(src, ps, len);
        case Barrier(ps, _) => error := RunBarrier(ps);
      }
      if error.None? {
        CompleteEvents(op);
      }
    }

    /** `complete_events`: one event for each partition that takes part. */
    method CompleteEvents(op: Op)
      modifies this`completed
      ensures completed == old(completed) + Events(op)
    {
      match op {
        case Launch(p, r, _) => completed := completed + {LaunchCompleted(p, r)};
        case Transfer(src, dst, r, _) =>
          completed := completed + {TransferCompleted(src, r)};
          completed := completed + {TransferCompleted(dst, r)};
        case Broadcast(_, ps, r, _) =>
          for i := 0 to |ps|
            invariant completed == old(completed) + set p | p in ps[..i] :: BroadcastCompleted(p, r)
          {
            completed := completed + {BroadcastCompleted(ps[i], r)};
          }
          assert ps[..|ps|] == ps;
        case Barrier(ps, r) =>
          for i := 0 to |ps|
            invariant completed == old(completed) + set p | p in ps[..i] :: BarrierCompleted(p, r)
          {
            completed := completed + {BarrierCompleted(ps[i], r)};
          }
          assert ps[..|ps|] == ps;
      }
    }

    /** One optional reservation buffer. */
    method ReserveBuffer(p: Partition, len: u64, ghost rest: seq<Step>) returns (error: Option<BackendError>)
      modifies this
      ensures Exec(old(View()), (if len > 0 then [AllocStep(p, len)] else []) + rest, faults)
           == if error.Some? then Outcome(View(), error) else Exec(View(), rest, faults)
    {
      hide Perform;
      if len > 0 {
        ghost var before := View();
        error := AllocBytes(p, len);
        ghost var s, steps := ExecFirst(before, [AllocStep(p, len)] + rest, Outcome(View(), error));
        assert steps == rest;
      } else {
        assert [] + rest == rest;
        error := None;
      }
    }

    method Reserve(p: Partition, r: Reservation) returns (error: Option<BackendError>)
      modifies this
      ensures Outcome(View(), error) == BackendState.Reserve(old(View()), p, r, faults)
    {
      hide Perform;
      if p in reservations {
        return Some(Allocation(p));
      }
      if p !in bound {
        return Some(Operation(p));
      }
      ghost var staging := if r.transferStaging > 0 then [AllocStep(p, r.transferStaging)] else [];
      ghost var scratch := if r.scratch > 0 then [AllocStep(p, r.scratch)] else [];
      ghost var output := if r.outputBuffer > 0 then [AllocStep(p, r.outputBuffer)] else [];
      assert ReserveSteps(p, r) == output + (staging + scratch);
      assert scratch + [] == scratch;
      error := ReserveBuffer(p, r.outputBuffer, staging + scratch);
      if error.Some? { return; }
      error := ReserveBuffer(p, r.transferStaging, scratch);
      if error.Some? { return; }
      error := ReserveBuffer(p, r.scratch, []);
      if error.Some? { return; }
      reservations := reservations[p := r];
    }

    method StageWrite(w: Write) returns (error: Option<BackendError>)
      modifies this
      ensures Outcome(View(), error) == BackendState.StageWrite(old(View()), w)
    {
      if w.reference in staged {
        return Some(Allocation(w.partition));
      }
      stagedTotal := SaturatingAdd(stagedTotal, w.byteCount);
      staged := staged[w.reference := w];
      return None;
    }

    method Publish() returns (error: Option<BackendError>)
      modifies this
      ensures Outcome(View(), error) == BackendState.Publish(old(View()))
    {
      if publishedOnce {
        return Some(Operation(UNKNOWN));
      }
      published := staged;
      publishedTotal := stagedTotal;
      publishedOnce := true;
      return None;
    }

    /** Release handles one by one; a release that the driver fails still drops the registration. */
    static method ReleaseAll(s: Session, handles: seq<nat>) returns (t: Session)
      ensures t == BackendState.Drop(s, handles)
    {
      t := s;
      assert s.live == BackendState.Drop(s, []).live;
      for i := 0 to |handles|
        invariant t == BackendState.Drop(s, handles[..i])
      {
        t := t.(live := t.live - {handles[i]});
        assert handles[..i + 1] == handles[..i] + [handles[i]];
        assert t.live == BackendState.Drop(s, handles[..i + 1]).live;
      }
      assert handles[..|handles|] == handles;
    }

    /** `free_partition`: take the tracked handles, release them, drop the reservation. */
    method FreePartition(p: Partition)
      modifies this
      ensures View() == Free(old(View()), p)
    {
      hide BackendState.Drop;
      var handles := if p in resources then resources[p] else [];
      resources := resources - {p};
      if p in bound && bound[p] in sessions {
        var released := ReleaseAll(sessions[bound[p]], handles);
        sessions := sessions[bound[p] := released];
      }
      reservations := reservations - {p};
    }

    method Release(p: Partition)
      modifies this
      ensures View() == Free(old(View()), p)
    {
      FreePartition(p);
    }

    /** The u64 sum of the byte counts, wrapping as a release build does. */
    static method SumWrites(m: map<Reference, Write>) returns (sum: u64)
      ensures sum == Wrap64(Bytes(m))
    {
      hide Wrap64;
      sum := 0;
      ghost var acc: nat := 0;
      WrapZero();
      var todo := m;
      while todo != map[]
        invariant sum == Wrap64(acc) && acc + Bytes(todo) == Bytes(m)
        decreases |todo|
      {
        var r :| r in todo;
        var n := todo[r].byteCount;
        Publication.BytesRemove(todo, r);
        WrapAdd(acc, n);
        acc := acc + n;
        sum := Wrap64(sum + n);
        todo := todo - {r};
      }
    }

    static lemma WrapZero()
      ensures Wrap64(0) == 0
    {
    }

    static lemma WrapAdd(a: nat, b: nat)
      ensures Wrap64(Wrap64(a) + b) == Wrap64(a + b)
    {
    }

    method Retire(p: Partition)
      modifies this
      ensures View() == BackendState.Retire(old(View()), p)
    {
      var retired := SumWrites(map r | r in staged && staged[r].partition == p :: staged[r]);
      stagedTotal := SaturatingSub(stagedTotal, retired);
      staged := map r | r in staged && staged[r].partition != p :: staged[r];
      FreePartition(p);
    }

    /** Execute any list of backend commands; the states passed are those of the run. */
    method Execute(cs: seq<Command>)
      modifies this
      ensures View() == Run(old(View()), cs, faults)
    {
      hide BackendState.Reserve, BackendState.RunOperation, Free, BackendState.Retire;
      for i := 0 to |cs|
        invariant View() == Run(old(View()), cs[..i], faults)
      {
        assert cs[..i + 1][..i] == cs[..i];
        match cs[i] {
          case DoReserve(p, r) => var _ := Reserve(p, r);
          case DoRun(op) => var _ := RunOperation(op);
          case DoStage(w) => var _ := StageWrite(w);
          case DoPublish => var _ := Publish();
          case DoRelease(p) => Release(p);
          case DoRetire(p) => Retire(p);
        }
      }
      assert cs[..|cs|] == cs;
    }
  }

  lemma {:induction false} ExecAppend(st: State, a: seq<Step>, b: seq<Step>, faults: Faults)
    ensures var r := Exec(st, a, faults);
      Exec(st, a + b, faults) == if r.error.Some? then r else Exec(r.st, b, faults)
    decreases |a|
  {
    hide Perform;
    if a == [] {
      assert a + b == b;
    } else {
      var o := Perform(st, a[0], faults);
      ExecAppend(o.st, a[1..], b, faults);
      assert (a + b)[1..] == a[1..] + b;
    }
  }
}
