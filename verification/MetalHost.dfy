/** The session and fake driver objects of metal_host.rs, proved to take exactly the steps of MetalState. */
module MetalHost {
  import opened Prelude
  import opened Handles
  import opened MmapWrap
  import opened LaunchBindings
  import opened MetalState
  import opened MetalInvariant
  import opened ElementwiseAdd

  class FakeMetalDriver {
    /** Which call of which stage is made to fail. */
    const plan: FailurePlan
    var nextToken: nat
    var buffers: map<nat, Slot>
    var modules: map<nat, seq<u8>>
    var maps: seq<Mapping>
    var stageCalls: map<Stage, nat>
    var tally: Tally
    var pending: nat
    var submits: nat
    var waits: nat
    var wraps: nat

    ghost function View(): Driver
      reads this
    {
      Driver(nextToken, buffers, modules, maps, stageCalls, tally, pending, submits, waits, wraps)
    }

    constructor (plan: FailurePlan)
      ensures this.plan == plan && View() == Driver(0, map[], map[], [], map[], Tally(0, 0, 0, 0), 0, 0, 0, 0)
    {
      this.plan := plan;
      nextToken, buffers, modules, maps := 0, map[], map[], [];
      stageCalls, tally := map[], Tally(0, 0, 0, 0);
      pending, submits, waits, wraps := 0, 0, 0, 0;
    }

    /** Count a call of `stage` and report whether it is the one that fails. */
    method MaybeFail(stage: Stage) returns (fails: bool)
      modifies this`stageCalls
      ensures fails == Fails(old(View()), stage, plan) && View() == Count(old(View()), stage)
    {
      var call := (if stage in stageCalls then stageCalls[stage] else 0) + 1;
      stageCalls := stageCalls[stage := call];
      fails := stage in plan && plan[stage] == call;
    }

    /** A new token for a compiled module, or the injected failure. */
    method LoadModule(image: seq<u8>) returns (r: Result<nat, HostError>)
      modifies this
      ensures if Fails(old(View()), ModuleLoad, plan)
        then r == Err(DriverFault) && View() == Count(old(View()), ModuleLoad)
        else r == Ok(old(nextToken)) && View() == AddModule(Count(old(View()), ModuleLoad), image)
    {
      var fails := MaybeFail(ModuleLoad);
      if fails {
        return Err(DriverFault);
      }
      tally := tally.(moduleLoads := tally.moduleLoads + 1);
      var token := nextToken;
      nextToken := nextToken + 1;
      modules := modules[token := image];
      return Ok(token);
    }

    method AllocBuffer(len: usize) returns (r: Result<nat, HostError>)
      modifies this
      ensures if Fails(old(View()), Alloc, plan) then r == Err(DriverFault) && View() == Count(old(View()), Alloc)
        else r == Ok(old(nextToken)) && View() == AddBuffer(Count(old(View()), Alloc), len)
    {
      var fails := MaybeFail(Alloc);
      if fails {
        return Err(DriverFault);
      }
      tally := tally.(bufferAllocs := tally.bufferAllocs + 1);
      var token := nextToken;
      nextToken := nextToken + 1;
      buffers := buffers[token := Slot(seq(len, _ => 0), 0, len)];
      return Ok(token);
    }

    method RetainMappedFile(file: Mapping)
      modifies this`maps
      ensures View() == old(View()).(maps := old(maps) + [file])
    {
      maps := maps + [file];
    }

    method CopyInto(token: nat, slice: Slice) returns (e: Option<HostError>)
      modifies this
      ensures DriverOutcome(View(), e) == DriverCopyIn(old(View()), token, slice, plan)
    {
      hide PageBytes, WrapFor;
      var fails := MaybeFail(CopyIn);
      if fails {
        return Some(DriverFault);
      }
      if token !in buffers {
        return Some(Internal);
      }
      var slot := buffers[token];
      var wrap: Option<Wrap> := None;
      if slice.place.Some? {
        wrap := MappedWrapFor(maps, slice.place.value, |slice.bytes|);
      }
      if wrap.Some? {
        buffers := buffers[token := Slot(PageBytes(wrap.value), wrap.value.offset, slot.len)];
        wraps := wraps + 1;
        return None;
      }
      if slot.region != 0 || |slot.bytes| != |slice.bytes| {
        return Some(InvalidArgs);
      }
      buffers := buffers[token := slot.(bytes := slice.bytes)];
      return None;
    }

    /** Compose every bound range, then run the kernel. */
    method LaunchKernelBound(bounds: seq<Bound>, kernel: KernelRun) returns (e: Option<HostError>)
      modifies this
      ensures DriverOutcome(View(), e) == DriverLaunch(old(View()), bounds, kernel, plan)
    {
      hide Composes;
      var fails := MaybeFail(Launch);
      if fails {
        return Some(DriverFault);
      }
      for k := 0 to |bounds|
        invariant View() == Count(old(View()), Launch)
        invariant ComposeError(buffers, bounds) == ComposeError(buffers, bounds[k..])
      {
        assert bounds[k..][1..] == bounds[k + 1..];
        if bounds[k].token !in buffers {
          return Some(Internal);
        }
        if !Composes(buffers[bounds[k].token], bounds[k]) {
          return Some(ShapeMismatch);
        }
      }
      if kernel.Refused? {
        return Some(kernel.error);
      }
      if kernel.write.Some? && kernel.write.value.binding < |bounds| {
        var token := bounds[kernel.write.value.binding].token;
        if token in buffers && |buffers[token].bytes| == |kernel.write.value.bytes| {
          buffers := buffers[token := buffers[token].(bytes := kernel.write.value.bytes)];
        }
      }
      pending := pending + 1;
      return None;
    }

    /** `simulate_elementwise_add`: overwrite the output word by word, then leave one encode pending. */
    method LaunchElementwiseAdd(program: nat, a: nat, b: nat, out: nat, add: Adder) returns (e: Option<HostError>)
      modifies this
      ensures DriverOutcome(View(), e) == DriverAdd(old(View()), program, a, b, out, add)
    {
      hide Composes, SumInto;
      if program !in modules {
        return Some(Internal);
      }
      var left := ViewFrom(a);
      if left.Err? {
        return Some(left.error);
      }
      var right := ViewFrom(b);
      if right.Err? {
        return Some(right.error);
      }
      var target := ViewFrom(out);
      if target.Err? {
        return Some(target.error);
      }
      ViewFacts(View(), out);
      var slot := buffers[out];
      if |left.value| != |right.value| || |left.value| != |slot.bytes| - slot.region {
        return Some(InvalidArgs);
      }
      SumWords(out, left.value, right.value, add);
      pending := pending + 1;
      return None;
    }

    method SumWords(out: nat, left: seq<u8>, right: seq<u8>, add: Adder)
      requires out in buffers && buffers[out].region <= |buffers[out].bytes|
      requires |left| == |right| == |buffers[out].bytes| - buffers[out].region
      modifies this`buffers
      ensures buffers == old(buffers)[out := SumInto(old(buffers[out]), left, right, add, |left| / 4)]
    {
      hide SumInto, WordAt;
      var slot := buffers[out];
      SumIntoNone(slot, left, right, add);
      for i := 0 to |left| / 4
        invariant buffers == old(buffers)[out := SumInto(slot, left, right, add, i)]
      {
        var bytes, at := buffers[out].bytes, slot.region + 4 * i;
        var sum := add(WordAt(left, i), WordAt(right, i));
        SumIntoNext(slot, left, right, add, i);
        buffers := buffers[out := slot.(bytes := bytes[..at] + sum + bytes[at + 4..])];
      }
    }

    function ViewFrom(token: nat): (r: Result<seq<u8>, HostError>)
      reads this
      ensures r == ViewOf(View(), token)
    {
      if token !in buffers then Err(Internal)
      else if !Composes(buffers[token], Bound(token, 0, 0)) then Err(ShapeMismatch)
      else
        var slot := buffers[token];
        Ok(slot.bytes[slot.region..Max(Min(slot.region + slot.len, |slot.bytes|), slot.region)])
    }

    static lemma SumIntoNone(slot: Slot, left: seq<u8>, right: seq<u8>, add: Adder)
      requires slot.region <= |slot.bytes| && |left| == |right| == |slot.bytes| - slot.region
      ensures SumInto(slot, left, right, add, 0) == slot
    {
    }

    /** One more word is one more overwrite behind the remainder. */
    static lemma SumIntoNext(slot: Slot, left: seq<u8>, right: seq<u8>, add: Adder, i: nat)
      requires slot.region <= |slot.bytes| && |left| == |right| == |slot.bytes| - slot.region && 4 * i + 4 <= |left|
      ensures var bytes, at := SumInto(slot, left, right, add, i).bytes, slot.region + 4 * i;
        && |bytes| == |slot.bytes|
        && SumInto(slot, left, right, add, i + 1)
           == slot.(bytes := bytes[..at] + add(WordAt(left, i), WordAt(right, i)) + bytes[at + 4..])
    {
      hide WordAt;
      var head, sums := slot.bytes[..slot.region], Summed(slot.bytes[slot.region..], left, right, add, i);
      var w := add(WordAt(left, i), WordAt(right, i));
      assert head + (sums[..4 * i] + w + sums[4 * i + 4..])
          == (head + sums)[..slot.region + 4 * i] + w + (head + sums)[slot.region + 4 * i + 4..];
    }

    method FlushPending()
      modifies this
      ensures View() == Flush(old(View()))
    {
      if pending == 0 {
        return;
      }
      submits := submits + 1;
      waits := waits + 1;
      pending := 0;
    }

    method Synchronize() returns (e: Option<HostError>)
      modifies this
      ensures DriverOutcome(View(), e) == DriverSync(old(View()), plan)
    {
      var fails := MaybeFail(Sync);
      if fails {
        return Some(DriverFault);
      }
      FlushPending();
      return None;
    }

    /** Flush, then read `len` bytes behind the slot's remainder. */
    method CopyOut(token: nat, len: nat) returns (r: Result<seq<u8>, HostError>)
      modifies this
      ensures var o := DriverCopyOut(old(View()), token, len, plan);
        && View() == o.driver
        && (if o.error.Some? then r == Err(o.error.value) else r == Ok(ReadSlot(old(View()), token, len)))
    {
      FlushPending();
      var fails := MaybeFail(Readback);
      if fails {
        return Err(DriverFault);
      }
      if token !in buffers {
        return Err(Internal);
      }
      var slot := buffers[token];
      if slot.region + len <= |slot.bytes| {
        return Ok(slot.bytes[slot.region..slot.region + len]);
      }
      return Err(Internal);
    }

    method Free(token: nat)
      modifies this
      ensures View() == DriverFree(old(View()), token)
    {
      if token in buffers {
        buffers := buffers - {token};
        tally := tally.(bufferReleases := tally.bufferReleases + 1);
      } else if token in modules {
        modules := modules - {token};
        tally := tally.(moduleReleases := tally.moduleReleases + 1);
      }
    }
  }

  class MetalHostSession {
    const driver: FakeMetalDriver
    var handles: map<nat, Handle>
    var nextId: nat

    ghost function View(): State
      reads this, driver
    {
      State(driver.View(), handles, nextId)
    }

    constructor (plan: FailurePlan)
      ensures fresh(driver) && driver.plan == plan && Initial(View())
    {
      driver := new FakeMetalDriver(plan);
      handles, nextId := map[], 1;
    }

    /** The registry hands out the next id. */
    method Insert(kind: HandleKind, token: nat) returns (id: nat)
      modifies this
      ensures id == old(nextId) && nextId == id + 1 && handles == old(handles)[id := Handle(kind, token)]
    {
      id := nextId;
      nextId := nextId + 1;
      handles := handles[id := Handle(kind, token)];
    }

    function BufferToken(id: nat): (h: Result<Handle, HostError>)
      reads this, driver
      ensures h == BufferOf(View(), id)
    {
      if id !in handles then Err(InvalidHandle)
      else if !handles[id].kind.BufferHandle? then Err(InvalidArgs) else Ok(handles[id])
    }

    function ModuleTokenError(id: nat): (e: Option<HostError>)
      reads this, driver
      ensures e == ModuleError(View(), id)
    {
      if id !in handles then Some(InvalidHandle)
      else if !handles[id].kind.ModuleHandle? then Some(InvalidArgs) else None
    }

    method LoadModule(image: seq<u8>) returns (reply: Reply)
      modifies this, driver
      ensures Outcome(View(), reply) == Next(old(View()), DoLoad(image), driver.plan)
    {
      if image == [] {
        return Failed(InvalidArgs);
      }
      var token := driver.LoadModule(image);
      if token.Err? {
        return Failed(token.error);
      }
      var id := Insert(ModuleHandle, token.value);
      return NewHandle(id);
    }

    method AllocBytes(len: usize) returns (reply: Reply)
      modifies this, driver
      ensures Outcome(View(), reply) == Next(old(View()), DoAlloc(len), driver.plan)
    {
      if len == 0 {
        return Failed(InvalidArgs);
      }
      var token := driver.AllocBuffer(len);
      if token.Err? {
        return Failed(token.error);
      }
      var id := Insert(BufferHandle(len), token.value);
      return NewHandle(id);
    }

    method RetainMappedFile(file: Mapping) returns (reply: Reply)
      modifies driver
      ensures Outcome(View(), reply) == Next(old(View()), DoRetain(file), driver.plan)
    {
      driver.RetainMappedFile(file);
      return Done;
    }

    /** Equal lengths copy; up to 3 bytes short tries the slice, then a zero-padded copy. */
    method CopyInBytes(id: nat, slice: Slice) returns (reply: Reply)
      modifies driver
      ensures Outcome(View(), reply) == Next(old(View()), DoCopyIn(id, slice), driver.plan)
    {
      hide DriverCopyIn;
      var h := BufferToken(id);
      if h.Err? {
        return Failed(h.error);
      }
      var token, len := h.value.token, h.value.kind.len;
      if |slice.bytes| == len {
        var e := driver.CopyInto(token, slice);
        return DoneOr(e);
      }
      if |slice.bytes| > len || len - |slice.bytes| >= 4 {
        return Failed(InvalidArgs);
      }
      var e := driver.CopyInto(token, slice);
      if e.None? {
        return Done;
      }
      var padded: seq<u8> := slice.bytes + seq(len - |slice.bytes|, _ => 0);
      e := driver.CopyInto(token, Slice(None, padded));
      return DoneOr(e);
    }

    /** Admit the ordered bindings one by one, then hand tokens, offsets and spans to the driver. */
    method DispatchOrdered(ordered: seq<LaunchBinding>, kernel: KernelRun) returns (reply: Reply)
      modifies driver
      ensures Outcome(View(), reply) == Dispatch(old(View()), ordered, kernel, driver.plan)
    {
      hide DriverLaunch, BufferOf, Admits;
      var bounds: seq<Bound> := [];
      for k := 0 to |ordered|
        invariant View() == old(View())
        invariant AdmitError(View(), ordered) == AdmitError(View(), ordered[k..])
        invariant bounds == Bounds(View(), ordered)[..k]
      {
        assert ordered[k..][1..] == ordered[k + 1..];
        var b := ordered[k];
        var h := BufferToken(b.handle);
        if h.Err? {
          return Failed(h.error);
        }
        if b.span == 0 {
          return Failed(BadDescriptor);
        }
        if !Admits(h.value.kind.len, b.offset, b.span) {
          return Failed(ShapeMismatch);
        }
        BufferOfLive(View(), b.handle);
        bounds := bounds + [Bound(h.value.token, b.offset, b.span)];
      }
      assert ordered[|ordered|..] == [] && bounds == Bounds(View(), ordered);
      var e := driver.LaunchKernelBound(bounds, kernel);
      return DoneOr(e);
    }

    method LaunchKernelBound(id: nat, entry: string, bs: seq<LaunchBinding>, kernel: KernelRun) returns (reply: Reply)
      modifies driver
      ensures Outcome(View(), reply) == Next(old(View()), DoLaunch(id, entry, bs, kernel), driver.plan)
    {
      hide Dispatch, ModuleError, Permutation;
      var e := ModuleTokenError(id);
      if e.Some? {
        return Failed(e.value);
      }
      if entry == "" {
        return Failed(InvalidArgs);
      }
      var ordered := Place(ByIndex(bs));
      if ordered.Err? {
        return Failed(AbiMismatch);
      }
      InSlotOrderArranged(ByIndex(bs));
      ArrangementUnique(ByIndex(bs), ordered.value, InSlotOrder(ByIndex(bs)));
      reply := DispatchOrdered(ordered.value, kernel);
    }

    method LaunchKernel(id: nat, entry: string, ids: seq<nat>, kernel: KernelRun) returns (reply: Reply)
      modifies driver
      ensures Outcome(View(), reply) == Next(old(View()), DoLaunchWhole(id, entry, ids, kernel), driver.plan)
    {
      hide DriverLaunch, BufferOf, ModuleError;
      var e := ModuleTokenError(id);
      if e.Some? {
        return Failed(e.value);
      }
      if entry == "" {
        return Failed(InvalidArgs);
      }
      var bounds: seq<Bound> := [];
      for k := 0 to |ids|
        invariant View() == old(View())
        invariant BufferError(View(), ids) == BufferError(View(), ids[k..])
        invariant bounds == Whole(View(), ids)[..k]
      {
        assert ids[k..][1..] == ids[k + 1..];
        var h := BufferToken(ids[k]);
        if h.Err? {
          return Failed(h.error);
        }
        BufferOfLive(View(), ids[k]);
        bounds := bounds + [Bound(h.value.token, 0, 0)];
      }
      assert ids[|ids|..] == [] && bounds == Whole(View(), ids);
      e := driver.LaunchKernelBound(bounds, kernel);
      return DoneOr(e);
    }

    static lemma BufferOfLive(st: State, id: nat)
      requires BufferOf(st, id).Ok?
      ensures id in st.handles && BufferOf(st, id).value == st.handles[id]
    {
    }

    /** Every handle is checked before the driver is touched; the add is encoded and synced at once. */
    method LaunchElementwiseAdd(id: nat, a: nat, b: nat, out: nat, add: Adder) returns (reply: Reply)
      modifies driver
      ensures Outcome(View(), reply) == Next(old(View()), DoElementwiseAdd(id, a, b, out, add), driver.plan)
    {
      hide DriverAdd, DriverSync;
      BufferErrors(View(), a, b, out);
      var e := ModuleTokenError(id);
      if e.Some? {
        return Failed(e.value);
      }
      var left := BufferToken(a);
      if left.Err? {
        return Failed(left.error);
      }
      var right := BufferToken(b);
      if right.Err? {
        return Failed(right.error);
      }
      var target := BufferToken(out);
      if target.Err? {
        return Failed(target.error);
      }
      var len := left.value.kind.len;
      if len != right.value.kind.len || len != target.value.kind.len {
        return Failed(InvalidArgs);
      }
      if len % 4 != 0 {
        return Failed(InvalidArgs);
      }
      e := driver.LaunchElementwiseAdd(handles[id].token, left.value.token, right.value.token, target.value.token, add);
      if e.Some? {
        return Failed(e.value);
      }
      e := driver.Synchronize();
      return DoneOr(e);
    }

    static lemma BufferErrors(st: State, a: nat, b: nat, out: nat)
      ensures BufferError(st, [a, b, out])
           == if BufferOf(st, a).Err? then Some(BufferOf(st, a).error)
              else if BufferOf(st, b).Err? then Some(BufferOf(st, b).error)
              else if BufferOf(st, out).Err? then Some(BufferOf(st, out).error) else None
    {
      hide BufferOf;
      var ids := [a, b, out];
      assert ids[1..] == [b, out] && ids[1..][1..] == [out] && ids[1..][1..][1..] == [];
      assert BufferError(st, [out]) == if BufferOf(st, out).Err? then Some(BufferOf(st, out).error) else None;
    }

    method Synchronize() returns (reply: Reply)
      modifies driver
      ensures Outcome(View(), reply) == Next(old(View()), DoSync, driver.plan)
    {
      var e := driver.Synchronize();
      return DoneOr(e);
    }

    method ReadbackBytes(id: nat) returns (reply: Reply)
      modifies driver
      ensures Outcome(View(), reply) == Next(old(View()), DoReadback(id), driver.plan)
    {
      var h := BufferToken(id);
      if h.Err? {
        return Failed(h.error);
      }
      var r := driver.CopyOut(h.value.token, h.value.kind.len);
      if r.Err? {
        return Failed(r.error);
      }
      return Bytes(r.value);
    }

    /** The registration goes first, so a released id can never be used again. */
    method Release(id: nat) returns (reply: Reply)
      modifies this, driver
      ensures Outcome(View(), reply) == Next(old(View()), DoRelease(id), driver.plan)
    {
      if id !in handles {
        return Failed(InvalidHandle);
      }
      var token := handles[id].token;
      handles := handles - {id};
      driver.Free(token);
      return Done;
    }

    method Perform(call: Call) returns (reply: Reply)
      modifies this, driver
      ensures Outcome(View(), reply) == Next(old(View()), call, driver.plan)
    {
      match call {
        case DoLoad(image) => reply := LoadModule(image);
        case DoAlloc(len) => reply := AllocBytes(len);
        case DoRetain(file) => reply := RetainMappedFile(file);
        case DoCopyIn(id, slice) => reply := CopyInBytes(id, slice);
        case DoLaunch(id, entry, bs, kernel) => reply := LaunchKernelBound(id, entry, bs, kernel);
        case DoLaunchWhole(id, entry, ids, kernel) => reply := LaunchKernel(id, entry, ids, kernel);
        case DoElementwiseAdd(id, a, b, out, add) => reply := LaunchElementwiseAdd(id, a, b, out, add);
        case DoSync => reply := Synchronize();
        case DoReadback(id) => reply := ReadbackBytes(id);
        case DoRelease(id) => reply := Release(id);
      }
    }

    /** Any sequence of calls takes the session through the states of the run. */
    method Execute(calls: seq<Call>) returns (replies: seq<Reply>)
      modifies this, driver
      ensures View() == Run(old(View()), calls, driver.plan) && |replies| == |calls|
      ensures Inv(old(View())) ==> Inv(View())
    {
      hide Next, Inv;
      replies := [];
      for k := 0 to |calls|
        invariant View() == Run(old(View()), calls[..k], driver.plan) && |replies| == k
        invariant Inv(old(View())) ==> Inv(View())
      {
        assert calls[..k + 1][..k] == calls[..k];
        if Inv(View()) {
          NextKeeps(View(), calls[k], driver.plan);
        }
        var reply := Perform(calls[k]);
        replies := replies + [reply];
      }
      assert calls[..|calls|] == calls;
    }
  }
}
