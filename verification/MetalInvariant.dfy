/** What every run of the Metal session keeps, and where its two bounds checks agree. */
module MetalInvariant {
  import opened Prelude
  import opened Handles
  import opened MmapWrap
  import opened LaunchBindings
  import opened MetalState
  import opened ElementwiseAdd

  // ---- invariants ----

  /** A buffer fits the machine, its remainder lies in it, and a whole-word handle finds all its bytes behind it. */
  ghost predicate SlotOk(slot: Slot) {
    && |slot.bytes| < 0x1_0000_0000_0000_0000 && slot.region <= |slot.bytes|
    && (slot.len % 4 == 0 ==> HasBytes(slot, slot.len))
  }

  /** The counters account for what is live, and every submit was waited for. */
  ghost predicate DriverOk(d: Driver) {
    && (forall t | t in d.buffers :: t < d.nextToken && SlotOk(d.buffers[t]))
    && (forall t | t in d.modules :: t < d.nextToken && t !in d.buffers)
    && d.tally.moduleLoads == d.tally.moduleReleases + |d.modules|
    && d.tally.bufferAllocs == d.tally.bufferReleases + |d.buffers|
    && d.submits == d.waits
  }

  /** The handle's token is live, of its kind and length. */
  ghost predicate TokenLive(h: Handle, d: Driver) {
    match h.kind
    case ModuleHandle => h.token in d.modules
    case BufferHandle(len) => h.token in d.buffers && d.buffers[h.token].len == len
  }

  ghost predicate Linked(handles: map<nat, Handle>, d: Driver) {
    && (forall id | id in handles :: TokenLive(handles[id], d))
    && (forall i, j | i in handles && j in handles && i != j :: handles[i].token != handles[j].token)
    && |handles| == |d.buffers| + |d.modules|
  }

  ghost predicate Inv(st: State) {
    && DriverOk(st.driver) && Linked(st.handles, st.driver)
    && forall id | id in st.handles :: id < st.nextId
  }

  lemma InitialInv(st: State)
    requires Initial(st)
    ensures Inv(st)
  {
  }

  // ---- the driver's steps ----

  lemma AddModuleKeeps(d: Driver, image: seq<u8>)
    requires DriverOk(d)
    ensures DriverOk(AddModule(d, image))
  {
    hide SlotOk;
    assert d.nextToken !in d.modules;
  }

  lemma AddBufferKeeps(d: Driver, len: usize)
    requires DriverOk(d)
    ensures DriverOk(AddBuffer(d, len))
  {
    hide SlotOk;
    assert d.nextToken !in d.buffers;
    assert SlotOk(Slot(seq(len, _ => 0), 0, len)) by { NewSlotOk(len); }
  }

  lemma NewSlotOk(len: usize)
    ensures SlotOk(Slot(seq(len, _ => 0), 0, len))
  {
  }

  /** Replacing one live buffer by another sound one of the same handle length. */
  lemma ReplaceKeeps(d: Driver, after: Driver, token: nat, slot: Slot)
    requires DriverOk(d) && token in d.buffers && SlotOk(slot)
    requires after.buffers == d.buffers[token := slot] && after.modules == d.modules && after.nextToken == d.nextToken
    requires after.tally == d.tally && after.submits == d.submits && after.waits == d.waits
    ensures DriverOk(after)
  {
    hide SlotOk;
  }

  lemma SameBuffersKeep(d: Driver, after: Driver)
    requires DriverOk(d)
    requires after.buffers == d.buffers && after.modules == d.modules && after.nextToken == d.nextToken
    requires after.tally == d.tally && after.submits == after.waits
    ensures DriverOk(after)
  {
    hide SlotOk;
  }

  /** A slice no more than 3 bytes short of the handle leaves a sound slot of the same handle length. */
  lemma CopiedSlotOk(slot: Slot, slice: Slice, d: Driver)
    requires SlotOk(slot) && slot.len - 4 < |slice.bytes| <= slot.len
    requires CopiedSlot(slot, slice, WrapOf(d, slice)).Ok?
    ensures SlotOk(CopiedSlot(slot, slice, WrapOf(d, slice)).value)
    ensures CopiedSlot(slot, slice, WrapOf(d, slice)).value.len == slot.len
  {
    hide WrapFor;
    if WrapOf(d, slice).Some? {
      WrappedSlotOk(d.maps, slice.place.value, |slice.bytes|, slot.len);
    }
  }

  lemma WrappedSlotOk(maps: seq<Mapping>, addr: usize, sliceLen: nat, len: nat)
    requires WrapFor(maps, addr, sliceLen).Some? && len - 4 < sliceLen <= len
    ensures var w := WrapFor(maps, addr, sliceLen).value; SlotOk(Slot(PageBytes(w), w.offset, len))
  {
    hide WrapFor, PageBytes, RoundUp;
    WrapForSound(maps, addr, sliceLen);
    var w := WrapFor(maps, addr, sliceLen).value;
    WrapFitsIff(w, w.file, addr, sliceLen, len);
  }

  lemma CopyInKeeps(d: Driver, token: nat, slice: Slice, plan: FailurePlan)
    requires DriverOk(d)
    requires token in d.buffers ==> d.buffers[token].len - 4 < |slice.bytes| <= d.buffers[token].len
    ensures DriverOk(DriverCopyIn(d, token, slice, plan).driver)
    ensures SameTokens(d, DriverCopyIn(d, token, slice, plan).driver)
  {
    hide SlotOk, DriverOk, CopiedSlot, Fails, WrapOf;
    SubmitsWaits(d);
    var r := DriverCopyIn(d, token, slice, plan);
    if r.driver.buffers == d.buffers {
      SameBuffersKeep(d, r.driver);
    } else {
      assert SlotOk(d.buffers[token]) by { LiveSlotOk(d, token); }
      CopiedSlotOk(d.buffers[token], slice, d);
      ReplaceKeeps(d, r.driver, token, CopiedSlot(d.buffers[token], slice, WrapOf(d, slice)).value);
    }
  }

  lemma LiveSlotOk(d: Driver, token: nat)
    requires DriverOk(d) && token in d.buffers
    ensures SlotOk(d.buffers[token])
  {
  }

  /** The same modules and buffers are live, with the same handle lengths. */
  ghost predicate SameTokens(d: Driver, after: Driver) {
    && after.modules == d.modules && after.buffers.Keys == d.buffers.Keys
    && (forall t | t in d.buffers :: after.buffers[t].len == d.buffers[t].len)
  }

  lemma SameTokensLinked(handles: map<nat, Handle>, d: Driver, after: Driver)
    requires Linked(handles, d) && SameTokens(d, after)
    ensures Linked(handles, after)
  {
    SameKeysSameSize(d.buffers, after.buffers);
  }

  lemma SameKeysSameSize<V, W>(a: map<nat, V>, b: map<nat, W>)
    requires a.Keys == b.Keys
    ensures |a| == |b|
  {
    KeysSize(a);
    KeysSize(b);
  }

  lemma KeysSize<V>(a: map<nat, V>)
    ensures |a.Keys| == |a|
  {
  }

  lemma CopyIntoKeeps(d: Driver, token: nat, len: nat, slice: Slice, plan: FailurePlan)
    requires DriverOk(d) && token in d.buffers && d.buffers[token].len == len
    ensures DriverOk(CopyInto(d, token, len, slice, plan).driver)
    ensures SameTokens(d, CopyInto(d, token, len, slice, plan).driver)
  {
    hide DriverOk, DriverCopyIn;
    if |slice.bytes| <= len < |slice.bytes| + 4 {
      CopyInKeeps(d, token, slice, plan);
      if |slice.bytes| != len {
        var first := DriverCopyIn(d, token, slice, plan);
        CopyInKeeps(first.driver, token, Padded(slice, len), plan);
      }
    }
  }

  lemma ApplyWriteKeeps(d: Driver, after: Driver, bounds: seq<Bound>, write: Option<KernelWrite>)
    requires DriverOk(d) && after.buffers == ApplyWrite(d.buffers, bounds, write)
    requires after.modules == d.modules && after.nextToken == d.nextToken
    requires after.tally == d.tally && after.submits == d.submits && after.waits == d.waits
    ensures DriverOk(after) && SameTokens(d, after)
  {
    hide DriverOk;
    if after.buffers == d.buffers {
      SameBuffersKeep(d, after) by { assert d.submits == d.waits by { SubmitsWaits(d); } }
    } else {
      var token := bounds[write.value.binding].token;
      LiveSlotOk(d, token);
      ReplaceKeeps(d, after, token, d.buffers[token].(bytes := write.value.bytes));
    }
  }

  lemma SubmitsWaits(d: Driver)
    requires DriverOk(d)
    ensures d.submits == d.waits
  {
  }

  lemma LaunchKeeps(d: Driver, bounds: seq<Bound>, kernel: KernelRun, plan: FailurePlan)
    requires DriverOk(d)
    ensures DriverOk(DriverLaunch(d, bounds, kernel, plan).driver)
    ensures SameTokens(d, DriverLaunch(d, bounds, kernel, plan).driver)
  {
    hide DriverOk, ComposeError, ApplyWrite, Fails;
    var r := DriverLaunch(d, bounds, kernel, plan);
    SubmitsWaits(d);
    if r.error.None? {
      ApplyWriteKeeps(d, r.driver, bounds, kernel.write);
    } else {
      SameBuffersKeep(d, r.driver);
    }
  }

  lemma AddKeeps(d: Driver, program: nat, a: nat, b: nat, out: nat, add: Adder)
    requires DriverOk(d)
    ensures DriverOk(DriverAdd(d, program, a, b, out, add).driver)
    ensures SameTokens(d, DriverAdd(d, program, a, b, out, add).driver)
  {
    hide DriverOk, SlotOk, ViewOf, SumInto;
    var r := DriverAdd(d, program, a, b, out, add);
    if r.error.None? {
      SubmitsWaits(d);
      ViewFacts(d, out);
      LiveSlotOk(d, out);
      var slot, left, right := d.buffers[out], ViewOf(d, a).value, ViewOf(d, b).value;
      SumIntoOk(slot, left, right, add);
      ReplaceKeeps(d, r.driver, out, SumInto(slot, left, right, add, |left| / 4));
    }
  }

  lemma ViewFacts(d: Driver, token: nat)
    requires ViewOf(d, token).Ok?
    ensures token in d.buffers && d.buffers[token].region <= |d.buffers[token].bytes|
  {
  }

  lemma SumIntoOk(slot: Slot, left: seq<u8>, right: seq<u8>, add: Adder)
    requires SlotOk(slot) && |left| == |right| == |slot.bytes| - slot.region
    ensures SlotOk(SumInto(slot, left, right, add, |left| / 4))
    ensures SumInto(slot, left, right, add, |left| / 4).len == slot.len
  {
  }

  lemma FlushKeeps(d: Driver, stage: Stage)
    requires DriverOk(d)
    ensures DriverOk(Flush(Count(d, stage))) && DriverOk(Count(Flush(d), stage)) && DriverOk(Count(d, stage))
  {
    hide DriverOk;
    SubmitsWaits(d);
    SameBuffersKeep(d, Flush(Count(d, stage)));
    SameBuffersKeep(d, Count(Flush(d), stage));
    SameBuffersKeep(d, Count(d, stage));
  }

  lemma FreeKeeps(d: Driver, token: nat)
    requires DriverOk(d)
    ensures DriverOk(DriverFree(d, token))
  {
    hide SlotOk;
    if token in d.buffers {
      RemoveSize(d.buffers, token);
    } else if token in d.modules {
      RemoveSize(d.modules, token);
    }
  }

  lemma RemoveSize<V>(m: map<nat, V>, k: nat)
    requires k in m
    ensures |m - {k}| == |m| - 1
  {
    assert m == (m - {k})[k := m[k]];
  }

  // ---- the session's steps ----

  lemma RegisterKeeps(st: State, d: Driver, kind: HandleKind)
    requires Inv(st) && DriverOk(d) && TokenLive(Handle(kind, st.driver.nextToken), d)
    requires forall id | id in st.handles :: TokenLive(st.handles[id], d) && st.handles[id].token < st.driver.nextToken
    requires |d.buffers| + |d.modules| == |st.driver.buffers| + |st.driver.modules| + 1
    ensures Inv(Register(st, d, kind).st)
  {
    hide DriverOk, TokenLive;
    assert st.nextId !in st.handles;
  }

  lemma HandlesBelowNext(st: State)
    requires Inv(st)
    ensures forall id | id in st.handles :: st.handles[id].token < st.driver.nextToken
  {
    hide SlotOk;
  }

  lemma CountKeeps(st: State, stage: Stage)
    requires Inv(st)
    ensures Inv(st.(driver := Count(st.driver, stage)))
  {
    hide SlotOk;
  }

  lemma LoadKeeps(st: State, image: seq<u8>, plan: FailurePlan)
    requires Inv(st)
    ensures Inv(Load(st, image, plan).st)
  {
    hide Inv, DriverOk, Linked, Fails;
    var counted := Count(st.driver, ModuleLoad);
    CountKeeps(st, ModuleLoad);
    assert DriverOk(counted) by { InvParts(st.(driver := counted)); }
    AddModuleKeeps(counted, image);
    LoadLinked(st, image);
    RegisterKeeps(st, AddModule(counted, image), ModuleHandle);
  }

  lemma InvParts(st: State)
    requires Inv(st)
    ensures DriverOk(st.driver) && Linked(st.handles, st.driver)
  {
    hide DriverOk, Linked;
  }

  lemma LoadLinked(st: State, image: seq<u8>)
    requires Inv(st)
    ensures var d := AddModule(Count(st.driver, ModuleLoad), image);
      && TokenLive(Handle(ModuleHandle, st.driver.nextToken), d)
      && (forall id | id in st.handles :: TokenLive(st.handles[id], d) && st.handles[id].token < st.driver.nextToken)
      && |d.buffers| + |d.modules| == |st.driver.buffers| + |st.driver.modules| + 1
  {
    hide SlotOk;
    HandlesBelowNext(st);
    assert st.driver.nextToken !in st.driver.modules;
  }

  lemma AllocLinked(st: State, len: usize)
    requires Inv(st)
    ensures var d := AddBuffer(Count(st.driver, Alloc), len);
      && TokenLive(Handle(BufferHandle(len), st.driver.nextToken), d)
      && (forall id | id in st.handles :: TokenLive(st.handles[id], d) && st.handles[id].token < st.driver.nextToken)
      && |d.buffers| + |d.modules| == |st.driver.buffers| + |st.driver.modules| + 1
  {
    hide SlotOk;
    HandlesBelowNext(st);
    assert st.driver.nextToken !in st.driver.buffers;
  }

  lemma AllocateKeeps(st: State, len: usize, plan: FailurePlan)
    requires Inv(st)
    ensures Inv(Allocate(st, len, plan).st)
  {
    hide Inv, DriverOk, Linked, Fails;
    var counted := Count(st.driver, Alloc);
    CountKeeps(st, Alloc);
    assert DriverOk(counted) by { InvParts(st.(driver := counted)); }
    AddBufferKeeps(counted, len);
    AllocLinked(st, len);
    RegisterKeeps(st, AddBuffer(counted, len), BufferHandle(len));
  }

  /** A step of the driver that keeps the live tokens keeps the session's invariant. */
  lemma DriverStepKeeps(st: State, d: Driver)
    requires Inv(st) && DriverOk(d) && SameTokens(st.driver, d)
    ensures Inv(st.(driver := d))
  {
    hide DriverOk, SameTokens, Linked;
    SameTokensLinked(st.handles, st.driver, d);
  }

  lemma LiveBuffer(st: State, id: nat)
    requires Inv(st) && BufferOf(st, id).Ok?
    ensures var h := BufferOf(st, id).value;
      && h == st.handles[id] && h.kind.BufferHandle?
      && h.token in st.driver.buffers && st.driver.buffers[h.token].len == h.kind.len
      && SlotOk(st.driver.buffers[h.token])
  {
    hide SlotOk;
    assert TokenLive(st.handles[id], st.driver);
  }

  lemma CopyInBytesKeeps(st: State, id: nat, slice: Slice, plan: FailurePlan)
    requires Inv(st)
    ensures Inv(CopyInBytes(st, id, slice, plan).st)
  {
    hide Inv, DriverOk, SlotOk, CopyInto, BufferOf;
    if BufferOf(st, id).Ok? {
      var h := BufferOf(st, id).value;
      LiveBuffer(st, id);
      InvParts(st);
      CopyIntoKeeps(st.driver, h.token, h.kind.len, slice, plan);
      DriverStepKeeps(st, CopyInto(st.driver, h.token, h.kind.len, slice, plan).driver);
    }
  }

  lemma DriverLaunchKeeps(st: State, bounds: seq<Bound>, kernel: KernelRun, plan: FailurePlan)
    requires Inv(st)
    ensures Inv(st.(driver := DriverLaunch(st.driver, bounds, kernel, plan).driver))
  {
    hide Inv, DriverOk, DriverLaunch;
    InvParts(st);
    LaunchKeeps(st.driver, bounds, kernel, plan);
    DriverStepKeeps(st, DriverLaunch(st.driver, bounds, kernel, plan).driver);
  }

  lemma AddBuffersKeeps(st: State, id: nat, a: nat, b: nat, out: nat, add: Adder, plan: FailurePlan)
    requires Inv(st)
    ensures Inv(AddBuffers(st, id, a, b, out, add, plan).st)
  {
    hide Inv, DriverOk, DriverAdd, AddError, TokenOf, Fails;
    InvParts(st);
    AddKeeps(st.driver, TokenOf(st, id), TokenOf(st, a), TokenOf(st, b), TokenOf(st, out), add);
    var encoded := EncodeAdd(st, id, a, b, out, add).driver;
    DriverStepKeeps(st, encoded);
    FlushKeeps(encoded, Sync);
    FlushingKeeps(st.(driver := encoded), DriverSync(encoded, plan).driver);
  }

  lemma ReleaseKeeps(st: State, id: nat)
    requires Inv(st)
    ensures Inv(Release(st, id).st)
  {
    hide DriverOk;
    if id in st.handles {
      FreeKeeps(st.driver, st.handles[id].token);
      FreeLinked(st.handles, st.driver, id);
    }
  }

  lemma OtherStaysLive(h: Handle, d: Driver, token: nat)
    requires TokenLive(h, d) && h.token != token
    ensures TokenLive(h, DriverFree(d, token))
  {
  }

  lemma FreeSize(d: Driver, token: nat)
    requires token in d.buffers || token in d.modules
    ensures |DriverFree(d, token).buffers| + |DriverFree(d, token).modules| == |d.buffers| + |d.modules| - 1
  {
    if token in d.buffers {
      RemoveSize(d.buffers, token);
    } else {
      RemoveSize(d.modules, token);
    }
  }

  lemma FreeLinked(handles: map<nat, Handle>, d: Driver, id: nat)
    requires Linked(handles, d) && id in handles
    ensures Linked(handles - {id}, DriverFree(d, handles[id].token))
  {
    hide DriverFree;
    RemoveSize(handles, id);
    FreeSize(d, handles[id].token);
    forall other | other in handles - {id}
      ensures TokenLive(handles[other], DriverFree(d, handles[id].token))
    {
      OtherStaysLive(handles[other], d, handles[id].token);
    }
  }

  lemma FlushingKeeps(st: State, d: Driver)
    requires Inv(st) && DriverOk(d) && d.buffers == st.driver.buffers && d.modules == st.driver.modules
    ensures Inv(st.(driver := d))
  {
    hide DriverOk;
  }

  lemma RetainKeeps(st: State, file: Mapping)
    requires Inv(st)
    ensures Inv(st.(driver := st.driver.(maps := st.driver.maps + [file])))
  {
    hide SlotOk;
  }

  lemma NextKeeps(st: State, call: Call, plan: FailurePlan)
    requires Inv(st)
    ensures Inv(Next(st, call, plan).st)
  {
    hide Inv, DriverOk, Load, Allocate, CopyInBytes, Release, DriverLaunch, AdmitError, BufferError, BufferOf, Fails,
         AddBuffers;
    InvParts(st);
    match call
    case DoLoad(image) => LoadKeeps(st, image, plan);
    case DoAlloc(len) => AllocateKeeps(st, len, plan);
    case DoRetain(file) => RetainKeeps(st, file);
    case DoCopyIn(id, slice) => CopyInBytesKeeps(st, id, slice, plan);
    case DoLaunch(id, entry, bs, kernel) =>
      if Permutation(ByIndex(bs)) {
        DriverLaunchKeeps(st, Bounds(st, InSlotOrder(ByIndex(bs))), kernel, plan);
      }
    case DoLaunchWhole(id, entry, ids, kernel) => DriverLaunchKeeps(st, Whole(st, ids), kernel, plan);
    case DoElementwiseAdd(id, a, b, out, add) => AddBuffersKeeps(st, id, a, b, out, add, plan);
    case DoSync =>
      FlushKeeps(st.driver, Sync);
      FlushingKeeps(st, DriverSync(st.driver, plan).driver);
    case DoReadback(id) =>
      FlushKeeps(st.driver, Readback);
      FlushingKeeps(st, Count(Flush(st.driver), Readback));
    case DoRelease(id) => ReleaseKeeps(st, id);
  }

  /** The invariant holds in every state of every run, under any plan of failures. */
  lemma {:induction false} RunKeeps(st: State, calls: seq<Call>, plan: FailurePlan)
    requires Initial(st)
    ensures Inv(Run(st, calls, plan))
  {
    hide Inv, Next, Initial;
    if calls == [] {
      InitialInv(st);
    } else {
      RunKeeps(st, calls[..|calls| - 1], plan);
      NextKeeps(Run(st, calls[..|calls| - 1], plan), calls[|calls| - 1], plan);
    }
  }
}
