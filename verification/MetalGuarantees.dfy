/** What a caller of the Metal session can rely on, in every reachable state. */
module MetalGuarantees {
  import opened Prelude
  import opened Handles
  import opened MmapWrap
  import opened LaunchBindings
  import opened MetalState
  import opened MetalInvariant
  import opened ElementwiseAdd

  // ---- accounting ----

  /** Live handles are loads and allocations not yet released, each backed by its own live token of its kind. */
  lemma RunAccounting(st: State, calls: seq<Call>, plan: FailurePlan)
    requires Initial(st)
    ensures var end := Run(st, calls, plan);
      var t := end.driver.tally;
      && |end.handles| == (t.moduleLoads - t.moduleReleases) + (t.bufferAllocs - t.bufferReleases)
      && end.driver.submits == end.driver.waits
      && (forall id | id in end.handles :: TokenLive(end.handles[id], end.driver))
      && (forall i, j | i in end.handles && j in end.handles && i != j :: end.handles[i].token != end.handles[j].token)
  {
    hide Run, Initial, SlotOk, TokenLive;
    RunKeeps(st, calls, plan);
  }

  ghost function Tokens(handles: map<nat, Handle>): set<nat> {
    set id | id in handles :: handles[id].token
  }

  lemma TokensRemove(handles: map<nat, Handle>, id: nat)
    requires id in handles
    requires forall i, j | i in handles && j in handles && i != j :: handles[i].token != handles[j].token
    ensures Tokens(handles) == Tokens(handles - {id}) + {handles[id].token}
    ensures handles[id].token !in Tokens(handles - {id})
  {
    var rest := handles - {id};
    forall t | t in Tokens(handles)
      ensures t in Tokens(rest) || t == handles[id].token
    {
      var i :| i in handles && handles[i].token == t;
      if i != id {
        assert i in rest;
      }
    }
  }

  lemma {:induction false} TokensSize(handles: map<nat, Handle>)
    requires forall i, j | i in handles && j in handles && i != j :: handles[i].token != handles[j].token
    ensures |Tokens(handles)| == |handles|
    decreases |handles|
  {
    hide Tokens;
    if handles != map[] {
      var id :| id in handles;
      var rest := handles - {id};
      RemoveSize(handles, id);
      TokensSize(rest);
      TokensRemove(handles, id);
    } else {
      NoTokens();
    }
  }

  lemma NoTokens()
    ensures Tokens(map[]) == {}
  {
  }

  /** No driver object outlives its handle: every live token belongs to a registered handle. */
  lemma NoOrphans(st: State, token: nat)
    requires Inv(st) && (token in st.driver.buffers || token in st.driver.modules)
    ensures exists id :: id in st.handles && st.handles[id].token == token
  {
    hide SlotOk;
    var d := st.driver;
    var live := d.buffers.Keys + d.modules.Keys;
    TokensSize(st.handles);
    forall t | t in Tokens(st.handles)
      ensures t in live
    {
      var id :| id in st.handles && st.handles[id].token == t;
      assert TokenLive(st.handles[id], d);
    }
    assert |live| == |d.buffers| + |d.modules| by {
      assert d.buffers.Keys !! d.modules.Keys;
      KeysSize(d.buffers);
      KeysSize(d.modules);
    }
    SameSizeSubset(Tokens(st.handles), live);
    assert token in Tokens(st.handles);
  }

  // ---- submits and waits ----

  /** The session and the driver accept the add. */
  predicate AddEncodes(st: State, id: nat, a: nat, b: nat, out: nat, add: Adder) {
    AddError(st, id, a, b, out).None? && EncodeAdd(st, id, a, b, out, add).error.None?
  }

  /** Whether a call reaches the flush: a sync that does not fail, after an add too, or a readback of a live buffer. */
  predicate Flushes(st: State, call: Call, plan: FailurePlan) {
    match call
    case DoElementwiseAdd(id, a, b, out, add) => AddEncodes(st, id, a, b, out, add) && !Fails(st.driver, Sync, plan)
    case DoSync => !Fails(st.driver, Sync, plan)
    case DoReadback(id) => BufferOf(st, id).Ok?
    case _ => false
  }

  /** Whether a call leaves a new encode; an add does even when its sync then fails. */
  ghost predicate Encodes(st: State, call: Call, plan: FailurePlan) {
    match call
    case DoLaunch(_, _, _, _) => Next(st, call, plan).reply == Done
    case DoLaunchWhole(_, _, _, _) => Next(st, call, plan).reply == Done
    case DoElementwiseAdd(id, a, b, out, add) => AddEncodes(st, id, a, b, out, add)
    case _ => false
  }

  lemma CopySubmits(d: Driver, token: nat, slice: Slice, plan: FailurePlan)
    ensures SameCommands(d, DriverCopyIn(d, token, slice, plan).driver)
  {
    hide CopiedSlot, Fails, WrapOf;
  }

  ghost predicate SameCommands(d: Driver, after: Driver) {
    d.submits == after.submits && d.waits == after.waits && d.pending == after.pending
  }

  lemma CopyIntoSubmits(d: Driver, token: nat, len: nat, slice: Slice, plan: FailurePlan)
    ensures SameCommands(d, CopyInto(d, token, len, slice, plan).driver)
  {
    hide DriverCopyIn;
    CopySubmits(d, token, slice, plan);
    if |slice.bytes| <= len {
      CopySubmits(DriverCopyIn(d, token, slice, plan).driver, token, Padded(slice, len), plan);
    }
  }

  lemma LaunchSubmits(d: Driver, bounds: seq<Bound>, kernel: KernelRun, plan: FailurePlan)
    ensures var r := DriverLaunch(d, bounds, kernel, plan);
      && r.driver.submits == d.submits && r.driver.waits == d.waits
      && r.driver.pending == d.pending + (if r.error.None? then 1 else 0)
  {
    hide ComposeError, ApplyWrite, Fails;
  }

  lemma AddSubmits(d: Driver, program: nat, a: nat, b: nat, out: nat, add: Adder)
    ensures var r := DriverAdd(d, program, a, b, out, add);
      && r.driver.submits == d.submits && r.driver.waits == d.waits && r.driver.stageCalls == d.stageCalls
      && r.driver.pending == d.pending + (if r.error.None? then 1 else 0)
  {
    hide ViewOf, SumInto;
  }

  lemma AddBuffersSubmits(st: State, id: nat, a: nat, b: nat, out: nat, add: Adder, plan: FailurePlan)
    ensures var d, after := st.driver, AddBuffers(st, id, a, b, out, add, plan).st.driver;
      var encoded := AddEncodes(st, id, a, b, out, add);
      var flushed := encoded && !Fails(d, Sync, plan);
      && after.submits == d.submits + (if flushed then 1 else 0)
      && after.waits == d.waits + (if flushed then 1 else 0)
      && after.pending == if flushed then 0 else if encoded then d.pending + 1 else d.pending
  {
    hide DriverAdd, AddError;
    AddSubmits(st.driver, TokenOf(st, id), TokenOf(st, a), TokenOf(st, b), TokenOf(st, out), add);
  }

  /**
   * Submits and waits grow together, by one, exactly when a call flushes while encodes are pending, its own included; a
   * flush leaves none pending and nothing but a launch or an add that is accepted adds one.
   */
  lemma NextSubmits(st: State, call: Call, plan: FailurePlan)
    ensures var d, after := st.driver, Next(st, call, plan).st.driver;
      var flushed := Flushes(st, call, plan);
      var pending := d.pending + if Encodes(st, call, plan) then 1 else 0;
      && after.submits == d.submits + (if flushed && pending > 0 then 1 else 0)
      && after.waits == d.waits + (if flushed && pending > 0 then 1 else 0)
      && after.pending == if flushed then 0 else pending
  {
    hide CopyInto, DriverLaunch, AdmitError, BufferError, BufferOf, Fails, HasBytes, DriverFree, Bounds, Whole,
         AddBuffers, AddEncodes;
    match call
    case DoLoad(image) =>
    case DoAlloc(len) =>
    case DoRetain(file) =>
    case DoCopyIn(id, slice) =>
      if BufferOf(st, id).Ok? {
        CopyIntoSubmits(st.driver, BufferOf(st, id).value.token, LenOf(st, id), slice, plan);
        LenOfBuffer(st, id);
      }
    case DoLaunch(id, entry, bs, kernel) =>
      if Permutation(ByIndex(bs)) {
        LaunchSubmits(st.driver, Bounds(st, InSlotOrder(ByIndex(bs))), kernel, plan);
      }
    case DoLaunchWhole(id, entry, ids, kernel) => LaunchSubmits(st.driver, Whole(st, ids), kernel, plan);
    case DoElementwiseAdd(id, a, b, out, add) => AddBuffersSubmits(st, id, a, b, out, add, plan);
    case DoSync =>
    case DoReadback(id) =>
    case DoRelease(id) =>
      if id in st.handles {
        FreeSubmits(st.driver, st.handles[id].token);
      }
  }

  lemma LenOfBuffer(st: State, id: nat)
    requires BufferOf(st, id).Ok?
    ensures BufferOf(st, id).value.kind == BufferHandle(LenOf(st, id))
  {
  }

  lemma FreeSubmits(d: Driver, token: nat)
    ensures SameCommands(d, DriverFree(d, token))
  {
  }

  /** Launches and adds of a run that were accepted. */
  ghost function Encoded(st: State, calls: seq<Call>, plan: FailurePlan): nat {
    if calls == [] then 0
    else
      var init, last := calls[..|calls| - 1], calls[|calls| - 1];
      Encoded(st, init, plan) + if Encodes(Run(st, init, plan), last, plan) then 1 else 0
  }

  /** Every command buffer carries at least one encode: idle syncs and readbacks submit nothing. */
  lemma {:induction false} SubmitsCarryEncodes(st: State, calls: seq<Call>, plan: FailurePlan)
    requires Initial(st)
    ensures var d := Run(st, calls, plan).driver;
      d.submits + d.pending <= Encoded(st, calls, plan)
  {
    hide Next, Encodes, Flushes;
    if calls != [] {
      var init, last := calls[..|calls| - 1], calls[|calls| - 1];
      SubmitsCarryEncodes(st, init, plan);
      NextSubmits(Run(st, init, plan), last, plan);
    }
  }

  // ---- ids ----

  /** A call hands out at most the next id and otherwise only takes handles away. */
  lemma NextIds(st: State, call: Call, plan: FailurePlan, id: nat)
    ensures var r := Next(st, call, plan).st;
      && st.nextId <= r.nextId
      && (id in r.handles ==> id in st.handles || id == st.nextId)
      && (id in r.handles && id in st.handles && id != st.nextId ==> r.handles[id] == st.handles[id])
      && (id in st.handles && id !in r.handles ==> call == DoRelease(id))
      && (id == st.nextId && id in r.handles && id !in st.handles ==> r.nextId > id)
  {
    hide CopyInto, DriverLaunch, AdmitError, BufferError, BufferOf, Fails, HasBytes, DriverFree, Bounds, Whole,
         DriverCopyOut, DriverSync, AddModule, AddBuffer, Count, EncodeAdd, AddError;
    match call
    case DoLoad(image) =>
    case DoAlloc(len) =>
    case DoRetain(file) =>
    case DoCopyIn(_, slice) =>
    case DoLaunch(_, entry, bs, kernel) =>
    case DoLaunchWhole(_, entry, ids, kernel) =>
    case DoElementwiseAdd(_, a, b, out, add) =>
    case DoSync =>
    case DoReadback(_) =>
    case DoRelease(_) =>
  }

  /** A released id is never live again, so it can never be launched, read back or released a second time. */
  lemma {:induction false} ReleasedStaysDead(st: State, calls: seq<Call>, plan: FailurePlan, id: nat)
    requires id < st.nextId && id !in st.handles
    ensures id < Run(st, calls, plan).nextId && id !in Run(st, calls, plan).handles
  {
    hide Next;
    if calls != [] {
      var init, last := calls[..|calls| - 1], calls[|calls| - 1];
      ReleasedStaysDead(st, init, plan, id);
      NextIds(Run(st, init, plan), last, plan, id);
    }
  }

  /** A live handle keeps its kind and token over any run that does not release it. */
  lemma {:induction false} HandleStaysLive(st: State, calls: seq<Call>, plan: FailurePlan, id: nat)
    requires id < st.nextId && id in st.handles && DoRelease(id) !in calls
    ensures id in Run(st, calls, plan).handles && Run(st, calls, plan).handles[id] == st.handles[id]
    ensures id < Run(st, calls, plan).nextId
  {
    hide Next;
    if calls != [] {
      var init, last := calls[..|calls| - 1], calls[|calls| - 1];
      assert calls == init + [last];
      HandleStaysLive(st, init, plan, id);
      NextIds(Run(st, init, plan), last, plan, id);
    }
  }

  /** A fresh buffer reads back as zeros. */
  lemma AllocThenReadback(st: State, len: usize, plan: FailurePlan)
    requires Allocate(st, len, plan).reply.NewHandle?
    ensures var o := Allocate(st, len, plan);
      var r := ReadbackBytes(o.st, o.reply.id, plan).reply;
      if Fails(o.st.driver, Readback, plan) then r == Failed(DriverFault) else r == Bytes(seq(len, _ => 0))
  {
    hide Fails;
    var o := Allocate(st, len, plan);
    var h := o.st.handles[o.reply.id];
    assert h == Handle(BufferHandle(len), st.driver.nextToken);
    assert o.st.driver.buffers[h.token] == Slot(seq(len, _ => 0), 0, len);
    assert seq(len, _ => 0)[0..len] == seq(len, _ => 0);
  }

  // ---- the two bounds checks agree ----

  /** Every binding names a buffer of whole words. */
  ghost predicate WholeWords(st: State, ordered: seq<LaunchBinding>) {
    forall b | b in ordered :: LenOf(st, b.handle) % 4 == 0
  }

  lemma BindingComposes(st: State, b: LaunchBinding)
    requires Inv(st) && BufferOf(st, b.handle).Ok? && LenOf(st, b.handle) % 4 == 0
    requires Admits(LenOf(st, b.handle), b.offset, b.span)
    ensures var token := st.handles[b.handle].token;
      token in st.driver.buffers && Composes(st.driver.buffers[token], Bound(token, b.offset, b.span))
  {
    hide Inv, Compose;
    LiveBuffer(st, b.handle);
    var slot := st.driver.buffers[st.handles[b.handle].token];
    ComposeIff(slot.region, b.offset, b.span, |slot.bytes|);
  }

  /** Whatever the session admits for whole-word handles, the driver composes. */
  lemma {:induction false} AdmittedCompose(st: State, ordered: seq<LaunchBinding>)
    requires Inv(st) && WholeWords(st, ordered) && AdmitError(st, ordered).None?
    ensures ComposeError(st.driver.buffers, Bounds(st, ordered)).None?
  {
    hide Inv, Composes, BufferOf, Admits;
    if ordered != [] {
      var b := ordered[0];
      assert ordered == [b] + ordered[1..];
      assert BufferOf(st, b.handle).Ok?;
      LenOfBuffer(st, b.handle);
      assert AdmitError(st, ordered[1..]).None? && Admits(LenOf(st, b.handle), b.offset, b.span);
      BindingComposes(st, b);
      AdmittedCompose(st, ordered[1..]);
      BoundsTail(st, ordered);
    }
  }

  lemma BoundsTail(st: State, ordered: seq<LaunchBinding>)
    requires ordered != [] && BufferOf(st, ordered[0].handle).Ok?
    ensures Bounds(st, ordered)[1..] == Bounds(st, ordered[1..])
    ensures Bounds(st, ordered)[0] == Bound(st.handles[ordered[0].handle].token, ordered[0].offset, ordered[0].span)
  {
  }

  /** So a launch the session admits fails only by an injected fault or by the kernel itself. */
  lemma AdmittedReachesKernel(st: State, ordered: seq<LaunchBinding>, kernel: KernelRun, plan: FailurePlan)
    requires Inv(st) && WholeWords(st, ordered) && AdmitError(st, ordered).None?
    ensures Dispatch(st, ordered, kernel, plan).reply
         == (if Fails(st.driver, Launch, plan) then Failed(DriverFault)
             else if kernel.Refused? then Failed(kernel.error) else Done)
  {
    hide Inv, ComposeError, AdmitError, Bounds, ApplyWrite, Fails, WholeWords;
    AdmittedCompose(st, ordered);
  }

  // ---- copies come back ----

  /** The mapped bytes at a slice's address are the slice's bytes. */
  ghost predicate FaithfulSlice(d: Driver, slice: Slice) {
    slice.place.Some? ==> forall m | m in d.maps && Contains(m, slice.place.value, |slice.bytes|) ::
      MappedBytes(m, slice.place.value, slice.bytes)
  }

  ghost predicate MappedBytes(m: Mapping, addr: usize, bytes: seq<u8>) {
    var from := addr - m.start;
    0 <= from && from + |bytes| <= |m.bytes| && m.bytes[from..from + |bytes|] == bytes
  }

  /** The bytes behind the slot's remainder start with `bytes`. */
  ghost predicate StartsWith(slot: Slot, bytes: seq<u8>) {
    HasBytes(slot, |bytes|) && slot.bytes[slot.region..slot.region + |bytes|] == bytes
  }

  lemma PartOfPart(m: seq<u8>, from: nat, n: nat, offset: nat, k: nat)
    requires from + n <= |m| && offset + k <= n
    ensures m[from..from + n][offset..offset + k] == m[from + offset..from + offset + k]
  {
    var a, b := m[from..from + n][offset..offset + k], m[from + offset..from + offset + k];
    forall i | 0 <= i < k
      ensures a[i] == b[i]
    {
    }
    assert a == b;
  }

  lemma WrappedStarts(w: Wrap, m: Mapping, addr: usize, bytes: seq<u8>, len: nat)
    requires SoundWrap(w, m, addr, |bytes|) && MappedBytes(m, addr, bytes)
    ensures StartsWith(Slot(PageBytes(w), w.offset, len), bytes)
  {
    hide RoundUp, SoundWrap;
    WrapCovers(w, m, addr, |bytes|);
    RoundUpFacts(|bytes|, 4);
    PartOfPart(m.bytes, w.ptr - m.start, w.len, w.offset, |bytes|);
  }

  lemma CopiedStarts(d: Driver, slot: Slot, slice: Slice)
    requires FaithfulSlice(d, slice) && CopiedSlot(slot, slice, WrapOf(d, slice)).Ok?
    ensures StartsWith(CopiedSlot(slot, slice, WrapOf(d, slice)).value, slice.bytes)
  {
    hide WrapFor, SoundWrap, MappedBytes, PageBytes, Contains;
    if WrapOf(d, slice).Some? {
      var w := WrapOf(d, slice).value;
      WrapForSound(d.maps, slice.place.value, |slice.bytes|);
      WrappedStarts(w, w.file, slice.place.value, slice.bytes, slot.len);
    }
  }

  lemma DriverCopyStarts(d: Driver, token: nat, slice: Slice, plan: FailurePlan)
    requires FaithfulSlice(d, slice) && DriverCopyIn(d, token, slice, plan).error.None?
    ensures token in DriverCopyIn(d, token, slice, plan).driver.buffers
    ensures StartsWith(DriverCopyIn(d, token, slice, plan).driver.buffers[token], slice.bytes)
  {
    hide FaithfulSlice, CopiedSlot, StartsWith, Fails, WrapOf;
    CopiedStarts(d, d.buffers[token], slice);
  }

  lemma PaddedStarts(slot: Slot, slice: Slice, len: nat)
    requires |slice.bytes| <= len && StartsWith(slot, Padded(slice, len).bytes)
    ensures StartsWith(slot, slice.bytes)
  {
    var padded := Padded(slice, len).bytes;
    assert slot.bytes[slot.region..slot.region + |slice.bytes|] == padded[..|slice.bytes|];
  }

  lemma CopyIntoStarts(d: Driver, token: nat, len: nat, slice: Slice, plan: FailurePlan)
    requires FaithfulSlice(d, slice) && CopyInto(d, token, len, slice, plan).error.None?
    ensures token in CopyInto(d, token, len, slice, plan).driver.buffers
    ensures StartsWith(CopyInto(d, token, len, slice, plan).driver.buffers[token], slice.bytes)
  {
    hide FaithfulSlice, DriverCopyIn, StartsWith;
    var first := DriverCopyIn(d, token, slice, plan);
    if first.error.None? {
      DriverCopyStarts(d, token, slice, plan);
    } else {
      OwnedFaithful(first.driver, Padded(slice, len));
      DriverCopyStarts(first.driver, token, Padded(slice, len), plan);
      PaddedStarts(DriverCopyIn(first.driver, token, Padded(slice, len), plan).driver.buffers[token], slice, len);
    }
  }

  lemma OwnedFaithful(d: Driver, slice: Slice)
    requires slice.place.None?
    ensures FaithfulSlice(d, slice)
  {
  }

  /**
   * After a successful copy into a whole-word handle, a readback returns exactly the handle's length, starting
   * with the bytes copied in, unless the readback itself is made to fail.
   */
  lemma CopyThenReadback(st: State, id: nat, slice: Slice, plan: FailurePlan)
    requires Inv(st) && FaithfulSlice(st.driver, slice) && LenOf(st, id) % 4 == 0
    requires CopyInBytes(st, id, slice, plan).reply == Done
    ensures var mid := CopyInBytes(st, id, slice, plan).st;
      var r := ReadbackBytes(mid, id, plan).reply;
      if Fails(mid.driver, Readback, plan) then r == Failed(DriverFault)
      else r.Bytes? && |r.bytes| == LenOf(st, id) && slice.bytes <= r.bytes
  {
    hide Inv, FaithfulSlice, CopyInto, Fails, SlotOk, StartsWith;
    var h := st.handles[id];
    var r := CopyInto(st.driver, h.token, h.kind.len, slice, plan);
    var mid := st.(driver := r.driver);
    CopyInBytesKeeps(st, id, slice, plan);
    LiveBuffer(mid, id);
    CopyIntoStarts(st.driver, h.token, h.kind.len, slice, plan);
    CopyIntoLength(st.driver, h.token, h.kind.len, slice, plan);
    ReadStarts(r.driver.buffers[h.token], slice.bytes, h.kind.len);
  }

  lemma CopyIntoLength(d: Driver, token: nat, len: nat, slice: Slice, plan: FailurePlan)
    requires CopyInto(d, token, len, slice, plan).error.None?
    ensures |slice.bytes| <= len
  {
    hide DriverCopyIn;
  }

  lemma ReadStarts(slot: Slot, bytes: seq<u8>, len: nat)
    requires StartsWith(slot, bytes) && SlotOk(slot) && slot.len == len && len % 4 == 0 && |bytes| <= len
    ensures HasBytes(slot, len) && bytes <= slot.bytes[slot.region..slot.region + len]
  {
    assert slot.bytes[slot.region..slot.region + len][..|bytes|] == slot.bytes[slot.region..slot.region + |bytes|];
  }

  // ---- buffers do not interfere ----

  /** The buffer behind `t`, if any, is the same in both. */
  ghost predicate SameSlot(d: Driver, after: Driver, t: nat) {
    t in d.buffers ==> t in after.buffers && after.buffers[t] == d.buffers[t]
  }

  lemma CopyInFrame(d: Driver, token: nat, slice: Slice, plan: FailurePlan, t: nat)
    requires t != token
    ensures SameSlot(d, DriverCopyIn(d, token, slice, plan).driver, t)
  {
    hide CopiedSlot, Fails, WrapOf;
  }

  lemma CopyIntoFrame(d: Driver, token: nat, len: nat, slice: Slice, plan: FailurePlan, t: nat)
    requires t != token
    ensures SameSlot(d, CopyInto(d, token, len, slice, plan).driver, t)
  {
    hide DriverCopyIn;
    CopyInFrame(d, token, slice, plan, t);
    if |slice.bytes| <= len {
      CopyInFrame(DriverCopyIn(d, token, slice, plan).driver, token, Padded(slice, len), plan, t);
    }
  }

  lemma LaunchFrame(d: Driver, bounds: seq<Bound>, kernel: KernelRun, plan: FailurePlan, t: nat)
    requires forall k | 0 <= k < |bounds| :: bounds[k].token != t
    ensures SameSlot(d, DriverLaunch(d, bounds, kernel, plan).driver, t)
  {
    hide ComposeError, Fails;
  }

  lemma FreeFrame(d: Driver, token: nat, t: nat)
    requires t != token
    ensures SameSlot(d, DriverFree(d, token), t)
  {
  }

  /** The calls that may change or drop the buffer of a handle. */
  predicate Touches(call: Call, id: nat) {
    match call
    case DoCopyIn(other, _) => other == id
    case DoLaunch(_, _, bs, _) => exists b | b in bs :: b.handle == id
    case DoLaunchWhole(_, _, ids, _) => id in ids
    case DoElementwiseAdd(_, _, _, out, _) => out == id
    case DoRelease(other) => other == id
    case _ => false
  }

  lemma OtherToken(st: State, id: nat, other: nat)
    requires Inv(st) && id in st.handles && other in st.handles && other != id
    ensures st.handles[other].token != st.handles[id].token
  {
    hide SlotOk, TokenLive;
  }

  lemma LaunchIsolated(st: State, ordered: seq<LaunchBinding>, kernel: KernelRun, plan: FailurePlan, id: nat)
    requires Inv(st) && id in st.handles && AdmitError(st, ordered).None?
    requires forall k | 0 <= k < |ordered| :: ordered[k].handle != id
    ensures SameSlot(st.driver, DriverLaunch(st.driver, Bounds(st, ordered), kernel, plan).driver, st.handles[id].token)
  {
    hide Inv, DriverLaunch, BufferOf, Admits, SameSlot;
    forall k | 0 <= k < |ordered|
      ensures Bounds(st, ordered)[k].token != st.handles[id].token
    {
      AdmittedLive(st, ordered, k);
      OtherToken(st, id, ordered[k].handle);
    }
    LaunchFrame(st.driver, Bounds(st, ordered), kernel, plan, st.handles[id].token);
  }

  lemma {:induction false} AdmittedLive(st: State, ordered: seq<LaunchBinding>, k: nat)
    requires AdmitError(st, ordered).None? && k < |ordered|
    ensures ordered[k].handle in st.handles
    decreases |ordered|
  {
    hide Admits;
    if k > 0 {
      AdmittedLive(st, ordered[1..], k - 1);
    }
  }

  lemma {:induction false} BuffersLive(st: State, ids: seq<nat>, k: nat)
    requires BufferError(st, ids).None? && k < |ids|
    ensures ids[k] in st.handles && BufferOf(st, ids[k]).Ok?
    decreases |ids|
  {
    if k > 0 {
      BuffersLive(st, ids[1..], k - 1);
    }
  }

  lemma WholeIsolated(st: State, ids: seq<nat>, kernel: KernelRun, plan: FailurePlan, id: nat)
    requires Inv(st) && id in st.handles && BufferError(st, ids).None? && id !in ids
    ensures SameSlot(st.driver, DriverLaunch(st.driver, Whole(st, ids), kernel, plan).driver, st.handles[id].token)
  {
    hide Inv, DriverLaunch, BufferError, SameSlot;
    forall k | 0 <= k < |ids|
      ensures Whole(st, ids)[k].token != st.handles[id].token
    {
      BuffersLive(st, ids, k);
      OtherToken(st, id, ids[k]);
    }
    LaunchFrame(st.driver, Whole(st, ids), kernel, plan, st.handles[id].token);
  }

  /** Slot order holds the bindings that were passed, so it names no other handle. */
  lemma OrderedNames(bs: seq<LaunchBinding>, id: nat, k: nat)
    requires Permutation(ByIndex(bs)) && k < |bs| && !exists b | b in bs :: b.handle == id
    ensures k < |InSlotOrder(ByIndex(bs))| && InSlotOrder(ByIndex(bs))[k].handle != id
  {
    var h := Holder(ByIndex(bs), k);
    assert InSlotOrder(ByIndex(bs))[k] == bs[h] && bs[h] in bs;
  }

  lemma AddIsolated(st: State, program: nat, a: nat, b: nat, out: nat, add: Adder, id: nat)
    requires Inv(st) && id in st.handles && AddError(st, program, a, b, out).None? && out != id
    ensures SameSlot(st.driver, EncodeAdd(st, program, a, b, out, add).driver, st.handles[id].token)
  {
    hide Inv, ViewOf, SumInto;
    BuffersLive(st, [a, b, out], 2);
    OtherToken(st, id, out);
  }

  lemma NextIsolated(st: State, call: Call, plan: FailurePlan, id: nat)
    requires Inv(st) && id in st.handles && !Touches(call, id)
    ensures SameSlot(st.driver, Next(st, call, plan).st.driver, st.handles[id].token)
  {
    hide Inv, CopyInto, DriverLaunch, AdmitError, BufferError, Fails, HasBytes, DriverFree, Bounds, Whole, InSlotOrder,
         Permutation, AddError, EncodeAdd;
    var t := st.handles[id].token;
    HandleBelowNext(st, id);
    match call
    case DoLoad(image) =>
    case DoAlloc(len) =>
    case DoRetain(file) =>
    case DoCopyIn(other, slice) =>
      if BufferOf(st, other).Ok? {
        OtherToken(st, id, other);
        CopyIntoFrame(st.driver, st.handles[other].token, LenOf(st, other), slice, plan, t);
      }
    case DoLaunch(_, entry, bs, kernel) =>
      if Permutation(ByIndex(bs)) && AdmitError(st, InSlotOrder(ByIndex(bs))).None? {
        OrderIsolated(st, bs, id);
        LaunchIsolated(st, InSlotOrder(ByIndex(bs)), kernel, plan, id);
      }
    case DoLaunchWhole(_, entry, ids, kernel) =>
      if BufferError(st, ids).None? {
        WholeIsolated(st, ids, kernel, plan, id);
      }
    case DoElementwiseAdd(program, a, b, out, add) =>
      if AddError(st, program, a, b, out).None? {
        AddIsolated(st, program, a, b, out, add, id);
      }
    case DoSync =>
    case DoReadback(_) =>
    case DoRelease(other) =>
      if other in st.handles {
        OtherToken(st, id, other);
        FreeFrame(st.driver, st.handles[other].token, t);
      }
  }

  lemma OrderIsolated(st: State, bs: seq<LaunchBinding>, id: nat)
    requires Permutation(ByIndex(bs)) && !Touches(DoLaunch(0, "", bs, Ran(None)), id)
    ensures forall k | 0 <= k < |InSlotOrder(ByIndex(bs))| :: InSlotOrder(ByIndex(bs))[k].handle != id
  {
    hide InSlotOrder, Permutation;
    InSlotOrderArranged(ByIndex(bs));
    forall k | 0 <= k < |bs|
      ensures InSlotOrder(ByIndex(bs))[k].handle != id
    {
      OrderedNames(bs, id, k);
    }
  }

  lemma HandleBelowNext(st: State, id: nat)
    requires Inv(st) && id in st.handles
    ensures st.handles[id].token < st.driver.nextToken
  {
    hide SlotOk;
    HandlesBelowNext(st);
  }

  /**
   * Isolation: over any run that neither copies into, binds nor releases a handle, its buffer keeps every byte,
   * whatever other buffers are allocated, wrapped, launched on, failed or released.
   */
  lemma {:induction false} RunIsolated(st: State, calls: seq<Call>, plan: FailurePlan, id: nat)
    requires Inv(st) && id in st.handles && forall c | c in calls :: !Touches(c, id)
    ensures var end := Run(st, calls, plan);
      Inv(end) && id in end.handles && end.handles[id] == st.handles[id]
      && SameSlot(st.driver, end.driver, st.handles[id].token)
    decreases |calls|
  {
    hide Inv, Next, SameSlot, Touches;
    if calls == [] {
      assert SameSlot(st.driver, st.driver, st.handles[id].token) by { SlotUnchanged(st.driver, st.handles[id].token); }
    } else {
      var init, last := calls[..|calls| - 1], calls[|calls| - 1];
      assert calls == init + [last];
      RunIsolated(st, init, plan, id);
      var mid := Run(st, init, plan);
      NextKeeps(mid, last, plan);
      NextIsolated(mid, last, plan, id);
      NextIds(mid, last, plan, id);
      ReleaseTouches(last, id);
      IdBelowNext(mid, id);
      SlotsCompose(st.driver, mid.driver, Next(mid, last, plan).st.driver, st.handles[id].token);
    }
  }

  lemma SlotUnchanged(d: Driver, t: nat)
    ensures SameSlot(d, d, t)
  {
  }

  lemma SlotsCompose(a: Driver, b: Driver, c: Driver, t: nat)
    requires SameSlot(a, b, t) && SameSlot(b, c, t)
    ensures SameSlot(a, c, t)
  {
  }

  lemma ReleaseTouches(call: Call, id: nat)
    requires !Touches(call, id)
    ensures call != DoRelease(id)
  {
  }

  lemma IdBelowNext(st: State, id: nat)
    requires Inv(st) && id in st.handles
    ensures id < st.nextId
  {
    hide DriverOk, Linked;
  }

  /** Bytes copied into a whole-word handle are still read back after any run that does not touch it. */
  lemma CopyPersists(st: State, id: nat, slice: Slice, calls: seq<Call>, plan: FailurePlan)
    requires Inv(st) && FaithfulSlice(st.driver, slice) && LenOf(st, id) % 4 == 0
    requires CopyInBytes(st, id, slice, plan).reply == Done && forall c | c in calls :: !Touches(c, id)
    ensures var end := Run(CopyInBytes(st, id, slice, plan).st, calls, plan);
      var r := ReadbackBytes(end, id, plan).reply;
      if Fails(end.driver, Readback, plan) then r == Failed(DriverFault)
      else r.Bytes? && |r.bytes| == LenOf(st, id) && slice.bytes <= r.bytes
  {
    hide Inv, FaithfulSlice, CopyInto, Fails, SlotOk, StartsWith, Run, Touches;
    var h := st.handles[id];
    var mid := st.(driver := CopyInto(st.driver, h.token, h.kind.len, slice, plan).driver);
    CopyInBytesKeeps(st, id, slice, plan);
    LiveBuffer(mid, id);
    CopyIntoStarts(st.driver, h.token, h.kind.len, slice, plan);
    CopyIntoLength(st.driver, h.token, h.kind.len, slice, plan);
    RunIsolated(mid, calls, plan, id);
    LiveBuffer(Run(mid, calls, plan), id);
    ReadStarts(mid.driver.buffers[h.token], slice.bytes, h.kind.len);
  }

  /** A short slice that lies in no mapping is followed by zeros up to the handle's length. */
  lemma ShortCopyPads(st: State, id: nat, slice: Slice, plan: FailurePlan)
    requires Inv(st) && WrapOf(st.driver, slice).None? && LenOf(st, id) % 4 == 0
    requires CopyInBytes(st, id, slice, plan).reply == Done
    ensures var mid := CopyInBytes(st, id, slice, plan).st;
      && |slice.bytes| <= LenOf(st, id)
      && (!Fails(mid.driver, Readback, plan) ==>
            ReadbackBytes(mid, id, plan).reply == Bytes(slice.bytes + seq(LenOf(st, id) - |slice.bytes|, _ => 0)))
  {
    hide Inv, Fails, WrapOf;
    LiveBuffer(st, id);
    var h := st.handles[id];
    var zeros: seq<u8> := seq(h.kind.len - |slice.bytes|, _ => 0);
    OwnedCopy(st.driver, h.token, slice, plan);
    var first := DriverCopyIn(st.driver, h.token, slice, plan);
    if |slice.bytes| == h.kind.len {
      assert slice.bytes + zeros == slice.bytes;
    } else {
      var padded := Padded(slice, h.kind.len);
      assert padded.bytes == slice.bytes + zeros;
      OwnedNeverWraps(first.driver, padded);
      OwnedCopy(first.driver, h.token, padded, plan);
    }
    var slot := CopyInBytes(st, id, slice, plan).st.driver.buffers[h.token];
    assert slot.bytes[0..h.kind.len] == slot.bytes;
  }

  /** A copy that is not wrapped replaces the whole of an owned buffer of the same size, or changes no buffer. */
  lemma OwnedCopy(d: Driver, token: nat, slice: Slice, plan: FailurePlan)
    requires WrapOf(d, slice).None? && token in d.buffers
    ensures var r, slot := DriverCopyIn(d, token, slice, plan), d.buffers[token];
      if r.error.None? then slot.region == 0 && |slot.bytes| == |slice.bytes|
        && r.driver.buffers == d.buffers[token := slot.(bytes := slice.bytes)]
      else r.driver.buffers == d.buffers
  {
    hide WrapOf, Fails;
  }

  // ---- what a launch binds and writes ----

  /** Session bindings reach the driver in the order of their declared indices: slot i holds what declared i. */
  lemma LaunchesInSlotOrder(bs: seq<LaunchBinding>)
    ensures Permutation(ByIndex(bs))
       <==> && (forall k | 0 <= k < |bs| :: bs[k].index < |bs|)
            && (forall j, k | 0 <= j < k < |bs| :: bs[j].index != bs[k].index)
    ensures Permutation(ByIndex(bs)) ==>
      var slots := InSlotOrder(ByIndex(bs));
      |slots| == |bs| && forall k | 0 <= k < |bs| :: bs[k].index < |bs| && slots[bs[k].index] == bs[k]
  {
    hide InSlotOrder;
    assert forall k | 0 <= k < |bs| :: ByIndex(bs)[k].index == bs[k].index;
    if Permutation(ByIndex(bs)) {
      InSlotOrderArranged(ByIndex(bs));
    }
  }

  /** A kernel's write changes the bytes of the one buffer it is bound to, in place, and no other buffer. */
  lemma WriteMeans(buffers: map<nat, Slot>, bounds: seq<Bound>, w: KernelWrite, t: nat)
    requires t in buffers
    ensures var after := ApplyWrite(buffers, bounds, Some(w));
      && after.Keys == buffers.Keys && after[t].region == buffers[t].region && after[t].len == buffers[t].len
      && after[t].bytes ==
         (if w.binding < |bounds| && bounds[w.binding].token == t && |w.bytes| == |buffers[t].bytes| then w.bytes
          else buffers[t].bytes)
    ensures ApplyWrite(buffers, bounds, None) == buffers
  {
  }

  /** After an accepted launch whose kernel rewrites a slot, a readback of the handle bound there sees the new bytes. */
  lemma LaunchThenReadback(st: State, ordered: seq<LaunchBinding>, w: KernelWrite, plan: FailurePlan)
    requires Inv(st) && Dispatch(st, ordered, Ran(Some(w)), plan).reply == Done
    requires w.binding < |ordered| && LenOf(st, ordered[w.binding].handle) % 4 == 0
    requires var token := TokenOf(st, ordered[w.binding].handle);
      token in st.driver.buffers && |w.bytes| == |st.driver.buffers[token].bytes|
    ensures var mid, id := Dispatch(st, ordered, Ran(Some(w)), plan).st, ordered[w.binding].handle;
      var region := st.driver.buffers[TokenOf(st, id)].region;
      && region + LenOf(st, id) <= |w.bytes|
      && (!Fails(mid.driver, Readback, plan) ==>
            ReadbackBytes(mid, id, plan).reply == Bytes(w.bytes[region..region + LenOf(st, id)]))
  {
    hide Inv, Fails, AdmitError, ComposeError, ApplyWrite;
    var id := ordered[w.binding].handle;
    assert AdmitError(st, ordered).None?;
    AdmittedBuffer(st, ordered, w.binding);
    LiveBuffer(st, id);
    WriteMeans(st.driver.buffers, Bounds(st, ordered), w, TokenOf(st, id));
  }

  lemma {:induction false} AdmittedBuffer(st: State, ordered: seq<LaunchBinding>, k: nat)
    requires AdmitError(st, ordered).None? && k < |ordered|
    ensures BufferOf(st, ordered[k].handle).Ok?
    decreases |ordered|
  {
    hide Admits;
    if k > 0 {
      AdmittedBuffer(st, ordered[1..], k - 1);
    }
  }

  // ---- adding buffers ----

  /** A whole-word handle is viewed whole. */
  lemma WholeView(st: State, id: nat)
    requires Inv(st) && BufferOf(st, id).Ok? && LenOf(st, id) % 4 == 0
    ensures TokenOf(st, id) in st.driver.buffers
    ensures var slot := st.driver.buffers[TokenOf(st, id)];
      && slot.region + LenOf(st, id) <= |slot.bytes|
      && ViewOf(st.driver, TokenOf(st, id)) == Ok(slot.bytes[slot.region..slot.region + LenOf(st, id)])
  {
    hide Inv;
    LiveBuffer(st, id);
  }

  lemma AddErrorFacts(st: State, program: nat, a: nat, b: nat, out: nat)
    requires AddError(st, program, a, b, out).None?
    ensures ModuleError(st, program).None?
    ensures BufferOf(st, a).Ok? && BufferOf(st, b).Ok? && BufferOf(st, out).Ok?
    ensures LenOf(st, a) == LenOf(st, b) == LenOf(st, out) && LenOf(st, a) % 4 == 0
  {
    hide BufferOf, ModuleError, BufferError;
    BuffersLive(st, [a, b, out], 0);
    BuffersLive(st, [a, b, out], 1);
    BuffersLive(st, [a, b, out], 2);
  }

  /** The driver accepts every add the session admits exactly when nothing is left behind the output's bytes. */
  lemma AddEncodesIff(st: State, program: nat, a: nat, b: nat, out: nat, add: Adder)
    requires Inv(st) && AddError(st, program, a, b, out).None?
    ensures TokenOf(st, out) in st.driver.buffers
    ensures var slot := st.driver.buffers[TokenOf(st, out)];
      AddEncodes(st, program, a, b, out, add) <==> slot.region + LenOf(st, out) == |slot.bytes|
  {
    hide Inv, AddError, ViewOf, SumInto, BufferOf, LenOf, HasBytes;
    AddErrorFacts(st, program, a, b, out);
    WholeView(st, a);
    WholeView(st, b);
    WholeView(st, out);
    LiveModule(st, program);
  }

  lemma LiveModule(st: State, id: nat)
    requires Inv(st) && ModuleError(st, id).None?
    ensures TokenOf(st, id) in st.driver.modules
  {
    hide SlotOk;
    assert TokenLive(st.handles[id], st.driver);
  }

  /** What an accepted add leaves in the output: the sums, and everything before and past them as it was. */
  lemma AddWrites(d: Driver, program: nat, a: nat, b: nat, out: nat, add: Adder)
    requires DriverAdd(d, program, a, b, out, add).error.None?
    ensures ViewOf(d, a).Ok? && ViewOf(d, b).Ok? && out in d.buffers && d.buffers[out].region <= |d.buffers[out].bytes|
    ensures var left, right, slot := ViewOf(d, a).value, ViewOf(d, b).value, d.buffers[out];
      var after := DriverAdd(d, program, a, b, out, add).driver.buffers;
      && |left| == |right| == |slot.bytes| - slot.region && out in after
      && after[out] == SumInto(slot, left, right, add, |left| / 4)
  {
    hide SumInto;
  }

  lemma SumsRead(slot: Slot, left: seq<u8>, right: seq<u8>, add: Adder)
    requires slot.region <= |slot.bytes| && |left| == |right| == |slot.bytes| - slot.region
    ensures var after := SumInto(slot, left, right, add, |left| / 4);
      && |after.bytes| == |slot.bytes| && after.region == slot.region && after.len == slot.len
      && var read := after.bytes[after.region..];
         |read| == |left|
         && forall i | 0 <= i < |left| / 4 :: WordAt(read, i) == add(WordAt(left, i), WordAt(right, i))
  {
    hide WordAt, Summed;
    var view := slot.bytes[slot.region..];
    SummedAt(view, left, right, add, |left| / 4);
    var sums := Summed(view, left, right, add, |left| / 4);
    assert (slot.bytes[..slot.region] + sums)[slot.region..] == sums;
  }

  /** After an accepted add a readback of the output holds the sum of every word, whichever handles are the same. */
  lemma AddThenReadback(st: State, program: nat, a: nat, b: nat, out: nat, add: Adder, plan: FailurePlan)
    requires Inv(st) && AddBuffers(st, program, a, b, out, add, plan).reply == Done
    ensures var mid := AddBuffers(st, program, a, b, out, add, plan).st;
      var x, y := ReadbackBytes(st, a, map[]).reply, ReadbackBytes(st, b, map[]).reply;
      var r := ReadbackBytes(mid, out, plan).reply;
      && x.Bytes? && y.Bytes? && |x.bytes| == |y.bytes| == LenOf(st, out) && LenOf(st, out) % 4 == 0
      && (Fails(mid.driver, Readback, plan) ==> r == Failed(DriverFault))
      && (!Fails(mid.driver, Readback, plan) ==> r.Bytes? && SumsOf(r.bytes, x.bytes, y.bytes, add))
  {
    hide Inv, AddError, ViewOf, Fails, SumInto, WordAt, DriverAdd;
    AddErrorFacts(st, program, a, b, out);
    ReadsView(st, a);
    ReadsView(st, b);
    var encoded := EncodeAdd(st, program, a, b, out, add).driver;
    AddEncodesIff(st, program, a, b, out, add);
    AddWrites(st.driver, TokenOf(st, program), TokenOf(st, a), TokenOf(st, b), TokenOf(st, out), add);
    var left, right := ViewOf(st.driver, TokenOf(st, a)).value, ViewOf(st.driver, TokenOf(st, b)).value;
    SumsRead(st.driver.buffers[TokenOf(st, out)], left, right, add);
    var mid := AddBuffers(st, program, a, b, out, add, plan).st;
    assert mid.driver.buffers == encoded.buffers && mid.handles == st.handles;
    ReadsAll(mid, out, plan);
  }

  /** Every word of `r` is the sum of those of `x` and `y`. */
  ghost predicate SumsOf(r: seq<u8>, x: seq<u8>, y: seq<u8>, add: Adder) {
    && |r| == |x| == |y|
    && forall i | 0 <= i < |r| / 4 :: WordAt(r, i) == add(WordAt(x, i), WordAt(y, i))
  }

  /** A readback of a whole-word handle that is not made to fail returns its view. */
  lemma ReadsView(st: State, id: nat)
    requires Inv(st) && BufferOf(st, id).Ok? && LenOf(st, id) % 4 == 0
    ensures ViewOf(st.driver, TokenOf(st, id)).Ok?
    ensures ReadbackBytes(st, id, map[]).reply == Bytes(ViewOf(st.driver, TokenOf(st, id)).value)
    ensures |ViewOf(st.driver, TokenOf(st, id)).value| == LenOf(st, id)
  {
    hide Inv, ViewOf;
    WholeView(st, id);
  }

  /** A readback of a handle that reaches to the end of its buffer. */
  lemma ReadsAll(st: State, id: nat, plan: FailurePlan)
    requires BufferOf(st, id).Ok? && TokenOf(st, id) in st.driver.buffers
    requires var slot := st.driver.buffers[TokenOf(st, id)]; slot.region + LenOf(st, id) == |slot.bytes|
    ensures var slot := st.driver.buffers[TokenOf(st, id)];
      ReadbackBytes(st, id, plan).reply
      == if Fails(st.driver, Readback, plan) then Failed(DriverFault) else Bytes(slot.bytes[slot.region..])
  {
    hide Fails;
  }

  // ---- handles that are not whole words ----

  /** The pages that cover a slice's whole words at `addr` also cover `len` bytes there. */
  predicate PagesCover(page: nat, addr: usize, sliceLen: nat, len: nat) {
    page > 0 && addr % page + len <= RoundUp(addr % page + RoundUp(sliceLen, 4), page)
  }

  /**
   * Whether the buffer has room for a handle of `len` bytes after the slice is copied in: a slice in a mapping is
   * wrapped unless the call is made to fail, which needs covering pages, and any other copy keeps the room the buffer
   * had.
   */
  ghost predicate KeepsRoom(d: Driver, token: nat, slice: Slice, len: nat, plan: FailurePlan)
    requires token in d.buffers
  {
    if WrapOf(d, slice).Some? && !Fails(d, CopyIn, plan) then
      PagesCover(WrapOf(d, slice).value.file.page, slice.place.value, |slice.bytes|, len)
    else HasBytes(d.buffers[token], len)
  }

  lemma WrappedRoomIff(maps: seq<Mapping>, addr: usize, sliceLen: nat, len: nat)
    requires WrapFor(maps, addr, sliceLen).Some? && sliceLen <= len < sliceLen + 4
    ensures var w := WrapFor(maps, addr, sliceLen).value;
      HasBytes(Slot(PageBytes(w), w.offset, len), len) <==> PagesCover(w.file.page, addr, sliceLen, len)
  {
    hide WrapFor, PageBytes, RoundUp, SoundWrap;
    WrapForSound(maps, addr, sliceLen);
    var w := WrapFor(maps, addr, sliceLen).value;
    WrapFitsIff(w, w.file, addr, sliceLen, len);
    WrapPage(w, w.file, addr, sliceLen);
  }

  lemma WrapPage(w: Wrap, m: Mapping, addr: usize, len: nat)
    requires SoundWrap(w, m, addr, len)
    ensures w.file == m && m.page > 0
  {
  }

  /** A driver copy leaves room for the handle exactly when its wrap covers it, or when an owned buffer had it. */
  lemma DriverCopyRoomIff(d: Driver, token: nat, slice: Slice, plan: FailurePlan)
    requires token in d.buffers && DriverCopyIn(d, token, slice, plan).error.None?
    requires |slice.bytes| <= d.buffers[token].len < |slice.bytes| + 4
    ensures var after := DriverCopyIn(d, token, slice, plan).driver;
      var len := d.buffers[token].len;
      && token in after.buffers && after.buffers[token].len == len
      && (HasBytes(after.buffers[token], len) <==> KeepsRoom(d, token, slice, len, plan))
  {
    hide WrapFor, PageBytes, PagesCover, Fails;
    if WrapOf(d, slice).Some? {
      WrappedRoomIff(d.maps, slice.place.value, |slice.bytes|, d.buffers[token].len);
    }
  }

  /** A failed driver copy leaves the buffers alone; it was made to fail or the slice lies in no mapping. */
  lemma FailedCopyKeeps(d: Driver, token: nat, slice: Slice, plan: FailurePlan)
    requires token in d.buffers && DriverCopyIn(d, token, slice, plan).error.Some?
    ensures DriverCopyIn(d, token, slice, plan).driver.buffers == d.buffers
    ensures Fails(d, CopyIn, plan) || WrapOf(d, slice).None?
  {
    hide Fails, WrapOf;
  }

  lemma CopyIntoRoomIff(d: Driver, token: nat, len: nat, slice: Slice, plan: FailurePlan)
    requires token in d.buffers && d.buffers[token].len == len && CopyInto(d, token, len, slice, plan).error.None?
    ensures var after := CopyInto(d, token, len, slice, plan).driver;
      && token in after.buffers && after.buffers[token].len == len
      && (HasBytes(after.buffers[token], len) <==> KeepsRoom(d, token, slice, len, plan))
  {
    hide DriverCopyIn, PagesCover, Fails, WrapOf;
    var first := DriverCopyIn(d, token, slice, plan);
    if first.error.None? {
      DriverCopyRoomIff(d, token, slice, plan);
    } else {
      FailedCopyKeeps(d, token, slice, plan);
      DriverCopyRoomIff(first.driver, token, Padded(slice, len), plan);
      OwnedNeverWraps(first.driver, Padded(slice, len));
    }
  }

  lemma OwnedNeverWraps(d: Driver, slice: Slice)
    requires slice.place.None?
    ensures WrapOf(d, slice).None?
  {
  }

  /** The driver composes every launch the session admits for a handle exactly when the buffer has room for it. */
  lemma HandleAgreesIff(st: State, id: nat)
    requires Inv(st) && BufferOf(st, id).Ok?
    ensures (forall b: LaunchBinding | b.handle == id && AdmitError(st, [b]).None? ::
               ComposeError(st.driver.buffers, Bounds(st, [b])).None?)
       <==> HasBytes(st.driver.buffers[st.handles[id].token], LenOf(st, id))
  {
    hide Inv, SlotOk, ComposeError, AdmitError, Bounds;
    LiveBuffer(st, id);
    var slot := st.driver.buffers[st.handles[id].token];
    var len := st.handles[id].kind.len;
    SlotFitsMachine(slot);
    if len > 0 {
      LayersAgreeIff(len, slot.region, |slot.bytes|);
    }
    forall b: LaunchBinding | b.handle == id
      ensures AdmitError(st, [b]).None? <==> Admits(len, b.offset, b.span)
      ensures ComposeError(st.driver.buffers, Bounds(st, [b])).None?
         <==> Compose(slot.region, b.offset, b.span, |slot.bytes|).Some?
    {
      OneBinding(st, b);
    }
    if HasBytes(slot, len) {
    } else if len > 0 {
      var offset: u64, span: u64 :| Admits(len, offset, span) && Compose(slot.region, offset, span, |slot.bytes|).None?;
      var b := LaunchBinding(id, 0, offset, span);
      assert AdmitError(st, [b]).None? && ComposeError(st.driver.buffers, Bounds(st, [b])).Some?;
    }
  }

  lemma SlotFitsMachine(slot: Slot)
    requires SlotOk(slot)
    ensures |slot.bytes| < 0x1_0000_0000_0000_0000 && slot.region <= |slot.bytes|
  {
  }

  lemma OneBinding(st: State, b: LaunchBinding)
    requires Inv(st) && BufferOf(st, b.handle).Ok?
    ensures var h := st.handles[b.handle];
      var slot := st.driver.buffers[h.token];
      && (AdmitError(st, [b]).None? <==> Admits(h.kind.len, b.offset, b.span))
      && (ComposeError(st.driver.buffers, Bounds(st, [b])).None?
          <==> Compose(slot.region, b.offset, b.span, |slot.bytes|).Some?)
  {
    hide Inv, SlotOk, Compose;
    LiveBuffer(st, b.handle);
    SlotFitsMachine(st.driver.buffers[st.handles[b.handle].token]);
    assert [b][1..] == [] && Bounds(st, [b])[1..] == [];
  }

  /**
   * The session and the driver agree after a copy, for handles of any length: every launch the session then admits for
   * the handle is composed by the driver exactly when the pages wrapped for the slice cover the handle's bytes or,
   * where the slice is not wrapped, when the buffer already had room for the handle.
   */
  lemma CopyAgreesIff(st: State, id: nat, slice: Slice, plan: FailurePlan)
    requires Inv(st) && BufferOf(st, id).Ok? && CopyInBytes(st, id, slice, plan).reply == Done
    ensures var mid := CopyInBytes(st, id, slice, plan).st;
      (forall b: LaunchBinding | b.handle == id && AdmitError(mid, [b]).None? ::
         ComposeError(mid.driver.buffers, Bounds(mid, [b])).None?)
      <==> KeepsRoom(st.driver, st.handles[id].token, slice, LenOf(st, id), plan)
  {
    hide Inv, SlotOk, CopyInto, KeepsRoom, ComposeError, AdmitError, Bounds;
    LiveBuffer(st, id);
    var h := st.handles[id];
    CopyInBytesKeeps(st, id, slice, plan);
    CopyIntoRoomIff(st.driver, h.token, h.kind.len, slice, plan);
    HandleAgreesIff(CopyInBytes(st, id, slice, plan).st, id);
  }

  /** The mapping and slice of the lemma below: three bytes whose word ends exactly at the end of the only page. */
  function OnePage(): Mapping {
    MappedFile(0x10000, 4096, seq(4096, _ => 7))
  }

  function TailSlice(): Slice {
    Slice(Some(0x10000 + 4092), [7, 7, 7])
  }

  /**
   * For a six-byte handle the layers disagree: copying the three mapped bytes succeeds, then the session admits
   * the handle's whole range and the driver refuses it, and a readback of the handle fails.
   */
  lemma UnalignedHandleRefused(st: State, kernel: KernelRun)
    requires Initial(st)
    ensures var s1 := Run(st, [DoRetain(OnePage()), DoAlloc(6)], map[]);
      var copied := CopyInBytes(s1, 1, TailSlice(), map[]);
      && FaithfulSlice(s1.driver, TailSlice()) && copied.reply == Done
      && AdmitError(copied.st, [LaunchBinding(1, 0, 0, 6)]).None?
      && Dispatch(copied.st, [LaunchBinding(1, 0, 0, 6)], kernel, map[]).reply == Failed(ShapeMismatch)
      && ReadbackBytes(copied.st, 1, map[]).reply == Failed(Internal)
  {
    var s1 := SixBytes(st);
    TailWraps(s1.driver);
    SixByteSlot(s1);
  }

  lemma SixBytes(st: State) returns (s1: State)
    requires Initial(st)
    ensures s1 == Run(st, [DoRetain(OnePage()), DoAlloc(6)], map[])
    ensures s1.handles == map[1 := Handle(BufferHandle(6), 0)] && s1.driver.maps == [OnePage()]
    ensures s1.driver.buffers == map[0 := Slot(seq(6, _ => 0), 0, 6)]
  {
    var calls := [DoRetain(OnePage()), DoAlloc(6)];
    assert calls[..1] == [DoRetain(OnePage())] && calls[..1][..0] == [];
    s1 := Run(st, calls, map[]);
    assert Run(st, calls[..1], map[]) == Next(Run(st, [], map[]), calls[0], map[]).st;
  }

  lemma TailWraps(d: Driver)
    requires d.maps == [OnePage()]
    ensures WrapOf(d, TailSlice()) == Some(Wrap(OnePage(), 0x10000, 4096, 4092))
    ensures FaithfulSlice(d, TailSlice())
  {
    PowerOfTwo4096();
    assert RoundUp(3, 4) == 4 && RoundUp(4096, 4096) == 4096;
    assert OnePage().bytes[4092..4095] == [7, 7, 7];
  }

  lemma PowerOfTwo4096()
    ensures IsPowerOfTwo(4096)
  {
    assert IsPowerOfTwo(64) by { assert IsPowerOfTwo(8) && IsPowerOfTwo(16) && IsPowerOfTwo(32); }
    assert IsPowerOfTwo(128) && IsPowerOfTwo(256) && IsPowerOfTwo(512) && IsPowerOfTwo(1024) && IsPowerOfTwo(2048);
  }

  lemma SixByteSlot(s1: State)
    requires s1.handles == map[1 := Handle(BufferHandle(6), 0)]
    requires s1.driver.buffers == map[0 := Slot(seq(6, _ => 0), 0, 6)]
    requires WrapOf(s1.driver, TailSlice()) == Some(Wrap(OnePage(), 0x10000, 4096, 4092))
    ensures var copied := CopyInBytes(s1, 1, TailSlice(), map[]);
      && copied.reply == Done
      && AdmitError(copied.st, [LaunchBinding(1, 0, 0, 6)]).None?
      && (forall kernel ::
            Dispatch(copied.st, [LaunchBinding(1, 0, 0, 6)], kernel, map[]).reply == Failed(ShapeMismatch))
      && ReadbackBytes(copied.st, 1, map[]).reply == Failed(Internal)
  {
    hide WrapOf;
    var copied := CopyInBytes(s1, 1, TailSlice(), map[]);
    var slot := copied.st.driver.buffers[0];
    assert |slot.bytes| == 4096 && slot.region == 4092 && slot.len == 6;
  }
}
