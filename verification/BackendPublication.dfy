/** What a run stages and publishes, and when the byte totals are exact. */
module BackendPublication {
  import opened Prelude
  import opened BackendState

  type Writes = map<Reference, Write>

  // ---- sums over write sets ----

  lemma {:induction false} BytesRemove(m: Writes, r: Reference)
    requires r in m
    ensures Bytes(m) == m[r].byteCount + Bytes(m - {r})
    decreases |m|
  {
    var x :| x in m && Bytes(m) == m[x].byteCount + Bytes(m - {x});
    if x != r {
      BytesRemove(m - {x}, r);
      BytesRemove(m - {r}, x);
      assert m - {x} - {r} == m - {r} - {x};
    }
  }

  lemma BytesInsert(m: Writes, w: Write)
    requires w.reference !in m
    ensures Bytes(m[w.reference := w]) == Bytes(m) + w.byteCount
  {
    BytesRemove(m[w.reference := w], w.reference);
    assert m[w.reference := w] - {w.reference} == m;
  }

  /** Taking one write out of a set takes it out of its partition's part only. */
  lemma SplitRemove(m: Writes, p: Partition, r: Reference)
    requires r in m
    ensures Of(m - {r}, p) == Of(m, p) - {r} && NotOf(m - {r}, p) == NotOf(m, p) - {r}
    ensures if m[r].partition == p then r in Of(m, p) && r !in NotOf(m, p) && Of(m, p)[r] == m[r]
      else r !in Of(m, p) && r in NotOf(m, p) && NotOf(m, p)[r] == m[r]
  {
  }

  lemma SplitEmpty(p: Partition)
    ensures Of(map[], p) == map[] && NotOf(map[], p) == map[]
  {
  }

  lemma BytesRemoveIfThere(m: Writes, r: Reference, size: nat)
    requires r in m ==> m[r].byteCount == size
    ensures Bytes(m) == Bytes(m - {r}) + (if r in m then size else 0)
  {
    if r in m {
      BytesRemove(m, r);
    } else {
      assert m - {r} == m;
    }
  }

  /** The writes of a partition and the others add up to all of them. */
  lemma {:induction false} BytesSplit(m: Writes, p: Partition)
    ensures Bytes(m) == Bytes(Of(m, p)) + Bytes(NotOf(m, p))
    decreases |m|
  {
    hide Of, NotOf;
    if m == map[] {
      SplitEmpty(p);
    } else {
      var r :| r in m;
      BytesSplit(m - {r}, p);
      SplitRemove(m, p, r);
      BytesRemoveAll(m, p, r);
    }
  }

  lemma BytesRemoveAll(m: Writes, p: Partition, r: Reference)
    requires r in m
    ensures Bytes(m) == Bytes(m - {r}) + m[r].byteCount
    ensures Bytes(Of(m, p)) + Bytes(NotOf(m, p)) == Bytes(Of(m, p) - {r}) + Bytes(NotOf(m, p) - {r}) + m[r].byteCount
  {
    hide Bytes, Of, NotOf;
    SplitRemove(m, p, r);
    BytesRemove(m, r);
    BytesRemoveIfThere(Of(m, p), r, m[r].byteCount);
    BytesRemoveIfThere(NotOf(m, p), r, m[r].byteCount);
  }

  /** `staged_bytes` is the sum over the staged writes. */
  ghost predicate Exact(st: State) {
    st.stagedTotal == Bytes(st.staged)
  }

  /** Staging keeps the total exact exactly when the true sum still fits u64. */
  lemma StageExactIff(st: State, w: Write)
    requires Exact(st) && w.reference !in st.staged
    ensures Exact(StageWrite(st, w).st) <==> Bytes(st.staged) + w.byteCount < U64_LIMIT
  {
    BytesInsert(st.staged, w);
  }

  lemma RetireExact(st: State, p: Partition)
    requires Exact(st)
    ensures Exact(Retire(st, p))
  {
    BytesSplit(st.staged, p);
  }

  /** The part of the state device calls leave alone. */
  ghost predicate SameWrites(s: State, t: State) {
    && s.staged == t.staged && s.stagedTotal == t.stagedTotal
    && s.published == t.published && s.publishedTotal == t.publishedTotal && s.publishedOnce == t.publishedOnce
    && s.completed == t.completed
  }

  lemma AllocWrites(st: State, p: Partition, len: u64, faults: Faults)
    ensures SameWrites(st, Alloc(st, p, len, faults).st)
  {
    hide Alloc, Register, Tracked;
  }

  lemma ModuleWrites(st: State, p: Partition, faults: Faults)
    ensures SameWrites(st, EnsureModule(st, p, faults).st)
  {
    hide EnsureModule, Register;
  }

  lemma CallWrites(st: State, p: Partition, faults: Faults)
    ensures SameWrites(st, Call(st, p, faults).st)
  {
    hide Call;
  }

  lemma PerformWrites(st: State, step: Step, faults: Faults)
    ensures SameWrites(st, Perform(st, step, faults).st)
  {
    hide ErrorFor, Alloc, EnsureModule, Call, SameWrites;
    match step {
      case AllocStep(p, len) => AllocWrites(st, p, len, faults);
      case ModuleStep(p) => ModuleWrites(st, p, faults);
      case CallStep(p) => CallWrites(st, p, faults);
      case CopyStep(p) => CopyWrites(st, p, faults);
    }
  }

  lemma CopyWrites(st: State, p: Partition, faults: Faults)
    ensures SameWrites(st, HostCopy(st, p, faults).st)
  {
    hide ErrorFor;
  }

  lemma {:induction false} ExecWrites(st: State, steps: seq<Step>, faults: Faults)
    ensures SameWrites(st, Exec(st, steps, faults).st)
    decreases |steps|
  {
    hide Perform;
    if steps != [] {
      PerformWrites(st, steps[0], faults);
      ExecWrites(Perform(st, steps[0], faults).st, steps[1..], faults);
    }
  }

  /** What one command does to the write sets. */
  lemma NextWrites(st: State, c: Command, faults: Faults)
    ensures var r := Next(st, c, faults);
      && r.staged == (match c
           case DoStage(w) => if w.reference in st.staged then st.staged else st.staged[w.reference := w]
           case DoRetire(p) => NotOf(st.staged, p)
           case _ => st.staged)
      && (c.DoPublish? && !st.publishedOnce ==>
            && r.publishedOnce && r.published == st.staged
            && r.publishedTotal == st.stagedTotal && r.stagedTotal == st.stagedTotal)
      && (!c.DoPublish? || st.publishedOnce ==>
            r.publishedOnce == st.publishedOnce && r.published == st.published && r.publishedTotal == st.publishedTotal)
      && (!c.DoStage? && !c.DoRetire? ==> r.stagedTotal == st.stagedTotal)
  {
    hide Exec, ReserveSteps, OpSteps, Events, Of, NotOf, Bytes, Retire, Free, SaturatingAdd;
    match c
    case DoReserve(p, r) => ExecWrites(st, ReserveSteps(p, r), faults);
    case DoRun(op) => ExecWrites(st, OpSteps(st, op), faults);
    case DoStage(w) =>
    case DoPublish =>
    case DoRelease(p) => FreeWrites(st, p);
    case DoRetire(p) => RetireWrites(st, p);
  }

  lemma FreeWrites(st: State, p: Partition)
    ensures SameWrites(st, Free(st, p))
  {
    hide Drop, Tracked;
  }

  lemma NextExact(st: State, c: Command, faults: Faults)
    requires Exact(st) && Bytes(Next(st, c, faults).staged) < U64_LIMIT
    ensures Exact(Next(st, c, faults))
  {
    hide Exec, Reserve, RunOperation, Bytes;
    NextWrites(st, c, faults);
    match c
    case DoStage(w) =>
      if w.reference !in st.staged {
        BytesInsert(st.staged, w);
        StageExactIff(st, w);
      }
    case DoRetire(p) => RetireExact(st, p);
    case _ =>
  }

  lemma ExactFits(st: State)
    requires Exact(st)
    ensures Bytes(st.staged) < U64_LIMIT
  {
  }

  lemma InitialExact(st: State)
    requires Initial(st)
    ensures Exact(st)
  {
  }

  lemma {:induction false} ExactWhileFitting(st: State, cs: seq<Command>, faults: Faults, k: nat)
    requires Exact(st) && k <= |cs|
    requires forall j | 0 <= j <= k :: Bytes(Run(st, cs[..j], faults).staged) < U64_LIMIT
    ensures Exact(Run(st, cs[..k], faults))
  {
    hide Exact, Bytes, Next;
    if k > 0 {
      ExactWhileFitting(st, cs, faults, k - 1);
      assert cs[..k][..k - 1] == cs[..k - 1];
      NextExact(Run(st, cs[..k - 1], faults), cs[k - 1], faults);
    }
  }

  /** Along a run the totals are exact in every state exactly when no true sum ever reaches 2^64. */
  lemma RunExactIff(st: State, cs: seq<Command>, faults: Faults)
    requires Initial(st)
    ensures (forall k | 0 <= k <= |cs| :: Exact(Run(st, cs[..k], faults)))
       <==> (forall k | 0 <= k <= |cs| :: Bytes(Run(st, cs[..k], faults).staged) < U64_LIMIT)
  {
    hide Exact, Bytes, Run, Initial;
    InitialExact(st);
    if forall k | 0 <= k <= |cs| :: Bytes(Run(st, cs[..k], faults).staged) < U64_LIMIT {
      forall k | 0 <= k <= |cs|
        ensures Exact(Run(st, cs[..k], faults))
      {
        ExactWhileFitting(st, cs, faults, k);
      }
    }
    forall k | 0 <= k <= |cs| && Exact(Run(st, cs[..k], faults))
      ensures Bytes(Run(st, cs[..k], faults).staged) < U64_LIMIT
    {
      ExactFits(Run(st, cs[..k], faults));
    }
  }

  /** A saturated total stays wrong: after withdrawing the large write it reads 0 with one byte still staged. */
  lemma SaturationLosesBytes(st: State, p: Partition, q: Partition, faults: Faults)
    requires Initial(st) && p != q
    ensures var big := Write(p, Reference("a"), 0xFFFF_FFFF_FFFF_FFFF);
      var small := Write(q, Reference("b"), 1);
      var end := Run(st, [DoStage(big), DoStage(small), DoRetire(p)], faults);
      end.stagedTotal == 0 && Bytes(end.staged) == 1
  {
    hide Initial, Next;
    var big := Write(p, Reference("a"), 0xFFFF_FFFF_FFFF_FFFF);
    var small := Write(q, Reference("b"), 1);
    var cs := [DoStage(big), DoStage(small), DoRetire(p)];
    RunThree(st, cs[0], cs[1], cs[2], faults);
    InitialEmpty(st);
    assert big.reference.name[0] != small.reference.name[0];
    var s1 := StageWrite(st, big).st;
    var s2 := StageWrite(s1, small).st;
    assert Next(Next(st, cs[0], faults), cs[1], faults) == s2 by {
      NextStages(st, big, faults);
      NextStages(s1, small, faults);
    }
    assert s2.staged == map[big.reference := big, small.reference := small] && s2.stagedTotal == 0xFFFF_FFFF_FFFF_FFFF;
    RetireLeaves(s2, big, small, faults);
  }

  lemma RunThree(st: State, a: Command, b: Command, c: Command, faults: Faults)
    ensures Run(st, [a, b, c], faults) == Next(Next(Next(st, a, faults), b, faults), c, faults)
  {
    hide Next;
    assert [a, b, c][..2] == [a, b] && [a, b][..1] == [a] && [a][..0] == [];
    assert Run(st, [a], faults) == Next(Run(st, [], faults), a, faults);
    assert Run(st, [a, b], faults) == Next(Run(st, [a], faults), b, faults);
  }

  lemma NextStages(st: State, w: Write, faults: Faults)
    ensures Next(st, DoStage(w), faults) == StageWrite(st, w).st
  {
  }

  /** Withdrawing one of two writes subtracts its bytes from whatever the total was. */
  lemma RetireLeaves(st: State, big: Write, small: Write, faults: Faults)
    requires st.staged == map[big.reference := big, small.reference := small]
    requires big.partition != small.partition && big.reference != small.reference
    ensures var end := Next(st, DoRetire(big.partition), faults);
      end.stagedTotal == SaturatingSub(st.stagedTotal, big.byteCount) && Bytes(end.staged) == small.byteCount
  {
    hide Bytes, Of, NotOf, Free, SaturatingSub;
    OfTwo(big, small);
    BytesOne(big);
    BytesOne(small);
    RetireWrites(st, big.partition);
  }

  lemma RetireWrites(st: State, p: Partition)
    ensures Retire(st, p).staged == NotOf(st.staged, p)
    ensures Retire(st, p).stagedTotal == SaturatingSub(st.stagedTotal, Wrap64(Bytes(Of(st.staged, p))))
    ensures Retire(st, p).published == st.published && Retire(st, p).publishedTotal == st.publishedTotal
    ensures Retire(st, p).publishedOnce == st.publishedOnce
  {
    hide Bytes, Of, NotOf, SaturatingSub, Wrap64;
  }

  lemma OfTwo(a: Write, b: Write)
    requires a.partition != b.partition && a.reference != b.reference
    ensures Of(map[a.reference := a, b.reference := b], a.partition) == map[a.reference := a]
    ensures NotOf(map[a.reference := a, b.reference := b], a.partition) == map[b.reference := b]
  {
  }

  lemma BytesOne(w: Write)
    ensures Bytes(map[w.reference := w]) == w.byteCount
  {
    BytesRemove(map[w.reference := w], w.reference);
    assert map[w.reference := w] - {w.reference} == map[];
  }

  // ---- what is staged ----

  /** The j-th command staged `w`: its reference was free. */
  ghost predicate Accepted(st: State, cs: seq<Command>, faults: Faults, j: nat, w: Write) {
    j < |cs| && cs[j] == DoStage(w) && w.reference !in Run(st, cs[..j], faults).staged
  }

  ghost predicate RetiredAfter(cs: seq<Command>, j: nat, p: Partition) {
    exists l :: j < l < |cs| && cs[l] == DoRetire(p)
  }

  ghost predicate Contains(m: Writes, w: Write) {
    w.reference in m && m[w.reference] == w
  }

  /** A write is staged after a run exactly when some command staged it and its partition was not retired since. */
  lemma {:induction false} StagedExactly(st: State, cs: seq<Command>, faults: Faults, w: Write)
    requires Initial(st)
    ensures Contains(Run(st, cs, faults).staged, w)
       <==> exists j :: Accepted(st, cs, faults, j, w) && !RetiredAfter(cs, j, w.partition)
    ensures forall r | r in Run(st, cs, faults).staged :: Run(st, cs, faults).staged[r].reference == r
    decreases |cs|
  {
    hide Next, Initial;
    if cs != [] {
      var init, last := cs[..|cs| - 1], cs[|cs| - 1];
      StagedExactly(st, init, faults, w);
      NextWrites(Run(st, init, faults), last, faults);
      assert cs == init + [last];
      forall j | 0 <= j < |init|
        ensures Accepted(st, cs, faults, j, w) <==> Accepted(st, init, faults, j, w)
        ensures RetiredAfter(cs, j, w.partition)
           <==> RetiredAfter(init, j, w.partition) || last == DoRetire(w.partition)
      {
        assert cs[..j] == init[..j];
        RetiredAfterExtend(init, last, j, w.partition);
      }
      assert cs[..|init|] == init;
      StagedStep(st, init, last, faults, w);
    } else {
      InitialEmpty(st);
    }
  }

  lemma InitialEmpty(st: State)
    requires Initial(st)
    ensures st.staged == map[] && st.stagedTotal == 0
    ensures st.published == map[] && !st.publishedOnce && st.publishedTotal == 0
  {
  }

  lemma RetiredAfterExtend(init: seq<Command>, last: Command, j: nat, p: Partition)
    requires j < |init|
    ensures RetiredAfter(init + [last], j, p) <==> RetiredAfter(init, j, p) || last == DoRetire(p)
  {
    var cs := init + [last];
    if l :| j < l < |init| && init[l] == DoRetire(p) {
      assert cs[l] == DoRetire(p);
    }
    if last == DoRetire(p) {
      assert cs[|init|] == DoRetire(p);
    }
  }

  lemma StagedStep(st: State, init: seq<Command>, last: Command, faults: Faults, w: Write)
    requires var before := Run(st, init, faults).staged;
      && (Contains(before, w) <==> exists j :: Accepted(st, init, faults, j, w) && !RetiredAfter(init, j, w.partition))
      && forall r | r in before :: before[r].reference == r
    requires forall j | 0 <= j < |init| ::
      && (Accepted(st, init + [last], faults, j, w) <==> Accepted(st, init, faults, j, w))
      && (RetiredAfter(init + [last], j, w.partition)
          <==> RetiredAfter(init, j, w.partition) || last == DoRetire(w.partition))
    ensures Contains(Run(st, init + [last], faults).staged, w)
       <==> exists j :: Accepted(st, init + [last], faults, j, w) && !RetiredAfter(init + [last], j, w.partition)
  {
    hide Next;
    var cs := init + [last];
    var before, after := Run(st, init, faults).staged, Run(st, cs, faults).staged;
    assert cs[..|init|] == init;
    NextWrites(Run(st, init, faults), last, faults);
    if Contains(after, w) {
      if Contains(before, w) {
        var j :| Accepted(st, init, faults, j, w) && !RetiredAfter(init, j, w.partition);
        assert last != DoRetire(w.partition);
        assert Accepted(st, cs, faults, j, w) && !RetiredAfter(cs, j, w.partition);
      } else {
        assert last == DoStage(w);
        assert Accepted(st, cs, faults, |init|, w) && !RetiredAfter(cs, |init|, w.partition);
      }
    }
    if j: nat :| Accepted(st, cs, faults, j, w) && !RetiredAfter(cs, j, w.partition) {
      if j < |init| {
        assert Contains(before, w) && last != DoRetire(w.partition);
      } else {
        assert last == DoStage(w);
      }
    }
  }

  // ---- what is published ----

  /** The index of the first publish, or the length of the run. */
  function FirstPublish(cs: seq<Command>): (i: nat)
    ensures i <= |cs|
    ensures i < |cs| ==> cs[i].DoPublish?
    ensures forall j | 0 <= j < i :: !cs[j].DoPublish?
  {
    if cs == [] then 0
    else
      var i := FirstPublish(cs[..|cs| - 1]);
      if i < |cs| - 1 then i else if cs[|cs| - 1].DoPublish? then |cs| - 1 else |cs|
  }

  /** The published set and total are those staged at the first publish, whatever happens afterwards. */
  lemma {:induction false} PublishedAtFirst(st: State, cs: seq<Command>, faults: Faults)
    requires Initial(st)
    ensures var end, i := Run(st, cs, faults), FirstPublish(cs);
      && (end.publishedOnce <==> i < |cs|)
      && (i == |cs| ==> end.published == map[] && end.publishedTotal == 0)
      && (i < |cs| ==>
            var atPublish := Run(st, cs[..i], faults);
            end.published == atPublish.staged && end.publishedTotal == atPublish.stagedTotal)
    decreases |cs|
  {
    hide Next, Initial;
    if cs == [] {
      InitialEmpty(st);
    } else {
      var init, last := cs[..|cs| - 1], cs[|cs| - 1];
      PublishedAtFirst(st, init, faults);
      NextWrites(Run(st, init, faults), last, faults);
      var i := FirstPublish(cs);
      if i < |cs| {
        assert cs[..i] == init[..i];
      }
    }
  }

  /**
   * No partial publication: a published write was staged before the publish, and its partition was not
   * retired between the two.
   */
  lemma PublishedProvenance(st: State, cs: seq<Command>, faults: Faults, w: Write)
    requires Initial(st)
    ensures Contains(Run(st, cs, faults).published, w)
       <==> var i := FirstPublish(cs);
            i < |cs| && exists j :: Accepted(st, cs[..i], faults, j, w) && !RetiredAfter(cs[..i], j, w.partition)
  {
    hide Initial, Run, Accepted, RetiredAfter;
    PublishedAtFirst(st, cs, faults);
    StagedExactly(st, cs[..FirstPublish(cs)], faults, w);
  }

  /** Events complete only for operations whose every device call succeeded. */
  lemma EventsOnSuccess(st: State, op: Op, faults: Faults)
    ensures var r := RunOperation(st, op, faults);
      r.st.completed == if r.error.None? then st.completed + Events(op) else st.completed
  {
    hide Exec, OpSteps;
    ExecWrites(st, OpSteps(st, op), faults);
  }
}
