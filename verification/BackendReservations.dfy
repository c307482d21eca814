/** Which partitions of the backend in transaction_backend.rs hold a reservation, over every run. */
module BackendReservations {
  import opened BackendState
  import opened BackendHandles

  type Reservations = map<Partition, Reservation>

  ghost predicate Holds(m: Reservations, p: Partition, r: Reservation) {
    p in m && m[p] == r
  }

  /** Device calls take no reservation and drop none. */
  lemma PerformReservations(st: State, step: Step, faults: Faults)
    ensures Perform(st, step, faults).st.reservations == st.reservations
    ensures Perform(st, step, faults).st.bound == st.bound
  {
    hide Register, ErrorFor, Tracked;
  }

  lemma {:induction false} ExecReservations(st: State, steps: seq<Step>, faults: Faults)
    ensures Exec(st, steps, faults).st.reservations == st.reservations && Exec(st, steps, faults).st.bound == st.bound
    decreases |steps|
  {
    hide Perform;
    if steps != [] {
      PerformReservations(st, steps[0], faults);
      ExecReservations(Perform(st, steps[0], faults).st, steps[1..], faults);
    }
  }

  lemma FreeReservations(st: State, p: Partition)
    ensures Free(st, p).reservations == st.reservations - {p} && Free(st, p).bound == st.bound
  {
    hide Drop, Tracked;
  }

  lemma RetireReservations(st: State, p: Partition)
    ensures Retire(st, p).reservations == st.reservations - {p} && Retire(st, p).bound == st.bound
  {
    hide Drop, Tracked, Bytes, Of, NotOf;
  }

  /** A reserve call that is not refused for a reservation or a missing binding, and whose allocations succeed. */
  ghost predicate Grants(st: State, p: Partition, r: Reservation, faults: Faults) {
    && p !in st.reservations && p in st.bound
    && Exec(st, ReserveSteps(p, r), faults).error.None?
  }

  /** What one command does to the reservations. */
  lemma NextReservations(st: State, c: Command, faults: Faults)
    ensures Next(st, c, faults).reservations ==
      match c
      case DoReserve(p, r) => if Grants(st, p, r, faults) then st.reservations[p := r] else st.reservations
      case DoRelease(p) => st.reservations - {p}
      case DoRetire(p) => st.reservations - {p}
      case _ => st.reservations
  {
    hide Exec, ReserveSteps, OpSteps, Free, Retire, Events;
    match c
    case DoReserve(p, r) => ExecReservations(st, ReserveSteps(p, r), faults);
    case DoRun(op) => ExecReservations(st, OpSteps(st, op), faults);
    case DoStage(w) =>
    case DoPublish =>
    case DoRelease(p) => FreeReservations(st, p);
    case DoRetire(p) => RetireReservations(st, p);
  }

  /** The j-th command reserved `r` for `p`. */
  ghost predicate Granted(st: State, cs: seq<Command>, faults: Faults, j: nat, p: Partition, r: Reservation) {
    j < |cs| && cs[j] == DoReserve(p, r) && Grants(Run(st, cs[..j], faults), p, r, faults)
  }

  ghost predicate FreedAfter(cs: seq<Command>, j: nat, p: Partition) {
    exists l :: j < l < |cs| && Frees(cs[l], p)
  }

  lemma FreedAfterExtend(init: seq<Command>, last: Command, j: nat, p: Partition)
    requires j < |init|
    ensures FreedAfter(init + [last], j, p) <==> FreedAfter(init, j, p) || Frees(last, p)
  {
    var cs := init + [last];
    if l :| j < l < |init| && Frees(init[l], p) {
      assert Frees(cs[l], p);
    }
    if Frees(last, p) {
      assert Frees(cs[|init|], p);
    }
  }

  /**
   * A partition holds a reservation after a run exactly when some call granted it and the partition was neither
   * released nor retired since; so a freed partition can be reserved again, and one that was granted cannot until it
   * is freed.
   */
  lemma {:induction false} ReservedExactly(st: State, cs: seq<Command>, faults: Faults, p: Partition, r: Reservation)
    requires Initial(st)
    ensures Holds(Run(st, cs, faults).reservations, p, r)
       <==> exists j :: Granted(st, cs, faults, j, p, r) && !FreedAfter(cs, j, p)
    decreases |cs|
  {
    hide Next, Initial, Grants, Frees;
    if cs == [] {
      InitialReservations(st);
    } else {
      var init, last := cs[..|cs| - 1], cs[|cs| - 1];
      ReservedExactly(st, init, faults, p, r);
      assert cs == init + [last];
      forall j | 0 <= j < |init|
        ensures Granted(st, cs, faults, j, p, r) <==> Granted(st, init, faults, j, p, r)
        ensures FreedAfter(cs, j, p) <==> FreedAfter(init, j, p) || Frees(last, p)
      {
        assert cs[..j] == init[..j];
        FreedAfterExtend(init, last, j, p);
      }
      ReservedStep(st, init, last, faults, p, r);
    }
  }

  lemma InitialReservations(st: State)
    requires Initial(st)
    ensures st.reservations == map[]
  {
  }

  lemma ReservedStep(st: State, init: seq<Command>, last: Command, faults: Faults, p: Partition, r: Reservation)
    requires Holds(Run(st, init, faults).reservations, p, r)
       <==> exists j :: Granted(st, init, faults, j, p, r) && !FreedAfter(init, j, p)
    requires forall j | 0 <= j < |init| ::
      && (Granted(st, init + [last], faults, j, p, r) <==> Granted(st, init, faults, j, p, r))
      && (FreedAfter(init + [last], j, p) <==> FreedAfter(init, j, p) || Frees(last, p))
    ensures Holds(Run(st, init + [last], faults).reservations, p, r)
       <==> exists j :: Granted(st, init + [last], faults, j, p, r) && !FreedAfter(init + [last], j, p)
  {
    hide Next, Grants, Frees, Run;
    var cs := init + [last];
    var before := Run(st, init, faults);
    RunLast(st, init, last, faults);
    HoldsNext(before, last, faults, p, r);
    assert cs[..|init|] == init;
    if Holds(before.reservations, p, r) && !Frees(last, p) {
      var j :| Granted(st, init, faults, j, p, r) && !FreedAfter(init, j, p);
      assert Granted(st, cs, faults, j, p, r) && !FreedAfter(cs, j, p);
    } else if last == DoReserve(p, r) && Grants(before, p, r, faults) {
      assert Granted(st, cs, faults, |init|, p, r) && !FreedAfter(cs, |init|, p);
    }
    if j: nat :| Granted(st, cs, faults, j, p, r) && !FreedAfter(cs, j, p) {
      if j < |init| {
        assert Holds(before.reservations, p, r) && !Frees(last, p);
      } else {
        assert last == DoReserve(p, r) && Grants(before, p, r, faults);
      }
    }
  }

  lemma RunLast(st: State, init: seq<Command>, last: Command, faults: Faults)
    ensures Run(st, init + [last], faults) == Next(Run(st, init, faults), last, faults)
  {
    hide Next;
    assert (init + [last])[..|init|] == init;
  }

  /** A reservation is kept by every command that does not free it, or granted by this one. */
  lemma HoldsNext(st: State, c: Command, faults: Faults, p: Partition, r: Reservation)
    ensures Holds(Next(st, c, faults).reservations, p, r)
       <==> (Holds(st.reservations, p, r) && !Frees(c, p)) || (c == DoReserve(p, r) && Grants(st, p, r, faults))
  {
    hide Next, Grants;
    NextReservations(st, c, faults);
    GrantsNew(st, p, r, faults);
    if c.DoReserve? {
      GrantsNew(st, p, c.r, faults);
    }
  }

  lemma GrantsNew(st: State, p: Partition, r: Reservation, faults: Faults)
    ensures Grants(st, p, r, faults) ==> p !in st.reservations
  {
    hide Exec;
  }
}
