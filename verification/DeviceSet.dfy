/** device_set.rs: membership of a device set in a discovery sample, and selection. */
module DeviceSet {
  import opened Prelude
  import opened DeviceIdentity
  import opened Discovery

  datatype MembershipError =
    | UnknownDevice(id: PhysicalDeviceId)
    | StaleEpoch(id: PhysicalDeviceId, recorded: u64, current: u64)

  /** `id` is recorded, and its first entry belongs to the current epoch. */
  predicate CurrentMember(entries: seq<Entry>, current: u64, id: PhysicalDeviceId) {
    var e := FindEntry(entries, id);
    e.Some? && e.value.healthGeneration == current
  }

  function ErrorOf(entries: seq<Entry>, current: u64, id: PhysicalDeviceId): MembershipError
    requires !CurrentMember(entries, current, id)
  {
    var e := FindEntry(entries, id);
    if e.None? then UnknownDevice(id) else StaleEpoch(id, e.value.healthGeneration, current)
  }

  /** Every member must be a current one; the first offender in identity order is reported. */
  method Validate(members: set<PhysicalDeviceId>, s: Snapshot, current: u64) returns (r: Option<MembershipError>)
    ensures r.None? <==> forall id | id in members :: CurrentMember(Values(s.devices), current, id)
    ensures r.Some? ==>
      var entries := Values(s.devices);
      exists id :: && id in members && !CurrentMember(entries, current, id) && r.value == ErrorOf(entries, current, id)
                   && forall o | o in members && IdLess(o, id) :: CurrentMember(entries, current, o)
  {
    hide IdLess, SortedIds;
    var ids := SortedIds(members);
    SortedIdsListing(members);
    var entries := Values(s.devices);
    for i := 0 to |ids|
      invariant forall id | id in ids[..i] :: CurrentMember(entries, current, id)
    {
      var e := FindEntry(entries, ids[i]);
      if e.None? || e.value.healthGeneration != current {
        r := Some(if e.None? then UnknownDevice(ids[i]) else StaleEpoch(ids[i], e.value.healthGeneration, current));
        assert ids[i] in members && !CurrentMember(entries, current, ids[i]);
        assert r.value == ErrorOf(entries, current, ids[i]);
        return;
      }
    }
    assert ids[..|ids|] == ids;
    return None;
  }

  datatype Constraints = Constraints(
    backend: Option<DeviceBackend>,
    exclude: set<PhysicalDeviceId>,
    minCount: nat,
    maxCount: Option<nat>)

  datatype Selection = Explicit(ids: set<PhysicalDeviceId>) | Constrained(constraints: Constraints)

  datatype SelectionError =
    | Membership(error: MembershipError)
    | BelowMinimum(min: nat, actual: nat)
    | AboveMaximum(max: nat, actual: nat)

  predicate Selectable(e: Entry, current: u64, c: Constraints) {
    && e.healthGeneration == current
    && (c.backend.Some? ==> e.identity.Backend() == c.backend.value)
    && e.identity !in c.exclude
  }

  function Selected(s: Snapshot, current: u64, c: Constraints): set<PhysicalDeviceId> {
    set k | k in s.devices && Selectable(s.devices[k], current, c) :: s.devices[k].identity
  }

  /** Resolve a request: an explicit one is validated, a constrained one selects every matching current member. */
  method Resolve(request: Selection, s: Snapshot, current: u64)
    returns (r: Result<set<PhysicalDeviceId>, SelectionError>)
    ensures request.Explicit? ==>
      && (r.Ok? <==> forall id | id in request.ids :: CurrentMember(Values(s.devices), current, id))
      && (r.Ok? ==> r.value == request.ids)
      && (r.Err? ==> r.error.Membership?)
    ensures request.Constrained? ==>
      var chosen := Selected(s, current, request.constraints);
      var min, max := request.constraints.minCount, request.constraints.maxCount;
      r == if |chosen| < min then Err(BelowMinimum(min, |chosen|))
           else if max.Some? && |chosen| > max.value then Err(AboveMaximum(max.value, |chosen|))
           else Ok(chosen)
  {
    match request
    case Explicit(ids) =>
      var error := Validate(ids, s, current);
      return if error.Some? then Err(Membership(error.value)) else Ok(ids);
    case Constrained(c) =>
      var entries := Values(s.devices);
      var chosen: set<PhysicalDeviceId> := {};
      for i := 0 to |entries|
        invariant forall id :: id in chosen <==>
          exists j :: 0 <= j < i && Selectable(entries[j], current, c) && entries[j].identity == id
      {
        if entries[i].healthGeneration != current {
          continue;
        }
        if c.backend.Some? && entries[i].identity.Backend() != c.backend.value {
          continue;
        }
        if entries[i].identity in c.exclude {
          continue;
        }
        chosen := chosen + {entries[i].identity};
      }
      assert chosen == Selected(s, current, c) by {
        SelectedByValues(s, current, c, chosen);
      }
      if |chosen| < c.minCount {
        return Err(BelowMinimum(c.minCount, |chosen|));
      }
      if c.maxCount.Some? && |chosen| > c.maxCount.value {
        return Err(AboveMaximum(c.maxCount.value, |chosen|));
      }
      return Ok(chosen);
  }

  lemma SelectedByValues(s: Snapshot, current: u64, c: Constraints, chosen: set<PhysicalDeviceId>)
    requires forall id :: id in chosen <==>
      exists j :: 0 <= j < |Values(s.devices)| && Selectable(Values(s.devices)[j], current, c)
                  && Values(s.devices)[j].identity == id
    ensures chosen == Selected(s, current, c)
  {
    hide Selectable;
    var entries := Values(s.devices);
    forall id
      ensures id in chosen <==> id in Selected(s, current, c)
    {
      if id in chosen {
        var j :| 0 <= j < |entries| && Selectable(entries[j], current, c) && entries[j].identity == id;
        assert entries[j] in entries;
      }
      if id in Selected(s, current, c) {
        var k :| k in s.devices && Selectable(s.devices[k], current, c) && s.devices[k].identity == id;
        var j :| 0 <= j < |entries| && entries[j] == s.devices[k];
      }
    }
  }

  /** Whatever a constrained request selects would also pass validation, when identities are distinct. */
  lemma SelectionValidates(s: Snapshot, current: u64, c: Constraints, id: PhysicalDeviceId)
    requires forall j, k | j in s.devices && k in s.devices && s.devices[j].identity == s.devices[k].identity :: j == k
    requires id in Selected(s, current, c)
    ensures CurrentMember(Values(s.devices), current, id)
  {
    var entries := Values(s.devices);
    var k :| k in s.devices && Selectable(s.devices[k], current, c) && s.devices[k].identity == id;
    assert s.devices[k] in entries;
    var e := FindEntry(entries, id).value;
    var j :| j in s.devices && s.devices[j] == e;
  }
}
