/** Binding placement: metal_host.rs `ordered_launch_bindings` and device_host.rs `handles_in_binding_order`. */
module LaunchBindings {
  import opened Prelude
  import opened Ordered

  /** What goes into a slot, with the slot its declaration names. */
  datatype Indexed<T> = Indexed(index: u32, value: T)

  datatype PlaceError =
    | Outside(index: u32)
    | DeclaredTwice(index: u32)

  predicate InRange<T>(bs: seq<Indexed<T>>, n: nat) {
    forall k | 0 <= k < |bs| :: bs[k].index < n
  }

  predicate DistinctIndices<T>(bs: seq<Indexed<T>>) {
    forall j, k | 0 <= j < k < |bs| :: bs[j].index != bs[k].index
  }

  /** The declared indices are a permutation of 0..n. */
  predicate Permutation<T>(bs: seq<Indexed<T>>) {
    InRange(bs, |bs|) && DistinctIndices(bs)
  }

  /** Each slot i of `slots` holds the value declared for i. */
  ghost predicate Arranged<T>(bs: seq<Indexed<T>>, slots: seq<T>) {
    && |slots| == |bs|
    && forall k | 0 <= k < |bs| :: bs[k].index < |slots| && slots[bs[k].index] == bs[k].value
  }

  /** `e` names the first declaration, at position k, that has no free slot. */
  ghost predicate FirstUnplaced<T>(bs: seq<Indexed<T>>, k: nat, e: PlaceError) {
    && k < |bs| && InRange(bs[..k], |bs|) && DistinctIndices(bs[..k])
    && match e
       case Outside(i) => bs[k].index == i && i >= |bs|
       case DeclaredTwice(i) => bs[k].index == i && i < |bs| && exists j :: 0 <= j < k && bs[j].index == i
  }

  // ---- the pigeonhole argument ----

  ghost function Declared<T>(bs: seq<Indexed<T>>): (s: set<int>)
    ensures forall i :: i in s <==> exists k :: 0 <= k < |bs| && bs[k].index == i
  {
    set k | 0 <= k < |bs| :: bs[k].index
  }

  lemma {:induction false} DeclaredSize<T>(bs: seq<Indexed<T>>)
    requires DistinctIndices(bs)
    ensures |Declared(bs)| == |bs|
  {
    if bs != [] {
      var init, last := bs[..|bs| - 1], bs[|bs| - 1];
      DeclaredSize(init);
      assert Declared(bs) == Declared(init) + {last.index};
      assert last.index !in Declared(init);
    }
  }

  lemma SameSizeSubset<T>(a: set<T>, b: set<T>)
    requires a <= b && |a| == |b|
    ensures a == b
  {
    if x :| x in b && x !in a {
      SubsetSize(a, b - {x});
    }
  }

  /** n distinct indices below n leave no slot out. */
  lemma Pigeonhole<T>(bs: seq<Indexed<T>>, i: nat)
    requires Permutation(bs) && i < |bs|
    ensures exists k :: 0 <= k < |bs| && bs[k].index == i
  {
    DeclaredSize(bs);
    RangeMembers(0, |bs|);
    SameSizeSubset(Declared(bs), Range(0, |bs|));
    assert i in Declared(bs);
  }

  /** The position of the declaration that names slot i. */
  ghost function Holder<T>(bs: seq<Indexed<T>>, i: nat): (k: nat)
    requires Permutation(bs) && i < |bs|
    ensures k < |bs| && bs[k].index == i
  {
    Pigeonhole(bs, i);
    var k :| 0 <= k < |bs| && bs[k].index == i;
    k
  }

  /** The arrangement is one-to-one: slot i holds the value declared for i, and there is only one arrangement. */
  lemma ArrangementUnique<T>(bs: seq<Indexed<T>>, a: seq<T>, b: seq<T>)
    requires Permutation(bs) && Arranged(bs, a) && Arranged(bs, b)
    ensures a == b
    ensures forall i | 0 <= i < |a| :: a[i] == bs[Holder(bs, i)].value
  {
    forall i | 0 <= i < |a|
      ensures a[i] == b[i] && a[i] == bs[Holder(bs, i)].value
    {
      var k := Holder(bs, i);
      assert bs[k].index == i;
    }
  }

  /** The bindings in slot order, for a permutation. */
  ghost function InSlotOrder<T>(bs: seq<Indexed<T>>): (slots: seq<T>)
    requires Permutation(bs)
  {
    seq(|bs|, i requires 0 <= i < |bs| => bs[Holder(bs, i)].value)
  }

  lemma InSlotOrderArranged<T>(bs: seq<Indexed<T>>)
    requires Permutation(bs)
    ensures Arranged(bs, InSlotOrder(bs))
  {
    var slots := InSlotOrder(bs);
    forall k | 0 <= k < |bs|
      ensures slots[bs[k].index] == bs[k].value
    {
      assert Holder(bs, bs[k].index) == k;
    }
  }

  /** The first k declarations sit in their slots and nothing else does. */
  ghost predicate Filled<T>(slots: seq<Option<T>>, bs: seq<Indexed<T>>, k: nat) {
    && |slots| == |bs| && k <= |bs| && InRange(bs[..k], |bs|) && DistinctIndices(bs[..k])
    && (forall j | 0 <= j < k :: slots[bs[j].index] == Some(bs[j].value))
    && (forall i | 0 <= i < |bs| && slots[i].Some? :: exists j :: 0 <= j < k && bs[j].index == i)
  }

  lemma FillStep<T>(slots: seq<Option<T>>, bs: seq<Indexed<T>>, k: nat)
    requires Filled(slots, bs, k) && k < |bs| && bs[k].index < |bs| && slots[bs[k].index].None?
    ensures Filled(slots[bs[k].index := Some(bs[k].value)], bs, k + 1)
  {
    var after := slots[bs[k].index := Some(bs[k].value)];
    forall i | 0 <= i < |bs| && after[i].Some?
      ensures exists j :: 0 <= j < k + 1 && bs[j].index == i
    {
      if i == bs[k].index {
        assert bs[k].index == i;
      }
    }
  }

  lemma FilledSlotWasDeclared<T>(slots: seq<Option<T>>, bs: seq<Indexed<T>>, k: nat)
    requires Filled(slots, bs, k) && k < |bs| && bs[k].index < |bs| && slots[bs[k].index].Some?
    ensures FirstUnplaced(bs, k, DeclaredTwice(bs[k].index))
  {
  }

  lemma UnplacedIsNoPermutation<T>(bs: seq<Indexed<T>>, k: nat, e: PlaceError)
    requires FirstUnplaced(bs, k, e)
    ensures !Permutation(bs)
  {
  }

  lemma AllFilled<T>(slots: seq<Option<T>>, bs: seq<Indexed<T>>)
    requires Filled(slots, bs, |bs|)
    ensures Permutation(bs) && forall i | 0 <= i < |bs| :: slots[i].Some?
  {
    assert bs[..|bs|] == bs;
    forall i | 0 <= i < |bs|
      ensures slots[i].Some?
    {
      var k := Holder(bs, i);
      assert slots[bs[k].index] == Some(bs[k].value);
    }
  }

  /** Fill slots by declared index, then collect them; the branch for a slot validated and then dropped is dead. */
  method Place<T>(bs: seq<Indexed<T>>) returns (r: Result<seq<T>, PlaceError>)
    ensures r.Ok? <==> Permutation(bs)
    ensures r.Ok? ==> Arranged(bs, r.value)
    ensures r.Err? ==> exists k :: FirstUnplaced(bs, k, r.error)
  {
    hide Filled, FirstUnplaced, Permutation;
    var n := |bs|;
    var slots := new Option<T>[n](_ => None);
    assert Filled(slots[..], bs, 0) by {
      NoneFilled(slots[..], bs);
    }
    for k := 0 to n
      invariant Filled(slots[..], bs, k)
    {
      var index := bs[k].index;
      if index >= n {
        OutsideIsUnplaced(slots[..], bs, k);
        UnplacedIsNoPermutation(bs, k, Outside(index));
        return Err(Outside(index));
      }
      if slots[index].Some? {
        FilledSlotWasDeclared(slots[..], bs, k);
        UnplacedIsNoPermutation(bs, k, DeclaredTwice(index));
        return Err(DeclaredTwice(index));
      }
      FillStep(slots[..], bs, k);
      slots[index] := Some(bs[k].value);
    }
    AllFilled(slots[..], bs);
    var collected: seq<T> := [];
    for i := 0 to n
      invariant |collected| == i && forall j | 0 <= j < i :: slots[j] == Some(collected[j])
    {
      if slots[i].None? {
        assert false;
      }
      collected := collected + [slots[i].value];
    }
    CollectedArranged(slots[..], bs, collected);
    return Ok(collected);
  }

  lemma NoneFilled<T>(slots: seq<Option<T>>, bs: seq<Indexed<T>>)
    requires |slots| == |bs| && forall i | 0 <= i < |slots| :: slots[i].None?
    ensures Filled(slots, bs, 0)
  {
  }

  lemma OutsideIsUnplaced<T>(slots: seq<Option<T>>, bs: seq<Indexed<T>>, k: nat)
    requires Filled(slots, bs, k) && k < |bs| && bs[k].index >= |bs|
    ensures FirstUnplaced(bs, k, Outside(bs[k].index))
  {
  }

  lemma CollectedArranged<T>(slots: seq<Option<T>>, bs: seq<Indexed<T>>, collected: seq<T>)
    requires Filled(slots, bs, |bs|) && |collected| == |bs|
    requires forall j | 0 <= j < |slots| :: slots[j] == Some(collected[j])
    ensures Arranged(bs, collected)
  {
    AllFilled(slots, bs);
    assert InRange(bs, |bs|);
  }
}
