/** llvm/src/collection_map.rs: value equality, and lists that stand for sets. */
module CollectionValues {
  import opened Prelude

  /** Kinds compared by their bits (integers, opaque handles), and text, compared by its bytes; no floats. */
  datatype Kind = Bits(tag: nat) | Text

  datatype Value = Integer(value: int) | Pointer(addr: nat)

  /** The bytes behind every readable text descriptor. */
  type Memory = map<nat, seq<u8>>

  /** `values_equal` */
  predicate ValuesEqual(m: Memory, kind: Kind, a: Value, b: Value) {
    if kind != Text then a == b
    else a.Pointer? && b.Pointer? && a.addr in m && b.addr in m && m[a.addr] == m[b.addr]
  }

  /** A value of the kind that can be read: for text, a descriptor with bytes. */
  predicate Readable(m: Memory, kind: Kind, v: Value) {
    kind == Text ==> v.Pointer? && v.addr in m
  }

  /** What a value stands for: itself, or the bytes of its text. */
  datatype Meaning = Plain(value: Value) | Bytes(bytes: seq<u8>)

  function Meant(m: Memory, kind: Kind, v: Value): Meaning
    requires Readable(m, kind, v)
  {
    if kind == Text then Bytes(m[v.addr]) else Plain(v)
  }

  /** On readable values the host's equality is equality of meaning. */
  lemma EqualIsMeaning(m: Memory, kind: Kind, a: Value, b: Value)
    requires Readable(m, kind, a) && Readable(m, kind, b)
    ensures ValuesEqual(m, kind, a, b) <==> Meant(m, kind, a) == Meant(m, kind, b)
  {
  }

  /** A value equals itself exactly when it is readable: an unreadable text is never found again. */
  lemma ReflexiveIffReadable(m: Memory, kind: Kind, v: Value)
    ensures ValuesEqual(m, kind, v, v) <==> Readable(m, kind, v)
  {
  }

  ghost predicate AllReadable(m: Memory, kind: Kind, vs: seq<Value>) {
    forall i | 0 <= i < |vs| :: Readable(m, kind, vs[i])
  }

  /** No two members are equal. */
  ghost predicate Unique(m: Memory, kind: Kind, vs: seq<Value>) {
    forall i, j | 0 <= i < j < |vs| :: !ValuesEqual(m, kind, vs[i], vs[j])
  }

  ghost predicate Proper(m: Memory, kind: Kind, vs: seq<Value>) {
    AllReadable(m, kind, vs) && Unique(m, kind, vs)
  }

  /** `contains` */
  predicate Contains(m: Memory, kind: Kind, vs: seq<Value>, v: Value) {
    exists i | 0 <= i < |vs| :: ValuesEqual(m, kind, vs[i], v)
  }

  /** The set a list stands for. */
  ghost function Members(m: Memory, kind: Kind, vs: seq<Value>): set<Meaning>
    requires AllReadable(m, kind, vs)
  {
    set i | 0 <= i < |vs| :: Meant(m, kind, vs[i])
  }

  lemma ContainsIff(m: Memory, kind: Kind, vs: seq<Value>, v: Value)
    requires AllReadable(m, kind, vs) && Readable(m, kind, v)
    ensures Contains(m, kind, vs, v) <==> Meant(m, kind, v) in Members(m, kind, vs)
  {
  }

  lemma MembersAppend(m: Memory, kind: Kind, vs: seq<Value>, v: Value)
    requires AllReadable(m, kind, vs) && Readable(m, kind, v)
    ensures AllReadable(m, kind, vs + [v])
    ensures Members(m, kind, vs + [v]) == Members(m, kind, vs) + {Meant(m, kind, v)}
  {
    var all := vs + [v];
    assert forall i | 0 <= i < |vs| :: all[i] == vs[i];
    assert all[|vs|] == v;
    forall x | x in Members(m, kind, vs)
      ensures x in Members(m, kind, all)
    {
      var i :| 0 <= i < |vs| && Meant(m, kind, vs[i]) == x;
      assert Meant(m, kind, all[i]) == x;
    }
    assert Meant(m, kind, all[|vs|]) in Members(m, kind, all);
  }

  /** A proper list has as many members as the set it stands for. */
  lemma {:induction false} ProperSize(m: Memory, kind: Kind, vs: seq<Value>)
    requires Proper(m, kind, vs)
    ensures |Members(m, kind, vs)| == |vs|
  {
    if vs != [] {
      var init, last := vs[..|vs| - 1], vs[|vs| - 1];
      assert vs == init + [last];
      ProperSize(m, kind, init);
      MembersAppend(m, kind, init, last);
      ContainsIff(m, kind, init, last);
    }
  }

  /** Memory only grows; what a list stands for does not change. */
  lemma MembersGrow(m: Memory, larger: Memory, kind: Kind, vs: seq<Value>)
    requires Proper(m, kind, vs) && m.Keys <= larger.Keys && forall a | a in m :: larger[a] == m[a]
    ensures Proper(larger, kind, vs) && Members(larger, kind, vs) == Members(m, kind, vs)
  {
    assert forall i | 0 <= i < |vs| :: Meant(larger, kind, vs[i]) == Meant(m, kind, vs[i]);
    forall x
      ensures x in Members(larger, kind, vs) <==> x in Members(m, kind, vs)
    {
      if i :| 0 <= i < |vs| && Meant(m, kind, vs[i]) == x {
        assert Meant(larger, kind, vs[i]) == x;
      }
    }
  }

  // ---- set algebra ----

  /** `push_unique` */
  function PushUnique(m: Memory, kind: Kind, vs: seq<Value>, v: Value): seq<Value> {
    if Contains(m, kind, vs, v) then vs else vs + [v]
  }

  lemma PushUniqueAdds(m: Memory, kind: Kind, vs: seq<Value>, v: Value)
    requires Proper(m, kind, vs) && Readable(m, kind, v)
    ensures Proper(m, kind, PushUnique(m, kind, vs, v))
    ensures Members(m, kind, PushUnique(m, kind, vs, v)) == Members(m, kind, vs) + {Meant(m, kind, v)}
  {
    ContainsIff(m, kind, vs, v);
    MembersAppend(m, kind, vs, v);
  }

  /** Adding a member twice is adding it once exactly when it is readable. */
  lemma PushTwiceIff(m: Memory, kind: Kind, vs: seq<Value>, v: Value)
    ensures PushUnique(m, kind, PushUnique(m, kind, vs, v), v) == PushUnique(m, kind, vs, v) <==> Readable(m, kind, v)
  {
    var once := PushUnique(m, kind, vs, v);
    ReflexiveIffReadable(m, kind, v);
    if !Contains(m, kind, vs, v) {
      assert once[|vs|] == v;
    }
  }

  /** Fold `push_unique` over a list. */
  function PushAll(m: Memory, kind: Kind, vs: seq<Value>, more: seq<Value>): seq<Value> {
    if more == [] then vs else PushUnique(m, kind, PushAll(m, kind, vs, more[..|more| - 1]), more[|more| - 1])
  }

  lemma {:induction false} PushAllAdds(m: Memory, kind: Kind, vs: seq<Value>, more: seq<Value>)
    requires Proper(m, kind, vs) && AllReadable(m, kind, more)
    ensures Proper(m, kind, PushAll(m, kind, vs, more))
    ensures Members(m, kind, PushAll(m, kind, vs, more)) == Members(m, kind, vs) + Members(m, kind, more)
  {
    if more != [] {
      var init, last := more[..|more| - 1], more[|more| - 1];
      assert more == init + [last];
      PushAllAdds(m, kind, vs, init);
      PushUniqueAdds(m, kind, PushAll(m, kind, vs, init), last);
      MembersAppend(m, kind, init, last);
    }
  }

  function Union(m: Memory, kind: Kind, left: seq<Value>, right: seq<Value>): seq<Value> {
    PushAll(m, kind, [], left + right)
  }

  /** The members of `vs` that `other` contains, or those it does not. */
  function Keep(m: Memory, kind: Kind, vs: seq<Value>, other: seq<Value>, contained: bool): seq<Value> {
    if vs == [] then []
    else
      var init, last := vs[..|vs| - 1], vs[|vs| - 1];
      Keep(m, kind, init, other, contained) + if Contains(m, kind, other, last) == contained then [last] else []
  }

  ghost function Chosen(a: set<Meaning>, b: set<Meaning>, contained: bool): set<Meaning> {
    if contained then a * b else a - b
  }

  lemma {:induction false} KeepChooses(m: Memory, kind: Kind, vs: seq<Value>, other: seq<Value>, contained: bool)
    requires Proper(m, kind, vs) && AllReadable(m, kind, other)
    ensures Proper(m, kind, Keep(m, kind, vs, other, contained))
    ensures Members(m, kind, Keep(m, kind, vs, other, contained))
         == Chosen(Members(m, kind, vs), Members(m, kind, other), contained)
  {
    if vs != [] {
      var init, last := vs[..|vs| - 1], vs[|vs| - 1];
      assert vs == init + [last];
      KeepChooses(m, kind, init, other, contained);
      KeepStep(m, kind, init, last, other, contained);
    }
  }

  lemma KeepStep(m: Memory, kind: Kind, init: seq<Value>, last: Value, other: seq<Value>, contained: bool)
    requires Proper(m, kind, init + [last]) && AllReadable(m, kind, other) && AllReadable(m, kind, init)
    requires Proper(m, kind, Keep(m, kind, init, other, contained))
    requires Members(m, kind, Keep(m, kind, init, other, contained))
          == Chosen(Members(m, kind, init), Members(m, kind, other), contained)
    ensures Proper(m, kind, Keep(m, kind, init + [last], other, contained))
    ensures Members(m, kind, Keep(m, kind, init + [last], other, contained))
         == Chosen(Members(m, kind, init + [last]), Members(m, kind, other), contained)
  {
    hide Members;
    var kept := Keep(m, kind, init, other, contained);
    assert (init + [last])[..|init|] == init && (init + [last])[|init|] == last;
    assert Readable(m, kind, last);
    NewMember(m, kind, init, last);
    ContainsIff(m, kind, other, last);
    MembersAppend(m, kind, init, last);
    if Contains(m, kind, other, last) == contained {
      ContainsIff(m, kind, kept, last);
      MembersAppend(m, kind, kept, last);
      PushUniqueAdds(m, kind, kept, last);
    } else {
      assert kept + [] == kept;
    }
  }

  lemma NewMember(m: Memory, kind: Kind, init: seq<Value>, last: Value)
    requires Proper(m, kind, init + [last]) && AllReadable(m, kind, init) && Readable(m, kind, last)
    ensures Meant(m, kind, last) !in Members(m, kind, init)
  {
    var all := init + [last];
    assert forall i | 0 <= i < |init| :: all[i] == init[i] && !ValuesEqual(m, kind, all[i], all[|init|]);
  }

  function Intersection(m: Memory, kind: Kind, left: seq<Value>, right: seq<Value>): seq<Value> {
    Keep(m, kind, left, right, true)
  }

  function Difference(m: Memory, kind: Kind, left: seq<Value>, right: seq<Value>): seq<Value> {
    Keep(m, kind, left, right, false)
  }

  function SymmetricDifference(m: Memory, kind: Kind, left: seq<Value>, right: seq<Value>): seq<Value> {
    Keep(m, kind, left, right, false) + Keep(m, kind, right, left, false)
  }

  predicate IsSubset(m: Memory, kind: Kind, left: seq<Value>, right: seq<Value>) {
    forall i | 0 <= i < |left| :: Contains(m, kind, right, left[i])
  }

  lemma {:induction false} AppendDisjoint(m: Memory, kind: Kind, a: seq<Value>, b: seq<Value>)
    requires Proper(m, kind, a) && Proper(m, kind, b) && Members(m, kind, a) !! Members(m, kind, b)
    ensures Proper(m, kind, a + b) && Members(m, kind, a + b) == Members(m, kind, a) + Members(m, kind, b)
    decreases |b|
  {
    if b == [] {
      assert a + b == a;
    } else {
      var init, last := b[..|b| - 1], b[|b| - 1];
      assert b == init + [last] && a + b == (a + init) + [last];
      MembersAppend(m, kind, init, last);
      NewMember(m, kind, init, last);
      AppendDisjoint(m, kind, a, init);
      ContainsIff(m, kind, a + init, last);
      PushUniqueAdds(m, kind, a + init, last);
    }
  }

  /** The four operations compute the mathematical result, without duplicates. */
  lemma AlgebraRefines(m: Memory, kind: Kind, left: seq<Value>, right: seq<Value>)
    requires Proper(m, kind, left) && Proper(m, kind, right)
    ensures Proper(m, kind, Union(m, kind, left, right))
    ensures Members(m, kind, Union(m, kind, left, right)) == Members(m, kind, left) + Members(m, kind, right)
    ensures Proper(m, kind, Intersection(m, kind, left, right))
    ensures Members(m, kind, Intersection(m, kind, left, right)) == Members(m, kind, left) * Members(m, kind, right)
    ensures Proper(m, kind, Difference(m, kind, left, right))
    ensures Members(m, kind, Difference(m, kind, left, right)) == Members(m, kind, left) - Members(m, kind, right)
    ensures Proper(m, kind, SymmetricDifference(m, kind, left, right))
    ensures Members(m, kind, SymmetricDifference(m, kind, left, right))
         == (Members(m, kind, left) - Members(m, kind, right)) + (Members(m, kind, right) - Members(m, kind, left))
  {
    hide Members, Unique;
    KeepChooses(m, kind, left, right, true);
    KeepChooses(m, kind, left, right, false);
    KeepChooses(m, kind, right, left, false);
    AppendDisjoint(m, kind, Keep(m, kind, left, right, false), Keep(m, kind, right, left, false));
    UnionRefines(m, kind, left, right);
  }

  lemma UnionRefines(m: Memory, kind: Kind, left: seq<Value>, right: seq<Value>)
    requires AllReadable(m, kind, left) && AllReadable(m, kind, right)
    ensures Proper(m, kind, Union(m, kind, left, right))
    ensures Members(m, kind, Union(m, kind, left, right)) == Members(m, kind, left) + Members(m, kind, right)
  {
    hide PushAll;
    PushAllAdds(m, kind, [], left + right);
    MembersConcat(m, kind, left, right);
  }

  lemma MembersConcat(m: Memory, kind: Kind, a: seq<Value>, b: seq<Value>)
    requires AllReadable(m, kind, a) && AllReadable(m, kind, b)
    ensures AllReadable(m, kind, a + b) && Members(m, kind, a + b) == Members(m, kind, a) + Members(m, kind, b)
  {
    var all := a + b;
    forall x
      ensures x in Members(m, kind, all) <==> x in Members(m, kind, a) + Members(m, kind, b)
    {
      if i :| 0 <= i < |a| && Meant(m, kind, a[i]) == x {
        assert Meant(m, kind, all[i]) == x;
      }
      if i :| 0 <= i < |b| && Meant(m, kind, b[i]) == x {
        assert Meant(m, kind, all[|a| + i]) == x;
      }
      if i :| 0 <= i < |all| && Meant(m, kind, all[i]) == x {
        if i < |a| {
          assert all[i] == a[i];
        } else {
          assert all[i] == b[i - |a|];
        }
      }
    }
  }

  lemma SubsetIff(m: Memory, kind: Kind, left: seq<Value>, right: seq<Value>)
    requires AllReadable(m, kind, left) && AllReadable(m, kind, right)
    ensures IsSubset(m, kind, left, right) <==> Members(m, kind, left) <= Members(m, kind, right)
  {
    forall i | 0 <= i < |left|
      ensures Contains(m, kind, right, left[i]) <==> Meant(m, kind, left[i]) in Members(m, kind, right)
    {
      ContainsIff(m, kind, right, left[i]);
    }
  }
}
