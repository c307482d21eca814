/** The map and set objects of llvm/src/collection_map.rs, refining finite maps and sets. */
module CollectionMap {
  import opened Prelude
  import opened CollectionValues

  datatype Pair = Pair(key: Value, value: Value)

  function Keys(entries: seq<Pair>): seq<Value> {
    seq(|entries|, i requires 0 <= i < |entries| => entries[i].key)
  }

  /** The position of the first equal key, or the length. */
  function FindKey(m: Memory, kind: Kind, entries: seq<Pair>, key: Value): (i: nat)
    ensures i <= |entries| && (i < |entries| ==> ValuesEqual(m, kind, entries[i].key, key))
    ensures forall j | 0 <= j < i :: !ValuesEqual(m, kind, entries[j].key, key)
  {
    if entries == [] || ValuesEqual(m, kind, entries[0].key, key) then 0 else 1 + FindKey(m, kind, entries[1..], key)
  }

  /** Overwrite the value of an equal key, or append. */
  function PutIn(m: Memory, kind: Kind, entries: seq<Pair>, key: Value, value: Value): seq<Pair> {
    var i := FindKey(m, kind, entries, key);
    if i < |entries| then entries[i := Pair(entries[i].key, value)] else entries + [Pair(key, value)]
  }

  /** `retain` the entries whose key is not equal. */
  function DropKey(m: Memory, kind: Kind, entries: seq<Pair>, key: Value): seq<Pair> {
    if entries == [] then []
    else
      var init, last := entries[..|entries| - 1], entries[|entries| - 1];
      DropKey(m, kind, init, key) + if ValuesEqual(m, kind, last.key, key) then [] else [last]
  }

  // ---- the finite map a list of entries stands for ----

  ghost predicate Sound(m: Memory, kind: Kind, entries: seq<Pair>) {
    Proper(m, kind, Keys(entries))
  }

  ghost function At(m: Memory, kind: Kind, entries: seq<Pair>, x: Meaning): (i: nat)
    requires AllReadable(m, kind, Keys(entries)) && x in Members(m, kind, Keys(entries))
    ensures i < |entries| && Meant(m, kind, Keys(entries)[i]) == x
  {
    var i :| 0 <= i < |entries| && Meant(m, kind, Keys(entries)[i]) == x;
    i
  }

  ghost function MapOf(m: Memory, kind: Kind, entries: seq<Pair>): map<Meaning, Value>
    requires AllReadable(m, kind, Keys(entries))
  {
    map x | x in Members(m, kind, Keys(entries)) :: entries[At(m, kind, entries, x)].value
  }

  lemma MapOfAt(m: Memory, kind: Kind, entries: seq<Pair>, i: nat)
    requires Sound(m, kind, entries) && i < |entries|
    ensures Meant(m, kind, Keys(entries)[i]) in MapOf(m, kind, entries)
    ensures MapOf(m, kind, entries)[Meant(m, kind, Keys(entries)[i])] == entries[i].value
  {
    var keys := Keys(entries);
    var j := At(m, kind, entries, Meant(m, kind, keys[i]));
    EqualIsMeaning(m, kind, keys[i], keys[j]);
    EqualIsMeaning(m, kind, keys[j], keys[i]);
  }

  /** A map that agrees with every entry and has no other key is the one the entries stand for. */
  lemma MapOfIs(m: Memory, kind: Kind, entries: seq<Pair>, c: map<Meaning, Value>)
    requires Sound(m, kind, entries)
    requires forall x | x in c :: exists i :: 0 <= i < |entries| && Meant(m, kind, Keys(entries)[i]) == x
    requires forall i | 0 <= i < |entries| ::
      Meant(m, kind, Keys(entries)[i]) in c && c[Meant(m, kind, Keys(entries)[i])] == entries[i].value
    ensures MapOf(m, kind, entries) == c
  {
    hide MapOf;
    forall x
      ensures x in MapOf(m, kind, entries) <==> x in c
      ensures x in c ==> MapOf(m, kind, entries)[x] == c[x]
    {
      MapOfDomain(m, kind, entries, x);
      if i :| 0 <= i < |entries| && Meant(m, kind, Keys(entries)[i]) == x {
        MapOfAt(m, kind, entries, i);
      }
    }
  }

  lemma MapOfDomain(m: Memory, kind: Kind, entries: seq<Pair>, x: Meaning)
    requires AllReadable(m, kind, Keys(entries))
    ensures x in MapOf(m, kind, entries) <==> exists i :: 0 <= i < |entries| && Meant(m, kind, Keys(entries)[i]) == x
  {
  }

  lemma FindKeyIff(m: Memory, kind: Kind, entries: seq<Pair>, key: Value)
    requires Sound(m, kind, entries) && Readable(m, kind, key)
    ensures var i := FindKey(m, kind, entries, key);
      && (i < |entries| <==> Meant(m, kind, key) in MapOf(m, kind, entries))
      && (i < |entries| ==> MapOf(m, kind, entries)[Meant(m, kind, key)] == entries[i].value)
  {
    var i := FindKey(m, kind, entries, key);
    if i < |entries| {
      EqualIsMeaning(m, kind, Keys(entries)[i], key);
      MapOfAt(m, kind, entries, i);
    }
    if Meant(m, kind, key) in MapOf(m, kind, entries) {
      var j := At(m, kind, entries, Meant(m, kind, key));
      EqualIsMeaning(m, kind, Keys(entries)[j], key);
    }
  }

  /** Putting a readable key updates the map at what the key means, and keeps the keys distinct. */
  lemma PutRefines(m: Memory, kind: Kind, entries: seq<Pair>, key: Value, value: Value)
    requires Sound(m, kind, entries) && Readable(m, kind, key)
    ensures Sound(m, kind, PutIn(m, kind, entries, key, value))
    ensures MapOf(m, kind, PutIn(m, kind, entries, key, value)) == MapOf(m, kind, entries)[Meant(m, kind, key) := value]
  {
    var i := FindKey(m, kind, entries, key);
    var after := PutIn(m, kind, entries, key, value);
    FindKeyIff(m, kind, entries, key);
    if i < |entries| {
      EqualIsMeaning(m, kind, entries[i].key, key);
      assert Keys(after) == Keys(entries);
    } else {
      assert Keys(after) == Keys(entries) + [key];
      assert !Contains(m, kind, Keys(entries), key);
      PushUniqueAdds(m, kind, Keys(entries), key);
    }
    PutAgrees(m, kind, entries, key, value);
    MapOfIs(m, kind, after, MapOf(m, kind, entries)[Meant(m, kind, key) := value]);
  }

  lemma PutAgrees(m: Memory, kind: Kind, entries: seq<Pair>, key: Value, value: Value)
    requires Sound(m, kind, entries) && Readable(m, kind, key) && Sound(m, kind, PutIn(m, kind, entries, key, value))
    ensures var after := PutIn(m, kind, entries, key, value);
      var c := MapOf(m, kind, entries)[Meant(m, kind, key) := value];
      && (forall x | x in c :: exists k :: 0 <= k < |after| && Meant(m, kind, Keys(after)[k]) == x)
      && (forall k | 0 <= k < |after| ::
            Meant(m, kind, Keys(after)[k]) in c && c[Meant(m, kind, Keys(after)[k])] == after[k].value)
  {
    hide MapOf, Sound, PutIn;
    SoundReadable(m, kind, entries);
    var after := PutIn(m, kind, entries, key, value);
    SoundReadable(m, kind, after);
    var c := MapOf(m, kind, entries)[Meant(m, kind, key) := value];
    var at := FindKey(m, kind, entries, key);
    PutShape(m, kind, entries, key, value);
    forall k | 0 <= k < |after|
      ensures Meant(m, kind, Keys(after)[k]) in c && c[Meant(m, kind, Keys(after)[k])] == after[k].value
    {
      if k != at {
        SoundDistinct(m, kind, after, k, at);
        MapOfAt(m, kind, entries, k);
      }
    }
    forall x | x in c
      ensures exists k :: 0 <= k < |after| && Meant(m, kind, Keys(after)[k]) == x
    {
      if x == Meant(m, kind, key) {
        assert Meant(m, kind, Keys(after)[at]) == x;
      } else {
        MapOfDomain(m, kind, entries, x);
        var k :| 0 <= k < |entries| && Meant(m, kind, Keys(entries)[k]) == x;
        assert Keys(after)[k] == Keys(entries)[k];
      }
    }
  }

  lemma SoundReadable(m: Memory, kind: Kind, entries: seq<Pair>)
    requires Sound(m, kind, entries)
    ensures AllReadable(m, kind, Keys(entries))
  {
  }

  lemma SoundDistinct(m: Memory, kind: Kind, entries: seq<Pair>, i: nat, j: nat)
    requires Sound(m, kind, entries) && i < |entries| && j < |entries| && i != j
    ensures Meant(m, kind, Keys(entries)[i]) != Meant(m, kind, Keys(entries)[j])
  {
    var low, high := if i < j then i else j, if i < j then j else i;
    EqualIsMeaning(m, kind, Keys(entries)[low], Keys(entries)[high]);
  }

  /** A put changes one position: what is there means the key and holds the value; keys elsewhere stay. */
  lemma PutShape(m: Memory, kind: Kind, entries: seq<Pair>, key: Value, value: Value)
    requires Readable(m, kind, key) && AllReadable(m, kind, Keys(entries))
    ensures var after, at := PutIn(m, kind, entries, key, value), FindKey(m, kind, entries, key);
      && at < |after| && |entries| <= |after| && (|after| == |entries| || |after| == at + 1)
      && Readable(m, kind, after[at].key) && Meant(m, kind, after[at].key) == Meant(m, kind, key)
      && after[at].value == value
      && (forall k | 0 <= k < |after| && k != at :: k < |entries| && after[k] == entries[k])
      && (forall k | 0 <= k < |entries| :: after[k].key == entries[k].key)
  {
    var at := FindKey(m, kind, entries, key);
    if at < |entries| {
      assert Readable(m, kind, Keys(entries)[at]);
      EqualIsMeaning(m, kind, entries[at].key, key);
    }
  }

  /** A key that was put is found again exactly when it is readable, whatever the entries. */
  lemma PutFoundIff(m: Memory, kind: Kind, entries: seq<Pair>, key: Value, value: Value)
    ensures var after := PutIn(m, kind, entries, key, value);
      FindKey(m, kind, after, key) < |after| <==> Readable(m, kind, key)
  {
    var after, i := PutIn(m, kind, entries, key, value), FindKey(m, kind, entries, key);
    ReflexiveIffReadable(m, kind, key);
    if i == |entries| {
      assert after[i].key == key && forall j | 0 <= j < i :: after[j] == entries[j];
    } else {
      assert after[i].key == entries[i].key;
    }
  }

  /** A second put of the same key overwrites exactly when the key is readable; otherwise it is stored once more. */
  lemma PutTwiceIff(m: Memory, kind: Kind, entries: seq<Pair>, key: Value, value: Value, other: Value)
    ensures var once := PutIn(m, kind, entries, key, value);
      var twice := PutIn(m, kind, once, key, other);
      && (|twice| == |once| <==> Readable(m, kind, key))
      && (!Readable(m, kind, key) ==> twice == entries + [Pair(key, value), Pair(key, other)])
  {
    PutFoundIff(m, kind, entries, key, value);
    UnreadableNotFound(m, kind, entries, key);
  }

  lemma UnreadableNotFound(m: Memory, kind: Kind, entries: seq<Pair>, key: Value)
    ensures !Readable(m, kind, key) ==> FindKey(m, kind, entries, key) == |entries|
  {
  }

  /** The null text pointer, put twice into an empty map, is stored twice and found neither time. */
  lemma NullTextStoredTwice(v: Value, w: Value)
    ensures var twice := PutIn(map[], Text, PutIn(map[], Text, [], Pointer(0), v), Pointer(0), w);
      twice == [Pair(Pointer(0), v), Pair(Pointer(0), w)] && FindKey(map[], Text, twice, Pointer(0)) == 2
  {
    PutTwiceIff(map[], Text, [], Pointer(0), v, w);
    UnreadableNotFound(map[], Text, [Pair(Pointer(0), v), Pair(Pointer(0), w)], Pointer(0));
  }

  /** No put ever makes two keys equal in the eyes of the host. */
  lemma PutKeepsUnique(m: Memory, kind: Kind, entries: seq<Pair>, key: Value, value: Value)
    requires Unique(m, kind, Keys(entries))
    ensures Unique(m, kind, Keys(PutIn(m, kind, entries, key, value)))
  {
    var i, after := FindKey(m, kind, entries, key), PutIn(m, kind, entries, key, value);
    if i < |entries| {
      assert Keys(after) == Keys(entries);
    } else {
      assert Keys(after) == Keys(entries) + [key];
    }
  }

  /** Memory only grows; a map stays sound and stands for the same finite map. */
  lemma MapGrows(m: Memory, larger: Memory, kind: Kind, entries: seq<Pair>)
    requires Sound(m, kind, entries) && m.Keys <= larger.Keys && forall a | a in m :: larger[a] == m[a]
    ensures Sound(larger, kind, entries) && MapOf(larger, kind, entries) == MapOf(m, kind, entries)
  {
    hide MapOf;
    var keys, c := Keys(entries), MapOf(m, kind, entries);
    MembersGrow(m, larger, kind, keys);
    forall i | 0 <= i < |entries|
      ensures Meant(larger, kind, keys[i]) == Meant(m, kind, keys[i])
      ensures Meant(m, kind, keys[i]) in c && c[Meant(m, kind, keys[i])] == entries[i].value
    {
      MapOfAt(m, kind, entries, i);
    }
    forall x | x in c
      ensures exists i :: 0 <= i < |entries| && Meant(larger, kind, keys[i]) == x
    {
      MapOfDomain(m, kind, entries, x);
      var i :| 0 <= i < |entries| && Meant(m, kind, keys[i]) == x;
      assert Meant(larger, kind, keys[i]) == x;
    }
    MapOfIs(larger, kind, entries, c);
  }

  /** Deleting removes exactly what the key means. */
  lemma {:induction false} DeleteRefines(m: Memory, kind: Kind, entries: seq<Pair>, key: Value)
    requires Sound(m, kind, entries) && Readable(m, kind, key)
    ensures Sound(m, kind, DropKey(m, kind, entries, key))
    ensures MapOf(m, kind, DropKey(m, kind, entries, key)) == MapOf(m, kind, entries) - {Meant(m, kind, key)}
    ensures |DropKey(m, kind, entries, key)| != |entries| <==> Meant(m, kind, key) in MapOf(m, kind, entries)
  {
    hide MapOf;
    if entries == [] {
      EmptyMap(m, kind, key);
    } else {
      var init, last := entries[..|entries| - 1], entries[|entries| - 1];
      assert entries == init + [last];
      SoundInit(m, kind, init, last);
      DeleteRefines(m, kind, init, key);
      EqualIsMeaning(m, kind, last.key, key);
      AppendEntry(m, kind, init, last);
      var kept := DropKey(m, kind, init, key);
      if ValuesEqual(m, kind, last.key, key) {
        assert kept + [] == kept;
      } else {
        AppendEntry(m, kind, kept, last);
      }
    }
  }

  lemma EmptyMap(m: Memory, kind: Kind, key: Value)
    requires Readable(m, kind, key)
    ensures Sound(m, kind, []) && MapOf(m, kind, []) == map[]
  {
  }

  lemma SoundInit(m: Memory, kind: Kind, init: seq<Pair>, last: Pair)
    requires Sound(m, kind, init + [last])
    ensures Sound(m, kind, init) && Readable(m, kind, last.key)
    ensures Meant(m, kind, last.key) !in MapOf(m, kind, init)
  {
    var all := init + [last];
    assert Keys(all) == Keys(init) + [last.key];
    assert forall i | 0 <= i < |init| :: Keys(all)[i] == Keys(init)[i];
    assert Keys(all)[|init|] == last.key;
    NewMember(m, kind, Keys(init), last.key);
  }

  /** An entry with a new key extends the map. */
  lemma AppendEntry(m: Memory, kind: Kind, init: seq<Pair>, last: Pair)
    requires Sound(m, kind, init) && Readable(m, kind, last.key) && Meant(m, kind, last.key) !in MapOf(m, kind, init)
    ensures Sound(m, kind, init + [last])
    ensures MapOf(m, kind, init + [last]) == MapOf(m, kind, init)[Meant(m, kind, last.key) := last.value]
  {
    FindKeyIff(m, kind, init, last.key);
    PutRefines(m, kind, init, last.key, last.value);
  }

  /** A sound list has one entry per key. */
  lemma MapSize(m: Memory, kind: Kind, entries: seq<Pair>)
    requires Sound(m, kind, entries)
    ensures |MapOf(m, kind, entries)| == |entries|
  {
    ProperSize(m, kind, Keys(entries));
    assert MapOf(m, kind, entries).Keys == Members(m, kind, Keys(entries));
  }

  // ---- the objects ----

  class RuntimeMap {
    const keyKind: Kind
    const valueKind: Kind
    var entries: seq<Pair>

    ghost predicate Valid(m: Memory)
      reads this
    {
      Sound(m, keyKind, entries)
    }

    ghost function Contents(m: Memory): map<Meaning, Value>
      requires Valid(m)
      reads this
    {
      MapOf(m, keyKind, entries)
    }

    constructor (keyKind: Kind, valueKind: Kind, m: Memory)
      ensures this.keyKind == keyKind && this.valueKind == valueKind && Valid(m) && Contents(m) == map[]
    {
      this.keyKind, this.valueKind, entries := keyKind, valueKind, [];
    }

    /** The position of the first equal key, by the linear search of `find`. */
    method Find(m: Memory, key: Value) returns (i: nat)
      ensures i == FindKey(m, keyKind, entries, key)
    {
      i := 0;
      while i < |entries|
        invariant i <= |entries| && FindKey(m, keyKind, entries, key) == i + FindKey(m, keyKind, entries[i..], key)
      {
        if ValuesEqual(m, keyKind, entries[i].key, key) {
          return;
        }
        assert entries[i..][1..] == entries[i + 1..];
        i := i + 1;
      }
    }

    /** `map_put`; an unreadable text key is stored too, but is never found again. */
    method Put(m: Memory, keyTag: Kind, key: Value, valueTag: Kind, value: Value) returns (ok: bool)
      modifies this
      ensures ok <==> keyTag == keyKind && valueTag == valueKind
      ensures !ok ==> entries == old(entries)
      ensures ok ==> entries == PutIn(m, keyKind, old(entries), key, value)
      ensures ok && old(Valid(m)) && Readable(m, keyKind, key) ==>
        Valid(m) && Contents(m) == old(Contents(m))[Meant(m, keyKind, key) := value]
    {
      hide Sound, MapOf;
      if keyTag != keyKind || valueTag != valueKind {
        return false;
      }
      if Valid(m) && Readable(m, keyKind, key) {
        PutRefines(m, keyKind, entries, key, value);
      }
      var i := Find(m, key);
      if i < |entries| {
        entries := entries[i := Pair(entries[i].key, value)];
      } else {
        entries := entries + [Pair(key, value)];
      }
      return true;
    }

    /** `map_option` and `map_get`: the value of an equal key, if any. */
    method Get(m: Memory, keyTag: Kind, key: Value, valueTag: Kind) returns (ok: bool, value: Option<Value>)
      ensures ok <==> keyTag == keyKind && valueTag == valueKind
      ensures var i := FindKey(m, keyKind, entries, key);
        value == if ok && i < |entries| then Some(entries[i].value) else None
      ensures value.Some? ==> ok && Readable(m, keyKind, key)
      ensures ok && Valid(m) && Readable(m, keyKind, key) ==>
        value == if Meant(m, keyKind, key) in Contents(m) then Some(Contents(m)[Meant(m, keyKind, key)]) else None
    {
      hide Sound, MapOf;
      if keyTag != keyKind || valueTag != valueKind {
        return false, None;
      }
      var i := Find(m, key);
      if Valid(m) && Readable(m, keyKind, key) {
        FindKeyIff(m, keyKind, entries, key);
      }
      if i < |entries| {
        return true, Some(entries[i].value);
      }
      return true, None;
    }

    /** `map_delete`: whether the key was there. */
    method Delete(m: Memory, keyTag: Kind, key: Value) returns (ok: bool, present: bool)
      modifies this
      ensures ok <==> keyTag == keyKind
      ensures entries == if ok then DropKey(m, keyKind, old(entries), key) else old(entries)
      ensures present <==> |entries| != |old(entries)|
      ensures ok && old(Valid(m)) && Readable(m, keyKind, key) ==>
        && Valid(m) && Contents(m) == old(Contents(m)) - {Meant(m, keyKind, key)}
        && (present <==> Meant(m, keyKind, key) in old(Contents(m)))
    {
      hide Sound, MapOf;
      if keyTag != keyKind {
        return false, false;
      }
      ok := true;
      if Valid(m) && Readable(m, keyKind, key) {
        DeleteRefines(m, keyKind, entries, key);
      }
      var kept: seq<Pair> := [];
      for i := 0 to |entries|
        invariant kept == DropKey(m, keyKind, entries[..i], key)
      {
        assert entries[..i + 1][..i] == entries[..i];
        if !ValuesEqual(m, keyKind, entries[i].key, key) {
          kept := kept + [entries[i]];
        }
      }
      assert entries[..|entries|] == entries;
      present := |kept| != |entries|;
      entries := kept;
    }

    /** `map_length` */
    method Length(m: Memory) returns (n: nat)
      ensures n == |entries| && (Valid(m) ==> n == |Contents(m)|)
    {
      if Valid(m) {
        MapSize(m, keyKind, entries);
      }
      return |entries|;
    }
  }

  class RuntimeSet {
    const kind: Kind
    var values: seq<Value>

    ghost predicate Valid(m: Memory)
      reads this
    {
      Proper(m, kind, values)
    }

    ghost function Contents(m: Memory): set<Meaning>
      requires Valid(m)
      reads this
    {
      Members(m, kind, values)
    }

    constructor (kind: Kind, values: seq<Value>, m: Memory)
      ensures this.kind == kind && this.values == values && (Proper(m, kind, values) ==> Valid(m))
    {
      this.kind, this.values := kind, values;
    }

    /** `set_add` */
    method Add(m: Memory, tag: Kind, value: Value) returns (ok: bool)
      modifies this
      ensures ok <==> tag == kind
      ensures values == if ok then PushUnique(m, kind, old(values), value) else old(values)
      ensures ok && old(Valid(m)) && Readable(m, kind, value) ==>
        Valid(m) && Contents(m) == old(Contents(m)) + {Meant(m, kind, value)}
    {
      hide Proper, Members;
      if tag != kind {
        return false;
      }
      if Valid(m) && Readable(m, kind, value) {
        PushUniqueAdds(m, kind, values, value);
      }
      if !Contains(m, kind, values, value) {
        values := values + [value];
      }
      return true;
    }

    /** `set_contains` */
    method Has(m: Memory, tag: Kind, value: Value) returns (ok: bool, present: bool)
      ensures ok <==> tag == kind
      ensures present <==> ok && Contains(m, kind, values, value)
      ensures Valid(m) ==> (present <==> ok && Readable(m, kind, value) && Meant(m, kind, value) in Contents(m))
    {
      if tag != kind {
        return false, false;
      }
      ok := true;
      if Valid(m) && Readable(m, kind, value) {
        ContainsIff(m, kind, values, value);
      }
      present := Contains(m, kind, values, value);
    }

    /** `set_delete`: drop every equal member. */
    method Delete(m: Memory, tag: Kind, value: Value) returns (ok: bool, present: bool)
      modifies this
      ensures ok <==> tag == kind
      ensures values == if ok then Keep(m, kind, old(values), [value], false) else old(values)
      ensures present <==> ok && Contains(m, kind, old(values), value)
      ensures ok && old(Valid(m)) && Readable(m, kind, value) ==>
        && Valid(m) && Contents(m) == old(Contents(m)) - {Meant(m, kind, value)}
        && (present <==> Meant(m, kind, value) in old(Contents(m)))
    {
      hide Proper, Members, Contains;
      if tag != kind {
        return false, false;
      }
      ok := true;
      if Valid(m) && Readable(m, kind, value) {
        ProperReadable(m, kind, values);
        ContainsIff(m, kind, values, value);
        KeepOthers(m, kind, values, value);
      }
      present := Contains(m, kind, values, value);
      var before := values;
      var kept: seq<Value> := [];
      for i := 0 to |before|
        invariant kept == Keep(m, kind, before[..i], [value], false)
      {
        assert before[..i + 1][..i] == before[..i];
        ContainsOne(m, kind, value, before[i]);
        if !ValuesEqual(m, kind, before[i], value) {
          kept := kept + [before[i]];
        }
      }
      assert before[..|before|] == before;
      values := kept;
    }

    static lemma ProperReadable(m: Memory, kind: Kind, vs: seq<Value>)
      requires Proper(m, kind, vs)
      ensures AllReadable(m, kind, vs)
    {
    }

    static lemma ContainsOne(m: Memory, kind: Kind, value: Value, v: Value)
      ensures Contains(m, kind, [value], v) <==> ValuesEqual(m, kind, v, value)
    {
      assert [value][0] == value;
    }

    static lemma KeepOthers(m: Memory, kind: Kind, vs: seq<Value>, value: Value)
      requires Proper(m, kind, vs) && Readable(m, kind, value)
      ensures Proper(m, kind, Keep(m, kind, vs, [value], false))
      ensures Members(m, kind, Keep(m, kind, vs, [value], false)) == Members(m, kind, vs) - {Meant(m, kind, value)}
    {
      KeepChooses(m, kind, vs, [value], false);
      assert [] + [value] == [value] && Members(m, kind, []) == {};
      MembersAppend(m, kind, [], value);
    }

    /** `set_from_array`: the members of the array, once each. */
    static method FromArray(m: Memory, kind: Kind, items: seq<Value>) returns (s: RuntimeSet)
      ensures fresh(s) && s.kind == kind && s.values == PushAll(m, kind, [], items)
      ensures AllReadable(m, kind, items) ==> s.Valid(m) && s.Contents(m) == Members(m, kind, items)
    {
      hide Members, Contains, AllReadable;
      var values: seq<Value> := [];
      for i := 0 to |items|
        invariant values == PushAll(m, kind, [], items[..i])
      {
        assert items[..i + 1][..i] == items[..i];
        if !Contains(m, kind, values, items[i]) {
          values := values + [items[i]];
        }
      }
      assert items[..|items|] == items;
      if AllReadable(m, kind, items) {
        EmptyProper(m, kind);
        PushAllAdds(m, kind, [], items);
      }
      s := new RuntimeSet(kind, values, m);
    }

    static lemma EmptyProper(m: Memory, kind: Kind)
      ensures Proper(m, kind, []) && Members(m, kind, []) == {}
    {
    }

    /** `set_length` */
    method Length(m: Memory) returns (n: nat)
      ensures n == |values| && (Valid(m) ==> n == |Contents(m)|)
    {
      if Valid(m) {
        ProperSize(m, kind, values);
      }
      return |values|;
    }

    /** `set_union`: a new set; the operands keep their members. */
    static method UnionOf(m: Memory, left: RuntimeSet, right: RuntimeSet) returns (s: Option<RuntimeSet>)
      ensures s.Some? <==> left.kind == right.kind
      ensures s.Some? ==>
        && fresh(s.value) && s.value.kind == left.kind
        && s.value.values == Union(m, left.kind, left.values, right.values)
      ensures s.Some? && left.Valid(m) && right.Valid(m) ==>
        s.value.Valid(m) && s.value.Contents(m) == left.Contents(m) + right.Contents(m)
    {
      hide Members, Proper, Union;
      if left.kind != right.kind {
        return None;
      }
      if left.Valid(m) && right.Valid(m) {
        AlgebraRefines(m, left.kind, left.values, right.values);
      }
      var t := new RuntimeSet(left.kind, Union(m, left.kind, left.values, right.values), m);
      return Some(t);
    }

    /** `set_intersection` */
    static method IntersectionOf(m: Memory, left: RuntimeSet, right: RuntimeSet) returns (s: Option<RuntimeSet>)
      ensures s.Some? <==> left.kind == right.kind
      ensures s.Some? ==>
        && fresh(s.value) && s.value.kind == left.kind
        && s.value.values == Intersection(m, left.kind, left.values, right.values)
      ensures s.Some? && left.Valid(m) && right.Valid(m) ==>
        s.value.Valid(m) && s.value.Contents(m) == left.Contents(m) * right.Contents(m)
    {
      hide Members, Proper, Intersection;
      if left.kind != right.kind {
        return None;
      }
      if left.Valid(m) && right.Valid(m) {
        AlgebraRefines(m, left.kind, left.values, right.values);
      }
      var t := new RuntimeSet(left.kind, Intersection(m, left.kind, left.values, right.values), m);
      return Some(t);
    }

    /** `set_difference` */
    static method DifferenceOf(m: Memory, left: RuntimeSet, right: RuntimeSet) returns (s: Option<RuntimeSet>)
      ensures s.Some? <==> left.kind == right.kind
      ensures s.Some? ==>
        && fresh(s.value) && s.value.kind == left.kind
        && s.value.values == Difference(m, left.kind, left.values, right.values)
      ensures s.Some? && left.Valid(m) && right.Valid(m) ==>
        s.value.Valid(m) && s.value.Contents(m) == left.Contents(m) - right.Contents(m)
    {
      hide Members, Proper, Difference;
      if left.kind != right.kind {
        return None;
      }
      if left.Valid(m) && right.Valid(m) {
        AlgebraRefines(m, left.kind, left.values, right.values);
      }
      var t := new RuntimeSet(left.kind, Difference(m, left.kind, left.values, right.values), m);
      return Some(t);
    }

    /** `set_symmetric_difference` */
    static method SymmetricDifferenceOf(m: Memory, left: RuntimeSet, right: RuntimeSet) returns (s: Option<RuntimeSet>)
      ensures s.Some? <==> left.kind == right.kind
      ensures s.Some? ==> fresh(s.value) && s.value.kind == left.kind
      ensures s.Some? ==> s.value.values == SymmetricDifference(m, left.kind, left.values, right.values)
      ensures s.Some? && left.Valid(m) && right.Valid(m) ==>
        && s.value.Valid(m)
        && s.value.Contents(m) == (left.Contents(m) - right.Contents(m)) + (right.Contents(m) - left.Contents(m))
    {
      hide Members, Proper, SymmetricDifference;
      if left.kind != right.kind {
        return None;
      }
      if left.Valid(m) && right.Valid(m) {
        AlgebraRefines(m, left.kind, left.values, right.values);
      }
      var t := new RuntimeSet(left.kind, SymmetricDifference(m, left.kind, left.values, right.values), m);
      return Some(t);
    }

    /** `set_is_subset`; superset is the same with the operands exchanged. */
    static method SubsetOf(m: Memory, left: RuntimeSet, right: RuntimeSet) returns (r: Option<bool>)
      ensures r.Some? <==> left.kind == right.kind
      ensures r.Some? ==> r.value == IsSubset(m, left.kind, left.values, right.values)
      ensures r.Some? && left.Valid(m) && right.Valid(m) ==> r.value == (left.Contents(m) <= right.Contents(m))
    {
      hide Members, IsSubset;
      if left.kind != right.kind {
        return None;
      }
      if left.Valid(m) && right.Valid(m) {
        SubsetIff(m, left.kind, left.values, right.values);
      }
      return Some(IsSubset(m, left.kind, left.values, right.values));
    }
  }
}
