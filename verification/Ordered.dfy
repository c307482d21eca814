/** Iteration order of BTreeSet and BTreeMap: the keys once each, in ascending order. */
module Ordered {
  import opened Prelude

  ghost predicate StrictOrder<T(!new)>(less: (T, T) -> bool) {
    && (forall x :: !less(x, x))
    && (forall x, y, z :: less(x, y) && less(y, z) ==> less(x, z))
    && (forall x, y :: x == y || less(x, y) || less(y, x))
  }

  ghost predicate Ascending<T>(s: seq<T>, less: (T, T) -> bool) {
    forall i, j | 0 <= i < j < |s| :: less(s[i], s[j])
  }

  ghost predicate Distinct<T>(s: seq<T>) {
    forall i, j | 0 <= i < j < |s| :: s[i] != s[j]
  }

  function Elements<T>(s: seq<T>): set<T> {
    set x | x in s
  }

  ghost predicate IsLeast<T>(x: T, s: set<T>, less: (T, T) -> bool) {
    x in s && forall y | y in s :: y == x || less(x, y)
  }

  lemma Asymmetric<T(!new)>(less: (T, T) -> bool, x: T, y: T)
    requires StrictOrder(less) && less(x, y)
    ensures !less(y, x) && x != y
  {
  }

  lemma LeastExists<T(!new)>(s: set<T>, less: (T, T) -> bool)
    requires StrictOrder(less) && s != {}
    ensures exists x :: IsLeast(x, s, less)
  {
    var a :| a in s;
    if s == {a} {
      assert IsLeast(a, s, less);
    } else {
      LeastExists(s - {a}, less);
      var b :| IsLeast(b, s - {a}, less);
      if less(a, b) {
        assert forall y | y in s :: y == a || y in s - {a};
        assert IsLeast(a, s, less);
      } else {
        assert less(b, a);
        assert forall y | y in s :: y == a || y in s - {a};
        assert IsLeast(b, s, less);
      }
    }
  }

  function Least<T(!new)>(s: set<T>, less: (T, T) -> bool): (r: T)
    requires StrictOrder(less) && s != {}
    ensures IsLeast(r, s, less)
  {
    LeastExists(s, less);
    var x :| x in s && forall y | y in s :: y == x || less(x, y);
    x
  }

  /** The members of `s` in ascending order. */
  function Sorted<T(!new)>(s: set<T>, less: (T, T) -> bool): seq<T>
    requires StrictOrder(less)
  {
    if s == {} then [] else var x := Least(s, less); [x] + Sorted(s - {x}, less)
  }

  lemma {:induction false} SortedListing<T(!new)>(s: set<T>, less: (T, T) -> bool)
    requires StrictOrder(less)
    ensures Ascending(Sorted(s, less), less)
    ensures Elements(Sorted(s, less)) == s && |Sorted(s, less)| == |s|
  {
    if s != {} {
      var x := Least(s, less);
      var rest := Sorted(s - {x}, less);
      SortedListing(s - {x}, less);
      forall i, j | 0 <= i < j < |rest| + 1
        ensures less(([x] + rest)[i], ([x] + rest)[j])
      {
        if i == 0 {
          assert rest[j - 1] in Elements(rest);
        }
      }
      assert Elements([x] + rest) == {x} + Elements(rest);
    }
  }

  /** Whatever is less than the i-th listed member is listed before it. */
  lemma SortedBefore<T(!new)>(s: set<T>, less: (T, T) -> bool, i: nat, x: T)
    requires StrictOrder(less) && i < |Sorted(s, less)|
    requires x in s && less(x, Sorted(s, less)[i])
    ensures x in Sorted(s, less)[..i]
  {
    var r := Sorted(s, less);
    SortedListing(s, less);
    assert x in Elements(r);
    var j :| 0 <= j < |r| && r[j] == x;
    Asymmetric(less, x, r[i]);
  }

  /** An ascending list is determined by its elements. */
  lemma {:induction false} AscendingUnique<T(!new)>(a: seq<T>, b: seq<T>, less: (T, T) -> bool)
    requires StrictOrder(less) && Ascending(a, less) && Ascending(b, less)
    requires Elements(a) == Elements(b)
    ensures a == b
  {
    ElementsEmpty(a);
    ElementsEmpty(b);
    if a != [] {
      assert a[0] in Elements(b) && b[0] in Elements(a);
      assert a[0] == b[0];
      AscendingTail(a, less);
      AscendingTail(b, less);
      AscendingUnique(a[1..], b[1..], less);
    }
  }

  lemma ElementsEmpty<T>(a: seq<T>)
    ensures Elements(a) == {} <==> a == []
  {
    if a != [] {
      assert a[0] in Elements(a);
    }
  }

  lemma AscendingTail<T(!new)>(a: seq<T>, less: (T, T) -> bool)
    requires StrictOrder(less) && Ascending(a, less) && a != []
    ensures Ascending(a[1..], less) && Elements(a[1..]) == Elements(a) - {a[0]}
  {
    forall x | x in a[1..]
      ensures x != a[0]
    {
    }
  }

  predicate U32Less(x: u32, y: u32) { x < y }

  lemma U32Order()
    ensures StrictOrder(U32Less)
  {
  }

  predicate U64Less(x: u64, y: u64) { x < y }

  lemma U64Order()
    ensures StrictOrder(U64Less)
  {
  }

  /** The `n` integers from `a` on. */
  function Range(a: int, n: nat): set<int> {
    if n == 0 then {} else Range(a, n - 1) + {a + n - 1}
  }

  lemma {:induction false} RangeMembers(a: int, n: nat)
    ensures |Range(a, n)| == n
    ensures forall x :: x in Range(a, n) <==> a <= x < a + n
  {
    if n > 0 {
      RangeMembers(a, n - 1);
    }
  }

  lemma SubsetSize<T>(a: set<T>, b: set<T>)
    requires a <= b
    ensures |a| <= |b|
  {
    assert |b| == |a| + |b - a| by {
      assert b == a + (b - a);
    }
  }
}
