/** Tensor shape arithmetic of wasm/src/collections.rs: checked element counts and row-major offsets. */
module TensorShape {
  import opened Prelude
  import opened Arithmetic

  /** The mathematical product of the dimensions. */
  function Product(shape: seq<int>): int {
    if shape == [] then 1 else shape[0] * Product(shape[1..])
  }

  predicate NonNegative(shape: seq<int>) {
    forall i | 0 <= i < |shape| :: shape[i] >= 0
  }

  /** The fold of `tensor_shape_element_count` from an accumulated product. */
  function CountFrom(acc: usize, shape: seq<i64>): Option<usize>
    decreases |shape|
  {
    if shape == [] then Some(acc)
    else if shape[0] < 0 then None
    else
      var next :- CheckedMul(acc, shape[0]);
      CountFrom(next, shape[1..])
  }

  /** `tensor_shape_element_count` */
  function ElementCount(shape: seq<i64>): Option<usize> {
    CountFrom(1, shape)
  }

  /** No leading run of dimensions multiplies to 2^64 or more. */
  ghost predicate PrefixesFit(acc: int, shape: seq<int>) {
    forall k | 0 <= k <= |shape| :: acc * Product(shape[..k]) < 0x1_0000_0000_0000_0000
  }

  lemma {:induction false} ProductNonNegative(shape: seq<int>)
    requires NonNegative(shape)
    ensures Product(shape) >= 0
  {
    if shape != [] {
      ProductNonNegative(shape[1..]);
      MulNonNegative(shape[0], Product(shape[1..]));
    }
  }

  lemma PrefixTail(acc: int, shape: seq<int>, k: nat)
    requires shape != [] && 0 < k <= |shape|
    ensures acc * Product(shape[..k]) == (acc * shape[0]) * Product(shape[1..][..k - 1])
  {
    assert shape[..k][1..] == shape[1..][..k - 1];
    MulAssoc(acc, shape[0], Product(shape[1..][..k - 1]));
  }

  lemma MulAssoc(a: int, b: int, c: int)
    ensures a * (b * c) == (a * b) * c
  {
  }

  lemma PrefixesFitTail(acc: int, shape: seq<int>)
    requires shape != []
    ensures PrefixesFit(acc, shape) <==> acc < 0x1_0000_0000_0000_0000 && PrefixesFit(acc * shape[0], shape[1..])
  {
    hide Product;
    ProductEmpty(shape);
    if PrefixesFit(acc, shape) {
      assert acc * Product(shape[..0]) < 0x1_0000_0000_0000_0000;
      forall k | 0 <= k <= |shape[1..]|
        ensures (acc * shape[0]) * Product(shape[1..][..k]) < 0x1_0000_0000_0000_0000
      {
        PrefixTail(acc, shape, k + 1);
      }
    }
    if acc < 0x1_0000_0000_0000_0000 && PrefixesFit(acc * shape[0], shape[1..]) {
      forall k | 0 <= k <= |shape|
        ensures acc * Product(shape[..k]) < 0x1_0000_0000_0000_0000
      {
        if k > 0 {
          PrefixTail(acc, shape, k);
        }
      }
    }
  }

  lemma ProductEmpty(shape: seq<int>)
    ensures Product(shape[..0]) == 1
  {
  }

  lemma {:induction false} CountFromIff(acc: usize, shape: seq<i64>, n: usize)
    ensures CountFrom(acc, shape) == Some(n)
       <==> NonNegative(shape) && PrefixesFit(acc, shape) && n == acc * Product(shape)
    decreases |shape|
  {
    if shape == [] {
      CountEmpty(acc, shape, n);
    } else {
      if shape[0] >= 0 && acc * shape[0] < 0x1_0000_0000_0000_0000 {
        MulNonNegative(acc, shape[0]);
        CountFromIff(acc * shape[0], shape[1..], n);
      }
      CountStep(acc, shape, n);
    }
  }

  lemma CountEmpty(acc: usize, shape: seq<i64>, n: usize)
    requires shape == []
    ensures CountFrom(acc, shape) == Some(n)
       <==> NonNegative(shape) && PrefixesFit(acc, shape) && n == acc * Product(shape)
  {
    assert forall k | 0 <= k <= |shape| :: shape[..k] == [];
  }

  /** One step of the fold, given what the rest of the fold returns. */
  lemma CountStep(acc: usize, shape: seq<i64>, n: usize)
    requires shape != []
    requires shape[0] >= 0 && 0 <= acc * shape[0] < 0x1_0000_0000_0000_0000 ==>
      (CountFrom(acc * shape[0], shape[1..]) == Some(n)
       <==> && NonNegative(shape[1..]) && PrefixesFit(acc * shape[0], shape[1..])
            && n == (acc * shape[0]) * Product(shape[1..]))
    ensures CountFrom(acc, shape) == Some(n)
       <==> NonNegative(shape) && PrefixesFit(acc, shape) && n == acc * Product(shape)
  {
    hide NonNegative, PrefixesFit;
    NonNegativeTail(shape);
    PrefixesFitTail(acc, shape);
    MulAssoc(acc, shape[0], Product(shape[1..]));
    if shape[0] >= 0 {
      MulNonNegative(acc, shape[0]);
      if PrefixesFit(acc * shape[0], shape[1..]) {
        FirstPrefix(acc * shape[0], shape[1..]);
      }
    }
  }

  lemma FirstPrefix(acc: int, shape: seq<int>)
    requires PrefixesFit(acc, shape)
    ensures acc < 0x1_0000_0000_0000_0000
  {
    ProductEmpty(shape);
    assert acc * Product(shape[..0]) < 0x1_0000_0000_0000_0000;
  }

  lemma NonNegativeTail(shape: seq<int>)
    requires shape != []
    ensures NonNegative(shape) <==> shape[0] >= 0 && NonNegative(shape[1..])
  {
    if shape[0] >= 0 && NonNegative(shape[1..]) {
      forall i | 0 <= i < |shape|
        ensures shape[i] >= 0
      {
        if i > 0 {
          assert shape[i] == shape[1..][i - 1];
        }
      }
    }
  }

  /** The count is the product of the dimensions, given exactly when none is negative and no prefix overflows. */
  lemma ElementCountIff(shape: seq<i64>, n: usize)
    ensures ElementCount(shape) == Some(n) <==> NonNegative(shape) && PrefixesFit(1, shape) && n == Product(shape)
  {
    CountFromIff(1, shape, n);
  }

  // ---- row-major offsets ----

  /** The same rank, and every index within its dimension. */
  predicate InBounds(shape: seq<int>, index: seq<int>) {
    |shape| == |index| && forall i | 0 <= i < |shape| :: 0 <= index[i] < shape[i]
  }

  /** The row-major position: the last axis varies fastest. */
  function Offset(shape: seq<int>, index: seq<int>): int
    requires |shape| == |index|
  {
    if shape == [] then 0 else index[0] * Product(shape[1..]) + Offset(shape[1..], index[1..])
  }

  lemma {:induction false} InBoundsPositive(shape: seq<int>, index: seq<int>)
    requires InBounds(shape, index)
    ensures Product(shape) >= 1 && NonNegative(shape)
  {
    if shape != [] {
      InBoundsTail(shape, index);
      InBoundsPositive(shape[1..], index[1..]);
      MulMono(1, shape[0], Product(shape[1..]));
    }
  }

  lemma InBoundsTail(shape: seq<int>, index: seq<int>)
    requires shape != [] && index != []
    ensures InBounds(shape, index) <==> 0 <= index[0] < shape[0] && InBounds(shape[1..], index[1..])
  {
    if 0 <= index[0] < shape[0] && InBounds(shape[1..], index[1..]) {
      forall i | 0 <= i < |shape|
        ensures 0 <= index[i] < shape[i]
      {
        if i > 0 {
          assert shape[i] == shape[1..][i - 1] && index[i] == index[1..][i - 1];
        }
      }
    }
  }

  /** The offset of an index in bounds is below the element count. */
  lemma {:induction false} OffsetBound(shape: seq<int>, index: seq<int>)
    requires InBounds(shape, index)
    ensures 0 <= Offset(shape, index) < Product(shape)
  {
    if shape != [] {
      InBoundsTail(shape, index);
      OffsetBound(shape[1..], index[1..]);
      MulNonNegative(index[0], Product(shape[1..]));
      MulMono(index[0], shape[0], Product(shape[1..]));
    }
  }

  /** A suffix of positive dimensions multiplies to no more than all of them. */
  lemma {:induction false} SuffixProduct(shape: seq<int>, index: seq<int>, k: nat)
    requires InBounds(shape, index) && k <= |shape|
    ensures 1 <= Product(shape[k..]) <= Product(shape)
  {
    if k == 0 {
      InBoundsPositive(shape, index);
    } else {
      InBoundsTail(shape, index);
      SuffixProduct(shape[1..], index[1..], k - 1);
      assert shape[1..][k - 1..] == shape[k..];
      MulMono(1, shape[0], Product(shape[1..]));
    }
  }

  /** Likewise a prefix. */
  lemma {:induction false} PrefixProduct(shape: seq<int>, index: seq<int>, k: nat)
    requires InBounds(shape, index) && k <= |shape|
    ensures 1 <= Product(shape[..k]) <= Product(shape)
  {
    if k == 0 {
      InBoundsPositive(shape, index);
    } else {
      InBoundsTail(shape, index);
      PrefixProduct(shape[1..], index[1..], k - 1);
      assert shape[..k][1..] == shape[1..][..k - 1];
      MulBoth(shape[0], Product(shape[1..][..k - 1]), Product(shape[1..]));
    }
  }

  lemma MulBoth(a: int, x: int, y: int)
    requires a >= 1 && 1 <= x <= y
    ensures 1 <= a * x <= a * y
  {
    MulMono(x, y, a);
    MulMono(1, a, x);
  }

  /** The offset `tensor_flat_offset` should compute: for indices in bounds of a shape whose product fits usize. */
  function FlatOffset(shape: seq<i64>, index: seq<i64>): Option<int> {
    if InBounds(shape, index) && Product(shape) < 0x1_0000_0000_0000_0000 then Some(Offset(shape, index)) else None
  }

  /** One axis outward: what the loop adds to the offset, and the new stride. */
  lemma SuffixStep(shape: seq<int>, index: seq<int>, k: nat)
    requires |shape| == |index| && 0 < k <= |shape|
    ensures Product(shape[k - 1..]) == shape[k - 1] * Product(shape[k..])
    ensures Offset(shape[k - 1..], index[k - 1..])
         == index[k - 1] * Product(shape[k..]) + Offset(shape[k..], index[k..])
  {
    assert shape[k - 1..][1..] == shape[k..] && index[k - 1..][1..] == index[k..];
  }

  /** `tensor_flat_offset`: from the last axis to the first, with every product and sum checked. */
  method TensorFlatOffset(shape: seq<i64>, index: seq<i64>) returns (r: Option<usize>)
    ensures r == FlatOffset(shape, index)
  {
    hide Product, Offset, InBounds;
    if |shape| != |index| {
      RankMismatch(shape, index);
      return None;
    }
    var offset: usize, stride: usize := 0, 1;
    var k := |shape|;
    EmptySuffix(shape, index);
    while k > 0
      invariant 0 <= k <= |shape| && InBounds(shape[k..], index[k..])
      invariant offset == Offset(shape[k..], index[k..]) && stride == Product(shape[k..])
    {
      var dim, idx := shape[k - 1], index[k - 1];
      SuffixInBounds(shape, index, k);
      SuffixStep(shape, index, k);
      SuffixFits(shape, index, k - 1);
      if dim < 0 || idx < 0 || idx >= dim {
        return None;
      }
      StepFits(shape[k..], index[k..], idx, dim);
      var scaled := CheckedMul(idx, stride);
      if scaled.None? {
        return None;
      }
      var sum := CheckedAdd(offset, scaled.value);
      if sum.None? {
        return None;
      }
      var wider := CheckedMul(stride, dim);
      if wider.None? {
        return None;
      }
      offset, stride := sum.value, wider.value;
      k := k - 1;
    }
    assert shape[0..] == shape && index[0..] == index;
    return Some(offset);
  }

  lemma RankMismatch(shape: seq<int>, index: seq<int>)
    requires |shape| != |index|
    ensures !InBounds(shape, index)
  {
  }

  lemma EmptySuffix(shape: seq<int>, index: seq<int>)
    requires |shape| == |index|
    ensures InBounds(shape[|shape|..], index[|shape|..])
    ensures Offset(shape[|shape|..], index[|shape|..]) == 0 && Product(shape[|shape|..]) == 1
  {
  }

  lemma SuffixInBounds(shape: seq<int>, index: seq<int>, k: nat)
    requires |shape| == |index| && 0 < k <= |shape|
    ensures InBounds(shape[k - 1..], index[k - 1..])
       <==> 0 <= index[k - 1] < shape[k - 1] && InBounds(shape[k..], index[k..])
    ensures InBounds(shape, index) ==> InBounds(shape[k - 1..], index[k - 1..])
  {
    assert shape[k - 1..][1..] == shape[k..] && index[k - 1..][1..] == index[k..];
    InBoundsTail(shape[k - 1..], index[k - 1..]);
  }

  lemma SuffixFits(shape: seq<int>, index: seq<int>, k: nat)
    requires k <= |shape|
    ensures InBounds(shape, index) ==> Product(shape[k..]) <= Product(shape)
  {
    if InBounds(shape, index) {
      SuffixProduct(shape, index, k);
    }
  }

  /** No intermediate value exceeds the next stride. */
  lemma StepFits(shape: seq<int>, index: seq<int>, idx: nat, dim: nat)
    requires InBounds(shape, index) && idx < dim
    ensures 0 <= idx * Product(shape) <= idx * Product(shape) + Offset(shape, index) < dim * Product(shape)
  {
    OffsetBound(shape, index);
    MulNonNegative(idx, Product(shape));
    MulMono(idx, dim, Product(shape));
  }

  /** An offset exists exactly for the indices in bounds of a shape with a count: no other overflow can occur. */
  lemma FlatOffsetIff(shape: seq<i64>, index: seq<i64>)
    ensures FlatOffset(shape, index).Some? <==> InBounds(shape, index) && ElementCount(shape).Some?
    ensures FlatOffset(shape, index).Some? ==> 0 <= FlatOffset(shape, index).value < ElementCount(shape).value
  {
    hide InBounds, Offset, Product, PrefixesFit;
    if InBounds(shape, index) {
      InBoundsPositive(shape, index);
      InBoundsFits(shape, index);
      OffsetBound(shape, index);
      if Product(shape) < 0x1_0000_0000_0000_0000 {
        ElementCountIff(shape, Product(shape));
      }
      if ElementCount(shape).Some? {
        ElementCountIff(shape, ElementCount(shape).value);
      }
    }
  }

  lemma InBoundsFits(shape: seq<int>, index: seq<int>)
    requires InBounds(shape, index)
    ensures PrefixesFit(1, shape) <==> Product(shape) < 0x1_0000_0000_0000_0000
  {
    forall k | 0 <= k <= |shape|
      ensures Product(shape[..k]) <= Product(shape)
    {
      PrefixProduct(shape, index, k);
    }
    assert shape[..|shape|] == shape;
  }

  // ---- the bijection with 0..n ----

  /** The index vector at position `k` in row-major order. */
  function Unflatten(shape: seq<int>, k: int): (index: seq<int>)
    requires NonNegative(shape) && 0 <= k < Product(shape)
    ensures |index| == |shape|
  {
    if shape == [] then []
    else
      RowPositive(shape, k);
      [k / Product(shape[1..])] + Unflatten(shape[1..], k % Product(shape[1..]))
  }

  lemma RowPositive(shape: seq<int>, k: int)
    requires NonNegative(shape) && 0 <= k < Product(shape) && shape != []
    ensures Product(shape[1..]) > 0 && NonNegative(shape[1..]) && 0 <= k / Product(shape[1..]) < shape[0]
  {
    NonNegativeTail(shape);
    ProductNonNegative(shape[1..]);
    RowSplit(k, shape[0], Product(shape[1..]));
  }

  /** Every position below the element count has an index in bounds that leads back to it. */
  lemma {:induction false} OffsetOfUnflatten(shape: seq<int>, k: int)
    requires NonNegative(shape) && 0 <= k < Product(shape)
    ensures InBounds(shape, Unflatten(shape, k)) && Offset(shape, Unflatten(shape, k)) == k
  {
    hide InBounds;
    if shape != [] {
      RowPositive(shape, k);
      var row := Product(shape[1..]);
      RowSplit(k, shape[0], row);
      OffsetOfUnflatten(shape[1..], k % row);
      UnflattenParts(shape, k);
      InBoundsTail(shape, Unflatten(shape, k));
    } else {
      assert InBounds([], []) by { EmptyInBounds(); }
    }
  }

  lemma EmptyInBounds()
    ensures InBounds([], [])
  {
  }

  lemma UnflattenParts(shape: seq<int>, k: int)
    requires NonNegative(shape) && 0 <= k < Product(shape) && shape != []
    requires NonNegative(shape[1..]) && Product(shape[1..]) > 0 && 0 <= k % Product(shape[1..])
    ensures Unflatten(shape, k)[0] == k / Product(shape[1..])
    ensures Unflatten(shape, k)[1..] == Unflatten(shape[1..], k % Product(shape[1..]))
  {
  }

  /** Every index in bounds is the one at its own offset, so the offset is a bijection onto 0..n. */
  lemma {:induction false} UnflattenOfOffset(shape: seq<int>, index: seq<int>)
    requires InBounds(shape, index)
    ensures NonNegative(shape) && 0 <= Offset(shape, index) < Product(shape)
    ensures Unflatten(shape, Offset(shape, index)) == index
  {
    InBoundsPositive(shape, index);
    OffsetBound(shape, index);
    if shape != [] {
      InBoundsTail(shape, index);
      UnflattenOfOffset(shape[1..], index[1..]);
      OffsetBound(shape[1..], index[1..]);
      DivMod(Offset(shape, index), Product(shape[1..]), index[0], Offset(shape[1..], index[1..]));
      assert index == [index[0]] + index[1..];
    }
  }

  predicate LexLess(a: seq<int>, b: seq<int>)
    requires |a| == |b|
  {
    a != [] && (a[0] < b[0] || (a[0] == b[0] && LexLess(a[1..], b[1..])))
  }

  /** Row-major order is lexicographic order. */
  lemma {:induction false} OffsetMonotone(shape: seq<int>, a: seq<int>, b: seq<int>)
    requires InBounds(shape, a) && InBounds(shape, b) && LexLess(a, b)
    ensures Offset(shape, a) < Offset(shape, b)
  {
    InBoundsTail(shape, a);
    InBoundsTail(shape, b);
    if a[0] < b[0] {
      OffsetBound(shape[1..], a[1..]);
      OffsetBound(shape[1..], b[1..]);
      MulMono(a[0], b[0], Product(shape[1..]));
    } else {
      OffsetMonotone(shape[1..], a[1..], b[1..]);
    }
  }
}
