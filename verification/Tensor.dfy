/** llvm/src/tensor.rs: dense tensors over a flat buffer and a shape, stored in the runtime's arena. */
module Tensor {
  import opened Prelude
  import opened Arithmetic
  import opened TensorShape

  /** Element kinds; the arena admits all but `Other`. */
  datatype Kind = I32 | I64 | F32 | F64 | U8 | U16 | Pointer | Other

  /** The bits of one element. */
  type Cell = nat

  datatype Dense = Dense(kind: Kind, shape: seq<i64>, data: seq<Cell>)

  /** The buffer holds as many elements as the shape counts. */
  ghost predicate Sound(t: Dense) {
    ElementCount(t.shape) == Some(|t.data|)
  }

  /** A failing status, or the optional element. */
  datatype Read = InvalidArgument | Element(value: Option<Cell>)

  predicate HasNegative(index: seq<i64>) {
    exists i | 0 <= i < |index| :: index[i] < 0
  }

  /** `tensor_get`: negative indices are refused, others read an element or nothing. */
  function Get(t: Dense, index: seq<i64>): Read {
    if HasNegative(index) then InvalidArgument
    else
      match FlatOffset(t.shape, index)
      case None => Element(None)
      case Some(k) => Element(if 0 <= k < |t.data| then Some(t.data[k]) else None)
  }

  /** `tensor_set` on the same kind: the new buffer, if the index is in bounds. */
  function Set(t: Dense, index: seq<i64>, value: Cell): Option<Dense> {
    if HasNegative(index) then None
    else
      var k :- FlatOffset(t.shape, index);
      if 0 <= k < |t.data| then Some(t.(data := t.data[k := value])) else None
  }

  /** The tensor after a write: itself, where the write is refused. */
  function Written(t: Dense, index: seq<i64>, value: Cell): Dense {
    var r := Set(t, index, value);
    if r.Some? then r.value else t
  }

  function RowLength(shape: seq<i64>): usize
    requires shape != []
  {
    var n := ElementCount(shape[1..]);
    if n.Some? then n.value else 1
  }

  lemma SaturatingMulMono(a: usize, b: usize, row: usize)
    requires a <= b
    ensures SaturatingMul(a, row) <= SaturatingMul(b, row)
  {
    MulMono(a, b, row);
    MulNonNegative(a, row);
  }

  /** `tensor_slice`: rows `start..end` of axis 0. */
  function SliceOf(t: Dense, start: i64, end: i64): Option<Dense> {
    if start < 0 || end < 0 || end < start || t.shape == [] || t.shape[0] < 0 || end > t.shape[0] then None
    else
      var row := RowLength(t.shape);
      var from, to := SaturatingMul(start, row), SaturatingMul(end, row);
      SaturatingMulMono(start, end, row);
      if to > |t.data| then None
      else Some(Dense(t.kind, [end - start] + t.shape[1..], t.data[from..to]))
  }

  // ---- element reads ----

  lemma SoundFacts(t: Dense)
    requires Sound(t)
    ensures NonNegative(t.shape) && Product(t.shape) == |t.data| && PrefixesFit(1, t.shape)
  {
    ElementCountIff(t.shape, |t.data|);
  }

  lemma SoundFrom(t: Dense)
    requires NonNegative(t.shape) && PrefixesFit(1, t.shape) && Product(t.shape) == |t.data|
    ensures Sound(t)
  {
    ProductFits(t.shape);
    ElementCountIff(t.shape, |t.data|);
  }

  lemma ProductFits(shape: seq<int>)
    requires PrefixesFit(1, shape)
    ensures Product(shape) < 0x1_0000_0000_0000_0000
  {
    assert shape[..|shape|] == shape;
    assert 1 * Product(shape[..|shape|]) < 0x1_0000_0000_0000_0000;
  }

  /** An index in bounds reads its row-major element, one with a negative part is refused, any other reads nothing. */
  lemma GetExact(t: Dense, index: seq<i64>)
    requires Sound(t)
    ensures (exists i :: 0 <= i < |index| && index[i] < 0) ==> Get(t, index) == InvalidArgument
    ensures InBounds(t.shape, index) ==>
      0 <= Offset(t.shape, index) < |t.data| && Get(t, index) == Element(Some(t.data[Offset(t.shape, index)]))
    ensures !HasNegative(index) && !InBounds(t.shape, index) ==> Get(t, index) == Element(None)
  {
    hide InBounds, Offset, Product;
    SoundFacts(t);
    ProductFits(t.shape);
    if InBounds(t.shape, index) {
      OffsetBound(t.shape, index);
      InBoundsNotNegative(t.shape, index);
    }
  }

  lemma InBoundsNotNegative(shape: seq<int>, index: seq<i64>)
    requires InBounds(shape, index)
    ensures !HasNegative(index)
  {
  }

  /** Different indices in bounds have different offsets. */
  lemma OffsetInjective(shape: seq<int>, a: seq<int>, b: seq<int>)
    requires InBounds(shape, a) && InBounds(shape, b) && a != b
    ensures Offset(shape, a) != Offset(shape, b)
  {
    UnflattenOfOffset(shape, a);
    UnflattenOfOffset(shape, b);
  }

  /** Writing succeeds exactly in bounds and changes what that index reads and nothing else. */
  lemma SetThenGet(t: Dense, index: seq<i64>, value: Cell, other: seq<i64>)
    requires Sound(t)
    ensures Set(t, index, value).Some? <==> InBounds(t.shape, index)
    ensures Set(t, index, value).Some? ==>
      Sound(Set(t, index, value).value)
      && Get(Set(t, index, value).value, other) == if other == index then Element(Some(value)) else Get(t, other)
  {
    hide InBounds, Offset, Product, HasNegative;
    SoundFacts(t);
    ProductFits(t.shape);
    if InBounds(t.shape, index) {
      InBoundsNotNegative(t.shape, index);
      OffsetBound(t.shape, index);
      if InBounds(t.shape, other) && other != index {
        OffsetBound(t.shape, other);
        OffsetInjective(t.shape, other, index);
      }
    }
  }

  // ---- slices ----

  lemma TailCount(t: Dense)
    requires Sound(t) && t.shape != [] && t.shape[0] > 0
    ensures ElementCount(t.shape[1..]) == Some(Product(t.shape[1..])) && RowLength(t.shape) == Product(t.shape[1..])
    ensures t.shape[0] * Product(t.shape[1..]) == |t.data|
  {
    SoundFacts(t);
    NonNegativeTail(t.shape);
    ProductNonNegative(t.shape[1..]);
    forall k | 0 <= k <= |t.shape[1..]|
      ensures 1 * Product(t.shape[1..][..k]) < 0x1_0000_0000_0000_0000
    {
      PrefixTail(1, t.shape, k + 1);
      PrefixNonNegative(t.shape[1..], k);
      MulMono(1, t.shape[0], Product(t.shape[1..][..k]));
      assert 1 * Product(t.shape[..k + 1]) < 0x1_0000_0000_0000_0000;
    }
    ProductFits(t.shape[1..]);
    ElementCountIff(t.shape[1..], Product(t.shape[1..]));
  }

  lemma PrefixNonNegative(shape: seq<int>, k: nat)
    requires NonNegative(shape) && k <= |shape|
    ensures Product(shape[..k]) >= 0
  {
    assert NonNegative(shape[..k]);
    ProductNonNegative(shape[..k]);
  }

  /** Shrinking axis 0 keeps every prefix product within usize. */
  lemma ShrinkFits(shape: seq<int>, d: int)
    requires shape != [] && NonNegative(shape) && PrefixesFit(1, shape) && 0 <= d <= shape[0]
    ensures NonNegative([d] + shape[1..]) && PrefixesFit(1, [d] + shape[1..])
  {
    var shrunk := [d] + shape[1..];
    assert shrunk[1..] == shape[1..];
    NonNegativeTail(shape);
    NonNegativeTail(shrunk);
    forall k | 0 <= k <= |shrunk|
      ensures 1 * Product(shrunk[..k]) < 0x1_0000_0000_0000_0000
    {
      if k == 0 {
        ProductEmpty(shrunk);
      } else {
        PrefixTail(1, shape, k);
        PrefixTail(1, shrunk, k);
        PrefixNonNegative(shape[1..], k - 1);
        MulMono(d, shape[0], Product(shape[1..][..k - 1]));
        assert 1 * Product(shape[..k]) < 0x1_0000_0000_0000_0000;
      }
    }
  }

  lemma SliceEmpty(t: Dense)
    requires Sound(t) && t.shape != [] && t.shape[0] == 0
    ensures t.data == []
  {
    SoundFacts(t);
    ZeroTimes(Product(t.shape[1..]));
  }

  lemma ZeroTimes(x: int)
    ensures 0 * x == 0
  {
  }

  /** Where the rows of a slice lie in the buffer; no saturation happens. */
  lemma SliceOffsets(t: Dense, start: i64, end: i64)
    requires Sound(t) && t.shape != [] && 0 <= start <= end <= t.shape[0] && t.shape[0] > 0
    ensures var row := Product(t.shape[1..]);
      && row >= 0 && 0 <= start * row <= end * row <= |t.data|
      && SliceOf(t, start, end) == Some(Dense(t.kind, [end - start] + t.shape[1..], t.data[start * row..end * row]))
  {
    hide Product, ElementCount, Sound;
    TailCount(t);
    SoundFacts(t);
    NonNegativeTail(t.shape);
    var row := Product(t.shape[1..]);
    ProductNonNegative(t.shape[1..]);
    MulNonNegative(start, row);
    MulMono(start, end, row);
    MulMono(end, t.shape[0], row);
    ProductFits(t.shape);
    SliceUnsaturated(t, start, end, row);
  }

  lemma SliceUnsaturated(t: Dense, start: i64, end: i64, row: usize)
    requires t.shape != [] && 0 <= start <= end <= t.shape[0] && RowLength(t.shape) == row
    requires 0 <= start * row <= end * row <= |t.data| < 0x1_0000_0000_0000_0000
    ensures SliceOf(t, start, end) == Some(Dense(t.kind, [end - start] + t.shape[1..], t.data[start * row..end * row]))
  {
    hide RowLength;
  }

  /** A sound tensor has exactly the slices within axis 0, and every slice is sound. */
  lemma SliceSound(t: Dense, start: i64, end: i64)
    requires Sound(t)
    ensures SliceOf(t, start, end).Some? <==> t.shape != [] && 0 <= start <= end <= t.shape[0]
    ensures SliceOf(t, start, end).Some? ==> Sound(SliceOf(t, start, end).value)
  {
    hide Sound, Product, PrefixesFit;
    if t.shape != [] && 0 <= start <= end <= t.shape[0] {
      SoundFacts(t);
      ShrinkFits(t.shape, end - start);
      if t.shape[0] == 0 {
        SliceEmpty(t);
        EmptySlice(t);
        SliceProduct(t.shape, 0);
        SoundFrom(SliceOf(t, start, end).value);
      } else {
        SliceOffsets(t, start, end);
        var row := Product(t.shape[1..]);
        SliceProduct(t.shape, end - start);
        assert (end - start) * row == end * row - start * row;
        SoundFrom(SliceOf(t, start, end).value);
      }
    }
  }

  lemma EmptySlice(t: Dense)
    requires t.shape != [] && t.shape[0] == 0 && t.data == []
    ensures SliceOf(t, 0, 0) == Some(Dense(t.kind, [0] + t.shape[1..], []))
  {
    hide RowLength;
    ZeroTimes(RowLength(t.shape));
  }

  lemma SliceProduct(shape: seq<int>, d: int)
    requires shape != []
    ensures Product([d] + shape[1..]) == d * Product(shape[1..])
  {
    assert ([d] + shape[1..])[1..] == shape[1..];
  }

  /** Reading row i of a slice reads row start + i of the tensor; rows past the slice read nothing. */
  lemma SliceGet(t: Dense, start: i64, end: i64, i: i64, rest: seq<i64>)
    requires Sound(t) && SliceOf(t, start, end).Some? && 0 <= i && start + i < 0x8000_0000_0000_0000
    ensures Get(SliceOf(t, start, end).value, [i] + rest)
         == (if i < end - start then Get(t, [start + i] + rest)
             else if HasNegative(rest) then InvalidArgument else Element(None))
  {
    hide SliceOf, Get, Sound, HasNegative, InBounds;
    var s := SliceOf(t, start, end).value;
    SliceSound(t, start, end);
    NegativeTail(i, rest);
    NegativeTail(start + i, rest);
    SliceShape(t, start, end);
    ConsInBounds(end - start, t.shape[1..], i, rest);
    ConsInBounds(t.shape[0], t.shape[1..], start + i, rest);
    assert t.shape == [t.shape[0]] + t.shape[1..];
    if HasNegative(rest) {
      NegativeRefused(s, [i] + rest);
      NegativeRefused(t, [start + i] + rest);
    } else {
      GetExact(s, [i] + rest);
      GetExact(t, [start + i] + rest);
      if i < end - start && InBounds(t.shape[1..], rest) {
        SliceElement(t, start, end, i, rest);
      }
    }
  }

  lemma NegativeRefused(t: Dense, index: seq<i64>)
    requires HasNegative(index)
    ensures Get(t, index) == InvalidArgument
  {
  }

  lemma NegativeTail(i: i64, rest: seq<i64>)
    requires i >= 0
    ensures HasNegative([i] + rest) <==> HasNegative(rest)
  {
    var all := [i] + rest;
    if k :| 0 <= k < |rest| && rest[k] < 0 {
      assert all[k + 1] < 0;
    }
    if k :| 0 <= k < |all| && all[k] < 0 {
      assert rest[k - 1] < 0;
    }
  }

  lemma SliceShape(t: Dense, start: i64, end: i64)
    requires SliceOf(t, start, end).Some?
    ensures t.shape != [] && 0 <= start <= end <= t.shape[0]
    ensures SliceOf(t, start, end).value.shape == [end - start] + t.shape[1..]
  {
    hide RowLength;
  }

  lemma ConsInBounds(d: int, tail: seq<int>, i: int, rest: seq<int>)
    ensures InBounds([d] + tail, [i] + rest) <==> 0 <= i < d && InBounds(tail, rest)
  {
    assert ([d] + tail)[1..] == tail && ([i] + rest)[1..] == rest;
    InBoundsTail([d] + tail, [i] + rest);
  }

  lemma ConsOffset(d: int, tail: seq<int>, i: int, rest: seq<int>)
    requires |tail| == |rest|
    ensures Offset([d] + tail, [i] + rest) == i * Product(tail) + Offset(tail, rest)
  {
    assert ([d] + tail)[1..] == tail && ([i] + rest)[1..] == rest;
  }

  lemma SliceElement(t: Dense, start: i64, end: i64, i: i64, rest: seq<i64>)
    requires Sound(t) && SliceOf(t, start, end).Some? && 0 <= i < end - start
    requires InBounds(t.shape[1..], rest)
    ensures var s := SliceOf(t, start, end).value;
      var from, to := Offset(s.shape, [i] + rest), Offset(t.shape, [start + i] + rest);
      0 <= from < |s.data| && 0 <= to < |t.data| && s.data[from] == t.data[to]
  {
    hide Sound, SliceOf, InBounds, Offset, Product;
    var s := SliceOf(t, start, end).value;
    SliceShape(t, start, end);
    SliceSound(t, start, end);
    SoundFacts(s);
    SoundFacts(t);
    assert t.shape == [t.shape[0]] + t.shape[1..];
    ConsInBounds(end - start, t.shape[1..], i, rest);
    ConsInBounds(t.shape[0], t.shape[1..], start + i, rest);
    OffsetBound(s.shape, [i] + rest);
    OffsetBound(t.shape, [start + i] + rest);
    RankOf(t.shape[1..], rest);
    ConsOffset(end - start, t.shape[1..], i, rest);
    ConsOffset(t.shape[0], t.shape[1..], start + i, rest);
    SliceOffsets(t, start, end);
    var row := Product(t.shape[1..]);
    Distribute(start, i, row);
  }

  lemma RankOf(shape: seq<int>, index: seq<int>)
    requires InBounds(shape, index)
    ensures |shape| == |index|
  {
  }

  lemma Distribute(a: int, b: int, c: int)
    ensures (a + b) * c == a * c + b * c
  {
  }

  // ---- reshape and fill ----

  /** Reshaping keeps the element that every row-major position reads. */
  lemma ReshapeGet(t: Dense, shape: seq<i64>, k: nat)
    requires Sound(t) && ElementCount(shape) == Some(|t.data|) && k < |t.data|
    ensures Sound(t.(shape := shape))
    ensures NonNegative(shape) && NonNegative(t.shape) && Product(shape) == Product(t.shape) == |t.data|
    ensures InBounds(shape, Unflatten(shape, k)) && InBounds(t.shape, Unflatten(t.shape, k))
    ensures Get(t.(shape := shape), Unflatten(shape, k)) == Get(t, Unflatten(t.shape, k)) == Element(Some(t.data[k]))
  {
    SoundFacts(t);
    ElementCountIff(shape, |t.data|);
    OffsetOfUnflatten(shape, k);
    OffsetOfUnflatten(t.shape, k);
    InBoundsNotNegative(shape, Unflatten(shape, k));
    InBoundsNotNegative(t.shape, Unflatten(t.shape, k));
    GetExact(t.(shape := shape), Unflatten(shape, k));
    GetExact(t, Unflatten(t.shape, k));
  }

  function Filled(kind: Kind, shape: seq<i64>, count: nat, value: Cell): Dense {
    Dense(kind, shape, seq(count, _ => value))
  }

  /** Every index in bounds of a filled tensor reads the fill. */
  lemma FilledGet(kind: Kind, shape: seq<i64>, count: nat, value: Cell, index: seq<i64>)
    requires ElementCount(shape) == Some(count) && InBounds(shape, index)
    ensures Sound(Filled(kind, shape, count, value))
    ensures Get(Filled(kind, shape, count, value), index) == Element(Some(value))
  {
    hide InBounds, Offset;
    InBoundsNotNegative(shape, index);
    GetExact(Filled(kind, shape, count, value), index);
  }
}
