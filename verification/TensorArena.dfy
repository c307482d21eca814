/** The runtime's tensor arena: operations by handle, one of which writes in place. */
module TensorArena {
  import opened Prelude
  import opened TensorShape
  import opened Tensor

  class RuntimeTensor {
    const kind: Kind
    const shape: seq<i64>
    var data: seq<Cell>

    ghost function View(): Dense
      reads this
    {
      Dense(kind, shape, data)
    }

    constructor (t: Dense)
      ensures View() == t
    {
      kind, shape, data := t.kind, t.shape, t.data;
    }
  }

  /** `store_tensor` hands out the position of the tensor as its handle. */
  class RuntimeContext {
    var tensors: seq<RuntimeTensor>

    /** No two handles share a tensor, and every tensor is sound. */
    ghost predicate Valid()
      reads this, tensors
    {
      && (forall i, j | 0 <= i < j < |tensors| :: tensors[i] != tensors[j])
      && (forall i | 0 <= i < |tensors| :: Sound(tensors[i].View()))
    }

    ghost function View(): seq<Dense>
      reads this, tensors
    {
      seq(|tensors|, i requires 0 <= i < |tensors| reads this, tensors => tensors[i].View())
    }

    constructor ()
      ensures Valid() && View() == []
    {
      tensors := [];
    }

    method Store(t: Dense) returns (handle: nat)
      requires Valid() && Sound(t)
      modifies this
      ensures Valid() && handle == |old(View())| && View() == old(View()) + [t]
      ensures forall i | 0 <= i < |old(tensors)| :: tensors[i] == old(tensors)[i]
    {
      hide Sound;
      var tensor := new RuntimeTensor(t);
      handle := |tensors|;
      tensors := tensors + [tensor];
    }

    /** `tensor_new`: rank 0 and one zero element. */
    method NewScalar(kind: Kind) returns (handle: Option<nat>)
      requires Valid()
      modifies this
      ensures Valid() && (handle.Some? <==> !kind.Other?)
      ensures View() == if handle.None? then old(View()) else old(View()) + [Dense(kind, [], [0])]
      ensures handle.Some? ==> handle.value == |old(View())|
    {
      if kind.Other? {
        return None;
      }
      assert Sound(Dense(kind, [], [0]));
      var h := Store(Dense(kind, [], [0]));
      return Some(h);
    }

    /** `tensor_create`: refused exactly when the kind is not admitted or the shape has no element count. */
    method Create(kind: Kind, fill: Cell, shape: seq<i64>) returns (handle: Option<nat>)
      requires Valid()
      modifies this
      ensures Valid() && (handle.Some? <==> !kind.Other? && ElementCount(shape).Some?)
      ensures View() == if handle.None? then old(View())
                        else old(View()) + [Filled(kind, shape, ElementCount(shape).value, fill)]
      ensures handle.Some? ==> handle.value == |old(View())|
    {
      hide ElementCount;
      if kind.Other? {
        return None;
      }
      var count := ElementCount(shape);
      if count.None? {
        return None;
      }
      var h := Store(Filled(kind, shape, count.value, fill));
      return Some(h);
    }

    /** `tensor_from_flat` */
    method FromFlat(kind: Kind, dataKind: Kind, data: seq<Cell>, shape: seq<i64>) returns (handle: Option<nat>)
      requires Valid() && |data| < 0x1_0000_0000_0000_0000
      modifies this
      ensures Valid() && (handle.Some? <==> !kind.Other? && dataKind == kind && ElementCount(shape) == Some(|data|))
      ensures View() == if handle.None? then old(View()) else old(View()) + [Dense(kind, shape, data)]
      ensures handle.Some? ==> handle.value == |old(View())|
    {
      hide ElementCount;
      if kind.Other? || dataKind != kind || ElementCount(shape) != Some(|data|) {
        return None;
      }
      var h := Store(Dense(kind, shape, data));
      return Some(h);
    }

    /** `tensor_reshape`: a copy under another shape of the same element count; the receiver keeps its own. */
    method Reshape(handle: nat, shape: seq<i64>) returns (r: Option<nat>)
      requires Valid()
      modifies this
      ensures Valid()
      ensures r.Some? <==> handle < |old(View())| && ElementCount(shape) == Some(|old(View())[handle].data|)
      ensures View() == if r.None? then old(View()) else old(View()) + [old(View())[handle].(shape := shape)]
      ensures r.Some? ==> r.value == |old(View())|
    {
      hide ElementCount;
      if handle >= |tensors| {
        return None;
      }
      var t := tensors[handle];
      if ElementCount(shape) != Some(|t.data|) {
        return None;
      }
      var h := Store(Dense(t.kind, shape, t.data));
      return Some(h);
    }

    /** `tensor_materialize` */
    method Materialize(handle: nat) returns (r: Option<nat>)
      requires Valid()
      modifies this
      ensures Valid() && (r.Some? <==> handle < |old(View())|)
      ensures View() == if r.None? then old(View()) else old(View()) + [old(View())[handle]]
    {
      hide ElementCount;
      if handle >= |tensors| {
        return None;
      }
      var t := tensors[handle];
      var h := Store(Dense(t.kind, t.shape, t.data));
      return Some(h);
    }

    /** `tensor_get` */
    method GetElement(handle: nat, index: seq<i64>) returns (r: Read)
      requires Valid()
      ensures r == if handle < |View()| then Get(View()[handle], index) else InvalidArgument
    {
      hide InBounds, Offset, Product, HasNegative, Sound;
      if HasNegative(index) || handle >= |tensors| {
        return InvalidArgument;
      }
      var t := tensors[handle];
      var k := TensorFlatOffset(t.shape, index);
      if k.None? {
        return Element(None);
      }
      return Element(if k.value < |t.data| then Some(t.data[k.value]) else None);
    }

    /** `tensor_set`: the one write in place; no other handle sees it. */
    method SetElement(handle: nat, index: seq<i64>, kind: Kind, value: Cell) returns (ok: bool)
      requires Valid()
      modifies tensors
      ensures Valid() && tensors == old(tensors)
      ensures ok <==>
        && handle < |old(View())| && old(View())[handle].kind == kind
        && InBounds(old(View())[handle].shape, index)
      ensures View() == if ok then old(View())[handle := Written(old(View())[handle], index, value)] else old(View())
    {
      hide InBounds, Offset, Product, HasNegative, Sound;
      if handle >= |tensors| {
        return false;
      }
      var t := tensors[handle];
      SetThenGet(t.View(), index, value, index);
      if HasNegative(index) || t.kind != kind {
        return false;
      }
      var k := TensorFlatOffset(t.shape, index);
      if k.None? || k.value >= |t.data| {
        return false;
      }
      t.data := t.data[k.value := value];
      return true;
    }

    /** `tensor_fill`: a filled copy; the receiver is not changed. */
    method Fill(handle: nat, kind: Kind, value: Cell) returns (r: Option<nat>)
      requires Valid()
      modifies this
      ensures Valid() && (r.Some? <==> handle < |old(View())| && old(View())[handle].kind == kind)
      ensures View() == if r.None? then old(View())
        else old(View()) + [Filled(kind, old(View())[handle].shape, |old(View())[handle].data|, value)]
    {
      hide ElementCount;
      if handle >= |tensors| {
        return None;
      }
      var t := tensors[handle];
      if t.kind != kind {
        return None;
      }
      var count := ElementCount(t.shape);
      assert Sound(t.View());
      var h := Store(Filled(kind, t.shape, count.value, value));
      return Some(h);
    }

    /** `tensor_slice`: a copy of rows `start..end`. */
    method Slice(handle: nat, start: i64, end: i64) returns (r: Option<nat>)
      requires Valid()
      modifies this
      ensures Valid()
      ensures r.Some? <==> handle < |old(View())| && SliceOf(old(View())[handle], start, end).Some?
      ensures View() == if r.None? then old(View()) else old(View()) + [SliceOf(old(View())[handle], start, end).value]
    {
      hide RowLength, Sound;
      if handle >= |tensors| {
        return None;
      }
      var t := tensors[handle];
      SliceSound(t.View(), start, end);
      if start < 0 || end < 0 || end < start || t.shape == [] || t.shape[0] < 0 || end > t.shape[0] {
        return None;
      }
      var row := RowLength(t.shape);
      var from, to := SaturatingMul(start, row), SaturatingMul(end, row);
      SaturatingMulMono(start, end, row);
      if to > |t.data| {
        return None;
      }
      var h := Store(Dense(t.kind, [end - start] + t.shape[1..], t.data[from..to]));
      return Some(h);
    }
  }
}
