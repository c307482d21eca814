/** metal_host.rs `simulate_elementwise_add`: adding two views word by word into a third. */
module ElementwiseAdd {
  import opened Prelude

  /** The little-endian bytes of one f32. */
  type Word = w: seq<u8> | |w| == 4 witness [0, 0, 0, 0]

  /** The f32 addition, on the bytes of its operands. */
  type Adder = (Word, Word) -> Word

  function WordAt(bytes: seq<u8>, i: nat): Word
    requires 4 * i + 4 <= |bytes|
  {
    bytes[4 * i..4 * i + 4]
  }

  /** The bytes with word `i` overwritten. */
  function PutWord(bytes: seq<u8>, i: nat, w: Word): (r: seq<u8>)
    requires 4 * i + 4 <= |bytes|
    ensures |r| == |bytes|
  {
    bytes[..4 * i] + w + bytes[4 * i + 4..]
  }

  lemma PutThenWord(bytes: seq<u8>, i: nat, w: Word, j: nat)
    requires 4 * i + 4 <= |bytes| && 4 * j + 4 <= |bytes|
    ensures WordAt(PutWord(bytes, i, w), j) == if j == i then w else WordAt(bytes, j)
  {
  }

  /** `view` after its first `n` words were overwritten by sums. */
  function Summed(view: seq<u8>, left: seq<u8>, right: seq<u8>, add: Adder, n: nat): (r: seq<u8>)
    requires |left| == |right| == |view| && 4 * n <= |view|
    ensures |r| == |view|
  {
    if n == 0 then view
    else PutWord(Summed(view, left, right, add, n - 1), n - 1, add(WordAt(left, n - 1), WordAt(right, n - 1)))
  }

  /** Every word below `n` is a sum, every other word and the bytes past the last word are those of the view. */
  lemma {:induction false} SummedAt(view: seq<u8>, left: seq<u8>, right: seq<u8>, add: Adder, n: nat)
    requires |left| == |right| == |view| && 4 * n <= |view|
    ensures var r := Summed(view, left, right, add, n);
      && (forall j | 0 <= j < n :: WordAt(r, j) == add(WordAt(left, j), WordAt(right, j)))
      && r[4 * n..] == view[4 * n..]
  {
    if n > 0 {
      SummedAt(view, left, right, add, n - 1);
      var before, r := Summed(view, left, right, add, n - 1), Summed(view, left, right, add, n);
      var sum := add(WordAt(left, n - 1), WordAt(right, n - 1));
      forall j | 0 <= j < n
        ensures WordAt(r, j) == add(WordAt(left, j), WordAt(right, j))
      {
        PutThenWord(before, n - 1, sum, j);
      }
      assert before[4 * n..] == before[4 * (n - 1)..][4..];
      assert r[4 * n..] == before[4 * n..] == view[4 * n..];
    }
  }
}
