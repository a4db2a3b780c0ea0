/** Splitting a list into consecutive batches, as both the publisher and taxonomy ingress do. */
module Batches {

  /** The quotient n / size rounded up. */
  function Count(n: nat, size: nat): (c: nat)
    requires size > 0
    ensures n <= c * size < n + size
    decreases n
  {
    if n == 0 then 0 else if n <= size then 1 else Count(n - size, size) + 1
  }

  /** The values from `index * size` up to, but not including, `(index + 1) * size`. */
  function Slice<T>(values: seq<T>, size: nat, index: nat): seq<T>
    requires size > 0
  {
    var low := index * size;
    var high := low + size;
    if low >= |values| then [] else if high >= |values| then values[low..] else values[low..high]
  }

  function BatchesOf<T>(values: seq<T>, size: nat): (batches: seq<seq<T>>)
    requires size > 0
    ensures |batches| == Count(|values|, size)
    ensures forall b :: 0 <= b < |batches| ==> batches[b] == Slice(values, size, b)
  {
    seq(Count(|values|, size), b requires 0 <= b => Slice(values, size, b))
  }

  function Flatten<T>(batches: seq<seq<T>>): seq<T> {
    if |batches| == 0 then [] else batches[0] + Flatten(batches[1..])
  }

  lemma MulMono(a: nat, b: nat, size: nat)
    requires a <= b
    ensures a * size <= b * size
  {
  }

  lemma SliceShift<T>(values: seq<T>, size: nat, b: nat)
    requires 0 < size < |values|
    ensures Slice(values, size, b + 1) == Slice(values[size..], size, b)
  {
    assert (b + 1) * size == b * size + size;
    var low := b * size;
    if low + size < |values| {
      if low + 2 * size < |values| {
        assert values[low + size..low + 2 * size] == values[size..][low..low + size];
      }
    }
  }

  /** Batching loses nothing, repeats nothing and keeps the order. */
  lemma {:induction false} FlattenBatches<T>(values: seq<T>, size: nat)
    requires size > 0
    ensures Flatten(BatchesOf(values, size)) == values
    decreases |values|
  {
    var batches := BatchesOf(values, size);
    if |values| == 0 {
    } else if |values| <= size {
      assert batches == [values];
      assert Flatten(batches[1..]) == [];
    } else {
      var rest := values[size..];
      var tail := BatchesOf(rest, size);
      assert |batches| == |tail| + 1;
      forall b | 0 <= b < |tail|
        ensures batches[b + 1] == tail[b]
      {
        SliceShift(values, size, b);
      }
      assert batches[1..] == tail;
      FlattenBatches(rest, size);
      assert batches[0] == values[..size];
    }
  }

  /** Every batch has between one and `size` values, and all but the last have exactly `size`. */
  lemma {:induction false} BatchSizes<T>(values: seq<T>, size: nat, b: nat)
    requires size > 0 && b < Count(|values|, size)
    ensures 0 < |BatchesOf(values, size)[b]| <= size
    ensures b + 1 < Count(|values|, size) ==> |BatchesOf(values, size)[b]| == size
  {
    MulMono(b + 1, Count(|values|, size), size);
    assert (b + 1) * size == b * size + size;
    if b + 1 < Count(|values|, size) {
      MulMono(b + 2, Count(|values|, size), size);
      assert (b + 2) * size == (b + 1) * size + size;
    }
  }

  lemma FlattenMembers<T>(batches: seq<seq<T>>, x: T)
    ensures x in Flatten(batches) <==> exists b :: 0 <= b < |batches| && x in batches[b]
  {
    if |batches| > 0 {
      FlattenMembers(batches[1..], x);
      if x in Flatten(batches[1..]) {
        var b :| 0 <= b < |batches[1..]| && x in batches[1..][b];
        assert x in batches[b + 1];
      }
      if b :| 0 <= b < |batches| && x in batches[b] {
        if b > 0 { assert x in batches[1..][b - 1]; }
      }
    }
  }

  lemma {:induction false} BatchMembers<T>(values: seq<T>, size: nat, x: T)
    requires size > 0
    ensures x in values <==> exists b :: 0 <= b < Count(|values|, size) && x in BatchesOf(values, size)[b]
  {
    FlattenBatches(values, size);
    FlattenMembers(BatchesOf(values, size), x);
  }

  /** The i-th value of batch b is value b * size + i of the whole list. */
  lemma {:induction false} BatchIndex<T>(values: seq<T>, size: nat, b: nat, i: nat)
    requires size > 0 && b < Count(|values|, size) && i < |BatchesOf(values, size)[b]|
    ensures i < size && b * size + i < |values|
    ensures BatchesOf(values, size)[b][i] == values[b * size + i]
  {
    BatchSizes(values, size, b);
  }

  /** Places in an earlier batch come before places in a later one. */
  lemma PlaceOrder(b: nat, i: nat, c: nat, j: nat, size: nat)
    requires i < size && b < c
    ensures b * size + i < c * size + j
  {
    MulMono(b + 1, c, size);
    assert (b + 1) * size == b * size + size;
  }
}
