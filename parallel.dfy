// parallel.h: parallelForEach splits [first, last) into numThreads contiguous
// blocks; all but the last run on threads of their own, the last inline. The
// threads, futures and the joiner are left out: the blocks run one after another,
// and the trace of f's calls is the method's result.
module Parallel {

  const MinPerThread: nat := 25

  /** maxThreads: ceil(length / 25), the least number of threads that would give
      none of them more than 25 rows. */
  function MaxThreads(length: nat): (m: nat)
    ensures length == 0 ==> m == 0
    ensures length >= 1 ==> m >= 1 && (m - 1) * MinPerThread < length <= m * MinPerThread
  {
    (length + MinPerThread - 1) / MinPerThread
  }

  /** numThreads: the hardware count (2 when it is reported as 0), but no more than
      maxThreads. */
  function NumThreads(length: nat, hardware: nat): (k: nat)
    ensures length >= 1 ==> k >= 1
    ensures k <= MaxThreads(length)
    ensures k <= if hardware != 0 then hardware else 2
  {
    var available := if hardware != 0 then hardware else 2;
    if available < MaxThreads(length) then available else MaxThreads(length)
  }

  /** blockSize = length / numThreads, at least 1 and at most length; the
      numThreads blocks of that size never pass the end. */
  function BlockSize(length: nat, hardware: nat): (b: nat)
    requires length >= 1
    ensures 1 <= b <= length
    ensures NumThreads(length, hardware) * b <= length < NumThreads(length, hardware) * (b + 1)
  {
    var k := NumThreads(length, hardware);
    DivBounds(length, k);
    length / k
  }

  lemma DivBounds(n: nat, k: nat)
    requires 1 <= k <= n
    ensures 1 <= n / k <= n && k * (n / k) <= n < k * (n / k + 1)
  {
    var q := n / k;
    assert n == k * q + n % k;
    assert q >= 1 by {
      assert n % k < k <= n;
    }
    assert q <= k * q by {
      MulAtLeast(q, k);
    }
  }

  lemma MulAtLeast(q: nat, k: nat)
    requires k >= 1
    ensures q <= k * q
  {
  }

  /** The integers first, first + 1, ..., last - 1 in order. */
  function Range(first: int, last: int): (r: seq<int>)
    requires first <= last
    ensures |r| == last - first && forall i :: 0 <= i < |r| ==> r[i] == first + i
  {
    seq(last - first, i => first + i)
  }

  /** The blocks [start, end) in the order they are formed: numThreads - 1 blocks
      of blockSize from `first` on, then the inline block up to `last`; none at
      all for an empty range. */
  function Blocks(first: int, last: int, hardware: nat): (bs: seq<(int, int)>)
    requires first <= last
    ensures |bs| == if first == last then 0 else NumThreads(last - first, hardware)
  {
    if first == last then []
    else
      var k := NumThreads(last - first, hardware);
      var b := BlockSize(last - first, hardware);
      seq(k, i requires 0 <= i < k => (first + i * b, if i < k - 1 then first + (i + 1) * b else last))
  }

  /** The blocks partition [first, last): the first starts at `first`, each ends
      where the next starts, the last ends at `last`, all but the last have exactly
      blockSize rows, and the last has at least blockSize. */
  lemma BlocksPartition(first: int, last: int, hardware: nat)
    requires first < last
    ensures var bs := Blocks(first, last, hardware);
      var b := BlockSize(last - first, hardware);
      |bs| >= 1 && bs[0].0 == first && bs[|bs| - 1].1 == last &&
      (forall i :: 0 <= i < |bs| - 1 ==> bs[i].1 == bs[i + 1].0 && bs[i].1 - bs[i].0 == b) &&
      bs[|bs| - 1].1 - bs[|bs| - 1].0 >= b
  {
    var bs := Blocks(first, last, hardware);
    var k := |bs|;
    var b := BlockSize(last - first, hardware);
    forall i | 0 <= i < k - 1
      ensures bs[i].1 == bs[i + 1].0 && bs[i].1 - bs[i].0 == b
    {
      assert (i + 1) * b == i * b + b;
    }
    assert bs[k - 1].0 == first + (k - 1) * b;
    assert (k - 1) * b == k * b - b;
  }

  /** Block i is [first + i * blockSize, first + (i + 1) * blockSize), except the
      last, which runs to `last`. */
  lemma BlockAt(first: int, last: int, hardware: nat, i: nat)
    requires first < last && i < NumThreads(last - first, hardware)
    ensures var bs := Blocks(first, last, hardware);
      var k := NumThreads(last - first, hardware);
      var b := BlockSize(last - first, hardware);
      bs[i].0 == first + i * b && bs[i].1 == if i < k - 1 then first + (i + 1) * b else last
  {
  }

  /** Every row of [first, last) lies in exactly one block. */
  lemma ExactlyOneBlock(first: int, last: int, hardware: nat, j: int) returns (i: nat)
    requires first <= j < last
    ensures var bs := Blocks(first, last, hardware);
      i < |bs| && bs[i].0 <= j < bs[i].1 &&
      forall i' :: 0 <= i' < |bs| && bs[i'].0 <= j < bs[i'].1 ==> i' == i
  {
    var bs := Blocks(first, last, hardware);
    var k := |bs|;
    var b := BlockSize(last - first, hardware);
    i := BlockIndex(j - first, k, b, last - first);
    BlockAt(first, last, hardware, i);
    forall i' | 0 <= i' < k && bs[i'].0 <= j < bs[i'].1
      ensures i' == i
    {
      BlockAt(first, last, hardware, i');
      BlockIndexUnique(j - first, k, b, i, i');
    }
  }

  /** The block of offset d: d / b, or the last block when that is past it. */
  lemma BlockIndex(d: nat, k: nat, b: nat, length: nat) returns (i: nat)
    requires 1 <= k && 1 <= b && d < length && k * b <= length
    ensures i < k && i * b <= d && (i < k - 1 ==> d < (i + 1) * b)
  {
    var q := d / b;
    assert b * q <= d < b * (q + 1);
    i := if q < k - 1 then q else k - 1;
    if q >= k - 1 {
      MulMonotone(k - 1, q, b);
    }
  }

  /** Two blocks that both hold offset d are the same block. */
  lemma BlockIndexUnique(d: nat, k: nat, b: nat, i: nat, i': nat)
    requires 1 <= b && i < k && i' < k
    requires i * b <= d && (i < k - 1 ==> d < (i + 1) * b)
    requires i' * b <= d && (i' < k - 1 ==> d < (i' + 1) * b)
    ensures i == i'
  {
    if i' < i {
      MulMonotone(i' + 1, i, b);
    } else if i < i' {
      MulMonotone(i + 1, i', b);
    }
  }

  lemma MulMonotone(x: nat, y: nat, b: nat)
    requires x <= y
    ensures x * b <= y * b
  {
  }

  /** parallelForEach(first, last, f) with the blocks run in sequence, returning the
      arguments f is called with, in order. The block loops count with unsigned
      long, so `first` is taken non-negative; `first <= last` keeps the unsigned
      length from wrapping. Each row is passed to f exactly once, in increasing
      order. */
  method ParallelForEach(first: int, last: int, hardware: nat) returns (calls: seq<int>)
    requires 0 <= first <= last
    ensures calls == Range(first, last)
  {
    calls := [];
    var length := last - first;
    if length == 0 {
      return;
    }
    var numThreads := NumThreads(length, hardware);
    var blockSize := BlockSize(length, hardware);
    var blockStart := first;
    for i := 0 to numThreads - 1
      invariant blockStart == first + i * blockSize
      invariant blockStart <= last
      invariant calls == Range(first, blockStart)
    {
      var blockEnd := blockStart;
      blockEnd := blockEnd + blockSize;
      assert blockEnd <= last by {
        MulMonotone(i + 1, numThreads, blockSize);
      }
      var j := blockStart;
      while j < blockEnd
        invariant blockStart <= j <= blockEnd
        invariant calls == Range(first, j)
      {
        calls := calls + [j];
        j := j + 1;
      }
      blockStart := blockEnd;
    }
    var i := blockStart;
    while i < last
      invariant blockStart <= i <= last
      invariant calls == Range(first, i)
    {
      calls := calls + [i];
      i := i + 1;
    }
  }

  /** An empty range forms no block and calls f never. */
  lemma EmptyRange(first: int, hardware: nat)
    ensures Blocks(first, first, hardware) == [] && Range(first, first) == []
  {
  }
}
