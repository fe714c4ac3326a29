/** How vmem_usage.c and pthread_create_demo2.c split an array among threads,
    the loop that adds up one segment, and the loop that adds up the sums. */
module Segments {

  function Total(s: seq<int>): int {
    if s == [] then 0 else Total(s[..|s| - 1]) + s[|s| - 1]
  }

  lemma {:induction false} TotalAppend(s: seq<int>, t: seq<int>)
    ensures Total(s + t) == Total(s) + Total(t)
  {
    if t == [] {
      assert s + t == s;
    } else {
      assert (s + t)[..|s + t| - 1] == s + t[..|t| - 1];
      TotalAppend(s, t[..|t| - 1]);
    }
  }

  /** The first index of thread t's segment; thread t ends where thread t + 1 begins. */
  function First(t: nat, size: nat, n: nat): nat
    requires 0 < n
  {
    t * size / n
  }

  lemma DivBounds(a: nat, n: nat)
    requires 0 < n
    ensures a / n * n <= a < a / n * n + n
  {
  }

  lemma QuotientOrder(x: int, y: int, n: nat)
    requires x * n < y * n + n
    ensures x <= y
  {
    if x > y {
      QuotientStep(x, y, n);
    }
  }

  lemma {:induction false} QuotientStep(x: int, y: int, n: nat)
    requires x > y
    ensures x * n >= y * n + n
    decreases x - y
  {
    assert x * n == (x - 1) * n + n;
    if x - 1 > y {
      QuotientStep(x - 1, y, n);
    }
  }

  lemma DivMonotone(a: nat, b: nat, n: nat)
    requires a <= b && 0 < n
    ensures a / n <= b / n
  {
    DivBounds(a, n);
    DivBounds(b, n);
    QuotientOrder(a / n, b / n, n);
  }

  lemma MultipleDivides(size: nat, n: nat)
    requires 0 < n
    ensures n * size / n == size
  {
    DivBounds(n * size, n);
    QuotientOrder(n * size / n, size, n);
    QuotientOrder(size, n * size / n, n);
  }

  /** The segments follow each other without gaps or overlaps and cover 0 .. size - 1. */
  lemma SegmentsCover(t: nat, size: nat, n: nat)
    requires t < n
    ensures First(0, size, n) == 0 && First(n, size, n) == size
    ensures First(t, size, n) <= First(t + 1, size, n) <= size
  {
    MultipleDivides(size, n);
    DivMonotone(t * size, (t + 1) * size, n);
    QuotientStep(n + 1, t + 1, size);
    assert (n + 1) * size == n * size + size;
    DivMonotone((t + 1) * size, n * size, n);
  }

  /** Every segment has size / n elements, or one more. */
  lemma SegmentsBalanced(t: nat, size: nat, n: nat)
    requires t < n
    ensures size / n <= First(t + 1, size, n) - First(t, size, n) <= size / n + 1
  {
    var a, b := t * size, (t + 1) * size;
    assert b == a + size;
    var qa, qb, qs := a / n, b / n, size / n;
    DivBounds(a, n);
    DivBounds(b, n);
    DivBounds(size, n);
    assert (qa + qs) * n == qa * n + qs * n;
    assert (qa + qs + 1) * n == qa * n + qs * n + n;
    QuotientOrder(qa + qs, qb, n);
    QuotientOrder(qb, qa + qs + 1, n);
  }

  /** What thread t adds up. */
  ghost function SegmentSum(data: seq<int>, n: nat, t: nat): int
    requires t < n
  {
    SegmentsCover(t, |data|, n);
    Total(data[First(t, |data|, n)..First(t + 1, |data|, n)])
  }

  ghost function SegmentSums(data: seq<int>, n: nat, k: nat): seq<int>
    requires k <= n
  {
    seq(k, t requires 0 <= t < k => SegmentSum(data, n, t))
  }

  lemma {:induction false} SumsOfPrefix(data: seq<int>, n: nat, k: nat)
    requires k <= n && 0 < n
    ensures First(k, |data|, n) <= |data|
    ensures Total(SegmentSums(data, n, k)) == Total(data[..First(k, |data|, n)])
  {
    if k == 0 {
      SegmentsCover(0, |data|, n);
      assert data[..0] == [];
    } else {
      SumsOfPrefix(data, n, k - 1);
      SegmentsCover(k - 1, |data|, n);
      var a, b := First(k - 1, |data|, n), First(k, |data|, n);
      assert SegmentSums(data, n, k)[..k - 1] == SegmentSums(data, n, k - 1);
      assert data[..b] == data[..a] + data[a..b];
      TotalAppend(data[..a], data[a..b]);
    }
  }

  /** The segment sums add up to the sum of the array. */
  lemma SegmentSumsAddUp(data: seq<int>, n: nat)
    requires 0 < n
    ensures Total(SegmentSums(data, n, n)) == Total(data)
  {
    SumsOfPrefix(data, n, n);
    SegmentsCover(0, |data|, n);
    assert data[..|data|] == data;
  }

  /** The loop of sum_reduce and add_array over one thread's segment. */
  method AddSegment(sums: array<int>, tid: nat, data: array<int>, n: nat)
    requires tid < n == sums.Length && sums != data
    modifies sums
    ensures sums[..] == old(sums[..])[tid := SegmentSum(data[..], n, tid)]
  {
    SegmentsCover(tid, data.Length, n);
    var first, last := tid * data.Length / n, (tid + 1) * data.Length / n - 1;
    sums[tid] := 0;
    var k := first;
    while k <= last
      invariant first <= k <= last + 1
      invariant sums[..] == old(sums[..])[tid := Total(data[..][first..k])]
    {
      assert data[..][first..k + 1][..k - first] == data[..][first..k];
      sums[tid] := sums[tid] + data[k];
      k := k + 1;
    }
  }

  /** The final loop of main in pthread_create_demo2.c. */
  method CollectTotal(sums: array<int>, ghost data: seq<int>) returns (total: int)
    requires 0 < sums.Length && sums[..] == SegmentSums(data, sums.Length, sums.Length)
    ensures total == Total(data)
  {
    total := 0;
    var t := 0;
    while t < sums.Length
      invariant 0 <= t <= sums.Length
      invariant total == Total(sums[..t])
    {
      assert sums[..t + 1][..t] == sums[..t];
      total := total + sums[t];
      t := t + 1;
    }
    assert sums[..t] == sums[..];
    SegmentSumsAddUp(data, sums.Length);
  }
}
