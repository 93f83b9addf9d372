/**
 * The animation preview sent when a render completes: which of the rendered
 * frames go into the GIF.
 */
module Preview {

  /** Above this many frames the preview is thinned out. */
  const SampleThreshold: int := 30
  /** Frames kept at each end of a thinned-out preview. */
  const EdgeFrames: int := 10

  /** len(range(lo, hi, step)) for a positive step: ceil((hi - lo) / step), or 0 when lo >= hi. */
  function RangeCount(lo: int, hi: int, step: int): nat
    requires step > 0
  {
    if lo >= hi then 0 else (hi - lo - 1) / step + 1
  }

  /** Python's range(lo, hi, step) for a positive step: lo, lo + step, ... while below hi. */
  function Range(lo: int, hi: int, step: int): (r: seq<int>)
    requires step > 0
    ensures |r| == RangeCount(lo, hi, step)
    ensures forall i | 0 <= i < |r| :: r[i] == lo + i * step
  {
    seq(RangeCount(lo, hi, step), i => lo + i * step)
  }

  /** A non-empty range has ceil((hi - lo) / step) entries: (|r| - 1) * step < hi - lo <= |r| * step. */
  lemma RangeLength(lo: int, hi: int, step: int)
    requires step > 0 && lo < hi
    ensures (|Range(lo, hi, step)| - 1) * step < hi - lo <= |Range(lo, hi, step)| * step
  {
    var d := hi - lo - 1;
    var q := d / step;
    assert d == q * step + d % step;
    assert |Range(lo, hi, step)| - 1 == q;
    assert (q + 1) * step == q * step + step;
  }

  /** Every entry of a range lies in [lo, hi). */
  lemma RangeBounds(lo: int, hi: int, step: int)
    requires step > 0
    ensures forall i | 0 <= i < |Range(lo, hi, step)| :: lo <= Range(lo, hi, step)[i] < hi
  {
    var r := Range(lo, hi, step);
    if lo < hi {
      RangeLength(lo, hi, step);
      forall i | 0 <= i < |r|
        ensures lo <= r[i] < hi
      {
        StepMonotone(i, |r| - 1, step);
      }
    }
  }

  /** A range is strictly increasing. */
  lemma RangeIncreasing(lo: int, hi: int, step: int)
    requires step > 0
    ensures Increasing(Range(lo, hi, step))
  {
    var r := Range(lo, hi, step);
    forall i, j | 0 <= i < j < |r|
      ensures r[i] < r[j]
    {
      StepMonotone(i, j, step);
    }
  }

  predicate Increasing(s: seq<int>)
  {
    forall i, j | 0 <= i < j < |s| :: s[i] < s[j]
  }

  /**
   * The indices send_telegram_animation builds when there are more than 30
   * frames: the first ten, every ((n - 20) // 10)-th from 10 to n - 10, and
   * the last ten.
   */
  function SampleIndices(n: int): (r: seq<int>)
    requires n > SampleThreshold
    ensures 30 <= |r| <= 39
  {
    Range(0, EdgeFrames, 1) + Middle(n) + Range(n - EdgeFrames, n, 1)
  }

  /** The middle part of the sample: every ((n - 20) // 10)-th index from 10 up to n - 10. */
  function Middle(n: int): (r: seq<int>)
    requires n > SampleThreshold
    ensures r == Range(EdgeFrames, n - EdgeFrames, (n - 2 * EdgeFrames) / 10)
    ensures 10 <= |r| <= 19
    ensures Increasing(r)
    ensures forall i | 0 <= i < |r| :: 10 <= r[i] < n - 10
  {
    var step := (n - 20) / 10;
    RangeLength(10, n - 10, step);
    MiddleCount(n, step, |Range(10, n - 10, step)|);
    RangeIncreasing(10, n - 10, step);
    RangeBounds(10, n - 10, step);
    Range(10, n - 10, step)
  }

  /** Python's list(range(lo, lo + 10)): ten consecutive indices. */
  lemma TenConsecutive(lo: int, hi: int)
    requires hi == lo + 10
    ensures |Range(lo, hi, 1)| == 10
    ensures forall i | 0 <= i < 10 :: Range(lo, hi, 1)[i] == lo + i
    ensures Increasing(Range(lo, hi, 1))
  {
    RangeIncreasing(lo, hi, 1);
  }

  /**
   * The sampled indices are strictly increasing (so sorted(set(...)) leaves
   * them as they are), lie in [0, n), begin with 0..9, end with n-10..n-1,
   * and number between 30 and 39.
   */
  lemma SampleIndicesShape(n: int)
    requires n > SampleThreshold
    ensures var r := SampleIndices(n);
            && Increasing(r)
            && (forall i | 0 <= i < |r| :: 0 <= r[i] < n)
            && 30 <= |r| <= 39
            && (forall i | 0 <= i < EdgeFrames :: r[i] == i)
            && (forall i | |r| - EdgeFrames <= i < |r| :: r[i] == n - |r| + i)
  {
    var head, mid, tail := Range(0, 10, 1), Middle(n), Range(n - 10, n, 1);
    TenConsecutive(0, 10);
    TenConsecutive(n - 10, n);
    assert SampleIndices(n) == head + mid + tail;
    ThreeParts(n, head, mid, tail);
  }

  /** The shape of the sample, from the shapes of its first ten, its middle and its last ten. */
  lemma ThreeParts(n: int, head: seq<int>, mid: seq<int>, tail: seq<int>)
    requires n > SampleThreshold
    requires |head| == 10 && (forall i | 0 <= i < 10 :: head[i] == i) && Increasing(head)
    requires 10 <= |mid| <= 19 && Increasing(mid) && (forall i | 0 <= i < |mid| :: 10 <= mid[i] < n - 10)
    requires |tail| == 10 && (forall i | 0 <= i < 10 :: tail[i] == n - 10 + i) && Increasing(tail)
    ensures var r := head + mid + tail;
            && Increasing(r)
            && (forall i | 0 <= i < |r| :: 0 <= r[i] < n)
            && 30 <= |r| <= 39
            && (forall i | 0 <= i < EdgeFrames :: r[i] == i)
            && (forall i | |r| - EdgeFrames <= i < |r| :: r[i] == n - |r| + i)
  {
    ConcatIncreasing(head, mid);
    ConcatIncreasing(head + mid, tail);
    var r := head + mid + tail;
    forall i | 0 <= i < |r|
      ensures 0 <= r[i] < n
    {
      if i < 10 {
        assert r[i] == head[i];
      } else if i < 10 + |mid| {
        assert r[i] == mid[i - 10];
      } else {
        assert r[i] == tail[i - 10 - |mid|];
      }
    }
  }

  /** Two increasing lists, all of the first below all of the second, make an increasing list. */
  lemma ConcatIncreasing(a: seq<int>, b: seq<int>)
    requires Increasing(a) && Increasing(b)
    requires a != [] && b != [] ==> a[|a| - 1] < b[0]
    ensures Increasing(a + b)
  {
    var r := a + b;
    forall i, j | 0 <= i < j < |r|
      ensures r[i] < r[j]
    {
      if i < |a| && j >= |a| {
        assert r[i] <= a[|a| - 1];
        assert b[0] <= r[j];
      }
    }
  }

  lemma StepMonotone(i: int, j: int, step: int)
    requires 0 <= i <= j && step > 0
    ensures i * step <= j * step
    ensures i < j ==> i * step < j * step
  {
    assert j * step - i * step == (j - i) * step;
  }

  /** The middle range has between 10 and 19 entries. */
  lemma MiddleCount(n: int, step: int, count: int)
    requires n > 30 && step == (n - 20) / 10
    requires (count - 1) * step < n - 20 <= count * step
    ensures 10 <= count <= 19
  {
    assert 10 * step <= n - 20 < 10 * step + 10;
  }

  /** The frames the preview is built from: all of them up to 30, a sample of them beyond. */
  function SampleFrames<T>(frames: seq<T>): (r: seq<T>)
    ensures |frames| <= SampleThreshold ==> r == frames
    ensures |frames| > SampleThreshold ==>
              |r| == |SampleIndices(|frames|)|
              && forall k | 0 <= k < |r| :: 0 <= SampleIndices(|frames|)[k] < |frames| && r[k] == frames[SampleIndices(|frames|)[k]]
  {
    if |frames| <= SampleThreshold then frames
    else
      SampleIndicesShape(|frames|);
      Pick(frames, SampleIndices(|frames|))
  }

  /** [frames[i] for i in idx] */
  function Pick<T>(frames: seq<T>, idx: seq<int>): (r: seq<T>)
    requires forall k | 0 <= k < |idx| :: 0 <= idx[k] < |frames|
    ensures |r| == |idx|
    ensures forall k | 0 <= k < |idx| :: r[k] == frames[idx[k]]
  {
    seq(|idx|, k requires 0 <= k < |idx| => frames[idx[k]])
  }

  /**
   * A long sequence's preview has 30 to 39 frames, keeps the first ten and
   * the last ten, and keeps frames in the order they were rendered.
   */
  lemma SampleFramesKeepsEnds<T>(frames: seq<T>)
    requires |frames| > SampleThreshold
    ensures var r := SampleFrames(frames);
            && 30 <= |r| <= 39
            && r[..EdgeFrames] == frames[..EdgeFrames]
            && r[|r| - EdgeFrames..] == frames[|frames| - EdgeFrames..]
  {
    SampleIndicesShape(|frames|);
    var r := SampleFrames(frames);
    var idx := SampleIndices(|frames|);
    forall k | 0 <= k < EdgeFrames
      ensures r[k] == frames[k]
    {
      assert idx[k] == k;
    }
    assert r[..EdgeFrames] == frames[..EdgeFrames];
    forall k | |r| - EdgeFrames <= k < |r|
      ensures r[k] == frames[|frames| - |r| + k]
    {
      assert idx[k] == |frames| - |r| + k;
    }
    assert r[|r| - EdgeFrames..] == frames[|frames| - EdgeFrames..];
  }

  /** The elements of an index list, as Python's set() of it. */
  function Elems(s: seq<int>): set<int>
  {
    set x | x in s
  }

  lemma InElems(s: seq<int>, i: int)
    requires 0 <= i < |s|
    ensures s[i] in Elems(s)
  {
  }

  /**
   * sorted(set(xs)) is the one strictly increasing list with the elements of
   * xs: two strictly increasing lists with the same elements are equal.
   */
  lemma {:induction false} IncreasingUnique(a: seq<int>, b: seq<int>)
    requires Increasing(a) && Increasing(b) && Elems(a) == Elems(b)
    ensures a == b
    decreases |a|
  {
    if a == [] {
      if b != [] {
        InElems(b, 0);
        assert false;
      }
    } else {
      assert a[0] in Elems(a);
      assert b != [];
      assert b[0] in Elems(b);
      assert a[0] == b[0] by {
        assert a[0] in Elems(b);
        assert b[0] in Elems(a);
      }
      assert Elems(a[1..]) == Elems(a) - {a[0]} by {
        assert forall x | x in a[1..] :: x > a[0];
        assert forall x | x in a :: x == a[0] || x in a[1..];
      }
      assert Elems(b[1..]) == Elems(b) - {b[0]} by {
        assert forall x | x in b[1..] :: x > b[0];
        assert forall x | x in b :: x == b[0] || x in b[1..];
      }
      IncreasingUnique(a[1..], b[1..]);
      assert a == [a[0]] + a[1..] && b == [b[0]] + b[1..];
    }
  }

  /** So the deduplicate-and-sort step leaves the sampled index list unchanged. */
  lemma SortedSetOfSampleIsSample(n: int, sorted: seq<int>)
    requires n > SampleThreshold
    requires Increasing(sorted) && Elems(sorted) == Elems(SampleIndices(n))
    ensures sorted == SampleIndices(n)
  {
    SampleIndicesShape(n);
    IncreasingUnique(sorted, SampleIndices(n));
  }
}
