/** The chart histories of `ModernSystemMonitor` (pcmonitor.py): each is a
    `collections.deque` created with sixty zeros and `maxlen=60`, so an
    append at the right end drops the oldest value at the left once the
    deque is full. */
module History {

  /** `maxlen` of every history deque. */
  const Capacity: nat := 60

  /** `[0] * n`. */
  function Zeros(n: nat): (r: seq<real>)
    ensures |r| == n && forall i :: 0 <= i < n ==> r[i] == 0.0
  {
    if n == 0 then [] else Zeros(n - 1) + [0.0]
  }

  /** `deque.append(x)` on a deque bounded by `Capacity`: the value goes to
      the right end and, when the deque was full, the leftmost value goes. */
  function Append(h: seq<real>, x: real): (r: seq<real>)
    requires |h| <= Capacity
  {
    if |h| < Capacity then h + [x] else h[1..] + [x]
  }

  /** One append per value of `xs`, oldest first. */
  function AppendAll(h: seq<real>, xs: seq<real>): (r: seq<real>)
    requires |h| <= Capacity
    ensures |r| <= Capacity
    decreases |xs|
  {
    if xs == [] then h
    else
      var before := AppendAll(h, xs[..|xs| - 1]);
      AppendLength(before, xs[|xs| - 1]);
      Append(before, xs[|xs| - 1])
  }

  /** An append keeps at most `Capacity` values, grows a deque that is not
      full by one and keeps a full one full. */
  lemma AppendLength(h: seq<real>, x: real)
    requires |h| <= Capacity
    ensures |Append(h, x)| == if |h| < Capacity then |h| + 1 else Capacity
  {
  }

  /** An append keeps the newest values of the deque followed by `x`: it is
      the longest suffix of `h + [x]` that fits. */
  lemma AppendKeepsSuffix(h: seq<real>, x: real)
    requires |h| <= Capacity
    ensures var r := Append(h, x);
      r == (h + [x])[|h| + 1 - |r|..] && r[|r| - 1] == x
  {
    if |h| == Capacity {
      assert (h + [x])[1..] == h[1..] + [x];
    }
  }

  /** A full deque stays full and, after any number of appends, holds the
      last `Capacity` values of everything it held and was given: the newest
      value last, every older one dropped. */
  lemma {:induction false} FullWindow(h: seq<real>, xs: seq<real>)
    requires |h| == Capacity
    ensures AppendAll(h, xs) == (h + xs)[|xs|..]
    decreases |xs|
  {
    if xs != [] {
      var n := |xs| - 1;
      var before := AppendAll(h, xs[..n]);
      FullWindow(h, xs[..n]);
      assert before == (h + xs[..n])[n..];
      assert (h + xs)[|xs|..] == (h + xs[..n])[n..][1..] + [xs[n]] by {
        assert h + xs == (h + xs[..n]) + [xs[n]];
      }
    }
  }

  /** The histories as the monitor keeps them: starting from sixty zeros, the
      series after `xs` is the leading zeros that have not yet been pushed
      out followed by the newest values of `xs`. */
  lemma HistoryAfterTicks(xs: seq<real>)
    ensures |AppendAll(Zeros(Capacity), xs)| == Capacity
    ensures |xs| <= Capacity ==>
      AppendAll(Zeros(Capacity), xs) == Zeros(Capacity - |xs|) + xs
    ensures |xs| >= Capacity ==>
      AppendAll(Zeros(Capacity), xs) == xs[|xs| - Capacity..]
  {
    var z := Zeros(Capacity);
    FullWindow(z, xs);
    if |xs| <= Capacity {
      assert (z + xs)[|xs|..] == z[|xs|..] + xs;
      assert z[|xs|..] == Zeros(Capacity - |xs|);
    } else {
      assert (z + xs)[|xs|..] == xs[|xs| - Capacity..];
    }
  }

  /** Three ticks reading 10, 55 and 90 leave fifty-seven zeros followed by
      the three readings, newest last. */
  lemma ThreeTicks()
    ensures AppendAll(Zeros(Capacity), [10.0, 55.0, 90.0]) == Zeros(57) + [10.0, 55.0, 90.0]
  {
    HistoryAfterTicks([10.0, 55.0, 90.0]);
  }
}
