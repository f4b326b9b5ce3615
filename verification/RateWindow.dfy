// The server's limit on the total rate: a ring of the bytes of the last intervals, and what it
// says about a sliding window over all intervals there have been.
module RateWindow {
  function Sum(s: seq<nat>): nat {
    if s == [] then 0 else Sum(s[..|s| - 1]) + s[|s| - 1]
  }

  lemma {:induction false} SumConcat(a: seq<nat>, b: seq<nat>)
    ensures Sum(a + b) == Sum(a) + Sum(b)
  {
    if b == [] {
      assert a + b == a;
    } else {
      assert (a + b)[..|a + b| - 1] == a + b[..|b| - 1];
      SumConcat(a, b[..|b| - 1]);
    }
  }

  // So many bytes in n intervals, in whole bits a second.
  function BitsPerSecond(totalBytes: nat, n: nat, interval: real): int
    requires n >= 1 && interval > 0.0
  {
    var seconds := interval * n as real;
    ((totalBytes * 8) as real / seconds).Floor
  }

  // The rate is over a limit exactly when the bits are those of the next higher whole rate or more.
  lemma OverLimit(totalBytes: nat, n: nat, interval: real, limit: nat)
    requires n >= 1 && interval > 0.0
    ensures BitsPerSecond(totalBytes, n, interval) > limit <==>
            (8 * totalBytes) as real >= (limit as real + 1.0) * (interval * n as real)
  {
    var seconds := interval * n as real;
    assert seconds > 0.0;
    Ratio((totalBytes * 8) as real, seconds, limit as real + 1.0);
  }

  // The sum is that of the values, in any order: none counts for nothing and each for itself.
  lemma {:induction false} SumOfParts(s: seq<nat>, i: nat)
    requires i < |s|
    ensures Sum(s) == Sum(s[..i]) + s[i] + Sum(s[i + 1..])
    ensures Sum([]) == 0
  {
    assert s == s[..i] + ([s[i]] + s[i + 1..]);
    SumConcat(s[..i], [s[i]] + s[i + 1..]);
    SumConcat([s[i]], s[i + 1..]);
    assert [s[i]][..0] == [];
  }

  // The rate of the n values that end with value c.
  function WindowRate(values: seq<nat>, c: nat, n: nat, interval: real): int
    requires 1 <= n <= c <= |values| && interval > 0.0
  {
    BitsPerSecond(Sum(values[c - n..c]), n, interval)
  }

  // Some window of n values has been over the limit.
  ghost predicate Exceeded(values: seq<nat>, n: nat, interval: real, limit: nat)
    requires n >= 1 && interval > 0.0
  {
    exists c: nat :: n <= c <= |values| && WindowRate(values, c, n, interval) > limit
  }

  // The slot of the value j values before the last one, which is at index last.
  function Slot(last: nat, j: nat, n: nat): nat
    requires last < n && j < n
  {
    if j <= last then last - j else last - j + n
  }

  // The last values, up to n of them, are in their slots.
  ghost predicate RingOf(ring: seq<nat>, values: seq<nat>, last: nat, n: nat)
    requires last < n <= |ring|
  {
    forall j: nat :: j < n && j < |values| ==> ring[Slot(last, j, n)] == values[|values| - 1 - j]
  }

  // Storing the next value one further on keeps the ring: the slots of the other values stay.
  lemma RingStore(ring: seq<nat>, values: seq<nat>, last: nat, n: nat, x: nat)
    requires last < n <= |ring| && RingOf(ring, values, last, n)
    ensures var next := if last + 1 >= n then 0 else last + 1; RingOf(ring[next := x], values + [x], next, n)
  {
    var next := if last + 1 >= n then 0 else last + 1;
    var ring', values' := ring[next := x], values + [x];
    forall j: nat | j < n && j < |values'| ensures ring'[Slot(next, j, n)] == values'[|values'| - 1 - j] {
      if j > 0 {
        assert Slot(next, j, n) == Slot(last, j - 1, n);
      }
    }
  }

  // Once n values have come, the ring has the last n of them, turned around.
  lemma RingTotal(ring: seq<nat>, values: seq<nat>, last: nat, n: nat)
    requires last < n <= |ring| && RingOf(ring, values, last, n) && |values| >= n
    ensures Sum(ring[..n]) == Sum(values[|values| - n..])
  {
    var c := |values|;
    var older, newer := values[c - n..c - last - 1], values[c - last - 1..];
    assert ring[..last + 1] == newer by {
      forall i | 0 <= i <= last ensures ring[i] == newer[i] {
        assert Slot(last, last - i, n) == i;
      }
    }
    assert ring[last + 1..n] == older by {
      forall i | last + 1 <= i < n ensures ring[i] == older[i - last - 1] {
        assert Slot(last, last + n - i, n) == i;
      }
    }
    assert ring[..n] == newer + older;
    assert values[c - n..] == older + newer;
    SumConcat(newer, older);
    SumConcat(older, newer);
  }

  const MAX_INTERVAL: nat := 60

  // The number of intervals in a window, from the two intervals asked for, in seconds. An interval
  // of 0 is a valid option and leaves the number at 0.
  function StatsPerInterval(limitInterval: real, statsInterval: real): int
    requires statsInterval > 0.0
  {
    if limitInterval == 0.0 then 0
    else if limitInterval <= statsInterval then 1
    else (limitInterval / statsInterval + 0.5).Floor
  }

  // Otherwise the number is at least 1, and a window of that many intervals is as long as was asked
  // for, to within half an interval; but for a window shorter than an interval, which gets a whole one.
  lemma WindowLength(limitInterval: real, statsInterval: real)
    requires statsInterval > 0.0 && limitInterval > 0.0
    ensures var n := StatsPerInterval(limitInterval, statsInterval);
            && n >= 1
            && (limitInterval <= statsInterval ==> n == 1)
            && (limitInterval >= statsInterval ==>
                  limitInterval - statsInterval / 2.0 < n as real * statsInterval <= limitInterval + statsInterval / 2.0)
  {
    if limitInterval > statsInterval {
      Ratio(limitInterval, statsInterval, 1.0);
      var x := limitInterval / statsInterval;
      assert x * statsInterval == limitInterval;
      Rounded(limitInterval, statsInterval, x, StatsPerInterval(limitInterval, statsInterval) as real);
    }
  }

  lemma Rounded(a: real, b: real, x: real, n: real)
    requires b > 0.0 && x - 0.5 < n <= x + 0.5 && x * b == a
    ensures a - b / 2.0 < n * b <= a + b / 2.0
  {
    calc {
      0.0;
      <= { Times(x + 0.5 - n, b); }
      (x + 0.5 - n) * b;
      ==
      x * b + b / 2.0 - n * b;
      ==
      a + b / 2.0 - n * b;
    }
    calc {
      0.0;
      < { Times(n - x + 0.5, b); }
      (n - x + 0.5) * b;
      ==
      n * b - x * b + b / 2.0;
      ==
      n * b - a + b / 2.0;
    }
  }

  lemma Times(u: real, b: real)
    requires u >= 0.0 && b > 0.0
    ensures u * b >= 0.0 && (u > 0.0 ==> u * b > 0.0)
  {
  }

  // The ring has MAX_INTERVAL slots whatever the options say, so there is a window, and it fits
  // into the ring, exactly when the interval is not 0 and less than 60.5 intervals long.
  lemma WindowFits(limitInterval: real, statsInterval: real)
    requires statsInterval > 0.0
    ensures 1 <= StatsPerInterval(limitInterval, statsInterval) <= MAX_INTERVAL <==>
              limitInterval != 0.0 && limitInterval < 60.5 * statsInterval
  {
    Ratio(limitInterval, statsInterval, 1.0);
    Ratio(limitInterval, statsInterval, 60.5);
  }

  // Options that are allowed and for which there is no such window: 60 s of intervals of 0.1 s
  // are 600 values, and 0 s none.
  lemma WindowsThatDoNotFit()
    ensures StatsPerInterval(60.0, 0.1) == 600 > MAX_INTERVAL
    ensures StatsPerInterval(0.0, 1.0) == 0
  {
    assert 60.0 / 0.1 == 600.0;
  }

  lemma Ratio(a: real, b: real, k: real)
    requires b > 0.0
    ensures a / b < k <==> a < k * b
  {
    var x := a / b;
    assert x * b == a;
    if x < k {
      assert (k - x) * b > 0.0;
    } else {
      assert (x - k) * b >= 0.0;
    }
  }

  class RateLimit {
    const bitrateLimit: nat
    const statsInterval: real
    const statsPerInterval: nat
    const trafficBytes: array<nat>
    var lastIntervalIndex: nat
    var statsCount: nat
    var exceeded: bool
    // all values so far
    ghost var values: seq<nat>

    constructor (bitrateLimit: nat, statsInterval: real, statsPerInterval: nat)
      requires 1 <= statsPerInterval <= MAX_INTERVAL && statsInterval > 0.0
      ensures Valid() && values == [] && fresh(trafficBytes)
    {
      this.bitrateLimit, this.statsInterval, this.statsPerInterval := bitrateLimit, statsInterval, statsPerInterval;
      trafficBytes := new nat[MAX_INTERVAL](i => 0);
      lastIntervalIndex, statsCount, exceeded := 0, 0, false;
      values := [];
    }

    ghost predicate Valid()
      reads this, trafficBytes
    {
      && trafficBytes.Length == MAX_INTERVAL && 1 <= statsPerInterval <= MAX_INTERVAL && statsInterval > 0.0
      && statsCount == |values| && lastIntervalIndex < statsPerInterval
      && RingOf(trafficBytes[..], values, lastIntervalIndex, statsPerInterval)
      && exceeded == Exceeded(values, statsPerInterval, statsInterval, bitrateLimit)
    }

    // iperf_check_total_rate. The flag is up exactly when some window has been over the limit.
    method CheckTotalRate(last: nat, done: bool)
      requires Valid()
      modifies this, trafficBytes
      ensures Valid()
      ensures values == if done || bitrateLimit == 0 then old(values) else old(values) + [last]
    {
      if done || bitrateLimit == 0 {
        return;
      }
      hide Exceeded, BitsPerSecond, RingOf, Sum;
      ExceededStep(values, last, statsPerInterval, statsInterval, bitrateLimit);
      Store(last);
      if statsCount < statsPerInterval {
        return;
      }
      var totalBytes := Total();
      assert values[|values| - statsPerInterval..|values|] == values[|values| - statsPerInterval..];
      if BitsPerSecond(totalBytes, statsPerInterval, statsInterval) > bitrateLimit {
        exceeded := true;
      }
    }

    method Store(last: nat)
      requires Valid()
      modifies `lastIntervalIndex, `statsCount, `values, trafficBytes
      ensures values == old(values) + [last] && statsCount == |values|
      ensures lastIntervalIndex < statsPerInterval && RingOf(trafficBytes[..], values, lastIntervalIndex, statsPerInterval)
    {
      RingStore(trafficBytes[..], values, lastIntervalIndex, statsPerInterval, last);
      lastIntervalIndex := lastIntervalIndex + 1;
      if lastIntervalIndex >= statsPerInterval {
        lastIntervalIndex := 0;
      }
      trafficBytes[lastIntervalIndex] := last;
      statsCount := statsCount + 1;
      values := values + [last];
    }

    method Total() returns (totalBytes: nat)
      requires trafficBytes.Length == MAX_INTERVAL && lastIntervalIndex < statsPerInterval <= MAX_INTERVAL
      requires RingOf(trafficBytes[..], values, lastIntervalIndex, statsPerInterval) && statsPerInterval <= |values|
      ensures totalBytes == Sum(values[|values| - statsPerInterval..])
    {
      totalBytes := 0;
      for i := 0 to statsPerInterval
        invariant totalBytes == Sum(trafficBytes[..i])
      {
        assert trafficBytes[..i + 1][..i] == trafficBytes[..i];
        totalBytes := totalBytes + trafficBytes[i];
      }
      assert trafficBytes[..][..statsPerInterval] == trafficBytes[..statsPerInterval];
      RingTotal(trafficBytes[..], values, lastIntervalIndex, statsPerInterval);
    }
  }

  // A new value adds one window, the last one.
  lemma ExceededStep(values: seq<nat>, x: nat, n: nat, interval: real, limit: nat)
    requires n >= 1 && interval > 0.0
    ensures var values' := values + [x];
            Exceeded(values', n, interval, limit) <==>
            Exceeded(values, n, interval, limit) || (|values'| >= n && WindowRate(values', |values'|, n, interval) > limit)
  {
    var values' := values + [x];
    forall c: nat | n <= c <= |values| ensures WindowRate(values', c, n, interval) == WindowRate(values, c, n, interval) {
      assert values'[c - n..c] == values[c - n..c];
    }
  }
}
