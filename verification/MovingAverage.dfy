/**
 The ring buffer behind the moving averages (daemon/pool.go) and the stateful policy
 objects built on it, proved against the history-based specification in module Policy.
 */
module MovingAverages {
  import opened Policy

  /** movingAverage: a slice of length `len` and capacity `samples.Length`. */
  class MovingAverage {
    const samples: array<int>
    var len: nat
    var next: nat
    var sum: int
    ghost var history: seq<int>  // every sample ever added

    ghost function Window(): nat
    {
      samples.Length
    }

    ghost predicate Valid()
      reads this, samples
    {
      Ring(samples[..], len, next, sum, history)
    }

    constructor (window: nat)
      requires window >= 1
      ensures Valid() && fresh(samples) && Window() == window && history == []
    {
      samples := new int[window];
      len, next, sum, history := 0, 0, 0, [];
    }

    method AddSample(v: int) returns (mean: int)
      requires Valid()
      modifies this, samples
      ensures Valid() && history == old(history) + [v]
      ensures mean == Mean(history, Window())
    {
      hide Sum, Last, Rotated, Mean, CeilDiv;
      ghost var before := samples[..];
      if len < samples.Length {
        sum := sum + v;
        samples[len] := v;
        assert samples[..] == before[len := v];
        RingFill(before, len, next, sum - v, history, v);
        len := len + 1;
        next := next + 1;
      } else {
        var slot := next % samples.Length;
        sum := (sum + v) - samples[slot];
        samples[slot] := v;
        assert samples[..] == before[slot := v];
        RingReplace(before, next, sum - v + before[slot], history, v);
        next := slot + 1;
      }
      history := history + [v];
      RingMean(samples[..], len, next, sum, history);
      mean := Ceil(sum, len);
    }
  }

  /**
   What the buffer means: while it fills up it is the history itself; once full, reading it
   from slot next % capacity on gives the last samples in order, so that slot is the oldest.
   */
  ghost predicate Ring(s: seq<int>, len: nat, next: nat, sum: int, history: seq<int>)
  {
    && 1 <= |s|
    && len <= |s|
    && sum == Sum(s[..len])
    && if len < |s| then
         next == len && history == s[..len]
       else
         1 <= next <= |s| <= |history| && Rotated(s, next % |s|) == Last(history, |s|)
  }

  lemma RingFill(s: seq<int>, len: nat, next: nat, sum: int, history: seq<int>, v: int)
    requires len < |s| && Ring(s, len, next, sum, history)
    ensures Ring(s[len := v], len + 1, next + 1, sum + v, history + [v])
  {
    hide Sum, Last, Rotated;
    var t := s[len := v];
    assert t[..len + 1] == s[..len] + [v];
    AppendOne(s[..len], t[..len + 1], v);
    if len + 1 == |s| {
      RotatedFully(t);
      LastIsSuffix(history + [v], |s|);
      assert t == t[..len + 1];
    }
  }

  lemma RingReplace(s: seq<int>, next: nat, sum: int, history: seq<int>, v: int)
    requires Ring(s, |s|, next, sum, history)
    ensures var slot := next % |s|;
            Ring(s[slot := v], |s|, slot + 1, sum + v - s[slot], history + [v])
  {
    hide Sum, Last, Rotated;
    var slot := next % |s|;
    assert s[..|s|] == s && s[slot := v][..|s|] == s[slot := v];
    ReplaceOldest(s, slot, v, history);
    if slot + 1 < |s| {
      SmallMod(slot + 1, |s|);
    } else {
      RotatedFully(s[slot := v]);
    }
  }

  lemma SmallMod(k: nat, n: nat)
    requires k < n
    ensures k % n == k
  {
  }

  lemma RotatedFully(s: seq<int>)
    requires |s| >= 1
    ensures Rotated(s, |s| % |s|) == Rotated(s, |s|) == s
  {
  }

  lemma RingMean(s: seq<int>, len: nat, next: nat, sum: int, history: seq<int>)
    requires len >= 1 && Ring(s, len, next, sum, history)
    ensures |history| >= 1 && Mean(history, |s|) == CeilDiv(sum, len)
  {
    hide Sum, Last;
    if len < |s| {
      LastIsSuffix(history, |s|);
    } else {
      WindowSum(s, next % |s|, Last(history, |s|));
      assert s[..len] == s;
    }
  }

  /** int(math.Ceil(float64(a) / float64(b))), exact. */
  method Ceil(a: int, b: int) returns (q: int)
    requires b > 0
    ensures q == CeilDiv(a, b)
  {
    q := -((-a) / b);
    CeilDivExact(a, b);
    QuotientUnique(a, b, q, CeilDiv(a, b));
  }

  lemma QuotientUnique(a: int, b: int, p: int, q: int)
    requires b > 0 && a <= p * b < a + b && a <= q * b < a + b
    ensures p == q
  {
    assert (p - q) * b == p * b - q * b;
    SmallMultiple(p - q, b);
  }

  lemma SmallMultiple(x: int, b: int)
    requires -b < x * b < b
    ensures x == 0
  {
    assert x >= 1 ==> (x - 1) * b >= 0;
    assert x <= -1 ==> (x + 1) * b <= 0;
  }

  /** The buffer read from slot `k` on, wrapping around. */
  ghost function Rotated(s: seq<int>, k: nat): seq<int>
    requires k <= |s|
  {
    s[k..] + s[..k]
  }

  lemma AppendOne(s: seq<int>, t: seq<int>, v: int)
    requires t == s + [v]
    ensures Sum(t) == Sum(s) + v
  {
    SumConcat(s, [v]);
  }

  /** Rotation does not change the sum of the buffer. */
  lemma WindowSum(s: seq<int>, k: nat, w: seq<int>)
    requires k <= |s| && w == Rotated(s, k)
    ensures Sum(w) == Sum(s) && |w| == |s|
  {
    hide Sum;
    SumConcat(s[k..], s[..k]);
    SumConcat(s[..k], s[k..]);
    assert s[..k] + s[k..] == s;
  }

  /** Overwriting the oldest slot slides the window by one and swaps one term of the sum. */
  lemma ReplaceOldest(s: seq<int>, k: nat, v: int, history: seq<int>)
    requires k < |s| <= |history|
    requires Rotated(s, k) == Last(history, |s|)
    ensures Rotated(s[k := v], k + 1) == Last(history + [v], |s|)
    ensures Sum(s[k := v]) == Sum(s) + v - s[k]
  {
    hide Sum, Last;
    LastSlides(history, |s|, v);
    RotatedSlides(s, k, v);
    SumSplit(s, k);
    SumSplit(s[k := v], k);
    assert s[k := v][..k] == s[..k] && s[k := v][k + 1..] == s[k + 1..];
  }

  lemma LastSlides(history: seq<int>, window: nat, v: int)
    requires 1 <= window <= |history|
    ensures Last(history + [v], window) == Last(history, window)[1..] + [v]
  {
    hide Last;
    LastIsSuffix(history, window);
    LastIsSuffix(history + [v], window);
  }

  lemma RotatedSlides(s: seq<int>, k: nat, v: int)
    requires k < |s|
    ensures Rotated(s[k := v], k + 1) == Rotated(s, k)[1..] + [v]
  {
  }

  lemma SumSplit(s: seq<int>, k: nat)
    requires k < |s|
    ensures Sum(s) == Sum(s[..k]) + s[k] + Sum(s[k + 1..])
  {
    assert s == s[..k] + s[k..];
    SumConcat(s[..k], s[k..]);
    assert s[k..][1..] == s[k + 1..];
  }

  /** TargetMovingAverage over MovingAverage over MinMax over AIMD, as DefaultScalingPolicy builds it. */
  class DefaultPolicy {
    const config: Config
    const loads: MovingAverage
    const targets: MovingAverage

    ghost predicate Valid()
      reads this, loads, targets, loads.samples, targets.samples
    {
      && loads != targets && loads.samples != targets.samples
      && loads.Valid() && targets.Valid()
      && loads.Window() == config.loadWindow
      && targets.Window() == config.targetWindow
    }

    ghost function History(): State
      reads loads, targets
    {
      State(loads.history, targets.history)
    }

    constructor (c: Config)
      requires c.loadWindow >= 1 && c.targetWindow >= 1
      ensures Valid() && fresh(loads) && fresh(targets) && fresh(loads.samples) && fresh(targets.samples)
      ensures History() == FRESH && config == c
    {
      config := c;
      loads := new MovingAverage(c.loadWindow);
      targets := new MovingAverage(c.targetWindow);
    }

    /** The stateful policy object answers exactly as the history-based specification. */
    method Scale(total: int, idle: int, load: int) returns (target: int)
      requires Valid()
      modifies loads, targets, loads.samples, targets.samples
      ensures Valid()
      ensures (History(), target) == Policy.Scale(config, old(History()), total, idle, load)
    {
      var average := loads.AddSample(load);
      var unsmoothed := Unsmoothed(config, total, idle, average);
      target := targets.AddSample(unsmoothed);
    }
  }
}
