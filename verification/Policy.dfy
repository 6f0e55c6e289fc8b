/**
 The scaling policy stack of a driver pool (daemon/pool.go): additive increase /
 multiplicative decrease, clamped to [min, max], fed with a moving average of the load
 and smoothed by a moving average of the target.

 Policies are specified over the whole history of their inputs. The ring buffer that the
 daemon uses instead of a history is the class in MovingAverage.dfy.
 */
module Policy {

  // ----- Arithmetic -----

  /**
   The ceiling of the exact quotient a / b; stands for math.Ceil of a float quotient.
   Defined by repeated subtraction; CeilDivExact characterises it.
   */
  function CeilDiv(a: int, b: int): int
    requires b > 0
    decreases if a > 0 then a + b else -a
  {
    if a > 0 then 1 + CeilDiv(a - b, b)
    else if a <= -b then CeilDiv(a + b, b) - 1
    else 0
  }

  /** CeilDiv(a, b) is the least integer q with a <= q * b. */
  lemma {:induction false} CeilDivExact(a: int, b: int)
    requires b > 0
    ensures a <= CeilDiv(a, b) * b < a + b
    decreases if a > 0 then a + b else -a
  {
    var q := CeilDiv(a, b);
    if a > 0 {
      CeilDivExact(a - b, b);
      assert q * b == (q - 1) * b + b;
    } else if a <= -b {
      CeilDivExact(a + b, b);
      assert q * b == (q + 1) * b - b;
    }
  }

  function CeilReal(x: real): (n: int)
    ensures (n - 1) as real < x <= n as real
  {
    -((-x).Floor)
  }

  /** The exact product n * x, by repeated addition; TimesExact characterises it. */
  function Times(n: nat, x: real): real
  {
    if n == 0 then 0.0 else x + Times(n - 1, x)
  }

  lemma {:induction false} TimesExact(n: nat, x: real)
    ensures Times(n, x) == n as real * x
  {
    if n == 0 {
    } else {
      TimesExact(n - 1, x);
      assert n as real * x == x + (n - 1) as real * x;
    }
  }

  lemma {:induction false} TimesPositive(n: nat, x: real)
    requires n >= 1 && x > 0.0
    ensures Times(n, x) > 0.0
  {
    if n > 1 {
      TimesPositive(n - 1, x);
    }
  }

  lemma {:induction false} TimesZero(n: nat)
    ensures Times(n, 0.0) == 0.0
  {
    if n == 0 {
    } else {
      TimesZero(n - 1);
    }
  }

  lemma CeilDivBetween(a: int, b: int, lo: int, hi: int)
    requires b > 0 && lo * b <= a <= hi * b
    ensures lo <= CeilDiv(a, b) <= hi
  {
    CeilDivExact(a, b);
    QuotientBetween(a, b, CeilDiv(a, b), lo, hi);
  }

  lemma QuotientBetween(a: int, b: int, q: int, lo: int, hi: int)
    requires b > 0 && lo * b <= a <= hi * b && a <= q * b < a + b
    ensures lo <= q <= hi
  {
    if q < lo {
      MultiplesApart(q, lo, b);
    }
    if hi < q {
      MultiplesApart(hi, q, b);
    }
  }

  lemma MultiplesApart(x: int, y: int, b: int)
    requires b > 0 && x < y
    ensures x * b + b <= y * b
  {
    assert y * b == x * b + b + (y - x - 1) * b;
  }

  // ----- Histories and windows -----

  function Sum(s: seq<int>): int
  {
    if s == [] then 0 else s[0] + Sum(s[1..])
  }

  lemma {:induction false} SumConcat(a: seq<int>, b: seq<int>)
    ensures Sum(a + b) == Sum(a) + Sum(b)
  {
    if a == [] {
      assert a + b == b;
    } else {
      assert (a + b)[1..] == a[1..] + b;
      SumConcat(a[1..], b);
    }
  }

  /** The last `window` samples, or all of them while there are fewer. */
  function Last(history: seq<int>, window: nat): (r: seq<int>)
    ensures |r| == if |history| < window then |history| else window
  {
    if window == 0 || history == [] then []
    else Last(history[..|history| - 1], window - 1) + [history[|history| - 1]]
  }

  lemma {:induction false} LastIsSuffix(history: seq<int>, window: nat)
    ensures Last(history, window) == history[|history| - |Last(history, window)|..]
  {
    if window > 0 && history != [] {
      var front, end := history[..|history| - 1], history[|history| - 1];
      LastIsSuffix(front, window - 1);
      var k := |front| - |Last(front, window - 1)|;
      assert Last(history, window) == Last(front, window - 1) + [end];
      hide Last;
      assert front[k..] + [end] == history[k..];
    }
  }

  /** The simple windowed mean, rounded up. */
  function Mean(history: seq<int>, window: nat): int
    requires |history| >= 1 && window >= 1
  {
    CeilDiv(Sum(Last(history, window)), |Last(history, window)|)
  }

  ghost predicate AllIn(s: seq<int>, lo: int, hi: int)
  {
    forall i | 0 <= i < |s| :: lo <= s[i] <= hi
  }

  lemma {:induction false} SumBetween(s: seq<int>, lo: int, hi: int)
    requires AllIn(s, lo, hi)
    ensures lo * |s| <= Sum(s) <= hi * |s|
  {
    if s == [] {
    } else {
      var n := |s[1..]|;
      assert AllIn(s[1..], lo, hi);
      SumBetween(s[1..], lo, hi);
      assert lo * |s| == lo * n + lo && hi * |s| == hi * n + hi;
    }
  }

  /** A windowed mean stays between the bounds of the samples it averages. */
  lemma MeanBetween(history: seq<int>, window: nat, lo: int, hi: int)
    requires |history| >= 1 && window >= 1
    requires AllIn(Last(history, window), lo, hi)
    ensures lo <= Mean(history, window) <= hi
  {
    var w := Last(history, window);
    SumBetween(w, lo, hi);
    CeilDivBetween(Sum(w), |w|, lo, hi);
  }

  // ----- Policies -----

  datatype Config = Config(
    min: int, max: int,             // BBLFSHD_{MIN,MAX}_DRIVER_INSTANCES
    add: int, mul: real,            // increment and downscale multiplier of AIMD
    loadWindow: nat, targetWindow: nat)
  {
    /** A non-positive minimum means "always at the maximum". */
    function Low(): int {
      if min <= 0 then max else min
    }

    /** A zero-size window divides by zero in AddSample, so windows are at least one. */
    ghost predicate Valid() {
      1 <= Low() <= max && loadWindow >= 1 && targetWindow >= 1
    }
  }

  function Aimd(add: int, mul: real, total: int, idle: int, waiting: int): (r: int)
    ensures r >= 1
  {
    var load := waiting - idle;
    var scaled :=
      if load >= 0 then total + (if add > load then load else add)
      else total - CeilReal(Times(-load, mul));
    if scaled < 1 then 1 else scaled
  }

  /** MinMax: the lower limit is raised to 1 when it is built, and the upper limit is tried first. */
  function Clamp(min: int, max: int, v: int): int
  {
    var min := if min < 1 then 1 else min;
    if v > max then max else if v < min then min else v
  }

  /** defaultScalingPolicy */
  function Unsmoothed(c: Config, total: int, idle: int, load: int): int
  {
    Clamp(c.Low(), c.max, Aimd(c.add, c.mul, total, idle, load))
  }

  // ----- Laws of the policy -----

  function Max(a: int, b: int): int
  {
    if a < b then b else a
  }

  /** The least integer not below x. */
  predicate IsCeiling(n: int, x: real)
  {
    (n - 1) as real < x <= n as real
  }

  /** Additive increase: the pool grows by `add` or by the requests in excess of idle instances, whichever is less. */
  lemma AimdGrows(add: int, mul: real, total: int, idle: int, waiting: int)
    requires waiting >= idle && add >= 0
    ensures var r := Aimd(add, mul, Max(1, total), idle, waiting) - Max(1, total);
            0 <= r <= add && r <= waiting - idle && (r == add || r == waiting - idle)
  {
  }

  /**
   Multiplicative decrease: with `surplus` idle instances more than requests, the pool shrinks by
   the least integer `d` not below the surplus times `mul`, but never below 1.
   */
  lemma AimdShrinks(add: int, mul: real, total: int, waiting: int, surplus: nat, d: int)
    requires surplus >= 1 && IsCeiling(d, surplus as real * mul)
    ensures Aimd(add, mul, total, waiting + surplus, waiting) == Max(1, total - d)
  {
    hide IsCeiling, Aimd, Times;
    TimesExact(surplus, mul);
    ShrinksBy(add, mul, total, waiting, surplus, d);
  }

  lemma ShrinksBy(add: int, mul: real, total: int, waiting: int, surplus: nat, d: int)
    requires surplus >= 1 && IsCeiling(d, Times(surplus, mul))
    ensures Aimd(add, mul, total, waiting + surplus, waiting) == Max(1, total - d)
  {
    hide Times;
    CeilingUnique(d, CeilReal(Times(surplus, mul)), Times(surplus, mul));
  }

  lemma CeilingUnique(m: int, n: int, x: real)
    requires IsCeiling(m, x) && IsCeiling(n, x)
    ensures m == n
  {
    assert (m - 1) as real < n as real && (n - 1) as real < m as real;
  }

  /** Only the difference of waiting requests and idle instances counts. */
  lemma AimdShift(add: int, mul: real, total: int, idle: int, waiting: int, k: int)
    ensures Aimd(add, mul, total, idle + k, waiting + k) == Aimd(add, mul, total, idle, waiting)
  {
  }

  lemma {:induction false} TimesMonotone(m: nat, n: nat, x: real)
    requires m <= n && x >= 0.0
    ensures 0.0 <= Times(m, x) <= Times(n, x)
  {
    if n == 0 {
    } else if m < n {
      TimesMonotone(m, n - 1, x);
    } else {
      TimesMonotone(m - 1, n - 1, x);
    }
  }

  /** More load, fewer idle instances or more instances never lower the target. */
  lemma AimdMonotone(add: int, mul: real, total: int, idle: int, waiting: int, total': int, idle': int, waiting': int)
    requires add >= 0 && mul >= 0.0 && total <= total' && idle >= idle' && waiting <= waiting'
    ensures Aimd(add, mul, total, idle, waiting) <= Aimd(add, mul, total', idle', waiting')
  {
    var load, load' := waiting - idle, waiting' - idle';
    if load' < 0 {
      TimesMonotone(-load', -load, mul);
    } else if load < 0 {
      TimesMonotone(0, -load, mul);
    }
  }

  lemma UnsmoothedMonotone(c: Config, total: int, idle: int, load: int, total': int, idle': int, load': int)
    requires c.add >= 0 && c.mul >= 0.0 && (c.Low() <= c.max || c.max < 1)
    requires total <= total' && idle >= idle' && load <= load'
    ensures Unsmoothed(c, total, idle, load) <= Unsmoothed(c, total', idle', load')
  {
    hide Aimd;
    AimdMonotone(c.add, c.mul, total, idle, load, total', idle', load');
  }

  /** More load lowers the target for some input exactly if the limits are the wrong way round. */
  lemma MonotoneIff(c: Config)
    requires c.add >= 1 && c.mul >= 0.0
    ensures (forall total, idle, load, load' | load <= load' ::
               Unsmoothed(c, total, idle, load) <= Unsmoothed(c, total, idle, load')) <==> c.Low() <= c.max || c.max < 1
  {
    if c.Low() <= c.max || c.max < 1 {
      forall total, idle, load, load' | load <= load'
        ensures Unsmoothed(c, total, idle, load) <= Unsmoothed(c, total, idle, load')
      {
        UnsmoothedMonotone(c, total, idle, load, total, idle, load');
      }
    } else {
      assert Unsmoothed(c, c.max, 0, 0) == c.Low();
      assert Unsmoothed(c, c.max, 0, 1) == c.max;
    }
  }

  /** The samples seen so far by the two moving averages. */
  datatype State = State(loads: seq<int>, targets: seq<int>)

  const FRESH := State([], [])

  /** DefaultScalingPolicy().Scale */
  function Scale(c: Config, s: State, total: int, idle: int, load: int): (r: (State, int))
    requires c.loadWindow >= 1 && c.targetWindow >= 1
  {
    var loads := s.loads + [load];
    var target := Unsmoothed(c, total, idle, Mean(loads, c.loadWindow));
    var targets := s.targets + [target];
    (State(loads, targets), Mean(targets, c.targetWindow))
  }

  /** Every unsmoothed target of the past was within the configured limits. */
  ghost predicate InLimits(c: Config, s: State)
  {
    AllIn(s.targets, c.Low(), c.max)
  }

  lemma UnsmoothedInLimits(c: Config, total: int, idle: int, load: int)
    requires c.Valid()
    ensures c.Low() <= Unsmoothed(c, total, idle, load) <= c.max
  {
  }

  /** Whatever the inputs, the default policy keeps its target within the configured limits. */
  lemma ScaleInLimits(c: Config, s: State, total: int, idle: int, load: int)
    requires c.Valid() && InLimits(c, s)
    ensures InLimits(c, Scale(c, s, total, idle, load).0)
    ensures c.Low() <= Scale(c, s, total, idle, load).1 <= c.max
  {
    hide Unsmoothed, Mean, Last;
    var targets := Scale(c, s, total, idle, load).0.targets;
    UnsmoothedInLimits(c, total, idle, Mean(s.loads + [load], c.loadWindow));
    LastIsSuffix(targets, c.targetWindow);
    MeanBetween(targets, c.targetWindow, c.Low(), c.max);
  }

  lemma CeilDivMonotone(a: int, a': int, b: int)
    requires b > 0 && a <= a'
    ensures CeilDiv(a, b) <= CeilDiv(a', b)
  {
    CeilDivExact(a, b);
    CeilDivExact(a', b);
    if CeilDiv(a', b) < CeilDiv(a, b) {
      MultiplesApart(CeilDiv(a', b), CeilDiv(a, b), b);
    }
  }

  /** Of two last samples the larger one gives the larger mean. */
  lemma MeanMonotone(history: seq<int>, v: int, v': int, window: nat)
    requires window >= 1 && v <= v'
    ensures Mean(history + [v], window) <= Mean(history + [v'], window)
  {
    hide Last, Sum;
    var w := Last(history, window - 1);
    LastAppend(history, v, window);
    LastAppend(history, v', window);
    SumConcat(w, [v]);
    SumConcat(w, [v']);
    assert Sum([v]) == v && Sum([v']) == v' by { SumOfOne(v); SumOfOne(v'); }
    CeilDivMonotone(Sum(w + [v]), Sum(w + [v']), |w| + 1);
  }

  lemma SumOfOne(v: int)
    ensures Sum([v]) == v
  {
    assert [v][1..] == [];
  }

  /** Whatever the past, more load or fewer idle instances never lower the answer of the whole policy. */
  lemma ScaleMonotone(c: Config, s: State, total: int, idle: int, load: int, idle': int, load': int)
    requires c.Valid() && c.add >= 0 && c.mul >= 0.0 && idle >= idle' && load <= load'
    ensures Scale(c, s, total, idle, load).1 <= Scale(c, s, total, idle', load').1
  {
    hide Mean, Unsmoothed;
    MeanMonotone(s.loads, load, load', c.loadWindow);
    var average, average' := Mean(s.loads + [load], c.loadWindow), Mean(s.loads + [load'], c.loadWindow);
    UnsmoothedMonotone(c, total, idle, average, total, idle', average');
    MeanMonotone(s.targets, Unsmoothed(c, total, idle, average), Unsmoothed(c, total, idle', average'), c.targetWindow);
  }

  datatype Input = Input(total: int, idle: int, load: int)

  /** The targets that the policy answers to a history of inputs. */
  function Answers(c: Config, s: State, inputs: seq<Input>): (r: seq<int>)
    requires c.loadWindow >= 1 && c.targetWindow >= 1
    decreases |inputs|
  {
    if inputs == [] then [] else
      var next := Scale(c, s, inputs[0].total, inputs[0].idle, inputs[0].load);
      [next.1] + Answers(c, next.0, inputs[1..])
  }

  /** Every answer to every history of inputs is within the configured limits. */
  lemma {:induction false} AnswersInLimits(c: Config, s: State, inputs: seq<Input>)
    requires c.Valid() && InLimits(c, s)
    ensures AllIn(Answers(c, s, inputs), c.Low(), c.max)
    decreases |inputs|
  {
    if inputs == [] {
    } else {
      ScaleInLimits(c, s, inputs[0].total, inputs[0].idle, inputs[0].load);
      AnswersInLimits(c, Scale(c, s, inputs[0].total, inputs[0].idle, inputs[0].load).0, inputs[1..]);
    }
  }

  /** The clamp with its limits the wrong way round: MinMax tries the upper limit first. */
  lemma CrossedLimits(c: Config, total: int, idle: int, load: int)
    requires 1 <= c.max < c.Low()
    ensures Unsmoothed(c, total, idle, load) == if Aimd(c.add, c.mul, total, idle, load) > c.max then c.max else c.Low()
  {
  }

  lemma {:induction false} AnswersNoMoreThan(c: Config, s: State, inputs: seq<Input>, lo: int)
    requires c.loadWindow >= 1 && c.targetWindow >= 1 && AllIn(s.targets, lo, c.max)
    requires forall i: Input :: lo <= Unsmoothed(c, i.total, i.idle, i.load) <= c.max
    ensures AllIn(Answers(c, s, inputs), lo, c.max)
    decreases |inputs|
  {
    hide Unsmoothed, Mean, Last;
    if inputs == [] {
    } else {
      var x := inputs[0];
      var average := Mean(s.loads + [x.load], c.loadWindow);
      var targets := s.targets + [Unsmoothed(c, x.total, x.idle, average)];
      assert lo <= Unsmoothed(c, Input(x.total, x.idle, average).total, x.idle, average) <= c.max;
      LastIsSuffix(targets, c.targetWindow);
      MeanBetween(targets, c.targetWindow, lo, c.max);
      AnswersNoMoreThan(c, State(s.loads + [x.load], targets), inputs[1..], lo);
    }
  }

  /**
   The configured maximum is kept by every answer to every history exactly if the minimum does
   not exceed it, or the maximum leaves no room for any instance.
   */
  lemma MaximumKeptIff(c: Config)
    requires c.loadWindow >= 1 && c.targetWindow >= 1
    ensures (forall inputs: seq<Input> :: KeepsMaximum(c, inputs)) <==> c.Low() <= c.max || c.max < 1
  {
    hide Mean;
    if c.max < 1 || c.Low() <= c.max {
      var lo := if c.max < 1 then c.max else c.Low();
      forall inputs: seq<Input>
        ensures KeepsMaximum(c, inputs)
      {
        AnswersNoMoreThan(c, FRESH, inputs, lo);
      }
    } else {
      var x := Input(1, 0, 0);
      FirstAnswer(c, x);
      CrossedLimits(c, 1, 0, 0);
      assert Answers(c, FRESH, [x])[0] == c.Low();
      assert !KeepsMaximum(c, [x]);
    }
  }

  ghost predicate KeepsMaximum(c: Config, inputs: seq<Input>)
    requires c.loadWindow >= 1 && c.targetWindow >= 1
  {
    forall i | 0 <= i < |Answers(c, FRESH, inputs)| :: Answers(c, FRESH, inputs)[i] <= c.max
  }

  /** The averages start with the first sample. */
  lemma FirstAnswer(c: Config, x: Input)
    requires c.loadWindow >= 1 && c.targetWindow >= 1
    ensures Answers(c, FRESH, [x]) == [Unsmoothed(c, x.total, x.idle, x.load)]
  {
    hide Mean, Unsmoothed;
    var v := Unsmoothed(c, x.total, x.idle, x.load);
    assert [] + [x.load] == [x.load] && [] + [v] == [v];
    MeanOfOne(x.load, c.loadWindow);
    MeanOfOne(v, c.targetWindow);
  }

  lemma MeanOfOne(v: int, window: nat)
    requires window >= 1
    ensures Mean([v], window) == v
  {
    LastIsSuffix([v], window);
    MeanBetween([v], window, v, v);
  }

  // ----- The closed loop: the pool follows the target -----

  /** Either nobody asks and everything idles, or `waiting` requests wait and nothing idles. */
  datatype Demand = Quiet | Busy(waiting: int)

  datatype Loop = Loop(policy: State, total: int)

  function Tick(c: Config, d: Demand, s: Loop): Loop
    requires c.loadWindow >= 1 && c.targetWindow >= 1
  {
    var r := match d
      case Quiet => Scale(c, s.policy, s.total, s.total, 0)
      case Busy(w) => Scale(c, s.policy, s.total, 0, w);
    Loop(r.0, r.1)
  }

  function Ticks(c: Config, d: Demand, s: Loop, n: nat): Loop
    requires c.loadWindow >= 1 && c.targetWindow >= 1
  {
    if n == 0 then s else Tick(c, d, Ticks(c, d, s, n - 1))
  }

  /** The instances idling under demand `d`. */
  function IdleOf(d: Demand, total: int): int
  {
    if d.Quiet? then total else 0
  }

  function LoadOf(d: Demand): int
  {
    if d.Quiet? then 0 else d.waiting
  }

  /** The unsmoothed target of one tick. */
  function SampleOf(c: Config, d: Demand, s: Loop): int
    requires c.loadWindow >= 1
  {
    Unsmoothed(c, s.total, IdleOf(d, s.total), Mean(s.policy.loads + [LoadOf(d)], c.loadWindow))
  }

  lemma TickParts(c: Config, d: Demand, s: Loop)
    requires c.loadWindow >= 1 && c.targetWindow >= 1
    ensures Tick(c, d, s).policy.loads == s.policy.loads + [LoadOf(d)]
    ensures Tick(c, d, s).policy.targets == s.policy.targets + [SampleOf(c, d, s)]
    ensures Tick(c, d, s).total == Mean(s.policy.targets + [SampleOf(c, d, s)], c.targetWindow)
  {
    hide Mean, Unsmoothed;
  }

  ghost predicate Responsive(c: Config, d: Demand)
  {
    match d
    case Quiet => c.mul > 0.0
    case Busy(w) => c.add >= 1 && w >= 1
  }

  /** The interval the pool size is confined to after j full target windows. */
  function Lo(c: Config, d: Demand, j: nat): int
  {
    if d.Quiet? then c.Low() else if c.Low() + j < c.max then c.Low() + j else c.max
  }

  function Hi(c: Config, d: Demand, j: nat): int
  {
    if d.Busy? then c.max else if c.max - j > c.Low() then c.max - j else c.Low()
  }

  /** The load average has forgotten everything but the present demand. */
  ghost predicate Settled(c: Config, d: Demand, s: Loop)
    requires c.loadWindow >= 1
  {
    AllIn(Last(s.policy.loads, c.loadWindow - 1), LoadOf(d), LoadOf(d))
  }

  /** One unsmoothed step moves a confined pool strictly towards its limit. */
  lemma UnsmoothedShrinks(c: Config, d: Demand, total: int, j: nat)
    requires c.Valid() && Responsive(c, d)
    requires Lo(c, d, j) <= total <= Hi(c, d, j)
    ensures var v := Unsmoothed(c, total, IdleOf(d, total), LoadOf(d));
            Lo(c, d, j + 1) <= v <= Hi(c, d, j + 1)
  {
    if d.Quiet? {
      TimesPositive(total, c.mul);
    }
  }

  lemma LastAppend(h: seq<int>, v: int, window: nat)
    requires window >= 1
    ensures Last(h + [v], window) == Last(h, window - 1) + [v]
  {
    assert (h + [v])[..|h|] == h;
  }

  lemma LastShrink(h: seq<int>, window: nat, lo: int, hi: int)
    requires window >= 1 && AllIn(Last(h, window), lo, hi)
    ensures AllIn(Last(h, window - 1), lo, hi)
  {
    LastIsSuffix(h, window);
    LastIsSuffix(h, window - 1);
    if |h| >= window {
      assert Last(h, window - 1) == Last(h, window)[1..];
    }
  }

  /** Load samples of a steady demand: after a full window the average is the demand itself. */
  lemma {:induction false} LoadsSettle(c: Config, d: Demand, s: Loop, n: nat)
    requires c.Valid()
    ensures AllIn(Last(Ticks(c, d, s, n).policy.loads, n), LoadOf(d), LoadOf(d))
    ensures |Ticks(c, d, s, n).policy.loads| >= n
  {
    hide Tick;
    if n == 0 {
    } else {
      LoadsSettle(c, d, s, n - 1);
      TickParts(c, d, Ticks(c, d, s, n - 1));
      LastAppend(Ticks(c, d, s, n - 1).policy.loads, LoadOf(d), n);
    }
  }

  lemma SettledTick(c: Config, d: Demand, s: Loop)
    requires c.Valid() && Settled(c, d, s)
    ensures Mean(s.policy.loads + [LoadOf(d)], c.loadWindow) == LoadOf(d)
    ensures Settled(c, d, Tick(c, d, s))
  {
    hide Tick, Mean;
    TickParts(c, d, s);
    LastAppend(s.policy.loads, LoadOf(d), c.loadWindow);
    MeanBetween(s.policy.loads + [LoadOf(d)], c.loadWindow, LoadOf(d), LoadOf(d));
    LastShrink(s.policy.loads + [LoadOf(d)], c.loadWindow, LoadOf(d), LoadOf(d));
  }

  /** The pool and the target window are confined to the j-th interval. */
  ghost predicate Confined(c: Config, d: Demand, s: Loop, j: nat)
    requires c.loadWindow >= 1
  {
    && Lo(c, d, j) <= s.total <= Hi(c, d, j)
    && AllIn(Last(s.policy.targets, c.targetWindow), Lo(c, d, j), Hi(c, d, j))
    && Settled(c, d, s)
  }

  /** Confinement is kept, and each tick adds one sample of the next, smaller interval. */
  lemma ConfinedTick(c: Config, d: Demand, s: Loop, j: nat, k: nat)
    requires c.Valid() && Responsive(c, d) && Confined(c, d, s, j)
    requires AllIn(Last(s.policy.targets, k), Lo(c, d, j + 1), Hi(c, d, j + 1))
    ensures Confined(c, d, Tick(c, d, s), j)
    ensures AllIn(Last(Tick(c, d, s).policy.targets, k + 1), Lo(c, d, j + 1), Hi(c, d, j + 1))
  {
    hide Tick, Mean, Unsmoothed, Last, Lo, Hi;
    SampleShrinks(c, d, s, j);
    TickParts(c, d, s);
    var v := SampleOf(c, d, s);
    LastAppend(s.policy.targets, v, k + 1);
    LastAppend(s.policy.targets, v, c.targetWindow);
    LastShrink(s.policy.targets, c.targetWindow, Lo(c, d, j), Hi(c, d, j));
    MeanBetween(s.policy.targets + [v], c.targetWindow, Lo(c, d, j), Hi(c, d, j));
    SettledTick(c, d, s);
  }

  /** The sample of a confined tick lies in the next interval, which lies in the present one. */
  lemma SampleShrinks(c: Config, d: Demand, s: Loop, j: nat)
    requires c.Valid() && Responsive(c, d) && Confined(c, d, s, j)
    ensures Lo(c, d, j) <= Lo(c, d, j + 1) <= SampleOf(c, d, s) <= Hi(c, d, j + 1) <= Hi(c, d, j)
  {
    hide Tick, Mean, Unsmoothed;
    SettledTick(c, d, s);
    UnsmoothedShrinks(c, d, s.total, j);
  }

  lemma {:induction false} ConfinedTicks(c: Config, d: Demand, s: Loop, j: nat, n: nat)
    requires c.Valid() && Responsive(c, d) && Confined(c, d, s, j)
    ensures Confined(c, d, Ticks(c, d, s, n), j)
    ensures AllIn(Last(Ticks(c, d, s, n).policy.targets, n), Lo(c, d, j + 1), Hi(c, d, j + 1))
    ensures |Ticks(c, d, s, n).policy.targets| == |s.policy.targets| + n
  {
    hide Tick;
    if n == 0 {
    } else {
      TickParts(c, d, Ticks(c, d, s, n - 1));
      ConfinedTicks(c, d, s, j, n - 1);
      ConfinedTick(c, d, Ticks(c, d, s, n - 1), j, n - 1);
    }
  }

  /** One full target window shrinks the interval by one instance. */
  lemma ConfinedWindow(c: Config, d: Demand, s: Loop, j: nat)
    requires c.Valid() && Responsive(c, d) && Confined(c, d, s, j)
    ensures Confined(c, d, Ticks(c, d, s, c.targetWindow), j + 1)
  {
    hide Tick, Mean;
    ConfinedTicks(c, d, s, j, c.targetWindow);
    TickParts(c, d, Ticks(c, d, s, c.targetWindow - 1));
    MeanBetween(Ticks(c, d, s, c.targetWindow).policy.targets, c.targetWindow, Lo(c, d, j + 1), Hi(c, d, j + 1));
  }

  lemma {:induction false} TicksAdd(c: Config, d: Demand, s: Loop, m: nat, n: nat)
    requires c.Valid()
    ensures Ticks(c, d, s, m + n) == Ticks(c, d, Ticks(c, d, s, m), n)
  {
    hide Tick;
    if n == 0 {
    } else {
      TicksAdd(c, d, s, m, n - 1);
    }
  }

  lemma {:induction false} ConfinedWindows(c: Config, d: Demand, s: Loop, j: nat)
    requires c.Valid() && Responsive(c, d) && Confined(c, d, s, 0)
    ensures Confined(c, d, Ticks(c, d, s, c.targetWindow * j), j)
  {
    hide Tick, Confined;
    if j == 0 {
    } else {
      ConfinedWindows(c, d, s, j - 1);
      ConfinedWindow(c, d, Ticks(c, d, s, c.targetWindow * (j - 1)), j - 1);
      assert c.targetWindow * j == c.targetWindow * (j - 1) + c.targetWindow;
      TicksAdd(c, d, s, c.targetWindow * (j - 1), c.targetWindow);
    }
  }

  lemma {:induction false} TicksInLimits(c: Config, d: Demand, s: Loop, n: nat)
    requires c.Valid() && InLimits(c, s.policy)
    ensures InLimits(c, Ticks(c, d, s, n).policy)
    ensures n >= 1 ==> c.Low() <= Ticks(c, d, s, n).total <= c.max
  {
    hide Scale;
    if n == 0 {
    } else {
      TicksInLimits(c, d, s, n - 1);
      var p := Ticks(c, d, s, n - 1);
      ScaleInLimits(c, p.policy, p.total, IdleOf(d, p.total), LoadOf(d));
    }
  }

  /** After one full load window the loop is confined to [min, max]. */
  lemma ConfinedAfterLoadWindow(c: Config, d: Demand, s: Loop)
    requires c.Valid() && Responsive(c, d) && InLimits(c, s.policy)
    ensures Confined(c, d, Ticks(c, d, s, c.loadWindow), 0)
  {
    hide Tick;
    TicksInLimits(c, d, s, c.loadWindow);
    LastIsSuffix(Ticks(c, d, s, c.loadWindow).policy.targets, c.targetWindow);
    LoadsSettle(c, d, s, c.loadWindow);
    var h := Ticks(c, d, s, c.loadWindow).policy.loads;
    LastShrink(h, c.loadWindow, LoadOf(d), LoadOf(d));
  }

  /** Where a steady demand takes the pool. */
  function Limit(c: Config, d: Demand): int
  {
    if d.Quiet? then c.Low() else c.max
  }

  lemma ConfinedToLimit(c: Config, d: Demand, s: Loop)
    requires c.Valid() && Confined(c, d, s, c.max - c.Low())
    ensures s.total == Limit(c, d)
  {
  }

  /**
   A quiet pool reaches exactly the minimum, and a pool with a waiting request reaches
   exactly the maximum, within loadWindow + targetWindow * (max - min) ticks, from any
   number of instances and any past within the limits; and it stays there.
   */
  lemma SteadyDemandConverges(c: Config, d: Demand, s: Loop, n: nat)
    requires c.Valid() && Responsive(c, d) && InLimits(c, s.policy)
    requires n >= c.loadWindow + c.targetWindow * (c.max - c.Low())
    ensures Ticks(c, d, s, n).total == Limit(c, d)
  {
    hide Tick, Ticks, Confined;
    var j := c.max - c.Low();
    var m := c.targetWindow * j;
    ConfinedAfterLoadWindow(c, d, s);
    var settled := Ticks(c, d, s, c.loadWindow);
    ConfinedWindows(c, d, settled, j);
    var reached := Ticks(c, d, settled, m);
    var rest := n - c.loadWindow - m;
    ConfinedTicks(c, d, reached, j, rest);
    TicksAdd(c, d, s, c.loadWindow, m);
    TicksAdd(c, d, s, c.loadWindow + m, rest);
    ConfinedToLimit(c, d, Ticks(c, d, s, n));
  }

  lemma StaysAtMaximum(c: Config)
    requires c.Valid() && c.mul == 0.0
    ensures Unsmoothed(c, c.max, c.max, 0) == c.max
  {
    TimesZero(c.max);
  }

  /** Without a downscale multiplier a quiet pool above its minimum never shrinks: the hypothesis is needed. */
  lemma {:induction false} NoDownscaleWithoutMultiplier(c: Config, n: nat)
    requires c.Valid() && c.mul == 0.0 && c.Low() < c.max
    ensures Ticks(c, Quiet, Loop(FRESH, c.max), n).total == c.max
    ensures AllIn(Ticks(c, Quiet, Loop(FRESH, c.max), n).policy.targets, c.max, c.max)
    ensures AllIn(Ticks(c, Quiet, Loop(FRESH, c.max), n).policy.loads, 0, 0)
  {
    hide Tick, Mean, Unsmoothed;
    if n == 0 {
    } else {
      NoDownscaleWithoutMultiplier(c, n - 1);
      var p := Ticks(c, Quiet, Loop(FRESH, c.max), n - 1);
      TickParts(c, Quiet, p);
      LastIsSuffix(p.policy.loads + [0], c.loadWindow);
      MeanBetween(p.policy.loads + [0], c.loadWindow, 0, 0);
      StaysAtMaximum(c);
      LastIsSuffix(p.policy.targets + [c.max], c.targetWindow);
      MeanBetween(p.policy.targets + [c.max], c.targetWindow, c.max, c.max);
    }
  }
}
