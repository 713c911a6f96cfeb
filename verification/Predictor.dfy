/** agent/predictor.py for one region and tier: exponential smoothing, and forecasts cached between refits of a
    model whose fit is a parameter. Every series of the source is handled on its own in the same way. */
module Predictors {
  import opened Wrappers

  // ----- exponential smoothing

  function Smoothed(alpha: real, value: real, prev: real): real {
    alpha * value + (1.0 - alpha) * prev
  }

  // A tick's smoothing: a state that was never seeded takes the value itself.
  function EwmaStep(alpha: real, current: real, prev: real): real {
    if prev > 0.0 then Smoothed(alpha, current, prev) else current
  }

  /** The loop of warm_up over a nonempty series. */
  function Smooth(alpha: real, series: seq<real>): real
    requires series != []
  {
    if |series| == 1 then series[0]
    else Smoothed(alpha, series[|series| - 1], Smooth(alpha, series[..|series| - 1]))
  }

  // x times the n-th power of keep.
  function Shrunk(keep: real, x: real, n: nat): real {
    if n == 0 then x else keep * Shrunk(keep, x, n - 1)
  }

  lemma ShrinksOnce(keep: real, x: real, n: nat)
    requires n > 0
    ensures Shrunk(keep, x, n) == keep * Shrunk(keep, x, n - 1)
  {
  }

  function Pow(b: real, n: nat): real {
    if n == 0 then 1.0 else b * Pow(b, n - 1)
  }

  lemma {:induction false} ShrunkIsPower(keep: real, x: real, n: nat)
    ensures Shrunk(keep, x, n) == x * Pow(keep, n)
  {
    if n > 0 {
      ShrunkIsPower(keep, x, n - 1);
      Reorder(x, keep, Pow(keep, n - 1));
    }
  }

  lemma Reorder(x: real, keep: real, p: real)
    ensures x * (keep * p) == keep * (x * p)
  {
  }

  function Entering(take: real, x: real, i: nat): real {
    if i == 0 then x else take * x
  }

  // The closed form: each value enters with `take` and shrinks by `keep` at every later one; the first enters
  // whole.
  function Contribution(take: real, keep: real, series: seq<real>, i: nat): real
    requires i < |series|
  {
    Shrunk(keep, Entering(take, series[i], i), |series| - 1 - i)
  }

  // The contributions of the first k values.
  function Contributions(take: real, keep: real, series: seq<real>, k: nat): real
    requires k <= |series|
  {
    if k == 0 then 0.0
    else Contributions(take, keep, series, k - 1) + Contribution(take, keep, series, k - 1)
  }

  lemma {:induction false} ContributionsShrink(take: real, keep: real, series: seq<real>, k: nat)
    requires k < |series|
    ensures Contributions(take, keep, series, k) == keep * Contributions(take, keep, series[..|series| - 1], k)
  {
    if k == 0 {
    } else {
      var before := series[..|series| - 1];
      ContributionsShrink(take, keep, series, k - 1);
      ShrinksOnce(keep, Entering(take, series[k - 1], k - 1), |series| - k);
      Distribute(keep, Contributions(take, keep, before, k - 1), Contribution(take, keep, before, k - 1),
                 Contributions(take, keep, before, k));
    }
  }

  lemma Distribute(keep: real, x: real, y: real, sum: real)
    requires sum == x + y
    ensures keep * sum == keep * x + keep * y
  {
  }

  /** The smoothing loop equals its closed form, the weighted sum of alpha * (1 - alpha)^(n-1-i) * x_i in which
      the first value carries (1 - alpha)^(n-1). */
  lemma {:induction false} SmoothIsWeightedSum(alpha: real, series: seq<real>)
    requires series != []
    ensures Smooth(alpha, series) == Contributions(alpha, 1.0 - alpha, series, |series|)
  {
    var n := |series|;
    if n == 1 {
      assert Contributions(alpha, 1.0 - alpha, series, 0) == 0.0;
    } else {
      SmoothIsWeightedSum(alpha, series[..n - 1]);
      ContributionsShrink(alpha, 1.0 - alpha, series, n - 1);
    }
  }

  lemma SmoothedBetween(alpha: real, value: real, prev: real, lo: real, hi: real)
    requires 0.0 <= alpha <= 1.0 && lo <= value <= hi && lo <= prev <= hi
    ensures lo <= Smoothed(alpha, value, prev) <= hi
  {
    MixIsAbove(alpha, 1.0 - alpha, value - lo, prev - lo);
    MixIsAbove(alpha, 1.0 - alpha, hi - value, hi - prev);
    assert alpha * value + (1.0 - alpha) * prev - lo == alpha * (value - lo) + (1.0 - alpha) * (prev - lo);
    assert hi - (alpha * value + (1.0 - alpha) * prev) == alpha * (hi - value) + (1.0 - alpha) * (hi - prev);
  }

  lemma MixIsAbove(a: real, b: real, x: real, y: real)
    requires a >= 0.0 && b >= 0.0 && x >= 0.0 && y >= 0.0
    ensures a * x + b * y >= 0.0
  {
    ProductIsAbove(a, x);
    ProductIsAbove(b, y);
  }

  lemma ProductIsAbove(a: real, x: real)
    requires a >= 0.0 && x >= 0.0
    ensures a * x >= 0.0
    ensures a > 0.0 && x > 0.0 ==> a * x > 0.0
  {
  }

  /** Smoothing stays within the smallest and largest of its inputs. */
  lemma {:induction false} SmoothBetween(alpha: real, series: seq<real>, lo: real, hi: real)
    requires 0.0 <= alpha <= 1.0 && series != []
    requires forall i | 0 <= i < |series| :: lo <= series[i] <= hi
    ensures lo <= Smooth(alpha, series) <= hi
  {
    if |series| > 1 {
      SmoothBetween(alpha, series[..|series| - 1], lo, hi);
      SmoothedBetween(alpha, series[|series| - 1], Smooth(alpha, series[..|series| - 1]), lo, hi);
    }
  }

  // ----- one series of the Holt-Winters predictor

  datatype Config = Config(alpha: real, minFit: nat, maxHistory: nat, retrainEvery: nat)

  datatype Cell = Cell(history: seq<real>, cache: seq<real>, tick: nat, ewma: real)

  // deque(maxlen).append
  function Appended(history: seq<real>, maxHistory: nat, x: real): (h: seq<real>)
    ensures |h| == Min(|history| + 1, maxHistory) || |history| > maxHistory
    ensures |h| <= maxHistory
  {
    Newest(maxHistory, history + [x])
  }

  lemma {:induction false} AppendedNewest(values: seq<real>, maxHistory: nat, x: real)
    ensures Appended(Newest(maxHistory, values), maxHistory, x) == Newest(maxHistory, values + [x])
  {
    if |values| > maxHistory {
      var k := |values| - maxHistory;
      assert values[k..] + [x] == (values + [x])[k..];
    }
  }

  // What a history keeps after the values.
  ghost function Kept(history: seq<real>, maxHistory: nat, values: seq<real>): seq<real> {
    if values == [] then history else Newest(maxHistory, history + values)
  }

  lemma {:induction false} KeptOne(history: seq<real>, maxHistory: nat, series: seq<real>, i: nat)
    requires i < |series|
    ensures Kept(history, maxHistory, series[..i + 1])
         == Appended(Kept(history, maxHistory, series[..i]), maxHistory, series[i])
  {
    assert history + series[..i + 1] == history + series[..i] + [series[i]];
    AppendedNewest(history + series[..i], maxHistory, series[i]);
    assert i == 0 ==> history + series[..i] == history;
  }

  function Clip(v: real): real {
    if v < 0.0 then 0.0 else v
  }

  function Clipped(values: seq<real>): (r: seq<real>)
    ensures |r| == |values|
    ensures forall i | 0 <= i < |r| :: r[i] == Clip(values[i])
  {
    seq(|values|, i requires 0 <= i < |values| => Clip(values[i]))
  }

  /** What a tick brings: the current rate, and what a refit would yield if one were made now, None when it
      raises. A fit that succeeds forecasts retrainEvery values. */
  datatype Input = Input(current: real, fit: Option<seq<real>>)

  predicate InputOk(cfg: Config, x: Input) {
    x.fit.Some? ==> |x.fit.value| == cfg.retrainEvery
  }

  // The tick tries to refit: the history is long enough, and it is time or the cache has run dry.
  predicate Refits(cfg: Config, c: Cell, x: Input)
    requires cfg.retrainEvery >= 1
  {
    && |Appended(c.history, cfg.maxHistory, x.current)| >= cfg.minFit
    && (c.tick % cfg.retrainEvery == 0 || c.cache == [])
  }

  function CacheAfterRefit(cfg: Config, c: Cell, x: Input): seq<real>
    requires cfg.retrainEvery >= 1
  {
    if Refits(cfg, c, x) && x.fit.Some? then Clipped(x.fit.value) else c.cache
  }

  // The last value of the buffer, or 0 when a history of length 0 keeps none.
  function Latest(history: seq<real>): real {
    if history == [] then 0.0 else history[|history| - 1]
  }

  /** One tick: the next cell and the prediction. */
  function Update(cfg: Config, c: Cell, x: Input): (Cell, real)
    requires cfg.retrainEvery >= 1
  {
    var history := Appended(c.history, cfg.maxHistory, x.current);
    var cache := CacheAfterRefit(cfg, c, x);
    if |history| >= cfg.minFit && cache != [] then (Cell(history, cache[1..], c.tick + 1, c.ewma), cache[0])
    else
      var next := EwmaStep(cfg.alpha, Latest(history), c.ewma);
      (Cell(history, cache, c.tick + 1, next), next)
  }

  /** One tick in plain terms. With a long enough history a fit that is due predicts its first value and leaves
      the others, and a cache in between gives up its head; otherwise the state is smoothed, a state that was
      never seeded taking the rate itself. */
  ghost predicate TickEffect(cfg: Config, was: Cell, x: Input, now: Cell, predicted: real)
    requires cfg.retrainEvery >= 1 && InputOk(cfg, x)
  {
    var long := |now.history| >= cfg.minFit;
    var fits := x.fit.Some? && (was.tick % cfg.retrainEvery == 0 || was.cache == []);
    && now.tick == was.tick + 1 && now.history == Newest(cfg.maxHistory, was.history + [x.current])
    && (long && fits ==>
          && IsClipped(predicted, x.fit.value[0]) && |now.cache| == cfg.retrainEvery - 1 && now.ewma == was.ewma
          && forall i | 0 <= i < |now.cache| :: IsClipped(now.cache[i], x.fit.value[1..][i]))
    && (long && !fits && was.cache != [] ==> was.cache == [predicted] + now.cache && now.ewma == was.ewma)
    && ((!long || (!fits && was.cache == [])) && cfg.maxHistory >= 1 ==>
          StepsTo(cfg.alpha, was.ewma, x.current, now.ewma) && predicted == now.ewma && now.cache == was.cache)
  }

  // The smoothing step in plain terms.
  predicate StepsTo(alpha: real, was: real, current: real, now: real) {
    now == if was > 0.0 then alpha * current + (1.0 - alpha) * was else current
  }

  // p is the forecast v, or 0 for a negative one.
  predicate IsClipped(p: real, v: real) {
    p == if v > 0.0 then v else 0.0
  }

  lemma {:induction false} UpdateEffect(cfg: Config, c: Cell, x: Input)
    requires cfg.retrainEvery >= 1 && InputOk(cfg, x)
    ensures TickEffect(cfg, c, x, Update(cfg, c, x).0, Update(cfg, c, x).1)
  {
  }

  class SeriesPredictor {
    const cfg: Config
    var history: seq<real>
    var cache: seq<real>
    var tick: nat
    var ewma: real

    constructor (cfg: Config)
      ensures this.cfg == cfg && Now() == Cell([], [], 0, 0.0)
    {
      this.cfg := cfg;
      history := [];
      cache := [];
      tick := 0;
      ewma := 0.0;
    }

    ghost function Now(): Cell
      reads this
    {
      Cell(history, cache, tick, ewma)
    }

    // An empty series is skipped.
    method WarmUp(series: seq<real>)
      modifies this
      ensures series == [] ==> Now() == old(Now())
      ensures series != [] ==> ewma == Smooth(cfg.alpha, series)
      ensures series != [] ==> history == Newest(cfg.maxHistory, old(history) + series)
      ensures cache == old(cache) && tick == old(tick)
    {
      if series == [] {
        return;
      }
      for i := 0 to |series|
        invariant history == Kept(old(history), cfg.maxHistory, series[..i])
        invariant cache == old(cache) && tick == old(tick)
      {
        KeptOne(old(history), cfg.maxHistory, series, i);
        history := Appended(history, cfg.maxHistory, series[i]);
      }
      assert series[..|series|] == series;
      var acc := series[0];
      for i := 1 to |series|
        invariant acc == Smooth(cfg.alpha, series[..i])
      {
        assert series[..i + 1][..i] == series[..i];
        acc := Smoothed(cfg.alpha, series[i], acc);
      }
      ewma := acc;
    }

    method Tick(x: Input) returns (predicted: real)
      requires cfg.retrainEvery >= 1 && InputOk(cfg, x)
      modifies this
      ensures Now() == Update(cfg, old(Now()), x).0
      ensures predicted == Update(cfg, old(Now()), x).1
      ensures TickEffect(cfg, old(Now()), x, Now(), predicted)
    {
      UpdateEffect(cfg, Now(), x);
      history := Appended(history, cfg.maxHistory, x.current);
      var t := tick;
      tick := tick + 1;
      if |history| < cfg.minFit {
        predicted := Smoothing(if history == [] then 0.0 else history[|history| - 1]);
        return;
      }
      if t % cfg.retrainEvery == 0 || cache == [] {
        if x.fit.Some? {
          cache := Clipped(x.fit.value);
        }
      }
      if cache != [] {
        predicted := cache[0];
        cache := cache[1..];
        return;
      }
      predicted := Smoothing(Latest(history));
    }

    method Smoothing(current: real) returns (next: real)
      modifies this`ewma
      ensures next == ewma == EwmaStep(cfg.alpha, current, old(ewma))
    {
      next := if ewma > 0.0 then cfg.alpha * current + (1.0 - cfg.alpha) * ewma else current;
      ewma := next;
    }
  }

  // ----- runs

  /** A run: the cells before, between and after the inputs, starting from any warmed-up history and state. */
  datatype Run = Run(cfg: Config, xs: seq<Input>, cells: seq<Cell>) {
    ghost predicate Linked() {
      && cfg.retrainEvery >= 1 && |cells| == |xs| + 1
      && forall i {:trigger Update(cfg, cells[i], xs[i])} | 0 <= i < |xs| ::
           cells[i + 1] == Update(cfg, cells[i], xs[i]).0
    }

    // The service has not ticked before: nothing is cached and the tick counter is 0.
    ghost predicate Begins() {
      Linked() && cells[0].cache == [] && cells[0].tick == 0 && |cells[0].history| <= cfg.maxHistory
    }

    ghost predicate Ok() {
      Begins() && forall i | 0 <= i < |xs| :: InputOk(cfg, xs[i])
    }
  }

  ghost function PredictionAt(r: Run, n: nat): real
    requires r.Linked() && n < |r.xs|
  {
    Update(r.cfg, r.cells[n], r.xs[n]).1
  }

  // Tick k refitted the model with success.
  ghost predicate Fitted(r: Run, k: nat)
    requires r.Linked() && k < |r.xs|
  {
    Refits(r.cfg, r.cells[k], r.xs[k]) && r.xs[k].fit.Some?
  }

  lemma {:induction false} TickAt(r: Run, n: nat)
    requires r.Linked() && n < |r.xs| && InputOk(r.cfg, r.xs[n])
    ensures TickEffect(r.cfg, r.cells[n], r.xs[n], r.cells[n + 1], PredictionAt(r, n))
  {
    assert r.cells[n + 1] == Update(r.cfg, r.cells[n], r.xs[n]).0;
    UpdateEffect(r.cfg, r.cells[n], r.xs[n]);
  }

  function Rates(xs: seq<Input>, n: nat): seq<real>
    requires n <= |xs|
  {
    if n == 0 then [] else Rates(xs, n - 1) + [xs[n - 1].current]
  }

  /** After n ticks the history is the last maxHistory rates, and the tick counter counts the ticks. */
  lemma {:induction false} HistoryIsNewest(r: Run, n: nat)
    requires r.Begins() && n <= |r.xs|
    ensures r.cells[n].tick == |Rates(r.xs, n)| == n
    ensures r.cells[n].history == Newest(r.cfg.maxHistory, r.cells[0].history + Rates(r.xs, n))
  {
    if n == 0 {
      assert r.cells[0].history + Rates(r.xs, 0) == r.cells[0].history;
    } else {
      HistoryIsNewest(r, n - 1);
      assert r.cells[n - 1 + 1] == Update(r.cfg, r.cells[n - 1], r.xs[n - 1]).0;
      AppendedNewest(r.cells[0].history + Rates(r.xs, n - 1), r.cfg.maxHistory, r.xs[n - 1].current);
      assert r.cells[0].history + Rates(r.xs, n) == r.cells[0].history + Rates(r.xs, n - 1) + [r.xs[n - 1].current];
    }
  }

  // The history at tick n, with its own rate, is long enough for a fit.
  predicate Long(r: Run, n: nat)
    requires r.cells != []
  {
    Min(|r.cells[0].history| + n + 1, r.cfg.maxHistory) >= r.cfg.minFit
  }

  lemma {:induction false} LongIs(r: Run, n: nat)
    requires r.Begins() && n < |r.xs|
    ensures r.cells[n].tick == n
    ensures |Appended(r.cells[n].history, r.cfg.maxHistory, r.xs[n].current)| >= r.cfg.minFit
       <==> Long(r, n)
  {
    HistoryIsNewest(r, n);
  }

  // The cache holds the values from index age on, clipped.
  ghost predicate Remains(cache: seq<real>, values: seq<real>, age: nat) {
    |cache| + age == |values| && forall i {:trigger cache[i]} | 0 <= i < |cache| :: IsClipped(cache[i], values[age + i])
  }

  lemma {:induction false} RemainsNext(cache: seq<real>, values: seq<real>, age: nat)
    requires Remains(cache, values, age) && cache != []
    ensures Remains(cache[1..], values, age + 1) && IsClipped(cache[0], values[age])
  {
  }

  // No tick after k and before n refitted the model.
  ghost predicate NoFitAfter(r: Run, k: nat, n: nat)
    requires r.Linked() && n <= |r.xs|
  {
    forall i | k < i < n :: !Fitted(r, i)
  }

  /** After n ticks the cache holds what is left of the last fit, made at tick k: one value is gone for each tick
      since. */
  ghost predicate Aligned(r: Run, n: nat, k: nat)
    requires r.Linked() && n <= |r.xs|
  {
    && k < n <= k + r.cfg.retrainEvery && Fitted(r, k)
    && |r.xs[k].fit.value| == r.cfg.retrainEvery
    && Remains(r.cells[n].cache, r.xs[k].fit.value, n - k)
    && NoFitAfter(r, k, n)
  }

  // What tick n does to the cache: a fit fills it, and any other tick takes its head if the history is long.
  lemma {:induction false} CacheStep(r: Run, n: nat)
    requires r.Ok() && n < |r.xs|
    ensures var was, now := r.cells[n].cache, r.cells[n + 1].cache;
            if Fitted(r, n) then Remains(now, r.xs[n].fit.value, 1)
            else now == if was == [] || !Long(r, n) then was else was[1..]
    ensures Fitted(r, n) ==> Long(r, n)
  {
    assert r.cells[n + 1] == Update(r.cfg, r.cells[n], r.xs[n]).0;
    LongIs(r, n);
  }

  lemma {:induction false} CacheIsAligned(r: Run, n: nat)
    requires r.Ok() && n <= |r.xs|
    ensures r.cells[n].cache == [] || exists k :: Aligned(r, n, k)
    ensures r.cells[n].cache != [] ==> n > 0 && Long(r, n - 1)
  {
    if n > 0 {
      CacheIsAligned(r, n - 1);
      CacheStep(r, n - 1);
      if Fitted(r, n - 1) {
        assert Aligned(r, n, n - 1);
      } else if r.cells[n].cache != [] {
        var k: nat :| Aligned(r, n - 1, k);
        StaysAligned(r, n, k);
      }
    }
  }

  lemma {:induction false} StaysAligned(r: Run, n: nat, k: nat)
    requires r.Linked() && 0 < n <= |r.xs|
    requires Aligned(r, n - 1, k) && !Fitted(r, n - 1)
    requires r.cells[n - 1].cache != []
    requires r.cells[n].cache == r.cells[n - 1].cache[1..]
    ensures Aligned(r, n, k)
  {
    RemainsNext(r.cells[n - 1].cache, r.xs[k].fit.value, n - 1 - k);
  }

  // A fit lasts for retrainEvery ticks: later fits only lengthen the cache.
  lemma {:induction false} FitLasts(r: Run, k: nat, n: nat)
    requires r.Ok() && k < n <= |r.xs| && n <= k + r.cfg.retrainEvery
    requires Fitted(r, k)
    ensures |r.cells[n].cache| >= r.cfg.retrainEvery - (n - k)
  {
    CacheStep(r, n - 1);
    if k < n - 1 {
      FitLasts(r, k, n - 1);
    }
  }

  // The cache is empty before a tick exactly when no fit of the ticks just before has lasted.
  lemma {:induction false} EmptyIff(r: Run, n: nat)
    requires r.Ok() && n <= |r.xs|
    ensures r.cells[n].cache == []
       <==> forall k: nat | k < n < k + r.cfg.retrainEvery :: !Fitted(r, k)
  {
    CacheIsAligned(r, n);
    if r.cells[n].cache != [] {
      var k: nat :| Aligned(r, n, k);
      assert k < n < k + r.cfg.retrainEvery;
    } else {
      forall k: nat | k < n < k + r.cfg.retrainEvery
        ensures !Fitted(r, k)
      {
        if Fitted(r, k) {
          FitLasts(r, k, n);
        }
      }
    }
  }

  /** Exactly when the model is refitted: a fit succeeds at tick n if and only if one is to be had, the history is
      long enough, and n is a multiple of retrainEvery or no fit succeeded in the retrainEvery - 1 ticks before. */
  lemma {:induction false} FittedIff(r: Run, n: nat)
    requires r.Ok() && n < |r.xs|
    ensures Fitted(r, n)
       <==> && r.xs[n].fit.Some? && Min(|r.cells[0].history| + n + 1, r.cfg.maxHistory) >= r.cfg.minFit
            && (n % r.cfg.retrainEvery == 0
                || forall k: nat | k < n < k + r.cfg.retrainEvery :: !Fitted(r, k))
  {
    LongIs(r, n);
    EmptyIff(r, n);
  }

  // p is entry n - k, clipped at 0, of the forecast fitted at tick k, the last fit up to tick n.
  ghost predicate IsEntry(r: Run, k: nat, n: nat, p: real)
    requires r.Linked() && n < |r.xs|
  {
    && k <= n < k + r.cfg.retrainEvery && Fitted(r, k) && NoFitAfter(r, k, n + 1)
    && n - k < |r.xs[k].fit.value| && IsClipped(p, r.xs[k].fit.value[n - k])
  }

  // A forecast covers tick n: a fit succeeded at it or in the retrainEvery - 1 ticks before.
  ghost predicate Covered(r: Run, n: nat)
    requires r.Linked() && n < |r.xs|
  {
    exists k: nat :: k <= n < k + r.cfg.retrainEvery && Fitted(r, k)
  }

  // Tick n is answered from a forecast: its prediction is the entry made for it, and the state stays.
  ghost predicate Forecast(r: Run, n: nat)
    requires r.Linked() && n < |r.xs|
  {
    && r.cells[n + 1].ewma == r.cells[n].ewma
    && exists k: nat :: IsEntry(r, k, n, PredictionAt(r, n))
  }

  // Tick n is answered by smoothing the state with its rate.
  ghost predicate Smooths(r: Run, n: nat)
    requires r.Linked() && n < |r.xs|
  {
    var was, now := r.cells[n].ewma, r.cells[n + 1].ewma;
    StepsTo(r.cfg.alpha, was, r.xs[n].current, now) && PredictionAt(r, n) == now
  }

  /** Forecast alignment. Whatever the refits do, the prediction of a tick that a forecast covers is the value,
      clipped at 0, that the last fit made for exactly that tick; any other is a smoothing step. */
  lemma {:induction false} ForecastAlignment(r: Run, n: nat)
    requires r.Ok() && r.cfg.maxHistory >= 1 && n < |r.xs|
    ensures if Covered(r, n) then Forecast(r, n) else Smooths(r, n)
  {
    EmptyIff(r, n);
    CoveredIff(r, n);
    if Fitted(r, n) {
      FreshEntry(r, n);
    } else if r.cells[n].cache != [] {
      CachedEntry(r, n);
    } else {
      NoEntry(r, n);
    }
  }

  lemma {:induction false} CoveredIff(r: Run, n: nat)
    requires r.Linked() && n < |r.xs|
    ensures Covered(r, n)
       <==> || Fitted(r, n)
            || exists k: nat :: k < n < k + r.cfg.retrainEvery && Fitted(r, k)
  {
  }

  lemma {:induction false} HistoryIs(r: Run, n: nat)
    requires r.Begins() && n < |r.xs|
    ensures |r.cells[n + 1].history| >= r.cfg.minFit <==> Long(r, n)
    ensures r.cells[n].tick == n
  {
    assert r.cells[n + 1] == Update(r.cfg, r.cells[n], r.xs[n]).0;
    LongIs(r, n);
  }

  // When the model was refitted the prediction is the first value.
  lemma {:induction false} FreshEntry(r: Run, n: nat)
    requires r.Ok() && n < |r.xs| && Fitted(r, n)
    ensures Forecast(r, n)
  {
    TickAt(r, n);
    LongIs(r, n);
    HistoryIs(r, n);
    assert IsEntry(r, n, n, PredictionAt(r, n));
  }

  // Between fits it is the head of the cache, which the last fit made for this tick.
  lemma {:induction false} CachedEntry(r: Run, n: nat)
    requires r.Ok() && n < |r.xs|
    requires r.cells[n].cache != [] && !Fitted(r, n)
    ensures Forecast(r, n)
  {
    CacheIsAligned(r, n);
    HeadIsTaken(r, n);
    var k: nat :| Aligned(r, n, k);
    HeadIsEntry(r, n, k);
  }

  lemma {:induction false} HeadIsTaken(r: Run, n: nat)
    requires r.Ok() && n < |r.xs|
    requires r.cells[n].cache != [] && n > 0 && Long(r, n - 1) && !Fitted(r, n)
    ensures PredictionAt(r, n) == r.cells[n].cache[0] && r.cells[n + 1].ewma == r.cells[n].ewma
  {
    TickAt(r, n);
    LongIs(r, n);
    HistoryIs(r, n);
  }

  lemma {:induction false} HeadIsEntry(r: Run, n: nat, k: nat)
    requires r.Linked() && n < |r.xs| && Aligned(r, n, k) && !Fitted(r, n)
    requires r.cells[n].cache != [] && PredictionAt(r, n) == r.cells[n].cache[0]
    ensures IsEntry(r, k, n, PredictionAt(r, n))
  {
    RemainsNext(r.cells[n].cache, r.xs[k].fit.value, n - k);
  }

  // With nothing cached and no fit, the state is smoothed.
  lemma {:induction false} NoEntry(r: Run, n: nat)
    requires r.Ok() && r.cfg.maxHistory >= 1 && n < |r.xs|
    requires r.cells[n].cache == [] && !Fitted(r, n)
    ensures Smooths(r, n)
  {
    TickAt(r, n);
    LongIs(r, n);
    HistoryIs(r, n);
  }

  // The rates of the ticks no forecast covers.
  ghost function Uncovered(r: Run, n: nat): seq<real>
    requires r.Linked() && n <= |r.xs|
  {
    if n == 0 then []
    else Uncovered(r, n - 1) + if Covered(r, n - 1) then [] else [r.xs[n - 1].current]
  }

  // The smoothing state is that of a series seeded with a positive value.
  ghost predicate Seeded(cfg: Config, ewma: real, series: seq<real>) {
    series != [] && ewma == Smooth(cfg.alpha, series) && ewma > 0.0
  }

  // The series the state smooths, with the rate of tick n.
  lemma {:induction false} UncoveredOne(r: Run, seed: seq<real>, n: nat)
    requires r.Linked() && n < |r.xs|
    ensures var series := seed + Uncovered(r, n);
            (seed + Uncovered(r, n + 1)
             == if Covered(r, n) then series else series + [r.xs[n].current])
  {
  }

  lemma {:induction false} StateStep(r: Run, n: nat)
    requires r.Ok() && r.cfg.maxHistory >= 1 && n < |r.xs|
    ensures if Covered(r, n) then r.cells[n + 1].ewma == r.cells[n].ewma
            else StepsTo(r.cfg.alpha, r.cells[n].ewma, r.xs[n].current, r.cells[n + 1].ewma)
  {
    ForecastAlignment(r, n);
  }

  lemma {:induction false} SeededOneMore(r: Run, series: seq<real>, n: nat)
    requires r.Ok() && r.cfg.maxHistory >= 1 && 0.0 <= r.cfg.alpha < 1.0
    requires n < |r.xs| && r.xs[n].current >= 0.0 && Seeded(r.cfg, r.cells[n].ewma, series)
    ensures Seeded(r.cfg, r.cells[n + 1].ewma, if Covered(r, n) then series else series + [r.xs[n].current])
  {
    StateStep(r, n);
    if !Covered(r, n) {
      SeededOn(r.cfg, r.cells[n].ewma, series, r.xs[n].current, r.cells[n + 1].ewma);
    }
  }

  /** The smoothing state after any run is the smoothing of the seed followed by the rates of the ticks that no
      forecast covered: so the weighted sum holds of it. */
  lemma {:induction false} LiveStateIsSmooth(r: Run, seed: seq<real>, n: nat)
    requires r.Ok() && r.cfg.maxHistory >= 1 && 0.0 <= r.cfg.alpha < 1.0
    requires n <= |r.xs| && Seeded(r.cfg, r.cells[0].ewma, seed)
    requires forall i | 0 <= i < |r.xs| :: r.xs[i].current >= 0.0
    ensures Seeded(r.cfg, r.cells[n].ewma, seed + Uncovered(r, n))
  {
    if n == 0 {
      assert seed + Uncovered(r, 0) == seed;
    } else {
      LiveStateIsSmooth(r, seed, n - 1);
      SeededOneMore(r, seed + Uncovered(r, n - 1), n - 1);
      UncoveredOne(r, seed, n - 1);
    }
  }

  lemma {:induction false} SeededOn(cfg: Config, was: real, series: seq<real>, current: real, now: real)
    requires 0.0 <= cfg.alpha < 1.0 && current >= 0.0 && Seeded(cfg, was, series)
    requires StepsTo(cfg.alpha, was, current, now)
    ensures Seeded(cfg, now, series + [current])
  {
    SmoothSnoc(cfg.alpha, series, current);
    ProductSigns(cfg.alpha, current, 1.0 - cfg.alpha, was);
  }

  lemma {:induction false} SmoothSnoc(alpha: real, series: seq<real>, x: real)
    requires series != []
    ensures Smooth(alpha, series + [x]) == alpha * x + (1.0 - alpha) * Smooth(alpha, series)
  {
    assert (series + [x])[..|series|] == series;
  }

  lemma ProductSigns(a: real, x: real, b: real, y: real)
    requires a >= 0.0 && x >= 0.0 && b > 0.0 && y > 0.0
    ensures a * x + b * y > 0.0
  {
    ProductIsAbove(a, x);
    ProductIsAbove(b, y);
  }

  /** The smoothed state never leaves the range of the rates seen, once a first rate has been taken in. */
  lemma {:induction false} EwmaStaysBetween(r: Run, n: nat, lo: real, hi: real)
    requires r.Linked() && r.cfg.maxHistory >= 1 && 0.0 <= r.cfg.alpha <= 1.0 && n <= |r.xs|
    requires forall i | 0 <= i < n :: lo <= r.xs[i].current <= hi
    requires r.cells[0].ewma <= 0.0 || lo <= r.cells[0].ewma <= hi
    ensures r.cells[n].ewma == r.cells[0].ewma || lo <= r.cells[n].ewma <= hi
  {
    if n > 0 {
      EwmaStaysBetween(r, n - 1, lo, hi);
      assert r.cells[n - 1 + 1] == Update(r.cfg, r.cells[n - 1], r.xs[n - 1]).0;
      UpdateStaysBetween(r.cfg, r.cells[n - 1], r.xs[n - 1], lo, hi);
    }
  }

  lemma {:induction false} UpdateStaysBetween(cfg: Config, c: Cell, x: Input, lo: real, hi: real)
    requires cfg.retrainEvery >= 1 && cfg.maxHistory >= 1 && 0.0 <= cfg.alpha <= 1.0 && lo <= x.current <= hi
    requires c.ewma <= 0.0 || lo <= c.ewma <= hi
    ensures Update(cfg, c, x).0.ewma == c.ewma || lo <= Update(cfg, c, x).0.ewma <= hi
  {
    assert Latest(Appended(c.history, cfg.maxHistory, x.current)) == x.current;
    if c.ewma > 0.0 {
      SmoothedBetween(cfg.alpha, x.current, c.ewma, lo, hi);
    }
  }
}
