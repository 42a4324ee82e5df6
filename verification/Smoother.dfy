/** The windowed exponential smoother of a counter's rate, over the reals. */
module Smoother {
  import opened Packets

  datatype Config = Config(alpha: real, windowMs: nat)

  datatype RateSnapshot = RateSnapshot(valid: bool, rawPerSec: int, smoothedPerSec: int)

  datatype State = State(prevCounter: nat, prevTimeMs: nat, hasPrev: bool, smoothed: real, last: RateSnapshot)

  const RESET := State(0, 0, false, 0.0, RateSnapshot(false, 0, 0))

  /** Rounding to the nearest integer, halves away from zero. */
  function Llround(x: real): int {
    if x >= 0.0 then (x + 0.5).Floor else -((0.5 - x).Floor)
  }

  /** 64-bit unsigned subtraction of times. */
  function Elapsed(now: nat, prev: nat): int {
    if now >= prev then now - prev else now - prev + WORD
  }

  function Rate(deltaCounter: int, deltaTimeMs: int): real
    requires deltaTimeMs != 0
  {
    (deltaCounter as real * 1000.0) / deltaTimeMs as real
  }

  /** The new value counts with weight alpha, the old one with the rest. */
  function Blend(alpha: real, new_: real, old_: real): real {
    alpha * new_ + (1.0 - alpha) * old_
  }

  /** Does an observation close a window? */
  predicate Accepts(cfg: Config, s: State, counter: nat, nowMs: nat) {
    && s.hasPrev
    && counter >= s.prevCounter
    && Elapsed(nowMs, s.prevTimeMs) != 0
    && Elapsed(nowMs, s.prevTimeMs) >= cfg.windowMs
  }

  /** Does an observation show that the counter was reset? */
  predicate Restarts(s: State, counter: nat) {
    s.hasPrev && counter < s.prevCounter
  }

  function Observed(cfg: Config, s: State, counter: nat, nowMs: nat): State {
    if !s.hasPrev then s.(prevCounter := counter, prevTimeMs := nowMs, hasPrev := true)
    else if Restarts(s, counter) then RESET.(prevCounter := counter, prevTimeMs := nowMs, hasPrev := true)
    else if !Accepts(cfg, s, counter, nowMs) then s
    else
      var instant := Rate(counter - s.prevCounter, Elapsed(nowMs, s.prevTimeMs));
      var smoothed := if s.last.valid then Blend(cfg.alpha, instant, s.smoothed) else instant;
      State(counter, nowMs, true, smoothed, RateSnapshot(true, Llround(instant), Llround(smoothed)))
  }

  class WindowedEwmaRateSmoother {
    const config: Config
    var prevCounter: nat
    var prevTimeMs: nat
    var hasPrev: bool
    var smoothed: real
    var lastSnapshot: RateSnapshot

    ghost function View(): State
      reads this
    {
      State(prevCounter, prevTimeMs, hasPrev, smoothed, lastSnapshot)
    }

    constructor (config: Config)
      ensures this.config == config && View() == RESET
    {
      this.config := config;
      prevCounter, prevTimeMs, hasPrev, smoothed := 0, 0, false, 0.0;
      lastSnapshot := RateSnapshot(false, 0, 0);
    }

    method Reset()
      modifies this
      ensures View() == RESET
    {
      prevCounter, prevTimeMs, hasPrev, smoothed := 0, 0, false, 0.0;
      lastSnapshot := RateSnapshot(false, 0, 0);
    }

    method Observe(counter: nat, nowMs: nat)
      modifies this
      ensures View() == Observed(config, old(View()), counter, nowMs)
    {
      if !hasPrev {
        prevCounter, prevTimeMs, hasPrev := counter, nowMs, true;
        return;
      }
      if counter < prevCounter {
        Reset();
        prevCounter, prevTimeMs, hasPrev := counter, nowMs, true;
        return;
      }
      var deltaTime := Elapsed(nowMs, prevTimeMs);
      if deltaTime == 0 {
        return;
      }
      if deltaTime < config.windowMs {
        return;
      }
      var deltaCounter := counter - prevCounter;
      var instant := Rate(deltaCounter, deltaTime);
      var raw := Llround(instant);
      if !lastSnapshot.valid {
        smoothed := instant;
      } else {
        smoothed := Blend(config.alpha, instant, smoothed);
      }
      lastSnapshot := RateSnapshot(true, raw, Llround(smoothed));
      prevCounter, prevTimeMs := counter, nowMs;
    }
  }

  // ---- Runs of observations ----

  datatype Observation = Observation(counter: nat, nowMs: nat)

  /** An accepted window: its rate, its length and the smoothed value it leaves. */
  datatype Window = Window(rate: real, elapsedMs: int, smoothed: real)

  /** The smoother together with the windows accepted since the counter was last reset, and
      the counter value with which they began. */
  datatype Track = Track(s: State, windows: seq<Window>, base: nat)

  function Next(cfg: Config, t: Track, o: Observation): Track {
    var s' := Observed(cfg, t.s, o.counter, o.nowMs);
    if !t.s.hasPrev || Restarts(t.s, o.counter) then Track(s', [], o.counter)
    else if Accepts(cfg, t.s, o.counter, o.nowMs) then
      var elapsed := Elapsed(o.nowMs, t.s.prevTimeMs);
      Track(s', t.windows + [Window(Rate(o.counter - t.s.prevCounter, elapsed), elapsed, s'.smoothed)], t.base)
    else Track(s', t.windows, t.base)
  }

  function Run(cfg: Config, obs: seq<Observation>): Track {
    if obs == [] then Track(RESET, [], 0) else Next(cfg, Run(cfg, obs[..|obs| - 1]), obs[|obs| - 1])
  }

  /** Each window's smoothed value blends its rate into the value before it. */
  ghost predicate Smooths(alpha: real, ws: seq<Window>) {
    && (ws != [] ==> ws[0].smoothed == ws[0].rate)
    && forall k :: 0 < k < |ws| ==> ws[k].smoothed == Blend(alpha, ws[k].rate, ws[k - 1].smoothed)
  }

  ghost predicate Tracked(cfg: Config, t: Track) {
    && (t.s.last.valid <==> t.windows != [])
    && Smooths(cfg.alpha, t.windows)
    && (t.windows != [] ==>
          && t.s.smoothed == t.windows[|t.windows| - 1].smoothed
          && t.s.last == RateSnapshot(true, Llround(t.windows[|t.windows| - 1].rate), Llround(t.s.smoothed)))
  }

  /** After any observations, the smoothed value comes from the rates accepted since the
      counter was last reset. */
  lemma {:induction false} SmoothedTracksRates(cfg: Config, obs: seq<Observation>)
    ensures Tracked(cfg, Run(cfg, obs))
  {
    if obs == [] {
    } else {
      SmoothedTracksRates(cfg, obs[..|obs| - 1]);
    }
  }

  // ---- The smoothed value is a convex combination ----

  function Sum(xs: seq<real>): real {
    if xs == [] then 0.0 else Sum(xs[..|xs| - 1]) + xs[|xs| - 1]
  }

  /** The rates of the first windows, weighted. */
  function Weighted(cs: seq<real>, ws: seq<Window>): real
    requires |cs| <= |ws|
  {
    if cs == [] then 0.0
    else var k := |cs| - 1; Weighted(cs[..k], ws) + cs[k] * ws[k].rate
  }

  function Scale(c: real, xs: seq<real>): (ys: seq<real>)
    ensures |ys| == |xs|
  {
    if xs == [] then [] else Scale(c, xs[..|xs| - 1]) + [c * xs[|xs| - 1]]
  }

  predicate Nonnegative(xs: seq<real>) {
    forall k :: 0 <= k < |xs| ==> xs[k] >= 0.0
  }

  lemma Product(a: real, b: real)
    requires a >= 0.0 && b >= 0.0
    ensures a * b >= 0.0
  {
  }

  lemma {:induction false} ScaleNonnegative(c: real, xs: seq<real>)
    requires c >= 0.0 && Nonnegative(xs)
    ensures Nonnegative(Scale(c, xs))
  {
    if xs == [] {
    } else {
      ScaleNonnegative(c, xs[..|xs| - 1]);
      Product(c, xs[|xs| - 1]);
    }
  }

  lemma {:induction false} SumScale(c: real, xs: seq<real>)
    ensures Sum(Scale(c, xs)) == c * Sum(xs)
  {
    if xs == [] {
    } else {
      var k := |xs| - 1;
      SumScale(c, xs[..k]);
      assert Scale(c, xs)[..k] == Scale(c, xs[..k]);
      Distribute(c, Sum(xs[..k]), xs[k]);
    }
  }

  lemma {:induction false} WeightedScale(c: real, cs: seq<real>, ws: seq<Window>)
    requires |cs| <= |ws|
    ensures Weighted(Scale(c, cs), ws) == c * Weighted(cs, ws)
    decreases |cs|
  {
    if cs == [] {
    } else {
      var k := |cs| - 1;
      WeightedScale(c, cs[..k], ws);
      assert Scale(c, cs)[..k] == Scale(c, cs[..k]);
      Distribute(c, Weighted(cs[..k], ws), cs[k] * ws[k].rate);
      Reassociate(c, cs[k], ws[k].rate);
    }
  }

  lemma Distribute(c: real, d: real, x: real)
    ensures c * d + c * x == c * (d + x)
  {
  }

  lemma Reassociate(c: real, d: real, x: real)
    ensures (c * d) * x == c * (d * x)
  {
  }

  /** Scaling old weights and adding a new one. */
  lemma AddWeight(d: real, cs: seq<real>, x: real, ws: seq<Window>)
    requires d >= 0.0 && x >= 0.0 && Nonnegative(cs) && |cs| < |ws|
    ensures var cs' := Scale(d, cs) + [x];
            && Nonnegative(cs')
            && Sum(cs') == d * Sum(cs) + x
            && Weighted(cs', ws) == d * Weighted(cs, ws) + x * ws[|cs|].rate
  {
    ScaleNonnegative(d, cs);
    SumScale(d, cs);
    WeightedScale(d, cs, ws);
    assert (Scale(d, cs) + [x])[..|cs|] == Scale(d, cs);
  }

  lemma FirstWeight(ws: seq<Window>)
    requires ws != []
    ensures Sum([1.0]) == 1.0 && Weighted([1.0], ws) == ws[0].rate
  {
    var cs := [1.0];
    assert cs[..0] == [];
  }

  /** The weights after one more blend. */
  lemma BlendWeights(alpha: real, before: seq<real>, ws: seq<Window>) returns (cs: seq<real>)
    requires 0.0 <= alpha <= 1.0 && Nonnegative(before) && Sum(before) == 1.0 && |before| < |ws|
    ensures |cs| == |before| + 1 && Nonnegative(cs) && Sum(cs) == 1.0
    ensures Weighted(cs, ws) == Blend(alpha, ws[|before|].rate, Weighted(before, ws))
  {
    var d := 1.0 - alpha;
    AddWeight(d, before, alpha, ws);
    cs := Scale(d, before) + [alpha];
  }

  /** The weights that smoothing gives to the first k + 1 accepted rates. */
  lemma {:induction false} SmoothingWeights(alpha: real, ws: seq<Window>, k: nat) returns (cs: seq<real>)
    requires 0.0 <= alpha <= 1.0 && Smooths(alpha, ws) && k < |ws|
    ensures |cs| == k + 1 && Nonnegative(cs) && Sum(cs) == 1.0
    ensures Weighted(cs, ws) == ws[k].smoothed
    decreases k
  {
    if k == 0 {
      FirstWeight(ws);
      cs := [1.0];
    } else {
      var before := SmoothingWeights(alpha, ws, k - 1);
      cs := BlendWeights(alpha, before, ws);
    }
  }

  /** After any observations, the smoothed value is a convex combination of the rates
      accepted since the counter was last reset. */
  lemma SmoothedIsConvexCombination(cfg: Config, obs: seq<Observation>) returns (cs: seq<real>)
    requires 0.0 <= cfg.alpha <= 1.0 && Run(cfg, obs).windows != []
    ensures |cs| == |Run(cfg, obs).windows| && Nonnegative(cs) && Sum(cs) == 1.0
    ensures Run(cfg, obs).s.smoothed == Weighted(cs, Run(cfg, obs).windows)
  {
    SmoothedTracksRates(cfg, obs);
    cs := SmoothingWeights(cfg.alpha, Run(cfg, obs).windows, |Run(cfg, obs).windows| - 1);
  }

  lemma BlendBetween(alpha: real, x: real, y: real, lo: real, hi: real)
    requires 0.0 <= alpha <= 1.0 && lo <= x <= hi && lo <= y <= hi
    ensures lo <= Blend(alpha, x, y) <= hi
  {
    var d := 1.0 - alpha;
    Product(alpha, x - lo);
    Product(d, y - lo);
    Product(alpha, hi - x);
    Product(d, hi - y);
    assert Blend(alpha, x, y) - lo == alpha * (x - lo) + d * (y - lo);
    assert hi - Blend(alpha, x, y) == alpha * (hi - x) + d * (hi - y);
  }

  /** Every smoothed value lies between the smallest and the largest rate so far. */
  lemma {:induction false} BetweenExtremes(alpha: real, ws: seq<Window>, k: nat) returns (i: nat, j: nat)
    requires 0.0 <= alpha <= 1.0 && Smooths(alpha, ws) && k < |ws|
    ensures i <= k && j <= k && ws[i].rate <= ws[k].smoothed <= ws[j].rate
    ensures forall m :: 0 <= m <= k ==> ws[i].rate <= ws[m].rate <= ws[j].rate
  {
    if k == 0 {
      i, j := 0, 0;
    } else {
      i, j := BetweenExtremes(alpha, ws, k - 1);
      i, j := if ws[k].rate < ws[i].rate then k else i, if ws[k].rate > ws[j].rate then k else j;
      BlendBetween(alpha, ws[k].rate, ws[k - 1].smoothed, ws[i].rate, ws[j].rate);
    }
  }

  lemma LlroundMonotone(x: real, y: real)
    requires x <= y
    ensures Llround(x) <= Llround(y)
  {
  }

  /** The reported smoothed rate lies between the smallest and the largest raw rate reported
      since the last reset. */
  lemma SmoothedBetweenRates(cfg: Config, obs: seq<Observation>) returns (i: nat, j: nat)
    requires 0.0 <= cfg.alpha <= 1.0 && Run(cfg, obs).windows != []
    ensures var t := Run(cfg, obs);
            && i < |t.windows| && j < |t.windows|
            && t.windows[i].rate <= t.s.smoothed <= t.windows[j].rate
            && Llround(t.windows[i].rate) <= t.s.last.smoothedPerSec <= Llround(t.windows[j].rate)
  {
    var t := Run(cfg, obs);
    SmoothedTracksRates(cfg, obs);
    i, j := BetweenExtremes(cfg.alpha, t.windows, |t.windows| - 1);
    LlroundMonotone(t.windows[i].rate, t.s.smoothed);
    LlroundMonotone(t.s.smoothed, t.windows[j].rate);
  }

  // ---- Telescoping and convergence ----

  /** Rate times length: what the counter grew by in a window. */
  function Grown(w: Window): real {
    w.rate * w.elapsedMs as real / 1000.0
  }

  function Growth(ws: seq<Window>): real {
    if ws == [] then 0.0 else Growth(ws[..|ws| - 1]) + Grown(ws[|ws| - 1])
  }

  lemma RateTimesElapsed(dc: int, dt: int, smoothed: real)
    requires dt != 0
    ensures Grown(Window(Rate(dc, dt), dt, smoothed)) == dc as real
  {
    var d := dt as real;
    assert Rate(dc, dt) * d == dc as real * 1000.0;
  }

  ghost predicate Telescopes(t: Track) {
    t.s.hasPrev ==> t.base <= t.s.prevCounter && Growth(t.windows) == (t.s.prevCounter - t.base) as real
  }

  lemma GrowthNext(t: Track, counter: nat, elapsed: int, smoothed: real)
    requires Telescopes(t) && t.s.hasPrev && counter >= t.s.prevCounter && elapsed != 0
    ensures Growth(t.windows + [Window(Rate(counter - t.s.prevCounter, elapsed), elapsed, smoothed)])
            == (counter - t.base) as real
  {
    var w := Window(Rate(counter - t.s.prevCounter, elapsed), elapsed, smoothed);
    assert (t.windows + [w])[..|t.windows|] == t.windows;
    RateTimesElapsed(counter - t.s.prevCounter, elapsed, smoothed);
  }

  /** Rate times elapsed time, summed over the windows accepted since the counter was last
      reset, is exactly the growth of the counter. */
  lemma {:induction false} WindowsTelescope(cfg: Config, obs: seq<Observation>)
    ensures Telescopes(Run(cfg, obs))
  {
    if obs == [] {
    } else {
      var init, o := obs[..|obs| - 1], obs[|obs| - 1];
      WindowsTelescope(cfg, init);
      var t := Run(cfg, init);
      if t.s.hasPrev && Accepts(cfg, t.s, o.counter, o.nowMs) {
        GrowthNext(t, o.counter, Elapsed(o.nowMs, t.s.prevTimeMs), Run(cfg, obs).s.smoothed);
      }
    }
  }

  function Power(b: real, k: nat): real {
    if k == 0 then 1.0 else b * Power(b, k - 1)
  }

  lemma ErrorStep(alpha: real, v: real, r: real, p: real, e: real)
    requires v - r == p * e
    ensures Blend(alpha, r, v) - r == ((1.0 - alpha) * p) * e
  {
    var d := 1.0 - alpha;
    assert Blend(alpha, r, v) - r == d * (v - r);
    Reassociate(d, p, e);
  }

  /** Under a constant rate r the error shrinks by exactly (1 - alpha) per accepted window:
      m windows with rate r after window k multiply it by (1 - alpha)^m. */
  lemma {:induction false} ConstantRateError(alpha: real, ws: seq<Window>, r: real, k: nat, m: nat)
    requires Smooths(alpha, ws) && k + m < |ws|
    requires forall j :: k < j <= k + m ==> ws[j].rate == r
    ensures ws[k + m].smoothed - r == Power(1.0 - alpha, m) * (ws[k].smoothed - r)
    decreases m
  {
    if m == 0 {
    } else {
      ConstantRateError(alpha, ws, r, k, m - 1);
      ErrorStep(alpha, ws[k + m - 1].smoothed, r, Power(1.0 - alpha, m - 1), ws[k].smoothed - r);
    }
  }

  // ---- What one more observation does ----

  /** Rounding gives the nearest integer, and of two equally near ones that away from zero. */
  lemma RoundsToNearest(x: real)
    ensures var r := Llround(x) as real;
            && x - 0.5 <= r <= x + 0.5
            && (r == x + 0.5 ==> x > 0.0)
            && (r == x - 0.5 ==> x < 0.0)
  {
  }

  /** The time since the last observation used; a clock that went back counts through 2^64. */
  function Passed(t: Track, o: Observation): int {
    o.nowMs - t.s.prevTimeMs + if o.nowMs < t.s.prevTimeMs then 0x1_0000_0000_0000_0000 else 0
  }

  /** One window more: as long as the time that has passed, with rate times length the growth of
      the counter, and reported as its rate rounded. */
  ghost predicate Closes(t: Track, t': Track, o: Observation) {
    && |t'.windows| == |t.windows| + 1 && t'.windows[..|t.windows|] == t.windows && t'.base == t.base
    && t'.windows[|t.windows|].elapsedMs == Passed(t, o)
    && Grown(t'.windows[|t.windows|]) == (o.counter - t.s.prevCounter) as real
    && t'.s.last == RateSnapshot(true, Llround(t'.windows[|t.windows|].rate), Llround(t'.s.smoothed))
    && t'.s.prevCounter == o.counter && t'.s.prevTimeMs == o.nowMs && t'.s.hasPrev
  }

  /** From `o` on, nothing is known but `o` itself. */
  ghost predicate StartsOver(t': Track, o: Observation) {
    && t'.windows == [] && t'.base == t'.s.prevCounter == o.counter && t'.s.prevTimeMs == o.nowMs && t'.s.hasPrev
    && !t'.s.last.valid
  }

  lemma WindowCloses(cfg: Config, t: Track, o: Observation)
    requires t.s.hasPrev && o.counter >= t.s.prevCounter
    requires Passed(t, o) != 0 && Passed(t, o) >= cfg.windowMs
    ensures Closes(t, Next(cfg, t, o), o)
  {
    RateTimesElapsed(o.counter - t.s.prevCounter, Passed(t, o), Next(cfg, t, o).s.smoothed);
  }

  lemma ObservationWaits(cfg: Config, t: Track, o: Observation)
    requires t.s.hasPrev && o.counter >= t.s.prevCounter
    requires Passed(t, o) == 0 || Passed(t, o) < cfg.windowMs
    ensures Next(cfg, t, o) == t
  {
  }

  /** After any observations, one more: the first, or one with a smaller counter, starts over;
      otherwise it closes a window if time has passed, and at least the configured time, and
      changes nothing if not. */
  lemma OneMoreObservation(cfg: Config, obs: seq<Observation>, o: Observation)
    ensures var t, t' := Run(cfg, obs), Run(cfg, obs + [o]);
            if !t.s.hasPrev || o.counter < t.s.prevCounter then StartsOver(t', o)
            else if Passed(t, o) != 0 && Passed(t, o) >= cfg.windowMs then Closes(t, t', o)
            else t' == t
  {
    assert (obs + [o])[..|obs|] == obs;
    var t := Run(cfg, obs);
    NothingBeforeFirst(cfg, obs);
    if t.s.hasPrev && o.counter >= t.s.prevCounter {
      if Passed(t, o) != 0 && Passed(t, o) >= cfg.windowMs {
        WindowCloses(cfg, t, o);
      } else {
        ObservationWaits(cfg, t, o);
      }
    }
  }

  lemma {:induction false} NothingBeforeFirst(cfg: Config, obs: seq<Observation>)
    ensures !Run(cfg, obs).s.hasPrev ==> !Run(cfg, obs).s.last.valid
  {
    if obs == [] {
    } else {
      NothingBeforeFirst(cfg, obs[..|obs| - 1]);
    }
  }
}
