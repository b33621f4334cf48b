/** What the latency gate decides, counted on samples and on resamples rather than through quantiles. */
module BenchLaws {
  import opened BenchGate
  import opened Sorting
  import opened Wrappers

  // ---- Quantiles by counting ----

  lemma {:induction false} RankIs(p: real, n: nat, k: nat)
    requires n > 0 && 0.0 < p <= 1.0
    ensures k > Rank(p, n) <==> k as real >= p * n as real
  {
    var x := p * n as real;
    assert 0.0 < x <= n as real by { Scaled(p, n as real); }
    assert Ceil(x) - 1 < n && Ceil(x) >= 1;
  }

  lemma {:induction false} Scaled(p: real, n: real)
    requires n > 0.0 && 0.0 < p <= 1.0
    ensures 0.0 < p * n <= n
  {
  }

  /** At least this share of the values is at most x. */
  predicate Share(values: seq<real>, x: real, p: real) {
    AtMost(values, x) as real >= p * |values| as real
  }

  /** A quantile is at most x exactly when that share of the values is. */
  lemma {:induction false} QuantileIff(values: seq<real>, p: real, x: real)
    requires values != [] && 0.0 < p <= 1.0
    ensures Quantile(values, p).value <= x <==> Share(values, x, p)
  {
    RankedIff(values, Rank(p, |values|), x);
    RankIs(p, |values|, AtMost(values, x));
    hide Rank, Sorted, AtMost;
  }

  /** Some bound holds for that share of the base, while c times the bound does not for that share of the head. */
  ghost predicate Slower(base: seq<real>, head: seq<real>, p: real, c: real) {
    exists x :: Outpaced(base, head, p, c, x)
  }

  predicate Outpaced(base: seq<real>, head: seq<real>, p: real, c: real, x: real) {
    Share(base, x, p) && !Share(head, c * x, p)
  }

  lemma {:induction false} SlowerIff(base: seq<real>, head: seq<real>, p: real, c: real)
    requires base != [] && head != [] && 0.0 < p <= 1.0 && c > 0.0
    ensures Slower(base, head, p, c) <==> Quantile(head, p).value > c * Quantile(base, p).value
  {
    var b, h := Quantile(base, p).value, Quantile(head, p).value;
    hide Quantile, Outpaced, Share;
    if x :| Outpaced(base, head, p, c, x) {
      OutpacedMeans(base, head, p, c, x);
    }
    OutpacedMeans(base, head, p, c, b);
  }

  lemma {:induction false} OutpacedMeans(base: seq<real>, head: seq<real>, p: real, c: real, x: real)
    requires base != [] && head != [] && 0.0 < p <= 1.0 && c > 0.0
    ensures Outpaced(base, head, p, c, x) ==> Quantile(head, p).value > c * Quantile(base, p).value
    ensures x == Quantile(base, p).value && !Outpaced(base, head, p, c, x) ==> Quantile(head, p).value <= c * x
  {
    var b, h := Quantile(base, p).value, Quantile(head, p).value;
    hide Quantile, Share;
    QuantileIff(base, p, x);
    QuantileIff(head, p, c * x);
    Chain(c, b, x, h);
  }

  lemma {:induction false} Chain(c: real, b: real, x: real, h: real)
    requires c > 0.0
    ensures b <= x && c * x < h ==> c * b < h
  {
    if b <= x { ScaleLeq(c, b, x); }
  }

  /** More than one head sample in twenty beyond c times every base sample makes the tail slower. */
  lemma {:induction false} TailOutgrows(base: seq<real>, head: seq<real>, bound: real, c: real)
    requires base != [] && bound > 0.0 && (forall i | 0 <= i < |base| :: base[i] <= bound)
    requires c >= 1.10 && 20 * (|head| - AtMost(head, c * bound)) > |head|
    ensures Slower(base, head, 0.95, 1.10)
  {
    AtMostBound(base, bound);
    StretchedBound(bound, c);
    AtMostMonotone(head, 1.10 * bound, c * bound);
    assert Outpaced(base, head, 0.95, 1.10, bound);
  }

  lemma {:induction false} StretchedBound(bound: real, c: real)
    requires bound > 0.0 && c >= 1.10
    ensures 1.10 * bound <= c * bound
  {
  }

  lemma {:induction false} AtMostMonotone(values: seq<real>, x: real, y: real)
    requires x <= y
    ensures AtMost(values, x) <= AtMost(values, y)
  {
    if values != [] { AtMostMonotone(values[1..], x, y); }
  }

  // ---- Resamples by counting ----

  /** How many draws make the median of the resampled head values slower than c times that of the base values. */
  ghost function SlowDraws(base: seq<real>, head: seq<real>, c: real, draws: seq<seq<nat>>): nat
    requires |base| == |head| && ValidDraws(draws, |base|)
  {
    if draws == [] then 0
    else (if Slower(Resample(base, draws[0]), Resample(head, draws[0]), 0.5, c) then 1 else 0) + SlowDraws(base, head, c, draws[1..])
  }

  lemma {:induction false} RatioIff(base: seq<real>, head: seq<real>, draw: seq<nat>, c: real)
    requires |base| == |head| && Positive(base) && draw != [] && InRange(draw, |base|) && c > 0.0
    ensures Ratio(base, head, 0.5, draw) > c <==> Slower(Resample(base, draw), Resample(head, draw), 0.5, c)
  {
    var b, h := Resample(base, draw), Resample(head, draw);
    SlowerIff(b, h, 0.5, c);
    QuantileIsPositive(b, 0.5);
    RatioExceeds(Quantile(h, 0.5).value, Quantile(b, 0.5).value, c);
    hide Quantile, Slower;
  }

  lemma {:induction false} RatioExceeds(a: real, b: real, c: real)
    requires b > 0.0
    ensures a / b > c <==> a > c * b
  {
    assert a == a / b * b;
    if a / b > c { StrictScale(c, a / b, b); }
    if a / b < c { StrictScale(a / b, c, b); }
  }

  /** Every ratio either counts as a slow draw or is at most c. */
  lemma {:induction false} SlowDrawsCount(base: seq<real>, head: seq<real>, c: real, draws: seq<seq<nat>>)
    requires |base| == |head| && Positive(base) && ValidDraws(draws, |base|) && c > 0.0
    ensures AtMost(Ratios(base, head, 0.5, draws), c) + SlowDraws(base, head, c, draws) == |draws|
  {
    hide Ratio, Slower;
    if draws != [] {
      var ratios, rest := Ratios(base, head, 0.5, draws), Ratios(base, head, 0.5, draws[1..]);
      assert ratios[1..] == rest;
      RatioIff(base, head, draws[0], c);
      SlowDrawsCount(base, head, c, draws[1..]);
    }
  }

  /** The interval against a threshold: at most one draw in forty slow, or more than thirty-nine in forty. */
  lemma {:induction false} IntervalIff(base: seq<real>, head: seq<real>, c: real, draws: seq<seq<nat>>)
    requires |base| == |head| && Positive(base) && ValidDraws(draws, |base|) && draws != [] && c > 0.0
    ensures var interval := Interval95(Ratios(base, head, 0.5, draws)).value;
            && (interval.upper <= c <==> 40 * SlowDraws(base, head, c, draws) <= |draws|)
            && (interval.lower > c <==> 40 * SlowDraws(base, head, c, draws) > 39 * |draws|)
  {
    var ratios := Ratios(base, head, 0.5, draws);
    SlowDrawsCount(base, head, c, draws);
    QuantileIff(ratios, 0.025, c);
    QuantileIff(ratios, 0.975, c);
    hide Quantile, AtMost, Ratios, SlowDraws;
  }

  // ---- The verdict ----

  /** PASS and FAIL by counting slow draws of the block medians against 1.03 and of the block tails against 1.10. */
  lemma {:induction false} VerdictIff(base: seq<seq<real>>, head: seq<seq<real>>, draws50: seq<seq<nat>>, draws95: seq<seq<nat>>)
    requires Comparable(base, head)
    requires ValidDraws(draws50, |base|) && ValidDraws(draws95, |base|) && draws50 != [] && draws95 != []
    ensures var slow50 := SlowDraws(BlockQuantiles(base, 0.5), BlockQuantiles(head, 0.5), 1.03, draws50);
            var slow95 := SlowDraws(BlockQuantiles(base, 0.95), BlockQuantiles(head, 0.95), 1.10, draws95);
            var verdict := CaseOver(base, head, draws50, draws95).verdict;
            && (verdict == Pass <==> 40 * slow50 <= |draws50| && 40 * slow95 <= |draws95|)
            && (verdict == Fail <==> 40 * slow50 > 39 * |draws50| || 40 * slow95 > 39 * |draws95|)
  {
    IntervalIff(BlockQuantiles(base, 0.5), BlockQuantiles(head, 0.5), 1.03, draws50);
    IntervalIff(BlockQuantiles(base, 0.95), BlockQuantiles(head, 0.95), 1.10, draws95);
    hide Interval95, Ratios, BlockQuantiles, SlowDraws;
  }

  // ---- The verdict on the samples ----

  lemma {:induction false} CommonFactor(base: seq<real>, head: seq<real>, c: real) returns (f: real)
    requires |base| == |head| && Positive(base) && forall i | 0 <= i < |base| :: head[i] > c * base[i]
    ensures f > c && Beyond(head, base, f)
  {
    if base == [] {
      f := c + 1.0;
    } else {
      var rest := CommonFactor(base[1..], head[1..], c);
      var first := FirstFactor(base[0], head[0], c);
      f := if first < rest then first else rest;
      BeyondNext(base, head, first, rest, f);
    }
  }

  lemma {:induction false} FirstFactor(b: real, h: real, c: real) returns (q: real)
    requires b > 0.0 && h > c * b
    ensures q > c && q * b <= h
  {
    RatioExceeds(h, b, c);
    q := h / b;
    assert h == q * b;
  }

  lemma {:induction false} BeyondNext(base: seq<real>, head: seq<real>, first: real, rest: real, f: real)
    requires |base| == |head| > 0 && Positive(base) && f <= first && f <= rest
    requires first * base[0] <= head[0] && Beyond(head[1..], base[1..], rest)
    ensures Beyond(head, base, f)
  {
    forall i | 0 <= i < |base|
      ensures f * base[i] <= head[i]
    {
      if i == 0 {
        Shrink(f, first, base[0]);
      } else {
        assert rest * base[1..][i - 1] <= head[1..][i - 1];
        Shrink(f, rest, base[i]);
      }
    }
  }

  lemma {:induction false} Shrink(f: real, g: real, b: real)
    requires f <= g && b > 0.0
    ensures f * b <= g * b
  {
  }

  lemma {:induction false} AllDrawsSlow(base: seq<real>, head: seq<real>, c: real, draws: seq<seq<nat>>)
    requires |base| == |head| && Positive(base) && ValidDraws(draws, |base|) && c > 0.0
    requires forall i | 0 <= i < |base| :: head[i] > c * base[i]
    ensures SlowDraws(base, head, c, draws) == |draws|
  {
    hide Slower, Ratio;
    if draws != [] {
      var f := CommonFactor(base, head, c);
      RatioBeyond(base, head, 0.5, draws[0], f);
      RatioIff(base, head, draws[0], c);
      AllDrawsSlow(base, head, c, draws[1..]);
    }
  }

  lemma {:induction false} NoDrawSlow(base: seq<real>, head: seq<real>, c: real, draws: seq<seq<nat>>)
    requires Positive(base) && ValidDraws(draws, |base|) && c > 0.0 && Within(head, base, c)
    ensures SlowDraws(base, head, c, draws) == 0
  {
    hide Slower, Ratio;
    if draws != [] {
      RatioWithin(base, head, 0.5, draws[0], c);
      RatioIff(base, head, draws[0], c);
      NoDrawSlow(base, head, c, draws[1..]);
    }
  }

  lemma {:induction false} SlowBlocks(base: seq<seq<real>>, head: seq<seq<real>>, p: real, c: real)
    requires NoEmptyBlock(base) && NoEmptyBlock(head) && |base| == |head| && 0.0 < p <= 1.0 && c > 0.0
    ensures forall i | 0 <= i < |base| ::
              Slower(base[i], head[i], p, c) <==> BlockQuantiles(head, p)[i] > c * BlockQuantiles(base, p)[i]
  {
    hide Slower, Quantile;
    forall i | 0 <= i < |base|
      ensures Slower(base[i], head[i], p, c) <==> BlockQuantiles(head, p)[i] > c * BlockQuantiles(base, p)[i]
    {
      SlowerIff(base[i], head[i], p, c);
    }
  }

  /** Tails slower than 1.10 in every block, or medians slower than 1.03 in every block, FAIL whatever was drawn. */
  lemma {:induction false} SlowEverywhereFails(base: seq<seq<real>>, head: seq<seq<real>>, draws50: seq<seq<nat>>, draws95: seq<seq<nat>>)
    requires Comparable(base, head)
    requires ValidDraws(draws50, |base|) && ValidDraws(draws95, |base|) && draws50 != [] && draws95 != []
    requires (forall i | 0 <= i < |base| :: Slower(base[i], head[i], 0.95, 1.10)) || (forall i | 0 <= i < |base| :: Slower(base[i], head[i], 0.5, 1.03))
    ensures CaseOver(base, head, draws50, draws95).verdict == Fail
  {
    hide Slower, SlowDraws, CaseOver, Quantile;
    VerdictIff(base, head, draws50, draws95);
    SlowBlocks(base, head, 0.95, 1.10);
    SlowBlocks(base, head, 0.5, 1.03);
    if forall i | 0 <= i < |base| :: Slower(base[i], head[i], 0.95, 1.10) {
      AllDrawsSlow(BlockQuantiles(base, 0.95), BlockQuantiles(head, 0.95), 1.10, draws95);
    } else {
      AllDrawsSlow(BlockQuantiles(base, 0.5), BlockQuantiles(head, 0.5), 1.03, draws50);
    }
  }

  /** Neither median nor tail slower in any block: PASS whatever was drawn. */
  lemma {:induction false} FastEverywherePasses(base: seq<seq<real>>, head: seq<seq<real>>, draws50: seq<seq<nat>>, draws95: seq<seq<nat>>)
    requires Comparable(base, head)
    requires ValidDraws(draws50, |base|) && ValidDraws(draws95, |base|) && draws50 != [] && draws95 != []
    requires forall i | 0 <= i < |base| :: !Slower(base[i], head[i], 0.95, 1.10) && !Slower(base[i], head[i], 0.5, 1.03)
    ensures CaseOver(base, head, draws50, draws95).verdict == Pass
  {
    hide Slower, SlowDraws, CaseOver, Quantile;
    VerdictIff(base, head, draws50, draws95);
    SlowBlocks(base, head, 0.95, 1.10);
    SlowBlocks(base, head, 0.5, 1.03);
    NoDrawSlow(BlockQuantiles(base, 0.95), BlockQuantiles(head, 0.95), 1.10, draws95);
    NoDrawSlow(BlockQuantiles(base, 0.5), BlockQuantiles(head, 0.5), 1.03, draws50);
  }

  /** A PASS means some block keeps up in the tail and some block in the median. */
  lemma {:induction false} PassKeepsUp(base: seq<seq<real>>, head: seq<seq<real>>, draws50: seq<seq<nat>>, draws95: seq<seq<nat>>)
    requires Comparable(base, head)
    requires ValidDraws(draws50, |base|) && ValidDraws(draws95, |base|) && draws50 != [] && draws95 != []
    requires CaseOver(base, head, draws50, draws95).verdict == Pass
    ensures exists i | 0 <= i < |base| :: !Slower(base[i], head[i], 0.95, 1.10)
    ensures exists i | 0 <= i < |base| :: !Slower(base[i], head[i], 0.5, 1.03)
  {
    hide Slower, CaseOver;
    if forall i | 0 <= i < |base| :: Slower(base[i], head[i], 0.95, 1.10) {
      SlowEverywhereFails(base, head, draws50, draws95);
    }
    if forall i | 0 <= i < |base| :: Slower(base[i], head[i], 0.5, 1.03) {
      SlowEverywhereFails(base, head, draws50, draws95);
    }
  }

  // ---- The generator's stream ----

  /** The j-th index of the k-th draw is the state after k rounds and j + 1 steps, modulo the number of pairs. */
  lemma {:induction false} DrawsAt(next: Word -> Word, seed: Word, n: nat, runs: nat, k: nat, j: nat)
    requires n > 0 && k < runs && j < n
    ensures |Draws(next, seed, n, runs)[k]| == n && Draws(next, seed, n, runs)[k][j] == StateAfter(next, seed, k * n + j + 1) % n
  {
    if k == runs - 1 { DrawAt(next, seed, k * n, n, n, j); } else { DrawsAt(next, seed, n, runs - 1, k, j); }
  }

  lemma {:induction false} DrawAt(next: Word -> Word, seed: Word, from: nat, n: nat, i: nat, j: nat)
    requires n > 0 && j < i
    ensures Draw(next, seed, from, n, i)[j] == StateAfter(next, seed, from + j + 1) % n
  {
    if j < i - 1 { DrawAt(next, seed, from, n, i - 1, j); }
  }
}
