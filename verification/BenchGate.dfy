/** The paired-bootstrap latency gate, over real-valued samples. */
module BenchGate {
  import opened Sorting
  import opened Wrappers

  datatype BenchError = EmptySamples | SamplePairMismatch | InvalidSamples

  // ---- Quantiles ----

  predicate Leq(a: real, b: real) {
    a <= b
  }

  function Ceil(x: real): int {
    -((-x).Floor)
  }

  function Clamp(i: int, n: nat): (r: nat)
    requires n > 0
    ensures r < n
  {
    if i < 0 then 0 else if i > n - 1 then n - 1 else i
  }

  function Rank(p: real, n: nat): (r: nat)
    requires n > 0
    ensures r < n
  {
    Clamp(Ceil(p * n as real) - 1, n)
  }

  function Sorted(values: seq<real>): (r: seq<real>)
    ensures |r| == |values|
  {
    SortPermutes(values, Leq);
    Sort(values, Leq)
  }

  function Quantile(values: seq<real>, p: real): Result<real, BenchError> {
    if values == [] then Err(EmptySamples) else Ok(Sorted(values)[Rank(p, |values|)])
  }

  /** How many values are at most x. */
  function AtMost(values: seq<real>, x: real): nat {
    if values == [] then 0 else (if values[0] <= x then 1 else 0) + AtMost(values[1..], x)
  }

  lemma {:induction false} AtMostBound(values: seq<real>, x: real)
    ensures AtMost(values, x) <= |values|
    ensures (forall i | 0 <= i < |values| :: values[i] > x) ==> AtMost(values, x) == 0
    ensures (forall i | 0 <= i < |values| :: values[i] <= x) ==> AtMost(values, x) == |values|
  {
    if values != [] { AtMostBound(values[1..], x); }
  }

  lemma {:induction false} AtMostAppend(a: seq<real>, b: seq<real>, x: real)
    ensures AtMost(a + b, x) == AtMost(a, x) + AtMost(b, x)
  {
    if a == [] {
      assert a + b == b;
    } else {
      assert (a + b)[1..] == a[1..] + b;
      AtMostAppend(a[1..], b, x);
    }
  }

  lemma {:induction false} InsertAtMost(v: real, s: seq<real>, x: real)
    ensures AtMost(Insert(v, s, Leq), x) == (if v <= x then 1 else 0) + AtMost(s, x)
  {
    if s == [] {
    } else if v <= s[0] {
      assert ([v] + s)[1..] == s;
    } else {
      InsertAtMost(v, s[1..], x);
      assert ([s[0]] + Insert(v, s[1..], Leq))[1..] == Insert(v, s[1..], Leq);
    }
  }

  lemma {:induction false} SortAtMost(values: seq<real>, x: real)
    ensures AtMost(Sorted(values), x) == AtMost(values, x)
  {
    if values != [] {
      SortAtMost(values[1..], x);
      InsertAtMost(values[0], Sort(values[1..], Leq), x);
    }
  }

  lemma {:induction false} SortedValues(values: seq<real>)
    ensures SortedBy(Sorted(values), Leq)
  {
    SortSorts(values, Leq);
  }

  /** The k-th smallest value is at most x exactly when more than k values are. */
  lemma {:induction false} RankedIff(values: seq<real>, k: nat, x: real)
    requires k < |values|
    ensures Sorted(values)[k] <= x <==> AtMost(values, x) > k
  {
    var s := Sorted(values);
    SortedValues(values);
    SortAtMost(values, x);
    assert s == s[..k] + ([s[k]] + s[k + 1..]);
    AtMostAppend(s[..k], [s[k]] + s[k + 1..], x);
    AtMostAppend([s[k]], s[k + 1..], x);
    assert Leq(s[k], s[k]);
    if s[k] <= x {
      forall i | 0 <= i < k
        ensures s[..k][i] <= x
      {
        assert Leq(s[i], s[k]);
      }
      AtMostBound(s[..k], x);
    } else {
      var above := s[k + 1..];
      forall i | 0 <= i < |above|
        ensures above[i] > x
      {
        assert Leq(s[k], s[k + 1 + i]);
      }
      AtMostBound(s[..k], x);
      AtMostBound(s[k + 1..], x);
    }
  }

  // ---- Scaling ----

  /** Each head value is at most c times its base value. */
  ghost predicate Within(head: seq<real>, base: seq<real>, c: real) {
    |head| == |base| && forall i | 0 <= i < |base| :: head[i] <= c * base[i]
  }

  lemma {:induction false} ScaleLeq(c: real, a: real, b: real)
    requires c > 0.0 && a <= b
    ensures c * a <= c * b
  {
  }

  lemma {:induction false} AtMostWithin(head: seq<real>, base: seq<real>, c: real, x: real)
    requires c > 0.0 && Within(head, base, c)
    ensures AtMost(head, c * x) >= AtMost(base, x)
  {
    if base != [] {
      if base[0] <= x { ScaleLeq(c, base[0], x); }
      AtMostWithin(head[1..], base[1..], c, x);
    }
  }

  /** A pointwise bound on paired values is a bound on every order statistic. */
  lemma {:induction false} OrderStatisticWithin(head: seq<real>, base: seq<real>, c: real, k: nat)
    requires c > 0.0 && Within(head, base, c) && k < |base|
    ensures Sorted(head)[k] <= c * Sorted(base)[k]
  {
    var x := Sorted(base)[k];
    RankedIff(base, k, x);
    AtMostWithin(head, base, c, x);
    RankedIff(head, k, c * x);
  }

  // ---- Ratios of paired quantiles ----

  predicate Positive(values: seq<real>) {
    forall i | 0 <= i < |values| :: values[i] > 0.0
  }

  predicate InRange(draw: seq<nat>, n: nat) {
    forall i | 0 <= i < |draw| :: draw[i] < n
  }

  /** The values at the drawn positions. */
  function Resample(values: seq<real>, draw: seq<nat>): (r: seq<real>)
    requires InRange(draw, |values|)
    ensures |r| == |draw| && forall i | 0 <= i < |r| :: r[i] == values[draw[i]]
  {
    seq(|draw|, i requires 0 <= i < |draw| => values[draw[i]])
  }

  lemma {:induction false} QuantileIsValue(values: seq<real>, p: real)
    requires values != []
    ensures exists i | 0 <= i < |values| :: values[i] == Quantile(values, p).value
  {
    SortPermutes(values, Leq);
    var q := Sorted(values)[Rank(p, |values|)];
    assert q in multiset(Sorted(values)) && q in multiset(values);
  }

  lemma {:induction false} QuantileIsPositive(values: seq<real>, p: real)
    requires values != [] && Positive(values)
    ensures Quantile(values, p).value > 0.0
  {
    QuantileIsValue(values, p);
  }

  function QuantileRatio(base: seq<real>, head: seq<real>, p: real): real
    requires base != [] && |base| == |head| && Positive(base)
  {
    QuantileIsPositive(base, p);
    Quantile(head, p).value / Quantile(base, p).value
  }

  /** The ratio of the head quantile to the base quantile on one paired resample. */
  function Ratio(base: seq<real>, head: seq<real>, p: real, draw: seq<nat>): (r: real)
    requires |base| == |head| && Positive(base) && draw != [] && InRange(draw, |base|)
  {
    QuantileRatio(Resample(base, draw), Resample(head, draw), p)
  }

  lemma {:induction false} DivideBound(a: real, b: real, c: real)
    requires b > 0.0
    ensures a <= c * b ==> a / b <= c
    ensures c * b <= a ==> c <= a / b
  {
    assert a == a / b * b;
    if a / b > c { StrictScale(c, a / b, b); }
    if a / b < c { StrictScale(a / b, c, b); }
  }

  lemma {:induction false} StrictScale(x: real, y: real, b: real)
    requires x < y && b > 0.0
    ensures x * b < y * b
  {
  }

  /** A pointwise upper bound on head against base bounds every paired ratio. */
  lemma {:induction false} RatioWithin(base: seq<real>, head: seq<real>, p: real, draw: seq<nat>, c: real)
    requires c > 0.0 && Positive(base) && Within(head, base, c) && draw != [] && InRange(draw, |base|)
    ensures Ratio(base, head, p, draw) <= c
  {
    var b, h := Resample(base, draw), Resample(head, draw);
    OrderStatisticWithin(h, b, c, Rank(p, |b|));
    QuantileIsPositive(b, p);
    DivideBound(Quantile(h, p).value, Quantile(b, p).value, c);
  }

  /** Each head value is at least c times its base value. */
  ghost predicate Beyond(head: seq<real>, base: seq<real>, c: real) {
    |head| == |base| && forall i | 0 <= i < |base| :: c * base[i] <= head[i]
  }

  lemma {:induction false} BeyondIsWithin(head: seq<real>, base: seq<real>, c: real)
    requires c > 0.0 && Beyond(head, base, c)
    ensures Within(base, head, 1.0 / c)
  {
    forall i | 0 <= i < |base|
      ensures base[i] <= 1.0 / c * head[i]
    {
      Inverse(c, base[i], head[i]);
    }
  }

  lemma {:induction false} Inverse(c: real, b: real, h: real)
    requires c > 0.0 && c * b <= h
    ensures b <= 1.0 / c * h
  {
    assert 1.0 / c > 0.0 && 1.0 / c * (c * b) == b;
    ScaleLeq(1.0 / c, c * b, h);
  }

  lemma {:induction false} Unscale(c: real, b: real, h: real)
    requires c > 0.0 && b <= 1.0 / c * h
    ensures c * b <= h
  {
    ScaleLeq(c, b, 1.0 / c * h);
    assert c * (1.0 / c * h) == h;
  }

  lemma {:induction false} OrderStatisticBeyond(head: seq<real>, base: seq<real>, c: real, k: nat)
    requires c > 0.0 && Beyond(head, base, c) && k < |base|
    ensures c * Sorted(base)[k] <= Sorted(head)[k]
  {
    hide Sorted, Within, Beyond;
    BeyondIsWithin(head, base, c);
    Reciprocal(c);
    OrderStatisticWithin(base, head, 1.0 / c, k);
    Unscale(c, Sorted(base)[k], Sorted(head)[k]);
  }

  lemma {:induction false} Reciprocal(c: real)
    requires c > 0.0
    ensures 1.0 / c > 0.0
  {
  }

  lemma {:induction false} RatioBeyond(base: seq<real>, head: seq<real>, p: real, draw: seq<nat>, c: real)
    requires c > 0.0 && Positive(base) && Beyond(head, base, c) && draw != [] && InRange(draw, |base|)
    ensures Ratio(base, head, p, draw) >= c
  {
    var b, h := Resample(base, draw), Resample(head, draw);
    OrderStatisticBeyond(h, b, c, Rank(p, |b|));
    QuantileIsPositive(b, p);
    DivideBound(Quantile(h, p).value, Quantile(b, p).value, c);
  }

  // ---- The generator ----

  /** A generator state; how one state leads to the next is a parameter. */
  type Word = v: nat | v < 0x1_0000_0000

  function StateAfter(next: Word -> Word, seed: Word, steps: nat): Word {
    if steps == 0 then seed else next(StateAfter(next, seed, steps - 1))
  }

  function IndexAt(next: Word -> Word, seed: Word, step: nat, n: nat): (i: nat)
    requires n > 0
    ensures i < n
  {
    StateAfter(next, seed, step + 1) % n
  }

  /** i positions read from the generator's stream after `from` steps. */
  function Draw(next: Word -> Word, seed: Word, from: nat, n: nat, i: nat): (d: seq<nat>)
    requires n > 0
    ensures |d| == i && InRange(d, n)
    decreases i
  {
    if i == 0 then [] else Draw(next, seed, from, n, i - 1) + [IndexAt(next, seed, from + i - 1, n)]
  }

  /** One draw of n positions per resample. */
  function Draws(next: Word -> Word, seed: Word, n: nat, runs: nat): (ds: seq<seq<nat>>)
    requires n > 0
    ensures |ds| == runs && forall k | 0 <= k < runs :: ds[k] != [] && InRange(ds[k], n)
  {
    if runs == 0 then [] else Draws(next, seed, n, runs - 1) + [Draw(next, seed, (runs - 1) * n, n, n)]
  }

  datatype Interval = Interval(lower: real, upper: real)

  function Ratios(base: seq<real>, head: seq<real>, p: real, draws: seq<seq<nat>>): (r: seq<real>)
    requires |base| == |head| && Positive(base) && forall k | 0 <= k < |draws| :: draws[k] != [] && InRange(draws[k], |base|)
    ensures |r| == |draws| && forall k | 0 <= k < |r| :: r[k] == Ratio(base, head, p, draws[k])
  {
    seq(|draws|, k requires 0 <= k < |draws| => Ratio(base, head, p, draws[k]))
  }

  /** The interval of a bootstrap over given draws; none without draws. */
  function Interval95(ratios: seq<real>): Result<Interval, BenchError> {
    if ratios == [] then Err(EmptySamples) else Ok(Interval(Quantile(ratios, 0.025).value, Quantile(ratios, 0.975).value))
  }

  predicate Paired(base: seq<real>, head: seq<real>) {
    base != [] && |base| == |head| && Positive(base) && Positive(head)
  }

  /** One paired resample: the same positions from both sides. */
  method ResamplePairs(base: seq<real>, head: seq<real>, next: Word -> Word, state: Word, ghost start: Word, ghost from: nat)
    returns (b: seq<real>, h: seq<real>, state': Word, ghost draw: seq<nat>)
    requires base != [] && |base| == |head| && state == StateAfter(next, start, from)
    ensures draw == Draw(next, start, from, |base|, |base|) && state' == StateAfter(next, start, from + |base|)
    ensures b == Resample(base, draw) && h == Resample(head, draw)
  {
    b, h, state', draw := [], [], state, [];
    for sample := 0 to |base|
      invariant draw == Draw(next, start, from, |base|, sample) && state' == StateAfter(next, start, from + sample)
      invariant b == Resample(base, draw) && h == Resample(head, draw)
    {
      state' := next(state');
      var index := state' % |base|;
      b, h := b + [base[index]], h + [head[index]];
      draw := draw + [index];
    }
  }

  /** pairedBootstrapRatio; a zero seed is replaced by one. */
  method PairedBootstrapRatio(base: seq<real>, head: seq<real>, p: real, next: Word -> Word, seed: Word, resamples: nat)
    returns (r: Result<Interval, BenchError>, ghost draws: seq<seq<nat>>)
    ensures base == [] || |base| != |head| ==> r == Err(SamplePairMismatch)
    ensures base != [] && |base| == |head| && !(Positive(base) && Positive(head)) ==> r == Err(InvalidSamples)
    ensures Paired(base, head) ==>
              && draws == Draws(next, if seed == 0 then 1 else seed, |base|, resamples)
              && r == Interval95(Ratios(base, head, p, draws))
  {
    hide StateAfter, Draw, Quantile, Interval95;
    draws := [];
    if base == [] || |base| != |head| {
      return Err(SamplePairMismatch), draws;
    }
    if !Positive(base) || !Positive(head) {
      return Err(InvalidSamples), draws;
    }
    var n := |base|;
    var state: Word := if seed == 0 then 1 else seed;
    ghost var start := state;
    StartState(next, start, n);
    var ratios: seq<real> := [];
    for run := 0 to resamples
      invariant draws == Draws(next, start, n, run) && ratios == Ratios(base, head, p, draws)
      invariant state == StateAfter(next, start, run * n)
    {
      var b, h;
      ghost var draw;
      b, h, state, draw := ResamplePairs(base, head, next, state, start, run * n);
      Advanced(run, n);
      ratios := ratios + [QuantileRatio(b, h, p)];
      draws := draws + [draw];
    }
    return Interval95(ratios), draws;
  }

  lemma {:induction false} StartState(next: Word -> Word, start: Word, n: nat)
    ensures StateAfter(next, start, 0 * n) == start
  {
    assert 0 * n == 0;
  }

  lemma {:induction false} Advanced(run: nat, n: nat)
    ensures (run + 1) * n == run * n + n
  {
  }

  // ---- What the interval says ----

  ghost predicate ValidDraws(draws: seq<seq<nat>>, n: nat) {
    forall k | 0 <= k < |draws| :: draws[k] != [] && InRange(draws[k], n)
  }

  /** For every index stream: a pointwise bound on the samples bounds the whole interval. */
  lemma {:induction false} IntervalWithin(base: seq<real>, head: seq<real>, p: real, draws: seq<seq<nat>>, c: real)
    requires c > 0.0 && Positive(base) && Within(head, base, c) && ValidDraws(draws, |base|) && draws != []
    ensures Interval95(Ratios(base, head, p, draws)).value.upper <= c && Interval95(Ratios(base, head, p, draws)).value.lower <= c
  {
    var ratios := Ratios(base, head, p, draws);
    forall k | 0 <= k < |ratios|
      ensures ratios[k] <= c
    {
      RatioWithin(base, head, p, draws[k], c);
    }
    QuantileIsValue(ratios, 0.025);
    QuantileIsValue(ratios, 0.975);
  }

  lemma {:induction false} IntervalBeyond(base: seq<real>, head: seq<real>, p: real, draws: seq<seq<nat>>, c: real)
    requires c > 0.0 && Positive(base) && Beyond(head, base, c) && ValidDraws(draws, |base|) && draws != []
    ensures Interval95(Ratios(base, head, p, draws)).value.upper >= c && Interval95(Ratios(base, head, p, draws)).value.lower >= c
  {
    var ratios := Ratios(base, head, p, draws);
    forall k | 0 <= k < |ratios|
      ensures ratios[k] >= c
    {
      RatioBeyond(base, head, p, draws[k], c);
    }
    QuantileIsValue(ratios, 0.025);
    QuantileIsValue(ratios, 0.975);
  }

  // ---- Blocks and verdicts ----

  datatype Verdict = Pass | Fail | Inconclusive

  function CaseVerdict(p50: Interval, p95: Interval): Verdict {
    if p50.upper <= 1.03 && p95.upper <= 1.10 then Pass
    else if p50.lower > 1.03 || p95.lower > 1.10 then Fail
    else Inconclusive
  }

  predicate NoEmptyBlock(blocks: seq<seq<real>>) {
    forall i | 0 <= i < |blocks| :: blocks[i] != []
  }

  /** One quantile per block. */
  function BlockQuantiles(blocks: seq<seq<real>>, p: real): (r: seq<real>)
    requires NoEmptyBlock(blocks)
    ensures |r| == |blocks| && forall i | 0 <= i < |r| :: r[i] == Quantile(blocks[i], p).value
  {
    seq(|blocks|, i requires 0 <= i < |blocks| => Quantile(blocks[i], p).value)
  }

  /** summarizeBlock over all reports of one side. */
  method SummarizeBlocks(blocks: seq<seq<real>>) returns (r: Result<(seq<real>, seq<real>), BenchError>)
    ensures r.Ok? <==> NoEmptyBlock(blocks)
    ensures r.Ok? ==> r.value == (BlockQuantiles(blocks, 0.5), BlockQuantiles(blocks, 0.95))
    ensures r.Err? ==> r.error == EmptySamples
  {
    var p50s, p95s := [], [];
    for i := 0 to |blocks|
      invariant NoEmptyBlock(blocks[..i])
      invariant p50s == BlockQuantiles(blocks[..i], 0.5) && p95s == BlockQuantiles(blocks[..i], 0.95)
    {
      assert blocks[..i + 1] == blocks[..i] + [blocks[i]];
      var p50, p95 := Quantile(blocks[i], 0.5), Quantile(blocks[i], 0.95);
      if p50.Err? || p95.Err? {
        return Err(EmptySamples);
      }
      p50s, p95s := p50s + [p50.value], p95s + [p95.value];
    }
    assert blocks[..|blocks|] == blocks;
    return Ok((p50s, p95s));
  }

  datatype CaseResult = CaseResult(verdict: Verdict, p50: Interval, p95: Interval)

  /** Blocks of positive samples, the same number on both sides and in each pair. */
  ghost predicate PairedBlocks(base: seq<seq<real>>, head: seq<seq<real>>) {
    && base != [] && |base| == |head|
    && forall i | 0 <= i < |base| :: base[i] != [] && |base[i]| == |head[i]| && Positive(base[i]) && Positive(head[i])
  }

  ghost predicate BlocksWithin(head: seq<seq<real>>, base: seq<seq<real>>, c: real) {
    |head| == |base| && forall i | 0 <= i < |base| :: Within(head[i], base[i], c)
  }

  ghost predicate BlocksBeyond(head: seq<seq<real>>, base: seq<seq<real>>, c: real) {
    |head| == |base| && forall i | 0 <= i < |base| :: Beyond(head[i], base[i], c)
  }

  lemma {:induction false} QuantilesArePaired(base: seq<seq<real>>, head: seq<seq<real>>, p: real)
    requires PairedBlocks(base, head)
    ensures NoEmptyBlock(base) && NoEmptyBlock(head) && Paired(BlockQuantiles(base, p), BlockQuantiles(head, p))
  {
    forall i | 0 <= i < |base|
      ensures base[i] != [] && head[i] != [] && Quantile(base[i], p).value > 0.0 && Quantile(head[i], p).value > 0.0
    {
      QuantileIsPositive(base[i], p);
      QuantileIsPositive(head[i], p);
    }
  }

  lemma {:induction false} QuantilesWithin(base: seq<seq<real>>, head: seq<seq<real>>, p: real, c: real)
    requires c > 0.0 && NoEmptyBlock(base) && NoEmptyBlock(head) && BlocksWithin(head, base, c)
    ensures Within(BlockQuantiles(head, p), BlockQuantiles(base, p), c)
  {
    forall i | 0 <= i < |base|
      ensures BlockQuantiles(head, p)[i] <= c * BlockQuantiles(base, p)[i]
    {
      hide Sorted, Rank;
      OrderStatisticWithin(head[i], base[i], c, Rank(p, |base[i]|));
    }
  }

  lemma {:induction false} QuantilesBeyond(base: seq<seq<real>>, head: seq<seq<real>>, p: real, c: real)
    requires c > 0.0 && NoEmptyBlock(base) && NoEmptyBlock(head) && BlocksBeyond(head, base, c)
    ensures Beyond(BlockQuantiles(head, p), BlockQuantiles(base, p), c)
  {
    forall i | 0 <= i < |base|
      ensures c * BlockQuantiles(base, p)[i] <= BlockQuantiles(head, p)[i]
    {
      hide Sorted, Rank;
      OrderStatisticBeyond(head[i], base[i], c, Rank(p, |base[i]|));
    }
  }

  predicate PositiveAt(base: seq<seq<real>>, head: seq<seq<real>>, p: real)
    requires NoEmptyBlock(base) && NoEmptyBlock(head)
  {
    Positive(BlockQuantiles(base, p)) && Positive(BlockQuantiles(head, p))
  }

  /** Blocks whose quantiles can be compared. */
  ghost predicate Comparable(base: seq<seq<real>>, head: seq<seq<real>>) {
    && NoEmptyBlock(base) && NoEmptyBlock(head) && base != [] && |base| == |head|
    && PositiveAt(base, head, 0.5) && PositiveAt(base, head, 0.95)
  }

  lemma {:induction false} PairedIsComparable(base: seq<seq<real>>, head: seq<seq<real>>)
    requires PairedBlocks(base, head)
    ensures Comparable(base, head)
  {
    hide Quantile, Positive;
    QuantilesArePaired(base, head, 0.5);
    QuantilesArePaired(base, head, 0.95);
  }

  /** The result of one case, for any two index streams. */
  ghost function CaseOver(base: seq<seq<real>>, head: seq<seq<real>>, draws50: seq<seq<nat>>, draws95: seq<seq<nat>>): CaseResult
    requires Comparable(base, head)
    requires ValidDraws(draws50, |base|) && ValidDraws(draws95, |base|) && draws50 != [] && draws95 != []
  {
    var p50 := Interval95(Ratios(BlockQuantiles(base, 0.5), BlockQuantiles(head, 0.5), 0.5, draws50)).value;
    var p95 := Interval95(Ratios(BlockQuantiles(base, 0.95), BlockQuantiles(head, 0.95), 0.5, draws95)).value;
    CaseResult(CaseVerdict(p50, p95), p50, p95)
  }

  /** Every head sample within three percent of its pair: the verdict is PASS whatever was drawn. */
  lemma {:induction false} NoSlowerPasses(base: seq<seq<real>>, head: seq<seq<real>>, draws50: seq<seq<nat>>, draws95: seq<seq<nat>>)
    requires PairedBlocks(base, head) && BlocksWithin(head, base, 1.03)
    requires ValidDraws(draws50, |base|) && ValidDraws(draws95, |base|) && draws50 != [] && draws95 != []
    ensures Comparable(base, head) && CaseOver(base, head, draws50, draws95).verdict == Pass
  {
    PairedIsComparable(base, head);
    hide Quantile, Interval95, Ratios, BlockQuantiles, Within;
    QuantilesArePaired(base, head, 0.5);
    QuantilesArePaired(base, head, 0.95);
    QuantilesWithin(base, head, 0.5, 1.03);
    QuantilesWithin(base, head, 0.95, 1.03);
    IntervalWithin(BlockQuantiles(base, 0.5), BlockQuantiles(head, 0.5), 0.5, draws50, 1.03);
    IntervalWithin(BlockQuantiles(base, 0.95), BlockQuantiles(head, 0.95), 0.5, draws95, 1.03);
  }

  /** Every head sample slower than its pair by one factor above 1.03: the verdict is FAIL whatever was drawn. */
  lemma {:induction false} UniformlySlowerFails(base: seq<seq<real>>, head: seq<seq<real>>, draws50: seq<seq<nat>>, draws95: seq<seq<nat>>, c: real)
    requires PairedBlocks(base, head) && c > 1.03 && BlocksBeyond(head, base, c)
    requires ValidDraws(draws50, |base|) && ValidDraws(draws95, |base|) && draws50 != [] && draws95 != []
    ensures Comparable(base, head) && CaseOver(base, head, draws50, draws95).verdict == Fail
  {
    PairedIsComparable(base, head);
    hide Quantile, Interval95, Ratios, BlockQuantiles, Beyond;
    QuantilesArePaired(base, head, 0.5);
    QuantilesArePaired(base, head, 0.95);
    QuantilesBeyond(base, head, 0.5, c);
    IntervalBeyond(BlockQuantiles(base, 0.5), BlockQuantiles(head, 0.5), 0.5, draws50, c);
  }

  /** What keeps a case from getting a verdict; blocks may differ in their number of samples. */
  ghost function CaseError(base: seq<seq<real>>, head: seq<seq<real>>, resamples: nat): Option<BenchError> {
    if !NoEmptyBlock(base) || !NoEmptyBlock(head) then Some(EmptySamples)
    else if base == [] || |base| != |head| then Some(SamplePairMismatch)
    else if !PositiveAt(base, head, 0.5) then Some(InvalidSamples)
    else if resamples == 0 then Some(EmptySamples)
    else if !PositiveAt(base, head, 0.95) then Some(InvalidSamples)
    else None
  }

  /** makeLatencyResult for one case: the first error, or the verdict over two generated index streams. */
  method MakeLatencyResult(base: seq<seq<real>>, head: seq<seq<real>>, next: Word -> Word, resamples: nat)
    returns (r: Result<CaseResult, BenchError>, ghost draws50: seq<seq<nat>>, ghost draws95: seq<seq<nat>>)
    ensures CaseError(base, head, resamples).Some? ==> r == Err(CaseError(base, head, resamples).value)
    ensures CaseError(base, head, resamples).None? ==>
              && ValidDraws(draws50, |base|) && ValidDraws(draws95, |base|) && draws50 != [] && draws95 != []
              && r == Ok(CaseOver(base, head, draws50, draws95))
  {
    hide Quantile, Interval95, Ratios, Draws, Positive;
    draws50, draws95 := [], [];
    var baseSide := SummarizeBlocks(base);
    if baseSide.Err? {
      return Err(baseSide.error), draws50, draws95;
    }
    var headSide := SummarizeBlocks(head);
    if headSide.Err? {
      return Err(headSide.error), draws50, draws95;
    }
    var p50, p95;
    p50, draws50 := PairedBootstrapRatio(baseSide.value.0, headSide.value.0, 0.5, next, 0x6a09e667, resamples);
    if Paired(baseSide.value.0, headSide.value.0) { EmptyInterval(baseSide.value.0, headSide.value.0, draws50); }
    if p50.Err? {
      return Err(p50.error), draws50, draws95;
    }
    p95, draws95 := PairedBootstrapRatio(baseSide.value.1, headSide.value.1, 0.5, next, 0xbb67ae85, resamples);
    if Paired(baseSide.value.1, headSide.value.1) { EmptyInterval(baseSide.value.1, headSide.value.1, draws95); }
    if p95.Err? {
      return Err(p95.error), draws50, draws95;
    }
    return Ok(CaseResult(CaseVerdict(p50.value, p95.value), p50.value, p95.value)), draws50, draws95;
  }

  /** The interval is missing exactly when nothing was drawn. */
  lemma {:induction false} EmptyInterval(base: seq<real>, head: seq<real>, draws: seq<seq<nat>>)
    requires Paired(base, head) && ValidDraws(draws, |base|)
    ensures Interval95(Ratios(base, head, 0.5, draws)).Err? <==> draws == []
    ensures draws == [] ==> Interval95(Ratios(base, head, 0.5, draws)) == Err(EmptySamples)
  {
  }

  /** A round fails on no cases or any failing case, and passes only when every case passes. */
  function AssessLatencyRound(cases: seq<Verdict>): (v: Verdict)
    ensures v == Fail <==> cases == [] || exists i | 0 <= i < |cases| :: cases[i] == Fail
    ensures v == Pass <==> cases != [] && forall i | 0 <= i < |cases| :: cases[i] == Pass
  {
    if cases == [] || (exists i | 0 <= i < |cases| :: cases[i] == Fail) then Fail
    else if exists i | 0 <= i < |cases| :: cases[i] == Inconclusive then Inconclusive
    else Pass
  }
}
