/** The running sum of moving_average_cpu.cc.
  *
  * A call of work sees a window of the input that starts where the previous call stopped
  * consuming. The block keeps, between calls, one sum per vector element. An item is a row
  * of `vlen` elements. The theorem is that the way the stream is cut into calls does not
  * matter: output k is always the scaled sum of the last `length` inputs up to k.
  */
module MovingAverage {
  import opened Arith
  import opened Memory

  type Item = seq<real>

  datatype Config = Config(length: nat, scale: real, maxIter: nat, vlen: nat) {
    predicate Valid() { 1 <= length }
  }

  datatype Code = Okay | InsufficientInput

  /** What survives a call: the sums, the items consumed so far, the items produced so far. */
  datatype State = State(sum: seq<real>, pos: nat, out: seq<Item>)

  /** One call of work: how many items are visible and how much room the output has. */
  datatype Call = Call(items: nat, room: nat)

  // ----- sums over a stretch of the stream

  predicate Rows(x: seq<Item>, vlen: nat) { forall k :: 0 <= k < |x| ==> |x[k]| == vlen }

  /** Sum of element e of items lo, ..., hi - 1. */
  function Sum(x: seq<Item>, e: nat, lo: nat, hi: nat): real
    requires hi <= |x| && forall k :: 0 <= k < |x| ==> e < |x[k]|
    decreases hi
  {
    if hi <= lo then 0.0 else Sum(x, e, lo, hi - 1) + x[hi - 1][e]
  }

  lemma {:induction false} SumSplits(x: seq<Item>, e: nat, lo: nat, mid: nat, hi: nat)
    requires lo <= mid <= hi <= |x| && forall k :: 0 <= k < |x| ==> e < |x[k]|
    ensures Sum(x, e, lo, hi) == Sum(x, e, lo, mid) + Sum(x, e, mid, hi)
    decreases hi
  {
    if mid < hi {
      SumSplits(x, e, lo, mid, hi - 1);
    }
  }

  lemma {:induction false} SumShifts(x: seq<Item>, e: nat, p: nat, n: nat, lo: nat, hi: nat)
    requires p + n <= |x| && lo <= hi <= n && forall k :: 0 <= k < |x| ==> e < |x[k]|
    ensures Sum(x[p..p + n], e, lo, hi) == Sum(x, e, p + lo, p + hi)
    decreases hi
  {
    var w := x[p..p + n];
    if lo < hi {
      SumShifts(x, e, p, n, lo, hi - 1);
      assert w[hi - 1] == x[p + hi - 1];
    }
  }

  function Scaled(cfg: Config, sum: real): real { sum * cfg.scale }

  /** What output k is for: the scaled sum of the last `length` items up to k, fewer at the start. */
  function Average(cfg: Config, x: seq<Item>, e: nat, k: nat): real
    requires cfg.Valid() && k < |x| && forall k :: 0 <= k < |x| ==> e < |x[k]|
  {
    Scaled(cfg, Sum(x, e, if k < cfg.length then 0 else k + 1 - cfg.length, k + 1))
  }

  // ----- one call

  /** Index of the first item still in the sum when the first call has done i iterations. */
  function Dropped(cfg: Config, i: nat): nat
    requires cfg.Valid()
  {
    if i < cfg.length then 0 else i - (cfg.length - 1)
  }

  /** The sum of one element after i iterations over window w, from sum s0. */
  function SumAfter(cfg: Config, first: bool, w: seq<Item>, e: nat, s0: real, i: nat): real
    requires cfg.Valid() && e < cfg.vlen && Rows(w, cfg.vlen)
    requires i == 0 || i + (cfg.length - 1) <= |w|
  {
    if i == 0 then s0
    else if first then s0 + Sum(w, e, 0, i) - Sum(w, e, 0, Dropped(cfg, i))
    else s0 + Sum(w, e, cfg.length - 1, cfg.length - 1 + i) - Sum(w, e, 0, i)
  }

  /** The item the sum takes in at iteration i. */
  function Entering(cfg: Config, first: bool, i: nat): nat
    requires cfg.Valid()
  {
    if first then i else i + cfg.length - 1
  }

  function OutputAt(cfg: Config, first: bool, w: seq<Item>, e: nat, s0: real, i: nat): real
    requires cfg.Valid() && e < cfg.vlen && Rows(w, cfg.vlen)
    requires i + cfg.length <= |w|
  {
    Scaled(cfg, SumAfter(cfg, first, w, e, s0, i) + w[Entering(cfg, first, i)][e])
  }

  /** Iterations of a call that has enough input. */
  function Iterations(cfg: Config, c: Call): nat
    requires cfg.length <= c.items
  {
    var outputs := Min(c.items - cfg.length, c.room);
    if outputs > cfg.maxIter then cfg.maxIter else outputs
  }

  /** Items reported consumed; the first call holds back length - 1, in unsigned arithmetic. */
  function Consumed(cfg: Config, first: bool, n: nat): nat
    requires cfg.Valid()
  {
    if first then (n - (cfg.length - 1)) % UINT64_RANGE else n
  }

  predicate Legal(cfg: Config, x: seq<Item>, s: State, c: Call) {
    && cfg.Valid()
    && Rows(x, cfg.vlen)
    && |s.sum| == cfg.vlen
    && s.pos + c.items <= |x|
  }

  function SumsAfter(cfg: Config, first: bool, w: seq<Item>, sum: seq<real>, n: nat): (r: seq<real>)
    requires cfg.Valid() && Rows(w, cfg.vlen) && |sum| == cfg.vlen
    requires n == 0 || n + (cfg.length - 1) <= |w|
  {
    seq(cfg.vlen, e requires 0 <= e < cfg.vlen => SumAfter(cfg, first, w, e, sum[e], n))
  }

  function OutputRow(cfg: Config, first: bool, w: seq<Item>, sum: seq<real>, i: nat): Item
    requires cfg.Valid() && Rows(w, cfg.vlen) && |sum| == cfg.vlen
    requires i + cfg.length <= |w|
  {
    seq(cfg.vlen, e requires 0 <= e < cfg.vlen => OutputAt(cfg, first, w, e, sum[e], i))
  }

  function OutputRows(cfg: Config, first: bool, w: seq<Item>, sum: seq<real>, n: nat): seq<Item>
    requires cfg.Valid() && Rows(w, cfg.vlen) && |sum| == cfg.vlen
    requires n == 0 || n + (cfg.length - 1) <= |w|
  {
    seq(n, i requires 0 <= i < n => OutputRow(cfg, first, w, sum, i))
  }

  function AfterWork(cfg: Config, x: seq<Item>, s: State, c: Call): State
    requires Legal(cfg, x, s, c)
  {
    if c.items < cfg.length then s
    else
      var n := Iterations(cfg, c);
      var w := x[s.pos..s.pos + c.items];
      State(SumsAfter(cfg, s.pos == 0, w, s.sum, n), s.pos + Consumed(cfg, s.pos == 0, n),
            s.out + OutputRows(cfg, s.pos == 0, w, s.sum, n))
  }

  /** The new rows of the output, element by element. */
  lemma WorkRows(cfg: Config, x: seq<Item>, s: State, c: Call, first: bool, w: seq<Item>)
    requires Legal(cfg, x, s, c) && cfg.length <= c.items && w == x[s.pos..s.pos + c.items]
    requires first <==> s.pos == 0
    ensures var n, t := Iterations(cfg, c), AfterWork(cfg, x, s, c);
            && Rows(w, cfg.vlen) && (n == 0 || n + (cfg.length - 1) < |w|)
            && t.sum == SumsAfter(cfg, first, w, s.sum, n)
            && |t.out| == |s.out| + n && s.out <= t.out
            && forall i, e :: 0 <= i < n && 0 <= e < cfg.vlen ==>
                                |t.out[|s.out| + i]| == cfg.vlen
                                && t.out[|s.out| + i][e] == OutputAt(cfg, first, w, e, s.sum[e], i)
  {
    var n := Iterations(cfg, c);
    assert OutputRows(cfg, first, w, s.sum, n) == AfterWork(cfg, x, s, c).out[|s.out|..];
  }

  // ----- the states between calls

  /** Before anything happened. */
  predicate Fresh(cfg: Config, s: State) {
    && s.pos == 0 && s.out == [] && |s.sum| == cfg.vlen
    && forall e :: 0 <= e < cfg.vlen ==> s.sum[e] == 0.0
  }

  /** The sums are those of the length - 1 items that were produced for but not yet consumed. */
  predicate Steady(cfg: Config, x: seq<Item>, s: State)
    requires cfg.Valid() && Rows(x, cfg.vlen)
  {
    && 1 <= s.pos
    && |s.out| == s.pos + cfg.length - 1 <= |x|
    && |s.sum| == cfg.vlen
    && forall e :: 0 <= e < cfg.vlen ==> s.sum[e] == Sum(x, e, s.pos, |s.out|)
  }

  predicate Good(cfg: Config, x: seq<Item>, s: State)
    requires cfg.Valid() && Rows(x, cfg.vlen)
  {
    Fresh(cfg, s) || Steady(cfg, x, s)
  }

  /** Everything produced so far is the moving average of the whole stream. */
  predicate Correct(cfg: Config, x: seq<Item>, out: seq<Item>)
    requires cfg.Valid() && Rows(x, cfg.vlen)
  {
    && |out| <= |x|
    && forall k :: 0 <= k < |out| ==> IsAverage(cfg, x, k, out[k])
  }

  predicate IsAverage(cfg: Config, x: seq<Item>, k: nat, row: Item)
    requires cfg.Valid() && Rows(x, cfg.vlen) && k < |x|
  {
    |row| == cfg.vlen && forall e :: 0 <= e < cfg.vlen ==> row[e] == Average(cfg, x, e, k)
  }

  /** `v` is the scale times the sum of the last `length` items up to item k, or of all items as long as there
    * are fewer. */
  predicate IsScaledSum(cfg: Config, x: seq<Item>, k: nat, e: nat, v: real)
    requires k < |x| && Rows(x, cfg.vlen) && e < cfg.vlen
  {
    var first := if k < cfg.length then 0 else k + 1 - cfg.length;
    v == cfg.scale * Sum(x, e, first, k + 1)
  }

  lemma CorrectMeans(cfg: Config, x: seq<Item>, out: seq<Item>, k: nat, e: nat)
    requires cfg.Valid() && Rows(x, cfg.vlen) && Correct(cfg, x, out) && k < |out| && e < cfg.vlen
    ensures |out[k]| == cfg.vlen
    ensures out[k][e] == cfg.scale * Sum(x, e, if k < cfg.length then 0 else k + 1 - cfg.length, k + 1)
    ensures IsScaledSum(cfg, x, k, e, out[k][e])
  {
    assert IsAverage(cfg, x, k, out[k]);
    var sum := Sum(x, e, if k < cfg.length then 0 else k + 1 - cfg.length, k + 1);
    assert out[k][e] == Average(cfg, x, e, k) == Scaled(cfg, sum);
    ScaledIs(cfg, sum);
  }

  lemma AllMean(cfg: Config, x: seq<Item>, out: seq<Item>)
    requires cfg.Valid() && Rows(x, cfg.vlen) && Correct(cfg, x, out)
    ensures |out| <= |x| && Rows(out, cfg.vlen)
    ensures forall k, e :: 0 <= k < |out| && 0 <= e < cfg.vlen ==> IsScaledSum(cfg, x, k, e, out[k][e])
  {
    forall k | 0 <= k < |out|
      ensures |out[k]| == cfg.vlen
    {
      assert IsAverage(cfg, x, k, out[k]);
    }
    forall k, e | 0 <= k < |out| && 0 <= e < cfg.vlen
      ensures IsScaledSum(cfg, x, k, e, out[k][e])
    {
      CorrectMeans(cfg, x, out, k, e);
    }
  }

  /** Output i of a call, from whatever sum the call starts with: that sum, with the items that have come in and
    * without those that have gone, times the scale. */
  lemma OutputMeans(cfg: Config, first: bool, w: seq<Item>, e: nat, s0: real, i: nat)
    requires cfg.Valid() && e < cfg.vlen && Rows(w, cfg.vlen) && i + cfg.length <= |w|
    ensures var gone := if !first then i else if i < cfg.length then 0 else i - (cfg.length - 1);
            var come := if first then Sum(w, e, 0, i + 1) else Sum(w, e, cfg.length - 1, cfg.length + i);
            OutputAt(cfg, first, w, e, s0, i) == cfg.scale * (s0 + come - Sum(w, e, 0, gone))
  {
    if first {
      SumIfFirst(cfg, w, e, s0, i);
      ScaledIs(cfg, SumAfter(cfg, true, w, e, s0, i) + w[i][e]);
    } else {
      SumIfSteady(cfg, w, e, s0, i);
      ScaledIs(cfg, SumAfter(cfg, false, w, e, s0, i) + w[i + cfg.length - 1][e]);
    }
  }

  lemma SumIfFirst(cfg: Config, w: seq<Item>, e: nat, s0: real, i: nat)
    requires cfg.Valid() && e < cfg.vlen && Rows(w, cfg.vlen) && i + cfg.length <= |w|
    ensures SumAfter(cfg, true, w, e, s0, i) + w[i][e] == s0 + Sum(w, e, 0, i + 1) - Sum(w, e, 0, Dropped(cfg, i))
  {
    if i == 0 {
      assert Sum(w, e, 0, 1) == Sum(w, e, 0, 0) + w[0][e];
    } else {
      assert Sum(w, e, 0, i + 1) == Sum(w, e, 0, i) + w[i][e];
    }
  }

  lemma SumIfSteady(cfg: Config, w: seq<Item>, e: nat, s0: real, i: nat)
    requires cfg.Valid() && e < cfg.vlen && Rows(w, cfg.vlen) && i + cfg.length <= |w|
    ensures SumAfter(cfg, false, w, e, s0, i) + w[i + cfg.length - 1][e]
         == s0 + Sum(w, e, cfg.length - 1, cfg.length + i) - Sum(w, e, 0, i)
  {
    var from, last := cfg.length - 1, cfg.length - 1 + i;
    assert Sum(w, e, from, last + 1) == Sum(w, e, from, last) + w[last][e];
    assert i == 0 ==> Sum(w, e, from, last) == 0.0;
  }

  lemma ScaledIs(cfg: Config, sum: real)
    ensures Scaled(cfg, sum) == cfg.scale * sum
  {
  }

  lemma {:induction false} FirstSum(cfg: Config, w: seq<Item>, e: nat, i: nat)
    requires cfg.Valid() && e < cfg.vlen && Rows(w, cfg.vlen) && i + cfg.length <= |w|
    ensures SumAfter(cfg, true, w, e, 0.0, i) == Sum(w, e, Dropped(cfg, i), i)
    ensures OutputAt(cfg, true, w, e, 0.0, i) == Average(cfg, w, e, i)
  {
    var d := Dropped(cfg, i);
    SumSplits(w, e, 0, d, i);
    assert Sum(w, e, d, i + 1) == Sum(w, e, d, i) + w[i][e];
  }

  lemma {:induction false} SteadySum(cfg: Config, x: seq<Item>, e: nat, p: nat, items: nat, i: nat)
    requires cfg.Valid() && e < cfg.vlen && Rows(x, cfg.vlen)
    requires p + items <= |x| && i + cfg.length - 1 <= items
    ensures SumAfter(cfg, false, x[p..p + items], e, Sum(x, e, p, p + cfg.length - 1), i)
         == Sum(x, e, p + i, p + cfg.length - 1 + i)
  {
    var q := p + cfg.length - 1;
    SumShifts(x, e, p, items, cfg.length - 1, cfg.length - 1 + i);
    SumShifts(x, e, p, items, 0, i);
    SumSplits(x, e, p, q, q + i);
    SumSplits(x, e, p, p + i, q + i);
  }

  lemma {:induction false} SteadyOutput(cfg: Config, x: seq<Item>, e: nat, p: nat, items: nat, i: nat)
    requires cfg.Valid() && e < cfg.vlen && Rows(x, cfg.vlen)
    requires p + items <= |x| && i + cfg.length <= items
    ensures OutputAt(cfg, false, x[p..p + items], e, Sum(x, e, p, p + cfg.length - 1), i)
         == Average(cfg, x, e, p + cfg.length - 1 + i)
  {
    var q := p + cfg.length - 1;
    SteadySum(cfg, x, e, p, items, i);
    assert x[p..p + items][i + cfg.length - 1] == x[q + i];
    assert Sum(x, e, p + i, q + i + 1) == Sum(x, e, p + i, q + i) + x[q + i][e];
  }

  // ----- one call keeps the output correct

  lemma FirstOutput(cfg: Config, x: seq<Item>, items: nat, e: nat, k: nat)
    requires cfg.Valid() && e < cfg.vlen && Rows(x, cfg.vlen) && items <= |x| && k + cfg.length <= items
    ensures OutputAt(cfg, true, x[0..items], e, 0.0, k) == Average(cfg, x, e, k)
  {
    var lo := if k + 1 <= cfg.length then 0 else k + 1 - cfg.length;
    FirstSum(cfg, x[0..items], e, k);
    SumShifts(x, e, 0, items, lo, k + 1);
    assert x[0..0 + items] == x[0..items];
    assert Sum(x[0..items], e, lo, k + 1) == Sum(x, e, lo, k + 1);
  }

  /** The first call is right however far it gets. */
  lemma FirstCallOutput(cfg: Config, x: seq<Item>, s: State, c: Call)
    requires Legal(cfg, x, s, c) && Fresh(cfg, s) && cfg.length <= c.items
    ensures Correct(cfg, x, AfterWork(cfg, x, s, c).out)
  {
    var t := AfterWork(cfg, x, s, c);
    forall k | 0 <= k < |t.out| ensures IsAverage(cfg, x, k, t.out[k]) {
      assert t.out[k] == OutputRow(cfg, true, x[0..c.items], s.sum, k);
      forall e | 0 <= e < cfg.vlen ensures t.out[k][e] == Average(cfg, x, e, k) {
        FirstOutput(cfg, x, c.items, e, k);
      }
    }
  }

  /** In any good state a call keeps the output right, however much input it has. */
  lemma CallOutput(cfg: Config, x: seq<Item>, s: State, c: Call)
    requires Legal(cfg, x, s, c) && Correct(cfg, x, s.out) && Good(cfg, x, s)
    ensures Correct(cfg, x, AfterWork(cfg, x, s, c).out)
  {
    if cfg.length <= c.items {
      if Fresh(cfg, s) {
        FirstCallOutput(cfg, x, s, c);
      } else {
        SteadyCallOutput(cfg, x, s, c);
      }
    }
  }

  /** The rows that a call writes, which start at row `at` of the stream of outputs. */
  ghost predicate WritesAverages(cfg: Config, x: seq<Item>, at: nat, n: nat, out: array2<real>)
    requires cfg.Valid() && Rows(x, cfg.vlen) && out.Length1 == cfg.vlen
    reads out
  {
    && at + n <= |x| && n <= out.Length0
    && forall i, e :: 0 <= i < n && 0 <= e < cfg.vlen ==> IsScaledSum(cfg, x, at + i, e, out[i, e])
  }

  lemma RowsAreAverages(cfg: Config, x: seq<Item>, s: State, c: Call, out: array2<real>)
    requires Legal(cfg, x, s, c) && out.Length1 == cfg.vlen
    requires var t := AfterWork(cfg, x, s, c);
             && |s.out| <= |t.out| && |t.out| - |s.out| <= out.Length0
             && forall i, e :: 0 <= i < |t.out| - |s.out| && 0 <= e < cfg.vlen ==>
                                 |t.out[|s.out| + i]| == cfg.vlen && out[i, e] == t.out[|s.out| + i][e]
    ensures Correct(cfg, x, s.out) && Good(cfg, x, s) ==>
              WritesAverages(cfg, x, |s.out|, |AfterWork(cfg, x, s, c).out| - |s.out|, out)
  {
    if Correct(cfg, x, s.out) && Good(cfg, x, s) {
      CallOutput(cfg, x, s, c);
      var t := AfterWork(cfg, x, s, c);
      forall i, e | 0 <= i < |t.out| - |s.out| && 0 <= e < cfg.vlen
        ensures IsScaledSum(cfg, x, |s.out| + i, e, out[i, e])
      {
        CorrectMeans(cfg, x, t.out, |s.out| + i, e);
      }
    }
  }

  /** It leaves the sums of the unconsumed items behind once it has filled the window. */
  lemma FirstCallSums(cfg: Config, x: seq<Item>, s: State, c: Call)
    requires Legal(cfg, x, s, c) && Fresh(cfg, s) && cfg.length <= c.items
    requires cfg.length <= Iterations(cfg, c) && c.items < UINT64_RANGE
    ensures Steady(cfg, x, AfterWork(cfg, x, s, c))
  {
    var t := AfterWork(cfg, x, s, c);
    var w := x[s.pos..s.pos + c.items];
    var n := Iterations(cfg, c);
    forall e | 0 <= e < cfg.vlen ensures t.sum[e] == Sum(x, e, t.pos, |t.out|) {
      FirstSum(cfg, w, e, n);
      SumShifts(x, e, 0, c.items, Dropped(cfg, n), n);
    }
  }

  /** Exactly when the first call leaves a state that later calls can go on from. */
  lemma FirstCallGoodIff(cfg: Config, x: seq<Item>, s: State, c: Call)
    requires Legal(cfg, x, s, c) && Fresh(cfg, s) && cfg.length <= c.items < UINT64_RANGE
    ensures Good(cfg, x, AfterWork(cfg, x, s, c)) <==>
              cfg.length <= Iterations(cfg, c) || (cfg.length == 1 && Iterations(cfg, c) == 0)
  {
    if cfg.length <= Iterations(cfg, c) {
      FirstCallSums(cfg, x, s, c);
    }
  }

  /** Why filling the window matters: a first call of exactly length - 1 iterations consumes nothing,
    * so the next call takes item 0 in again where item length - 1 belongs. */
  lemma ShortFirstCallRepeats(cfg: Config, x: seq<Item>, s: State, c: Call, next: Call, e: nat)
    requires Legal(cfg, x, s, c) && Fresh(cfg, s) && cfg.length <= c.items < UINT64_RANGE && e < cfg.vlen
    requires Iterations(cfg, c) == cfg.length - 1 >= 1
    requires next.items <= |x| && cfg.length <= next.items && 1 <= Iterations(cfg, next)
    ensures var t := AfterWork(cfg, x, s, c);
            var u := AfterWork(cfg, x, t, next);
            && t.pos == 0 && |t.out| == cfg.length - 1 < |u.out|
            && |u.out[cfg.length - 1]| == cfg.vlen
            && u.out[cfg.length - 1][e]
            == Average(cfg, x, e, cfg.length - 1) + (x[0][e] - x[cfg.length - 1][e]) * cfg.scale
  {
    var l := cfg.length - 1;
    var t := AfterWork(cfg, x, s, c);
    var u := AfterWork(cfg, x, t, next);
    FirstSum(cfg, x[0..c.items], e, l);
    SumShifts(x, e, 0, c.items, 0, l);
    assert t.sum[e] == Sum(x, e, 0, l);
    assert u.out[l] == OutputRow(cfg, true, x[0..next.items], t.sum, 0);
    assert Sum(x, e, 0, l + 1) == t.sum[e] + x[l][e];
    assert u.out[l][e] == (t.sum[e] + x[0][e]) * cfg.scale;
  }

  lemma SteadyCallSums(cfg: Config, x: seq<Item>, s: State, c: Call)
    requires Legal(cfg, x, s, c) && Steady(cfg, x, s) && cfg.length <= c.items
    ensures Steady(cfg, x, AfterWork(cfg, x, s, c))
  {
    var t := AfterWork(cfg, x, s, c);
    forall e | 0 <= e < cfg.vlen ensures t.sum[e] == Sum(x, e, t.pos, |t.out|) {
      SteadySum(cfg, x, e, s.pos, c.items, Iterations(cfg, c));
    }
  }

  lemma SteadyCallOutput(cfg: Config, x: seq<Item>, s: State, c: Call)
    requires Legal(cfg, x, s, c) && Steady(cfg, x, s) && Correct(cfg, x, s.out) && cfg.length <= c.items
    ensures Correct(cfg, x, AfterWork(cfg, x, s, c).out)
  {
    var t := AfterWork(cfg, x, s, c);
    var w := x[s.pos..s.pos + c.items];
    forall k | |s.out| <= k < |t.out| ensures IsAverage(cfg, x, k, t.out[k]) {
      var i := k - |s.out|;
      assert t.out[k] == OutputRow(cfg, false, w, s.sum, i);
      forall e | 0 <= e < cfg.vlen ensures t.out[k][e] == Average(cfg, x, e, k) {
        SteadyOutput(cfg, x, e, s.pos, c.items, i);
      }
    }
  }

  // ----- whole runs

  function Run(cfg: Config, x: seq<Item>, s: State, calls: seq<Call>): State
    requires RunLegal(cfg, x, s, calls)
    decreases |calls|
  {
    if calls == [] then s else Run(cfg, x, AfterWork(cfg, x, s, calls[0]), calls[1..])
  }

  /** Every call sees a part of the stream that starts at the items not yet consumed. */
  predicate RunLegal(cfg: Config, x: seq<Item>, s: State, calls: seq<Call>)
    decreases |calls|
  {
    calls != [] ==>
      Legal(cfg, x, s, calls[0]) && RunLegal(cfg, x, AfterWork(cfg, x, s, calls[0]), calls[1..])
  }

  /** A call made while nothing has been consumed fills the window, or has no work at all to do. */
  predicate FillsWindow(cfg: Config, c: Call)
    requires cfg.Valid()
  {
    c.items < cfg.length
    || (cfg.length <= Iterations(cfg, c) && c.items < UINT64_RANGE)
    || (cfg.length == 1 && Iterations(cfg, c) == 0)
  }

  /** The first call that does not merely report too little input fills the window. */
  predicate StartsWell(cfg: Config, calls: seq<Call>)
    requires cfg.Valid()
  {
    calls != [] ==>
      && FillsWindow(cfg, calls[0])
      && (calls[0].items < cfg.length || Iterations(cfg, calls[0]) == 0 ==> StartsWell(cfg, calls[1..]))
  }

  lemma {:induction false} SteadyRun(cfg: Config, x: seq<Item>, s: State, calls: seq<Call>)
    requires cfg.Valid() && Rows(x, cfg.vlen) && RunLegal(cfg, x, s, calls)
    requires Steady(cfg, x, s) && Correct(cfg, x, s.out)
    ensures Steady(cfg, x, Run(cfg, x, s, calls)) && Correct(cfg, x, Run(cfg, x, s, calls).out)
    decreases |calls|
  {
    if calls != [] {
      if cfg.length <= calls[0].items {
        SteadyCallSums(cfg, x, s, calls[0]);
        SteadyCallOutput(cfg, x, s, calls[0]);
      }
      SteadyRun(cfg, x, AfterWork(cfg, x, s, calls[0]), calls[1..]);
    }
  }

  /** Chunking does not matter: every run that starts by filling the window computes the moving
    * average of the whole stream, and carries the sums of the length - 1 items it has not consumed. */
  lemma RunIsMovingAverage(cfg: Config, x: seq<Item>, s: State, calls: seq<Call>)
    requires cfg.Valid() && Rows(x, cfg.vlen) && RunLegal(cfg, x, s, calls)
    requires Fresh(cfg, s) && StartsWell(cfg, calls)
    ensures Good(cfg, x, Run(cfg, x, s, calls)) && Correct(cfg, x, Run(cfg, x, s, calls).out)
    ensures var out := Run(cfg, x, s, calls).out;
            && |out| <= |x| && Rows(out, cfg.vlen)
            && forall k, e :: 0 <= k < |out| && 0 <= e < cfg.vlen ==> IsScaledSum(cfg, x, k, e, out[k][e])
  {
    RunIsCorrect(cfg, x, s, calls);
    AllMean(cfg, x, Run(cfg, x, s, calls).out);
  }

  lemma {:induction false} RunIsCorrect(cfg: Config, x: seq<Item>, s: State, calls: seq<Call>)
    requires cfg.Valid() && Rows(x, cfg.vlen) && RunLegal(cfg, x, s, calls)
    requires Fresh(cfg, s) && StartsWell(cfg, calls)
    ensures Good(cfg, x, Run(cfg, x, s, calls)) && Correct(cfg, x, Run(cfg, x, s, calls).out)
    decreases |calls|
  {
    if calls != [] {
      var c := calls[0];
      var t := AfterWork(cfg, x, s, c);
      if c.items < cfg.length {
        RunIsCorrect(cfg, x, t, calls[1..]);
      } else if cfg.length <= Iterations(cfg, c) {
        FirstCallOutput(cfg, x, s, c);
        FirstCallSums(cfg, x, s, c);
        SteadyRun(cfg, x, t, calls[1..]);
      } else {
        RunIsCorrect(cfg, x, t, calls[1..]);
      }
    }
  }

  /** Two runs over the same stream agree on every output both have produced. */
  lemma ChunkingIsIrrelevant(cfg: Config, x: seq<Item>, s: State, calls: seq<Call>, others: seq<Call>)
    requires cfg.Valid() && Rows(x, cfg.vlen) && RunLegal(cfg, x, s, calls) && RunLegal(cfg, x, s, others)
    requires Fresh(cfg, s) && StartsWell(cfg, calls) && StartsWell(cfg, others)
    ensures var a := Run(cfg, x, s, calls).out; var b := Run(cfg, x, s, others).out;
            a <= b || b <= a
  {
    RunIsMovingAverage(cfg, x, s, calls);
    RunIsMovingAverage(cfg, x, s, others);
    var a, b := Run(cfg, x, s, calls).out, Run(cfg, x, s, others).out;
    forall k | 0 <= k < Min(|a|, |b|) ensures a[k] == b[k] {
      assert IsAverage(cfg, x, k, a[k]) && IsAverage(cfg, x, k, b[k]);
    }
  }

  // ----- the block

  /** One iteration takes in one item and, once the window is full, lets one go. */
  lemma SumStep(cfg: Config, first: bool, w: seq<Item>, e: nat, s0: real, i: nat)
    requires cfg.Valid() && e < cfg.vlen && Rows(w, cfg.vlen) && i + cfg.length <= |w|
    ensures SumAfter(cfg, first, w, e, s0, i + 1)
         == SumAfter(cfg, first, w, e, s0, i) + w[Entering(cfg, first, i)][e]
            - (if !first then w[i][e] else if i >= cfg.length - 1 then w[i - (cfg.length - 1)][e] else 0.0)
  {
    var l := cfg.length - 1;
    if !first {
      assert Sum(w, e, l, l + i + 1) == Sum(w, e, l, l + i) + w[l + i][e];
      assert Sum(w, e, 0, i + 1) == Sum(w, e, 0, i) + w[i][e];
    } else {
      assert Sum(w, e, 0, i + 1) == Sum(w, e, 0, i) + w[i][e];
      if l <= i {
        assert Sum(w, e, 0, i - l + 1) == Sum(w, e, 0, i - l) + w[i - l][e];
      }
    }
  }

  class Averager {
    const cfg: Config
    const sum: array<real>

    ghost predicate Valid() reads this {
      cfg.Valid() && sum.Length == cfg.vlen
    }

    constructor (cfg: Config)
      requires cfg.Valid()
      ensures Valid() && this.cfg == cfg && fresh(sum)
      ensures Fresh(cfg, State(sum[..], 0, []))
    {
      this.cfg := cfg;
      sum := new real[cfg.vlen](e => 0.0);
    }

    /** Iteration i of the first call, over all elements of the item. */
    method FirstItem(input: seq<Item>, i: nat, out: array2<real>, ghost s0: seq<real>)
      requires Valid() && Rows(input, cfg.vlen) && i + cfg.length <= |input| && |s0| == cfg.vlen
      requires out.Length1 == cfg.vlen && i < out.Length0
      requires sum[..] == SumsAfter(cfg, true, input, s0, i)
      modifies sum, out
      ensures sum[..] == SumsAfter(cfg, true, input, s0, i + 1)
      ensures forall e :: 0 <= e < cfg.vlen ==> out[i, e] == OutputAt(cfg, true, input, e, s0[e], i)
      ensures forall k, e :: 0 <= k < out.Length0 && k != i && 0 <= e < cfg.vlen ==> out[k, e] == old(out[k, e])
    {
      for elem := 0 to cfg.vlen
        invariant forall e :: 0 <= e < elem ==> sum[e] == SumAfter(cfg, true, input, e, s0[e], i + 1)
        invariant forall e :: elem <= e < cfg.vlen ==> sum[e] == SumAfter(cfg, true, input, e, s0[e], i)
        invariant forall e :: 0 <= e < elem ==> out[i, e] == OutputAt(cfg, true, input, e, s0[e], i)
        invariant forall k, e :: 0 <= k < out.Length0 && k != i && 0 <= e < cfg.vlen ==> out[k, e] == old(out[k, e])
      {
        SumStep(cfg, true, input, elem, s0[elem], i);
        sum[elem] := sum[elem] + input[i][elem];
        out[i, elem] := Scaled(cfg, sum[elem]);
        assert out[i, elem] == OutputAt(cfg, true, input, elem, s0[elem], i);
        if i >= cfg.length - 1 {
          sum[elem] := sum[elem] - input[i - (cfg.length - 1)][elem];
        }
      }
    }

    /** Iteration i of a later call. */
    method SteadyItem(input: seq<Item>, i: nat, out: array2<real>, ghost s0: seq<real>)
      requires Valid() && Rows(input, cfg.vlen) && i + cfg.length <= |input| && |s0| == cfg.vlen
      requires out.Length1 == cfg.vlen && i < out.Length0
      requires sum[..] == SumsAfter(cfg, false, input, s0, i)
      modifies sum, out
      ensures sum[..] == SumsAfter(cfg, false, input, s0, i + 1)
      ensures forall e :: 0 <= e < cfg.vlen ==> out[i, e] == OutputAt(cfg, false, input, e, s0[e], i)
      ensures forall k, e :: 0 <= k < out.Length0 && k != i && 0 <= e < cfg.vlen ==> out[k, e] == old(out[k, e])
    {
      for elem := 0 to cfg.vlen
        invariant forall e :: 0 <= e < elem ==> sum[e] == SumAfter(cfg, false, input, e, s0[e], i + 1)
        invariant forall e :: elem <= e < cfg.vlen ==> sum[e] == SumAfter(cfg, false, input, e, s0[e], i)
        invariant forall e :: 0 <= e < elem ==> out[i, e] == OutputAt(cfg, false, input, e, s0[e], i)
        invariant forall k, e :: 0 <= k < out.Length0 && k != i && 0 <= e < cfg.vlen ==> out[k, e] == old(out[k, e])
      {
        SumStep(cfg, false, input, elem, s0[elem], i);
        sum[elem] := sum[elem] + input[i + cfg.length - 1][elem];
        out[i, elem] := Scaled(cfg, sum[elem]);
        assert out[i, elem] == OutputAt(cfg, false, input, elem, s0[elem], i);
        sum[elem] := sum[elem] - input[i][elem];
      }
    }

    /** The loop without history. */
    method FirstCall(input: seq<Item>, n: nat, out: array2<real>, ghost s0: seq<real>)
      requires Valid() && Rows(input, cfg.vlen) && (n == 0 || n + (cfg.length - 1) < |input|) && |s0| == cfg.vlen
      requires out.Length1 == cfg.vlen && n <= out.Length0 && sum[..] == s0
      modifies sum, out
      ensures sum[..] == SumsAfter(cfg, true, input, s0, n)
      ensures forall k, e :: 0 <= k < n && 0 <= e < cfg.vlen ==> out[k, e] == OutputAt(cfg, true, input, e, s0[e], k)
    {
      assert sum[..] == SumsAfter(cfg, true, input, s0, 0);
      for i := 0 to n
        invariant sum[..] == SumsAfter(cfg, true, input, s0, i)
        invariant forall k, e :: 0 <= k < i && 0 <= e < cfg.vlen ==>
                                   out[k, e] == OutputAt(cfg, true, input, e, s0[e], k)
      {
        FirstItem(input, i, out, s0);
      }
    }

    /** The loop with history. */
    method LaterCall(input: seq<Item>, n: nat, out: array2<real>, ghost s0: seq<real>)
      requires Valid() && Rows(input, cfg.vlen) && (n == 0 || n + (cfg.length - 1) < |input|) && |s0| == cfg.vlen
      requires out.Length1 == cfg.vlen && n <= out.Length0 && sum[..] == s0
      modifies sum, out
      ensures sum[..] == SumsAfter(cfg, false, input, s0, n)
      ensures forall k, e :: 0 <= k < n && 0 <= e < cfg.vlen ==> out[k, e] == OutputAt(cfg, false, input, e, s0[e], k)
    {
      assert sum[..] == SumsAfter(cfg, false, input, s0, 0);
      for i := 0 to n
        invariant sum[..] == SumsAfter(cfg, false, input, s0, i)
        invariant forall k, e :: 0 <= k < i && 0 <= e < cfg.vlen ==>
                                   out[k, e] == OutputAt(cfg, false, input, e, s0[e], k)
      {
        SteadyItem(input, i, out, s0);
      }
    }

    /** A call of work; s and x are the state of the run so far and the stream the input is cut from. */
    method Work(input: seq<Item>, totalRead: nat, out: array2<real>, ghost x: seq<Item>, ghost s: State)
      returns (code: Code, produced: nat, consumed: nat)
      requires Valid() && out.Length1 == cfg.vlen
      requires s.sum == sum[..] && s.pos == totalRead && Legal(cfg, x, s, Call(|input|, out.Length0))
      requires input == x[totalRead..totalRead + |input|]
      modifies sum, out
      ensures code == if |input| < cfg.length then InsufficientInput else Okay
      ensures var t := AfterWork(cfg, x, s, Call(|input|, out.Length0));
              && sum[..] == t.sum
              && totalRead + consumed == t.pos
              && |t.out| == |s.out| + produced && produced <= out.Length0 && s.out <= t.out
              && forall i, e :: 0 <= i < produced && 0 <= e < cfg.vlen ==> out[i, e] == t.out[|s.out| + i][e]
      ensures |input| < cfg.length ==> produced == consumed == 0
      ensures cfg.length <= |input| ==>
                && cfg.length + produced <= |input| && produced <= out.Length0 && produced <= cfg.maxIter
                && (cfg.length + produced == |input| || produced == out.Length0 || produced == cfg.maxIter)
                && consumed == if totalRead == 0 then (produced - (cfg.length - 1)) % UINT64_RANGE else produced
      ensures Correct(cfg, x, s.out) && Good(cfg, x, s) ==> WritesAverages(cfg, x, |s.out|, produced, out)
    {
      code, produced, consumed := Iterate(input, totalRead, out, x, s);
      RowsAreAverages(cfg, x, s, Call(|input|, out.Length0), out);
    }

    method Iterate(input: seq<Item>, totalRead: nat, out: array2<real>, ghost x: seq<Item>, ghost s: State)
      returns (code: Code, produced: nat, consumed: nat)
      requires Valid() && out.Length1 == cfg.vlen
      requires s.sum == sum[..] && s.pos == totalRead && Legal(cfg, x, s, Call(|input|, out.Length0))
      requires input == x[totalRead..totalRead + |input|]
      modifies sum, out
      ensures code == if |input| < cfg.length then InsufficientInput else Okay
      ensures var t := AfterWork(cfg, x, s, Call(|input|, out.Length0));
              && sum[..] == t.sum
              && totalRead + consumed == t.pos
              && |t.out| == |s.out| + produced && produced <= out.Length0 && s.out <= t.out
              && forall i, e :: 0 <= i < produced && 0 <= e < cfg.vlen ==> out[i, e] == t.out[|s.out| + i][e]
      ensures |input| < cfg.length ==> produced == consumed == 0
      ensures cfg.length <= |input| ==>
                && cfg.length + produced <= |input| && produced <= out.Length0 && produced <= cfg.maxIter
                && (cfg.length + produced == |input| || produced == out.Length0 || produced == cfg.maxIter)
                && consumed == if totalRead == 0 then (produced - (cfg.length - 1)) % UINT64_RANGE else produced
    {
      if |input| < cfg.length {
        return InsufficientInput, 0, 0;
      }
      var outputs := Min(|input| - cfg.length, out.Length0);
      var iterations := if outputs > cfg.maxIter then cfg.maxIter else outputs;
      ghost var c := Call(|input|, out.Length0);
      WorkRows(cfg, x, s, c, totalRead == 0, input);
      if totalRead == 0 {
        FirstCall(input, iterations, out, s.sum);
      } else {
        LaterCall(input, iterations, out, s.sum);
      }
      produced := iterations;
      consumed := if totalRead == 0 then (iterations - (cfg.length - 1)) % UINT64_RANGE else iterations;
      code := Okay;
    }
  }
}
