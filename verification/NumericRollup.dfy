/** Numeric rollups: raw samples summarised per block, and block summaries pooled. Floating point is
    modelled by exact reals; the standard deviation is carried as its square, the population variance,
    because the code squares it again wherever it is read. */
module NumericRollup {
  import opened Common

  datatype Field = Field(t: int, v: real)

  datatype Item = Item(
    firstTime: int, firstValue: real, lastTime: int, lastValue: real,
    minTime: int, minValue: real, maxTime: int, maxValue: real,
    avg: real, sum: real, variance: real, goodCnt: int, badCnt: int, uncertainCnt: int)

  // ---------- what a summary says ----------

  function Sum(d: seq<Field>): real {
    if d == [] then 0.0 else Sum(d[..|d| - 1]) + d[|d| - 1].v
  }

  /** Sum of squared distances from `m`. */
  function SumSq(d: seq<Field>, m: real): real {
    if d == [] then 0.0 else SumSq(d[..|d| - 1], m) + (d[|d| - 1].v - m) * (d[|d| - 1].v - m)
  }

  /** Index of the smallest value, the earliest one if there are several. */
  function MinAt(d: seq<Field>): (m: nat)
    requires d != []
    ensures m < |d|
  {
    var n := |d| - 1;
    if n == 0 then 0
    else
      var m := MinAt(d[..n]);
      if d[n].v < d[m].v then n else m
  }

  lemma {:induction false} MinAtIs(d: seq<Field>)
    requires d != []
    ensures forall k :: 0 <= k < |d| ==> d[MinAt(d)].v <= d[k].v
    ensures forall k :: 0 <= k < MinAt(d) ==> d[MinAt(d)].v < d[k].v
  {
    var n := |d| - 1;
    if n > 0 {
      MinAtIs(d[..n]);
      assert forall k :: 0 <= k < n ==> d[..n][k] == d[k];
    }
  }

  /** Index of the largest value, the earliest one if there are several. */
  function MaxAt(d: seq<Field>): (m: nat)
    requires d != []
    ensures m < |d|
  {
    var n := |d| - 1;
    if n == 0 then 0
    else
      var m := MaxAt(d[..n]);
      if d[n].v > d[m].v then n else m
  }

  lemma {:induction false} MaxAtIs(d: seq<Field>)
    requires d != []
    ensures forall k :: 0 <= k < |d| ==> d[MaxAt(d)].v >= d[k].v
    ensures forall k :: 0 <= k < MaxAt(d) ==> d[MaxAt(d)].v > d[k].v
  {
    var n := |d| - 1;
    if n > 0 {
      MaxAtIs(d[..n]);
      assert forall k :: 0 <= k < n ==> d[..n][k] == d[k];
    }
  }

  function Mean(d: seq<Field>): real
    requires d != []
  {
    Sum(d) / (|d| as real)
  }

  function Summary(d: seq<Field>): Item
    requires d != []
  {
    var last, lo, hi := d[|d| - 1], d[MinAt(d)], d[MaxAt(d)];
    Item(d[0].t, d[0].v, last.t, last.v, lo.t, lo.v, hi.t, hi.v,
         Mean(d), Sum(d), SumSq(d, Mean(d)) / (|d| as real), |d|, 0, 0)
  }

  // ---------- joining two runs of samples ----------

  lemma {:induction false} SumConcat(a: seq<Field>, c: seq<Field>)
    ensures Sum(a + c) == Sum(a) + Sum(c)
  {
    if c == [] { assert a + c == a; }
    else {
      assert (a + c)[..|a + c| - 1] == a + c[..|c| - 1];
      SumConcat(a, c[..|c| - 1]);
    }
  }

  lemma {:induction false} SumSqConcat(a: seq<Field>, c: seq<Field>, m: real)
    ensures SumSq(a + c, m) == SumSq(a, m) + SumSq(c, m)
  {
    if c == [] { assert a + c == a; }
    else {
      assert (a + c)[..|a + c| - 1] == a + c[..|c| - 1];
      SumSqConcat(a, c[..|c| - 1], m);
    }
  }

  lemma {:induction false} MinAtConcat(a: seq<Field>, c: seq<Field>)
    requires a != [] && c != []
    ensures (a + c)[MinAt(a + c)] == if c[MinAt(c)].v < a[MinAt(a)].v then c[MinAt(c)] else a[MinAt(a)]
  {
    var d := a + c;
    var m := MinAt(d);
    MinAtIs(a);
    MinAtIs(c);
    MinAtIs(d);
    hide MinAt;
    if m < |a| {
      assert d[m] == a[m];
      assert d[|a| + MinAt(c)] == c[MinAt(c)];
      assert d[MinAt(a)] == a[MinAt(a)];
      assert m == MinAt(a);
    } else {
      var j := m - |a|;
      assert d[m] == c[j];
      assert d[MinAt(a)] == a[MinAt(a)];
      assert d[|a| + MinAt(c)] == c[MinAt(c)];
      assert j == MinAt(c);
    }
  }

  lemma {:induction false} MaxAtConcat(a: seq<Field>, c: seq<Field>)
    requires a != [] && c != []
    ensures (a + c)[MaxAt(a + c)] == if c[MaxAt(c)].v > a[MaxAt(a)].v then c[MaxAt(c)] else a[MaxAt(a)]
  {
    var d := a + c;
    var m := MaxAt(d);
    MaxAtIs(a);
    MaxAtIs(c);
    MaxAtIs(d);
    hide MaxAt;
    if m < |a| {
      assert d[m] == a[m];
      assert d[|a| + MaxAt(c)] == c[MaxAt(c)];
      assert d[MaxAt(a)] == a[MaxAt(a)];
      assert m == MaxAt(a);
    } else {
      var j := m - |a|;
      assert d[m] == c[j];
      assert d[MaxAt(a)] == a[MaxAt(a)];
      assert d[|a| + MaxAt(c)] == c[MaxAt(c)];
      assert j == MaxAt(c);
    }
  }

  // ---------- pooled variance ----------

  function Squares(d: seq<Field>): real {
    if d == [] then 0.0 else Squares(d[..|d| - 1]) + d[|d| - 1].v * d[|d| - 1].v
  }

  lemma {:induction false} SumSqExpands(d: seq<Field>, m: real)
    ensures SumSq(d, m) == Squares(d) - 2.0 * m * Sum(d) + (|d| as real) * m * m
  {
    if d != [] {
      var e, x := d[..|d| - 1], d[|d| - 1].v;
      SumSqExpands(e, m);
      ExpandStep(SumSq(e, m), Squares(e), Sum(e), |e| as real, |d| as real, x, m, SumSq(d, m), Squares(d), Sum(d));
    }
  }

  lemma ExpandStep(sq: real, q: real, s: real, n: real, n': real, x: real, m: real, sq': real, q': real, s': real)
    requires sq == q - 2.0 * m * s + n * m * m
    requires n' == n + 1.0 && q' == q + x * x && s' == s + x && sq' == sq + (x - m) * (x - m)
    ensures sq' == q' - 2.0 * m * s' + n' * m * m
  {
  }

  /** The spread around `m` of `n` values with a given variance and average. */
  function Moment(n: real, variance: real, average: real, m: real): real {
    n * (variance + (average - m) * (average - m))
  }

  /** Distances from any point split into the spread around the mean and the distance of the mean. */
  lemma {:induction false} Spread(d: seq<Field>, m: real)
    requires d != []
    ensures SumSq(d, m) == Moment(|d| as real, SumSq(d, Mean(d)) / (|d| as real), Mean(d), m)
  {
    hide Moment, SumSq, Squares, Sum, Mean;
    var n, a, s := |d| as real, Mean(d), Sum(d);
    SumSqExpands(d, m);
    SumSqExpands(d, a);
    MeanIs(d);
    SpreadAlgebra(n, a, m, s, Squares(d), SumSq(d, m), SumSq(d, a));
  }

  lemma MeanIs(d: seq<Field>)
    requires d != []
    ensures Mean(d) == Sum(d) / (|d| as real)
  {
  }

  lemma SpreadAlgebra(n: real, a: real, m: real, s: real, q: real, at: real, around: real)
    requires n > 0.0 && a == s / n
    requires at == q - 2.0 * m * s + n * m * m && around == q - 2.0 * a * s + n * a * a
    ensures at == Moment(n, around / n, a, m)
  {
    assert s == n * a;
    assert n * (around / n) == around;
    assert n * ((a - m) * (a - m)) == n * a * a - 2.0 * m * (n * a) + n * m * m;
    assert n * (around / n + (a - m) * (a - m)) == n * (around / n) + n * ((a - m) * (a - m));
  }

  // ---------- aggregateNumeric ----------

  method SquaredDistances(data: seq<Field>, mean: real) returns (sq: real)
    ensures sq == SumSq(data, mean)
  {
    sq := 0.0;
    var i := 0;
    while i < |data|
      invariant 0 <= i <= |data| && sq == SumSq(data[..i], mean)
    {
      assert data[..i + 1][..i] == data[..i];
      sq := sq + (data[i].v - mean) * (data[i].v - mean);
      i := i + 1;
    }
    assert data[..i] == data;
  }

  method Scan(data: seq<Field>) returns (sum: real, minIndex: nat, maxIndex: nat)
    requires data != []
    ensures sum == Sum(data) && minIndex == MinAt(data) && maxIndex == MaxAt(data)
  {
    sum, minIndex, maxIndex := 0.0, 0, 0;
    var minValue, maxValue := data[0].v, data[0].v;
    var i := 0;
    while i < |data|
      invariant 0 <= i <= |data| && sum == Sum(data[..i])
      invariant 0 <= minIndex < |data| && 0 <= maxIndex < |data|
      invariant minValue == data[minIndex].v && maxValue == data[maxIndex].v
      invariant i == 0 ==> minIndex == 0 && maxIndex == 0
      invariant i > 0 ==> minIndex == MinAt(data[..i]) && maxIndex == MaxAt(data[..i])
    {
      var v := data[i].v;
      assert data[..i + 1][..i] == data[..i];
      if v < minValue {
        minValue := v;
        minIndex := i;
      }
      if v > maxValue {
        maxValue := v;
        maxIndex := i;
      }
      sum := sum + v;
      i := i + 1;
    }
    assert data[..i] == data;
  }

  method AggregateNumeric(data: seq<Field>) returns (r: Option<Item>)
    ensures r == if data == [] then None else Some(Summary(data))
  {
    if |data| == 0 { return None; }
    hide Sum, MinAt, MaxAt, SumSq;
    var cnt := |data|;
    var sum, minIndex, maxIndex := Scan(data);
    var mean := sum / (cnt as real);
    var sq := SquaredDistances(data, mean);
    r := Some(Item(data[0].t, data[0].v, data[cnt - 1].t, data[cnt - 1].v,
                   data[minIndex].t, data[minIndex].v, data[maxIndex].t, data[maxIndex].v,
                   mean, sum, sq / (cnt as real), cnt, 0, 0));
  }

  // ---------- rollupNumeric ----------

  function Weight(i: Item): int { i.goodCnt + i.badCnt + i.uncertainCnt }

  function TotalSum(xs: seq<Item>): real {
    if xs == [] then 0.0 else TotalSum(xs[..|xs| - 1]) + xs[|xs| - 1].sum
  }

  datatype Counts = Counts(good: int, bad: int, uncertain: int)

  function TotalCounts(xs: seq<Item>): Counts {
    if xs == [] then Counts(0, 0, 0)
    else
      var c, x := TotalCounts(xs[..|xs| - 1]), xs[|xs| - 1];
      Counts(c.good + x.goodCnt, c.bad + x.badCnt, c.uncertain + x.uncertainCnt)
  }

  /** Weighted spread of one block around `m`: within the block, and of its average. */
  function BlockSq(x: Item, m: real): real {
    Moment(Weight(x) as real, x.variance, x.avg, m)
  }

  function PooledSq(xs: seq<Item>, m: real): real {
    if xs == [] then 0.0
    else
      PooledSq(xs[..|xs| - 1], m) + BlockSq(xs[|xs| - 1], m)
  }

  function MinItem(xs: seq<Item>): (m: nat)
    requires xs != []
    ensures m < |xs|
  {
    var n := |xs| - 1;
    if n == 0 then 0
    else
      var m := MinItem(xs[..n]);
      if xs[n].minValue < xs[m].minValue then n else m
  }

  function MaxItem(xs: seq<Item>): (m: nat)
    requires xs != []
    ensures m < |xs|
  {
    var n := |xs| - 1;
    if n == 0 then 0
    else
      var m := MaxItem(xs[..n]);
      if xs[n].maxValue > xs[m].maxValue then n else m
  }

  function Total(xs: seq<Item>): int {
    TotalCounts(xs).good + TotalCounts(xs).bad + TotalCounts(xs).uncertain
  }

  function Pooled(xs: seq<Item>): Item
    requires xs != [] && Total(xs) > 0
  {
    var c, n := TotalCounts(xs), Total(xs) as real;
    var lo, hi, last := xs[MinItem(xs)], xs[MaxItem(xs)], xs[|xs| - 1];
    var mean := TotalSum(xs) / n;
    Item(xs[0].firstTime, xs[0].firstValue, last.lastTime, last.lastValue,
         lo.minTime, lo.minValue, hi.maxTime, hi.maxValue,
         mean, TotalSum(xs), PooledSq(xs, mean) / n, c.good, c.bad, c.uncertain)
  }

  method PooledDistances(items: seq<Item>, mean: real) returns (sq: real)
    ensures sq == PooledSq(items, mean)
  {
    sq := 0.0;
    var i := 0;
    while i < |items|
      invariant 0 <= i <= |items| && sq == PooledSq(items[..i], mean)
    {
      var f := items[i];
      assert items[..i + 1][..i] == items[..i];
      sq := sq + ((f.goodCnt + f.badCnt + f.uncertainCnt) as real) * (f.variance + (f.avg - mean) * (f.avg - mean));
      i := i + 1;
    }
    assert items[..i] == items;
  }

  method RollupNumeric(items: seq<Item>) returns (r: Option<Item>)
    requires items != [] ==> Total(items) > 0
    ensures r == if items == [] then None else Some(Pooled(items))
  {
    if |items| == 0 { return None; }
    var cnt := |items|;
    var sum, good, bad, uncertain := 0.0, 0, 0, 0;
    var minValue, maxValue, minIndex, maxIndex := items[0].minValue, items[0].maxValue, 0, 0;
    var i := 0;
    while i < cnt
      invariant 0 <= i <= cnt && 0 <= minIndex < cnt && 0 <= maxIndex < cnt
      invariant sum == TotalSum(items[..i]) && Counts(good, bad, uncertain) == TotalCounts(items[..i])
      invariant minValue == items[minIndex].minValue && maxValue == items[maxIndex].maxValue
      invariant i == 0 ==> minIndex == 0 && maxIndex == 0
      invariant i > 0 ==> minIndex == MinItem(items[..i]) && maxIndex == MaxItem(items[..i])
    {
      var f := items[i];
      assert items[..i + 1][..i] == items[..i];
      if f.minValue < minValue {
        minValue := f.minValue;
        minIndex := i;
      }
      if f.maxValue > maxValue {
        maxValue := f.maxValue;
        maxIndex := i;
      }
      sum := sum + f.sum;
      good := good + f.goodCnt;
      bad := bad + f.badCnt;
      uncertain := uncertain + f.uncertainCnt;
      i := i + 1;
    }
    assert items[..cnt] == items;
    var total := (good + bad + uncertain) as real;
    var mean := sum / total;
    var sq := PooledDistances(items, mean);
    r := Some(Item(items[0].firstTime, items[0].firstValue, items[cnt - 1].lastTime, items[cnt - 1].lastValue,
                   items[minIndex].minTime, items[minIndex].minValue, items[maxIndex].maxTime, items[maxIndex].maxValue,
                   mean, sum, sq / total, good, bad, uncertain));
  }

  // ---------- pooling summaries equals summarising the samples ----------

  function Samples(bs: seq<seq<Field>>): seq<Field> {
    if bs == [] then [] else Samples(bs[..|bs| - 1]) + bs[|bs| - 1]
  }

  /** What the lower level stores for blocks that have samples. */
  function Summaries(bs: seq<seq<Field>>): (xs: seq<Item>)
    requires forall k :: 0 <= k < |bs| ==> bs[k] != []
    ensures |xs| == |bs| && forall k :: 0 <= k < |bs| ==> xs[k] == Summary(bs[k])
  {
    seq(|bs|, k requires 0 <= k < |bs| => Summary(bs[k]))
  }

  lemma {:induction false} PooledTotals(bs: seq<seq<Field>>)
    requires forall k :: 0 <= k < |bs| ==> bs[k] != []
    ensures var xs, d := Summaries(bs), Samples(bs);
            TotalSum(xs) == Sum(d) && TotalCounts(xs) == Counts(|d|, 0, 0)
  {
    hide SumSq, Mean, MinAt, MaxAt;
    if bs != [] {
      var n := |bs| - 1;
      PooledTotals(bs[..n]);
      assert Summaries(bs)[..n] == Summaries(bs[..n]);
      SumConcat(Samples(bs[..n]), bs[n]);
    }
  }

  lemma {:induction false} BlockSpread(b: seq<Field>, m: real)
    requires b != []
    ensures BlockSq(Summary(b), m) == SumSq(b, m)
  {
    hide Moment, Sum, SumSq, MinAt, MaxAt, Mean;
    Spread(b, m);
    assert Weight(Summary(b)) == |b|;
  }

  lemma {:induction false} PooledSpread(bs: seq<seq<Field>>, m: real)
    requires forall k :: 0 <= k < |bs| ==> bs[k] != []
    ensures PooledSq(Summaries(bs), m) == SumSq(Samples(bs), m)
  {
    if bs != [] {
      var n := |bs| - 1;
      PooledSpread(bs[..n], m);
      assert Summaries(bs)[..n] == Summaries(bs[..n]);
      SumSqConcat(Samples(bs[..n]), bs[n], m);
      BlockSpread(bs[n], m);
      hide SumSq, Summary, BlockSq;
    }
  }

  lemma {:induction false} PooledEnds(bs: seq<seq<Field>>)
    requires bs != [] && forall k :: 0 <= k < |bs| ==> bs[k] != []
    ensures var d, last := Samples(bs), bs[|bs| - 1];
            d != [] && d[0] == bs[0][0] && d[|d| - 1] == last[|last| - 1]
  {
    if |bs| == 1 { assert Samples(bs[..0]) == []; } else { PooledEnds(bs[..|bs| - 1]); }
  }

  lemma {:induction false} PooledMin(bs: seq<seq<Field>>)
    requires bs != [] && forall k :: 0 <= k < |bs| ==> bs[k] != []
    ensures var xs, d := Summaries(bs), Samples(bs);
            d != [] && xs[MinItem(xs)].minTime == d[MinAt(d)].t && xs[MinItem(xs)].minValue == d[MinAt(d)].v
  {
    hide Mean, Sum, SumSq, MinAt, MaxAt;
    PooledEnds(bs);
    var n := |bs| - 1;
    var xs := Summaries(bs);
    if n == 0 {
      assert Samples(bs[..0]) == [];
      assert Samples(bs) == bs[0];
    } else {
      PooledEnds(bs[..n]);
      PooledMin(bs[..n]);
      assert xs[..n] == Summaries(bs[..n]);
      MinAtConcat(Samples(bs[..n]), bs[n]);
    }
  }

  lemma {:induction false} PooledMax(bs: seq<seq<Field>>)
    requires bs != [] && forall k :: 0 <= k < |bs| ==> bs[k] != []
    ensures var xs, d := Summaries(bs), Samples(bs);
            d != [] && xs[MaxItem(xs)].maxTime == d[MaxAt(d)].t && xs[MaxItem(xs)].maxValue == d[MaxAt(d)].v
  {
    hide Mean, Sum, SumSq, MinAt, MaxAt;
    PooledEnds(bs);
    var n := |bs| - 1;
    var xs := Summaries(bs);
    if n == 0 {
      assert Samples(bs[..0]) == [];
      assert Samples(bs) == bs[0];
    } else {
      PooledEnds(bs[..n]);
      PooledMax(bs[..n]);
      assert xs[..n] == Summaries(bs[..n]);
      MaxAtConcat(Samples(bs[..n]), bs[n]);
    }
  }

  /** Pooling the stored summaries of the non-empty blocks gives exactly the summary of all samples:
      ends, extremes with their earliest times, sum, count, average and population variance. */
  lemma {:induction false} RollupIsExact(bs: seq<seq<Field>>)
    requires bs != [] && forall k :: 0 <= k < |bs| ==> bs[k] != []
    ensures Samples(bs) != [] && Total(Summaries(bs)) > 0
    ensures Pooled(Summaries(bs)) == Summary(Samples(bs))
  {
    hide TotalSum, TotalCounts, PooledSq, MinItem, MaxItem, Sum, SumSq, MinAt, MaxAt, Samples;
    PooledTotals(bs);
    PooledEnds(bs);
    PooledMin(bs);
    PooledMax(bs);
    PooledSpread(bs, Mean(Samples(bs)));
  }

  function Flattened(hs: seq<seq<seq<Field>>>): (bs: seq<seq<Field>>)
    ensures |bs| == |hs| && forall k :: 0 <= k < |hs| ==> bs[k] == Samples(hs[k])
  {
    seq(|hs|, k requires 0 <= k < |hs| => Samples(hs[k]))
  }

  predicate WellFormedHour(h: seq<seq<Field>>) {
    h != [] && forall k :: 0 <= k < |h| ==> h[k] != []
  }

  /** What the second level stores for an hour, computed from the stored minutes. */
  function PooledHour(h: seq<seq<Field>>): Item
    requires WellFormedHour(h)
  {
    RollupIsExact(h);
    Pooled(Summaries(h))
  }

  /** Minutes into hours into a day: two levels of pooling still give the summary of the raw samples. */
  lemma {:induction false} TwoLevelsExact(hs: seq<seq<seq<Field>>>)
    requires hs != [] && forall k :: 0 <= k < |hs| ==> WellFormedHour(hs[k])
    ensures var xs := seq(|hs|, k requires 0 <= k < |hs| => PooledHour(hs[k]));
            var d := Samples(Flattened(hs));
            d != [] && Total(xs) > 0 && Pooled(xs) == Summary(d)
  {
    hide Summary, Pooled;
    var bs := Flattened(hs);
    var xs := seq(|hs|, k requires 0 <= k < |hs| => PooledHour(hs[k]));
    forall k | 0 <= k < |hs| ensures bs[k] != [] && xs[k] == Summary(bs[k]) {
      RollupIsExact(hs[k]);
    }
    assert xs == Summaries(bs);
    RollupIsExact(bs);
  }
}
