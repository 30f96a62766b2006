/** `rate`, `increase` and `delta`: the change over the samples of a window, extrapolated towards the
    edges of the window. Times are whole milliseconds, values are real numbers. */
module RateExtrapolation {
  import opened Common

  function Seconds(ms: int): real { ms as real / 1000.0 }

  // ---------- the change over the samples ----------

  /** What one step adds to a counter: after a reset it starts again from zero. */
  function Step(before: real, after: real): real { if after < before then after else after - before }

  /** The sum of the steps. */
  function Steps(ps: seq<Point>): real {
    if |ps| < 2 then 0.0
    else Steps(ps[..|ps| - 1]) + Step(ps[|ps| - 2].v, ps[|ps| - 1].v)
  }

  function Change(ps: seq<Point>, isCounter: bool): real
    requires |ps| >= 2
  {
    if isCounter then Steps(ps) else ps[|ps| - 1].v - ps[0].v
  }

  /** The counted change: the plain difference, plus the value lost at every reset. */
  method RawChange(ps: seq<Point>, isCounter: bool) returns (r: real)
    requires |ps| >= 2
    ensures r == Change(ps, isCounter)
  {
    r := ps[|ps| - 1].v - ps[0].v;
    if isCounter {
      ghost var gap := r;
      var last := 0.0;
      var i := 0;
      while i < |ps|
        invariant 0 <= i <= |ps|
        invariant i == 0 ==> last == 0.0 && r == gap
        invariant i > 0 ==> last == ps[i - 1].v && r - gap == Steps(ps[..i]) - (ps[i - 1].v - ps[0].v)
      {
        assert i > 0 ==> ps[..i + 1][..i] == ps[..i];
        if ps[i].v < last { r := r + last; }
        last := ps[i].v;
        i := i + 1;
      }
      assert ps[..i] == ps;
    }
  }

  /** A counter that is never negative never counts backwards, and counts every value it reaches. */
  lemma {:induction false} StepsNonNegative(ps: seq<Point>)
    requires forall i :: 0 <= i < |ps| ==> ps[i].v >= 0.0
    ensures Steps(ps) >= 0.0
    ensures |ps| >= 2 ==> Steps(ps) >= ps[|ps| - 1].v - ps[0].v
  {
    if |ps| >= 2 { StepsNonNegative(ps[..|ps| - 1]); }
  }

  /** Without resets the counted change is the plain difference. */
  lemma {:induction false} StepsWithoutReset(ps: seq<Point>)
    requires |ps| >= 1 && forall i :: 0 < i < |ps| ==> ps[i - 1].v <= ps[i].v
    ensures Steps(ps) == ps[|ps| - 1].v - ps[0].v
  {
    if |ps| >= 2 { StepsWithoutReset(ps[..|ps| - 1]); }
  }

  /** Counting can be split at any sample. */
  lemma {:induction false} StepsSplit(a: seq<Point>, p: Point, b: seq<Point>)
    ensures Steps(a + [p] + b) == Steps(a + [p]) + Steps([p] + b)
    decreases |b|
  {
    var all := a + [p] + b;
    if b == [] {
      assert all == a + [p];
      assert [p] + b == [p];
    } else {
      var c := b[..|b| - 1];
      StepsSplit(a, p, c);
      assert all[..|all| - 1] == a + [p] + c;
      assert ([p] + b)[..|b|] == [p] + c;
      assert ([p] + b)[|b| - 1] == all[|all| - 2];
    }
  }

  // ---------- the extrapolated interval ----------

  /** How far to extend over an edge at distance `gap`. */
  function Extension(gap: real, average: real): real {
    if gap < average * 1.1 then gap else average / 2.0
  }

  /** The seconds until a counter with this slope would have been zero. */
  function ToZero(sampled: real, first: real, change: real): real
    requires change > 0.0
  {
    sampled * (first / change)
  }

  function Sampled(ps: seq<Point>): real
    requires |ps| >= 2
  {
    Seconds(ps[|ps| - 1].t - ps[0].t)
  }

  function Average(ps: seq<Point>): real
    requires |ps| >= 2
  {
    Sampled(ps) / ((|ps| - 1) as real)
  }

  function StartGap(ps: seq<Point>, rangeStart: int, isCounter: bool): real
    requires |ps| >= 2
  {
    var gap := Seconds(ps[0].t - rangeStart);
    var change := Change(ps, isCounter);
    if isCounter && change > 0.0 && ps[0].v >= 0.0 && ToZero(Sampled(ps), ps[0].v, change) < gap then
      ToZero(Sampled(ps), ps[0].v, change)
    else gap
  }

  function Backward(ps: seq<Point>, rangeStart: int, isCounter: bool): real
    requires |ps| >= 2
  {
    Extension(StartGap(ps, rangeStart, isCounter), Average(ps))
  }

  function Forward(ps: seq<Point>, rangeEnd: int): real
    requires |ps| >= 2
  {
    Extension(Seconds(rangeEnd - ps[|ps| - 1].t), Average(ps))
  }

  function Interval(ps: seq<Point>, rangeStart: int, rangeEnd: int, isCounter: bool): real
    requires |ps| >= 2
  {
    Sampled(ps) + Backward(ps, rangeStart, isCounter) + Forward(ps, rangeEnd)
  }

  lemma SampledPositive(ps: seq<Point>)
    requires |ps| >= 2 && InOrder(ps)
    ensures Sampled(ps) > 0.0 && Average(ps) > 0.0
  {
    assert ps[0].t < ps[|ps| - 1].t;
    QuotientPositive(Sampled(ps), (|ps| - 1) as real);
  }

  lemma QuotientPositive(a: real, b: real)
    requires a > 0.0 && b > 0.0
    ensures a / b > 0.0
  {
  }

  method ExtrapolateToInterval(ps: seq<Point>, rangeStart: int, rangeEnd: int, isCounter: bool, change: real) returns (interval: real)
    requires |ps| >= 2 && change == Change(ps, isCounter)
    ensures interval == Interval(ps, rangeStart, rangeEnd, isCounter)
  {
    hide Change, Seconds;
    var toStart := Seconds(ps[0].t - rangeStart);
    var toEnd := Seconds(rangeEnd - ps[|ps| - 1].t);
    var sampled := Seconds(ps[|ps| - 1].t - ps[0].t);
    var average := sampled / ((|ps| - 1) as real);
    assert sampled == Sampled(ps) && average == Average(ps);
    hide Sampled, Average;
    if isCounter && change > 0.0 && ps[0].v >= 0.0 {
      var toZero := sampled * (ps[0].v / change);
      assert toZero == ToZero(sampled, ps[0].v, change);
      hide ToZero;
      if toZero < toStart { toStart := toZero; }
    }
    assert toStart == StartGap(ps, rangeStart, isCounter);
    hide StartGap;
    var threshold := average * 1.1;
    interval := sampled;
    if toStart < threshold { interval := interval + toStart; } else { interval := interval + average / 2.0; }
    if toEnd < threshold { interval := interval + toEnd; } else { interval := interval + average / 2.0; }
  }

  /** The change, grown from the sampled to the extrapolated interval. */
  function Grown(change: real, interval: real, sampled: real): real
    requires sampled > 0.0
  {
    change * (interval / sampled)
  }

  function Rated(value: real, seconds: real, isRate: bool): real
    requires seconds > 0.0
  {
    if isRate then value / seconds else value
  }

  lemma PositiveSeconds(ms: int)
    requires ms > 0
    ensures Seconds(ms) > 0.0
  {
  }

  /** The extrapolated change over the window that ends at `ts - offset`. */
  function Extrapolated(ps: seq<Point>, ts: int, range: int, offset: int, isCounter: bool, isRate: bool): real
    requires |ps| >= 2 && InOrder(ps) && range > 0
  {
    SampledPositive(ps);
    PositiveSeconds(range);
    Rated(Grown(Change(ps, isCounter), Interval(ps, ts - range - offset, ts - offset, isCounter), Sampled(ps)), Seconds(range), isRate)
  }

  /** The result for one series; a window with fewer than two samples has none. */
  method ExtrapolatedRate(ps: seq<Point>, ts: int, range: int, offset: int, isCounter: bool, isRate: bool) returns (r: Option<real>)
    requires InOrder(ps) && range > 0
    ensures r == if |ps| < 2 then None else Some(Extrapolated(ps, ts, range, offset, isCounter, isRate))
  {
    if |ps| < 2 { return None; }
    PositiveSeconds(range);
    SampledPositive(ps);
    hide Change, Interval, Sampled, Seconds;
    var rangeStart, rangeEnd := ts - (range + offset), ts - offset;
    assert rangeStart == ts - range - offset;
    var change := RawChange(ps, isCounter);
    var interval := ExtrapolateToInterval(ps, rangeStart, rangeEnd, isCounter, change);
    var sampled := Sampled(ps);
    var value := change * (interval / sampled);
    assert value == Grown(change, interval, sampled);
    hide Grown;
    if isRate { value := value / Seconds(range); }
    r := Some(value);
  }

  // ---------- the result in numbers ----------

  /** What an edge at distance `gap` adds, for samples that are `spacing` apart on average: all of it if
      that is below 1.1 spacings, and half a spacing otherwise. */
  ghost predicate Adds(x: real, gap: real, spacing: real) {
    (gap < 1.1 * spacing ==> x == gap) && (gap >= 1.1 * spacing ==> 2.0 * x == spacing)
  }

  /** The milliseconds to the start of the window or, if that is nearer, to where a rising counter was zero. */
  ghost predicate ReachesBack(x: real, ps: seq<Point>, rangeStart: int, isCounter: bool)
    requires |ps| >= 2
  {
    var gap, sampled, change := (ps[0].t - rangeStart) as real, (ps[|ps| - 1].t - ps[0].t) as real, Change(ps, isCounter);
    var short := isCounter && change > 0.0 && 0.0 <= ps[0].v && ps[0].v * sampled < gap * change;
    (short ==> x * change == ps[0].v * sampled) && (!short ==> x == gap)
  }

  lemma Millis(ms: int)
    ensures Seconds(ms) * 1000.0 == ms as real
  {
  }

  lemma MilliSpan(ps: seq<Point>)
    requires |ps| >= 2 && InOrder(ps)
    ensures Sampled(ps) * 1000.0 == (ps[|ps| - 1].t - ps[0].t) as real
    ensures Average(ps) * 1000.0 == (ps[|ps| - 1].t - ps[0].t) as real / ((|ps| - 1) as real)
  {
    Millis(ps[|ps| - 1].t - ps[0].t);
    hide Seconds;
    ScaleQuotient(Sampled(ps), (|ps| - 1) as real);
  }

  lemma ScaleQuotient(a: real, n: real)
    requires n > 0.0
    ensures a / n * 1000.0 == (a * 1000.0) / n
  {
  }

  lemma MilliExtension(gap: real, average: real)
    ensures Adds(Extension(gap, average) * 1000.0, gap * 1000.0, average * 1000.0)
  {
  }

  lemma {:induction false} MilliZero(sampled: real, first: real, change: real, gap: real)
    requires change > 0.0
    ensures ToZero(sampled, first, change) * 1000.0 * change == first * (sampled * 1000.0)
    ensures ToZero(sampled, first, change) < gap <==> first * (sampled * 1000.0) < gap * 1000.0 * change
  {
    var z, x := ToZero(sampled, first, change), first / change;
    assert x * change == first;
    assert z * change == sampled * (x * change);
    ProductOrder(change, z, gap);
  }

  lemma ProductOrder(k: real, a: real, b: real)
    requires k > 0.0
    ensures a * k < b * k <==> a < b
  {
    if a < b { assert (b - a) * k > 0.0; } else { assert (a - b) * k >= 0.0; }
  }

  lemma {:induction false} MilliStart(ps: seq<Point>, rangeStart: int, isCounter: bool)
    requires |ps| >= 2 && InOrder(ps)
    ensures ReachesBack(StartGap(ps, rangeStart, isCounter) * 1000.0, ps, rangeStart, isCounter)
  {
    hide Change, ToZero, Sampled, Average, Seconds;
    MilliSpan(ps);
    Millis(ps[0].t - rangeStart);
    var change, gap := Change(ps, isCounter), Seconds(ps[0].t - rangeStart);
    if change > 0.0 { MilliZero(Sampled(ps), ps[0].v, change, gap); }
  }

  /** The change over the samples grows in proportion from their time span to that span and what each edge
      of the window adds. */
  lemma {:induction false} GrowsWithInterval(ps: seq<Point>, ts: int, range: int, offset: int, isCounter: bool)
    returns (back: real, left: real, right: real)
    requires |ps| >= 2 && InOrder(ps) && range > 0
    ensures var sampled := (ps[|ps| - 1].t - ps[0].t) as real;
            var spacing := sampled / ((|ps| - 1) as real);
            && ReachesBack(back, ps, ts - offset - range, isCounter)
            && Adds(left, back, spacing) && Adds(right, (ts - offset - ps[|ps| - 1].t) as real, spacing)
            && Extrapolated(ps, ts, range, offset, isCounter, false) * sampled == Change(ps, isCounter) * (sampled + left + right)
  {
    hide Change, Sampled, Average, StartGap, Seconds, Grown, Extension;
    var rangeStart, rangeEnd := ts - range - offset, ts - offset;
    MilliSpan(ps);
    MilliStart(ps, rangeStart, isCounter);
    Millis(rangeEnd - ps[|ps| - 1].t);
    SampledPositive(ps);
    back := StartGap(ps, rangeStart, isCounter) * 1000.0;
    left := Backward(ps, rangeStart, isCounter) * 1000.0;
    right := Forward(ps, rangeEnd) * 1000.0;
    MilliExtension(StartGap(ps, rangeStart, isCounter), Average(ps));
    MilliExtension(Seconds(rangeEnd - ps[|ps| - 1].t), Average(ps));
    GrownProduct(Change(ps, isCounter), Interval(ps, rangeStart, rangeEnd, isCounter), Sampled(ps));
  }

  lemma GrownProduct(change: real, interval: real, sampled: real)
    requires sampled > 0.0
    ensures Grown(change, interval, sampled) * (sampled * 1000.0) == change * (interval * 1000.0)
  {
    var x := interval / sampled;
    assert x * sampled == interval;
    assert change * x * (sampled * 1000.0) == change * (x * sampled * 1000.0);
  }

  /** A rate is per second: over the whole window, whose length is in milliseconds, it makes the increase. */
  lemma {:induction false} RateIsPerSecond(ps: seq<Point>, ts: int, range: int, offset: int, isCounter: bool)
    requires |ps| >= 2 && InOrder(ps) && range > 0
    ensures Extrapolated(ps, ts, range, offset, isCounter, true) * (range as real) == Extrapolated(ps, ts, range, offset, isCounter, false) * 1000.0
  {
    hide Interval, Change, Grown, Seconds;
    PositiveSeconds(range);
    Millis(range);
    PerSecond(Extrapolated(ps, ts, range, offset, isCounter, false), Seconds(range));
  }

  lemma PerSecond(x: real, s: real)
    requires s > 0.0
    ensures x / s * (s * 1000.0) == x * 1000.0
  {
    assert x / s * s == x;
  }

  // ---------- straight lines ----------

  /** All samples lie on the line with value `c` at time zero and slope `k` per second. */
  ghost predicate OnLine(ps: seq<Point>, c: real, k: real) {
    forall i :: 0 <= i < |ps| ==> ps[i].v == c + k * (ps[i].t as real / 1000.0)
  }

  lemma {:induction false} LineRises(ps: seq<Point>, c: real, k: real, i: nat, j: nat)
    requires OnLine(ps, c, k) && InOrder(ps) && k >= 0.0 && i <= j < |ps|
    ensures ps[i].v <= ps[j].v
  {
    assert ps[i].t <= ps[j].t;
    assert k * ((ps[j].t - ps[i].t) as real / 1000.0) >= 0.0;
  }

  /** On a line the change is the slope times the time. */
  lemma {:induction false} LineChange(ps: seq<Point>, c: real, k: real, isCounter: bool)
    requires |ps| >= 2 && InOrder(ps) && OnLine(ps, c, k) && (isCounter ==> k >= 0.0)
    ensures Change(ps, isCounter) * 1000.0 == k * ((ps[|ps| - 1].t - ps[0].t) as real)
  {
    if isCounter {
      forall i | 0 < i < |ps| ensures ps[i - 1].v <= ps[i].v { LineRises(ps, c, k, i - 1, i); }
      StepsWithoutReset(ps);
    }
    var a, b := ps[0].t as real, ps[|ps| - 1].t as real;
    assert (ps[|ps| - 1].t - ps[0].t) as real == b - a;
    assert k * (b / 1000.0) * 1000.0 == k * b && k * (a / 1000.0) * 1000.0 == k * a;
  }

  /** The line does not reach zero before the start of the window. */
  lemma {:induction false} LineAbove(first: real, start: real, k: real, gap: real, sampled: real, change: real)
    requires first == start + k * (gap / 1000.0) && start >= 0.0 && change * 1000.0 == k * sampled && sampled > 0.0
    ensures first * sampled >= gap * change
  {
    assert first * sampled == start * sampled + k * (gap / 1000.0) * sampled;
    assert k * (gap / 1000.0) * sampled == gap * (k * sampled) / 1000.0;
    assert start * sampled >= 0.0;
  }

  /** Samples come within 1.1 average spacings of both edges of the window. */
  ghost predicate FillsWindow(ps: seq<Point>, start: int, end: int)
    requires |ps| >= 2
  {
    var spacing := (ps[|ps| - 1].t - ps[0].t) as real / ((|ps| - 1) as real);
    (ps[0].t - start) as real < 1.1 * spacing && (end - ps[|ps| - 1].t) as real < 1.1 * spacing
  }

  /** Then the change grows to the whole window, unless a counter would have been below zero at its start. */
  lemma {:induction false} GrowsToWindow(ps: seq<Point>, ts: int, range: int, offset: int, isCounter: bool)
    requires |ps| >= 2 && InOrder(ps) && range > 0 && FillsWindow(ps, ts - offset - range, ts - offset)
    requires var sampled, gap := (ps[|ps| - 1].t - ps[0].t) as real, (ps[0].t - (ts - offset - range)) as real;
             isCounter ==> ps[0].v * sampled >= gap * Change(ps, isCounter)
    ensures Extrapolated(ps, ts, range, offset, isCounter, false) * ((ps[|ps| - 1].t - ps[0].t) as real) == Change(ps, isCounter) * (range as real)
  {
    hide Extrapolated, Change, InOrder;
    var back, left, right := GrowsWithInterval(ps, ts, range, offset, isCounter);
    assert back == (ps[0].t - (ts - offset - range)) as real;
    assert left == back;
    assert right == (ts - offset - ps[|ps| - 1].t) as real;
  }

  lemma {:induction false} LineStaysAbove(ps: seq<Point>, c: real, k: real, start: int)
    requires |ps| >= 2 && InOrder(ps) && OnLine(ps, c, k) && k >= 0.0 && c + k * (start as real / 1000.0) >= 0.0
    ensures ps[0].v * ((ps[|ps| - 1].t - ps[0].t) as real) >= (ps[0].t - start) as real * Change(ps, true)
  {
    hide Change;
    SpanPositive(ps);
    LineChange(ps, c, k, true);
    LineFrom(c, k, ps[0].t, start);
    LineAbove(ps[0].v, c + k * (start as real / 1000.0), k, (ps[0].t - start) as real, (ps[|ps| - 1].t - ps[0].t) as real, Change(ps, true));
  }

  /** Extrapolation is exact on straight lines: when samples come close enough to both edges of the window,
      and a counter is not below zero at its start, the rate is the slope and the increase is the slope
      times the window. */
  lemma {:induction false} ExactOnLines(ps: seq<Point>, c: real, k: real, ts: int, range: int, offset: int, isCounter: bool)
    requires |ps| >= 2 && InOrder(ps) && range > 0 && OnLine(ps, c, k) && FillsWindow(ps, ts - offset - range, ts - offset)
    requires isCounter ==> k >= 0.0 && c + k * ((ts - offset - range) as real / 1000.0) >= 0.0
    ensures Extrapolated(ps, ts, range, offset, isCounter, true) == k
    ensures Extrapolated(ps, ts, range, offset, isCounter, false) == k * (range as real) / 1000.0
  {
    hide Extrapolated, Change, InOrder, OnLine, FillsWindow;
    SpanPositive(ps);
    LineChange(ps, c, k, isCounter);
    if isCounter { LineStaysAbove(ps, c, k, ts - offset - range); }
    GrowsToWindow(ps, ts, range, offset, isCounter);
    RateIsPerSecond(ps, ts, range, offset, isCounter);
    LineResult(Extrapolated(ps, ts, range, offset, isCounter, false), Extrapolated(ps, ts, range, offset, isCounter, true),
               Change(ps, isCounter), k, (ps[|ps| - 1].t - ps[0].t) as real, range as real);
  }

  lemma SpanPositive(ps: seq<Point>)
    requires |ps| >= 2 && InOrder(ps)
    ensures (ps[|ps| - 1].t - ps[0].t) as real > 0.0
  {
    assert ps[0].t < ps[|ps| - 1].t;
  }

  lemma LineFrom(c: real, k: real, t: int, start: int)
    ensures c + k * (t as real / 1000.0) == c + k * (start as real / 1000.0) + k * ((t - start) as real / 1000.0)
  {
    assert t as real / 1000.0 == start as real / 1000.0 + (t - start) as real / 1000.0;
  }

  lemma LineResult(increase: real, rate: real, change: real, k: real, sampled: real, range: real)
    requires sampled > 0.0 && range > 0.0
    requires increase * sampled == change * range && change * 1000.0 == k * sampled && rate * range == increase * 1000.0
    ensures increase == k * range / 1000.0 && rate == k
  {
    assert increase * 1000.0 * sampled == k * sampled * range;
    SameFactor(increase * 1000.0, k * range, sampled);
    SameFactor(rate, k, range);
  }

  lemma SameFactor(a: real, b: real, f: real)
    requires f > 0.0 && a * f == b * f
    ensures a == b
  {
    assert (a - b) * f == 0.0;
  }

  // ---------- bounds ----------

  ghost predicate Inside(ps: seq<Point>, rangeStart: int, rangeEnd: int) {
    forall i :: 0 <= i < |ps| ==> rangeStart <= ps[i].t <= rangeEnd
  }

  lemma ExtensionBounds(gap: real, average: real)
    requires gap >= 0.0 && average > 0.0
    ensures 0.0 <= Extension(gap, average) <= gap
  {
  }

  lemma ToZeroNonNegative(sampled: real, first: real, change: real)
    requires sampled > 0.0 && first >= 0.0 && change > 0.0
    ensures ToZero(sampled, first, change) >= 0.0
  {
    assert first / change >= 0.0;
  }

  lemma {:induction false} StartGapBounds(ps: seq<Point>, rangeStart: int, isCounter: bool)
    requires |ps| >= 2 && InOrder(ps) && rangeStart <= ps[0].t
    ensures 0.0 <= StartGap(ps, rangeStart, isCounter) <= Seconds(ps[0].t - rangeStart)
  {
    SampledPositive(ps);
    var change := Change(ps, isCounter);
    if change > 0.0 && ps[0].v >= 0.0 { ToZeroNonNegative(Sampled(ps), ps[0].v, change); }
  }

  /** The extrapolated interval covers the sampled one and stays within the window. */
  lemma {:induction false} IntervalBounds(ps: seq<Point>, rangeStart: int, rangeEnd: int, isCounter: bool)
    requires |ps| >= 2 && InOrder(ps) && Inside(ps, rangeStart, rangeEnd)
    ensures Sampled(ps) <= Interval(ps, rangeStart, rangeEnd, isCounter) <= Seconds(rangeEnd - rangeStart)
  {
    SampledPositive(ps);
    StartGapBounds(ps, rangeStart, isCounter);
    ExtensionBounds(StartGap(ps, rangeStart, isCounter), Average(ps));
    ExtensionBounds(Seconds(rangeEnd - ps[|ps| - 1].t), Average(ps));
  }

  lemma ScaleBack(sampled: real, first: real, change: real, back: real)
    requires sampled > 0.0 && change > 0.0 && first >= 0.0 && back <= ToZero(sampled, first, change)
    ensures first - change / sampled * back >= 0.0
  {
    var slope := change / sampled;
    QuotientPositive(change, sampled);
    ProductMonotone(slope, back, sampled * (first / change));
    assert slope * sampled == change;
    Cancel(slope, sampled, first, change);
  }

  lemma ProductMonotone(k: real, a: real, b: real)
    requires k > 0.0 && a <= b
    ensures k * a <= k * b
  {
    assert k * (b - a) >= 0.0;
  }

  lemma Cancel(slope: real, sampled: real, first: real, change: real)
    requires change != 0.0 && slope * sampled == change
    ensures slope * (sampled * (first / change)) == first
  {
    var x := first / change;
    assert x * change == first;
    assert slope * (sampled * x) == (slope * sampled) * x;
  }

  /** Whenever a non-negative counter went up, extending it backwards along its slope does not take it
      below zero. */
  lemma {:induction false} NeverBelowZero(ps: seq<Point>, rangeStart: int)
    requires |ps| >= 2 && InOrder(ps) && rangeStart <= ps[0].t && ps[0].v >= 0.0 && Change(ps, true) > 0.0
    ensures Sampled(ps) > 0.0
    ensures ps[0].v - Change(ps, true) / Sampled(ps) * Backward(ps, rangeStart, true) >= 0.0
  {
    SampledPositive(ps);
    StartGapBounds(ps, rangeStart, true);
    ExtensionBounds(StartGap(ps, rangeStart, true), Average(ps));
    ScaleBack(Sampled(ps), ps[0].v, Change(ps, true), Backward(ps, rangeStart, true));
  }

  lemma ScaleUp(change: real, interval: real, sampled: real, whole: real)
    requires change >= 0.0 && 0.0 < sampled <= interval <= whole
    ensures change <= Grown(change, interval, sampled) <= Grown(change, whole, sampled)
  {
    assert interval / sampled >= 1.0;
    assert interval / sampled <= whole / sampled;
    if change > 0.0 {
      ProductMonotone(change, 1.0, interval / sampled);
      ProductMonotone(change, interval / sampled, whole / sampled);
    }
  }

  /** The increase of a non-negative counter is at least what was counted and at most what was counted
      stretched over the whole window. */
  lemma {:induction false} IncreaseBounds(ps: seq<Point>, rangeStart: int, rangeEnd: int)
    requires |ps| >= 2 && InOrder(ps) && Inside(ps, rangeStart, rangeEnd) && forall i :: 0 <= i < |ps| ==> ps[i].v >= 0.0
    ensures Sampled(ps) > 0.0
    ensures var change := Change(ps, true);
            0.0 <= change <= Grown(change, Interval(ps, rangeStart, rangeEnd, true), Sampled(ps)) <= Grown(change, Seconds(rangeEnd - rangeStart), Sampled(ps))
  {
    SampledPositive(ps);
    StepsNonNegative(ps);
    IntervalBounds(ps, rangeStart, rangeEnd, true);
    ScaleUp(Change(ps, true), Interval(ps, rangeStart, rangeEnd, true), Sampled(ps), Seconds(rangeEnd - rangeStart));
  }
}
