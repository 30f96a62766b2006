/** The loops over one series and over the steps compute what the range evaluator's definition says: the
    columns of an instant selector and of a range function, and the series collected from the steps. */
module LoopAgreement {
  import opened Common
  import opened IntMath
  import opened PromEval
  import SampleRing
  import InstantSelector
  import MatrixWindow
  import RangeLoop = RangeEval

  // ---------- points as a list and as a map ----------

  ghost predicate Has(p: Points, t: int, v: real) { t in p.at && p.at[t] == v }

  lemma SamePoints(p: Points, r: Points)
    requires forall t, v :: Has(p, t, v) <==> Has(r, t, v)
    ensures p == r
  {
    var x, y := p.at, r.at;
    forall t ensures t in x <==> t in y
      ensures t in x ==> x[t] == y[t]
    {
      if t in x { assert Has(p, t, x[t]); assert Has(r, t, x[t]); }
      if t in y { assert Has(r, t, y[t]); assert Has(p, t, y[t]); }
    }
    assert x == y;
  }

  /** A list of points in time order as the evaluator's definition sees it. */
  ghost function PointsOf(ps: seq<Point>): Points
    requires InOrder(ps)
  {
    Points(map i | 0 <= i < |ps| :: ps[i].t := ps[i].v)
  }

  lemma PointsOfHas(ps: seq<Point>, t: int, v: real)
    requires InOrder(ps)
    ensures Has(PointsOf(ps), t, v) <==> Point(t, v) in ps
  {
    if Point(t, v) in ps { var i :| 0 <= i < |ps| && ps[i] == Point(t, v); }
  }

  /** The list holds the values of `f` at the steps where it has one. */
  ghost predicate Charts(ps: seq<Point>, grid: set<int>, f: int -> Option<real>) {
    InOrder(ps) && forall t, v :: Point(t, v) in ps <==> t in grid && f(t) == Some(v)
  }

  lemma ChartIs(ps: seq<Point>, grid: set<int>, f: int -> Option<real>, c: Points)
    requires Charts(ps, grid, f) && forall t, v :: Has(c, t, v) <==> t in grid && f(t) == Some(v)
    ensures PointsOf(ps) == c
  {
    hide Has, PointsOf;
    forall t, v ensures Has(PointsOf(ps), t, v) <==> Has(c, t, v) { PointsOfHas(ps, t, v); }
    SamePoints(PointsOf(ps), c);
  }

  // ---------- the steps of a grid ----------

  lemma GridStep(start: int, end: int, interval: int, k: nat)
    requires interval > 0 && k < InstantSelector.StepCount(start, end, interval)
    ensures InstantSelector.StepTime(start, interval, k) in Grid(start, end, interval)
  {
    var d := end - start;
    assert 0 <= k <= d / interval;
    MulMonotone(interval, 0, k);
    MulMonotone(interval, k, d / interval);
    MultipleMod(interval, k);
    assert OnGrid(start + k * interval, start, end, interval);
  }

  lemma GridIndex(start: int, end: int, interval: int, t: int) returns (k: nat)
    requires interval > 0 && t in Grid(start, end, interval)
    ensures k < InstantSelector.StepCount(start, end, interval) && t == InstantSelector.StepTime(start, interval, k)
  {
    var d := t - start;
    assert d >= 0 && d % interval == 0;
    k := d / interval;
    assert d == interval * k;
    var n := (end - start) / interval;
    if k > n { MulMonotone(interval, n + 1, k); }
  }

  lemma GridHead(ts: int, end: int, interval: int, t: int)
    requires interval > 0 && ts <= end
    ensures t in Grid(ts, end, interval) <==> t == ts || t in Grid(ts + interval, end, interval)
  {
    MultipleMod(interval, 1);
    ModDifference(t - ts, interval, interval);
    if t in Grid(ts, end, interval) && t != ts {
      if t < ts + interval { DivModUnique(t - ts, interval, 0, t - ts); }
      assert OnGrid(t, ts + interval, end, interval);
    }
    if t == ts || t in Grid(ts + interval, end, interval) { assert OnGrid(t, ts, end, interval); }
  }

  // ---------- instant selectors ----------

  ghost predicate ReadAt(p: seq<SampleRing.Sample>, delta: int, offset: int, start: int, interval: int, k: int, t: int, v: real) {
    t == InstantSelector.StepTime(start, interval, k) && InstantSelector.Read(p, t - offset, delta) == Some(v)
  }

  lemma {:induction false} ColumnHas(p: seq<SampleRing.Sample>, delta: int, offset: int, start: int, interval: int, steps: nat)
    requires interval > 0
    ensures var c := InstantSelector.Column(p, delta, offset, start, interval, steps);
            InOrder(c) && forall t, v :: Point(t, v) in c <==> exists k :: 0 <= k < steps && ReadAt(p, delta, offset, start, interval, k, t, v)
  {
    hide InstantSelector.StepTime, InstantSelector.Read;
    if steps > 0 {
      var n := steps - 1;
      var c, d := InstantSelector.Column(p, delta, offset, start, interval, n), InstantSelector.Column(p, delta, offset, start, interval, steps);
      ColumnHas(p, delta, offset, start, interval, n);
      var ts := InstantSelector.StepTime(start, interval, n);
      forall i | 0 <= i < |c| ensures c[i].t < ts {
        assert Point(c[i].t, c[i].v) in c;
        var k :| 0 <= k < n && ReadAt(p, delta, offset, start, interval, k, c[i].t, c[i].v);
        TimesIncrease(start, interval, k, n);
      }
      forall t, v ensures Point(t, v) in d <==> exists k :: 0 <= k < steps && ReadAt(p, delta, offset, start, interval, k, t, v) {
        assert Point(t, v) in d <==> Point(t, v) in c || ReadAt(p, delta, offset, start, interval, n, t, v);
      }
    }
  }

  lemma TimesIncrease(start: int, interval: int, j: int, k: int)
    requires interval > 0 && j < k
    ensures InstantSelector.StepTime(start, interval, j) < InstantSelector.StepTime(start, interval, k)
  {
    MulMonotone(interval, j + 1, k);
  }

  /** The column that one pass of the iterator builds is the selector's column. */
  lemma {:induction false} SelectAgrees(sem: Sem, p: seq<SampleRing.Sample>, offset: int, start: int, end: int, interval: int)
    requires SampleRing.Increasing(p) && interval > 0
    ensures var c := InstantSelector.Column(p, sem.lookback, offset, start, interval, InstantSelector.StepCount(start, end, interval));
            InOrder(c) && PointsOf(c) == SelectColumn(sem, InstantSelector.SeriesOf(p), offset, Grid(start, end, interval))
  {
    hide InstantSelector.Read, InstantSelector.StepTime, InstantSelector.StepCount, InstantSelector.Column, InstantSelector.SeriesOf, Grid, Latest, SampleRing.Increasing;
    var delta, n := sem.lookback, InstantSelector.StepCount(start, end, interval);
    var c := InstantSelector.Column(p, delta, offset, start, interval, n);
    var grid := Grid(start, end, interval);
    var f := (t: int) => InstantSelector.Read(p, t - offset, delta);
    ColumnHas(p, delta, offset, start, interval, n);
    forall t, v ensures Point(t, v) in c <==> t in grid && f(t) == Some(v) {
      if Point(t, v) in c {
        var k :| 0 <= k < n && ReadAt(p, delta, offset, start, interval, k, t, v);
        GridStep(start, end, interval, k);
      }
      if t in grid && f(t) == Some(v) {
        var k := GridIndex(start, end, interval, t);
        assert ReadAt(p, delta, offset, start, interval, k, t, v);
      }
    }
    forall t ensures Latest(InstantSelector.SeriesOf(p), t - offset, delta) == f(t) { InstantSelector.ReadsLatest(p, t - offset, delta); }
    ChartIs(c, grid, f, SelectColumn(sem, InstantSelector.SeriesOf(p), offset, grid));
  }

  // ---------- range functions ----------

  /** The function that the loop calls is the range function of the definition. */
  ghost predicate Applies(g: MatrixWindow.RangeFunction, sem: Sem, f: string, sel: MatrixWindow.Selector) {
    forall w, ts | SampleRing.Increasing(w) ::
      g(w, ts) == sem.range(f, Fresh(InstantSelector.SeriesOf(w)), ts - sel.offset, sel.range, ts)
  }

  lemma {:induction false} FreshHas(p: seq<SampleRing.Sample>, t: int, v: real)
    requires SampleRing.Increasing(p)
    ensures Has(Fresh(InstantSelector.SeriesOf(p)), t, v) <==> SampleRing.Sample(t, v, false) in p
  {
    InstantSelector.SeriesAt(p, t);
    hide InstantSelector.SeriesOf;
    if SampleRing.Sample(t, v, false) in p { var i :| 0 <= i < |p| && p[i] == SampleRing.Sample(t, v, false); }
    if Has(Fresh(InstantSelector.SeriesOf(p)), t, v) {
      var i :| 0 <= i < |p| && p[i].t == t;
      assert p[i] == SampleRing.Sample(t, v, false);
    }
  }

  /** Selecting samples is slicing the points. */
  lemma {:induction false} SelectSlices(p: seq<SampleRing.Sample>, mint: int, maxt: int)
    requires SampleRing.Increasing(p)
    ensures var w := MatrixWindow.Select(p, mint, maxt);
            && SampleRing.Increasing(w)
            && Fresh(InstantSelector.SeriesOf(w)) == Slice(Fresh(InstantSelector.SeriesOf(p)), mint, maxt)
  {
    hide SampleRing.Increasing, InstantSelector.SeriesOf, MatrixWindow.Select, Fresh;
    MatrixWindow.SelectIs(p, mint, maxt);
    var w := MatrixWindow.Select(p, mint, maxt);
    var x, y := Fresh(InstantSelector.SeriesOf(w)), Slice(Fresh(InstantSelector.SeriesOf(p)), mint, maxt);
    forall t, v ensures Has(x, t, v) <==> Has(y, t, v) {
      FreshHas(p, t, v);
      FreshHas(w, t, v);
    }
    SamePoints(x, y);
  }

  /** A window without samples is a slice without points. */
  lemma {:induction false} EmptyTogether(w: seq<SampleRing.Sample>, mint: int, maxt: int)
    requires SampleRing.Increasing(w) && forall k :: 0 <= k < |w| ==> MatrixWindow.InWindow(w[k], mint, maxt)
    ensures w == [] <==> Fresh(InstantSelector.SeriesOf(w)) == Points(map[])
  {
    hide SampleRing.Increasing, InstantSelector.SeriesOf, Fresh;
    var x := Fresh(InstantSelector.SeriesOf(w));
    if w != [] {
      assert w[0] == SampleRing.Sample(w[0].t, w[0].v, false);
      FreshHas(w, w[0].t, w[0].v);
    } else {
      forall t, v ensures Has(x, t, v) <==> Has(Points(map[]), t, v) { FreshHas(w, t, v); }
      SamePoints(x, Points(map[]));
    }
  }

  lemma {:induction false} WindowIs(g: MatrixWindow.RangeFunction, sem: Sem, f: string, p: seq<SampleRing.Sample>, sel: MatrixWindow.Selector, ts: int)
    requires Applies(g, sem, f, sel) && SampleRing.Increasing(p)
    ensures var w := MatrixWindow.Window(p, sel, ts);
            Window(sem, f, Fresh(InstantSelector.SeriesOf(p)), ts - sel.offset, sel.range, ts)
            == if w == [] then None else g(w, ts)
  {
    hide SampleRing.Increasing, InstantSelector.SeriesOf, MatrixWindow.Select, Fresh, Slice, Window;
    var mint, maxt := ts - sel.offset - sel.range, ts - sel.offset;
    var w := MatrixWindow.Select(p, mint, maxt);
    MatrixWindow.SelectIs(p, mint, maxt);
    SelectSlices(p, mint, maxt);
    EmptyTogether(w, mint, maxt);
    WindowOf(sem, f, Fresh(InstantSelector.SeriesOf(p)), Fresh(InstantSelector.SeriesOf(w)), maxt, sel.range, ts);
  }

  lemma WindowOf(sem: Sem, f: string, p: Points, w: Points, maxt: int, range: int, ts: int)
    requires w == Slice(p, maxt - range, maxt)
    ensures Window(sem, f, p, maxt, range, ts) == if w == Points(map[]) then None else sem.range(f, w, maxt, range, ts)
  {
    hide Slice;
    assert w == Points(w.at);
  }

  lemma StepValueIs(g: MatrixWindow.RangeFunction, sem: Sem, f: string, p: seq<SampleRing.Sample>, sel: MatrixWindow.Selector, ts: int)
    requires Applies(g, sem, f, sel) && SampleRing.Increasing(p)
    ensures MatrixWindow.StepValue(p, sel, g, ts)
            == match Window(sem, f, Fresh(InstantSelector.SeriesOf(p)), ts - sel.offset, sel.range, ts)
               case Some(v) => [Point(ts, v)]
               case None => []
  {
    hide Window, MatrixWindow.Window;
    WindowIs(g, sem, f, p, sel, ts);
  }

  lemma {:induction false} StepValuesChart(g: MatrixWindow.RangeFunction, sem: Sem, f: string, p: seq<SampleRing.Sample>, sel: MatrixWindow.Selector, ts: int, end: int, interval: int)
    requires Applies(g, sem, f, sel) && SampleRing.Increasing(p) && interval > 0
    ensures Charts(MatrixWindow.StepValues(p, sel, g, ts, end, interval), Grid(ts, end, interval),
                   (t: int) => Window(sem, f, Fresh(InstantSelector.SeriesOf(p)), t - sel.offset, sel.range, t))
    decreases end - ts
  {
    hide SampleRing.Increasing, InstantSelector.SeriesOf, MatrixWindow.StepValue, Window, Fresh, Grid;
    var h := (t: int) => Window(sem, f, Fresh(InstantSelector.SeriesOf(p)), t - sel.offset, sel.range, t);
    var all := MatrixWindow.StepValues(p, sel, g, ts, end, interval);
    if ts <= end {
      var head := MatrixWindow.StepValue(p, sel, g, ts);
      var rest := MatrixWindow.StepValues(p, sel, g, ts + interval, end, interval);
      StepValuesChart(g, sem, f, p, sel, ts + interval, end, interval);
      StepValueIs(g, sem, f, p, sel, ts);
      ChartGrows(head, rest, ts, end, interval, h);
      assert all == head + rest;
    } else {
      forall t ensures t !in Grid(ts, end, interval) { NothingLater(ts, end, interval, t); }
    }
  }

  lemma NothingLater(ts: int, end: int, interval: int, t: int)
    requires interval > 0
    ensures t in Grid(ts, end, interval) ==> ts <= t <= end
  {
  }

  lemma {:induction false} ChartGrows(head: seq<Point>, rest: seq<Point>, ts: int, end: int, interval: int, g: int -> Option<real>)
    requires interval > 0 && ts <= end && Charts(rest, Grid(ts + interval, end, interval), g)
    requires head == match g(ts) case Some(v) => [Point(ts, v)] case None => []
    ensures Charts(head + rest, Grid(ts, end, interval), g)
  {
    hide Grid;
    forall i | 0 <= i < |rest| ensures ts < rest[i].t {
      assert Point(rest[i].t, rest[i].v) in rest;
      NothingLater(ts + interval, end, interval, rest[i].t);
    }
    forall t, v ensures Point(t, v) in head + rest <==> t in Grid(ts, end, interval) && g(t) == Some(v) {
      GridHead(ts, end, interval, t);
      assert Point(t, v) in head <==> t == ts && g(ts) == Some(v);
    }
  }

  /** The column that one buffered pass builds is the range function's column. */
  lemma {:induction false} WindowAgrees(g: MatrixWindow.RangeFunction, sem: Sem, f: string, p: seq<SampleRing.Sample>, sel: MatrixWindow.Selector, start: int, end: int, interval: int)
    requires Applies(g, sem, f, sel) && SampleRing.Increasing(p) && interval > 0
    ensures var c := MatrixWindow.StepValues(p, sel, g, start, end, interval);
            InOrder(c) && PointsOf(c) == WindowColumn(sem, f, Fresh(InstantSelector.SeriesOf(p)), sel.offset, sel.range, Grid(start, end, interval))
  {
    hide SampleRing.Increasing, InstantSelector.SeriesOf, MatrixWindow.StepValues, Window, Fresh, Grid;
    StepValuesChart(g, sem, f, p, sel, start, end, interval);
    var c := MatrixWindow.StepValues(p, sel, g, start, end, interval);
    var x := Fresh(InstantSelector.SeriesOf(p));
    ChartIs(c, Grid(start, end, interval), (t: int) => Window(sem, f, x, t - sel.offset, sel.range, t),
            WindowColumn(sem, f, x, sel.offset, sel.range, Grid(start, end, interval)));
  }

  // ---------- one call per step ----------

  /** A list of samples with distinct label sets as the definition sees it. */
  ghost function VectorOf(v: RangeLoop.Vector): Vector
    requires !RangeLoop.Repeats(v)
  {
    map i | 0 <= i < |v| :: v[i].metric := v[i].v
  }

  ghost predicate Maps(v: Vector, l: Labels, x: real) { l in v && v[l] == x }

  lemma VectorOfHas(v: RangeLoop.Vector, l: Labels, x: real)
    requires !RangeLoop.Repeats(v)
    ensures Maps(VectorOf(v), l, x) <==> RangeLoop.Sample(l, x) in v
  {
    if RangeLoop.Sample(l, x) in v { var i :| 0 <= i < |v| && v[i] == RangeLoop.Sample(l, x); }
  }

  ghost predicate Ordered(m: RangeLoop.Matrix) { RangeLoop.DistinctMetrics(m) && forall i :: 0 <= i < |m| ==> InOrder(m[i].points) }

  ghost function MatrixOf(m: RangeLoop.Matrix): Matrix
    requires Ordered(m)
  {
    map i | 0 <= i < |m| :: m[i].metric := PointsOf(m[i].points)
  }

  /** The results of all calls, each made with the input vectors of its step. */
  ghost function Called(p: RangeLoop.Params, ms: seq<RangeLoop.Matrix>): Steps
    requires p.interval > 0
  {
    map t | t in Grid(p.start, p.end, p.interval) :: ResultOf(p.call(RangeLoop.VectorsAt(ms, t), t))
  }

  ghost function ResultOf(r: RangeLoop.Res<RangeLoop.Vector>): Res<Vector> {
    match r
    case Err(_) => Err
    case Ok(v) => if RangeLoop.Repeats(v) then Err else Ok(VectorOf(v))
  }

  ghost predicate Ran(p: RangeLoop.Params, ms: seq<RangeLoop.Matrix>, t: int, v: RangeLoop.Vector) {
    p.call(RangeLoop.VectorsAt(ms, t), t) == RangeLoop.Ok(v) && !RangeLoop.Repeats(v)
  }

  lemma StepCountMore(ts: int, end: int, interval: int)
    requires interval > 0 && ts <= end
    ensures InstantSelector.StepCount(ts, end, interval) == 1 + InstantSelector.StepCount(ts + interval, end, interval)
  {
    var d := end - ts;
    assert d == interval * (d / interval) + d % interval;
    if d < interval { DivModUnique(d, interval, 0, d); } else { DivModUnique(d - interval, interval, d / interval - 1, d % interval); }
  }

  /** Steps that succeed are as many as the grid has, and each is its call's result. */
  lemma {:induction false} StepsRan(p: RangeLoop.Params, ms: seq<RangeLoop.Matrix>, ts: int, held: int, rs: seq<RangeLoop.Vector>)
    requires p.interval > 0 && RangeLoop.Steps(p, ms, ts, held) == RangeLoop.Ok(rs)
    ensures |rs| == InstantSelector.StepCount(ts, p.end, p.interval)
    ensures forall k :: 0 <= k < |rs| ==> Ran(p, ms, InstantSelector.StepTime(ts, p.interval, k), rs[k])
    decreases p.end - ts + p.interval
  {
    hide InstantSelector.StepCount, RangeLoop.VectorsAt, RangeLoop.Repeats, RangeLoop.Size;
    if ts <= p.end {
      var v := RangeLoop.Step(p, ms, ts, held).value;
      var rest := RangeLoop.Steps(p, ms, ts + p.interval, held + |v|).value;
      assert rs == [v] + rest;
      StepsRan(p, ms, ts + p.interval, held + |v|, rest);
      StepCountMore(ts, p.end, p.interval);
      forall k | 0 <= k < |rs| ensures Ran(p, ms, InstantSelector.StepTime(ts, p.interval, k), rs[k]) {
        if k > 0 { TimeShift(ts, p.interval, k); }
      }
    } else {
      NoSteps(ts, p.end, p.interval);
    }
  }

  lemma NoSteps(ts: int, end: int, interval: int)
    requires interval > 0 && ts > end
    ensures InstantSelector.StepCount(ts, end, interval) == 0
  {
  }

  lemma TimeShift(ts: int, interval: int, k: int)
    ensures InstantSelector.StepTime(ts, interval, k) == InstantSelector.StepTime(ts + interval, interval, k - 1)
  {
  }

  /** The results of the steps, by position and by time. */
  ghost predicate Lines(p: RangeLoop.Params, rs: seq<RangeLoop.Vector>, steps: Steps) {
    && p.interval > 0 && |rs| == InstantSelector.StepCount(p.start, p.end, p.interval)
    && steps.Keys == Grid(p.start, p.end, p.interval)
    && forall k :: 0 <= k < |rs| ==>
         && !RangeLoop.Repeats(rs[k])
         && RangeLoop.StepTime(p, k) in steps && steps[RangeLoop.StepTime(p, k)] == Ok(VectorOf(rs[k]))
  }

  lemma {:induction false} StepsLine(p: RangeLoop.Params, ms: seq<RangeLoop.Matrix>, held: int, rs: seq<RangeLoop.Vector>)
    requires p.interval > 0 && RangeLoop.Steps(p, ms, p.start, held) == RangeLoop.Ok(rs)
    ensures Lines(p, rs, Called(p, ms))
  {
    hide RangeLoop.Steps, RangeLoop.VectorsAt, RangeLoop.Repeats, VectorOf, InstantSelector.StepCount, Grid;
    StepsRan(p, ms, p.start, held, rs);
    forall k | 0 <= k < |rs| ensures RangeLoop.StepTime(p, k) in Grid(p.start, p.end, p.interval) { GridStep(p.start, p.end, p.interval, k); }
  }

  /** A collected column has a point exactly where the result of the step has the label set. */
  lemma {:induction false} CollectedHas(p: RangeLoop.Params, rs: seq<RangeLoop.Vector>, steps: Steps, l: Labels, t: int, v: real)
    requires Lines(p, rs, steps)
    ensures Point(t, v) in RangeLoop.Column(p, rs, l) <==> Has(Column(steps, l), t, v)
  {
    hide RangeLoop.Column, RangeLoop.StepTime, RangeLoop.Repeats, VectorOf, InstantSelector.StepCount, Grid;
    RangeLoop.ColumnShape(p, rs, l);
    if Point(t, v) in RangeLoop.Column(p, rs, l) {
      var k :| RangeLoop.IsStep(p, rs, k, t);
      RangeLoop.ColumnMeaning(p, rs, l, k, v);
      VectorOfHas(rs[k], l, v);
    }
    if Has(Column(steps, l), t, v) {
      var k := GridIndex(p.start, p.end, p.interval, t);
      SameTime(p, k);
      RangeLoop.ColumnMeaning(p, rs, l, k, v);
      VectorOfHas(rs[k], l, v);
    }
  }

  lemma SameTime(p: RangeLoop.Params, k: int)
    ensures RangeLoop.StepTime(p, k) == InstantSelector.StepTime(p.start, p.interval, k)
  {
  }

  lemma {:induction false} CollectedIs(p: RangeLoop.Params, rs: seq<RangeLoop.Vector>, steps: Steps, l: Labels)
    requires Lines(p, rs, steps)
    ensures var c := RangeLoop.Column(p, rs, l);
            InOrder(c) && PointsOf(c) == Column(steps, l) && (c != [] <==> l in LabelsOf(steps))
  {
    hide RangeLoop.Column, Lines, PointsOf, Column;
    assert p.interval > 0 by { LinesInterval(p, rs, steps); }
    RangeLoop.ColumnShape(p, rs, l);
    var c := RangeLoop.Column(p, rs, l);
    forall t, v ensures Has(PointsOf(c), t, v) <==> Has(Column(steps, l), t, v) {
      PointsOfHas(c, t, v);
      CollectedHas(p, rs, steps, l, t, v);
    }
    SamePoints(PointsOf(c), Column(steps, l));
    if c != [] {
      assert c[0] == Point(c[0].t, c[0].v);
      PointsOfHas(c, c[0].t, c[0].v);
      ColumnLabels(steps, l, c[0].t, c[0].v);
    }
    if l in LabelsOf(steps) {
      var t :| t in steps && steps[t].Ok? && l in steps[t].value;
      ColumnLabels(steps, l, t, steps[t].value[l]);
      CollectedHas(p, rs, steps, l, t, steps[t].value[l]);
    }
  }

  lemma LinesInterval(p: RangeLoop.Params, rs: seq<RangeLoop.Vector>, steps: Steps)
    requires Lines(p, rs, steps)
    ensures p.interval > 0
  {
  }

  lemma ColumnLabels(steps: Steps, l: Labels, t: int, v: real)
    ensures Has(Column(steps, l), t, v) <==> t in steps && steps[t].Ok? && l in steps[t].value && steps[t].value[l] == v
    ensures Has(Column(steps, l), t, v) ==> l in LabelsOf(steps)
  {
  }

  /** The series the loop assembles are the series of the definition. */
  lemma {:induction false} AssembledIs(p: RangeLoop.Params, rs: seq<RangeLoop.Vector>, steps: Steps, m: RangeLoop.Matrix)
    requires Lines(p, rs, steps) && RangeLoop.Assembles(p, rs, m)
    ensures Ordered(m) && RangeEval(steps) == Ok(MatrixOf(m))
  {
    hide RangeLoop.Column, Column, LabelsOf, PointsOf;
    AllLinesOk(p, rs, steps);
    hide Lines;
    forall l ensures var c := RangeLoop.Column(p, rs, l); InOrder(c) && PointsOf(c) == Column(steps, l) && (c != [] <==> l in LabelsOf(steps)) {
      CollectedIs(p, rs, steps, l);
    }
    var x, y := MatrixOf(m), RangeEval(steps).value;
    forall l ensures l in x <==> l in y
      ensures l in x ==> x[l] == y[l]
    {
      if l in y { assert RangeLoop.Column(p, rs, l) != []; assert RangeLoop.HasSeries(m, l); }
    }
    assert x == y;
  }

  lemma {:induction false} AllLinesOk(p: RangeLoop.Params, rs: seq<RangeLoop.Vector>, steps: Steps)
    requires Lines(p, rs, steps)
    ensures forall t :: t in steps ==> steps[t].Ok?
  {
    hide VectorOf, RangeLoop.Repeats, InstantSelector.StepCount, Grid, RangeLoop.StepTime;
    forall t | t in steps ensures steps[t].Ok? {
      var k := GridIndex(p.start, p.end, p.interval, t);
      SameTime(p, k);
    }
  }

  /** The shortcut for a single step assembles the same. */
  lemma {:induction false} InstantAssembles(p: RangeLoop.Params, v: RangeLoop.Vector)
    requires !RangeLoop.Repeats(v)
    ensures RangeLoop.Assembles(p, [v], RangeLoop.Instant(v, p.start))
  {
    var m := RangeLoop.Instant(v, p.start);
    assert [v][..0] == [];
    assert RangeLoop.StepTime(p, 0) == p.start;
    forall l ensures RangeLoop.Column(p, [v], l) == match RangeLoop.Lookup(v, l) case Some(x) => [Point(p.start, x)] case None => [] {}
    forall i | 0 <= i < |m| ensures m[i].points == RangeLoop.Column(p, [v], m[i].metric) {
      assert RangeLoop.Sample(v[i].metric, v[i].v) in v;
      RangeLoop.LookupIs(v, v[i].metric, v[i].v);
    }
    forall l | RangeLoop.Column(p, [v], l) != [] ensures RangeLoop.HasSeries(m, l) {
      var x := RangeLoop.Lookup(v, l).value;
      RangeLoop.LookupIs(v, l, x);
      var i :| 0 <= i < |v| && v[i] == RangeLoop.Sample(l, x);
      assert m[i].metric == l;
    }
  }

  /** What the loop over the steps returns is the definition's combination of the calls' results. */
  lemma {:induction false} EvaluateAgrees(p: RangeLoop.Params, ms: seq<RangeLoop.Matrix>, held: int, rs: seq<RangeLoop.Vector>, m: RangeLoop.Matrix)
    requires p.interval > 0 && RangeLoop.Steps(p, ms, p.start, held) == RangeLoop.Ok(rs)
    requires if p.start == p.end then |rs| == 1 && m == RangeLoop.Instant(rs[0], p.start) else RangeLoop.Assembles(p, rs, m)
    ensures Ordered(m) && RangeEval(Called(p, ms)) == Ok(MatrixOf(m))
  {
    hide RangeLoop.Steps, Called, MatrixOf, RangeEval, RangeLoop.Assembles, RangeLoop.Instant, Ordered;
    StepsLine(p, ms, held, rs);
    if p.start == p.end {
      FirstLine(p, rs, Called(p, ms));
      InstantAssembles(p, rs[0]);
      assert rs == [rs[0]];
    }
    AssembledIs(p, rs, Called(p, ms), m);
  }

  lemma FirstLine(p: RangeLoop.Params, rs: seq<RangeLoop.Vector>, steps: Steps)
    requires Lines(p, rs, steps) && rs != []
    ensures !RangeLoop.Repeats(rs[0])
  {
    hide RangeLoop.Repeats;
  }

  // ---------- the inputs of a step ----------

  lemma {:induction false} ValueAtHas(ps: seq<Point>, t: int, v: real)
    requires InOrder(ps)
    ensures RangeLoop.ValueAt(ps, t) == Some(v) <==> Point(t, v) in ps
  {
    if ps != [] {
      ValueAtHas(ps[1..], t, v);
      assert ps == [ps[0]] + ps[1..];
      if ps[0].t == t { assert forall i :: 1 <= i < |ps| ==> ps[i].t != t; }
    }
  }

  ghost predicate SeriesHas(m: RangeLoop.Matrix, i: int, l: Labels, t: int, v: real) {
    0 <= i < |m| && m[i].metric == l && RangeLoop.ValueAt(m[i].points, t) == Some(v)
  }

  lemma {:induction false} VectorAtHas(m: RangeLoop.Matrix, t: int, l: Labels, v: real)
    ensures RangeLoop.Sample(l, v) in RangeLoop.VectorAt(m, t) <==> exists i :: SeriesHas(m, i, l, t, v)
  {
    if m != [] {
      var n := |m| - 1;
      VectorAtHas(m[..n], t, l, v);
      forall i | i != n ensures SeriesHas(m, i, l, t, v) <==> SeriesHas(m[..n], i, l, t, v) {}
      assert RangeLoop.Sample(l, v) in RangeLoop.VectorAt(m, t)
        <==> RangeLoop.Sample(l, v) in RangeLoop.VectorAt(m[..n], t) || SeriesHas(m, n, l, t, v);
    }
  }

  lemma {:induction false} VectorAtDistinct(m: RangeLoop.Matrix, t: int)
    requires RangeLoop.DistinctMetrics(m)
    ensures !RangeLoop.Repeats(RangeLoop.VectorAt(m, t))
  {
    if m != [] {
      var n := |m| - 1;
      VectorAtDistinct(m[..n], t);
      var u := RangeLoop.VectorAt(m[..n], t);
      forall i | 0 <= i < |u| ensures u[i].metric != m[n].metric {
        assert u[i] == RangeLoop.Sample(u[i].metric, u[i].v);
        VectorAtHas(m[..n], t, u[i].metric, u[i].v);
        var k :| SeriesHas(m[..n], k, u[i].metric, t, u[i].v);
      }
    }
  }

  /** The input vector of a step is what the definition reads from the matrix. */
  lemma {:induction false} InputAgrees(m: RangeLoop.Matrix, t: int)
    requires Ordered(m)
    ensures !RangeLoop.Repeats(RangeLoop.VectorAt(m, t)) && VectorOf(RangeLoop.VectorAt(m, t)) == At(MatrixOf(m), t)
  {
    hide RangeLoop.VectorAt, RangeLoop.Repeats, PointsOf, VectorOf, Maps, SeriesHas, At, MatrixOf;
    VectorAtDistinct(m, t);
    var x, y := VectorOf(RangeLoop.VectorAt(m, t)), At(MatrixOf(m), t);
    forall l, v ensures Maps(x, l, v) <==> Maps(y, l, v) {
      VectorOfHas(RangeLoop.VectorAt(m, t), l, v);
      VectorAtHas(m, t, l, v);
      AtHas(m, t, l, v);
    }
    SameVectors(x, y);
  }

  lemma {:induction false} AtHas(m: RangeLoop.Matrix, t: int, l: Labels, v: real)
    requires Ordered(m)
    ensures Maps(At(MatrixOf(m), t), l, v) <==> exists i :: SeriesHas(m, i, l, t, v)
  {
    hide PointsOf, RangeLoop.ValueAt;
    forall i | 0 <= i < |m| ensures SeriesHas(m, i, l, t, v) <==> m[i].metric == l && Has(PointsOf(m[i].points), t, v) {
      ValueAtHas(m[i].points, t, v);
      PointsOfHas(m[i].points, t, v);
    }
  }

  lemma SameVectors(x: Vector, y: Vector)
    requires forall l, v :: Maps(x, l, v) <==> Maps(y, l, v)
    ensures x == y
  {
    forall l ensures l in x <==> l in y
      ensures l in x ==> x[l] == y[l]
    {
      if l in x { assert Maps(x, l, x[l]); assert Maps(y, l, x[l]); }
      if l in y { assert Maps(y, l, y[l]); assert Maps(x, l, y[l]); }
    }
  }
}
