/** `rangeEval`: runs a function once per step over whole series. Inputs are consumed by cursors that
    look only at the head of each series; outputs are collected per label set. */
module RangeEval {
  import opened Common
  import opened IntMath

  datatype Series = Series(metric: Labels, points: seq<Point>)

  datatype Sample = Sample(metric: Labels, v: real)

  type Matrix = seq<Series>

  type Vector = seq<Sample>

  datatype Error = TooManySamples | SameLabelset | Failed

  datatype Res<+T> = Ok(value: T) | Err(error: Error)

  /** The range of steps, the function called at each step, and the limit on samples in memory. */
  datatype Params = Params(start: int, end: int, interval: int, call: (seq<Vector>, int) -> Res<Vector>, max: int)

  // ---------- what a step should see ----------

  function ValueAt(ps: seq<Point>, ts: int): Option<real> {
    if ps == [] then None else if ps[0].t == ts then Some(ps[0].v) else ValueAt(ps[1..], ts)
  }

  /** The samples of a matrix at one timestamp, in the order of its series. */
  function VectorAt(m: Matrix, ts: int): Vector {
    if m == [] then []
    else
      var s := m[|m| - 1];
      VectorAt(m[..|m| - 1], ts)
      + match ValueAt(s.points, ts) case Some(v) => [Sample(s.metric, v)] case None => []
  }

  function VectorsAt(ms: seq<Matrix>, ts: int): seq<Vector> {
    seq(|ms|, i requires 0 <= i < |ms| => VectorAt(ms[i], ts))
  }

  function Size(vs: seq<Vector>): nat { if vs == [] then 0 else Size(vs[..|vs| - 1]) + |vs[|vs| - 1]| }

  ghost predicate Repeats(v: Vector) { exists i, j :: 0 <= i < j < |v| && v[i].metric == v[j].metric }

  /** One step: too many inputs, a failing call, a result with a repeated label set and too many results
      are errors, in this order. `held` samples are in memory before the step. */
  ghost function Step(p: Params, ms: seq<Matrix>, ts: int, held: int): Res<Vector> {
    var vs := VectorsAt(ms, ts);
    if Size(vs) > 0 && held + Size(vs) > p.max then Err(TooManySamples)
    else
      match p.call(vs, ts)
      case Err(e) => Err(e)
      case Ok(v) =>
        if Repeats(v) then Err(SameLabelset)
        else if held + Size(vs) + |v| > p.max then Err(TooManySamples)
        else Ok(v)
  }

  function Prepend(rs: seq<Vector>, r: Res<seq<Vector>>): Res<seq<Vector>> {
    match r case Ok(more) => Ok(rs + more) case Err(e) => Err(e)
  }

  /** All steps from `ts` on; results stay in memory. */
  ghost function Steps(p: Params, ms: seq<Matrix>, ts: int, held: int): Res<seq<Vector>>
    requires p.interval > 0
    decreases p.end - ts + p.interval
  {
    if ts > p.end then Ok([])
    else
      match Step(p, ms, ts, held)
      case Err(e) => Err(e)
      case Ok(v) => Prepend([v], Steps(p, ms, ts + p.interval, held + |v|))
  }

  // ---------- cursors ----------

  /** InOrder timestamps on the grid of steps. */
  ghost predicate OnGrid(ps: seq<Point>, ts: int, interval: int)
    requires interval > 0
  {
    InOrder(ps) && forall i :: 0 <= i < |ps| ==> (ps[i].t - ts) % interval == 0
  }

  /** What a cursor still has to visit at `ts`. */
  function From(ps: seq<Point>, ts: int): seq<Point> {
    if ps != [] && ps[0].t < ts then From(ps[1..], ts) else ps
  }

  function FromAll(m: Matrix, ts: int): Matrix {
    seq(|m|, i requires 0 <= i < |m| => Series(m[i].metric, From(m[i].points, ts)))
  }

  lemma {:induction false} NotAt(ps: seq<Point>, ts: int)
    requires forall i :: 0 <= i < |ps| ==> ps[i].t != ts
    ensures ValueAt(ps, ts) == None
  {
    if ps != [] { NotAt(ps[1..], ts); }
  }

  lemma {:induction false} FromAt(ps: seq<Point>, ts: int)
    requires InOrder(ps)
    ensures var r := From(ps, ts);
            && InOrder(r) && (forall i :: 0 <= i < |r| ==> r[i] in ps && ts <= r[i].t)
            && ValueAt(ps, ts) == (if r != [] && r[0].t == ts then Some(r[0].v) else None)
  {
    if ps != [] && ps[0].t < ts {
      FromAt(ps[1..], ts);
    } else if ps != [] && ps[0].t > ts {
      NotAt(ps, ts);
    }
  }

  lemma {:induction false} FromNext(ps: seq<Point>, ts: int, interval: int)
    requires interval > 0 && OnGrid(ps, ts, interval)
    ensures var r := From(ps, ts);
            From(ps, ts + interval) == if r != [] && r[0].t == ts then r[1..] else r
  {
    if ps != [] {
      if ps[0].t < ts {
        FromNext(ps[1..], ts, interval);
      } else if ps[0].t > ts {
        GridGap(ps[0].t - ts, interval);
      } else if |ps| > 1 {
        assert ps[0].t < ps[1].t;
        GridGap(ps[1].t - ts, interval);
        assert ps[1..][0] == ps[1];
      }
    }
  }

  lemma GridGap(d: int, interval: int)
    requires interval > 0 && d > 0 && d % interval == 0
    ensures d >= interval
  {
    if d < interval { DivModUnique(d, interval, 0, d); }
  }

  lemma {:induction false} GridShift(ps: seq<Point>, ts: int, interval: int)
    requires interval > 0 && OnGrid(ps, ts, interval)
    ensures OnGrid(ps, ts + interval, interval)
  {
    forall i | 0 <= i < |ps| ensures (ps[i].t - (ts + interval)) % interval == 0 {
      MultipleMod(interval, 1);
      ModDifference(ps[i].t - ts, interval, interval);
    }
  }

  ghost predicate AllOnGrid(m: Matrix, ts: int, interval: int)
    requires interval > 0
  {
    forall i :: 0 <= i < |m| ==> OnGrid(m[i].points, ts, interval)
  }

  /** What one series contributes to a step, and what its cursor does. */
  lemma {:induction false} HeadIsEnough(s: Series, ts: int, interval: int)
    requires interval > 0 && OnGrid(s.points, ts, interval)
    ensures var r := From(s.points, ts);
            var hit := r != [] && r[0].t == ts;
            && ValueAt(s.points, ts) == (if hit then Some(r[0].v) else None)
            && From(s.points, ts + interval) == (if hit then r[1..] else r)
  {
    FromAt(s.points, ts);
    FromNext(s.points, ts, interval);
  }

  lemma VectorAtMore(m: Matrix, i: nat, ts: int)
    requires i < |m|
    ensures VectorAt(m[..i + 1], ts) == VectorAt(m[..i], ts) + match ValueAt(m[i].points, ts) case Some(v) => [Sample(m[i].metric, v)] case None => []
  {
    assert m[..i + 1][..i] == m[..i];
  }

  /** One matrix at one step: takes the matching heads, as long as the limit allows. */
  method Gather(p: Params, rest: Matrix, ts: int, held: int, ghost m: Matrix) returns (ok: bool, vec: Vector, rest': Matrix, held': int)
    requires p.interval > 0 && AllOnGrid(m, ts, p.interval) && rest == FromAll(m, ts)
    ensures ok <==> |VectorAt(m, ts)| == 0 || held + |VectorAt(m, ts)| <= p.max
    ensures ok ==> vec == VectorAt(m, ts) && held' == held + |vec| && rest' == FromAll(m, ts + p.interval)
  {
    hide OnGrid, From, ValueAt, VectorAt;
    vec, rest', held' := [], rest, held;
    var i := 0;
    EmptyVector(m, ts);
    while i < |rest|
      invariant 0 <= i <= |rest| && |rest'| == |rest|
      invariant vec == VectorAt(m[..i], ts) && held' == held + |vec| && (|vec| > 0 ==> held' <= p.max)
      invariant forall j :: 0 <= j < i ==> rest'[j] == Series(m[j].metric, From(m[j].points, ts + p.interval))
      invariant forall j :: i <= j < |rest| ==> rest'[j] == rest[j]
    {
      var s := rest'[i];
      VectorAtMore(m, i, ts);
      LongerPrefix(m, i + 1, ts);
      HeadIsEnough(m[i], ts, p.interval);
      if |s.points| > 0 && s.points[0].t == ts {
        if held' >= p.max { return false, vec, rest', held'; }
        vec := vec + [Sample(s.metric, s.points[0].v)];
        rest' := rest'[i := s.(points := s.points[1..])];
        held' := held' + 1;
      }
      i := i + 1;
    }
    assert m[..i] == m;
    assert rest' == FromAll(m, ts + p.interval);
    ok := true;
  }

  lemma EmptyVector(m: Matrix, ts: int)
    ensures VectorAt(m[..0], ts) == []
  {
  }

  lemma {:induction false} LongerPrefix(m: Matrix, k: nat, ts: int)
    requires k <= |m|
    ensures |VectorAt(m[..k], ts)| <= |VectorAt(m, ts)|
    decreases |m| - k
  {
    if k == |m| { assert m[..k] == m; }
    else {
      assert m[..k + 1][..k] == m[..k];
      LongerPrefix(m, k + 1, ts);
    }
  }

  lemma {:induction false} SizePrefix(vs: seq<Vector>, k: nat)
    requires k <= |vs|
    ensures Size(vs[..k]) <= Size(vs)
    decreases |vs| - k
  {
    if k == |vs| { assert vs[..k] == vs; }
    else {
      assert vs[..k + 1][..k] == vs[..k];
      SizePrefix(vs, k + 1);
    }
  }

  ghost predicate Grids(ms: seq<Matrix>, ts: int, interval: int)
    requires interval > 0
  {
    forall i :: 0 <= i < |ms| ==> AllOnGrid(ms[i], ts, interval)
  }

  ghost predicate Cursors(rests: seq<Matrix>, ms: seq<Matrix>, ts: int) {
    |rests| == |ms| && forall i :: 0 <= i < |ms| ==> rests[i] == FromAll(ms[i], ts)
  }

  /** All inputs of one step. */
  method GatherAll(p: Params, rests: seq<Matrix>, ts: int, held: int, ghost ms: seq<Matrix>)
    returns (ok: bool, vs: seq<Vector>, rests': seq<Matrix>, held': int)
    requires p.interval > 0 && Grids(ms, ts, p.interval) && Cursors(rests, ms, ts)
    ensures ok <==> Size(VectorsAt(ms, ts)) == 0 || held + Size(VectorsAt(ms, ts)) <= p.max
    ensures ok ==> vs == VectorsAt(ms, ts) && held' == held + Size(vs) && Cursors(rests', ms, ts + p.interval)
  {
    hide FromAll, VectorAt, AllOnGrid;
    vs, rests', held' := [], [], held;
    ghost var all := VectorsAt(ms, ts);
    var i := 0;
    while i < |rests|
      invariant 0 <= i <= |rests| && |rests'| == i && |vs| == i
      invariant vs == all[..i] && held' == held + Size(vs) && (Size(vs) > 0 ==> held' <= p.max)
      invariant forall j :: 0 <= j < i ==> rests'[j] == FromAll(ms[j], ts + p.interval)
    {
      var good, v, rest;
      ghost var was := held';
      good, v, rest, held' := Gather(p, rests[i], ts, held', ms[i]);
      SizeMore(all, i);
      SizePrefix(all, i + 1);
      if !good { return false, vs, rests', held'; }
      vs, rests' := vs + [v], rests' + [rest];
      i := i + 1;
    }
    assert all[..i] == all;
    ok := true;
  }

  lemma SizeMore(vs: seq<Vector>, i: nat)
    requires i < |vs|
    ensures Size(vs[..i + 1]) == Size(vs[..i]) + |vs[i]|
  {
    assert vs[..i + 1][..i] == vs[..i];
  }

  method ContainsSameLabelset(v: Vector) returns (same: bool)
    ensures same == Repeats(v)
  {
    var seen: set<Labels> := {};
    var i := 0;
    while i < |v|
      invariant 0 <= i <= |v| && !Repeats(v[..i])
      invariant forall l :: l in seen <==> exists j :: 0 <= j < i && v[j].metric == l
    {
      if v[i].metric in seen { return true; }
      ghost var was := seen;
      seen := seen + {v[i].metric};
      forall l ensures l in seen <==> exists j :: 0 <= j < i + 1 && v[j].metric == l {
        if l in was { var j :| 0 <= j < i && v[j].metric == l; }
        assert v[i].metric in seen;
      }
      i := i + 1;
    }
    assert v[..i] == v;
    same := false;
  }

  // ---------- output series ----------

  function Lookup(v: Vector, l: Labels): Option<real> {
    if v == [] then None
    else if v[|v| - 1].metric == l then Some(v[|v| - 1].v) else Lookup(v[..|v| - 1], l)
  }

  function StepTime(p: Params, k: int): int { p.start + k * p.interval }

  lemma StepTimeIncreases(p: Params, j: int, k: int)
    requires p.interval > 0
    ensures j < k ==> StepTime(p, j) < StepTime(p, k)
  {
    if j < k { MulMonotone(p.interval, j + 1, k); }
  }

  /** The points of one label set over the steps that have run. */
  function Column(p: Params, rs: seq<Vector>, l: Labels): seq<Point> {
    if rs == [] then []
    else
      var n := |rs| - 1;
      Column(p, rs[..n], l) + match Lookup(rs[n], l) case Some(v) => [Point(StepTime(p, n), v)] case None => []
  }

  type Output = map<Labels, seq<Point>>

  function PointsOf(out: Output, l: Labels): seq<Point> { if l in out then out[l] else [] }

  ghost predicate NoEmpty(out: Output) { forall l :: l in out ==> out[l] != [] }

  ghost predicate Collects(p: Params, rs: seq<Vector>, out: Output) {
    forall l :: (l in out <==> Column(p, rs, l) != []) && PointsOf(out, l) == Column(p, rs, l)
  }

  lemma {:induction false} LookupAbsent(v: Vector, l: Labels)
    requires forall i :: 0 <= i < |v| ==> v[i].metric != l
    ensures Lookup(v, l) == None
  {
    if v != [] { LookupAbsent(v[..|v| - 1], l); }
  }

  lemma {:induction false} LookupIs(v: Vector, l: Labels, x: real)
    requires !Repeats(v)
    ensures Lookup(v, l) == Some(x) <==> Sample(l, x) in v
  {
    if v != [] {
      var n := |v| - 1;
      assert !Repeats(v[..n]) by {
        forall i, j | 0 <= i < j < n ensures v[..n][i].metric != v[..n][j].metric { assert v[i].metric != v[j].metric; }
      }
      LookupIs(v[..n], l, x);
      assert v == v[..n] + [v[n]];
      if v[n].metric == l {
        forall i | 0 <= i < n ensures v[..n][i].metric != l { assert v[i].metric != v[n].metric; }
      }
    }
  }

  /** What appending a result at `ts` does to every series. */
  ghost predicate Appended(out: Output, v: Vector, ts: int, out': Output) {
    forall l :: PointsOf(out', l) == PointsOf(out, l) + (match Lookup(v, l) case Some(x) => [Point(ts, x)] case None => [])
  }

  /** Appends a result's samples to the series of their label sets. */
  method Append(out: Output, v: Vector, ts: int) returns (out': Output)
    requires !Repeats(v) && NoEmpty(out)
    ensures Appended(out, v, ts, out')
    ensures NoEmpty(out')
  {
    out' := out;
    var i := 0;
    while i < |v|
      invariant 0 <= i <= |v|
      invariant Appended(out, v[..i], ts, out')
      invariant NoEmpty(out')
    {
      var s := v[i];
      assert v[..i + 1][..i] == v[..i];
      assert Lookup(v[..i], s.metric) == None by {
        forall j | 0 <= j < i ensures v[..i][j].metric != s.metric { assert v[j].metric != v[i].metric; }
        LookupAbsent(v[..i], s.metric);
      }
      assert PointsOf(out', s.metric) == PointsOf(out, s.metric);
      out' := out'[s.metric := PointsOf(out', s.metric) + [Point(ts, s.v)]];
      i := i + 1;
    }
    assert v[..i] == v;
  }

  // ---------- the whole evaluation ----------

  ghost predicate DistinctMetrics(m: Matrix) { forall i, j :: 0 <= i < j < |m| ==> m[i].metric != m[j].metric }

  /** The output has exactly the non-empty columns, in any order. */
  ghost predicate Assembles(p: Params, rs: seq<Vector>, m: Matrix) {
    && DistinctMetrics(m)
    && (forall i :: 0 <= i < |m| ==> m[i].points == Column(p, rs, m[i].metric) && m[i].points != [])
    && (forall l :: Column(p, rs, l) != [] ==> HasSeries(m, l))
  }

  ghost predicate HasSeries(m: Matrix, l: Labels) { exists i :: 0 <= i < |m| && m[i].metric == l }

  function TotalSamples(m: Matrix): nat { if m == [] then 0 else TotalSamples(m[..|m| - 1]) + |m[|m| - 1].points| }

  method CountSamples(m: Matrix) returns (n: nat)
    ensures n == TotalSamples(m)
  {
    n := 0;
    var i := 0;
    while i < |m|
      invariant 0 <= i <= |m| && n == TotalSamples(m[..i])
    {
      assert m[..i + 1][..i] == m[..i];
      n := n + |m[i].points|;
      i := i + 1;
    }
    assert m[..i] == m;
  }

  /** The collected series, in any order. */
  method Listing(out: Output) returns (m: Matrix)
    ensures DistinctMetrics(m)
    ensures forall i :: 0 <= i < |m| ==> m[i].metric in out && m[i].points == out[m[i].metric]
    ensures forall l :: l in out ==> HasSeries(m, l)
  {
    m := [];
    var todo := out.Keys;
    while todo != {}
      invariant todo <= out.Keys
      invariant forall i :: 0 <= i < |m| ==> m[i].metric in out && m[i].metric !in todo && m[i].points == out[m[i].metric]
      invariant DistinctMetrics(m)
      invariant forall l :: l in out && l !in todo ==> HasSeries(m, l)
      decreases |todo|
    {
      var l :| l in todo;
      ghost var was := m;
      m := m + [Series(l, out[l])];
      todo := todo - {l};
      forall x | x in out && x !in todo ensures HasSeries(m, x) { HasSeriesMore(was, m[|was|], x); }
    }
  }

  lemma HasSeriesMore(m: Matrix, s: Series, l: Labels)
    ensures s.metric == l || HasSeries(m, l) ==> HasSeries(m + [s], l)
  {
    assert (m + [s])[|m|] == s;
    if HasSeries(m, l) { var i :| 0 <= i < |m| && m[i].metric == l; assert (m + [s])[i] == m[i]; }
  }

  method Assemble(p: Params, out: Output, ghost rs: seq<Vector>) returns (m: Matrix)
    requires Collects(p, rs, out)
    ensures Assembles(p, rs, m)
  {
    hide Column;
    m := Listing(out);
    forall i | 0 <= i < |m| ensures m[i].points == Column(p, rs, m[i].metric) && m[i].points != [] {
      assert PointsOf(out, m[i].metric) == Column(p, rs, m[i].metric);
    }
  }

  lemma {:induction false} CollectsMore(p: Params, rs: seq<Vector>, out: Output, v: Vector, ts: int, out': Output)
    requires Collects(p, rs, out) && ts == StepTime(p, |rs|)
    requires Appended(out, v, ts, out')
    requires NoEmpty(out')
    ensures Collects(p, rs + [v], out')
  {
    var all := rs + [v];
    assert all[..|rs|] == rs;
    forall l ensures (l in out' <==> Column(p, all, l) != []) && PointsOf(out', l) == Column(p, all, l) {
      assert PointsOf(out, l) == Column(p, rs, l);
      assert PointsOf(out', l) == PointsOf(out, l) + (match Lookup(v, l) case Some(x) => [Point(ts, x)] case None => []);
    }
  }

  lemma PrependMore(rs: seq<Vector>, v: Vector, r: Res<seq<Vector>>)
    ensures Prepend(rs, Prepend([v], r)) == Prepend(rs + [v], r)
  {
    if r.Ok? { assert rs + ([v] + r.value) == rs + [v] + r.value; }
  }

  lemma StepsUnfold(p: Params, ms: seq<Matrix>, ts: int, held: int, rs: seq<Vector>)
    requires p.interval > 0 && ts <= p.end
    ensures Prepend(rs, Steps(p, ms, ts, held))
         == match Step(p, ms, ts, held)
            case Err(e) => Err(e)
            case Ok(v) => Prepend(rs + [v], Steps(p, ms, ts + p.interval, held + |v|))
  {
    hide Step;
    if Step(p, ms, ts, held).Ok? {
      var v := Step(p, ms, ts, held).value;
      PrependMore(rs, v, Steps(p, ms, ts + p.interval, held + |v|));
    }
  }

  lemma StepsAround(p: Params, ms: seq<Matrix>, ts: int, held: int, rs: seq<Vector>)
    requires p.interval > 0
    ensures Prepend([], Steps(p, ms, ts, held)) == Steps(p, ms, ts, held)
    ensures ts > p.end ==> Prepend(rs, Steps(p, ms, ts, held)) == Ok(rs)
  {
    var r := Steps(p, ms, ts, held);
    if r.Ok? { assert [] + r.value == r.value; }
    if ts > p.end { assert rs + [] == rs; }
  }

  lemma NextStep(p: Params, k: nat)
    ensures StepTime(p, k) + p.interval == StepTime(p, k + 1)
  {
  }

  lemma {:induction false} GridsShift(ms: seq<Matrix>, ts: int, interval: int)
    requires interval > 0 && Grids(ms, ts, interval)
    ensures Grids(ms, ts + interval, interval)
  {
    forall i, j | 0 <= i < |ms| && 0 <= j < |ms[i]| ensures OnGrid(ms[i][j].points, ts + interval, interval) {
      assert AllOnGrid(ms[i], ts, interval);
      GridShift(ms[i][j].points, ts, interval);
    }
  }

  /** Runs one step with the cursors. */
  method RunStep(p: Params, rests: seq<Matrix>, ts: int, held: int, ghost ms: seq<Matrix>) returns (r: Res<Vector>, rests': seq<Matrix>)
    requires p.interval > 0 && Grids(ms, ts, p.interval) && Cursors(rests, ms, ts)
    ensures r == Step(p, ms, ts, held)
    ensures r.Ok? ==> Cursors(rests', ms, ts + p.interval) && !Repeats(r.value)
  {
    var ok, vs, current;
    ok, vs, rests', current := GatherAll(p, rests, ts, held, ms);
    if !ok { return Err(TooManySamples), rests'; }
    r := p.call(vs, ts);
    if r.Err? { return; }
    var same := ContainsSameLabelset(r.value);
    if same { return Err(SameLabelset), rests'; }
    current := current + |r.value|;
    if current > p.max { return Err(TooManySamples), rests'; }
  }

  /** Every point lies at or after the start, on the grid. */
  ghost predicate Proper(p: Params, ms: seq<Matrix>) {
    && p.interval > 0 && Grids(ms, p.start, p.interval)
    && forall i, j :: 0 <= i < |ms| && 0 <= j < |ms[i]| ==> From(ms[i][j].points, p.start) == ms[i][j].points
  }

  lemma CursorsStart(p: Params, ms: seq<Matrix>)
    requires Proper(p, ms)
    ensures p.interval > 0 && Grids(ms, p.start, p.interval) && Cursors(ms, ms, p.start)
  {
    forall i | 0 <= i < |ms| ensures ms[i] == FromAll(ms[i], p.start) {}
  }

  /** The single step of an instant query keeps the order of its result. */
  function Instant(v: Vector, ts: int): Matrix { seq(|v|, i requires 0 <= i < |v| => Series(v[i].metric, [Point(ts, v[i].v)])) }

  /** What holds between two steps. */
  ghost predicate Running(p: Params, ms: seq<Matrix>, held: int, rests: seq<Matrix>, out: Output, ts: int, temp: int, rs: seq<Vector>) {
    && p.interval > 0 && Grids(ms, ts, p.interval) && Cursors(rests, ms, ts) && ts == StepTime(p, |rs|)
    && Collects(p, rs, out) && NoEmpty(out)
    && Steps(p, ms, p.start, held) == Prepend(rs, Steps(p, ms, ts, temp))
  }

  lemma RunningFirst(p: Params, ms: seq<Matrix>, held: int)
    requires Proper(p, ms)
    ensures Running(p, ms, held, ms, map[], p.start, held, [])
  {
    assert StepTime(p, 0) == p.start;
    CursorsStart(p, ms);
    NothingCollected(p);
    StepsAround(p, ms, p.start, held, []);
  }

  lemma RunningNext(p: Params, ms: seq<Matrix>, held: int, rests: seq<Matrix>, out: Output, ts: int, temp: int, rs: seq<Vector>,
                    v: Vector, rests': seq<Matrix>, out': Output)
    requires Running(p, ms, held, rests, out, ts, temp, rs) && ts <= p.end && Step(p, ms, ts, temp) == Ok(v)
    requires Cursors(rests', ms, ts + p.interval) && Appended(out, v, ts, out') && NoEmpty(out')
    ensures Running(p, ms, held, rests', out', ts + p.interval, temp + |v|, rs + [v])
  {
    hide Step, Cursors, Collects, Grids, NoEmpty, Appended, StepTime;
    StepsUnfold(p, ms, ts, temp, rs);
    CollectsMore(p, rs, out, v, ts, out');
    GridsShift(ms, ts, p.interval);
    NextStep(p, |rs|);
  }

  /** When the steps end, in an error, at the last step or past it. */
  lemma RunningEnds(p: Params, ms: seq<Matrix>, held: int, rests: seq<Matrix>, out: Output, ts: int, temp: int, rs: seq<Vector>)
    requires Running(p, ms, held, rests, out, ts, temp, rs)
    ensures ts > p.end ==> Steps(p, ms, p.start, held) == Ok(rs)
    ensures ts <= p.end && Step(p, ms, ts, temp).Err? ==> Steps(p, ms, p.start, held) == Err(Step(p, ms, ts, temp).error)
    ensures ts == p.end && Step(p, ms, ts, temp).Ok? ==> Steps(p, ms, p.start, held) == Ok(rs + [Step(p, ms, ts, temp).value])
  {
    hide Step, Cursors, Collects, Grids, NoEmpty, Appended, StepTime;
    StepsAround(p, ms, ts, temp, rs);
    if ts <= p.end {
      StepsUnfold(p, ms, ts, temp, rs);
      if Step(p, ms, ts, temp).Ok? {
        var v := Step(p, ms, ts, temp).value;
        StepsAround(p, ms, ts + p.interval, temp + |v|, rs + [v]);
      }
    }
  }

  lemma RunningFacts(p: Params, ms: seq<Matrix>, held: int, rests: seq<Matrix>, out: Output, ts: int, temp: int, rs: seq<Vector>)
    requires Running(p, ms, held, rests, out, ts, temp, rs)
    ensures p.interval > 0 && Grids(ms, ts, p.interval) && Cursors(rests, ms, ts) && Collects(p, rs, out) && NoEmpty(out)
  {
    hide Cursors, Collects, Grids, NoEmpty, Steps;
  }

  method Evaluate(p: Params, ms: seq<Matrix>, held: int, original: int) returns (r: Res<Matrix>, current: int)
    requires Proper(p, ms)
    ensures p.interval > 0
    ensures match Steps(p, ms, p.start, held)
            case Err(e) => r == Err(e)
            case Ok(vs) =>
              && r.Ok? && current == original + TotalSamples(r.value)
              && (if p.start == p.end then |vs| == 1 && r.value == Instant(vs[0], p.start) else Assembles(p, vs, r.value))
  {
    hide Proper, Running, Cursors, Collects, Grids, NoEmpty, Appended, Step, Steps, Assembles, TotalSamples, Repeats, Instant, Prepend, StepTime, Column, Lookup, PointsOf, VectorsAt, Size;
    RunningFirst(p, ms, held);
    RunningFacts(p, ms, held, ms, map[], p.start, held, []);
    var rests, out: Output, ts, temp := ms, map[], p.start, held;
    ghost var rs: seq<Vector> := [];
    current := held;
    while ts <= p.end
      invariant Running(p, ms, held, rests, out, ts, temp, rs)
      invariant p.start == p.end ==> rs == [] && ts == p.start
      decreases p.end - ts + p.interval
    {
      RunningFacts(p, ms, held, rests, out, ts, temp, rs);
      RunningEnds(p, ms, held, rests, out, ts, temp, rs);
      var step, rests' := RunStep(p, rests, ts, temp, ms);
      if step.Err? { return Err(step.error), current; }
      var v := step.value;
      if p.start == p.end {
        r := Ok(Instant(v, ts));
        var n := CountSamples(r.value);
        return r, original + n;
      }
      var next := Append(out, v, ts);
      RunningNext(p, ms, held, rests, out, ts, temp, rs, v, rests', next);
      rests, out, temp, ts, rs := rests', next, temp + |v|, ts + p.interval, rs + [v];
    }
    RunningFacts(p, ms, held, rests, out, ts, temp, rs);
    RunningEnds(p, ms, held, rests, out, ts, temp, rs);
    var m := Assemble(p, out, rs);
    var n := CountSamples(m);
    r := Ok(m);
    current := original + n;
  }

  lemma NothingCollected(p: Params)
    ensures Collects(p, [], map[]) && NoEmpty(map[])
  {
  }

  // ---------- what the output means ----------

  ghost predicate IsStep(p: Params, rs: seq<Vector>, k: int, t: int) { 0 <= k < |rs| && t == StepTime(p, k) }

  ghost predicate OnStep(p: Params, rs: seq<Vector>, t: int) { exists k :: IsStep(p, rs, k, t) }

  /** Output series have increasing timestamps on the grid. */
  lemma {:induction false} ColumnShape(p: Params, rs: seq<Vector>, l: Labels)
    requires p.interval > 0
    ensures var c := Column(p, rs, l);
            InOrder(c) && forall i :: 0 <= i < |c| ==> OnStep(p, rs, c[i].t)
  {
    hide StepTime, Lookup;
    var n := |rs| - 1;
    if rs != [] {
      var before, c := Column(p, rs[..n], l), Column(p, rs, l);
      ColumnShape(p, rs[..n], l);
      forall i | 0 <= i < |before| ensures before[i].t < StepTime(p, n) && OnStep(p, rs, before[i].t) {
        var k :| IsStep(p, rs[..n], k, before[i].t);
        StepTimeIncreases(p, k, n);
        assert IsStep(p, rs, k, before[i].t);
      }
      assert IsStep(p, rs, n, StepTime(p, n));
      forall i | 0 <= i < |c| ensures OnStep(p, rs, c[i].t) {
        if i < |before| { assert c[i] == before[i]; } else { assert IsStep(p, rs, n, c[i].t); }
      }
    }
  }

  lemma {:induction false} ColumnEarlier(p: Params, rs: seq<Vector>, l: Labels, k: int, x: real)
    requires p.interval > 0 && k >= |rs|
    ensures Point(StepTime(p, k), x) !in Column(p, rs, l)
  {
    hide StepTime;
    ColumnShape(p, rs, l);
    forall j ensures j < k ==> StepTime(p, j) < StepTime(p, k) { StepTimeIncreases(p, j, k); }
  }

  /** They hold a point at a step exactly when the call at that step returned their label set, with the
      returned value. */
  lemma {:induction false} ColumnMeaning(p: Params, rs: seq<Vector>, l: Labels, k: nat, x: real)
    requires p.interval > 0 && k < |rs| && !Repeats(rs[k])
    ensures Point(StepTime(p, k), x) in Column(p, rs, l) <==> Sample(l, x) in rs[k]
    decreases |rs|
  {
    hide StepTime, Repeats;
    var n := |rs| - 1;
    LookupIs(rs[k], l, x);
    StepTimeIncreases(p, k, n);
    if k < n { ColumnMeaning(p, rs[..n], l, k, x); } else { ColumnEarlier(p, rs[..n], l, n, x); }
    hide Lookup;
  }
}
