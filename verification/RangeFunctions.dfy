/** What a function of a range selector means at one time, said of the stored samples. */
module RangeFunctions {
  import opened Common
  import opened PromExpr
  import opened PromEval
  import QueryRange
  import opened SubquerySteps

  /** The samples a range function sees of one series: those that are not stale, from `range` before the end
      of its window to that end. */
  ghost predicate Sees(w: Points, s: Series, range: int, maxt: int) {
    forall t, v :: QueryRange.PointAt(w, t) == Some(v) <==> maxt - range <= t <= maxt && t in s && s[t] == Some(v)
  }

  /** The function has this value for the series with these labels, which has samples in the window. */
  ghost predicate Yields(sem: Sem, id: nat, f: string, range: int, maxt: int, ts: int, l: Labels, v: real) {
    && l in sem.storage(id)
    && exists w :: Sees(w, sem.storage(id)[l], range, maxt) && w != Points(map[]) && sem.range(f, w, maxt, range, ts) == Some(v)
  }

  lemma SliceSees(s: Series, range: int, maxt: int)
    ensures Sees(Slice(Fresh(s), maxt - range, maxt), s, range, maxt)
  {
  }

  lemma SeenIn(w: Points, u: Points, s: Series, range: int, maxt: int, t: int, v: real)
    requires Sees(w, s, range, maxt) && Sees(u, s, range, maxt) && QueryRange.PointAt(w, t) == Some(v)
    ensures QueryRange.PointAt(u, t) == Some(v)
  {
    hide QueryRange.PointAt;
  }

  lemma SeesOne(w: Points, u: Points, s: Series, range: int, maxt: int)
    requires Sees(w, s, range, maxt) && Sees(u, s, range, maxt)
    ensures w == u
  {
    forall t ensures QueryRange.PointAt(w, t) == QueryRange.PointAt(u, t) {
      if QueryRange.PointAt(w, t).Some? { SeenIn(w, u, s, range, maxt, t, QueryRange.PointAt(w, t).value); }
      if QueryRange.PointAt(u, t).Some? { SeenIn(u, w, s, range, maxt, t, QueryRange.PointAt(u, t).value); }
    }
    QueryRange.PointsEqual(w, u);
  }

  lemma {:induction false} WindowYields(sem: Sem, id: nat, f: string, range: int, maxt: int, ts: int, l: Labels, v: real)
    requires l in sem.storage(id)
    ensures Window(sem, f, Fresh(sem.storage(id)[l]), maxt, range, ts) == Some(v) <==> Yields(sem, id, f, range, maxt, ts, l, v)
  {
    hide Fresh, Slice, Sees;
    var s := sem.storage(id)[l];
    var w := Slice(Fresh(s), maxt - range, maxt);
    SliceSees(s, range, maxt);
    assert w == Points(map[]) <==> w.at == map[];
    if Yields(sem, id, f, range, maxt, ts, l, v) {
      var u :| Sees(u, s, range, maxt) && u != Points(map[]) && sem.range(f, u, maxt, range, ts) == Some(v);
      SeesOne(w, u, s, range, maxt);
    }
  }

  ghost predicate Maps(m: Vector, l: Labels, v: real) { l in m && m[l] == v }

  /** The values of a range function are those of its windows. */
  lemma {:induction false} ValuesAre(sem: Sem, q: Query, id: nat, p: Place, f: string, range: int, maxt: int, ts: int)
    ensures var w := DenoteRange(sem, q, MatrixSel(id, p, range), maxt);
            w.Ok? && WindowValues(sem, f, w.value, maxt, range, ts)
                     == map l | l in sem.storage(id) && Window(sem, f, Fresh(sem.storage(id)[l]), maxt, range, ts).Some?
                          :: Window(sem, f, Fresh(sem.storage(id)[l]), maxt, range, ts).value
  {
    var db := sem.storage(id);
    var w := DenoteRange(sem, q, MatrixSel(id, p, range), maxt).value;
    forall l | l in db ensures l in w <==> Slice(Fresh(db[l]), maxt - range, maxt).at != map[]
      ensures l in w ==> Window(sem, f, w[l], maxt, range, ts) == Window(sem, f, Fresh(db[l]), maxt, range, ts)
    {
      SliceAgain(Fresh(db[l]), maxt - range, maxt);
      hide Fresh, Slice;
    }
    hide Fresh, Slice;
  }

  lemma SliceAgain(p: Points, mint: int, maxt: int)
    ensures Slice(Slice(p, mint, maxt), mint, maxt) == Slice(p, mint, maxt)
  {
  }

  lemma {:induction false} ValuesYield(sem: Sem, q: Query, id: nat, p: Place, f: string, range: int, maxt: int, ts: int, l: Labels, v: real)
    ensures var w := DenoteRange(sem, q, MatrixSel(id, p, range), maxt);
            w.Ok? && (Maps(WindowValues(sem, f, w.value, maxt, range, ts), l, v) <==> Yields(sem, id, f, range, maxt, ts, l, v))
  {
    hide DenoteRange, WindowValues, Window, Fresh;
    ValuesAre(sem, q, id, p, f, range, maxt, ts);
    if l in sem.storage(id) { WindowYields(sem, id, f, range, maxt, ts, l, v); }
  }

  /** The labels of a series in the result: its own with `last_over_time`, otherwise without the name. */
  ghost function ResultLabels(f: string, l: Labels): Labels { if f == "last_over_time" then l else DropName(l) }

  lemma {:induction false} RenamedMeans(f: string, m: Vector)
    ensures Renamed(f, m).Ok? <==> forall a, b :: a in m && b in m && a != b ==> ResultLabels(f, a) != ResultLabels(f, b)
    ensures Renamed(f, m).Ok? ==> forall l, v :: Maps(Renamed(f, m).value, l, v) <==> exists a :: Maps(m, a, v) && ResultLabels(f, a) == l
  {
    hide DropName;
    if Renamed(f, m).Ok? {
      var n := Renamed(f, m).value;
      forall l, v ensures Maps(n, l, v) <==> exists a :: Maps(m, a, v) && ResultLabels(f, a) == l {
        if Maps(n, l, v) {
          if f == "last_over_time" { assert Maps(m, l, v) && ResultLabels(f, l) == l; }
          else { var a :| a in m && DropName(a) == l && m[a] == v; assert Maps(m, a, v) && ResultLabels(f, a) == l; }
        }
        if a :| Maps(m, a, v) && ResultLabels(f, a) == l { assert l in n && n[l] == m[a]; }
      }
    }
  }

  /** Two series that get the same labels. */
  ghost predicate Collide(sem: Sem, id: nat, f: string, range: int, maxt: int, ts: int, a: Labels, b: Labels, x: real, y: real) {
    && Yields(sem, id, f, range, maxt, ts, a, x) && Yields(sem, id, f, range, maxt, ts, b, y)
    && a != b && ResultLabels(f, a) == ResultLabels(f, b)
  }

  /** What a function of a range selector means at one time: each series with samples in the window gives the
      function's value under its result labels. There is no value when two series get the same. */
  lemma {:induction false} RangeFunctionMeans(sem: Sem, q: Query, f: string, id: nat, p: Place, range: int, ts: int, maxt: int)
    requires maxt == (if p.mark == AtStart then q.start else if p.mark == AtEnd then q.end else if p.at.Some? then p.at.value else ts) - p.orig
    ensures var r := Denote(sem, q, Call(f, [MatrixSel(id, p, range)]), ts);
            && (r.Ok? <==> !exists a, b, x, y :: Collide(sem, id, f, range, maxt, ts, a, b, x, y))
            && (r.Ok? ==> forall l, v :: Maps(r.value, l, v) <==> exists a :: Yields(sem, id, f, range, maxt, ts, a, v) && ResultLabels(f, a) == l)
  {
    hide DenoteRange, WindowValues, Yields, DropName, Renamed, ResultLabels;
    var c := MatrixSel(id, p, range);
    var e := Call(f, [c]);
    var w := DenoteRange(sem, q, c, maxt);
    forall l, v ensures w.Ok? && (Maps(WindowValues(sem, f, w.value, maxt, range, ts), l, v) <==> Yields(sem, id, f, range, maxt, ts, l, v)) {
      ValuesYield(sem, q, id, p, f, range, maxt, ts, l, v);
    }
    assert w.Ok? by { ValuesYield(sem, q, id, p, f, range, maxt, ts, Labels(map[]), 0.0); }
    var m := WindowValues(sem, f, w.value, maxt, range, ts);
    assert Core(e.args[0]) == c && RangeCall(e);
    assert Denote(sem, q, e, ts) == Renamed(f, m);
    hide Denote;
    RenamedMeans(f, m);
    forall a, x | Yields(sem, id, f, range, maxt, ts, a, x) ensures a in m { assert Maps(m, a, x); }
    forall a | a in m ensures Yields(sem, id, f, range, maxt, ts, a, m[a]) { assert Maps(m, a, m[a]); }
    if a, b :| a in m && b in m && a != b && ResultLabels(f, a) == ResultLabels(f, b) {
      assert Collide(sem, id, f, range, maxt, ts, a, b, m[a], m[b]);
    }
  }

  // ---------- functions of a subquery ----------

  /** The body has this value at a multiple of the step in the window. */
  ghost predicate InBody(sem: Sem, q: Query, body: Expr, every: int, mint: int, maxt: int, l: Labels, t: int, v: real)
    requires every > 0
  {
    Due(t, every, mint, maxt) && Denote(sem, q, body, t).Ok? && Maps(Denote(sem, q, body, t).value, l, v)
  }

  /** The points a range function sees of one label set: the body's values at the multiples of the step in the
      window. */
  ghost predicate SeesBody(w: Points, sem: Sem, q: Query, body: Expr, every: int, mint: int, maxt: int, l: Labels)
    requires every > 0
  {
    forall t, v :: QueryRange.PointAt(w, t) == Some(v) <==> InBody(sem, q, body, every, mint, maxt, l, t, v)
  }

  ghost predicate BodyYields(sem: Sem, q: Query, body: Expr, f: string, range: int, every: int, maxt: int, ts: int, l: Labels, v: real)
    requires every > 0
  {
    exists w :: SeesBody(w, sem, q, body, every, maxt - range, maxt, l) && w != Points(map[]) && sem.range(f, w, maxt, range, ts) == Some(v)
  }

  /** The points of a label set in a matrix, none if it has no series. */
  ghost function PointsIn(m: Matrix, l: Labels): Points { if l in m then m[l] else Points(map[]) }

  lemma PointsInAt(m: Matrix, l: Labels, t: int, v: real)
    ensures QueryRange.PointAt(PointsIn(m, l), t) == Some(v) <==> Maps(At(m, t), l, v)
  {
  }

  lemma {:induction false} MatrixSees(sem: Sem, q: Query, body: Expr, every: int, mint: int, maxt: int, m: Matrix, l: Labels)
    requires every > 0 && HasAll(sem, q, body, every, mint, maxt) && HoldsAll(sem, q, body, every, mint, maxt, m)
    ensures SeesBody(PointsIn(m, l), sem, q, body, every, mint, maxt, l)
  {
    hide Denote, At, Due, PointsIn, QueryRange.PointAt;
    forall t, v ensures QueryRange.PointAt(PointsIn(m, l), t) == Some(v) <==> InBody(sem, q, body, every, mint, maxt, l, t, v) {
      PointsInAt(m, l, t, v);
      assert At(m, t) == if Due(t, every, mint, maxt) then Denote(sem, q, body, t).value else map[];
    }
  }

  lemma SeenInBody(w: Points, sem: Sem, q: Query, body: Expr, every: int, mint: int, maxt: int, l: Labels, t: int, v: real)
    requires every > 0 && SeesBody(w, sem, q, body, every, mint, maxt, l) && QueryRange.PointAt(w, t) == Some(v)
    ensures InBody(sem, q, body, every, mint, maxt, l, t, v)
  {
    hide InBody, QueryRange.PointAt;
  }

  lemma SeenOfBody(w: Points, sem: Sem, q: Query, body: Expr, every: int, mint: int, maxt: int, l: Labels, t: int, v: real)
    requires every > 0 && SeesBody(w, sem, q, body, every, mint, maxt, l) && InBody(sem, q, body, every, mint, maxt, l, t, v)
    ensures QueryRange.PointAt(w, t) == Some(v)
  {
    hide InBody, QueryRange.PointAt;
  }

  lemma {:induction false} SeesBodyOne(w: Points, u: Points, sem: Sem, q: Query, body: Expr, every: int, mint: int, maxt: int, l: Labels)
    requires every > 0 && SeesBody(w, sem, q, body, every, mint, maxt, l) && SeesBody(u, sem, q, body, every, mint, maxt, l)
    ensures w == u
  {
    hide SeesBody, InBody;
    forall t ensures QueryRange.PointAt(w, t) == QueryRange.PointAt(u, t) {
      if QueryRange.PointAt(w, t).Some? {
        var v := QueryRange.PointAt(w, t).value;
        SeenInBody(w, sem, q, body, every, mint, maxt, l, t, v);
        SeenOfBody(u, sem, q, body, every, mint, maxt, l, t, v);
      }
      if QueryRange.PointAt(u, t).Some? {
        var v := QueryRange.PointAt(u, t).value;
        SeenInBody(u, sem, q, body, every, mint, maxt, l, t, v);
        SeenOfBody(w, sem, q, body, every, mint, maxt, l, t, v);
      }
    }
    QueryRange.PointsEqual(w, u);
  }

  /** Cutting the window out again changes nothing. */
  lemma {:induction false} SliceKeeps(w: Points, sem: Sem, q: Query, body: Expr, every: int, mint: int, maxt: int, l: Labels)
    requires every > 0 && SeesBody(w, sem, q, body, every, mint, maxt, l)
    ensures Slice(w, mint, maxt) == w
  {
    hide SeesBody, Denote, Maps;
    forall t | t in w.at ensures mint <= t <= maxt { SeenInBody(w, sem, q, body, every, mint, maxt, l, t, w.at[t]); }
  }

  lemma {:induction false} SubqueryYields(sem: Sem, q: Query, body: Expr, f: string, range: int, every: int, maxt: int, ts: int, m: Matrix, l: Labels, v: real)
    requires every > 0 && HasAll(sem, q, body, every, maxt - range, maxt) && HoldsAll(sem, q, body, every, maxt - range, maxt, m)
    requires forall k :: k in m ==> m[k] != Points(map[])
    ensures Maps(WindowValues(sem, f, m, maxt, range, ts), l, v) <==> BodyYields(sem, q, body, f, range, every, maxt, ts, l, v)
  {
    hide HasAll, HoldsAll, SeesBody, Slice;
    var w := PointsIn(m, l);
    MatrixSees(sem, q, body, every, maxt - range, maxt, m, l);
    SliceKeeps(w, sem, q, body, every, maxt - range, maxt, l);
    assert w == Points(map[]) <==> w.at == map[];
    if BodyYields(sem, q, body, f, range, every, maxt, ts, l, v) {
      var u :| SeesBody(u, sem, q, body, every, maxt - range, maxt, l) && u != Points(map[]) && sem.range(f, u, maxt, range, ts) == Some(v);
      SeesBodyOne(w, u, sem, q, body, every, maxt - range, maxt, l);
    }
  }

  ghost predicate BodiesCollide(sem: Sem, q: Query, body: Expr, f: string, range: int, every: int, maxt: int, ts: int, a: Labels, b: Labels, x: real, y: real)
    requires every > 0
  {
    && BodyYields(sem, q, body, f, range, every, maxt, ts, a, x) && BodyYields(sem, q, body, f, range, every, maxt, ts, b, y)
    && a != b && ResultLabels(f, a) == ResultLabels(f, b)
  }

  lemma SubqueryNonEmpty(sem: Sem, q: Query, c: Expr, maxt: int)
    requires c.Subquery? && DenoteRange(sem, q, c, maxt).Ok?
    ensures forall k :: k in DenoteRange(sem, q, c, maxt).value ==> DenoteRange(sem, q, c, maxt).value[k] != Points(map[])
  {
    hide RangeEval, Denote, Multiples;
    var step := StepOf(sem, c.step, c.range);
    var steps := Separately(sem, q, c.body, Multiples(step, maxt - c.range, maxt));
    RangeEvalPointwise(steps);
  }

  /** The same for a function of a subquery, which needs the body's value at every such time. */
  lemma {:induction false} SubqueryFunctionMeans(sem: Sem, q: Query, f: string, body: Expr, p: Place, range: int, step: int, every: int, ts: int, maxt: int)
    requires maxt == (if p.mark == AtStart then q.start else if p.mark == AtEnd then q.end else if p.at.Some? then p.at.value else ts) - p.orig
    requires every == (if step == 0 then sem.defaultStep(range) else step) && every > 0
    ensures var r := Denote(sem, q, Call(f, [Subquery(body, p, range, step)]), ts);
            && (r.Ok? <==> HasAll(sem, q, body, every, maxt - range, maxt)
                           && !exists a, b, x, y :: BodiesCollide(sem, q, body, f, range, every, maxt, ts, a, b, x, y))
            && (r.Ok? ==> forall l, v :: Maps(r.value, l, v) <==>
                  exists a :: BodyYields(sem, q, body, f, range, every, maxt, ts, a, v) && ResultLabels(f, a) == l)
  {
    hide DenoteRange, WindowValues, BodyYields, DropName, Renamed, ResultLabels, HasAll, HoldsAll;
    var c := Subquery(body, p, range, step);
    var e := Call(f, [c]);
    var w := DenoteRange(sem, q, c, maxt);
    SubqueryReads(sem, q, body, p, range, step, maxt);
    assert Core(e.args[0]) == c && RangeCall(e);
    assert Denote(sem, q, e, ts) == if w.Ok? then Renamed(f, WindowValues(sem, f, w.value, maxt, range, ts)) else Err;
    hide Denote;
    if w.Ok? {
      var m := WindowValues(sem, f, w.value, maxt, range, ts);
      SubqueryNonEmpty(sem, q, c, maxt);
      forall l, v ensures Maps(m, l, v) <==> BodyYields(sem, q, body, f, range, every, maxt, ts, l, v) {
        SubqueryYields(sem, q, body, f, range, every, maxt, ts, w.value, l, v);
      }
      RenamedMeans(f, m);
      forall a, x | BodyYields(sem, q, body, f, range, every, maxt, ts, a, x) ensures a in m { assert Maps(m, a, x); }
      forall a | a in m ensures BodyYields(sem, q, body, f, range, every, maxt, ts, a, m[a]) { assert Maps(m, a, m[a]); }
      if a, b :| a in m && b in m && a != b && ResultLabels(f, a) == ResultLabels(f, b) {
        assert BodiesCollide(sem, q, body, f, range, every, maxt, ts, a, b, m[a], m[b]);
      }
    }
  }
}
