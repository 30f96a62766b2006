/** The rewrites preserve meaning: evaluating the preprocessed tree over a range gives, at
    every step, the value of the written expression at that step. */
module StepInvariance {
  import opened Common
  import opened PromExpr
  import opened PromEval
  import opened IntMath

  // ---------- what the rewrites establish ----------

  /** The offset makes `start - offset` the written reading time, and the mark is resolved. */
  predicate PlaceReady(q: Query, start: int, p: Place) {
    && ResolveMark(p, q.start, q.end) == p
    && p.offset == p.orig + (if p.at.Some? then start - p.at.value else 0)
  }

  /** Nothing in the tree depends on the evaluation time. */
  predicate Steady(e: Expr) {
    match e
    case VectorSel(_, p) => p.at.Some?
    case MatrixSel(_, p, _) => p.at.Some?
    case Subquery(_, p, _, _) => p.at.Some?
    case Paren(x) => Steady(x)
    case Unary(_, x) => Steady(x)
    case Aggregate(_, x) => Steady(x)
    case Binary(_, l, r) => Steady(l) && Steady(r)
    case Call(f, args) => f !in UNSAFE_FUNCTIONS && forall i :: 0 <= i < |args| ==> Steady(args[i])
    case StepInvariant(_) => false
    case _ => true
  }

  /** Every `@` outside a subquery body sits below a wrapper. */
  predicate Wrapped(e: Expr) {
    match e
    case VectorSel(_, p) => p.at.None?
    case MatrixSel(_, p, _) => p.at.None?
    case Subquery(_, p, _, _) => p.at.None?
    case Paren(x) => Wrapped(x)
    case Unary(_, x) => Wrapped(x)
    case Aggregate(_, x) => Wrapped(x)
    case Binary(_, l, r) => Wrapped(l) && Wrapped(r)
    case Call(f, args) => forall i :: 0 <= i < |args| ==> Wrapped(args[i])
    case _ => true
  }

  /** Offsets are set for evaluation from `start`, wrappers hold steady trees, and subquery
      bodies are wrapped and free of `@`. */
  predicate Prepared(q: Query, start: int, e: Expr) {
    match e
    case VectorSel(_, p) => PlaceReady(q, start, p)
    case MatrixSel(_, p, _) => PlaceReady(q, start, p)
    case Subquery(b, p, _, _) => PlaceReady(q, start, p) && NoAt(b) && Wrapped(b) && Prepared(q, start, b)
    case Paren(x) => Prepared(q, start, x)
    case Unary(_, x) => Prepared(q, start, x)
    case Aggregate(_, x) => Prepared(q, start, x)
    case Binary(_, l, r) => Prepared(q, start, l) && Prepared(q, start, r)
    case Call(_, args) => forall i :: 0 <= i < |args| ==> Prepared(q, start, args[i])
    case StepInvariant(x) => Steady(x) && Prepared(q, start, x)
    case _ => true
  }

  // ---------- without @, the evaluation time does not matter ----------

  lemma {:induction false} PreparedAnyStart(q: Query, s1: int, s2: int, e: Expr)
    requires NoAt(e) && Prepared(q, s1, e)
    ensures Prepared(q, s2, e)
    decreases e
  {
    match e
    case Subquery(b, _, _, _) => PreparedAnyStart(q, s1, s2, b);
    case Paren(x) => PreparedAnyStart(q, s1, s2, x);
    case Unary(_, x) => PreparedAnyStart(q, s1, s2, x);
    case Aggregate(_, x) => PreparedAnyStart(q, s1, s2, x);
    case Binary(_, l, r) => PreparedAnyStart(q, s1, s2, l); PreparedAnyStart(q, s1, s2, r);
    case Call(_, args) =>
      forall i | 0 <= i < |args| ensures Prepared(q, s2, args[i]) { PreparedAnyStart(q, s1, s2, args[i]); }
    case StepInvariant(x) => PreparedAnyStart(q, s1, s2, x);
    case _ =>
  }

  lemma {:induction false} SetOffsetNoAt(q: Query, start: int, t: int, e: Expr, path: SubqueryPath)
    requires NoAt(e) && Prepared(q, start, e)
    ensures SetOffset(t, e, path) == e
    decreases e
  {
    match e
    case Subquery(b, p, _, _) => SetOffsetNoAt(q, start, t, b, Enter(path, p));
    case Paren(x) => SetOffsetNoAt(q, start, t, x, path);
    case Unary(_, x) => SetOffsetNoAt(q, start, t, x, path);
    case Aggregate(_, x) => SetOffsetNoAt(q, start, t, x, path);
    case Binary(_, l, r) => SetOffsetNoAt(q, start, t, l, path); SetOffsetNoAt(q, start, t, r, path);
    case Call(_, args) =>
      forall i | 0 <= i < |args| ensures SetOffset(t, args[i], path) == args[i] {
        SetOffsetNoAt(q, start, t, args[i], path);
      }
      assert SetOffsets(t, args, path) == args;
    case StepInvariant(x) => SetOffsetNoAt(q, start, t, x, path);
    case _ =>
  }

  // ---------- a steady tree means the same at every time ----------

  /** Parentheses around a range argument change nothing. */
  lemma {:induction false} CoreOfRange(q: Query, start: int, a: Expr)
    requires RangeArg(a) && Prepared(q, start, a)
    ensures var c := Core(a);
            && (c.MatrixSel? || c.Subquery?) && RangeArg(c) && Prepared(q, start, c)
            && (Steady(a) ==> Steady(c)) && (Wrapped(a) ==> Wrapped(c))
    decreases a
  {
    if a.Paren? { CoreOfRange(q, start, a.e); }
  }

  lemma {:induction false} SteadyMeaning(sem: Sem, q: Query, start: int, e: Expr, t1: int, t2: int)
    requires SafeSem(sem) && Steady(e) && Instant(e) && Prepared(q, start, e)
    ensures Denote(sem, q, e, t1) == Denote(sem, q, e, t2)
    decreases e
  {
    match e
    case Paren(x) => SteadyMeaning(sem, q, start, x, t1, t2);
    case Unary(_, x) => SteadyMeaning(sem, q, start, x, t1, t2);
    case Aggregate(_, x) => SteadyMeaning(sem, q, start, x, t1, t2);
    case Binary(_, l, r) => SteadyMeaning(sem, q, start, l, t1, t2); SteadyMeaning(sem, q, start, r, t1, t2);
    case Call(f, args) =>
      if RangeCall(e) {
        SteadyRangeCall(sem, q, start, e, t1, t2);
      } else {
        forall i | 0 <= i < |args| && !IsText(args[i])
          ensures Denote(sem, q, args[i], t1) == Denote(sem, q, args[i], t2)
        {
          SteadyMeaning(sem, q, start, args[i], t1, t2);
        }
        SteadyInstantCall(sem, q, e, t1, t2);
      }
    case _ =>
  }

  lemma {:induction false} SteadyRangeCall(sem: Sem, q: Query, start: int, e: Expr, t1: int, t2: int)
    requires RangeCall(e) && SafeSem(sem) && Steady(e) && Instant(e) && Prepared(q, start, e)
    ensures DenoteRangeCall(sem, q, e, t1) == DenoteRangeCall(sem, q, e, t2)
  {
    hide ApplyRange, DenoteRange;
    CoreOfRange(q, start, e.args[0]);
    var c := Core(e.args[0]);
    var maxt := Anchor(q, c.place, t1) - c.place.orig;
    assert maxt == Anchor(q, c.place, t2) - c.place.orig;
    ApplyRangeSteady(sem, e.f, maxt, c.range, t1, t2);
  }

  lemma {:induction false} ApplyRangeSteady(sem: Sem, f: string, maxt: int, range: int, t1: int, t2: int)
    requires SafeSem(sem) && f !in UNSAFE_FUNCTIONS
    ensures forall w :: ApplyRange(sem, f, w, maxt, range, t1) == ApplyRange(sem, f, w, maxt, range, t2)
  {
    forall w ensures ApplyRange(sem, f, w, maxt, range, t1) == ApplyRange(sem, f, w, maxt, range, t2) {
      if w.Ok? { WindowValuesSteady(sem, f, w.value, maxt, range, t1, t2); }
    }
  }

  lemma {:induction false} WindowValuesSteady(sem: Sem, f: string, w: Matrix, maxt: int, range: int, t1: int, t2: int)
    requires SafeSem(sem) && f !in UNSAFE_FUNCTIONS
    ensures WindowValues(sem, f, w, maxt, range, t1) == WindowValues(sem, f, w, maxt, range, t2)
  {
    forall l | l in w ensures Window(sem, f, w[l], maxt, range, t1) == Window(sem, f, w[l], maxt, range, t2) {
    }
  }

  /** The arguments an instant call receives at one timestamp. */
  ghost function ArgsAt(sem: Sem, q: Query, args: seq<Expr>, ts: int): seq<Arg>
    requires forall i :: 0 <= i < |args| ==> IsText(args[i]) || Denote(sem, q, args[i], ts).Ok?
  {
    seq(|args|, i requires 0 <= i < |args| =>
      if IsText(args[i]) then TextArg(Core(args[i]).s) else VectorArg(Denote(sem, q, args[i], ts).value))
  }

  lemma {:induction false} SteadyInstantCall(sem: Sem, q: Query, e: Expr, t1: int, t2: int)
    requires e.Call? && SafeSem(sem) && e.f !in UNSAFE_FUNCTIONS
    requires forall i :: 0 <= i < |e.args| && !IsText(e.args[i]) ==>
               Denote(sem, q, e.args[i], t1) == Denote(sem, q, e.args[i], t2)
    ensures DenoteInstantCall(sem, q, e, t1) == DenoteInstantCall(sem, q, e, t2)
  {
    if forall i :: 0 <= i < |e.args| ==> IsText(e.args[i]) || Denote(sem, q, e.args[i], t1).Ok? {
      var a1, a2 := ArgsAt(sem, q, e.args, t1), ArgsAt(sem, q, e.args, t2);
      assert a1 == a2;
      assert DenoteInstantCall(sem, q, e, t1) == sem.call(e.f, a1, t1);
      assert DenoteInstantCall(sem, q, e, t2) == sem.call(e.f, a2, t2);
    }
  }

  // ---------- subqueries: one evaluation over the union of all windows ----------

  /** Inside a window, the subquery's own grid is exactly the multiples of the step. */
  lemma {:induction false} GridIsMultiples(from: int, step: int, end: int, mint: int, maxt: int)
    requires step > 0 && from <= mint && maxt <= end
    ensures forall t :: mint <= t <= maxt ==>
              (OnGrid(t, AlignedStart(from, step), end, step) <==> t % step == 0)
  {
    AlignedStartLeast(from, step);
    var s := AlignedStart(from, step);
    forall t | mint <= t <= maxt ensures OnGrid(t, s, end, step) <==> t % step == 0 {
      ModDifference(t, s, step);
    }
  }

  // ---------- the evaluator agrees with the meaning at every step ----------

  /** A result that did not fail is, at every step, the meaning of the expression. */
  ghost predicate Faithful(sem: Sem, q: Query, e: Expr, start: int, grid: set<int>, r: Res<Matrix>) {
    && r != Panic
    && (r.Ok? ==> OnlyOn(r.value, grid + {start}))
    && (r.Ok? ==> forall ts :: ts in grid ==> Denote(sem, q, e, ts) == Ok(At(r.value, ts)))
  }

  lemma {:induction false} SelectColumnsAt(sem: Sem, id: nat, offset: int, grid: set<int>, ts: int)
    requires ts in grid
    ensures At(SelectColumns(sem, id, offset, grid), ts) == InstantValues(sem, id, ts - offset)
  {
    var m, v := SelectColumns(sem, id, offset, grid), InstantValues(sem, id, ts - offset);
    forall l | l in v ensures l in At(m, ts) {
      assert ts in SelectColumn(sem, sem.storage(id)[l], offset, grid).at;
    }
  }

  lemma {:induction false} SelectorFaithful(sem: Sem, q: Query, id: nat, p: Place, start: int, grid: set<int>)
    requires PlaceReady(q, start, p) && (grid <= {start} || p.at.None?)
    ensures Faithful(sem, q, VectorSel(id, p), start, grid, Ok(SelectColumns(sem, id, p.offset, grid)))
  {
    hide InstantValues, At;
    var m := SelectColumns(sem, id, p.offset, grid);
    forall ts | ts in grid ensures Denote(sem, q, VectorSel(id, p), ts) == Ok(At(m, ts)) {
      assert ts - p.offset == Anchor(q, p, ts) - p.orig;
      SelectColumnsAt(sem, id, p.offset, grid, ts);
    }
  }

  lemma {:induction false} NegatedAt(m: Matrix, ts: int)
    ensures At(NegatedMatrix(m), ts) == Negated(At(m, ts))
  {
  }

  lemma {:induction false} NegatedOnlyOn(m: Matrix, times: set<int>)
    requires OnlyOn(m, times)
    ensures OnlyOn(NegatedMatrix(m), times)
  {
    forall l | l in m ensures NegatedPoints(m[l]).at != map[] {
      assert NegatedPoints(m[l]).at.Keys == m[l].at.Keys;
    }
  }

  lemma {:induction false} UnaryFaithful(sem: Sem, q: Query, minus: bool, x: Expr, start: int, grid: set<int>, r: Res<Matrix>)
    requires Faithful(sem, q, x, start, grid, r)
    ensures Faithful(sem, q, Unary(minus, x), start, grid, if minus && r.Ok? then Unname(NegatedMatrix(r.value)) else r)
  {
    if minus && r.Ok? {
      var n := NegatedMatrix(r.value);
      UnnameNotPanic(n);
      NegatedOnlyOn(r.value, grid + {start});
      hide OnlyOn, Unname, NegatedMatrix, At, Negated;
      if Unname(n).Ok? {
        forall ts | ts in grid ensures Denote(sem, q, Unary(minus, x), ts) == Ok(At(Unname(n).value, ts)) {
          NegatedAt(r.value, ts);
          UnnameAt(n, ts);
        }
        UnnameOnlyOn(n, grid + {start});
      }
    }
  }

  lemma UnnameNotPanic<T>(m: map<Labels, T>)
    ensures Unname(m) != Panic
  {
  }

  lemma {:induction false} StepsFaithful(sem: Sem, q: Query, e: Expr, start: int, grid: set<int>, steps: Steps)
    requires steps.Keys == grid && forall t :: t in steps ==> steps[t] != Panic
    requires forall t :: t in steps && steps[t].Ok? ==> Denote(sem, q, e, t) == steps[t]
    ensures Faithful(sem, q, e, start, grid, RangeEval(steps))
  {
    hide Denote;
    if RangeEval(steps).Ok? { RangeEvalPointwise(steps); }
  }

  lemma {:induction false} AggregateFaithful(sem: Sem, q: Query, op: nat, x: Expr, start: int, grid: set<int>, m: Matrix)
    requires SafeSem(sem) && Faithful(sem, q, x, start, grid, Ok(m))
    ensures Faithful(sem, q, Aggregate(op, x), start, grid, RangeEval(map t | t in grid :: sem.aggregate(op, At(m, t))))
  {
    hide RangeEval, At;
    StepsFaithful(sem, q, Aggregate(op, x), start, grid, map t | t in grid :: sem.aggregate(op, At(m, t)));
  }

  lemma {:induction false} BinaryFaithful(sem: Sem, q: Query, op: nat, l: Expr, r: Expr, start: int, grid: set<int>,
                                          a: Matrix, b: Matrix)
    requires SafeSem(sem) && Faithful(sem, q, l, start, grid, Ok(a)) && Faithful(sem, q, r, start, grid, Ok(b))
    ensures Faithful(sem, q, Binary(op, l, r), start, grid,
                     RangeEval(map t | t in grid :: sem.binop(op, At(a, t), At(b, t))))
  {
    hide RangeEval, At;
    StepsFaithful(sem, q, Binary(op, l, r), start, grid, map t | t in grid :: sem.binop(op, At(a, t), At(b, t)));
  }

  lemma {:induction false} InstantCallFaithful(sem: Sem, q: Query, e: Expr, start: int, grid: set<int>, ms: seq<Res<Matrix>>)
    requires e.Call? && !RangeCall(e) && SafeSem(sem) && |ms| == |e.args|
    requires forall i :: 0 <= i < |ms| ==> ms[i].Ok?
    requires forall i :: 0 <= i < |ms| && !IsText(e.args[i]) ==> Faithful(sem, q, e.args[i], start, grid, ms[i])
    ensures Faithful(sem, q, e, start, grid, RangeEval(map t | t in grid :: sem.call(e.f, ArgsOf(e.args, ms, t), t)))
  {
    hide RangeEval, At;
    var steps := map t | t in grid :: sem.call(e.f, ArgsOf(e.args, ms, t), t);
    forall t | t in grid ensures Denote(sem, q, e, t) == steps[t] {
      assert forall i :: 0 <= i < |ms| ==> IsText(e.args[i]) || Denote(sem, q, e.args[i], t) == Ok(At(ms[i].value, t));
      assert ArgsAt(sem, q, e.args, t) == ArgsOf(e.args, ms, t);
      assert DenoteInstantCall(sem, q, e, t) == sem.call(e.f, ArgsAt(sem, q, e.args, t), t);
    }
    StepsFaithful(sem, q, e, start, grid, steps);
  }

  lemma {:induction false} ReplicateAt(m: Matrix, start: int, grid: set<int>)
    requires forall l :: l in m ==> m[l].at.Keys == {start}
    ensures OnlyOn(Replicate(m, start, grid), grid + {start})
    ensures forall ts :: ts in grid ==> At(Replicate(m, start, grid), ts) == At(m, start)
  {
    var n := Replicate(m, start, grid);
    forall l | l in n ensures n[l].at != map[] {
      assert start in n[l].at;
    }
    forall ts | ts in grid ensures At(n, ts) == At(m, start) {
    }
  }

  /** The evaluator's check that a step-invariant result has one sample per series never fails. */
  lemma {:induction false} SingleSample(m: Matrix, start: int)
    requires OnlyOn(m, {start} + {start})
    ensures forall l :: l in m ==> m[l].at.Keys == {start}
  {
    forall l | l in m ensures m[l].at.Keys == {start} {
      var t :| t in m[l].at;
    }
  }

  lemma {:induction false} ReplicateFaithful(sem: Sem, q: Query, x: Expr, start: int, grid: set<int>, m: Matrix)
    requires SafeSem(sem) && Steady(x) && Instant(x) && Prepared(q, start, x)
    requires Faithful(sem, q, x, start, {start}, Ok(m))
    requires forall l :: l in m ==> m[l].at.Keys == {start}
    ensures Faithful(sem, q, StepInvariant(x), start, grid, Ok(Replicate(m, start, grid)))
  {
    ReplicateAt(m, start, grid);
    hide At, OnlyOn, Replicate, Steady, Instant, Prepared;
    forall ts | ts in grid ensures Denote(sem, q, StepInvariant(x), ts) == Ok(At(Replicate(m, start, grid), ts)) {
      SteadyMeaning(sem, q, start, x, start, ts);
      assert start in {start};
    }
  }

  // ---------- range functions ----------

  lemma {:induction false} WindowColumnsAt(sem: Sem, f: string, src: Matrix, offset: int, range: int, grid: set<int>, ts: int)
    requires ts in grid
    ensures At(WindowColumns(sem, f, src, offset, range, grid), ts) == WindowValues(sem, f, src, ts - offset, range, ts)
  {
    hide Window;
    var m, v := WindowColumns(sem, f, src, offset, range, grid), WindowValues(sem, f, src, ts - offset, range, ts);
    forall l | l in v ensures l in At(m, ts) {
      assert ts in WindowColumn(sem, f, src[l], offset, range, grid).at;
    }
  }

  lemma {:induction false} WindowColumnsOnlyOn(sem: Sem, f: string, src: Matrix, offset: int, range: int, grid: set<int>, start: int)
    ensures OnlyOn(WindowColumns(sem, f, src, offset, range, grid), grid + {start})
  {
    hide Window;
  }

  /** `w` holds exactly the non-empty windows of the series of `src`. */
  ghost predicate Windows(src: Matrix, w: Matrix, mint: int, maxt: int) {
    && (forall l :: l in w <==> l in src && Slice(src[l], mint, maxt).at != map[])
    && (forall l :: l in w ==> w[l] == Slice(src[l], mint, maxt))
  }

  lemma {:induction false} SliceTwice(p: Points, mint: int, maxt: int)
    ensures Slice(Slice(p, mint, maxt), mint, maxt) == Slice(p, mint, maxt)
  {
  }

  lemma {:induction false} WindowValuesOfWindows(sem: Sem, f: string, src: Matrix, w: Matrix, maxt: int, range: int, ts: int)
    requires Windows(src, w, maxt - range, maxt)
    ensures WindowValues(sem, f, src, maxt, range, ts) == WindowValues(sem, f, w, maxt, range, ts)
  {
    forall l | l in src
      ensures l in w ==> Window(sem, f, w[l], maxt, range, ts) == Window(sem, f, src[l], maxt, range, ts)
      ensures l !in w ==> Window(sem, f, src[l], maxt, range, ts) == None
    {
      SliceTwice(src[l], maxt - range, maxt);
    }
    hide Window;
  }

  lemma {:induction false} RenamedAt(f: string, m: Matrix, times: set<int>)
    requires OnlyOn(m, times)
    ensures Renamed(f, m) != Panic
    ensures Renamed(f, m).Ok? ==> OnlyOn(Renamed(f, m).value, times)
    ensures Renamed(f, m).Ok? ==> forall ts :: Renamed(f, At(m, ts)) == Ok(At(Renamed(f, m).value, ts))
  {
    UnnameNotPanic(m);
    if f != "last_over_time" && Unname(m).Ok? {
      UnnameOnlyOn(m, times);
      forall ts ensures Renamed(f, At(m, ts)) == Ok(At(Renamed(f, m).value, ts)) { UnnameAt(m, ts); }
    }
  }

  /** Sliding one window per step over fixed series is the meaning of a range call, if the
      windows are those the argument denotes. */
  lemma {:induction false} RangeCallFaithful(sem: Sem, q: Query, e: Expr, start: int, grid: set<int>, src: Matrix, offset: int)
    requires RangeCall(e)
    requires var c := Core(e.args[0]);
             forall ts :: ts in grid ==>
               && Anchor(q, c.place, ts) - c.place.orig == ts - offset
               && DenoteRange(sem, q, c, ts - offset).Ok?
               && Windows(src, DenoteRange(sem, q, c, ts - offset).value, ts - offset - c.range, ts - offset)
    ensures Faithful(sem, q, e, start, grid,
                     Renamed(e.f, WindowColumns(sem, e.f, src, offset, Core(e.args[0]).range, grid)))
  {
    hide OnlyOn, Renamed, WindowColumns, WindowValues, At, Windows, DenoteRange, Core;
    var c := Core(e.args[0]);
    var m := WindowColumns(sem, e.f, src, offset, c.range, grid);
    WindowColumnsOnlyOn(sem, e.f, src, offset, c.range, grid, start);
    RenamedAt(e.f, m, grid + {start});
    forall ts | ts in grid && Renamed(e.f, m).Ok?
      ensures Denote(sem, q, e, ts) == Ok(At(Renamed(e.f, m).value, ts))
    {
      var w := DenoteRange(sem, q, c, ts - offset).value;
      WindowColumnsAt(sem, e.f, src, offset, c.range, grid, ts);
      WindowValuesOfWindows(sem, e.f, src, w, ts - offset, c.range, ts);
    }
  }

  lemma {:induction false} MatrixWindows(sem: Sem, q: Query, c: Expr, maxt: int)
    requires c.MatrixSel?
    ensures var src := map l | l in sem.storage(c.id) :: Fresh(sem.storage(c.id)[l]);
            DenoteRange(sem, q, c, maxt).Ok? && Windows(src, DenoteRange(sem, q, c, maxt).value, maxt - c.range, maxt)
  {
    hide Fresh, Slice;
  }

  /** Cutting windows out of one long evaluation gives the windows evaluated separately. */
  lemma {:induction false} CutWindows(src: Matrix, w: Matrix, times: set<int>, mint: int, maxt: int)
    requires forall t :: t in times ==> mint <= t <= maxt && At(w, t) == At(src, t)
    requires OnlyOn(w, times)
    requires forall l, t :: l in src && t in src[l].at && mint <= t <= maxt ==> t in times
    ensures Windows(src, w, mint, maxt)
  {
    forall l, t | l in w && t in w[l].at
      ensures l in src && t in src[l].at && mint <= t <= maxt && src[l].at[t] == w[l].at[t]
    {
      assert t in times;
      assert l in At(w, t);
      assert l in At(src, t);
    }
    forall l, t | l in src && t in src[l].at && mint <= t <= maxt
      ensures l in w && t in w[l].at && w[l].at[t] == src[l].at[t]
    {
      assert t in times;
      assert l in At(src, t);
      assert l in At(w, t);
    }
    forall l | l in w ensures l in src && w[l] == Slice(src[l], mint, maxt) {
      assert w[l].at != map[];
      var t :| t in w[l].at;
      assert w[l].at == Slice(src[l], mint, maxt).at;
    }
    forall l | l in src && Slice(src[l], mint, maxt).at != map[] ensures l in w {
      var t :| t in Slice(src[l], mint, maxt).at;
    }
  }

  /** A subquery evaluated once over the whole range holds, in every window, exactly what a
      separate evaluation of that window gives. */
  lemma {:induction false} SubqueryWindows(sem: Sem, q: Query, c: Expr, from: int, end: int, src: Matrix, maxt: int)
    requires c.Subquery? && StepOf(sem, c.step, c.range) > 0
    requires from <= maxt - c.range && maxt <= end
    requires var step := StepOf(sem, c.step, c.range);
             var s := AlignedStart(from, step);
             Faithful(sem, q, c.body, s, Grid(s, end, step), Ok(src))
    ensures DenoteRange(sem, q, c, maxt).Ok?
    ensures Windows(src, DenoteRange(sem, q, c, maxt).value, maxt - c.range, maxt)
  {
    var step, mint := StepOf(sem, c.step, c.range), maxt - c.range;
    var s, times := AlignedStart(from, step), Multiples(step, mint, maxt);
    hide Denote, At, RangeEval, DenoteRange, Windows, Separately;
    GridIsMultiples(from, step, end, mint, maxt);
    AlignedStartLeast(from, step);
    hide AlignedStart;
    WindowTimes(src, times, s, end, step, mint, maxt);
    hide OnlyOn;
    assert forall t :: t in times ==> t in Grid(s, end, step);
    SeparateWindows(sem, q, c, src, times, maxt);
  }

  lemma {:induction false} SeparateWindows(sem: Sem, q: Query, c: Expr, src: Matrix, times: set<int>, maxt: int)
    requires c.Subquery? && StepOf(sem, c.step, c.range) > 0
    requires times == Multiples(StepOf(sem, c.step, c.range), maxt - c.range, maxt)
    requires forall t :: t in times ==> Denote(sem, q, c.body, t) == Ok(At(src, t))
    requires forall l, t :: l in src && t in src[l].at && maxt - c.range <= t <= maxt ==> t in times
    ensures DenoteRange(sem, q, c, maxt).Ok?
    ensures Windows(src, DenoteRange(sem, q, c, maxt).value, maxt - c.range, maxt)
  {
    hide Denote, At, Windows, RangeEval;
    var steps := Separately(sem, q, c.body, times);
    CutSteps(src, steps, maxt - c.range, maxt);
    hide Separately;
    assert DenoteRange(sem, q, c, maxt) == RangeEval(steps);
  }

  lemma {:induction false} CutSteps(src: Matrix, steps: Steps, mint: int, maxt: int)
    requires forall t :: t in steps ==> mint <= t <= maxt && steps[t] == Ok(At(src, t))
    requires forall l, t :: l in src && t in src[l].at && mint <= t <= maxt ==> t in steps
    ensures RangeEval(steps).Ok? && Windows(src, RangeEval(steps).value, mint, maxt)
  {
    StepsOk(steps);
    RangeEvalPointwise(steps);
    hide RangeEval, At, OnlyOn, Windows;
    CutWindows(src, RangeEval(steps).value, steps.Keys, mint, maxt);
  }

  lemma {:induction false} StepsOk(steps: Steps)
    requires forall t :: t in steps ==> steps[t].Ok?
    ensures RangeEval(steps).Ok?
  {
  }

  lemma {:induction false} WindowTimes(src: Matrix, times: set<int>, s: int, end: int, step: int, mint: int, maxt: int)
    requires step > 0 && maxt <= end && s % step == 0
    requires forall t :: mint <= t <= maxt ==> (OnGrid(t, s, end, step) <==> t % step == 0)
    requires OnlyOn(src, Grid(s, end, step) + {s}) && times == Multiples(step, mint, maxt)
    ensures forall l, t :: l in src && t in src[l].at && mint <= t <= maxt ==> t in times
  {
  }

  // ---------- putting the cases together ----------

  lemma {:induction false} SameMeaningFaithful(sem: Sem, q: Query, x: Expr, e: Expr, start: int, grid: set<int>, r: Res<Matrix>)
    requires e == Paren(x) || e == StepInvariant(x)
    requires Faithful(sem, q, x, start, grid, r)
    ensures Faithful(sem, q, e, start, grid, r)
  {
  }

  lemma {:induction false} NumberFaithful(sem: Sem, q: Query, v: real, start: int, grid: set<int>)
    ensures Faithful(sem, q, Number(v), start, grid, RangeEval(map t | t in grid :: Ok(map[NO_LABELS := v])))
  {
    hide RangeEval;
    StepsFaithful(sem, q, Number(v), start, grid, map t | t in grid :: Ok(map[NO_LABELS := v]));
  }

  lemma {:induction false} EvalFaithful(sem: Sem, q: Query, e: Expr, start: int, end: int, interval: int)
    requires SafeSem(sem) && interval > 0 && Instant(e) && Prepared(q, start, e)
    requires Grid(start, end, interval) <= {start} || Wrapped(e)
    ensures Faithful(sem, q, e, start, Grid(start, end, interval), Eval(sem, e, start, end, interval))
    decreases Height(e), 1
  {
    hide Faithful, SafeSem, RangeEval, SelectColumns, NegatedMatrix, Unname, Grid;
    var grid := Grid(start, end, interval);
    match e
    case Number(v) => NumberFaithful(sem, q, v, start, grid);
    case VectorSel(id, p) => SelectorFaithful(sem, q, id, p, start, grid);
    case Paren(x) =>
      EvalFaithful(sem, q, x, start, end, interval);
      SameMeaningFaithful(sem, q, x, e, start, grid, Eval(sem, x, start, end, interval));
    case Unary(minus, x) =>
      EvalFaithful(sem, q, x, start, end, interval);
      UnaryFaithful(sem, q, minus, x, start, grid, Eval(sem, x, start, end, interval));
    case Aggregate(op, x) =>
      EvalFaithful(sem, q, x, start, end, interval);
      var r := Eval(sem, x, start, end, interval);
      if r.Ok? { AggregateFaithful(sem, q, op, x, start, grid, r.value); } else { FailureFaithful(sem, q, x, e, start, grid, r); }
    case Binary(op, l, r) =>
      EvalFaithful(sem, q, l, start, end, interval);
      EvalFaithful(sem, q, r, start, end, interval);
      var a, b := Eval(sem, l, start, end, interval), Eval(sem, r, start, end, interval);
      if !a.Ok? { FailureFaithful(sem, q, l, e, start, grid, a); }
      else if !b.Ok? { FailureFaithful(sem, q, r, e, start, grid, b); }
      else { BinaryFaithful(sem, q, op, l, r, start, grid, a.value, b.value); }
    case Call(f, args) =>
      if RangeCall(e) {
        EvalRangeCallFaithful(sem, q, e, start, end, interval);
      } else {
        EvalInstantCallFaithful(sem, q, e, start, end, interval);
      }
    case StepInvariant(x) => EvalWrapperFaithful(sem, q, x, start, end, interval);
  }

  lemma {:induction false} FailureFaithful(sem: Sem, q: Query, x: Expr, e: Expr, start: int, grid: set<int>, r: Res<Matrix>)
    requires Faithful(sem, q, x, start, grid, r) && !r.Ok?
    ensures r == Err && Faithful(sem, q, e, start, grid, r)
  {
  }

  lemma {:induction false} GridOfOne(start: int, interval: int)
    requires interval > 0
    ensures Grid(start, start, interval) == {start}
  {
  }

  lemma {:induction false} EvalWrapperFaithful(sem: Sem, q: Query, x: Expr, start: int, end: int, interval: int)
    requires SafeSem(sem) && interval > 0 && Instant(x) && Prepared(q, start, x) && Steady(x)
    ensures Faithful(sem, q, StepInvariant(x), start, Grid(start, end, interval),
                     Eval(sem, StepInvariant(x), start, end, interval))
    decreases Height(x) + 1, 0
  {
    hide SafeSem, RangeEval, Denote;
    var grid := Grid(start, end, interval);
    if x.Number? {
      EvalFaithful(sem, q, x, start, end, interval);
      SameMeaningFaithful(sem, q, x, StepInvariant(x), start, grid, Eval(sem, x, start, end, interval));
    } else {
      GridOfOne(start, interval);
      EvalFaithful(sem, q, x, start, start, interval);
      var r := Eval(sem, x, start, start, interval);
      if r.Ok? {
        SingleSample(r.value, start);
        ReplicateFaithful(sem, q, x, start, grid, r.value);
      }
    }
  }

  lemma {:induction false} EvalInstantCallFaithful(sem: Sem, q: Query, e: Expr, start: int, end: int, interval: int)
    requires e.Call? && !RangeCall(e)
    requires SafeSem(sem) && interval > 0 && Instant(e) && Prepared(q, start, e)
    requires Grid(start, end, interval) <= {start} || Wrapped(e)
    ensures Faithful(sem, q, e, start, Grid(start, end, interval), Eval(sem, e, start, end, interval))
    decreases Height(e), 0
  {
    hide SafeSem, RangeEval, Denote, Grid, OnlyOn;
    var grid := Grid(start, end, interval);
    var ms := seq(|e.args|, i requires 0 <= i < |e.args| =>
      if IsText(e.args[i]) then Ok(map[]) else Eval(sem, e.args[i], start, end, interval));
    forall i | 0 <= i < |e.args| && !IsText(e.args[i])
      ensures Faithful(sem, q, e.args[i], start, grid, ms[i]) && ms[i] != Panic
    {
      EvalFaithful(sem, q, e.args[i], start, end, interval);
    }
    if forall i :: 0 <= i < |ms| ==> ms[i].Ok? {
      InstantCallFaithful(sem, q, e, start, grid, ms);
    }
  }

  lemma {:induction false} EvalRangeCallFaithful(sem: Sem, q: Query, e: Expr, start: int, end: int, interval: int)
    requires RangeCall(e)
    requires SafeSem(sem) && interval > 0 && Instant(e) && Prepared(q, start, e)
    requires Grid(start, end, interval) <= {start} || Wrapped(e)
    ensures Faithful(sem, q, e, start, Grid(start, end, interval), Eval(sem, e, start, end, interval))
    decreases Height(e), 0
  {
    hide Faithful, EvalSubquery, Renamed, WindowColumns;
    var c := Core(e.args[0]);
    CoreOfRange(q, start, e.args[0]);
    assert forall ts :: ts in Grid(start, end, interval) ==> Anchor(q, c.place, ts) - c.place.orig == ts - c.place.offset;
    if c.MatrixSel? {
      MatrixCallFaithful(sem, q, e, c, start, end, interval);
    } else {
      SubqueryFaithful(sem, q, c, start, end);
      SubqueryCallFaithful(sem, q, e, c, start, end, interval);
    }
  }

  lemma {:induction false} MatrixCallFaithful(sem: Sem, q: Query, e: Expr, c: Expr, start: int, end: int, interval: int)
    requires interval > 0 && RangeCall(e) && c == Core(e.args[0]) && c.MatrixSel?
    requires forall ts :: ts in Grid(start, end, interval) ==>
               Anchor(q, c.place, ts) - c.place.orig == ts - c.place.offset
    ensures Faithful(sem, q, e, start, Grid(start, end, interval), EvalRangeCall(sem, e, start, end, interval))
  {
    hide Faithful, DenoteRange, Renamed, WindowColumns, Windows, Grid, Anchor;
    var grid, offset := Grid(start, end, interval), c.place.offset;
    var src := map l | l in sem.storage(c.id) :: Fresh(sem.storage(c.id)[l]);
    forall ts | ts in grid
      ensures DenoteRange(sem, q, c, ts - offset).Ok?
      ensures Windows(src, DenoteRange(sem, q, c, ts - offset).value, ts - offset - c.range, ts - offset)
    {
      MatrixWindows(sem, q, c, ts - offset);
    }
    RangeCallFaithful(sem, q, e, start, grid, src, offset);
  }

  /** The single evaluation of a subquery body is faithful on the subquery's own grid. */
  lemma {:induction false} SubqueryFaithful(sem: Sem, q: Query, c: Expr, start: int, end: int)
    requires SafeSem(sem) && c.Subquery? && RangeArg(c) && Prepared(q, start, c)
    ensures var step := StepOf(sem, c.step, c.range);
            step > 0 &&
            var s := AlignedStart(start - c.place.offset - c.range, step);
            Faithful(sem, q, c.body, s, Grid(s, end - c.place.offset, step), EvalSubquery(sem, c, start, end))
    decreases Height(c), 0
  {
    hide Faithful, Eval;
    var step := StepOf(sem, c.step, c.range);
    var s := AlignedStart(start - c.place.offset - c.range, step);
    PreparedAnyStart(q, start, s, c.body);
    SetOffsetNoAt(q, start, s, c.body, ROOT);
    EvalFaithful(sem, q, c.body, s, end - c.place.offset, step);
  }

  lemma {:induction false} SubqueryCallFaithful(sem: Sem, q: Query, e: Expr, c: Expr, start: int, end: int, interval: int)
    requires interval > 0 && RangeCall(e) && c == Core(e.args[0]) && c.Subquery? && PlaceReady(q, start, c.place)
    requires StepOf(sem, c.step, c.range) > 0
    requires forall ts :: ts in Grid(start, end, interval) ==>
               Anchor(q, c.place, ts) - c.place.orig == ts - c.place.offset
    requires var step := StepOf(sem, c.step, c.range);
             var s := AlignedStart(start - c.place.offset - c.range, step);
             Faithful(sem, q, c.body, s, Grid(s, end - c.place.offset, step), EvalSubquery(sem, c, start, end))
    ensures Faithful(sem, q, e, start, Grid(start, end, interval), EvalRangeCall(sem, e, start, end, interval))
  {
    hide Faithful, DenoteRange, Renamed, WindowColumns, Windows, EvalSubquery, AlignedStart, Anchor;
    var grid, offset := Grid(start, end, interval), c.place.offset;
    var from, step := start - offset - c.range, StepOf(sem, c.step, c.range);
    var s := AlignedStart(from, step);
    var r := EvalSubquery(sem, c, start, end);
    if r.Ok? {
      forall ts | ts in grid
        ensures DenoteRange(sem, q, c, ts - offset).Ok?
        ensures Windows(r.value, DenoteRange(sem, q, c, ts - offset).value, ts - offset - c.range, ts - offset)
      {
        SubqueryWindows(sem, q, c, from, end - offset, r.value, ts - offset);
      }
      RangeCallFaithful(sem, q, e, start, grid, r.value, offset);
    } else {
      FailureFaithful(sem, q, c.body, c.body, s, Grid(s, end - offset, step), r);
      ErrFaithful(sem, q, e, start, grid);
    }
  }

  lemma {:induction false} ErrFaithful(sem: Sem, q: Query, e: Expr, start: int, grid: set<int>)
    ensures Faithful(sem, q, e, start, grid, Err)
  {
  }
}
