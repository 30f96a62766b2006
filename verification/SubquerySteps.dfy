/** At which times a subquery is evaluated: the multiples of its written step inside the window, or of the
    default step if none is written. */
module SubquerySteps {
  import opened Common
  import opened IntMath
  import opened PromExpr
  import opened PromEval
  import QueryRange

  /** A multiple of the step in a window. */
  predicate Due(t: int, every: int, mint: int, maxt: int)
    requires every > 0
  {
    mint <= t <= maxt && t % every == 0
  }

  /** The body has a value at all of them. */
  ghost predicate HasAll(sem: Sem, q: Query, body: Expr, every: int, mint: int, maxt: int)
    requires every > 0
  {
    forall t :: Due(t, every, mint, maxt) ==> Denote(sem, q, body, t).Ok?
  }

  /** The matrix has the body's values at these times, and nothing at others. */
  ghost predicate HoldsAll(sem: Sem, q: Query, body: Expr, every: int, mint: int, maxt: int, m: Matrix)
    requires every > 0 && HasAll(sem, q, body, every, mint, maxt)
  {
    forall t :: At(m, t) == if Due(t, every, mint, maxt) then Denote(sem, q, body, t).value else map[]
  }

  lemma {:induction false} WindowReads(sem: Sem, q: Query, body: Expr, every: int, mint: int, maxt: int)
    requires every > 0
    ensures var r := RangeEval(Separately(sem, q, body, Multiples(every, mint, maxt)));
            (r.Ok? <==> HasAll(sem, q, body, every, mint, maxt)) && (r.Ok? ==> HoldsAll(sem, q, body, every, mint, maxt, r.value))
  {
    hide Denote, RangeEval, Due;
    var times := Multiples(every, mint, maxt);
    var steps := Separately(sem, q, body, times);
    forall t ensures t in steps <==> Due(t, every, mint, maxt)
      ensures t in steps ==> steps[t] == Denote(sem, q, body, t)
    {
      DueTimes(t, every, mint, maxt);
    }
    hide Separately, Multiples, At;
    StepsCombine(steps);
    if RangeEval(steps).Ok? { forall t | Due(t, every, mint, maxt) ensures Denote(sem, q, body, t).Ok? { assert t in steps && steps[t].Ok?; } }
    if HasAll(sem, q, body, every, mint, maxt) { forall t | t in steps ensures steps[t].Ok? { assert Due(t, every, mint, maxt); } }
  }

  /** What a subquery gives for a window that ends at `maxt`: at every multiple of the step inside the window
      the value of its body, and nothing at other times. It has no value when the body has none at such a
      time, or when the step is not positive. */
  lemma {:induction false} SubqueryReads(sem: Sem, q: Query, body: Expr, p: Place, range: int, step: int, maxt: int)
    ensures var r := DenoteRange(sem, q, Subquery(body, p, range, step), maxt);
            var every := if step == 0 then sem.defaultStep(range) else step;
            if every <= 0 then !r.Ok?
            else (r.Ok? <==> HasAll(sem, q, body, every, maxt - range, maxt))
                 && (r.Ok? ==> HoldsAll(sem, q, body, every, maxt - range, maxt, r.value))
  {
    hide Denote, RangeEval, Separately, Multiples, HasAll, HoldsAll;
    var every := if step == 0 then sem.defaultStep(range) else step;
    if every > 0 { WindowReads(sem, q, body, every, maxt - range, maxt); }
  }

  lemma DueTimes(t: int, every: int, mint: int, maxt: int)
    requires every > 0
    ensures t in Multiples(every, mint, maxt) <==> Due(t, every, mint, maxt)
  {
  }

  /** Combining one vector per time keeps each of them and adds no other time. */
  lemma {:induction false} StepsCombine(steps: Steps)
    ensures RangeEval(steps).Ok? <==> forall t :: t in steps ==> steps[t].Ok?
    ensures RangeEval(steps).Ok? ==> forall t :: At(RangeEval(steps).value, t) == if t in steps then steps[t].value else map[]
  {
    if RangeEval(steps).Ok? {
      RangeEvalPointwise(steps);
      var m := RangeEval(steps).value;
      forall t ensures At(m, t) == if t in steps then steps[t].value else map[] {
        if t !in steps {
          forall l | l in m ensures t !in m[l].at { assert m[l].at.Keys <= steps.Keys; }
        }
      }
    }
  }

  /** So a constant is there exactly at those times. */
  lemma {:induction false} ConstantSubquery(sem: Sem, q: Query, v: real, p: Place, range: int, step: int, maxt: int, t: int)
    requires step > 0 || (step == 0 && sem.defaultStep(range) > 0)
    ensures var r := DenoteRange(sem, q, Subquery(Number(v), p, range, step), maxt);
            var every := if step > 0 then step else sem.defaultStep(range);
            r.Ok? && At(r.value, t) == if maxt - range <= t <= maxt && t % every == 0 then map[NO_LABELS := v] else map[]
  {
    hide DenoteRange, At;
    SubqueryReads(sem, q, Number(v), p, range, step, maxt);
    assert forall ts :: Denote(sem, q, Number(v), ts) == Ok(map[NO_LABELS := v]);
  }

  // ---------- written steps ----------

  /** Every subquery has a step of its own. */
  predicate StepsWritten(e: Expr) {
    match e
    case Subquery(b, _, _, step) => step != 0 && StepsWritten(b)
    case Paren(x) => StepsWritten(x)
    case Unary(_, x) => StepsWritten(x)
    case Aggregate(_, x) => StepsWritten(x)
    case Binary(_, l, r) => StepsWritten(l) && StepsWritten(r)
    case Call(_, args) => forall i :: 0 <= i < |args| ==> StepsWritten(args[i])
    case StepInvariant(x) => StepsWritten(x)
    case _ => true
  }

  lemma {:induction false} SetOffsetWritten(at: int, e: Expr, path: SubqueryPath)
    requires StepsWritten(e)
    ensures StepsWritten(SetOffset(at, e, path))
    decreases e
  {
    match e
    case Subquery(b, p, _, _) => SetOffsetWritten(at, b, Enter(path, p));
    case Paren(x) => SetOffsetWritten(at, x, path);
    case Unary(_, x) => SetOffsetWritten(at, x, path);
    case Aggregate(_, x) => SetOffsetWritten(at, x, path);
    case Binary(_, l, r) => SetOffsetWritten(at, l, path); SetOffsetWritten(at, r, path);
    case Call(_, args) => forall i | 0 <= i < |args| ensures StepsWritten(SetOffset(at, args[i], path)) { SetOffsetWritten(at, args[i], path); }
    case StepInvariant(x) => SetOffsetWritten(at, x, path);
    case _ =>
  }

  /** Then the default step plays no part: engines that differ in nothing else give the same result. */
  lemma {:induction false} DefaultStepUnused(a: Sem, b: Sem, e: Expr, start: int, end: int, interval: int)
    requires interval > 0 && StepsWritten(e) && b == a.(defaultStep := b.defaultStep)
    ensures Eval(a, e, start, end, interval) == Eval(b, e, start, end, interval)
    decreases Height(e), 1
  {
    hide SelectColumns, WindowColumns;
    match e
    case VectorSel(id, p) => SameSelection(a, b, id, p.offset, Grid(start, end, interval));
    case Subquery(_, _, _, _) => SubqueryUnused(a, b, e, start, end);
    case Paren(x) => DefaultStepUnused(a, b, x, start, end, interval);
    case Unary(_, x) => DefaultStepUnused(a, b, x, start, end, interval);
    case Aggregate(_, x) => DefaultStepUnused(a, b, x, start, end, interval);
    case Binary(_, l, r) => DefaultStepUnused(a, b, l, start, end, interval); DefaultStepUnused(a, b, r, start, end, interval);
    case Call(_, _) =>
      if RangeCall(e) { RangeCallUnused(a, b, e, start, end, interval); } else { CallUnused(a, b, e, start, end, interval); }
    case StepInvariant(x) =>
      DefaultStepUnused(a, b, x, start, start, interval);
      DefaultStepUnused(a, b, x, start, end, interval);
    case _ =>
  }

  lemma SameSelection(a: Sem, b: Sem, id: nat, offset: int, grid: set<int>)
    requires b == a.(defaultStep := b.defaultStep)
    ensures SelectColumns(a, id, offset, grid) == SelectColumns(b, id, offset, grid)
  {
    forall l | l in a.storage(id) ensures SelectColumn(a, a.storage(id)[l], offset, grid) == SelectColumn(b, b.storage(id)[l], offset, grid) {}
  }

  lemma {:induction false} CallUnused(a: Sem, b: Sem, e: Expr, start: int, end: int, interval: int)
    requires interval > 0 && e.Call? && !RangeCall(e) && StepsWritten(e) && b == a.(defaultStep := b.defaultStep)
    ensures Eval(a, e, start, end, interval) == Eval(b, e, start, end, interval)
    decreases Height(e), 0
  {
    forall i | 0 <= i < |e.args| ensures Eval(a, e.args[i], start, end, interval) == Eval(b, e.args[i], start, end, interval) {
      DefaultStepUnused(a, b, e.args[i], start, end, interval);
    }
    var ma := seq(|e.args|, i requires 0 <= i < |e.args| =>
      if IsText(e.args[i]) then Ok(map[]) else Eval(a, e.args[i], start, end, interval));
    var mb := seq(|e.args|, i requires 0 <= i < |e.args| =>
      if IsText(e.args[i]) then Ok(map[]) else Eval(b, e.args[i], start, end, interval));
    assert ma == mb;
  }

  lemma {:induction false} CoreWritten(e: Expr)
    requires StepsWritten(e)
    ensures StepsWritten(Core(e))
    decreases e
  {
    if e.Paren? { CoreWritten(e.e); }
  }

  lemma {:induction false} RangeCallUnused(a: Sem, b: Sem, e: Expr, start: int, end: int, interval: int)
    requires interval > 0 && RangeCall(e) && StepsWritten(e) && b == a.(defaultStep := b.defaultStep)
    ensures EvalRangeCall(a, e, start, end, interval) == EvalRangeCall(b, e, start, end, interval)
    decreases Height(e), 0
  {
    hide WindowColumns, EvalSubquery, Grid, Renamed;
    var c, grid := Core(e.args[0]), Grid(start, end, interval);
    CoreWritten(e.args[0]);
    if c.Subquery? { SubqueryUnused(a, b, c, start, end); }
    forall src, offset ensures WindowColumns(a, e.f, src, offset, c.range, grid) == WindowColumns(b, e.f, src, offset, c.range, grid) {
      QueryRange.SameWindows(a, b, e.f, src, offset, c.range, grid);
    }
  }

  lemma {:induction false} SubqueryUnused(a: Sem, b: Sem, e: Expr, start: int, end: int)
    requires e.Subquery? && StepsWritten(e) && b == a.(defaultStep := b.defaultStep)
    ensures EvalSubquery(a, e, start, end) == EvalSubquery(b, e, start, end)
    decreases Height(e), 0
  {
    hide Eval, AlignedStart;
    if e.step > 0 {
      var from := AlignedStart(start - e.place.offset - e.range, e.step);
      SetOffsetWritten(from, e.body, ROOT);
      var body := if from != start then SetOffset(from, e.body, ROOT) else e.body;
      hide SetOffset;
      DefaultStepUnused(a, b, body, from, end - e.place.offset, e.step);
    }
  }
}
