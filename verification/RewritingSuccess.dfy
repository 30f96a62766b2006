/** When the evaluation of a rewritten query succeeds: exactly when every step succeeds on its own, every
    subquery succeeds at all times it is evaluated at, and nothing that drops metric names from whole
    series merges two series of different steps. */
module RewritingSuccess {
  import opened Common
  import opened IntMath
  import opened PromExpr
  import opened PromEval
  import opened StepInvariance
  import opened Rewriting

  ghost predicate HasLabels(sem: Sem, q: Query, x: Expr, t: int, l: Labels) {
    Denote(sem, q, x, t).Ok? && l in Denote(sem, q, x, t).value
  }

  /** Two label sets that the expression has at some steps, not necessarily the same one, differ only in
      the metric name. */
  ghost predicate ClashAcross(sem: Sem, q: Query, x: Expr, grid: set<int>) {
    exists a, b :: Appears(sem, q, x, grid, a) && Appears(sem, q, x, grid, b) && a != b && DropName(a) == DropName(b)
  }

  ghost predicate Appears(sem: Sem, q: Query, x: Expr, grid: set<int>, l: Labels) {
    exists t :: t in grid && HasLabels(sem, q, x, t, l)
  }

  /** The labels a range function gives at one step, before their names are dropped. */
  ghost predicate RangeLabels(sem: Sem, q: Query, e: Expr, t: int, l: Labels)
    requires RangeCall(e)
  {
    var c := Core(e.args[0]);
    var maxt := Anchor(q, c.place, t) - c.place.orig;
    var w := DenoteRange(sem, q, c, maxt);
    w.Ok? && l in WindowValues(sem, e.f, w.value, maxt, c.range, t)
  }

  ghost predicate RangeAppears(sem: Sem, q: Query, e: Expr, grid: set<int>, l: Labels)
    requires RangeCall(e)
  {
    exists t :: t in grid && RangeLabels(sem, q, e, t, l)
  }

  ghost predicate RangeClash(sem: Sem, q: Query, e: Expr, grid: set<int>)
    requires RangeCall(e)
  {
    exists a, b :: RangeAppears(sem, q, e, grid, a) && RangeAppears(sem, q, e, grid, b) && a != b && DropName(a) == DropName(b)
  }

  /** The times at which a subquery's body is evaluated for steps from `start` to `end`: the multiples of
      its step between these two. */
  ghost function BodyStart(sem: Sem, q: Query, c: Expr, start: int): int
    requires c.Subquery? && StepOf(sem, c.step, c.range) > 0
  {
    AlignedStart(Anchor(q, c.place, start) - c.place.orig - c.range, StepOf(sem, c.step, c.range))
  }

  ghost function BodyEnd(q: Query, c: Expr, end: int): int
    requires c.Subquery?
  {
    Anchor(q, c.place, end) - c.place.orig
  }

  /** Every subquery has at least one time to be evaluated at. */
  ghost predicate Timed(sem: Sem, q: Query, e: Expr, start: int, end: int) {
    match e
    case Paren(x) => Timed(sem, q, x, start, end)
    case Unary(_, x) => Timed(sem, q, x, start, end)
    case Aggregate(_, x) => Timed(sem, q, x, start, end)
    case Binary(_, l, r) => Timed(sem, q, l, start, end) && Timed(sem, q, r, start, end)
    case Call(_, args) => forall i :: 0 <= i < |args| ==> Timed(sem, q, args[i], start, end)
    case StepInvariant(x) => Timed(sem, q, x, start, end)
    case Subquery(b, _, _, _) =>
      StepOf(sem, e.step, e.range) > 0 ==>
        BodyStart(sem, q, e, start) <= BodyEnd(q, e, end) && Timed(sem, q, b, BodyStart(sem, q, e, start), BodyEnd(q, e, end))
    case _ => true
  }

  /** Names are dropped from whole series at once, by negation and by range functions: no operand of these
      has two such label sets at its steps. Subqueries succeed wherever they are evaluated. */
  ghost predicate Unclashed(sem: Sem, q: Query, e: Expr, start: int, end: int, interval: int)
    requires interval > 0
    decreases e, 1
  {
    match e
    case Paren(x) => Unclashed(sem, q, x, start, end, interval)
    case Unary(minus, x) => Unclashed(sem, q, x, start, end, interval) && (minus ==> !ClashAcross(sem, q, x, Grid(start, end, interval)))
    case Aggregate(_, x) => Unclashed(sem, q, x, start, end, interval)
    case Binary(_, l, r) => Unclashed(sem, q, l, start, end, interval) && Unclashed(sem, q, r, start, end, interval)
    case Call(f, args) =>
      && (RangeCall(e) && f != "last_over_time" ==> !RangeClash(sem, q, e, Grid(start, end, interval)))
      && forall i :: 0 <= i < |args| ==> Unclashed(sem, q, args[i], start, end, interval)
    case StepInvariant(x) => Unclashed(sem, q, x, start, end, interval)
    case Subquery(_, _, _, _) => SubqueryFine(sem, q, e, start, end)
    case _ => true
  }

  /** A subquery succeeds at every time that it is evaluated at. */
  ghost predicate SubqueryFine(sem: Sem, q: Query, e: Expr, start: int, end: int)
    requires e.Subquery?
    decreases e, 0
  {
    var step := StepOf(sem, e.step, e.range);
    step > 0 ==>
      var s, t := BodyStart(sem, q, e, start), BodyEnd(q, e, end);
      if s <= t then Unclashed(sem, q, e.body, s, t, step) && AllOk(sem, q, e.body, Grid(s, t, step))
      else IdleFine(sem, q, e.body, s, t, step)
  }

  /** A wrapped part at the head of a tree. */
  predicate Whole(e: Expr) {
    match e
    case StepInvariant(x) => !x.Number? && !x.Text?
    case Paren(x) => Whole(x)
    case Unary(_, x) => Whole(x)
    case _ => false
  }

  /** Without any time to be evaluated at, the wrapped parts are still evaluated, at the start. */
  ghost predicate IdleFine(sem: Sem, q: Query, e: Expr, start: int, end: int, interval: int)
    requires interval > 0
    decreases e, 2
  {
    if Whole(e) then Unclashed(sem, q, e, start, start, interval) && AllOk(sem, q, e, {start})
    else
      match e
      case Paren(x) => IdleFine(sem, q, x, start, end, interval)
      case Unary(_, x) => IdleFine(sem, q, x, start, end, interval)
      case Aggregate(_, x) => IdleFine(sem, q, x, start, end, interval)
      case Binary(_, l, r) => IdleFine(sem, q, l, start, end, interval) && IdleFine(sem, q, r, start, end, interval)
      case Call(_, args) => forall i :: 0 <= i < |args| ==> IdleFine(sem, q, args[i], start, end, interval)
      case Subquery(_, _, _, _) => SubqueryFine(sem, q, e, start, end)
      case _ => true
  }

  ghost predicate AllOk(sem: Sem, q: Query, e: Expr, grid: set<int>) { forall t :: t in grid ==> Denote(sem, q, e, t).Ok? }

  // ---------- one node at a time ----------

  lemma {:induction false} RangeEvalOk(steps: Steps)
    ensures RangeEval(steps).Ok? <==> forall t :: t in steps ==> steps[t].Ok?
  {
  }

  /** A clash between whole series is a clash between steps. */
  lemma {:induction false} ClashIs(sem: Sem, q: Query, x: Expr, start: int, grid: set<int>, m: Matrix)
    requires Faithful(sem, q, x, start, grid, Ok(m)) && start in grid
    ensures Unname(NegatedMatrix(m)).Ok? <==> !ClashAcross(sem, q, x, grid)
  {
    hide Denote, At, Faithful, Appears;
    var n := NegatedMatrix(m);
    forall l ensures l in n <==> Appears(sem, q, x, grid, l) { SeriesSteps(sem, q, x, start, grid, m, l); }
  }

  lemma SomePoint(p: Points) returns (t: int)
    requires p.at != map[]
    ensures t in p.at
  {
    assert |p.at.Items| != 0;
    var item :| item in p.at.Items;
    t := item.0;
  }

  lemma {:induction false} SeriesSteps(sem: Sem, q: Query, x: Expr, start: int, grid: set<int>, m: Matrix, l: Labels)
    requires Faithful(sem, q, x, start, grid, Ok(m)) && start in grid
    ensures l in NegatedMatrix(m) <==> Appears(sem, q, x, grid, l)
  {
    hide Denote;
    if l in m {
      var t := SomePoint(m[l]);
      assert t in grid;
      assert l in At(m, t);
      assert HasLabels(sem, q, x, t, l);
    }
  }

  lemma {:induction false} AggregateOk(sem: Sem, q: Query, op: nat, x: Expr, start: int, grid: set<int>, m: Matrix)
    requires SafeSem(sem) && Faithful(sem, q, x, start, grid, Ok(m))
    ensures RangeEval(map t | t in grid :: sem.aggregate(op, At(m, t))).Ok? <==> AllOk(sem, q, Aggregate(op, x), grid)
  {
    hide RangeEval, At, SafeSem;
    var steps := map t | t in grid :: sem.aggregate(op, At(m, t));
    RangeEvalOk(steps);
    forall t | t in grid ensures steps[t] == Denote(sem, q, Aggregate(op, x), t) {}
  }

  lemma {:induction false} BinaryOk(sem: Sem, q: Query, op: nat, l: Expr, r: Expr, start: int, grid: set<int>, a: Matrix, b: Matrix)
    requires SafeSem(sem) && Faithful(sem, q, l, start, grid, Ok(a)) && Faithful(sem, q, r, start, grid, Ok(b))
    ensures RangeEval(map t | t in grid :: sem.binop(op, At(a, t), At(b, t))).Ok? <==> AllOk(sem, q, Binary(op, l, r), grid)
  {
    hide RangeEval, At, SafeSem;
    var steps := map t | t in grid :: sem.binop(op, At(a, t), At(b, t));
    RangeEvalOk(steps);
    forall t | t in grid ensures steps[t] == Denote(sem, q, Binary(op, l, r), t) {}
  }

  lemma {:induction false} CallOk(sem: Sem, q: Query, e: Expr, start: int, grid: set<int>, ms: seq<Res<Matrix>>)
    requires e.Call? && !RangeCall(e) && SafeSem(sem) && |ms| == |e.args|
    requires forall i :: 0 <= i < |ms| ==> ms[i].Ok?
    requires forall i :: 0 <= i < |ms| && !IsText(e.args[i]) ==> Faithful(sem, q, e.args[i], start, grid, ms[i])
    ensures RangeEval(map t | t in grid :: sem.call(e.f, ArgsOf(e.args, ms, t), t)).Ok? <==> AllOk(sem, q, e, grid)
  {
    hide RangeEval, At, SafeSem;
    var steps := map t | t in grid :: sem.call(e.f, ArgsOf(e.args, ms, t), t);
    RangeEvalOk(steps);
    forall t | t in grid ensures Denote(sem, q, e, t) == steps[t] {
      assert forall i :: 0 <= i < |ms| ==> IsText(e.args[i]) || Denote(sem, q, e.args[i], t) == Ok(At(ms[i].value, t));
      assert ArgsAt(sem, q, e.args, t) == ArgsOf(e.args, ms, t);
      assert DenoteInstantCall(sem, q, e, t) == sem.call(e.f, ArgsAt(sem, q, e.args, t), t);
    }
  }

  /** A clash between the columns of a range function is a clash between steps. */
  lemma {:induction false} RangeOk(sem: Sem, q: Query, e: Expr, start: int, grid: set<int>, src: Matrix, offset: int)
    requires RangeCall(e) && start in grid
    requires var c := Core(e.args[0]);
             forall ts :: ts in grid ==>
               && Anchor(q, c.place, ts) - c.place.orig == ts - offset
               && DenoteRange(sem, q, c, ts - offset).Ok?
               && Windows(src, DenoteRange(sem, q, c, ts - offset).value, ts - offset - c.range, ts - offset)
    ensures var m := WindowColumns(sem, e.f, src, offset, Core(e.args[0]).range, grid);
            Renamed(e.f, m).Ok? <==> e.f == "last_over_time" || !RangeClash(sem, q, e, grid)
  {
    hide WindowColumns, RangeAppears, Windows, DenoteRange, Core, Anchor;
    var m := WindowColumns(sem, e.f, src, offset, Core(e.args[0]).range, grid);
    forall l ensures l in m <==> RangeAppears(sem, q, e, grid, l) { ColumnSteps(sem, q, e, start, grid, src, offset, l); }
  }

  lemma {:induction false} ColumnSteps(sem: Sem, q: Query, e: Expr, start: int, grid: set<int>, src: Matrix, offset: int, l: Labels)
    requires RangeCall(e) && start in grid
    requires var c := Core(e.args[0]);
             forall ts :: ts in grid ==>
               && Anchor(q, c.place, ts) - c.place.orig == ts - offset
               && DenoteRange(sem, q, c, ts - offset).Ok?
               && Windows(src, DenoteRange(sem, q, c, ts - offset).value, ts - offset - c.range, ts - offset)
    ensures l in WindowColumns(sem, e.f, src, offset, Core(e.args[0]).range, grid) <==> RangeAppears(sem, q, e, grid, l)
  {
    hide WindowColumns, WindowValues, Windows, DenoteRange, Core, Anchor;
    var c := Core(e.args[0]);
    var m := WindowColumns(sem, e.f, src, offset, c.range, grid);
    WindowColumnsOnlyOn(sem, e.f, src, offset, c.range, grid, start);
    forall ts | ts in grid ensures l in At(m, ts) <==> RangeLabels(sem, q, e, ts, l) {
      var w := DenoteRange(sem, q, c, ts - offset).value;
      WindowColumnsAt(sem, e.f, src, offset, c.range, grid, ts);
      WindowValuesOfWindows(sem, e.f, src, w, ts - offset, c.range, ts);
    }
    hide RangeLabels;
    if l in m {
      var t := SomePoint(m[l]);
      assert t in grid;
      assert l in At(m, t);
    }
    if RangeAppears(sem, q, e, grid, l) {
      var t :| t in grid && RangeLabels(sem, q, e, t, l);
      assert l in At(m, t);
    }
  }

  // ---------- steady trees ----------

  /** In a steady tree one step tells it all. */
  lemma {:induction false} SteadyUnclashed(sem: Sem, q: Query, e: Expr, start: int, end: int, interval: int)
    requires SafeSem(sem) && interval > 0 && start <= end && Steady(e) && Prepared(q, start, e)
    requires Instant(e) || IsText(e) || RangeArg(e)
    ensures Unclashed(sem, q, e, start, start, interval) <==> Unclashed(sem, q, e, start, end, interval)
    decreases e
  {
    hide SafeSem, Grid, ClashAcross, RangeClash;
    var grid := Grid(start, end, interval);
    StartOnGrid(start, end, interval);
    OneStep(start, interval);
    match e
    case Paren(x) => SteadyUnclashed(sem, q, x, start, end, interval);
    case Unary(minus, x) =>
      SteadyUnclashed(sem, q, x, start, end, interval);
      SteadyClash(sem, q, start, x, grid);
    case Aggregate(_, x) => SteadyUnclashed(sem, q, x, start, end, interval);
    case Binary(_, l, r) => SteadyUnclashed(sem, q, l, start, end, interval); SteadyUnclashed(sem, q, r, start, end, interval);
    case Call(_, args) =>
      forall i | 0 <= i < |args| ensures Unclashed(sem, q, args[i], start, start, interval) <==> Unclashed(sem, q, args[i], start, end, interval) {
        SteadyUnclashed(sem, q, args[i], start, end, interval);
      }
      if RangeCall(e) { SteadyRangeClash(sem, q, start, e, grid); }
    case _ =>
  }

  lemma StartOnGrid(start: int, end: int, interval: int)
    requires interval > 0 && start <= end
    ensures start in Grid(start, end, interval)
  {
    assert OnGrid(start, start, end, interval);
  }

  lemma OneStep(start: int, interval: int)
    requires interval > 0
    ensures Grid(start, start, interval) == {start}
  {
    GridOfOne(start, interval);
  }

  lemma {:induction false} SteadyClash(sem: Sem, q: Query, start: int, x: Expr, grid: set<int>)
    requires SafeSem(sem) && Steady(x) && Instant(x) && Prepared(q, start, x) && start in grid
    ensures ClashAcross(sem, q, x, {start}) <==> ClashAcross(sem, q, x, grid)
  {
    hide SafeSem, Steady, Instant, Prepared, Denote, Appears;
    forall l ensures Appears(sem, q, x, {start}, l) <==> Appears(sem, q, x, grid, l) { SteadyAppears(sem, q, start, x, grid, l); }
  }

  lemma {:induction false} SteadyAppears(sem: Sem, q: Query, start: int, x: Expr, grid: set<int>, l: Labels)
    requires SafeSem(sem) && Steady(x) && Instant(x) && Prepared(q, start, x) && start in grid
    ensures Appears(sem, q, x, {start}, l) <==> Appears(sem, q, x, grid, l)
  {
    hide SafeSem, Steady, Instant, Prepared, Denote;
    assert start in {start};
    if Appears(sem, q, x, grid, l) {
      var t :| t in grid && HasLabels(sem, q, x, t, l);
      SteadyMeaning(sem, q, start, x, t, start);
      assert HasLabels(sem, q, x, start, l);
    }
  }

  lemma {:induction false} SteadyRangeClash(sem: Sem, q: Query, start: int, e: Expr, grid: set<int>)
    requires RangeCall(e) && SafeSem(sem) && Steady(e) && Instant(e) && Prepared(q, start, e) && start in grid
    ensures RangeClash(sem, q, e, {start}) <==> RangeClash(sem, q, e, grid)
  {
    hide SafeSem, Steady, Instant, Prepared, RangeAppears;
    forall l ensures RangeAppears(sem, q, e, {start}, l) <==> RangeAppears(sem, q, e, grid, l) { SteadyRangeAppears(sem, q, start, e, grid, l); }
  }

  lemma {:induction false} SteadyRangeAppears(sem: Sem, q: Query, start: int, e: Expr, grid: set<int>, l: Labels)
    requires RangeCall(e) && SafeSem(sem) && Steady(e) && Instant(e) && Prepared(q, start, e) && start in grid
    ensures RangeAppears(sem, q, e, {start}, l) <==> RangeAppears(sem, q, e, grid, l)
  {
    hide RangeLabels, SafeSem;
    assert start in {start};
    if RangeAppears(sem, q, e, grid, l) {
      var t :| t in grid && RangeLabels(sem, q, e, t, l);
      SteadyRangeLabels(sem, q, start, e, t, l);
      assert RangeLabels(sem, q, e, start, l);
    }
  }

  lemma {:induction false} SteadyRangeLabels(sem: Sem, q: Query, start: int, e: Expr, t: int, l: Labels)
    requires RangeCall(e) && SafeSem(sem) && Steady(e) && Instant(e) && Prepared(q, start, e)
    ensures RangeLabels(sem, q, e, t, l) <==> RangeLabels(sem, q, e, start, l)
  {
    hide DenoteRange, WindowValues;
    CoreOfRange(q, start, e.args[0]);
    var c := Core(e.args[0]);
    var maxt := Anchor(q, c.place, t) - c.place.orig;
    assert maxt == Anchor(q, c.place, start) - c.place.orig;
    var w := DenoteRange(sem, q, c, maxt);
    if w.Ok? { WindowValuesSteady(sem, e.f, w.value, maxt, c.range, t, start); }
  }

  // ---------- prepared trees ----------

  /** A prepared tree is evaluated successfully exactly when all its steps succeed and nothing clashes. */
  lemma {:induction false} EvalSucceedsIff(sem: Sem, q: Query, e: Expr, start: int, end: int, interval: int)
    requires SafeSem(sem) && interval > 0 && start <= end && Instant(e) && Prepared(q, start, e)
    requires start == end || Wrapped(e)
    ensures Eval(sem, e, start, end, interval).Ok?
            <==> Unclashed(sem, q, e, start, end, interval) && AllOk(sem, q, e, Grid(start, end, interval))
    decreases Height(e), 1
  {
    hide Faithful, SafeSem, RangeEval, SelectColumns, NegatedMatrix, Unname, Grid, ClashAcross, RangeClash;
    var grid := Grid(start, end, interval);
    StartOnGrid(start, end, interval);
    OneStep(start, interval);
    EvalFaithful(sem, q, e, start, end, interval);
    if Eval(sem, e, start, end, interval).Ok? { FaithfulOk(sem, q, e, start, grid, Eval(sem, e, start, end, interval)); }
    match e
    case Number(v) => RangeEvalOk(map t | t in grid :: Ok(map[NO_LABELS := v]));
    case VectorSel(_, _) =>
    case Paren(x) => EvalSucceedsIff(sem, q, x, start, end, interval);
    case Unary(minus, x) =>
      EvalSucceedsIff(sem, q, x, start, end, interval);
      EvalFaithful(sem, q, x, start, end, interval);
      UnaryOk(sem, q, minus, x, start, grid, Eval(sem, x, start, end, interval));
    case Aggregate(op, x) =>
      EvalSucceedsIff(sem, q, x, start, end, interval);
      EvalFaithful(sem, q, x, start, end, interval);
      var r := Eval(sem, x, start, end, interval);
      if r.Ok? { AggregateOk(sem, q, op, x, start, grid, r.value); }
    case Binary(op, l, r) =>
      EvalSucceedsIff(sem, q, l, start, end, interval);
      EvalSucceedsIff(sem, q, r, start, end, interval);
      EvalFaithful(sem, q, l, start, end, interval);
      EvalFaithful(sem, q, r, start, end, interval);
      var a, b := Eval(sem, l, start, end, interval), Eval(sem, r, start, end, interval);
      if a.Ok? && b.Ok? { BinaryOk(sem, q, op, l, r, start, grid, a.value, b.value); }
    case Call(_, _) =>
      if RangeCall(e) { RangeCallSucceedsIff(sem, q, e, start, end, interval); }
      else { CallSucceedsIff(sem, q, e, start, end, interval); }
    case StepInvariant(x) => WrapperSucceedsIff(sem, q, x, start, end, interval);
  }

  lemma FaithfulOk(sem: Sem, q: Query, e: Expr, start: int, grid: set<int>, r: Res<Matrix>)
    requires Faithful(sem, q, e, start, grid, r) && r.Ok?
    ensures AllOk(sem, q, e, grid)
  {
  }

  lemma {:induction false} UnaryOk(sem: Sem, q: Query, minus: bool, x: Expr, start: int, grid: set<int>, r: Res<Matrix>)
    requires Faithful(sem, q, x, start, grid, r) && start in grid
    ensures r.Ok? && minus ==> (Unname(NegatedMatrix(r.value)).Ok? <==> !ClashAcross(sem, q, x, grid))
    ensures AllOk(sem, q, Unary(minus, x), grid) ==> AllOk(sem, q, x, grid)
  {
    hide Unname, NegatedMatrix, ClashAcross;
    if r.Ok? { ClashIs(sem, q, x, start, grid, r.value); }
  }

  lemma {:induction false} CallSucceedsIff(sem: Sem, q: Query, e: Expr, start: int, end: int, interval: int)
    requires e.Call? && !RangeCall(e) && SafeSem(sem) && interval > 0 && start <= end && Instant(e) && Prepared(q, start, e)
    requires start == end || Wrapped(e)
    ensures Eval(sem, e, start, end, interval).Ok?
            <==> Unclashed(sem, q, e, start, end, interval) && AllOk(sem, q, e, Grid(start, end, interval))
    decreases Height(e), 0
  {
    hide SafeSem, RangeEval, Denote, Grid, OnlyOn, Faithful, ClashAcross, RangeClash;
    var grid := Grid(start, end, interval);
    OneStep(start, interval);
    var ms := seq(|e.args|, i requires 0 <= i < |e.args| =>
      if IsText(e.args[i]) then Ok(map[]) else Eval(sem, e.args[i], start, end, interval));
    forall i | 0 <= i < |e.args| && !IsText(e.args[i])
      ensures Faithful(sem, q, e.args[i], start, grid, ms[i])
      ensures ms[i].Ok? <==> Unclashed(sem, q, e.args[i], start, end, interval) && AllOk(sem, q, e.args[i], grid)
    {
      EvalFaithful(sem, q, e.args[i], start, end, interval);
      EvalSucceedsIff(sem, q, e.args[i], start, end, interval);
    }
    forall i | 0 <= i < |e.args| && IsText(e.args[i]) ensures Unclashed(sem, q, e.args[i], start, end, interval) {
      TextUnclashed(sem, q, e.args[i], start, end, interval);
    }
    AllArgsOk(sem, q, e, grid);
    if forall i :: 0 <= i < |ms| ==> ms[i].Ok? {
      CallOk(sem, q, e, start, grid, ms);
    }
  }

  lemma {:induction false} TextUnclashed(sem: Sem, q: Query, e: Expr, start: int, end: int, interval: int)
    requires IsText(e) && interval > 0
    ensures Unclashed(sem, q, e, start, end, interval)
    decreases e
  {
    if e.Paren? { TextUnclashed(sem, q, e.e, start, end, interval); }
  }

  /** A call succeeds at a step only if its arguments do. */
  lemma {:induction false} AllArgsOk(sem: Sem, q: Query, e: Expr, grid: set<int>)
    requires e.Call? && !RangeCall(e)
    ensures AllOk(sem, q, e, grid) ==> forall i :: 0 <= i < |e.args| && !IsText(e.args[i]) ==> AllOk(sem, q, e.args[i], grid)
  {
    if AllOk(sem, q, e, grid) {
      forall i, t | 0 <= i < |e.args| && !IsText(e.args[i]) && t in grid ensures Denote(sem, q, e.args[i], t).Ok? {
        assert Denote(sem, q, e, t).Ok?;
        assert DenoteInstantCall(sem, q, e, t).Ok?;
      }
    }
  }

  /** A range function: its subquery, if it has one, must succeed, and its columns must not clash. */
  lemma {:induction false} RangeCallSucceedsIff(sem: Sem, q: Query, e: Expr, start: int, end: int, interval: int)
    requires RangeCall(e) && SafeSem(sem) && interval > 0 && start <= end && Instant(e) && Prepared(q, start, e)
    requires start == end || Wrapped(e)
    ensures Eval(sem, e, start, end, interval).Ok?
            <==> Unclashed(sem, q, e, start, end, interval) && AllOk(sem, q, e, Grid(start, end, interval))
    decreases Height(e), 0
  {
    hide SafeSem, Grid, RangeClash, Renamed, WindowColumns, EvalSubquery, AllOk, Denote;
    var grid := Grid(start, end, interval);
    var a := e.args[0];
    var c := Core(a);
    StartOnGrid(start, end, interval);
    OneStep(start, interval);
    CoreOfRange(q, start, a);
    EvalFaithful(sem, q, e, start, end, interval);
    if Eval(sem, e, start, end, interval).Ok? { FaithfulOk(sem, q, e, start, grid, Eval(sem, e, start, end, interval)); }
    RangeUnclashed(sem, q, a, start, end, interval);
    GridAnchors(q, c.place, start, end, interval);
    if c.MatrixSel? {
      MatrixOk(sem, q, e, start, end, interval);
    } else {
      SubquerySucceedsIff(sem, q, c, start, end);
      SubqueryOk(sem, q, e, start, end, interval);
    }
  }

  /** Anchored by its offset, a range argument reads at every step where it is written to read. */
  lemma {:induction false} GridAnchors(q: Query, p: Place, start: int, end: int, interval: int)
    requires interval > 0 && PlaceReady(q, start, p) && (start == end || p.at.None?)
    ensures forall ts :: ts in Grid(start, end, interval) ==> Anchor(q, p, ts) - p.orig == ts - p.offset
  {
    OneStep(start, interval);
  }

  lemma {:induction false} RangeUnclashed(sem: Sem, q: Query, a: Expr, start: int, end: int, interval: int)
    requires RangeArg(a) && interval > 0
    ensures Unclashed(sem, q, a, start, end, interval) <==> Unclashed(sem, q, Core(a), start, end, interval)
    decreases a
  {
    if a.Paren? { RangeUnclashed(sem, q, a.e, start, end, interval); }
  }

  lemma {:induction false} MatrixOk(sem: Sem, q: Query, e: Expr, start: int, end: int, interval: int)
    requires RangeCall(e) && interval > 0 && start <= end && Core(e.args[0]).MatrixSel?
    requires var c := Core(e.args[0]); forall ts :: ts in Grid(start, end, interval) ==> Anchor(q, c.place, ts) - c.place.orig == ts - c.place.offset
    ensures EvalRangeCall(sem, e, start, end, interval).Ok? <==> e.f == "last_over_time" || !RangeClash(sem, q, e, Grid(start, end, interval))
  {
    hide DenoteRange, Renamed, WindowColumns, Windows, Grid, Anchor, RangeClash;
    var c := Core(e.args[0]);
    var grid, offset := Grid(start, end, interval), c.place.offset;
    StartOnGrid(start, end, interval);
    var src := map l | l in sem.storage(c.id) :: Fresh(sem.storage(c.id)[l]);
    forall ts | ts in grid
      ensures DenoteRange(sem, q, c, ts - offset).Ok?
      ensures Windows(src, DenoteRange(sem, q, c, ts - offset).value, ts - offset - c.range, ts - offset)
    {
      MatrixWindows(sem, q, c, ts - offset);
    }
    RangeOk(sem, q, e, start, grid, src, offset);
  }

  lemma {:induction false} SubquerySucceedsIff(sem: Sem, q: Query, c: Expr, start: int, end: int)
    requires SafeSem(sem) && c.Subquery? && RangeArg(c) && Prepared(q, start, c)
    requires start == end || Wrapped(c)
    ensures EvalSubquery(sem, c, start, end).Ok? <==> SubqueryFine(sem, q, c, start, end)
    decreases Height(c), 0
  {
    hide Eval, AlignedStart, Grid, AllOk, Unclashed, IdleFine;
    var step := StepOf(sem, c.step, c.range);
    PositiveStep(sem, c.step, c.range);
    var s, t := BodyStart(sem, q, c, start), BodyEnd(q, c, end);
    assert s == AlignedStart(start - c.place.offset - c.range, step) && t == end - c.place.offset;
    PreparedAnyStart(q, start, s, c.body);
    SetOffsetNoAt(q, start, s, c.body, ROOT);
    hide SafeSem, SetOffset;
    if s <= t { EvalSucceedsIff(sem, q, c.body, s, t, step); } else { IdleSucceedsIff(sem, q, c.body, s, t, step); }
  }

  // ---------- no time to be evaluated at ----------

  lemma NoGrid(start: int, end: int, interval: int)
    requires interval > 0 && start > end
    ensures Grid(start, end, interval) == {}
  {
  }

  /** A wrapped part gives its value at the start. */
  lemma {:induction false} WholeEval(sem: Sem, e: Expr, start: int, end: int, interval: int)
    requires Whole(e) && interval > 0 && start > end
    ensures Eval(sem, e, start, end, interval) == Eval(sem, e, start, start, interval)
    decreases e
  {
    match e
    case Paren(x) => WholeEval(sem, x, start, end, interval);
    case Unary(_, x) => WholeEval(sem, x, start, end, interval);
    case StepInvariant(x) =>
      NoGrid(start, end, interval);
      OneStep(start, interval);
      hide Grid;
      assert Grid(start, end, interval) + {start} == Grid(start, start, interval) + {start};
    case _ =>
  }

  lemma EmptyNumber(v: real, grid: set<int>)
    ensures RangeEval(map t | t in grid :: Ok(map[NO_LABELS := v])) == Ok(map[]) || grid != {}
  {
  }

  lemma EmptyAggregate(sem: Sem, op: nat, m: Matrix, grid: set<int>)
    ensures RangeEval(map t | t in grid :: sem.aggregate(op, At(m, t))) == Ok(map[]) || grid != {}
  {
  }

  lemma EmptyBinary(sem: Sem, op: nat, a: Matrix, b: Matrix, grid: set<int>)
    ensures RangeEval(map t | t in grid :: sem.binop(op, At(a, t), At(b, t))) == Ok(map[]) || grid != {}
  {
  }

  lemma EmptyCall(sem: Sem, f: string, args: seq<Expr>, ms: seq<Res<Matrix>>, grid: set<int>)
    requires |ms| == |args| && forall i :: 0 <= i < |ms| ==> ms[i].Ok?
    ensures RangeEval(map t | t in grid :: sem.call(f, ArgsOf(args, ms, t), t)) == Ok(map[]) || grid != {}
  {
  }

  lemma EmptyWindows(sem: Sem, f: string, g: string, src: Matrix, offset: int, range: int)
    ensures Renamed(g, WindowColumns(sem, f, src, offset, range, {})) == Ok(map[])
  {
    forall l | l in src ensures WindowColumn(sem, f, src[l], offset, range, {}).at == map[] {}
    assert WindowColumns(sem, f, src, offset, range, {}) == map[];
  }

  lemma EmptySelection(sem: Sem, id: nat, offset: int)
    ensures SelectColumns(sem, id, offset, {}) == map[]
  {
    forall l | l in sem.storage(id) ensures SelectColumn(sem, sem.storage(id)[l], offset, {}).at == map[] {}
  }

  lemma EmptyUnnamed()
    ensures NegatedMatrix(map[]) == map[] && Unname<Points>(map[]) == Ok(map[])
  {
  }

  /** With no time to be evaluated at, a tree succeeds exactly when its wrapped parts and its subqueries do. */
  lemma {:induction false} IdleSucceedsIff(sem: Sem, q: Query, e: Expr, start: int, end: int, interval: int)
    requires SafeSem(sem) && interval > 0 && start > end && Instant(e) && Prepared(q, start, e) && Wrapped(e)
    ensures Eval(sem, e, start, end, interval).Ok? <==> IdleFine(sem, q, e, start, end, interval)
    ensures !Whole(e) && Eval(sem, e, start, end, interval).Ok? ==> Eval(sem, e, start, end, interval).value == map[]
    decreases Height(e), 2
  {
    hide SafeSem, RangeEval, SelectColumns, NegatedMatrix, Unname, Grid, AllOk, Unclashed, Denote;
    NoGrid(start, end, interval);
    OneStep(start, interval);
    if Whole(e) {
      WholeEval(sem, e, start, end, interval);
      EvalSucceedsIff(sem, q, e, start, start, interval);
    } else {
      match e
      case Number(v) => EmptyNumber(v, Grid(start, end, interval));
      case VectorSel(id, p) => EmptySelection(sem, id, p.offset);
      case Paren(x) => IdleSucceedsIff(sem, q, x, start, end, interval);
      case Unary(_, x) => IdleSucceedsIff(sem, q, x, start, end, interval); EmptyUnnamed();
      case Aggregate(op, x) =>
        IdleSucceedsIff(sem, q, x, start, end, interval);
        var r := Eval(sem, x, start, end, interval);
        if r.Ok? { EmptyAggregate(sem, op, r.value, Grid(start, end, interval)); }
      case Binary(op, l, r) =>
        IdleSucceedsIff(sem, q, l, start, end, interval);
        IdleSucceedsIff(sem, q, r, start, end, interval);
        var a, b := Eval(sem, l, start, end, interval), Eval(sem, r, start, end, interval);
        if a.Ok? && b.Ok? { EmptyBinary(sem, op, a.value, b.value, Grid(start, end, interval)); }
      case Call(_, _) =>
        if RangeCall(e) { IdleRangeCall(sem, q, e, start, end, interval); } else { IdleCall(sem, q, e, start, end, interval); }
      case StepInvariant(x) => EmptyNumber(x.v, Grid(start, end, interval));
    }
  }

  lemma {:induction false} IdleRangeCall(sem: Sem, q: Query, e: Expr, start: int, end: int, interval: int)
    requires RangeCall(e) && SafeSem(sem) && interval > 0 && start > end && Instant(e) && Prepared(q, start, e) && Wrapped(e)
    ensures var r := Eval(sem, e, start, end, interval);
            (r.Ok? <==> IdleFine(sem, q, e, start, end, interval)) && (r.Ok? ==> r.value == map[])
    decreases Height(e), 0
  {
    hide SafeSem, Renamed, WindowColumns, Grid, EvalSubquery, SubqueryFine;
    var a := e.args[0];
    var c := Core(a);
    CoreOfRange(q, start, a);
    NoGrid(start, end, interval);
    IdleRange(sem, q, a, start, end, interval);
    if c.MatrixSel? {
      var src := map l | l in sem.storage(c.id) :: Fresh(sem.storage(c.id)[l]);
      EmptyWindows(sem, e.f, e.f, src, c.place.offset, c.range);
    } else {
      SubquerySucceedsIff(sem, q, c, start, end);
      if EvalSubquery(sem, c, start, end).Ok? {
        EmptyWindows(sem, e.f, e.f, EvalSubquery(sem, c, start, end).value, c.place.offset, c.range);
      }
    }
  }

  lemma {:induction false} IdleRange(sem: Sem, q: Query, a: Expr, start: int, end: int, interval: int)
    requires RangeArg(a) && interval > 0
    ensures !Whole(a) && (IdleFine(sem, q, a, start, end, interval) <==> (Core(a).Subquery? ==> SubqueryFine(sem, q, Core(a), start, end)))
    decreases a
  {
    if a.Paren? { IdleRange(sem, q, a.e, start, end, interval); }
  }

  lemma {:induction false} IdleText(sem: Sem, q: Query, a: Expr, start: int, end: int, interval: int)
    requires IsText(a) && interval > 0
    ensures IdleFine(sem, q, a, start, end, interval)
    decreases a
  {
    if a.Paren? { IdleText(sem, q, a.e, start, end, interval); }
  }

  lemma {:induction false} IdleCall(sem: Sem, q: Query, e: Expr, start: int, end: int, interval: int)
    requires e.Call? && !RangeCall(e) && SafeSem(sem) && interval > 0 && start > end && Instant(e) && Prepared(q, start, e) && Wrapped(e)
    ensures var r := Eval(sem, e, start, end, interval);
            (r.Ok? <==> IdleFine(sem, q, e, start, end, interval)) && (r.Ok? ==> r.value == map[])
    decreases Height(e), 0
  {
    hide SafeSem, RangeEval, Grid;
    NoGrid(start, end, interval);
    var ms := seq(|e.args|, i requires 0 <= i < |e.args| =>
      if IsText(e.args[i]) then Ok(map[]) else Eval(sem, e.args[i], start, end, interval));
    forall i | 0 <= i < |e.args| ensures ms[i].Ok? <==> IdleFine(sem, q, e.args[i], start, end, interval) {
      if IsText(e.args[i]) { IdleText(sem, q, e.args[i], start, end, interval); }
      else { IdleSucceedsIff(sem, q, e.args[i], start, end, interval); }
    }
    if forall i :: 0 <= i < |ms| ==> ms[i].Ok? {
      EmptyCall(sem, e.f, e.args, ms, Grid(start, end, interval));
    }
  }

  lemma PositiveStep(sem: Sem, step: int, range: int)
    requires SafeSem(sem) && step >= 0
    ensures StepOf(sem, step, range) > 0
  {
  }

  lemma {:induction false} SubqueryOk(sem: Sem, q: Query, e: Expr, start: int, end: int, interval: int)
    requires RangeCall(e) && SafeSem(sem) && interval > 0 && start <= end && Instant(e) && Prepared(q, start, e)
    requires start == end || Wrapped(e)
    requires Core(e.args[0]).Subquery?
    ensures var c := Core(e.args[0]);
            EvalRangeCall(sem, e, start, end, interval).Ok?
            <==> EvalSubquery(sem, c, start, end).Ok? && (e.f == "last_over_time" || !RangeClash(sem, q, e, Grid(start, end, interval)))
  {
    hide DenoteRange, Renamed, WindowColumns, Windows, Grid, RangeClash, EvalSubquery, AlignedStart, Faithful, SafeSem;
    var a := e.args[0];
    var c := Core(a);
    CoreOfRange(q, start, a);
    StartOnGrid(start, end, interval);
    GridAnchors(q, c.place, start, end, interval);
    SubqueryFaithful(sem, q, c, start, end);
    var grid, offset := Grid(start, end, interval), c.place.offset;
    var r := EvalSubquery(sem, c, start, end);
    if r.Ok? {
      forall ts | ts in grid
        ensures DenoteRange(sem, q, c, ts - offset).Ok?
        ensures Windows(r.value, DenoteRange(sem, q, c, ts - offset).value, ts - offset - c.range, ts - offset)
      {
        GridBetween(start, end, interval, ts);
        SubqueryWindows(sem, q, c, start - offset - c.range, end - offset, r.value, ts - offset);
      }
      RangeOk(sem, q, e, start, grid, r.value, offset);
    }
  }

  lemma GridBetween(start: int, end: int, interval: int, ts: int)
    requires interval > 0 && ts in Grid(start, end, interval)
    ensures start <= ts <= end
  {
  }

  lemma {:induction false} WrapperSucceedsIff(sem: Sem, q: Query, x: Expr, start: int, end: int, interval: int)
    requires SafeSem(sem) && interval > 0 && start <= end && Instant(x) && Prepared(q, start, x) && Steady(x)
    ensures var e := StepInvariant(x);
            Eval(sem, e, start, end, interval).Ok?
            <==> Unclashed(sem, q, e, start, end, interval) && AllOk(sem, q, e, Grid(start, end, interval))
    decreases Height(x) + 1, 0
  {
    hide SafeSem, RangeEval, Denote, ClashAcross, RangeClash;
    var grid := Grid(start, end, interval);
    var e := StepInvariant(x);
    if x.Number? {
      EvalSucceedsIff(sem, q, x, start, end, interval);
      assert AllOk(sem, q, e, grid) <==> AllOk(sem, q, x, grid) by { WrapperMeans(sem, q, x, grid); }
    } else {
      StartOnGrid(start, end, interval);
      GridOfOne(start, interval);
      EvalFaithful(sem, q, x, start, start, interval);
      EvalSucceedsIff(sem, q, x, start, start, interval);
      SteadyUnclashed(sem, q, x, start, end, interval);
      SteadyAllOk(sem, q, start, x, grid);
      WrapperMeans(sem, q, x, grid);
      var r := Eval(sem, x, start, start, interval);
      if r.Ok? { SingleSample(r.value, start); }
    }
  }

  lemma WrapperMeans(sem: Sem, q: Query, x: Expr, grid: set<int>)
    ensures AllOk(sem, q, StepInvariant(x), grid) <==> AllOk(sem, q, x, grid)
  {
    forall t ensures Denote(sem, q, StepInvariant(x), t) == Denote(sem, q, x, t) {}
  }

  lemma {:induction false} SteadyAllOk(sem: Sem, q: Query, start: int, x: Expr, grid: set<int>)
    requires SafeSem(sem) && Steady(x) && Instant(x) && Prepared(q, start, x) && start in grid
    ensures AllOk(sem, q, x, {start}) <==> AllOk(sem, q, x, grid)
  {
    hide SafeSem, Denote;
    assert start in {start};
    forall t ensures Denote(sem, q, x, t) == Denote(sem, q, x, start) { SteadyMeaning(sem, q, start, x, t, start); }
  }

  // ---------- through the rewrites ----------

  /** Two trees are timed alike and, if they are, clash alike. */
  ghost predicate Alike(sem: Sem, q: Query, a: Expr, b: Expr, start: int, end: int, interval: int)
    requires interval > 0
  {
    && (Timed(sem, q, a, start, end) <==> Timed(sem, q, b, start, end))
    && (Timed(sem, q, b, start, end) ==> (Unclashed(sem, q, a, start, end, interval) <==> Unclashed(sem, q, b, start, end, interval)))
  }

  lemma {:induction false} WrapAlike(sem: Sem, q: Query, e: Expr, start: int, end: int, interval: int)
    requires interval > 0
    ensures Alike(sem, q, Wrap(e), e, start, end, interval)
    decreases e
  {
    if e.Paren? { WrapAlike(sem, q, e.e, start, end, interval); }
  }

  lemma {:induction false} WrappedAlike(sem: Sem, q: Query, e: Expr, path: SubqueryPath, start: int, end: int, interval: int)
    requires interval > 0 && Alike(sem, q, Rewrite(q, e, path), e, start, end, interval)
    ensures Alike(sem, q, RewriteWrapped(q, e, path), e, start, end, interval)
  {
    hide Rewrite, RewriteWrapped, Flag, Unclashed, Timed;
    RewriteWrappedCases(q, e, path);
    WrapAlike(sem, q, Rewrite(q, e, path), start, end, interval);
  }

  lemma {:induction false} SameClash(sem: Sem, q: Query, a: Expr, b: Expr, grid: set<int>)
    requires SameMeaning(sem, q, a, b)
    ensures ClashAcross(sem, q, a, grid) <==> ClashAcross(sem, q, b, grid)
  {
    hide Appears, Denote, SameMeaning;
    forall l ensures Appears(sem, q, a, grid, l) <==> Appears(sem, q, b, grid, l) { SameAppears(sem, q, a, b, grid, l); }
  }

  lemma {:induction false} SameAppears(sem: Sem, q: Query, a: Expr, b: Expr, grid: set<int>, l: Labels)
    requires SameMeaning(sem, q, a, b)
    ensures Appears(sem, q, a, grid, l) <==> Appears(sem, q, b, grid, l)
  {
    hide Denote;
    if Appears(sem, q, a, grid, l) { var t :| t in grid && HasLabels(sem, q, a, t, l); assert HasLabels(sem, q, b, t, l); }
    if Appears(sem, q, b, grid, l) { var t :| t in grid && HasLabels(sem, q, b, t, l); assert HasLabels(sem, q, a, t, l); }
  }

  /** The rewritten tree is like the written one. */
  lemma {:induction false} RewriteAlike(sem: Sem, q: Query, e: Expr, path: SubqueryPath, start: int, end: int, interval: int)
    requires Legal(e) && interval > 0 && (path == ROOT || NoAt(e))
    ensures Alike(sem, q, Rewrite(q, e, path), e, start, end, interval)
    decreases e, 1
  {
    match e
    case Paren(x) => RewriteAlike(sem, q, x, path, start, end, interval); ParenAlike(sem, q, Rewrite(q, x, path), x, start, end, interval);
    case Unary(minus, x) =>
      RewriteAlike(sem, q, x, path, start, end, interval);
      UnaryAlike(sem, q, minus, x, path, start, end, interval);
    case Aggregate(op, x) =>
      RewriteAlike(sem, q, x, path, start, end, interval);
      AggregateAlike(sem, q, op, Rewrite(q, x, path), x, start, end, interval);
    case Binary(_, _, _) => BinaryAlike(sem, q, e, path, start, end, interval);
    case Call(_, _) => CallAlike(sem, q, e, path, start, end, interval);
    case Subquery(_, _, _, _) => SubqueryAlike(sem, q, e, path, start, end, interval);
    case _ =>
  }

  lemma ParenAlike(sem: Sem, q: Query, t: Expr, x: Expr, start: int, end: int, interval: int)
    requires interval > 0 && Alike(sem, q, t, x, start, end, interval)
    ensures Alike(sem, q, Paren(t), Paren(x), start, end, interval)
  {
  }

  lemma AggregateAlike(sem: Sem, q: Query, op: nat, t: Expr, x: Expr, start: int, end: int, interval: int)
    requires interval > 0 && Alike(sem, q, t, x, start, end, interval)
    ensures Alike(sem, q, Aggregate(op, t), Aggregate(op, x), start, end, interval)
  {
  }

  lemma {:induction false} UnaryAlike(sem: Sem, q: Query, minus: bool, x: Expr, path: SubqueryPath, start: int, end: int, interval: int)
    requires Legal(x) && Instant(x) && interval > 0 && (path == ROOT || NoAt(x)) && Alike(sem, q, Rewrite(q, x, path), x, start, end, interval)
    ensures Alike(sem, q, Unary(minus, Rewrite(q, x, path)), Unary(minus, x), start, end, interval)
  {
    hide Rewrite, ClashAcross, SameMeaning, SameRange, Legal, Grid, Denote;
    RewriteMeaning(sem, q, x, path);
    SameClash(sem, q, Rewrite(q, x, path), x, Grid(start, end, interval));
  }

  lemma {:induction false} BinaryAlike(sem: Sem, q: Query, e: Expr, path: SubqueryPath, start: int, end: int, interval: int)
    requires e.Binary? && Legal(e) && interval > 0 && (path == ROOT || NoAt(e))
    ensures Alike(sem, q, Rewrite(q, e, path), e, start, end, interval)
    decreases e, 0
  {
    RewriteAlike(sem, q, e.l, path, start, end, interval);
    RewriteAlike(sem, q, e.r, path, start, end, interval);
    WrappedAlike(sem, q, e.l, path, start, end, interval);
    WrappedAlike(sem, q, e.r, path, start, end, interval);
    var t := Rewrite(q, e, path);
    assert t.l == Rewrite(q, e.l, path) || t.l == RewriteWrapped(q, e.l, path);
    assert t.r == Rewrite(q, e.r, path) || t.r == RewriteWrapped(q, e.r, path);
    hide Rewrite, RewriteWrapped;
  }

  lemma {:induction false} CallAlike(sem: Sem, q: Query, e: Expr, path: SubqueryPath, start: int, end: int, interval: int)
    requires e.Call? && Legal(e) && interval > 0 && (path == ROOT || NoAt(e))
    ensures Alike(sem, q, Rewrite(q, e, path), e, start, end, interval)
    decreases e, 0
  {
    hide Rewrite, RewriteWrapped, Flag, RangeClash, Grid;
    RewriteCall(q, e.f, e.args, path);
    var t := Rewrite(q, e, path);
    forall i | 0 <= i < |e.args| ensures Alike(sem, q, t.args[i], e.args[i], start, end, interval) {
      RewriteAlike(sem, q, e.args[i], path, start, end, interval);
      WrappedAlike(sem, q, e.args[i], path, start, end, interval);
    }
    if RangeCall(e) { RangeCallAlike(sem, q, e, path, Grid(start, end, interval)); } else { CallStaysInstant(q, e, path); }
  }

  lemma {:induction false} CallStaysInstant(q: Query, e: Expr, path: SubqueryPath)
    requires e.Call? && Legal(e) && !RangeCall(e) && (path == ROOT || NoAt(e))
    ensures !RangeCall(Rewrite(q, e, path))
  {
    RewriteShape(q, e, path);
    hide Rewrite, Flag;
    RewriteCall(q, e.f, e.args, path);
    if |e.args| == 1 {
      RewriteShape(q, e.args[0], path);
      ShapeOfWrapped(q, e.args[0], path);
    }
  }

  lemma {:induction false} RangeCallAlike(sem: Sem, q: Query, e: Expr, path: SubqueryPath, grid: set<int>)
    requires RangeCall(e) && Legal(e) && (path == ROOT || NoAt(e))
    ensures var t := Rewrite(q, e, path); RangeCall(t) && t.f == e.f && (RangeClash(sem, q, t, grid) <==> RangeClash(sem, q, e, grid))
  {
    hide Rewrite, RewriteWrapped, Flag, RangeAppears, DenoteRange;
    var a := e.args[0];
    RewriteCall(q, e.f, e.args, path);
    RewriteWrappedCases(q, a, path);
    RewriteShape(q, a, path);
    RewriteMeaning(sem, q, a, path);
    var t := Rewrite(q, e, path);
    assert t.args[0] == Rewrite(q, a, path);
    forall l ensures RangeAppears(sem, q, t, grid, l) <==> RangeAppears(sem, q, e, grid, l) {
      SameRangeAppears(sem, q, t, e, grid, l);
    }
  }

  lemma {:induction false} SameRangeAppears(sem: Sem, q: Query, t: Expr, e: Expr, grid: set<int>, l: Labels)
    requires RangeCall(t) && RangeCall(e) && t.f == e.f && SameRange(sem, q, Core(t.args[0]), Core(e.args[0]))
    ensures RangeAppears(sem, q, t, grid, l) <==> RangeAppears(sem, q, e, grid, l)
  {
    hide DenoteRange, WindowValues, Anchor;
    if RangeAppears(sem, q, t, grid, l) { var u :| u in grid && RangeLabels(sem, q, t, u, l); assert RangeLabels(sem, q, e, u, l); }
    if RangeAppears(sem, q, e, grid, l) { var u :| u in grid && RangeLabels(sem, q, e, u, l); assert RangeLabels(sem, q, t, u, l); }
  }

  lemma {:induction false} SubqueryAlike(sem: Sem, q: Query, e: Expr, path: SubqueryPath, start: int, end: int, interval: int)
    requires e.Subquery? && Legal(e) && interval > 0 && (path == ROOT || NoAt(e))
    ensures Alike(sem, q, Rewrite(q, e, path), e, start, end, interval)
    decreases e, 0
  {
    hide AlignedStart, Grid, Denote;
    var inner := Enter(path, ResolveMark(e.place, q.start, q.end));
    var t, b := Rewrite(q, e, path), RewriteWrapped(q, e.body, inner);
    assert t.body == b && t.step == e.step && t.range == e.range && t.place.orig == e.place.orig;
    assert forall ts :: Anchor(q, t.place, ts) == Anchor(q, e.place, ts);
    var step := StepOf(sem, e.step, e.range);
    if step > 0 {
      var s, u := BodyStart(sem, q, e, start), BodyEnd(q, e, end);
      assert BodyStart(sem, q, t, start) == s && BodyEnd(q, t, end) == u;
      RewriteAlike(sem, q, e.body, inner, s, u, step);
      WrappedAlike(sem, q, e.body, inner, s, u, step);
      RewriteMeaning(sem, q, e.body, inner);
      MeaningOfWrapped(sem, q, e.body, inner);
      SameAllOk(sem, q, b, e.body, Grid(s, u, step));
    }
    SubqueryOfAlike(sem, q, t, e, start, end, interval);
  }

  lemma SubqueryOfAlike(sem: Sem, q: Query, t: Expr, e: Expr, start: int, end: int, interval: int)
    requires e.Subquery? && t.Subquery? && t.step == e.step && t.range == e.range && interval > 0
    requires var step := StepOf(sem, e.step, e.range);
             step > 0 ==>
               var s, u := BodyStart(sem, q, e, start), BodyEnd(q, e, end);
               && BodyStart(sem, q, t, start) == s && BodyEnd(q, t, end) == u
               && Alike(sem, q, t.body, e.body, s, u, step)
               && (AllOk(sem, q, t.body, Grid(s, u, step)) <==> AllOk(sem, q, e.body, Grid(s, u, step)))
    ensures Alike(sem, q, t, e, start, end, interval)
  {
    hide BodyStart, BodyEnd, AllOk, Grid, IdleFine;
    assert Unclashed(sem, q, t, start, end, interval) <==> SubqueryFine(sem, q, t, start, end);
    assert Unclashed(sem, q, e, start, end, interval) <==> SubqueryFine(sem, q, e, start, end);
  }

  lemma SameAllOk(sem: Sem, q: Query, a: Expr, b: Expr, grid: set<int>)
    requires SameMeaning(sem, q, a, b)
    ensures AllOk(sem, q, a, grid) <==> AllOk(sem, q, b, grid)
  {
    hide Denote;
  }

  /** The evaluation of a rewritten query succeeds if and only if the written expression has a value at
      every step, its subqueries have one at all times they are evaluated at, and dropping metric names
      merges no series of different steps. Where subqueries are evaluated at all, this can be told from the
      written expression; otherwise it depends on which of their parts were wrapped. */
  lemma {:induction false} RewritingSucceedsIff(sem: Sem, e: Expr, start: int, end: int, interval: int)
    requires SafeSem(sem) && interval > 0 && start <= end && Written(e) && Instant(e)
    ensures var q := Query(start, end);
            var w := SetOffset(start, Preprocess(e, start, end), ROOT);
            var r := Eval(sem, w, start, end, interval);
            && (r.Ok? <==> Unclashed(sem, q, w, start, end, interval) && AllOk(sem, q, e, Grid(start, end, interval)))
            && (Timed(sem, q, e, start, end) ==>
                  (r.Ok? <==> Unclashed(sem, q, e, start, end, interval) && AllOk(sem, q, e, Grid(start, end, interval))))
  {
    hide Denote, Eval, Unclashed, Timed, Shaped, SafeSem, Prepared, Wrapped, Grid;
    var q := Query(start, end);
    var grid := Grid(start, end, interval);
    var t := RewriteWrapped(q, e, ROOT);
    RewriteShape(q, e, ROOT);
    ShapeOfWrapped(q, e, ROOT);
    RewriteMeaning(sem, q, e, ROOT);
    MeaningOfWrapped(sem, q, e, ROOT);
    RewriteAlike(sem, q, e, ROOT, start, end, interval);
    WrappedAlike(sem, q, e, ROOT, start, end, interval);
    EvalSucceedsIff(sem, q, t, start, end, interval);
    SameAllOk(sem, q, t, e, grid);
  }
}
