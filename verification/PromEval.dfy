/** Two readings of a PromQL expression. `Denote` says what it means at one
    timestamp, reading `@` selectors at their fixed time. `Eval` is the range
    evaluator: it works on whole time ranges, reads only the rewritten offsets,
    evaluates step-invariant parts once and copies them to every step, and runs a
    subquery once over the union of all its windows. */
module PromEval {
  import opened Common
  import opened PromExpr
  import opened IntMath

  type Vector = map<Labels, real>
  datatype Points = Points(at: map<int, real>)
  type Matrix = map<Labels, Points>

  /** A storage series by time; `None` is the stale marker. */
  type Series = map<int, Option<real>>

  datatype Res<+T> = Ok(value: T) | Err | Panic

  datatype Arg = VectorArg(v: Vector) | TextArg(s: string)

  /** Storage and the operators, whose inner workings the rewriting does not depend on.
      `call` and `range` also receive the evaluation time, as functions do in the engine. */
  datatype Sem = Sem(
    storage: nat -> map<Labels, Series>,
    lookback: nat,
    defaultStep: int -> int,
    binop: (nat, Vector, Vector) -> Res<Vector>,
    aggregate: (nat, Vector) -> Res<Vector>,
    call: (string, seq<Arg>, int) -> Res<Vector>,
    range: (string, Points, int, int, int) -> Option<real>)

  /** What the table of `@`-unsafe functions promises: every other function ignores the evaluation time.
      Operators may fail, but do not panic. */
  ghost predicate SafeSem(sem: Sem) {
    && (forall r :: sem.defaultStep(r) > 0)
    && (forall f, args, t1, t2 :: f !in UNSAFE_FUNCTIONS ==> sem.call(f, args, t1) == sem.call(f, args, t2))
    && (forall f, w, maxt, rng, t1, t2 :: f !in UNSAFE_FUNCTIONS ==>
          sem.range(f, w, maxt, rng, t1) == sem.range(f, w, maxt, rng, t2))
    && (forall op, a, b :: sem.binop(op, a, b) != Panic)
    && (forall op, a :: sem.aggregate(op, a) != Panic)
    && (forall f, args, t :: sem.call(f, args, t) != Panic)
  }

  // ---------- grids, columns and label sets ----------

  ghost predicate OnGrid(t: int, start: int, end: int, interval: int)
    requires interval > 0
  {
    start <= t <= end && (t - start) % interval == 0
  }

  ghost function Grid(start: int, end: int, interval: int): set<int>
    requires interval > 0
  {
    set t: int | start <= t <= end && OnGrid(t, start, end, interval)
  }

  /** The vector a matrix holds at one timestamp. */
  ghost function At(m: Matrix, ts: int): Vector {
    map l | l in m && ts in m[l].at :: m[l].at[ts]
  }

  /** Every series of a matrix has a point, and only at the given times. */
  ghost predicate OnlyOn(m: Matrix, grid: set<int>) {
    forall l :: l in m ==> m[l].at != map[] && m[l].at.Keys <= grid
  }

  type Steps = map<int, Res<Vector>>

  ghost function LabelsOf(steps: Steps): set<Labels> {
    set t, l | t in steps && steps[t].Ok? && l in steps[t].value :: l
  }

  ghost function Column(steps: Steps, l: Labels): Points {
    Points(map t | t in steps && steps[t].Ok? && l in steps[t].value :: steps[t].value[l])
  }

  /** `rangeEval`: the results of one call per step, combined into series. A label set
      without points has no series. */
  ghost function RangeEval(steps: Steps): Res<Matrix> {
    if exists t :: t in steps && steps[t].Panic? then Panic
    else if exists t :: t in steps && steps[t].Err? then Err
    else Ok(map l | l in LabelsOf(steps) :: Column(steps, l))
  }

  lemma {:induction false} RangeEvalPointwise(steps: Steps)
    requires RangeEval(steps).Ok?
    ensures OnlyOn(RangeEval(steps).value, steps.Keys)
    ensures forall t :: t in steps ==> steps[t] == Ok(At(RangeEval(steps).value, t))
  {
    var m := RangeEval(steps).value;
    forall l | l in m ensures m[l].at != map[] && m[l].at.Keys <= steps.Keys {
      var t :| t in steps && steps[t].Ok? && l in steps[t].value;
      assert t in m[l].at;
    }
    forall t | t in steps ensures steps[t] == Ok(At(m, t)) {
      assert steps[t].Ok?;
      assert At(m, t) == steps[t].value;
    }
  }

  const NO_LABELS := Labels(map[])

  ghost predicate Clash<T>(m: map<Labels, T>) {
    exists a, b :: a in m && b in m && a != b && DropName(a) == DropName(b)
  }

  /** Drops metric names; two series that then coincide are an error. */
  ghost function Unname<T>(m: map<Labels, T>): Res<map<Labels, T>> {
    if Clash(m) then Err else Ok(map a | a in m :: DropName(a) := m[a])
  }

  lemma {:induction false} UnnameAt(m: Matrix, ts: int)
    requires Unname(m).Ok?
    ensures Unname(At(m, ts)) == Ok(At(Unname(m).value, ts))
  {
    var v, n := At(m, ts), Unname(m).value;
    assert !Clash(v);
    assert Unname(v).value == At(n, ts);
  }

  lemma {:induction false} UnnameOnlyOn(m: Matrix, grid: set<int>)
    requires Unname(m).Ok? && OnlyOn(m, grid)
    ensures OnlyOn(Unname(m).value, grid)
  {
  }

  ghost function Negated(v: Vector): Vector {
    map l | l in v :: -v[l]
  }

  ghost function NegatedMatrix(m: Matrix): Matrix {
    map l | l in m :: NegatedPoints(m[l])
  }

  ghost function NegatedPoints(p: Points): Points {
    Points(map t | t in p.at :: -p.at[t])
  }

  // ---------- reading storage ----------

  /** The newest sample in the lookback window ending at `ref`, unless it is stale. */
  ghost function Latest(s: Series, ref: int, lookback: nat): Option<real>
    decreases lookback
  {
    if ref in s then s[ref]
    else if lookback == 0 then None
    else Latest(s, ref - 1, lookback - 1)
  }

  /** The instant vector a selector reads at `ref`. */
  ghost function InstantValues(sem: Sem, id: nat, ref: int): Vector {
    map l | l in sem.storage(id) && Latest(sem.storage(id)[l], ref, sem.lookback).Some?
      :: Latest(sem.storage(id)[l], ref, sem.lookback).value
  }

  ghost function Fresh(s: Series): Points {
    Points(map t | t in s && s[t].Some? :: s[t].value)
  }

  ghost function Slice(p: Points, mint: int, maxt: int): Points {
    Points(map t | t in p.at && mint <= t <= maxt :: p.at[t])
  }

  /** Applies a range function to one non-empty window. */
  ghost function Window(sem: Sem, f: string, p: Points, maxt: int, range: int, ts: int): Option<real> {
    var w := Slice(p, maxt - range, maxt);
    if w.at == map[] then None else sem.range(f, w, maxt, range, ts)
  }

  /** The range function applied to every series of a range vector. */
  ghost function WindowValues(sem: Sem, f: string, src: Matrix, maxt: int, range: int, ts: int): Vector {
    map l | l in src && Window(sem, f, src[l], maxt, range, ts).Some? :: Window(sem, f, src[l], maxt, range, ts).value
  }

  ghost function Renamed<T>(f: string, m: map<Labels, T>): Res<map<Labels, T>> {
    if f == "last_over_time" then Ok(m) else Unname(m)
  }

  ghost function ApplyRange(sem: Sem, f: string, w: Res<Matrix>, maxt: int, range: int, ts: int): Res<Vector> {
    if w.Ok? then Renamed(f, WindowValues(sem, f, w.value, maxt, range, ts)) else Err
  }

  // ---------- shape of expressions ----------

  /** What the evaluator sees of a call argument after removing parentheses and one wrapper. */
  function Core(e: Expr): (c: Expr)
    ensures Height(c) <= Height(e)
    ensures c == e || c < e
    decreases e
  {
    match e
    case Paren(x) => Core(x)
    case StepInvariant(x) => x
    case _ => e
  }

  predicate IsText(e: Expr) { Core(e).Text? }

  predicate IsRange(e: Expr) { Core(e).MatrixSel? || Core(e).Subquery? }

  predicate RangeCall(e: Expr) {
    e.Call? && |e.args| == 1 && IsRange(e.args[0])
  }

  /** No `@` anywhere. */
  predicate NoAt(e: Expr) {
    match e
    case VectorSel(_, p) => p.at.None? && p.mark == NoMark
    case MatrixSel(_, p, _) => p.at.None? && p.mark == NoMark
    case Subquery(b, p, _, _) => p.at.None? && p.mark == NoMark && NoAt(b)
    case Paren(x) => NoAt(x)
    case Unary(_, x) => NoAt(x)
    case Aggregate(_, x) => NoAt(x)
    case Binary(_, l, r) => NoAt(l) && NoAt(r)
    case Call(_, args) => forall i :: 0 <= i < |args| ==> NoAt(args[i])
    case StepInvariant(x) => NoAt(x)
    case _ => true
  }

  /** Instant-vector expressions: calls take instant vectors and strings, or are `@`-safe
      functions of a single range. A subquery may carry `@`, but nothing inside it does. */
  predicate Instant(e: Expr) {
    match e
    case Number(_) => true
    case VectorSel(_, _) => true
    case Paren(x) => Instant(x)
    case Unary(_, x) => Instant(x)
    case Aggregate(_, x) => Instant(x)
    case Binary(_, l, r) => Instant(l) && Instant(r)
    case Call(f, args) =>
      if |args| == 1 && IsRange(args[0]) then
        f !in UNSAFE_FUNCTIONS && f != "absent_over_time" && RangeArg(args[0])
      else
        f != "timestamp" && forall i :: 0 <= i < |args| ==> IsText(args[i]) || (Instant(args[i]) && !IsRange(args[i]))
    case StepInvariant(x) => Instant(x)
    case _ => false
  }

  predicate RangeArg(e: Expr) {
    match e
    case MatrixSel(_, _, range) => range >= 0
    case Subquery(b, _, range, step) => range >= 0 && step >= 0 && Instant(b) && NoAt(b)
    case Paren(x) => RangeArg(x)
    case _ => false
  }

  // ---------- meaning at one timestamp ----------

  datatype Query = Query(start: int, end: int)

  /** The time a selector is anchored at: its `@` time, or the evaluation time. */
  ghost function Anchor(q: Query, p: Place, ts: int): int {
    var p' := ResolveMark(p, q.start, q.end);
    if p'.at.Some? then p'.at.value else ts
  }

  ghost function StepOf(sem: Sem, step: int, range: int): int {
    if step != 0 then step else sem.defaultStep(range)
  }

  ghost function Denote(sem: Sem, q: Query, e: Expr, ts: int): Res<Vector>
    decreases e, 1
  {
    match e
    case Number(v) => Ok(map[NO_LABELS := v])
    case VectorSel(id, p) =>
      Ok(InstantValues(sem, id, Anchor(q, p, ts) - p.orig))
    case Paren(x) => Denote(sem, q, x, ts)
    case StepInvariant(x) => Denote(sem, q, x, ts)
    case Unary(minus, x) =>
      var r := Denote(sem, q, x, ts);
      if minus && r.Ok? then Unname(Negated(r.value)) else r
    case Aggregate(op, x) =>
      var r := Denote(sem, q, x, ts);
      if r.Ok? then sem.aggregate(op, r.value) else r
    case Binary(op, l, r) =>
      var a, b := Denote(sem, q, l, ts), Denote(sem, q, r, ts);
      if a.Ok? && b.Ok? then sem.binop(op, a.value, b.value) else Err
    case Call(f, args) =>
      if RangeCall(e) then DenoteRangeCall(sem, q, e, ts) else DenoteInstantCall(sem, q, e, ts)
    case _ => Err
  }

  ghost function DenoteRangeCall(sem: Sem, q: Query, e: Expr, ts: int): Res<Vector>
    requires RangeCall(e)
    decreases e, 0
  {
    var c := Core(e.args[0]);
    var maxt := Anchor(q, c.place, ts) - c.place.orig;
    ApplyRange(sem, e.f, DenoteRange(sem, q, c, maxt), maxt, c.range, ts)
  }

  ghost function DenoteInstantCall(sem: Sem, q: Query, e: Expr, ts: int): Res<Vector>
    requires e.Call?
    decreases e, 0
  {
    if forall i :: 0 <= i < |e.args| ==> IsText(e.args[i]) || Denote(sem, q, e.args[i], ts).Ok? then
      sem.call(e.f, seq(|e.args|, i requires 0 <= i < |e.args| =>
        if IsText(e.args[i]) then TextArg(Core(e.args[i]).s)
        else VectorArg(Denote(sem, q, e.args[i], ts).value)), ts)
    else Err
  }

  /** The range vector a range argument stands for when its window ends at `maxt`. A subquery
      is evaluated afresh at every multiple of its step inside the window. */
  ghost function DenoteRange(sem: Sem, q: Query, c: Expr, maxt: int): Res<Matrix>
    requires c.MatrixSel? || c.Subquery?
    decreases c, 0
  {
    var mint := maxt - c.range;
    if c.MatrixSel? then
      Ok(map l | l in sem.storage(c.id) && Slice(Fresh(sem.storage(c.id)[l]), mint, maxt).at != map[]
           :: Slice(Fresh(sem.storage(c.id)[l]), mint, maxt))
    else
      var step := StepOf(sem, c.step, c.range);
      if step <= 0 then Err
      else RangeEval(Separately(sem, q, c.body, Multiples(step, mint, maxt)))
  }

  /** The meaning of an expression at each of the given times. */
  ghost function Separately(sem: Sem, q: Query, e: Expr, times: set<int>): Steps
    decreases e, 2
  {
    map t | t in times :: Denote(sem, q, e, t)
  }

  ghost function Multiples(step: int, mint: int, maxt: int): set<int>
    requires step > 0
  {
    set t: int | mint <= t <= maxt && t % step == 0
  }

  // ---------- the range evaluator ----------

  ghost function SelectColumn(sem: Sem, s: Series, offset: int, grid: set<int>): Points {
    Points(map ts | ts in grid && Latest(s, ts - offset, sem.lookback).Some? :: Latest(s, ts - offset, sem.lookback).value)
  }

  ghost function SelectColumns(sem: Sem, id: nat, offset: int, grid: set<int>): Matrix {
    NonEmpty(map l | l in sem.storage(id) :: SelectColumn(sem, sem.storage(id)[l], offset, grid))
  }

  ghost function WindowColumn(sem: Sem, f: string, p: Points, offset: int, range: int, grid: set<int>): Points {
    Points(map ts | ts in grid && Window(sem, f, p, ts - offset, range, ts).Some?
      :: Window(sem, f, p, ts - offset, range, ts).value)
  }

  ghost function WindowColumns(sem: Sem, f: string, src: Matrix, offset: int, range: int, grid: set<int>): Matrix {
    NonEmpty(map l | l in src :: WindowColumn(sem, f, src[l], offset, range, grid))
  }

  ghost function NonEmpty(m: Matrix): Matrix {
    map l | l in m && m[l].at != map[] :: m[l]
  }

  ghost function Constant(v: real, grid: set<int>): Points {
    Points(map ts | ts in grid :: v)
  }

  /** Copies the single point of every series, taken at the start, to all steps. */
  ghost function Replicate(m: Matrix, start: int, grid: set<int>): Matrix
    requires forall l :: l in m ==> start in m[l].at
  {
    map l | l in m :: Constant(m[l].at[start], grid + {start})
  }

  /** What an instant call receives at one step: strings from the syntax tree, vectors from the matrices. */
  ghost function ArgsOf(args: seq<Expr>, ms: seq<Res<Matrix>>, ts: int): seq<Arg>
    requires |ms| == |args| && forall i :: 0 <= i < |ms| ==> ms[i].Ok?
  {
    seq(|args|, i requires 0 <= i < |args| =>
      if IsText(args[i]) then TextArg(Core(args[i]).s) else VectorArg(At(ms[i].value, ts)))
  }

  ghost function Eval(sem: Sem, e: Expr, start: int, end: int, interval: int): (r: Res<Matrix>)
    requires interval > 0
    decreases Height(e), 1
  {
    var grid := Grid(start, end, interval);
    match e
    case Number(v) => RangeEval(map t | t in grid :: Ok(map[NO_LABELS := v]))
    case VectorSel(id, p) => Ok(SelectColumns(sem, id, p.offset, grid))
    case Paren(x) => Eval(sem, x, start, end, interval)
    case Unary(minus, x) =>
      var r := Eval(sem, x, start, end, interval);
      if minus && r.Ok? then Unname(NegatedMatrix(r.value)) else r
    case Aggregate(op, x) =>
      var r := Eval(sem, x, start, end, interval);
      if r.Ok? then RangeEval(map t | t in grid :: sem.aggregate(op, At(r.value, t))) else r
    case Binary(op, l, r) =>
      var a := Eval(sem, l, start, end, interval);
      if !a.Ok? then a
      else
        var b := Eval(sem, r, start, end, interval);
        if !b.Ok? then b
        else RangeEval(map t | t in grid :: sem.binop(op, At(a.value, t), At(b.value, t)))
    case Call(f, args) =>
      if RangeCall(e) then EvalRangeCall(sem, e, start, end, interval)
      else
        var ms := seq(|args|, i requires 0 <= i < |args| =>
          if IsText(args[i]) then Ok(map[]) else Eval(sem, args[i], start, end, interval));
        if exists i :: 0 <= i < |ms| && ms[i].Panic? then Panic
        else if exists i :: 0 <= i < |ms| && ms[i].Err? then Err
        else
          RangeEval(map t | t in grid :: sem.call(f, ArgsOf(args, ms, t), t))
    case StepInvariant(x) =>
      if x.Number? || x.Text? then Eval(sem, x, start, end, interval)
      else
        var r := Eval(sem, x, start, start, interval);
        if !r.Ok? || x.MatrixSel? || x.Subquery? then r
        else if exists l :: l in r.value && r.value[l].at.Keys != {start} then Panic
        else Ok(Replicate(r.value, start, grid))
    case Subquery(body, p, range, step) => EvalSubquery(sem, e, start, end)
    case _ => Panic
  }

  ghost function EvalSubquery(sem: Sem, e: Expr, start: int, end: int): (r: Res<Matrix>)
    requires e.Subquery?
    decreases Height(e), 0
  {
    var step := StepOf(sem, e.step, e.range);
    if step <= 0 then Panic
    else
      var from := AlignedStart(start - e.place.offset - e.range, step);
      var body := if from != start then SetOffset(from, e.body, ROOT) else e.body;
      Eval(sem, body, from, end - e.place.offset, step)
  }

  ghost function EvalRangeCall(sem: Sem, e: Expr, start: int, end: int, interval: int): (r: Res<Matrix>)
    requires interval > 0 && RangeCall(e)
    decreases Height(e), 0
  {
    var c := Core(e.args[0]);
    var grid := Grid(start, end, interval);
    if c.MatrixSel? then
      var src := map l | l in sem.storage(c.id) :: Fresh(sem.storage(c.id)[l]);
      Renamed(e.f, WindowColumns(sem, e.f, src, c.place.offset, c.range, grid))
    else
      var src := EvalSubquery(sem, c, start, end);
      var offset := if c.place.at.Some? then c.place.orig + (start - c.place.at.value) else c.place.offset;
      if src.Ok? then Renamed(e.f, WindowColumns(sem, e.f, src.value, offset, c.range, grid)) else src
  }
}
