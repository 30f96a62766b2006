/** The PromQL syntax tree and the two rewrites the engine applies to it before
    evaluation: wrapping step-invariant parts (`PreprocessExpr`) and moving the
    `@` modifier into selector offsets (`setOffsetForAtModifier`).
    All times and durations are whole milliseconds. */
module PromExpr {
  import opened Common

  /** `@ start()` and `@ end()` before they are resolved. */
  datatype Mark = NoMark | AtStart | AtEnd

  /** Where a selector or subquery reads: its written offset, the offset the
      evaluator uses, and the `@` modifier. */
  datatype Place = Place(orig: int, offset: int, at: Option<int>, mark: Mark)

  datatype Expr =
    | Number(v: real)
    | Text(s: string)
    | VectorSel(id: nat, place: Place)
    | MatrixSel(id: nat, place: Place, range: int)
    | Subquery(body: Expr, place: Place, range: int, step: int)
    | Paren(e: Expr)
    | Unary(minus: bool, e: Expr)
    | Aggregate(op: nat, e: Expr)
    | Binary(op: nat, l: Expr, r: Expr)
    | Call(f: string, args: seq<Expr>)
    | StepInvariant(e: Expr)

  const UNSAFE_FUNCTIONS: set<string> := {
    "days_in_month", "day_of_month", "day_of_week", "hour", "minute", "month", "year",
    "predict_linear", "time", "timestamp"
  }

  /** Height of a tree. Offsets do not change it, so evaluation may rewrite them on the way down. */
  function Height(e: Expr): (h: nat)
    ensures e.Call? ==> forall i :: 0 <= i < |e.args| ==> Height(e.args[i]) < h
  {
    match e
    case Number(_) => 0
    case Text(_) => 0
    case VectorSel(_, _) => 0
    case MatrixSel(_, _, _) => 0
    case Subquery(b, _, _, _) => Height(b) + 1
    case Paren(x) => Height(x) + 1
    case Unary(_, x) => Height(x) + 1
    case Aggregate(_, x) => Height(x) + 1
    case Binary(_, l, r) => if Height(l) < Height(r) then Height(r) + 1 else Height(l) + 1
    case Call(_, args) => MaxHeight(args) + 1
    case StepInvariant(x) => Height(x) + 1
  }

  function MaxHeight(es: seq<Expr>): (h: nat)
    ensures forall i :: 0 <= i < |es| ==> Height(es[i]) <= h
  {
    if es == [] then 0
    else
      var h := MaxHeight(es[1..]);
      assert forall i :: 1 <= i < |es| ==> es[i] == es[1..][i - 1];
      if h < Height(es[0]) then Height(es[0]) else h
  }

  // ---------- PreprocessExpr ----------

  function ResolveMark(p: Place, start: int, end: int): Place {
    match p.mark
    case AtStart => p.(at := Some(start))
    case AtEnd => p.(at := Some(end))
    case NoMark => p
  }

  function Wrap(e: Expr): Expr {
    match e
    case Paren(x) => Wrap(x)
    case _ => StepInvariant(e)
  }

  function WrapIf(p: (Expr, bool)): Expr {
    if p.1 then Wrap(p.0) else p.0
  }

  /** The rewritten tree, and whether the whole of it may be wrapped by its parent. */
  function PreprocessHelper(e: Expr, start: int, end: int): (Expr, bool)
    decreases e
  {
    match e
    case VectorSel(id, p) =>
      var p' := ResolveMark(p, start, end);
      (VectorSel(id, p'), p'.at.Some?)
    case MatrixSel(id, p, range) =>
      var p' := ResolveMark(p, start, end);
      (MatrixSel(id, p', range), p'.at.Some?)
    case Subquery(body, p, range, step) =>
      var p' := ResolveMark(p, start, end);
      (Subquery(WrapIf(PreprocessHelper(body, start, end)), p', range, step), p'.at.Some?)
    case Paren(x) =>
      var r := PreprocessHelper(x, start, end);
      (Paren(r.0), r.1)
    case Unary(minus, x) =>
      var r := PreprocessHelper(x, start, end);
      (Unary(minus, r.0), r.1)
    case Aggregate(op, x) =>
      var r := PreprocessHelper(x, start, end);
      (Aggregate(op, r.0), r.1)
    case Binary(op, l, r) =>
      var pl := PreprocessHelper(l, start, end);
      var pr := PreprocessHelper(r, start, end);
      if pl.1 && pr.1 then (Binary(op, pl.0, pr.0), true)
      else (Binary(op, WrapIf(pl), WrapIf(pr)), false)
    case Call(f, args) =>
      var ps := seq(|args|, i requires 0 <= i < |args| => PreprocessHelper(args[i], start, end));
      if f !in UNSAFE_FUNCTIONS && (forall i :: 0 <= i < |ps| ==> ps[i].1) then
        (Call(f, seq(|ps|, i requires 0 <= i < |ps| => ps[i].0)), true)
      else
        (Call(f, seq(|ps|, i requires 0 <= i < |ps| => WrapIf(ps[i]))), false)
    case Number(_) => (e, true)
    case Text(_) => (e, true)
    case StepInvariant(_) => (e, false)
  }

  function Preprocess(e: Expr, start: int, end: int): Expr {
    WrapIf(PreprocessHelper(e, start, end))
  }

  /** A tree the helper declines to wrap is a fixed point of the helper, whatever the query range. */
  lemma {:induction false} PreprocessHelperStable(e: Expr, start: int, end: int, start': int, end': int)
    ensures var p := PreprocessHelper(e, start, end);
            !p.1 ==> PreprocessHelper(p.0, start', end') == (p.0, false)
    ensures var w := Preprocess(e, start, end);
            PreprocessHelper(w, start', end') == (w, false)
    decreases e
  {
    var p := PreprocessHelper(e, start, end);
    WrapShape(p.0);
    match e
    case Subquery(body, _, _, _) => PreprocessHelperStable(body, start, end, start', end');
    case Paren(x) => PreprocessHelperStable(x, start, end, start', end');
    case Unary(_, x) => PreprocessHelperStable(x, start, end, start', end');
    case Aggregate(_, x) => PreprocessHelperStable(x, start, end, start', end');
    case Binary(_, l, r) =>
      PreprocessHelperStable(l, start, end, start', end');
      PreprocessHelperStable(r, start, end, start', end');
    case Call(f, args) =>
      if !p.1 {
        var ws := p.0.args;
        var ps := seq(|args|, i requires 0 <= i < |args| => PreprocessHelper(args[i], start, end));
        forall i | 0 <= i < |args|
          ensures ws[i] == Preprocess(args[i], start, end)
          ensures PreprocessHelper(ws[i], start', end') == (ws[i], false)
        {
          PreprocessHelperStable(args[i], start, end, start', end');
          assert ps[i] == PreprocessHelper(args[i], start, end);
        }
        var qs := seq(|ws|, i requires 0 <= i < |ws| => PreprocessHelper(ws[i], start', end'));
        assert seq(|qs|, i requires 0 <= i < |qs| => WrapIf(qs[i])) == ws;
        if |args| == 0 {
          assert f in UNSAFE_FUNCTIONS;
        } else {
          assert !qs[0].1;
        }
      }
    case _ =>
  }

  lemma {:induction false} WrapShape(e: Expr)
    ensures Wrap(e).StepInvariant? && !Wrap(e).e.Paren?
    decreases e
  {
    if e.Paren? { WrapShape(e.e); }
  }

  // ---------- reusing a tree ----------

  /** The mark occurs in a part that preprocessing looks at. */
  predicate Marks(e: Expr, m: Mark) {
    match e
    case VectorSel(_, p) => p.mark == m
    case MatrixSel(_, p, _) => p.mark == m
    case Subquery(b, p, _, _) => p.mark == m || Marks(b, m)
    case Paren(x) => Marks(x, m)
    case Unary(_, x) => Marks(x, m)
    case Aggregate(_, x) => Marks(x, m)
    case Binary(_, l, r) => Marks(l, m) || Marks(r, m)
    case Call(_, args) => exists i :: 0 <= i < |args| && Marks(args[i], m)
    case _ => false
  }

  datatype Range = Range(start: int, end: int)

  /** Two ranges agree on everything that the tree refers to. */
  predicate SameForMarks(e: Expr, a: Range, b: Range) {
    (a.start == b.start || !Marks(e, AtStart)) && (a.end == b.end || !Marks(e, AtEnd))
  }

  function Helped(e: Expr, a: Range): (Expr, bool) { PreprocessHelper(e, a.start, a.end) }

  lemma ResolvedSame(p: Place, a: Range, b: Range)
    ensures ResolveMark(p, a.start, a.end) == ResolveMark(p, b.start, b.end)
            <==> (a.start == b.start || p.mark != AtStart) && (a.end == b.end || p.mark != AtEnd)
    ensures ResolveMark(p, a.start, a.end).at.Some? <==> ResolveMark(p, b.start, b.end).at.Some?
  {
  }

  /** Whether a part may be wrapped does not depend on the range. */
  lemma {:induction false} SameFlag(e: Expr, a: Range, b: Range)
    ensures Helped(e, a).1 == Helped(e, b).1
    decreases e
  {
    match e
    case Paren(x) => SameFlag(x, a, b);
    case Unary(_, x) => SameFlag(x, a, b);
    case Aggregate(_, x) => SameFlag(x, a, b);
    case Binary(_, l, r) => SameFlag(l, a, b); SameFlag(r, a, b);
    case Call(f, args) =>
      forall i | 0 <= i < |args| ensures Helped(args[i], a).1 == Helped(args[i], b).1 { SameFlag(args[i], a, b); }
      CallHelped(f, args, a);
      CallHelped(f, args, b);
    case _ =>
  }

  lemma CallHelped(f: string, args: seq<Expr>, a: Range)
    ensures var r := Helped(Call(f, args), a);
            && r.0.Call? && r.0.f == f && |r.0.args| == |args|
            && (r.1 <==> f !in UNSAFE_FUNCTIONS && forall i :: 0 <= i < |args| ==> Helped(args[i], a).1)
            && forall i :: 0 <= i < |args| ==> r.0.args[i] == if r.1 then Helped(args[i], a).0 else WrapIf(Helped(args[i], a))
  {
    var ps := seq(|args|, i requires 0 <= i < |args| => PreprocessHelper(args[i], a.start, a.end));
    assert forall i :: 0 <= i < |args| ==> ps[i] == Helped(args[i], a);
  }

  /** Wrapping takes off the same parentheses from both trees. */
  lemma {:induction false} SameWrap(e: Expr, a: Range, b: Range)
    ensures Wrap(Helped(e, a).0) == Wrap(Helped(e, b).0) <==> Helped(e, a).0 == Helped(e, b).0
    ensures WrapIf(Helped(e, a)) == WrapIf(Helped(e, b)) <==> Helped(e, a).0 == Helped(e, b).0
    decreases e
  {
    if e.Paren? { SameWrap(e.e, a, b); }
    SameFlag(e, a, b);
  }

  /** Two ranges give the same tree if and only if they agree on its marks. */
  lemma {:induction false} HelpedSameIff(e: Expr, a: Range, b: Range)
    ensures Helped(e, a).0 == Helped(e, b).0 <==> SameForMarks(e, a, b)
    decreases e
  {
    SameFlag(e, a, b);
    match e
    case VectorSel(_, p) => ResolvedSame(p, a, b);
    case MatrixSel(_, p, _) => ResolvedSame(p, a, b);
    case Subquery(body, p, _, _) =>
      ResolvedSame(p, a, b);
      HelpedSameIff(body, a, b);
      SameWrap(body, a, b);
    case Paren(x) => HelpedSameIff(x, a, b);
    case Unary(_, x) => HelpedSameIff(x, a, b);
    case Aggregate(_, x) => HelpedSameIff(x, a, b);
    case Binary(_, l, r) =>
      HelpedSameIff(l, a, b);
      HelpedSameIff(r, a, b);
      SameFlag(l, a, b);
      SameFlag(r, a, b);
      SameWrap(l, a, b);
      SameWrap(r, a, b);
    case Call(f, args) =>
      forall i | 0 <= i < |args|
        ensures Helped(args[i], a).0 == Helped(args[i], b).0 <==> SameForMarks(args[i], a, b)
        ensures WrapIf(Helped(args[i], a)) == WrapIf(Helped(args[i], b)) <==> SameForMarks(args[i], a, b)
      {
        HelpedSameIff(args[i], a, b);
        SameWrap(args[i], a, b);
      }
      CallSameIff(f, args, a, b);
    case _ =>
  }

  lemma {:induction false} CallSameIff(f: string, args: seq<Expr>, a: Range, b: Range)
    requires forall i :: 0 <= i < |args| ==>
               && (Helped(args[i], a).0 == Helped(args[i], b).0 <==> SameForMarks(args[i], a, b))
               && (WrapIf(Helped(args[i], a)) == WrapIf(Helped(args[i], b)) <==> SameForMarks(args[i], a, b))
    ensures Helped(Call(f, args), a).0 == Helped(Call(f, args), b).0 <==> SameForMarks(Call(f, args), a, b)
  {
    hide Helped, WrapIf;
    var e := Call(f, args);
    CallHelped(f, args, a);
    CallHelped(f, args, b);
    SameFlag(e, a, b);
    var r, s := Helped(e, a).0, Helped(e, b).0;
    assert SameForMarks(e, a, b) <==> forall i :: 0 <= i < |args| ==> SameForMarks(args[i], a, b);
    if SameForMarks(e, a, b) {
      assert r.args == s.args;
    } else {
      var i :| 0 <= i < |args| && !SameForMarks(args[i], a, b);
      assert r.args[i] != s.args[i];
    }
  }

  /** Preprocessing an already preprocessed tree is a no-op for every query range, so it is idempotent, and
      a reused tree keeps the `@ start()` and `@ end()` of its first query: it agrees with a fresh
      preprocessing if and only if the two ranges agree on the marks of the written tree. */
  lemma {:induction false} PreprocessIdempotent(e: Expr, start: int, end: int, start': int, end': int)
    ensures var w := Preprocess(e, start, end);
            Preprocess(w, start', end') == w
    ensures Preprocess(Preprocess(e, start, end), start', end') == Preprocess(e, start', end')
            <==> (start == start' || !Marks(e, AtStart)) && (end == end' || !Marks(e, AtEnd))
  {
    PreprocessHelperStable(e, start, end, start', end');
    var a, b := Range(start, end), Range(start', end');
    HelpedSameIff(e, a, b);
    SameWrap(e, a, b);
    hide PreprocessHelper, Marks;
  }

  /** Reuse with another range does go wrong: the selector stays at the first query's start. */
  lemma ReusedTreeIsStale()
    ensures var e := VectorSel(0, Place(0, 0, None, AtStart));
            Preprocess(Preprocess(e, 0, 10), 5, 10) != Preprocess(e, 5, 10)
  {
    PreprocessIdempotent(VectorSel(0, Place(0, 0, None, AtStart)), 0, 10, 5, 10);
  }

  // ---------- setOffsetForAtModifier ----------

  /** Offset and `@` time summed over the subqueries on the path from the root. */
  datatype SubqueryPath = SubqueryPath(offset: int, at: Option<int>)

  function Enter(path: SubqueryPath, p: Place): SubqueryPath {
    if p.at.Some? then SubqueryPath(p.orig, p.at)
    else SubqueryPath(path.offset + p.orig, path.at)
  }

  function OffsetFor(evalTime: int, p: Place, path: SubqueryPath): int {
    if p.at.None? then p.orig
    else
      var subqOffset := path.offset + (if path.at.Some? then evalTime - path.at.value else 0);
      p.orig + (evalTime - p.at.value) - subqOffset
  }

  function Anchored(evalTime: int, p: Place, path: SubqueryPath): Place {
    p.(offset := OffsetFor(evalTime, p, path))
  }

  function SetOffset(evalTime: int, e: Expr, path: SubqueryPath): (e': Expr)
    ensures Height(e') == Height(e)
    decreases e, 1
  {
    match e
    case VectorSel(id, p) => VectorSel(id, Anchored(evalTime, p, path))
    case MatrixSel(id, p, range) => MatrixSel(id, Anchored(evalTime, p, path), range)
    case Subquery(body, p, range, step) =>
      Subquery(SetOffset(evalTime, body, Enter(path, p)), Anchored(evalTime, p, path), range, step)
    case Paren(x) => Paren(SetOffset(evalTime, x, path))
    case Unary(minus, x) => Unary(minus, SetOffset(evalTime, x, path))
    case Aggregate(op, x) => Aggregate(op, SetOffset(evalTime, x, path))
    case Binary(op, l, r) => Binary(op, SetOffset(evalTime, l, path), SetOffset(evalTime, r, path))
    case Call(f, args) => Call(f, SetOffsets(evalTime, args, path))
    case StepInvariant(x) => StepInvariant(SetOffset(evalTime, x, path))
    case _ => e
  }

  function SetOffsets(evalTime: int, es: seq<Expr>, path: SubqueryPath): (es': seq<Expr>)
    ensures |es'| == |es| && MaxHeight(es') == MaxHeight(es)
    ensures forall i :: 0 <= i < |es| ==> es'[i] == SetOffset(evalTime, es[i], path)
    decreases es, 0
  {
    if es == [] then []
    else [SetOffset(evalTime, es[0], path)] + SetOffsets(evalTime, es[1..], path)
  }

  const ROOT := SubqueryPath(0, None)
}
