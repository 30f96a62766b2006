/** `PreprocessExpr` followed by `setOffsetForAtModifier` produces a tree the range evaluator
    handles faithfully, and that tree means what the written expression means. */
module Rewriting {
  import opened Common
  import opened PromExpr
  import opened PromEval
  import opened StepInvariance

  /** A tree as the parser builds it: without wrappers. */
  predicate Written(e: Expr) {
    match e
    case Subquery(b, _, _, _) => Written(b)
    case Paren(x) => Written(x)
    case Unary(_, x) => Written(x)
    case Aggregate(_, x) => Written(x)
    case Binary(_, l, r) => Written(l) && Written(r)
    case Call(_, args) => forall i :: 0 <= i < |args| ==> Written(args[i])
    case StepInvariant(_) => false
    case _ => true
  }

  // ---------- wrapping ----------

  lemma {:induction false} SetOffsetWrap(t: int, e: Expr, path: SubqueryPath)
    ensures SetOffset(t, Wrap(e), path) == Wrap(SetOffset(t, e, path))
    decreases e
  {
    if e.Paren? { SetOffsetWrap(t, e.e, path); }
  }

  lemma {:induction false} WrapKeepsShape(q: Query, e: Expr)
    requires Steady(e) && Prepared(q, q.start, e)
    ensures var w := Wrap(e);
            && Prepared(q, q.start, w) && Wrapped(w)
            && (Instant(e) ==> Instant(w) && !IsRange(w))
            && (NoAt(e) ==> NoAt(w))
            && (IsText(e) ==> IsText(w) && Core(w) == Core(e))
    decreases e
  {
    if e.Paren? { WrapKeepsShape(q, e.e); }
  }

  lemma {:induction false} WrapKeepsMeaning(sem: Sem, q: Query, e: Expr, ts: int)
    ensures Denote(sem, q, Wrap(e), ts) == Denote(sem, q, e, ts)
    decreases e
  {
    if e.Paren? { WrapKeepsMeaning(sem, q, e.e, ts); }
  }

  // ---------- the shape of a rewritten tree ----------

  /** The rewritten tree, with offsets set for evaluation from the query start. */
  function Rewrite(q: Query, e: Expr, path: SubqueryPath): Expr {
    SetOffset(q.start, PreprocessHelper(e, q.start, q.end).0, path)
  }

  predicate Flag(q: Query, e: Expr) {
    PreprocessHelper(e, q.start, q.end).1
  }

  function RewriteWrapped(q: Query, e: Expr, path: SubqueryPath): Expr {
    SetOffset(q.start, Preprocess(e, q.start, q.end), path)
  }

  lemma {:induction false} RewriteWrappedCases(q: Query, e: Expr, path: SubqueryPath)
    ensures RewriteWrapped(q, e, path) == if Flag(q, e) then Wrap(Rewrite(q, e, path)) else Rewrite(q, e, path)
  {
    SetOffsetWrap(q.start, PreprocessHelper(e, q.start, q.end).0, path);
  }

  /** What the two rewrites do to a call's arguments. */
  lemma {:induction false} RewriteCall(q: Query, f: string, args: seq<Expr>, path: SubqueryPath)
    ensures var e := Call(f, args); var t := Rewrite(q, e, path);
            && t.Call? && t.f == f && |t.args| == |args|
            && (Flag(q, e) <==> f !in UNSAFE_FUNCTIONS && forall i :: 0 <= i < |args| ==> Flag(q, args[i]))
            && (Flag(q, e) ==> forall i :: 0 <= i < |args| ==> t.args[i] == Rewrite(q, args[i], path))
            && (!Flag(q, e) ==> forall i :: 0 <= i < |args| ==> t.args[i] == RewriteWrapped(q, args[i], path))
  {
    var ps := seq(|args|, i requires 0 <= i < |args| => PreprocessHelper(args[i], q.start, q.end));
    assert forall i :: 0 <= i < |args| ==> ps[i] == PreprocessHelper(args[i], q.start, q.end);
  }

  /** What holds of the rewritten form of an instant expression or range argument. */
  ghost predicate Shaped(q: Query, e: Expr, t: Expr, flag: bool) {
    && Prepared(q, q.start, t)
    && (flag ==> Steady(t)) && (!flag ==> Wrapped(t))
    && (NoAt(e) ==> NoAt(t))
    && (Instant(e) ==> Instant(t))
    && (RangeArg(e) ==> RangeArg(t))
    && (IsText(e) ==> flag && IsText(t) && Core(t) == Core(e))
    && (IsRange(e) <==> IsRange(t))
  }

  ghost predicate Legal(e: Expr) {
    Written(e) && (Instant(e) || RangeArg(e) || IsText(e))
  }

  /** What holds once a step-invariant form has been wrapped. */
  ghost predicate ShapedWrapped(q: Query, e: Expr, w: Expr) {
    && Prepared(q, q.start, w) && Wrapped(w)
    && (NoAt(e) ==> NoAt(w))
    && (Instant(e) ==> Instant(w))
    && (Instant(e) && !IsRange(e) ==> !IsRange(w))
    && (IsText(e) ==> IsText(w) && Core(w) == Core(e))
  }

  lemma {:induction false} ShapeOfWrapped(q: Query, e: Expr, path: SubqueryPath)
    requires Shaped(q, e, Rewrite(q, e, path), Flag(q, e))
    ensures ShapedWrapped(q, e, RewriteWrapped(q, e, path))
  {
    hide Rewrite, RewriteWrapped, Flag;
    RewriteWrappedCases(q, e, path);
    if Flag(q, e) { WrapKeepsShape(q, Rewrite(q, e, path)); }
  }

  lemma {:induction false} RewriteShape(q: Query, e: Expr, path: SubqueryPath)
    requires Legal(e) && (path == ROOT || NoAt(e))
    ensures Shaped(q, e, Rewrite(q, e, path), Flag(q, e))
    decreases e
  {
    hide Shaped;
    match e
    case VectorSel(_, _) => SelectorShape(q, e, path);
    case MatrixSel(_, _, _) => SelectorShape(q, e, path);
    case Subquery(body, p, _, _) =>
      RewriteShape(q, body, Enter(path, ResolveMark(p, q.start, q.end)));
      ShapeOfWrapped(q, body, Enter(path, ResolveMark(p, q.start, q.end)));
      SubqueryShape(q, e, path);
    case Paren(x) => RewriteShape(q, x, path); PassShape(q, e, path);
    case Unary(_, x) => RewriteShape(q, x, path); PassShape(q, e, path);
    case Aggregate(_, x) => RewriteShape(q, x, path); PassShape(q, e, path);
    case Binary(_, l, r) =>
      RewriteShape(q, l, path);
      RewriteShape(q, r, path);
      ShapeOfWrapped(q, l, path);
      ShapeOfWrapped(q, r, path);
      BinaryShape(q, e, path);
    case Call(f, args) =>
      forall i | 0 <= i < |args|
        ensures Shaped(q, args[i], Rewrite(q, args[i], path), Flag(q, args[i]))
        ensures ShapedWrapped(q, args[i], RewriteWrapped(q, args[i], path))
      {
        RewriteShape(q, args[i], path);
        ShapeOfWrapped(q, args[i], path);
      }
      CallShape(q, e, path);
    case _ => LeafShape(q, e, path);
  }

  lemma {:induction false} PassShape(q: Query, e: Expr, path: SubqueryPath)
    requires (e.Paren? || e.Unary? || e.Aggregate?) && Legal(e) && (path == ROOT || NoAt(e))
    requires Shaped(q, e.e, Rewrite(q, e.e, path), Flag(q, e.e))
    ensures Shaped(q, e, Rewrite(q, e, path), Flag(q, e))
  {
  }

  lemma {:induction false} LeafShape(q: Query, e: Expr, path: SubqueryPath)
    requires (e.Number? || e.Text?) && Legal(e)
    ensures Shaped(q, e, Rewrite(q, e, path), Flag(q, e))
  {
  }

  lemma {:induction false} SelectorShape(q: Query, e: Expr, path: SubqueryPath)
    requires e.VectorSel? || e.MatrixSel?
    requires path == ROOT || NoAt(e)
    ensures Shaped(q, e, Rewrite(q, e, path), Flag(q, e))
  {
  }

  lemma {:induction false} SubqueryShape(q: Query, e: Expr, path: SubqueryPath)
    requires e.Subquery? && RangeArg(e) && (path == ROOT || NoAt(e))
    requires ShapedWrapped(q, e.body, RewriteWrapped(q, e.body, Enter(path, ResolveMark(e.place, q.start, q.end))))
    ensures Shaped(q, e, Rewrite(q, e, path), Flag(q, e))
  {
  }

  lemma {:induction false} BinaryShape(q: Query, e: Expr, path: SubqueryPath)
    requires e.Binary?
    requires Shaped(q, e.l, Rewrite(q, e.l, path), Flag(q, e.l)) && Shaped(q, e.r, Rewrite(q, e.r, path), Flag(q, e.r))
    requires ShapedWrapped(q, e.l, RewriteWrapped(q, e.l, path)) && ShapedWrapped(q, e.r, RewriteWrapped(q, e.r, path))
    ensures Shaped(q, e, Rewrite(q, e, path), Flag(q, e))
  {
  }

  lemma {:induction false} CallShape(q: Query, e: Expr, path: SubqueryPath)
    requires e.Call? && Instant(e)
    requires forall i :: 0 <= i < |e.args| ==>
               && Shaped(q, e.args[i], Rewrite(q, e.args[i], path), Flag(q, e.args[i]))
               && ShapedWrapped(q, e.args[i], RewriteWrapped(q, e.args[i], path))
    ensures Shaped(q, e, Rewrite(q, e, path), Flag(q, e))
  {
    hide Rewrite, RewriteWrapped, Flag;
    RewriteCall(q, e.f, e.args, path);
    var t := Rewrite(q, e, path);
    if RangeCall(e) {
      RewriteWrappedCases(q, e.args[0], path);
      assert t.args[0] == Rewrite(q, e.args[0], path);
    } else {
      forall i | 0 <= i < |e.args|
        ensures IsText(t.args[i]) || (Instant(t.args[i]) && !IsRange(t.args[i]))
      {
        assert IsText(e.args[i]) || (Instant(e.args[i]) && !IsRange(e.args[i]));
      }
      assert !RangeCall(t) by { if |t.args| == 1 { assert !IsRange(t.args[0]); } }
    }
  }

  // ---------- the meaning of a rewritten tree ----------

  ghost predicate SameMeaning(sem: Sem, q: Query, a: Expr, b: Expr) {
    forall ts :: Denote(sem, q, a, ts) == Denote(sem, q, b, ts)
  }

  ghost predicate SameRange(sem: Sem, q: Query, a: Expr, b: Expr) {
    && (a.MatrixSel? || a.Subquery?) && (b.MatrixSel? || b.Subquery?)
    && a.range == b.range && a.place.orig == b.place.orig
    && (forall ts :: Anchor(q, a.place, ts) == Anchor(q, b.place, ts))
    && (forall maxt :: DenoteRange(sem, q, a, maxt) == DenoteRange(sem, q, b, maxt))
  }

  ghost predicate Equivalent(sem: Sem, q: Query, t: Expr, e: Expr) {
    && (Instant(e) ==> SameMeaning(sem, q, t, e))
    && (RangeArg(e) ==> SameRange(sem, q, Core(t), Core(e)))
  }

  lemma {:induction false} MeaningOfWrapped(sem: Sem, q: Query, e: Expr, path: SubqueryPath)
    requires SameMeaning(sem, q, Rewrite(q, e, path), e)
    ensures SameMeaning(sem, q, RewriteWrapped(q, e, path), e)
  {
    hide Denote, Rewrite, RewriteWrapped, Flag;
    RewriteWrappedCases(q, e, path);
    forall ts ensures Denote(sem, q, RewriteWrapped(q, e, path), ts) == Denote(sem, q, e, ts) {
      WrapKeepsMeaning(sem, q, Rewrite(q, e, path), ts);
    }
  }

  lemma {:induction false} RewriteMeaning(sem: Sem, q: Query, e: Expr, path: SubqueryPath)
    requires Legal(e) && (path == ROOT || NoAt(e))
    ensures Equivalent(sem, q, Rewrite(q, e, path), e)
    decreases e
  {
    match e
    case VectorSel(_, _) => SelectorMeaning(sem, q, e, path);
    case MatrixSel(_, _, _) => SelectorMeaning(sem, q, e, path);
    case Subquery(body, p, _, _) =>
      var inner := Enter(path, ResolveMark(p, q.start, q.end));
      RewriteMeaning(sem, q, body, inner);
      MeaningOfWrapped(sem, q, body, inner);
      SubqueryMeaning(sem, q, e, path);
    case Paren(x) =>
      RewriteMeaning(sem, q, x, path);
      ParenMeaning(sem, q, Rewrite(q, x, path), x);
    case Unary(minus, x) =>
      RewriteMeaning(sem, q, x, path);
      UnaryMeaning(sem, q, minus, Rewrite(q, x, path), x);
    case Aggregate(op, x) =>
      RewriteMeaning(sem, q, x, path);
      AggregateMeaning(sem, q, op, Rewrite(q, x, path), x);
    case Binary(_, l, r) =>
      RewriteMeaning(sem, q, l, path);
      RewriteMeaning(sem, q, r, path);
      MeaningOfWrapped(sem, q, l, path);
      MeaningOfWrapped(sem, q, r, path);
      BinaryMeaning(sem, q, e, path);
    case Call(f, args) =>
      forall i | 0 <= i < |args|
        ensures Equivalent(sem, q, Rewrite(q, args[i], path), args[i])
        ensures Instant(args[i]) ==> SameMeaning(sem, q, RewriteWrapped(q, args[i], path), args[i])
        ensures Shaped(q, args[i], Rewrite(q, args[i], path), Flag(q, args[i]))
        ensures ShapedWrapped(q, args[i], RewriteWrapped(q, args[i], path))
      {
        RewriteMeaning(sem, q, args[i], path);
        if Instant(args[i]) { MeaningOfWrapped(sem, q, args[i], path); }
        RewriteShape(q, args[i], path);
        ShapeOfWrapped(q, args[i], path);
      }
      hide Equivalent, SameMeaning, SameRange, Shaped, ShapedWrapped;
      if RangeCall(e) {
        RangeCallMeaning(sem, q, e, path);
      } else {
        InstantCallMeaning(sem, q, e, path);
      }
    case _ =>
  }

  lemma {:induction false} SelectorMeaning(sem: Sem, q: Query, e: Expr, path: SubqueryPath)
    requires e.VectorSel? || e.MatrixSel?
    ensures Equivalent(sem, q, Rewrite(q, e, path), e)
  {
    hide Slice, Fresh, InstantValues;
  }

  lemma {:induction false} SubqueryMeaning(sem: Sem, q: Query, e: Expr, path: SubqueryPath)
    requires e.Subquery?
    requires SameMeaning(sem, q, RewriteWrapped(q, e.body, Enter(path, ResolveMark(e.place, q.start, q.end))), e.body)
    ensures Equivalent(sem, q, Rewrite(q, e, path), e)
  {
    hide Denote, RangeEval;
    var t := Rewrite(q, e, path);
    assert t.body == RewriteWrapped(q, e.body, Enter(path, ResolveMark(e.place, q.start, q.end)));
    forall maxt ensures DenoteRange(sem, q, t, maxt) == DenoteRange(sem, q, e, maxt) {
      var step := StepOf(sem, e.step, e.range);
      if step > 0 {
        var times := Multiples(step, maxt - e.range, maxt);
        assert Separately(sem, q, t.body, times) == Separately(sem, q, e.body, times);
      }
    }
    hide DenoteRange;
  }

  lemma {:induction false} ParenMeaning(sem: Sem, q: Query, t: Expr, x: Expr)
    requires Equivalent(sem, q, t, x)
    ensures Equivalent(sem, q, Paren(t), Paren(x))
  {
    hide SameRange;
    if Instant(x) {
      forall ts ensures Denote(sem, q, Paren(t), ts) == Denote(sem, q, Paren(x), ts) {
        assert Denote(sem, q, t, ts) == Denote(sem, q, x, ts);
      }
    }
  }

  lemma {:induction false} UnaryMeaning(sem: Sem, q: Query, minus: bool, t: Expr, x: Expr)
    requires SameMeaning(sem, q, t, x)
    ensures SameMeaning(sem, q, Unary(minus, t), Unary(minus, x))
  {
    hide Unname, Negated;
    forall ts ensures Denote(sem, q, Unary(minus, t), ts) == Denote(sem, q, Unary(minus, x), ts) {
      assert Denote(sem, q, t, ts) == Denote(sem, q, x, ts);
    }
  }

  lemma {:induction false} AggregateMeaning(sem: Sem, q: Query, op: nat, t: Expr, x: Expr)
    requires SameMeaning(sem, q, t, x)
    ensures SameMeaning(sem, q, Aggregate(op, t), Aggregate(op, x))
  {
    forall ts ensures Denote(sem, q, Aggregate(op, t), ts) == Denote(sem, q, Aggregate(op, x), ts) {
      assert Denote(sem, q, t, ts) == Denote(sem, q, x, ts);
    }
  }

  lemma {:induction false} OperandsMeaning(sem: Sem, q: Query, op: nat, t: Expr, u: Expr, l: Expr, r: Expr)
    requires SameMeaning(sem, q, t, l) && SameMeaning(sem, q, u, r)
    ensures SameMeaning(sem, q, Binary(op, t, u), Binary(op, l, r))
  {
    forall ts ensures Denote(sem, q, Binary(op, t, u), ts) == Denote(sem, q, Binary(op, l, r), ts) {
      assert Denote(sem, q, t, ts) == Denote(sem, q, l, ts);
      assert Denote(sem, q, u, ts) == Denote(sem, q, r, ts);
    }
  }

  lemma {:induction false} InstantNotText(e: Expr)
    requires Instant(e)
    ensures !IsText(e)
    decreases e
  {
    if e.Paren? { InstantNotText(e.e); }
  }

  lemma {:induction false} BinaryMeaning(sem: Sem, q: Query, e: Expr, path: SubqueryPath)
    requires e.Binary?
    requires SameMeaning(sem, q, Rewrite(q, e.l, path), e.l) && SameMeaning(sem, q, Rewrite(q, e.r, path), e.r)
    requires SameMeaning(sem, q, RewriteWrapped(q, e.l, path), e.l)
    requires SameMeaning(sem, q, RewriteWrapped(q, e.r, path), e.r)
    ensures Equivalent(sem, q, Rewrite(q, e, path), e)
  {
    hide SameMeaning;
    var t := Rewrite(q, e, path);
    OperandsMeaning(sem, q, e.op, t.l, t.r, e.l, e.r);
  }

  lemma {:induction false} RangeCallMeaning(sem: Sem, q: Query, e: Expr, path: SubqueryPath)
    requires RangeCall(e) && Instant(e)
    requires Equivalent(sem, q, Rewrite(q, e.args[0], path), e.args[0])
    requires Shaped(q, e.args[0], Rewrite(q, e.args[0], path), Flag(q, e.args[0]))
    ensures Equivalent(sem, q, Rewrite(q, e, path), e)
  {
    hide Rewrite, RewriteWrapped, Flag, ApplyRange, DenoteRange;
    RewriteCall(q, e.f, e.args, path);
    RewriteWrappedCases(q, e.args[0], path);
    var t := Rewrite(q, e, path);
    assert t.args[0] == Rewrite(q, e.args[0], path);
    assert RangeCall(t);
    forall ts ensures Denote(sem, q, t, ts) == Denote(sem, q, e, ts) {
      assert DenoteRangeCall(sem, q, t, ts) == DenoteRangeCall(sem, q, e, ts);
    }
  }

  lemma {:induction false} InstantCallMeaning(sem: Sem, q: Query, e: Expr, path: SubqueryPath)
    requires e.Call? && !RangeCall(e) && Instant(e)
    requires forall i :: 0 <= i < |e.args| ==>
               && Equivalent(sem, q, Rewrite(q, e.args[i], path), e.args[i])
               && (Instant(e.args[i]) ==> SameMeaning(sem, q, RewriteWrapped(q, e.args[i], path), e.args[i]))
               && Shaped(q, e.args[i], Rewrite(q, e.args[i], path), Flag(q, e.args[i]))
               && ShapedWrapped(q, e.args[i], RewriteWrapped(q, e.args[i], path))
    ensures Equivalent(sem, q, Rewrite(q, e, path), e)
  {
    hide Rewrite, RewriteWrapped, Flag, DenoteRange;
    RewriteCall(q, e.f, e.args, path);
    var t := Rewrite(q, e, path);
    forall i | 0 <= i < |e.args|
      ensures IsText(e.args[i]) ==> IsText(t.args[i]) && Core(t.args[i]) == Core(e.args[i])
      ensures !IsText(e.args[i]) ==> SameMeaning(sem, q, t.args[i], e.args[i]) && !IsText(t.args[i]) && !IsRange(t.args[i])
    {
      if !IsText(e.args[i]) { InstantNotText(t.args[i]); }
    }
    ArgumentsMeaning(sem, q, e, t);
  }

  lemma {:induction false} ArgumentsMeaning(sem: Sem, q: Query, e: Expr, t: Expr)
    requires e.Call? && t.Call? && e.f == t.f && |e.args| == |t.args| && !RangeCall(e) && !RangeCall(t)
    requires forall i :: 0 <= i < |e.args| ==>
               && (IsText(e.args[i]) ==> IsText(t.args[i]) && Core(t.args[i]) == Core(e.args[i]))
               && (!IsText(e.args[i]) ==> SameMeaning(sem, q, t.args[i], e.args[i]) && !IsText(t.args[i]))
    ensures SameMeaning(sem, q, t, e)
  {
    forall ts ensures Denote(sem, q, t, ts) == Denote(sem, q, e, ts) {
      assert DenoteInstantCall(sem, q, t, ts) == DenoteInstantCall(sem, q, e, ts) by {
        if forall i :: 0 <= i < |e.args| ==> IsText(e.args[i]) || Denote(sem, q, e.args[i], ts).Ok? {
          assert ArgsAt(sem, q, t.args, ts) == ArgsAt(sem, q, e.args, ts);
          assert DenoteInstantCall(sem, q, t, ts) == sem.call(e.f, ArgsAt(sem, q, t.args, ts), ts);
          assert DenoteInstantCall(sem, q, e, ts) == sem.call(e.f, ArgsAt(sem, q, e.args, ts), ts);
        }
      }
    }
  }

  // ---------- the theorem ----------

  /** Evaluating the rewritten query over its whole range never panics, and whenever it
      succeeds, every step holds the value of the written expression at that step and
      nothing else. */
  lemma {:induction false} RewritingPreservesMeaning(sem: Sem, e: Expr, start: int, end: int, interval: int)
    requires SafeSem(sem) && interval > 0 && start <= end && Written(e) && Instant(e)
    ensures var q := Query(start, end);
            var grid := Grid(start, end, interval);
            var r := Eval(sem, SetOffset(start, Preprocess(e, start, end), ROOT), start, end, interval);
            && r != Panic
            && (r.Ok? ==>
                  && OnlyOn(r.value, grid)
                  && forall ts :: ts in grid ==> Denote(sem, q, e, ts) == Ok(At(r.value, ts)))
  {
    hide Denote, At, OnlyOn, Eval;
    var q := Query(start, end);
    var t := RewriteWrapped(q, e, ROOT);
    RewriteShape(q, e, ROOT);
    ShapeOfWrapped(q, e, ROOT);
    RewriteMeaning(sem, q, e, ROOT);
    MeaningOfWrapped(sem, q, e, ROOT);
    EvalFaithful(sem, q, t, start, end, interval);
    assert OnGrid(start, start, end, interval);
    assert Grid(start, end, interval) + {start} == Grid(start, end, interval);
  }
}
