/** What `@` and the evaluation time come to for a whole query: at which time a selector is read, and which
    calls are made anew at every step. */
module AtModifier {
  import opened Common
  import opened PromExpr
  import opened PromEval
  import opened StepInvariance
  import opened Rewriting
  import opened RewritingSuccess
  import opened SubquerySteps

  /** The prepared form of a written query. */
  function Ready(e: Expr, start: int, end: int): Expr { SetOffset(start, Preprocess(e, start, end), ROOT) }

  /** A selector over a range of steps is read, less its offset, at the query's start with `@ start()`, at its
      end with `@ end()`, at the given time with `@`, and at each step otherwise. */
  lemma {:induction false} SelectorIsReadAt(sem: Sem, id: nat, p: Place, start: int, end: int, interval: int)
    requires SafeSem(sem) && interval > 0 && start <= end
    ensures var r := Eval(sem, Ready(VectorSel(id, p), start, end), start, end, interval);
            && r.Ok? && OnlyOn(r.value, Grid(start, end, interval))
            && forall ts :: ts in Grid(start, end, interval) ==>
                 At(r.value, ts) == InstantValues(sem, id,
                   if p.mark == AtStart then start - p.orig
                   else if p.mark == AtEnd then end - p.orig
                   else if p.at.Some? then p.at.value - p.orig
                   else ts - p.orig)
  {
    hide SafeSem, Eval, At, OnlyOn, InstantValues, Grid, Preprocess, SetOffset;
    var q, e := Query(start, end), VectorSel(id, p);
    RewritingPreservesMeaning(sem, e, start, end, interval);
    RewritingSucceedsIff(sem, e, start, end, interval);
  }

  /** A call of constants is wrapped, and so made once, unless it is one of these ten. */
  lemma {:induction false} WrappedCalls(f: string, args: seq<Expr>, start: int, end: int)
    requires forall i :: 0 <= i < |args| ==> args[i].Number?
    ensures Preprocess(Call(f, args), start, end)
            == if f in {"days_in_month", "day_of_month", "day_of_week", "hour", "minute", "month", "year", "predict_linear", "time", "timestamp"}
               then Call(f, seq(|args|, i requires 0 <= i < |args| => StepInvariant(args[i])))
               else StepInvariant(Call(f, args))
  {
    var a := Range(start, end);
    CallHelped(f, args, a);
    var r := Helped(Call(f, args), a);
    if r.1 { assert r.0.args == args; } else { assert r.0.args == seq(|args|, i requires 0 <= i < |args| => StepInvariant(args[i])); }
  }

  /** The time function is called for the time of each step. */
  lemma {:induction false} TimeOfEachStep(sem: Sem, start: int, end: int, interval: int)
    requires interval > 0 && start <= end && forall t :: sem.call("time", [], t).Ok?
    ensures var r := Eval(sem, Ready(Call("time", []), start, end), start, end, interval);
            && r.Ok?
            && forall ts :: ts in Grid(start, end, interval) ==> At(r.value, ts) == sem.call("time", [], ts).value
  {
    hide Grid, RangeEval, At;
    WrappedCalls("time", [], start, end);
    var e := Call("time", []);
    assert Preprocess(e, start, end) == e;
    assert Ready(e, start, end) == e;
    hide Preprocess, SetOffset, Ready;
    var grid := Grid(start, end, interval);
    var steps := map t | t in grid :: sem.call("time", [], t);
    CallSteps(sem, "time", [], [], start, end, interval);
    forall t ensures ArgsOf([], [], t) == [] {}
    assert steps == map t | t in grid :: sem.call("time", ArgsOf([], [], t), t);
    StepsCombine(steps);
  }

  /** A call of instant vectors and strings is made at every step. */
  lemma {:induction false} CallSteps(sem: Sem, f: string, args: seq<Expr>, ms: seq<Res<Matrix>>, start: int, end: int, interval: int)
    requires interval > 0 && !RangeCall(Call(f, args)) && |ms| == |args|
    requires forall i :: 0 <= i < |args| ==>
               ms[i].Ok? && ms[i] == if IsText(args[i]) then Ok(map[]) else Eval(sem, args[i], start, end, interval)
    ensures Eval(sem, Call(f, args), start, end, interval)
            == RangeEval(map t | t in Grid(start, end, interval) :: sem.call(f, ArgsOf(args, ms, t), t))
  {
    hide Grid, RangeEval;
    var all := seq(|args|, i requires 0 <= i < |args| => if IsText(args[i]) then Ok(map[]) else Eval(sem, args[i], start, end, interval));
    assert ms == all;
  }
}
