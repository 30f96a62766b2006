/** A query that fails although each of its steps succeeds: two metrics that are never there at the same
    step are negated over a range. */
module NegationExample {
  import opened Common
  import opened PromExpr
  import opened PromEval
  import opened RewritingSuccess

  function Gauge(name: string): Labels { Labels(map[NAME := name]) }

  ghost function Once(t: int): Series { map[t := Some(1.0)] }

  lemma OnceRead(t: int, u: int)
    ensures Latest(Once(t), u, 0) == if t == u then Some(1.0) else None
  {
  }

  /** Two metrics, one with a sample at time 0 and the other at time 1. */
  ghost function Turns(): map<Labels, Series> { map[Gauge("a") := Once(0), Gauge("b") := Once(1)] }

  ghost function TakingTurns(): Sem {
    Sem(_ => Turns(), 0, _ => 1, (_, _, _) => Err, (_, _) => Err, (_, _, _) => Err, (_, _, _, _, _) => None)
  }

  ghost function OnlyGauge(name: string): Vector { map[Gauge(name) := 1.0] }

  lemma TwoNames()
    ensures Gauge("a") != Gauge("b") && DropName(Gauge("a")) == DropName(Gauge("b"))
  {
    assert Gauge("a").pairs[NAME] != Gauge("b").pairs[NAME];
    assert DropName(Gauge("a")).pairs == map[] && DropName(Gauge("b")).pairs == map[];
  }

  lemma TurnsAre()
    ensures Turns().Keys == {Gauge("a"), Gauge("b")} && Turns()[Gauge("a")] == Once(0) && Turns()[Gauge("b")] == Once(1)
  {
    hide Once;
    TwoNames();
  }

  lemma TurnsRead(t: int)
    requires t == 0 || t == 1
    ensures InstantValues(TakingTurns(), 0, t) == OnlyGauge(if t == 0 then "a" else "b")
  {
    hide Turns, Once, Latest, Gauge, DropName;
    OnceRead(0, t);
    OnceRead(1, t);
    TwoNames();
    TurnsAre();
    assert TakingTurns().storage(0) == Turns();
  }

  lemma OneNameNeverClashes(name: string)
    ensures Unname(Negated(OnlyGauge(name))).Ok?
  {
  }

  lemma {:induction false} TurnsMean(q: Query, t: int)
    requires t == 0 || t == 1
    ensures var x := VectorSel(0, Place(0, 0, None, NoMark));
            var name := if t == 0 then "a" else "b";
            HasLabels(TakingTurns(), q, x, t, Gauge(name)) && Denote(TakingTurns(), q, Unary(true, x), t).Ok?
  {
    hide InstantValues, Unname, Negated, TakingTurns;
    var name := if t == 0 then "a" else "b";
    TurnsRead(t);
    OneNameNeverClashes(name);
    assert Denote(TakingTurns(), q, VectorSel(0, Place(0, 0, None, NoMark)), t) == Ok(OnlyGauge(name));
  }

  lemma ClashFrom(sem: Sem, q: Query, x: Expr, grid: set<int>, t: int, u: int, a: Labels, b: Labels)
    requires t in grid && u in grid && HasLabels(sem, q, x, t, a) && HasLabels(sem, q, x, u, b)
    requires a != b && DropName(a) == DropName(b)
    ensures ClashAcross(sem, q, x, grid)
  {
    hide HasLabels, DropName;
    assert Appears(sem, q, x, grid, a) && Appears(sem, q, x, grid, b);
  }

  lemma {:induction false} TurnsClash(q: Query)
    ensures var x := VectorSel(0, Place(0, 0, None, NoMark));
            ClashAcross(TakingTurns(), q, x, Grid(0, 1, 1)) && AllOk(TakingTurns(), q, Unary(true, x), Grid(0, 1, 1))
  {
    hide HasLabels, DropName, Denote, Gauge, TakingTurns, ClashAcross, Grid, OnlyGauge;
    var sem := TakingTurns();
    var x := VectorSel(0, Place(0, 0, None, NoMark));
    var grid := Grid(0, 1, 1);
    StartOnGrid(0, 1, 1);
    SecondOnGrid(0, 1, 1);
    TwoNames();
    TurnsMean(q, 0);
    TurnsMean(q, 1);
    ClashFrom(sem, q, x, grid, 0, 1, Gauge("a"), Gauge("b"));
    forall t | t in grid ensures Denote(sem, q, Unary(true, x), t).Ok? {
      GridBetween(0, 1, 1, t);
      TurnsMean(q, t);
    }
  }

  lemma SecondOnGrid(start: int, end: int, interval: int)
    requires interval > 0 && start + interval <= end
    ensures start + interval in Grid(start, end, interval)
  {
    assert OnGrid(start + interval, start, end, interval);
  }

  lemma TurnsSafe()
    ensures SafeSem(TakingTurns())
  {
  }

  /** The two metrics never meet at a step, so their negation has a value at each; over the range it fails. */
  lemma {:induction false} NegationFailsAcrossSteps()
    ensures var sem, q := TakingTurns(), Query(0, 1);
            var e := Unary(true, VectorSel(0, Place(0, 0, None, NoMark)));
            && SafeSem(sem) && AllOk(sem, q, e, Grid(0, 1, 1)) && !Unclashed(sem, q, e, 0, 1, 1)
            && !Eval(sem, SetOffset(0, Preprocess(e, 0, 1), ROOT), 0, 1, 1).Ok?
  {
    hide Eval, Preprocess, SetOffset, TakingTurns, SafeSem, ClashAcross, AllOk, Grid;
    TurnsSafe();
    TurnsClash(Query(0, 1));
    RewritingSucceedsIff(TakingTurns(), Unary(true, VectorSel(0, Place(0, 0, None, NoMark))), 0, 1, 1);
  }
}
