/** The time range the engine fetches before it evaluates a query (`findMinMaxTime`), and why it is
    enough: evaluation gives the same result on any two storages that agree on that range. */
module QueryRange {
  import opened Common
  import opened IntMath
  import opened PromExpr
  import opened PromEval
  import opened StepInvariance
  import opened Rewriting

  // ---------- walking the tree ----------

  /** One callback of the syntax tree walk: a node and its ancestors, outermost first. */
  datatype Visit = Visit(node: Expr, path: seq<Expr>)

  function Visits(e: Expr, path: seq<Expr>): seq<Visit>
    decreases e, 1
  {
    var p := path + [e];
    [Visit(e, path)]
    + match e
      case MatrixSel(id, place, _) => [Visit(VectorSel(id, place), p)]
      case Subquery(b, _, _, _) => Visits(b, p)
      case Paren(x) => Visits(x, p)
      case Unary(_, x) => Visits(x, p)
      case Aggregate(_, x) => Visits(x, p)
      case Binary(_, l, r) => Visits(l, p) + Visits(r, p)
      case Call(_, args) => VisitsAll(args, p)
      case StepInvariant(x) => Visits(x, p)
      case _ => []
  }

  function VisitsAll(es: seq<Expr>, path: seq<Expr>): seq<Visit>
    decreases es, 0
  {
    if es == [] then [] else VisitsAll(es[..|es| - 1], path) + Visits(es[|es| - 1], path)
  }

  // ---------- findMinMaxTime ----------

  /** Offsets and ranges of the subqueries on a path; `@` starts the sums afresh. */
  datatype Trail = Trail(offset: int, range: int, at: Option<int>)

  const TOP := Trail(0, 0, None)

  function Descend(t: Trail, e: Expr): Trail {
    if !e.Subquery? then t
    else if e.place.at.Some? then Trail(e.place.orig, e.range, e.place.at)
    else Trail(t.offset + e.place.orig, t.range + e.range, t.at)
  }

  function TrailOf(path: seq<Expr>): Trail {
    if path == [] then TOP else Descend(TrailOf(path[..|path| - 1]), path[|path| - 1])
  }

  method SubqueryTimes(path: seq<Expr>) returns (offset: int, range: int, at: Option<int>)
    ensures Trail(offset, range, at) == TrailOf(path)
  {
    offset, range, at := 0, 0, None;
    var i := 0;
    while i < |path|
      invariant 0 <= i <= |path|
      invariant Trail(offset, range, at) == TrailOf(path[..i])
    {
      var n := path[i];
      assert path[..i + 1][..i] == path[..i];
      if n.Subquery? {
        offset, range := offset + n.place.orig, range + n.range;
        if n.place.at.Some? { offset, range, at := n.place.orig, n.range, n.place.at; }
      }
      i := i + 1;
    }
    assert path[..i] == path;
  }

  datatype Span = Span(from: int, to: int)

  /** What one selector may need. `evalRange` is zero for an instant selector. */
  function SpanFor(q: Query, lookback: int, place: Place, t: Trail, evalRange: int): Span {
    var anchor := if t.at.Some? then Query(t.at.value, t.at.value) else q;
    var span := if place.at.Some? then Span(place.at.value, place.at.value)
                else Span(anchor.start - t.offset - t.range, anchor.end - t.offset);
    var back := if evalRange == 0 then lookback else evalRange;
    Span(span.from - back - place.orig, span.to - place.orig)
  }

  /** The spans of a whole expression. */
  function Spans(q: Query, lookback: int, e: Expr, t: Trail): seq<Span>
    decreases e, 1
  {
    match e
    case VectorSel(_, p) => [SpanFor(q, lookback, p, t, 0)]
    case MatrixSel(_, p, range) => [SpanFor(q, lookback, p, t, range)]
    case Subquery(b, _, _, _) => Spans(q, lookback, b, Descend(t, e))
    case Paren(x) => Spans(q, lookback, x, t)
    case Unary(_, x) => Spans(q, lookback, x, t)
    case Aggregate(_, x) => Spans(q, lookback, x, t)
    case Binary(_, l, r) => Spans(q, lookback, l, t) + Spans(q, lookback, r, t)
    case Call(_, args) => SpansAll(q, lookback, args, t)
    case StepInvariant(x) => Spans(q, lookback, x, t)
    case _ => []
  }

  function SpansAll(q: Query, lookback: int, es: seq<Expr>, t: Trail): seq<Span>
    decreases es, 0
  {
    if es == [] then [] else SpansAll(q, lookback, es[..|es| - 1], t) + Spans(q, lookback, es[|es| - 1], t)
  }

  datatype Walked = Walked(spans: seq<Span>, evalRange: int)

  /** The walk's state after some callbacks: a matrix selector leaves its range for the instant selector
      inside it, which uses it up. */
  function Walk(q: Query, lookback: int, vs: seq<Visit>, evalRange: int): Walked {
    if vs == [] then Walked([], evalRange)
    else
      var w := Walk(q, lookback, vs[..|vs| - 1], evalRange);
      var v := vs[|vs| - 1];
      match v.node
      case VectorSel(_, p) => Walked(w.spans + [SpanFor(q, lookback, p, TrailOf(v.path), w.evalRange)], 0)
      case MatrixSel(_, _, range) => Walked(w.spans, range)
      case _ => w
  }

  /** The least start and the greatest end, or zero for both when there is no selector. */
  ghost predicate Encloses(spans: seq<Span>, mint: int, maxt: int) {
    if spans == [] then mint == 0 && maxt == 0
    else
      && (forall i :: 0 <= i < |spans| ==> mint <= spans[i].from && spans[i].to <= maxt)
      && (exists i :: 0 <= i < |spans| && mint == spans[i].from)
      && (exists i :: 0 <= i < |spans| && maxt == spans[i].to)
  }

  ghost predicate EnclosesSoFar(spans: seq<Span>, mint: Option<int>, maxt: Option<int>) {
    if spans == [] then mint == None && maxt == None
    else mint.Some? && maxt.Some? && Encloses(spans, mint.value, maxt.value)
  }

  lemma {:induction false} EnclosesMore(spans: seq<Span>, s: Span, mint: Option<int>, maxt: Option<int>)
    requires EnclosesSoFar(spans, mint, maxt)
    ensures var lo := if mint.None? || s.from < mint.value then s.from else mint.value;
            var hi := if maxt.None? || s.to > maxt.value then s.to else maxt.value;
            Encloses(spans + [s], lo, hi)
  {
    var more := spans + [s];
    assert more[|spans|] == s;
    if spans != [] {
      var i :| 0 <= i < |spans| && mint.value == spans[i].from;
      var j :| 0 <= j < |spans| && maxt.value == spans[j].to;
      assert more[i] == spans[i] && more[j] == spans[j];
    }
  }

  /** `None` plays the part of the largest and smallest 64-bit numbers. */
  method FindMinMaxTime(q: Query, lookback: int, e: Expr) returns (mint: int, maxt: int)
    ensures Encloses(Spans(q, lookback, e, TOP), mint, maxt)
  {
    var lo: Option<int>, hi: Option<int>, evalRange := None, None, 0;
    var vs := Visits(e, []);
    var i := 0;
    while i < |vs|
      invariant 0 <= i <= |vs|
      invariant var w := Walk(q, lookback, vs[..i], 0); evalRange == w.evalRange && EnclosesSoFar(w.spans, lo, hi)
    {
      assert vs[..i + 1][..i] == vs[..i];
      var n := vs[i].node;
      if n.VectorSel? {
        var offset, range, at := SubqueryTimes(vs[i].path);
        var s := SpanFor(q, lookback, n.place, Trail(offset, range, at), evalRange);
        EnclosesMore(Walk(q, lookback, vs[..i], 0).spans, s, lo, hi);
        if lo.None? || s.from < lo.value { lo := Some(s.from); }
        if hi.None? || s.to > hi.value { hi := Some(s.to); }
        evalRange := 0;
      } else if n.MatrixSel? {
        evalRange := n.range;
      }
      i := i + 1;
    }
    assert vs[..i] == vs;
    WalkIsSpans(q, lookback, e, []);
    mint := if lo.Some? then lo.value else 0;
    maxt := if hi.Some? then hi.value else 0;
  }

  lemma {:induction false} WalkAppend(q: Query, lookback: int, a: seq<Visit>, b: seq<Visit>)
    requires Walk(q, lookback, a, 0).evalRange == 0
    ensures var u, v := Walk(q, lookback, a, 0), Walk(q, lookback, b, 0);
            Walk(q, lookback, a + b, 0) == Walked(u.spans + v.spans, v.evalRange)
    decreases |b|
  {
    if b == [] {
      assert a + b == a;
      assert Walk(q, lookback, a, 0).spans + [] == Walk(q, lookback, a, 0).spans;
    } else {
      var c := b[..|b| - 1];
      WalkAppend(q, lookback, a, c);
      assert (a + b)[..|a + b| - 1] == a + c;
    }
  }

  /** Nodes other than selectors leave no trace. */
  lemma {:induction false} WalkUnder(q: Query, lookback: int, v: Visit, rest: seq<Visit>)
    requires !v.node.VectorSel? && !v.node.MatrixSel?
    ensures Walk(q, lookback, [v] + rest, 0) == Walk(q, lookback, rest, 0)
  {
    assert [v][..0] == [];
    assert Walk(q, lookback, [v], 0) == Walked([], 0);
    WalkAppend(q, lookback, [v], rest);
    assert [] + Walk(q, lookback, rest, 0).spans == Walk(q, lookback, rest, 0).spans;
  }

  lemma {:induction false} WalkSelector(q: Query, lookback: int, e: Expr, path: seq<Expr>)
    requires e.VectorSel? || e.MatrixSel?
    ensures Walk(q, lookback, Visits(e, path), 0) == Walked(Spans(q, lookback, e, TrailOf(path)), 0)
  {
    var v := [Visit(e, path)];
    assert v[..0] == [];
    if e.VectorSel? {
      assert v + [] == v;
    } else {
      TrailPush(path, e);
      var w := [Visit(VectorSel(e.id, e.place), path + [e])];
      assert (v + w)[..1] == v;
      assert Walk(q, lookback, v, 0) == Walked([], e.range);
      assert Visits(e, path) == v + w;
      assert [] + [SpanFor(q, lookback, e.place, TrailOf(path), e.range)] == Spans(q, lookback, e, TrailOf(path));
    }
  }

  lemma TrailPush(path: seq<Expr>, e: Expr)
    ensures TrailOf(path + [e]) == Descend(TrailOf(path), e)
  {
    assert (path + [e])[..|path|] == path;
  }

  /** The hand-over through the walk's state gives each selector its own range. */
  lemma {:induction false} WalkIsSpans(q: Query, lookback: int, e: Expr, path: seq<Expr>)
    ensures Walk(q, lookback, Visits(e, path), 0) == Walked(Spans(q, lookback, e, TrailOf(path)), 0)
    decreases e, 1
  {
    hide Walk, TrailOf, SpanFor;
    var p := path + [e];
    TrailPush(path, e);
    var v := Visit(e, path);
    match e {
      case VectorSel(_, _) => WalkSelector(q, lookback, e, path);
      case MatrixSel(_, _, _) => WalkSelector(q, lookback, e, path);
      case Number(_) => WalkUnder(q, lookback, v, []); WalkNothing(q, lookback);
      case Text(_) => WalkUnder(q, lookback, v, []); WalkNothing(q, lookback);
      case Subquery(b, _, _, _) => WalkIsSpans(q, lookback, b, p); WalkUnder(q, lookback, v, Visits(b, p));
      case Paren(x) => WalkIsSpans(q, lookback, x, p); WalkUnder(q, lookback, v, Visits(x, p));
      case Unary(_, x) => WalkIsSpans(q, lookback, x, p); WalkUnder(q, lookback, v, Visits(x, p));
      case Aggregate(_, x) => WalkIsSpans(q, lookback, x, p); WalkUnder(q, lookback, v, Visits(x, p));
      case StepInvariant(x) => WalkIsSpans(q, lookback, x, p); WalkUnder(q, lookback, v, Visits(x, p));
      case Binary(_, l, r) =>
        WalkIsSpans(q, lookback, l, p);
        WalkIsSpans(q, lookback, r, p);
        WalkAppend(q, lookback, Visits(l, p), Visits(r, p));
        WalkUnder(q, lookback, v, Visits(l, p) + Visits(r, p));
      case Call(_, args) => WalkIsSpansAll(q, lookback, args, p); WalkUnder(q, lookback, v, VisitsAll(args, p));
    }
  }

  lemma WalkNothing(q: Query, lookback: int)
    ensures Walk(q, lookback, [], 0) == Walked([], 0)
  {
  }

  lemma {:induction false} WalkIsSpansAll(q: Query, lookback: int, es: seq<Expr>, path: seq<Expr>)
    ensures Walk(q, lookback, VisitsAll(es, path), 0) == Walked(SpansAll(q, lookback, es, TrailOf(path)), 0)
    decreases es, 0
  {
    if es != [] {
      var a := es[..|es| - 1];
      WalkIsSpansAll(q, lookback, a, path);
      WalkIsSpans(q, lookback, es[|es| - 1], path);
      WalkAppend(q, lookback, VisitsAll(a, path), Visits(es[|es| - 1], path));
    }
  }

  // ---------- the fetched range is enough ----------

  /** What a storage holds at one time: nothing, a stale marker or a value. */
  ghost function SampleAt(db: map<Labels, Series>, l: Labels, t: int): Option<Option<real>> {
    if l in db && t in db[l] then Some(db[l][t]) else None
  }

  ghost predicate SameSamples(a: map<Labels, Series>, b: map<Labels, Series>, lo: int, hi: int) {
    forall l, t :: lo <= t <= hi ==> SampleAt(a, l, t) == SampleAt(b, l, t)
  }

  /** Two engines that differ only in what they store outside of the range; a series without samples
      inside it may be missing altogether. */
  ghost predicate Agree(a: Sem, b: Sem, lo: int, hi: int) {
    && b == a.(storage := b.storage)
    && forall id :: SameSamples(a.storage(id), b.storage(id), lo, hi)
  }

  /** Every read of `e`, evaluated between `s` and `t`, falls into [lo, hi]; `@` fixes both. */
  predicate Covers(e: Expr, lookback: int, s: int, t: int, lo: int, hi: int) {
    match e
    case VectorSel(_, p) =>
      if p.at.Some? then lo <= p.at.value - p.orig - lookback && p.at.value - p.orig <= hi
      else lo <= s - p.orig - lookback && t - p.orig <= hi
    case MatrixSel(_, p, range) =>
      if p.at.Some? then lo <= p.at.value - p.orig - range && p.at.value - p.orig <= hi
      else lo <= s - p.orig - range && t - p.orig <= hi
    case Subquery(b, p, range, _) =>
      if p.at.Some? then Covers(b, lookback, p.at.value - p.orig - range, p.at.value - p.orig, lo, hi)
      else Covers(b, lookback, s - p.orig - range, t - p.orig, lo, hi)
    case Paren(x) => Covers(x, lookback, s, t, lo, hi)
    case Unary(_, x) => Covers(x, lookback, s, t, lo, hi)
    case Aggregate(_, x) => Covers(x, lookback, s, t, lo, hi)
    case Binary(_, l, r) => Covers(l, lookback, s, t, lo, hi) && Covers(r, lookback, s, t, lo, hi)
    case Call(_, args) => forall i :: 0 <= i < |args| ==> Covers(args[i], lookback, s, t, lo, hi)
    case StepInvariant(x) => Covers(x, lookback, s, t, lo, hi)
    case _ => true
  }

  ghost predicate Within(spans: seq<Span>, lo: int, hi: int) {
    forall i :: 0 <= i < |spans| ==> lo <= spans[i].from && spans[i].to <= hi
  }

  lemma WithinParts(a: seq<Span>, b: seq<Span>, lo: int, hi: int)
    requires Within(a + b, lo, hi)
    ensures Within(a, lo, hi) && Within(b, lo, hi)
  {
    forall i | 0 <= i < |a| ensures lo <= a[i].from && a[i].to <= hi { assert (a + b)[i] == a[i]; }
    forall i | 0 <= i < |b| ensures lo <= b[i].from && b[i].to <= hi { assert (a + b)[|a| + i] == b[i]; }
  }

  /** The times between which a part below the given subqueries is evaluated. */
  function Evaluated(q: Query, t: Trail): Query {
    var anchor := if t.at.Some? then Query(t.at.value, t.at.value) else q;
    Query(anchor.start - t.offset - t.range, anchor.end - t.offset)
  }

  lemma {:induction false} SpansCover(q: Query, lookback: nat, e: Expr, t: Trail, lo: int, hi: int)
    requires Within(Spans(q, lookback, e, t), lo, hi)
    ensures Covers(e, lookback, Evaluated(q, t).start, Evaluated(q, t).end, lo, hi)
    decreases e, 1
  {
    match e
    case VectorSel(_, _) => assert Spans(q, lookback, e, t)[0].from >= lo;
    case MatrixSel(_, _, _) => assert Spans(q, lookback, e, t)[0].from >= lo;
    case Subquery(b, _, _, _) => SpansCover(q, lookback, b, Descend(t, e), lo, hi);
    case Paren(x) => SpansCover(q, lookback, x, t, lo, hi);
    case Unary(_, x) => SpansCover(q, lookback, x, t, lo, hi);
    case Aggregate(_, x) => SpansCover(q, lookback, x, t, lo, hi);
    case StepInvariant(x) => SpansCover(q, lookback, x, t, lo, hi);
    case Binary(_, l, r) =>
      WithinParts(Spans(q, lookback, l, t), Spans(q, lookback, r, t), lo, hi);
      SpansCover(q, lookback, l, t, lo, hi);
      SpansCover(q, lookback, r, t, lo, hi);
    case Call(_, args) => SpansCoverAll(q, lookback, args, t, lo, hi);
    case _ =>
  }

  lemma {:induction false} SpansCoverAll(q: Query, lookback: nat, es: seq<Expr>, t: Trail, lo: int, hi: int)
    requires Within(SpansAll(q, lookback, es, t), lo, hi)
    ensures forall i :: 0 <= i < |es| ==> Covers(es[i], lookback, Evaluated(q, t).start, Evaluated(q, t).end, lo, hi)
    decreases es, 0
  {
    if es != [] {
      var a, last := es[..|es| - 1], es[|es| - 1];
      WithinParts(SpansAll(q, lookback, a, t), Spans(q, lookback, last, t), lo, hi);
      SpansCoverAll(q, lookback, a, t, lo, hi);
      SpansCover(q, lookback, last, t, lo, hi);
    }
  }

  // ---------- reads ----------

  lemma {:induction false} LatestLocal(a: Series, b: Series, ref: int, lookback: nat)
    requires forall t :: ref - lookback <= t <= ref ==> (t in a <==> t in b) && (t in a ==> a[t] == b[t])
    ensures Latest(a, ref, lookback) == Latest(b, ref, lookback)
    decreases lookback
  {
    if ref !in a && lookback > 0 { LatestLocal(a, b, ref - 1, lookback - 1); }
  }

  lemma {:induction false} LatestNone(s: Series, ref: int, lookback: nat)
    requires forall t :: ref - lookback <= t <= ref ==> t !in s
    ensures Latest(s, ref, lookback) == None
    decreases lookback
  {
    if lookback > 0 { LatestNone(s, ref - 1, lookback - 1); }
  }

  /** What an instant selector reads from one label set. */
  ghost function LatestAt(db: map<Labels, Series>, l: Labels, ref: int, lookback: nat): Option<real> {
    if l in db then Latest(db[l], ref, lookback) else None
  }

  lemma {:induction false} LatestAgrees(a: map<Labels, Series>, b: map<Labels, Series>, l: Labels, ref: int, lookback: nat, lo: int, hi: int)
    requires SameSamples(a, b, lo, hi) && lo <= ref - lookback && ref <= hi
    ensures LatestAt(a, l, ref, lookback) == LatestAt(b, l, ref, lookback)
  {
    forall t | ref - lookback <= t <= ref
      ensures l in a && l in b ==> (t in a[l] <==> t in b[l]) && (t in a[l] ==> a[l][t] == b[l][t])
      ensures l in a && l !in b ==> t !in a[l]
      ensures l in b && l !in a ==> t !in b[l]
    {
      assert SampleAt(a, l, t) == SampleAt(b, l, t);
    }
    if l in a && l in b { LatestLocal(a[l], b[l], ref, lookback); }
    else if l in a { LatestNone(a[l], ref, lookback); }
    else if l in b { LatestNone(b[l], ref, lookback); }
  }

  ghost function ColumnAt(sem: Sem, db: map<Labels, Series>, l: Labels, offset: int, grid: set<int>): Points {
    if l in db then SelectColumn(sem, db[l], offset, grid) else Points(map[])
  }

  lemma {:induction false} SelectLocal(a: Sem, b: Sem, id: nat, offset: int, grid: set<int>, lo: int, hi: int)
    requires Agree(a, b, lo, hi) && forall t :: t in grid ==> lo <= t - offset - a.lookback && t - offset <= hi
    ensures SelectColumns(a, id, offset, grid) == SelectColumns(b, id, offset, grid)
  {
    var da, db := a.storage(id), b.storage(id);
    forall l ensures ColumnAt(a, da, l, offset, grid) == ColumnAt(b, db, l, offset, grid) {
      forall ts | ts in grid ensures LatestAt(da, l, ts - offset, a.lookback) == LatestAt(db, l, ts - offset, a.lookback) {
        LatestAgrees(da, db, l, ts - offset, a.lookback, lo, hi);
      }
      ColumnsEqual(a, b, da, db, l, offset, grid);
    }
    var ca, cb := SelectColumns(a, id, offset, grid), SelectColumns(b, id, offset, grid);
    forall l ensures l in ca <==> l in cb
      ensures l in ca ==> ca[l] == cb[l]
    {
      assert ColumnAt(a, da, l, offset, grid) == ColumnAt(b, db, l, offset, grid);
    }
  }

  lemma {:induction false} ColumnsEqual(a: Sem, b: Sem, da: map<Labels, Series>, db: map<Labels, Series>, l: Labels, offset: int, grid: set<int>)
    requires a.lookback == b.lookback
    requires forall ts :: ts in grid ==> LatestAt(da, l, ts - offset, a.lookback) == LatestAt(db, l, ts - offset, a.lookback)
    ensures ColumnAt(a, da, l, offset, grid) == ColumnAt(b, db, l, offset, grid)
  {
    var x, y := ColumnAt(a, da, l, offset, grid).at, ColumnAt(b, db, l, offset, grid).at;
    forall ts ensures ts in x <==> ts in y
      ensures ts in x ==> x[ts] == y[ts]
    {
      if ts in grid { assert LatestAt(da, l, ts - offset, a.lookback) == LatestAt(db, l, ts - offset, a.lookback); }
    }
    assert x == y;
  }

  ghost function SliceAt(db: map<Labels, Series>, l: Labels, mint: int, maxt: int): Points {
    if l in db then Slice(Fresh(db[l]), mint, maxt) else Points(map[])
  }

  lemma {:induction false} SliceAgrees(a: map<Labels, Series>, b: map<Labels, Series>, l: Labels, mint: int, maxt: int, lo: int, hi: int)
    requires SameSamples(a, b, lo, hi) && lo <= mint && maxt <= hi
    ensures SliceAt(a, l, mint, maxt) == SliceAt(b, l, mint, maxt)
  {
    var x, y := SliceAt(a, l, mint, maxt).at, SliceAt(b, l, mint, maxt).at;
    forall t ensures t in x <==> t in y
      ensures t in x ==> x[t] == y[t]
    {
      if mint <= t <= maxt { assert SampleAt(a, l, t) == SampleAt(b, l, t); }
    }
    assert x == y;
  }

  ghost function FreshSeries(db: map<Labels, Series>): Matrix { map l | l in db :: Fresh(db[l]) }

  ghost function WindowAt(sem: Sem, f: string, db: map<Labels, Series>, l: Labels, maxt: int, range: int, ts: int): Option<real> {
    var w := SliceAt(db, l, maxt - range, maxt);
    if w.at == map[] then None else sem.range(f, w, maxt, range, ts)
  }

  ghost function WindowColumnAt(sem: Sem, f: string, db: map<Labels, Series>, l: Labels, offset: int, range: int, grid: set<int>): Points {
    if l in db then WindowColumn(sem, f, Fresh(db[l]), offset, range, grid) else Points(map[])
  }

  ghost function PointAt(p: Points, ts: int): Option<real> { if ts in p.at then Some(p.at[ts]) else None }

  lemma PointsEqual(p: Points, r: Points)
    requires forall ts :: PointAt(p, ts) == PointAt(r, ts)
    ensures p == r
  {
    var x, y := p.at, r.at;
    forall ts ensures ts in x <==> ts in y
      ensures ts in x ==> x[ts] == y[ts]
    {
      assert PointAt(p, ts) == PointAt(r, ts);
    }
    assert x == y;
  }

  lemma WindowColumnPoint(sem: Sem, f: string, p: Points, offset: int, range: int, grid: set<int>, ts: int)
    ensures PointAt(WindowColumn(sem, f, p, offset, range, grid), ts)
         == if ts in grid then Window(sem, f, p, ts - offset, range, ts) else None
  {
    hide Window;
  }

  lemma {:induction false} WindowColumnsEqual(a: Sem, b: Sem, f: string, da: map<Labels, Series>, db: map<Labels, Series>, l: Labels, offset: int, range: int, grid: set<int>)
    requires a.range == b.range
    requires forall ts :: ts in grid ==> WindowAt(a, f, da, l, ts - offset, range, ts) == WindowAt(b, f, db, l, ts - offset, range, ts)
    ensures WindowColumnAt(a, f, da, l, offset, range, grid) == WindowColumnAt(b, f, db, l, offset, range, grid)
  {
    var x, y := WindowColumnAt(a, f, da, l, offset, range, grid), WindowColumnAt(b, f, db, l, offset, range, grid);
    forall ts ensures PointAt(x, ts) == PointAt(y, ts) {
      WindowColumnAtPoint(a, f, da, l, offset, range, grid, ts);
      WindowColumnAtPoint(b, f, db, l, offset, range, grid, ts);
      hide WindowColumnAt, WindowAt, PointAt;
      if ts in grid { assert WindowAt(a, f, da, l, ts - offset, range, ts) == WindowAt(b, f, db, l, ts - offset, range, ts); }
    }
    PointsEqual(x, y);
  }

  lemma WindowColumnAtPoint(sem: Sem, f: string, db: map<Labels, Series>, l: Labels, offset: int, range: int, grid: set<int>, ts: int)
    ensures PointAt(WindowColumnAt(sem, f, db, l, offset, range, grid), ts)
         == if ts in grid then WindowAt(sem, f, db, l, ts - offset, range, ts) else None
  {
    if l in db {
      WindowColumnPoint(sem, f, Fresh(db[l]), offset, range, grid, ts);
      hide WindowColumn, Slice, Fresh;
    }
  }

  lemma {:induction false} WindowLocal(a: Sem, b: Sem, id: nat, f: string, offset: int, range: int, grid: set<int>, lo: int, hi: int)
    requires Agree(a, b, lo, hi) && forall t :: t in grid ==> lo <= t - offset - range && t - offset <= hi
    ensures WindowColumns(a, f, FreshSeries(a.storage(id)), offset, range, grid) == WindowColumns(b, f, FreshSeries(b.storage(id)), offset, range, grid)
  {
    hide WindowColumn, SliceAt, SameSamples;
    var da, db := a.storage(id), b.storage(id);
    assert SameSamples(da, db, lo, hi);
    forall l ensures WindowColumnAt(a, f, da, l, offset, range, grid) == WindowColumnAt(b, f, db, l, offset, range, grid) {
      forall ts | ts in grid ensures WindowAt(a, f, da, l, ts - offset, range, ts) == WindowAt(b, f, db, l, ts - offset, range, ts) {
        SliceAgrees(da, db, l, ts - offset - range, ts - offset, lo, hi);
      }
      WindowColumnsEqual(a, b, f, da, db, l, offset, range, grid);
    }
    var ca, cb := WindowColumns(a, f, FreshSeries(da), offset, range, grid), WindowColumns(b, f, FreshSeries(db), offset, range, grid);
    forall l ensures l in ca <==> l in cb
      ensures l in ca ==> ca[l] == cb[l]
    {
      assert WindowColumnAt(a, f, da, l, offset, range, grid) == WindowColumnAt(b, f, db, l, offset, range, grid);
    }
  }

  // ---------- evaluation ----------

  /** No wrapper stands between a range function and its range. */
  predicate Open(e: Expr) {
    match e
    case MatrixSel(_, _, _) => true
    case Subquery(_, _, _, _) => true
    case Paren(x) => Open(x)
    case _ => false
  }

  predicate RangesOpen(e: Expr) {
    match e
    case Subquery(b, _, _, _) => RangesOpen(b)
    case Paren(x) => RangesOpen(x)
    case Unary(_, x) => RangesOpen(x)
    case Aggregate(_, x) => RangesOpen(x)
    case Binary(_, l, r) => RangesOpen(l) && RangesOpen(r)
    case Call(_, args) =>
      (RangeCall(e) ==> Open(args[0])) && forall i :: 0 <= i < |args| ==> RangesOpen(args[i])
    case StepInvariant(x) => RangesOpen(x)
    case _ => true
  }

  /** A tree whose evaluation from `start` to `end` reads only [lo, hi]: it is steady and evaluated at one
      time, or its `@` are all wrapped and it is evaluated inside of [s, t]. */
  ghost predicate Readable(q: Query, e: Expr, lookback: int, start: int, end: int, s: int, t: int, lo: int, hi: int) {
    && Prepared(q, start, e) && RangesOpen(e) && Covers(e, lookback, s, t, lo, hi)
    && ((Steady(e) && start == end) || (Wrapped(e) && s <= start && end <= t))
  }

  /** Evaluation anywhere inside [s, t] reads nothing but [lo, hi]. */
  lemma {:induction false} EvalLocal(a: Sem, b: Sem, q: Query, e: Expr, start: int, end: int, interval: int, s: int, t: int, lo: int, hi: int)
    requires interval > 0 && Agree(a, b, lo, hi) && Readable(q, e, a.lookback, start, end, s, t, lo, hi)
    ensures Eval(a, e, start, end, interval) == Eval(b, e, start, end, interval)
    decreases Height(e), 1
  {
    match e
    case VectorSel(id, p) => SelectLocal(a, b, id, p.offset, Grid(start, end, interval), lo, hi);
    case Subquery(_, _, _, _) => SubqueryLocal(a, b, q, e, start, end, s, t, lo, hi);
    case Paren(x) => EvalLocal(a, b, q, x, start, end, interval, s, t, lo, hi);
    case Unary(_, x) => EvalLocal(a, b, q, x, start, end, interval, s, t, lo, hi);
    case Aggregate(_, x) => EvalLocal(a, b, q, x, start, end, interval, s, t, lo, hi);
    case Binary(_, l, r) =>
      EvalLocal(a, b, q, l, start, end, interval, s, t, lo, hi);
      EvalLocal(a, b, q, r, start, end, interval, s, t, lo, hi);
    case Call(_, _) =>
      if RangeCall(e) { RangeCallLocal(a, b, q, e, start, end, interval, s, t, lo, hi); }
      else { CallLocal(a, b, q, e, start, end, interval, s, t, lo, hi); }
    case StepInvariant(x) => EvalLocal(a, b, q, x, start, start, interval, s, t, lo, hi);
    case _ =>
  }

  lemma {:induction false} CallLocal(a: Sem, b: Sem, q: Query, e: Expr, start: int, end: int, interval: int, s: int, t: int, lo: int, hi: int)
    requires e.Call? && !RangeCall(e)
    requires interval > 0 && Agree(a, b, lo, hi) && Readable(q, e, a.lookback, start, end, s, t, lo, hi)
    ensures Eval(a, e, start, end, interval) == Eval(b, e, start, end, interval)
    decreases Height(e), 0
  {
    forall i | 0 <= i < |e.args| ensures Eval(a, e.args[i], start, end, interval) == Eval(b, e.args[i], start, end, interval) {
      EvalLocal(a, b, q, e.args[i], start, end, interval, s, t, lo, hi);
    }
    var ma := seq(|e.args|, i requires 0 <= i < |e.args| =>
      if IsText(e.args[i]) then Ok(map[]) else Eval(a, e.args[i], start, end, interval));
    var mb := seq(|e.args|, i requires 0 <= i < |e.args| =>
      if IsText(e.args[i]) then Ok(map[]) else Eval(b, e.args[i], start, end, interval));
    assert ma == mb;
  }

  lemma NotBefore(from: int, step: int)
    requires step > 0
    ensures from <= AlignedStart(from, step)
  {
    AlignedStartLeast(from, step);
  }

  lemma {:induction false} SubqueryLocal(a: Sem, b: Sem, q: Query, e: Expr, start: int, end: int, s: int, t: int, lo: int, hi: int)
    requires e.Subquery? && Agree(a, b, lo, hi) && Readable(q, e, a.lookback, start, end, s, t, lo, hi)
    ensures EvalSubquery(a, e, start, end) == EvalSubquery(b, e, start, end)
    decreases Height(e), 0
  {
    hide Eval, AlignedStart;
    var step := StepOf(a, e.step, e.range);
    if step > 0 {
      var p := e.place;
      var from := AlignedStart(start - p.offset - e.range, step);
      NotBefore(start - p.offset - e.range, step);
      PreparedAnyStart(q, start, from, e.body);
      if p.at.Some? {
        EvalLocal(a, b, q, e.body, from, end - p.offset, step, p.at.value - p.orig - e.range, p.at.value - p.orig, lo, hi);
      } else {
        EvalLocal(a, b, q, e.body, from, end - p.offset, step, s - p.orig - e.range, t - p.orig, lo, hi);
      }
      SubqueryIs(a, q, e, start, end, step, from);
      SubqueryIs(b, q, e, start, end, step, from);
    }
  }

  lemma {:induction false} SubqueryIs(sem: Sem, q: Query, e: Expr, start: int, end: int, step: int, from: int)
    requires e.Subquery? && Prepared(q, start, e) && step == StepOf(sem, e.step, e.range) && step > 0
    requires from == AlignedStart(start - e.place.offset - e.range, step)
    ensures EvalSubquery(sem, e, start, end) == Eval(sem, e.body, from, end - e.place.offset, step)
  {
    hide Eval, AlignedStart, SetOffset, Wrapped;
    SetOffsetNoAt(q, start, from, e.body, ROOT);
  }

  lemma {:induction false} CoreReadable(q: Query, e: Expr, lookback: int, start: int, end: int, s: int, t: int, lo: int, hi: int)
    requires Open(e) && Readable(q, e, lookback, start, end, s, t, lo, hi)
    ensures Readable(q, Core(e), lookback, start, end, s, t, lo, hi)
    decreases e
  {
    if e.Paren? { CoreReadable(q, e.e, lookback, start, end, s, t, lo, hi); }
  }

  lemma {:induction false} RangeCallLocal(a: Sem, b: Sem, q: Query, e: Expr, start: int, end: int, interval: int, s: int, t: int, lo: int, hi: int)
    requires interval > 0 && RangeCall(e) && Agree(a, b, lo, hi) && Readable(q, e, a.lookback, start, end, s, t, lo, hi)
    ensures EvalRangeCall(a, e, start, end, interval) == EvalRangeCall(b, e, start, end, interval)
    decreases Height(e), 0
  {
    hide Eval, EvalSubquery, EvalRangeCall, Agree;
    CoreReadable(q, e.args[0], a.lookback, start, end, s, t, lo, hi);
    var c := Core(e.args[0]);
    if c.MatrixSel? {
      MatrixCallLocal(a, b, q, e, start, end, interval, s, t, lo, hi);
    } else {
      SubqueryLocal(a, b, q, c, start, end, s, t, lo, hi);
      SubqueryCallLocal(a, b, e, start, end, interval, lo, hi);
    }
  }

  lemma {:induction false} MatrixCallLocal(a: Sem, b: Sem, q: Query, e: Expr, start: int, end: int, interval: int, s: int, t: int, lo: int, hi: int)
    requires interval > 0 && RangeCall(e) && Core(e.args[0]).MatrixSel? && Agree(a, b, lo, hi)
    requires Readable(q, Core(e.args[0]), a.lookback, start, end, s, t, lo, hi)
    ensures EvalRangeCall(a, e, start, end, interval) == EvalRangeCall(b, e, start, end, interval)
  {
    hide WindowColumns, Agree;
    var c, grid := Core(e.args[0]), Grid(start, end, interval);
    WindowLocal(a, b, c.id, e.f, c.place.offset, c.range, grid, lo, hi);
  }

  lemma {:induction false} SubqueryCallLocal(a: Sem, b: Sem, e: Expr, start: int, end: int, interval: int, lo: int, hi: int)
    requires interval > 0 && RangeCall(e) && Core(e.args[0]).Subquery? && Agree(a, b, lo, hi)
    requires EvalSubquery(a, Core(e.args[0]), start, end) == EvalSubquery(b, Core(e.args[0]), start, end)
    ensures EvalRangeCall(a, e, start, end, interval) == EvalRangeCall(b, e, start, end, interval)
  {
    hide WindowColumns, EvalSubquery, Grid;
    var c := Core(e.args[0]);
    var src := EvalSubquery(a, c, start, end);
    if src.Ok? {
      forall offset ensures WindowColumns(a, e.f, src.value, offset, c.range, Grid(start, end, interval))
                         == WindowColumns(b, e.f, src.value, offset, c.range, Grid(start, end, interval)) {
        SameWindows(a, b, e.f, src.value, offset, c.range, Grid(start, end, interval));
      }
    }
  }

  lemma SameWindow(a: Sem, b: Sem, f: string, p: Points, offset: int, range: int, grid: set<int>)
    requires a.range == b.range
    ensures WindowColumn(a, f, p, offset, range, grid) == WindowColumn(b, f, p, offset, range, grid)
  {
    var x, y := WindowColumn(a, f, p, offset, range, grid), WindowColumn(b, f, p, offset, range, grid);
    forall ts ensures PointAt(x, ts) == PointAt(y, ts) {
      WindowColumnPoint(a, f, p, offset, range, grid, ts);
      WindowColumnPoint(b, f, p, offset, range, grid, ts);
      hide WindowColumn, PointAt, Slice;
    }
    PointsEqual(x, y);
  }

  lemma SameWindows(a: Sem, b: Sem, f: string, src: Matrix, offset: int, range: int, grid: set<int>)
    requires a.range == b.range
    ensures WindowColumns(a, f, src, offset, range, grid) == WindowColumns(b, f, src, offset, range, grid)
  {
    forall l | l in src ensures WindowColumn(a, f, src[l], offset, range, grid) == WindowColumn(b, f, src[l], offset, range, grid) {
      SameWindow(a, b, f, src[l], offset, range, grid);
    }
    hide WindowColumn;
  }

  // ---------- prepared trees ----------

  /** `@` is not used inside of subqueries, nor in the range of a function that is not `@`-safe. */
  predicate AtOutside(e: Expr) {
    match e
    case Subquery(b, _, _, _) => NoAt(b) && AtOutside(b)
    case Paren(x) => AtOutside(x)
    case Unary(_, x) => AtOutside(x)
    case Aggregate(_, x) => AtOutside(x)
    case Binary(_, l, r) => AtOutside(l) && AtOutside(r)
    case Call(f, args) =>
      (RangeCall(e) && f in UNSAFE_FUNCTIONS ==> NoAt(args[0])) && forall i :: 0 <= i < |args| ==> AtOutside(args[i])
    case StepInvariant(x) => AtOutside(x)
    case _ => true
  }

  /** What evaluation needs of a rewritten tree. */
  ghost predicate Formed(q: Query, e: Expr, t: Expr) {
    && Prepared(q, q.start, t) && RangesOpen(t)
    && (NoAt(e) ==> NoAt(t))
  }

  ghost predicate FormedWrapped(q: Query, e: Expr, w: Expr) {
    && Formed(q, e, w) && Wrapped(w)
    && (IsRange(w) ==> IsRange(e))
    && (IsRange(w) && NoAt(e) ==> Open(w))
  }

  ghost predicate FormedBare(q: Query, e: Expr, t: Expr, flag: bool) {
    && Formed(q, e, t)
    && (flag ==> Steady(t)) && (!flag ==> Wrapped(t))
    && (IsRange(t) ==> IsRange(e))
    && (IsRange(t) ==> Open(t))
  }

  lemma {:induction false} WrapFormed(q: Query, e: Expr, t: Expr)
    requires FormedBare(q, e, t, true)
    ensures FormedWrapped(q, e, Wrap(t))
    decreases t
  {
    if t.Paren? { WrapFormed(q, e, t.e); }
  }

  lemma {:induction false} WrappedFormed(q: Query, e: Expr, path: SubqueryPath)
    requires FormedBare(q, e, Rewrite(q, e, path), Flag(q, e))
    ensures FormedWrapped(q, e, RewriteWrapped(q, e, path))
  {
    hide Rewrite, RewriteWrapped, Flag;
    RewriteWrappedCases(q, e, path);
    if Flag(q, e) { WrapFormed(q, e, Rewrite(q, e, path)); }
  }

  lemma {:induction false} RewriteFormed(q: Query, e: Expr, path: SubqueryPath)
    requires Written(e) && AtOutside(e) && (path == ROOT || NoAt(e))
    ensures FormedBare(q, e, Rewrite(q, e, path), Flag(q, e))
    decreases e, 1
  {
    hide FormedBare;
    match e
    case Subquery(body, p, _, _) =>
      var inner := Enter(path, ResolveMark(p, q.start, q.end));
      RewriteFormed(q, body, inner);
      WrappedFormed(q, body, inner);
      SubqueryFormed(q, e, path);
    case Paren(x) => RewriteFormed(q, x, path); PassFormed(q, e, path);
    case Unary(_, x) => RewriteFormed(q, x, path); PassFormed(q, e, path);
    case Aggregate(_, x) => RewriteFormed(q, x, path); PassFormed(q, e, path);
    case Binary(_, l, r) =>
      RewriteFormed(q, l, path);
      RewriteFormed(q, r, path);
      WrappedFormed(q, l, path);
      WrappedFormed(q, r, path);
      BinaryFormed(q, e, path);
    case Call(_, _) => CallFormed(q, e, path);
    case _ => LeafFormed(q, e, path);
  }

  lemma LeafFormed(q: Query, e: Expr, path: SubqueryPath)
    requires (e.Number? || e.Text? || e.VectorSel? || e.MatrixSel?) && (path == ROOT || NoAt(e))
    ensures FormedBare(q, e, Rewrite(q, e, path), Flag(q, e))
  {
  }

  lemma PassFormed(q: Query, e: Expr, path: SubqueryPath)
    requires (e.Paren? || e.Unary? || e.Aggregate?) && FormedBare(q, e.e, Rewrite(q, e.e, path), Flag(q, e.e))
    ensures FormedBare(q, e, Rewrite(q, e, path), Flag(q, e))
  {
  }

  lemma SubqueryFormed(q: Query, e: Expr, path: SubqueryPath)
    requires e.Subquery? && AtOutside(e) && (path == ROOT || NoAt(e))
    requires FormedWrapped(q, e.body, RewriteWrapped(q, e.body, Enter(path, ResolveMark(e.place, q.start, q.end))))
    ensures FormedBare(q, e, Rewrite(q, e, path), Flag(q, e))
  {
  }

  lemma BinaryFormed(q: Query, e: Expr, path: SubqueryPath)
    requires e.Binary?
    requires FormedBare(q, e.l, Rewrite(q, e.l, path), Flag(q, e.l)) && FormedBare(q, e.r, Rewrite(q, e.r, path), Flag(q, e.r))
    requires FormedWrapped(q, e.l, RewriteWrapped(q, e.l, path)) && FormedWrapped(q, e.r, RewriteWrapped(q, e.r, path))
    ensures FormedBare(q, e, Rewrite(q, e, path), Flag(q, e))
  {
  }

  lemma {:induction false} CallFormed(q: Query, e: Expr, path: SubqueryPath)
    requires e.Call? && Written(e) && AtOutside(e) && (path == ROOT || NoAt(e))
    ensures FormedBare(q, e, Rewrite(q, e, path), Flag(q, e))
    decreases e, 0
  {
    hide Rewrite, RewriteWrapped, Flag;
    RewriteCall(q, e.f, e.args, path);
    forall i | 0 <= i < |e.args|
      ensures FormedBare(q, e.args[i], Rewrite(q, e.args[i], path), Flag(q, e.args[i]))
      ensures FormedWrapped(q, e.args[i], RewriteWrapped(q, e.args[i], path))
    {
      RewriteFormed(q, e.args[i], path);
      WrappedFormed(q, e.args[i], path);
    }
    var t := Rewrite(q, e, path);
    if RangeCall(t) { RewriteWrappedCases(q, e.args[0], path); }
  }

  lemma SpansOfSelector(q: Query, lookback: int, at: int, e: Expr, path: SubqueryPath, t: Trail)
    requires e.VectorSel? || e.MatrixSel?
    ensures Spans(q, lookback, SetOffset(at, e, path), t) == Spans(q, lookback, e, t)
  {
  }

  lemma DescendSetOffset(at: int, e: Expr, path: SubqueryPath, t: Trail)
    requires e.Subquery?
    ensures Descend(t, SetOffset(at, e, path)) == Descend(t, e)
  {
  }

  /** The fetched range depends only on what is written, not on the offsets set later. */
  lemma {:induction false} SpansSetOffset(q: Query, lookback: int, at: int, e: Expr, path: SubqueryPath, t: Trail)
    ensures Spans(q, lookback, SetOffset(at, e, path), t) == Spans(q, lookback, e, t)
    decreases e, 1
  {
    hide SpanFor, Descend, Anchored;
    match e
    case VectorSel(_, _) => SpansOfSelector(q, lookback, at, e, path, t);
    case MatrixSel(_, _, _) => SpansOfSelector(q, lookback, at, e, path, t);
    case Subquery(b, p, _, _) =>
      SpansSetOffset(q, lookback, at, b, Enter(path, p), Descend(t, e));
      DescendSetOffset(at, e, path, t);
    case Paren(x) => SpansSetOffset(q, lookback, at, x, path, t);
    case Unary(_, x) => SpansSetOffset(q, lookback, at, x, path, t);
    case Aggregate(_, x) => SpansSetOffset(q, lookback, at, x, path, t);
    case Binary(_, l, r) => SpansSetOffset(q, lookback, at, l, path, t); SpansSetOffset(q, lookback, at, r, path, t);
    case Call(_, args) => SpansSetOffsets(q, lookback, at, args, path, t);
    case StepInvariant(x) => SpansSetOffset(q, lookback, at, x, path, t);
    case _ =>
  }

  lemma {:induction false} SpansSetOffsets(q: Query, lookback: int, at: int, es: seq<Expr>, path: SubqueryPath, t: Trail)
    ensures SpansAll(q, lookback, SetOffsets(at, es, path), t) == SpansAll(q, lookback, es, t)
    decreases es, 0
  {
    if es != [] {
      var n := |es| - 1;
      SpansSetOffsets(q, lookback, at, es[..n], path, t);
      SpansSetOffset(q, lookback, at, es[n], path, t);
      assert SetOffsets(at, es, path)[..n] == SetOffsets(at, es[..n], path);
    }
  }

  /** A prepared query, `@` included, gives the same result on any two storages that agree on the fetched range. */
  lemma {:induction false} FetchedRangeSuffices(a: Sem, b: Sem, q: Query, e: Expr, interval: int, mint: int, maxt: int)
    requires interval > 0 && Written(e) && AtOutside(e)
    requires Encloses(Spans(q, a.lookback, Preprocess(e, q.start, q.end), TOP), mint, maxt) && Agree(a, b, mint, maxt)
    ensures var r := SetOffset(q.start, Preprocess(e, q.start, q.end), ROOT);
            Eval(a, r, q.start, q.end, interval) == Eval(b, r, q.start, q.end, interval)
  {
    hide Eval, SetOffset, Preprocess, Agree, Spans;
    var w := Preprocess(e, q.start, q.end);
    var r := SetOffset(q.start, w, ROOT);
    RewriteFormed(q, e, ROOT);
    WrappedFormed(q, e, ROOT);
    SpansSetOffset(q, a.lookback, q.start, w, ROOT, TOP);
    SpansCover(q, a.lookback, r, TOP, mint, maxt);
    EvalLocal(a, b, q, r, q.start, q.end, interval, q.start, q.end, mint, maxt);
  }
}
