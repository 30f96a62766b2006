/** The fetched range is not wider than needed: a sample at either of its edges is read. */
module FetchedEdges {
  import opened Common
  import opened PromExpr
  import opened PromEval
  import opened QueryRange
  import opened RangeFunctions

  /** The spans of a selector in numbers, plain or in a subquery. `back` is how far before its reading time
      the selector looks: the lookback, or the range of a matrix selector that has one. */
  lemma {:induction false} SelectorSpan(q: Query, lookback: nat, id: nat, p: Place, range: int)
    ensures var from := if p.at.Some? then p.at.value else q.start;
            var to := if p.at.Some? then p.at.value else q.end;
            && Spans(q, lookback, VectorSel(id, p), TOP) == [Span(from - p.orig - lookback, to - p.orig)]
            && (range > 0 ==> Spans(q, lookback, MatrixSel(id, p, range), TOP) == [Span(from - p.orig - range, to - p.orig)])
            && Spans(q, lookback, MatrixSel(id, p, 0), TOP) == [Span(from - p.orig - lookback, to - p.orig)]
  {
  }

  lemma {:induction false} SubquerySpan(q: Query, lookback: nat, id: nat, p: Place, s: Place, range: int, step: int)
    ensures var from := if s.at.Some? then s.at.value - s.orig - range else q.start - s.orig - range;
            var to := if s.at.Some? then s.at.value - s.orig else q.end - s.orig;
            Spans(q, lookback, Subquery(VectorSel(id, p), s, range, step), TOP)
            == if p.at.Some? then [Span(p.at.value - p.orig - lookback, p.at.value - p.orig)]
               else [Span(from - p.orig - lookback, to - p.orig)]
  {
  }

  /** Nested subqueries add up. */
  lemma {:induction false} NestedSpan(q: Query, lookback: nat, id: nat, p: Place, s: Place, range: int, step: int, s': Place, range': int, step': int)
    requires p.at.None? && s.at.None? && s'.at.None?
    ensures Spans(q, lookback, Subquery(Subquery(VectorSel(id, p), s, range, step), s', range', step'), TOP)
            == [Span(q.start - s'.orig - range' - s.orig - range - p.orig - lookback, q.end - s'.orig - s.orig - p.orig)]
  {
    var inner := Subquery(VectorSel(id, p), s, range, step);
    var outer := Subquery(inner, s', range', step');
    assert Spans(q, lookback, outer, TOP) == Spans(q, lookback, inner, Descend(TOP, outer));
    assert Spans(q, lookback, inner, Descend(TOP, outer)) == Spans(q, lookback, VectorSel(id, p), Descend(Descend(TOP, outer), inner));
  }

  // ---------- the edges are read ----------

  /** A storage in which one selector finds a single sample. */
  ghost function With(sem: Sem, id: nat, l: Labels, t: int, v: real): Sem {
    sem.(storage := (i: nat) => if i == id then map[l := map[t := Some(v)]] else sem.storage(i))
  }

  ghost function Without(sem: Sem, id: nat): Sem {
    sem.(storage := (i: nat) => if i == id then map[] else sem.storage(i))
  }

  lemma {:induction false} OldestIsRead(t: int, v: real, ref: int, lookback: nat)
    requires t <= ref <= t + lookback
    ensures Latest(map[t := Some(v)], ref, lookback) == Some(v)
    decreases lookback
  {
    if ref != t { OldestIsRead(t, v, ref - 1, lookback - 1); }
  }

  lemma {:induction false} InstantRead(sem: Sem, id: nat, l: Labels, t: int, v: real, ref: int)
    requires t <= ref <= t + sem.lookback
    ensures l in InstantValues(With(sem, id, l, t, v), id, ref) && l !in InstantValues(Without(sem, id), id, ref)
  {
    hide Latest;
    OldestIsRead(t, v, ref, sem.lookback);
  }

  /** For an instant selector: a sample at the start of the fetched range changes the first step, and one at
      its end changes the value at the end of the query. */
  lemma {:induction false} EdgesAreRead(sem: Sem, q: Query, id: nat, p: Place, l: Labels, v: real, mint: int, maxt: int)
    requires ResolveMark(p, q.start, q.end) == p && Encloses(Spans(q, sem.lookback, VectorSel(id, p), TOP), mint, maxt)
    ensures Denote(With(sem, id, l, mint, v), q, VectorSel(id, p), q.start) != Denote(Without(sem, id), q, VectorSel(id, p), q.start)
    ensures Denote(With(sem, id, l, maxt, v), q, VectorSel(id, p), q.end) != Denote(Without(sem, id), q, VectorSel(id, p), q.end)
  {
    hide InstantValues, With, Without;
    SelectorSpan(q, sem.lookback, id, p, 0);
    var first, last := Anchor(q, p, q.start) - p.orig, Anchor(q, p, q.end) - p.orig;
    SameLookback(sem, id, l, mint, v);
    SameLookback(sem, id, l, maxt, v);
    InstantRead(sem, id, l, mint, v, first);
    InstantRead(sem, id, l, maxt, v, last);
  }

  lemma {:induction false} SampleIsSeen(sem: Sem, f: string, id: nat, l: Labels, t: int, v: real, range: int, maxt: int, ts: int)
    requires maxt - range <= t <= maxt && forall w :: sem.range(f, w, maxt, range, ts).Some?
    ensures exists x :: Yields(With(sem, id, l, t, v), id, f, range, maxt, ts, l, x)
    ensures forall a, x :: Yields(With(sem, id, l, t, v), id, f, range, maxt, ts, a, x) ==> a == l
    ensures forall a, x :: !Yields(Without(sem, id), id, f, range, maxt, ts, a, x)
  {
    var w := Points(map[t := v]);
    OneSample(t, v, range, maxt);
    hide Sees;
    assert t in w.at;
    var x := sem.range(f, w, maxt, range, ts).value;
    assert Yields(With(sem, id, l, t, v), id, f, range, maxt, ts, l, x);
  }

  lemma OneSample(t: int, v: real, range: int, maxt: int)
    requires maxt - range <= t <= maxt
    ensures Sees(Points(map[t := v]), map[t := Some(v)], range, maxt)
  {
  }

  /** The same for a range function that has a value for every window. */
  lemma {:induction false} MatrixEdgesAreRead(sem: Sem, q: Query, f: string, id: nat, p: Place, range: int, l: Labels, v: real, mint: int, maxt: int)
    requires ResolveMark(p, q.start, q.end) == p && range > 0 && Encloses(Spans(q, sem.lookback, MatrixSel(id, p, range), TOP), mint, maxt)
    requires forall w, t, ts :: sem.range(f, w, t, range, ts).Some?
    ensures var e := Call(f, [MatrixSel(id, p, range)]);
            Denote(With(sem, id, l, mint, v), q, e, q.start) != Denote(Without(sem, id), q, e, q.start)
    ensures var e := Call(f, [MatrixSel(id, p, range)]);
            Denote(With(sem, id, l, maxt, v), q, e, q.end) != Denote(Without(sem, id), q, e, q.end)
  {
    SelectorSpan(q, sem.lookback, id, p, range);
    MatrixRead(sem, q, f, id, p, range, l, v, mint, q.start);
    MatrixRead(sem, q, f, id, p, range, l, v, maxt, q.end);
  }

  lemma {:induction false} MatrixRead(sem: Sem, q: Query, f: string, id: nat, p: Place, range: int, l: Labels, v: real, t: int, ts: int)
    requires var end := Anchor(q, p, ts) - p.orig; end - range <= t <= end
    requires forall w, u, ts :: sem.range(f, w, u, range, ts).Some?
    ensures var e := Call(f, [MatrixSel(id, p, range)]); Denote(With(sem, id, l, t, v), q, e, ts) != Denote(Without(sem, id), q, e, ts)
  {
    hide Denote, Yields, With, Without, ResultLabels;
    var end := Anchor(q, p, ts) - p.orig;
    SampleIsSeen(sem, f, id, l, t, v, range, end, ts);
    RangeFunctionMeans(With(sem, id, l, t, v), q, f, id, p, range, ts, end);
    RangeFunctionMeans(Without(sem, id), q, f, id, p, range, ts, end);
    var x :| Yields(With(sem, id, l, t, v), id, f, range, end, ts, l, x);
    var e := Call(f, [MatrixSel(id, p, range)]);
    var a := Denote(With(sem, id, l, t, v), q, e, ts);
    assert a.Ok?;
    assert Maps(a.value, ResultLabels(f, l), x);
  }

  lemma SameLookback(sem: Sem, id: nat, l: Labels, t: int, v: real)
    ensures With(sem, id, l, t, v).lookback == sem.lookback && Without(sem, id).lookback == sem.lookback
  {
  }
}
