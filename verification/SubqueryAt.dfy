/** `@` inside a subquery. The offset of such a selector is set once for the whole query and again when the
    subquery is evaluated, but not if that evaluation happens to start at the query's own start. */
module SubqueryAt {
  import opened Common
  import opened IntMath
  import opened PromExpr
  import opened PromEval
  import opened StepInvariance
  import opened Rewriting
  import QueryRange
  import opened FetchedEdges

  // ---------- what the offsets mean ----------

  /** The time at which the body of the subqueries on a path is read, for a query evaluated at `t`. */
  function TimeAt(t: int, path: SubqueryPath): int { (if path.at.Some? then path.at.value else t) - path.offset }

  /** Going into a subquery moves that time by its offset, or to its `@` time less its offset. */
  lemma EnterTime(t: int, path: SubqueryPath, p: Place)
    ensures TimeAt(t, Enter(path, p)) == (if p.at.Some? then p.at.value else TimeAt(t, path)) - p.orig
    ensures TimeAt(t, ROOT) == t
  {
  }

  /** Seen from there, an offset makes a selector read at its `@` time, or at that very time, less the offset
      written. */
  lemma OffsetReads(t: int, path: SubqueryPath, p: Place)
    ensures TimeAt(t, path) - Anchored(t, p, path).offset == (if p.at.Some? then p.at.value else TimeAt(t, path)) - p.orig
  {
  }

  // ---------- a selector with @ inside a subquery ----------

  /** A selector at a fixed time, over a range, in a subquery. */
  function Fixed(id: nat, orig: int, at: int): Expr { VectorSel(id, Place(orig, 0, Some(at), NoMark)) }

  function Written(id: nat, orig: int, at: int, sp: Place, range: int, step: int): Expr { Subquery(Fixed(id, orig, at), sp, range, step) }

  /** The subquery's offset, with its own `@` taken in, for a query that starts at `start`. */
  function Shift(sp: Place, start: int): int { sp.orig + if sp.at.Some? then start - sp.at.value else 0 }

  /** Where its evaluation starts. */
  function From(sp: Place, range: int, step: int, start: int): int
    requires step > 0
  {
    AlignedStart(start - Shift(sp, start) - range, step)
  }

  lemma {:induction false} RewrittenIs(q: Query, id: nat, orig: int, at: int, sp: Place, range: int, step: int)
    requires sp.mark == NoMark
    ensures var shift := Shift(sp, q.start);
            Rewrite(q, Written(id, orig, at, sp, range, step), ROOT)
            == Subquery(StepInvariant(VectorSel(id, Place(orig, orig + q.start - at - shift, Some(at), NoMark))), sp.(offset := shift), range, step)
  {
    var e, x := Written(id, orig, at, sp, range, step), Fixed(id, orig, at);
    assert PreprocessHelper(x, q.start, q.end) == (x, true);
    assert PreprocessHelper(e, q.start, q.end).0 == Subquery(StepInvariant(x), sp, range, step);
    SetInside(q.start, id, orig, at, Enter(ROOT, sp));
    hide PreprocessHelper;
  }

  lemma SetInside(t: int, id: nat, orig: int, at: int, path: SubqueryPath)
    ensures SetOffset(t, StepInvariant(Fixed(id, orig, at)), path)
            == StepInvariant(VectorSel(id, Place(orig, orig + t - at - (path.offset + if path.at.Some? then t - path.at.value else 0), Some(at), NoMark)))
  {
  }

  lemma ResetInside(t: int, id: nat, orig: int, offset: int, at: int)
    ensures SetOffset(t, StepInvariant(VectorSel(id, Place(orig, offset, Some(at), NoMark))), ROOT)
            == StepInvariant(VectorSel(id, Place(orig, orig + t - at, Some(at), NoMark)))
  {
  }

  /** The time the selector is read at: its own, unless the evaluation of the subquery starts where the query
      does; then it is off by the subquery's offset. */
  function ReadTime(orig: int, at: int, sp: Place, range: int, step: int, start: int): int
    requires step > 0
  {
    at - orig + if From(sp, range, step, start) == start then Shift(sp, start) else 0
  }

  lemma {:induction false} SelectsAlways(sem: Sem, id: nat, p: Place, start: int, end: int, interval: int)
    requires interval > 0
    ensures var r := Eval(sem, StepInvariant(VectorSel(id, p)), start, end, interval);
            r.Ok? && forall ts :: ts in Grid(start, end, interval) ==> At(r.value, ts) == InstantValues(sem, id, start - p.offset)
  {
    hide Grid, InstantValues, SelectColumns, Replicate, At;
    GridOfOne(start, interval);
    var m := SelectColumns(sem, id, p.offset, {start});
    assert start in {start};
    SelectColumnsAt(sem, id, p.offset, {start}, start);
    OneColumn(sem, id, p.offset, start);
    ReplicateAt(m, start, Grid(start, end, interval));
  }

  lemma OneColumn(sem: Sem, id: nat, offset: int, start: int)
    ensures forall l :: l in SelectColumns(sem, id, offset, {start}) ==> SelectColumns(sem, id, offset, {start})[l].at.Keys == {start}
  {
    var m := SelectColumns(sem, id, offset, {start});
    assert OnlyOn(m, {start});
    SingleSample(m, start);
  }

  lemma {:induction false} ReadsInside(sem: Sem, q: Query, id: nat, orig: int, at: int, sp: Place, range: int, step: int)
    requires sp.mark == NoMark && step > 0
    ensures var r := EvalSubquery(sem, Rewrite(q, Written(id, orig, at, sp, range, step), ROOT), q.start, q.end);
            && r.Ok?
            && forall ts :: ts in Grid(From(sp, range, step, q.start), q.end - Shift(sp, q.start), step) ==>
                 At(r.value, ts) == InstantValues(sem, id, ReadTime(orig, at, sp, range, step, q.start))
  {
    hide Eval, AlignedStart, Grid, At, InstantValues;
    RewrittenIs(q, id, orig, at, sp, range, step);
    var shift, from := Shift(sp, q.start), From(sp, range, step, q.start);
    var t := Rewrite(q, Written(id, orig, at, sp, range, step), ROOT);
    if from != q.start { ResetInside(from, id, orig, orig + q.start - at - shift, at); }
    var body := if from != q.start then SetOffset(from, t.body, ROOT) else t.body;
    assert body == StepInvariant(VectorSel(id, Place(orig, orig + from - at - if from == q.start then shift else 0, Some(at), NoMark)));
    SelectsAlways(sem, id, body.e.place, from, q.end - shift, step);
  }

  /** So it reads at the right time, whatever is stored, if and only if the evaluation of the subquery starts
      elsewhere or the subquery has no offset. */
  lemma {:induction false} ReadsRightIff(sem: Sem, q: Query, id: nat, orig: int, at: int, sp: Place, range: int, step: int)
    requires sp.mark == NoMark && step > 0 && From(sp, range, step, q.start) <= q.end - Shift(sp, q.start)
    ensures (forall storage :: ReadsRight(sem.(storage := storage), q, id, orig, at, sp, range, step))
            <==> From(sp, range, step, q.start) != q.start || Shift(sp, q.start) == 0
  {
    hide EvalSubquery, Rewrite, Grid, At, InstantValues, From, Shift, ReadsRight;
    var from, shift := From(sp, range, step, q.start), Shift(sp, q.start);
    if from != q.start || shift == 0 {
      forall storage ensures ReadsRight(sem.(storage := storage), q, id, orig, at, sp, range, step) {
        InsideRight(sem.(storage := storage), q, id, orig, at, sp, range, step);
      }
    } else {
      var l := Labels(map[]);
      var b := With(sem, id, l, if shift > 0 then at - orig - sem.lookback else at - orig, 0.0);
      InsideWrong(sem, q, id, orig, at, sp, range, step);
      WithStorage(sem, id, l, if shift > 0 then at - orig - sem.lookback else at - orig, 0.0);
      assert !ReadsRight(sem.(storage := b.storage), q, id, orig, at, sp, range, step);
    }
  }

  lemma WithStorage(sem: Sem, id: nat, l: Labels, t: int, v: real)
    ensures With(sem, id, l, t, v) == sem.(storage := With(sem, id, l, t, v).storage)
  {
  }

  lemma {:induction false} InsideRight(sem: Sem, q: Query, id: nat, orig: int, at: int, sp: Place, range: int, step: int)
    requires sp.mark == NoMark && step > 0 && (From(sp, range, step, q.start) != q.start || Shift(sp, q.start) == 0)
    ensures ReadsRight(sem, q, id, orig, at, sp, range, step)
  {
    hide EvalSubquery, Rewrite, Grid, At, InstantValues, From, Shift;
    ReadsInside(sem, q, id, orig, at, sp, range, step);
  }

  /** A sample that is in the window of the right time and not in that of the shifted one. */
  lemma {:induction false} InsideWrong(sem: Sem, q: Query, id: nat, orig: int, at: int, sp: Place, range: int, step: int)
    requires sp.mark == NoMark && step > 0 && From(sp, range, step, q.start) <= q.end - Shift(sp, q.start)
    requires From(sp, range, step, q.start) == q.start && Shift(sp, q.start) != 0
    ensures var t := if Shift(sp, q.start) > 0 then at - orig - sem.lookback else at - orig;
            !ReadsRight(With(sem, id, Labels(map[]), t, 0.0), q, id, orig, at, sp, range, step)
  {
    hide EvalSubquery, Rewrite, Grid, At, InstantValues, From, Shift, With;
    var from, shift := From(sp, range, step, q.start), Shift(sp, q.start);
    var t, l := if shift > 0 then at - orig - sem.lookback else at - orig, Labels(map[]);
    var b := With(sem, id, l, t, 0.0);
    ReadsInside(b, q, id, orig, at, sp, range, step);
    FirstOnGrid(from, q.end - shift, step);
    InstantRead(sem, id, l, t, 0.0, at - orig);
    InstantMissed(sem, id, l, t, 0.0, at - orig + shift);
    RewrittenIs(q, id, orig, at, sp, range, step);
    var e := EvalSubquery(b, Rewrite(q, Written(id, orig, at, sp, range, step), ROOT), q.start, q.end);
    assert At(e.value, from) == InstantValues(b, id, at - orig + shift);
    assert At(e.value, from) != InstantValues(b, id, at - orig);
  }

  lemma FirstOnGrid(start: int, end: int, interval: int)
    requires interval > 0 && start <= end
    ensures start in Grid(start, end, interval)
  {
    assert OnGrid(start, start, end, interval);
  }

  lemma {:induction false} InstantMissed(sem: Sem, id: nat, l: Labels, t: int, v: real, ref: int)
    requires t > ref || t < ref - sem.lookback
    ensures l !in InstantValues(With(sem, id, l, t, v), id, ref)
  {
    hide Latest;
    QueryRange.LatestNone(map[t := Some(v)], ref, sem.lookback);
  }

  ghost predicate ReadsRight(sem: Sem, q: Query, id: nat, orig: int, at: int, sp: Place, range: int, step: int)
    requires step > 0
  {
    var r := EvalSubquery(sem, Rewrite(q, Written(id, orig, at, sp, range, step), ROOT), q.start, q.end);
    && r.Ok?
    && forall ts :: ts in Grid(From(sp, range, step, q.start), q.end - Shift(sp, q.start), step) ==> At(r.value, ts) == InstantValues(sem, id, at - orig)
  }

  /** Five seconds back, in a window of ten seconds every minute, over a query that starts on the minute. */
  lemma {:induction false} WrongTimeExists(sem: Sem, id: nat, at: int)
    ensures var sp := Place(5000, 0, None, NoMark);
            !forall storage :: ReadsRight(sem.(storage := storage), Query(0, 3600000), id, 0, at, sp, 10000, 60000)
  {
    var sp := Place(5000, 0, None, NoMark);
    assert Shift(sp, 0) == 5000;
    assert From(sp, 10000, 60000, 0) == 0;
    ReadsRightIff(sem, Query(0, 3600000), id, 0, at, sp, 10000, 60000);
    hide *;
  }
}
