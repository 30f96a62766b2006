/** Instant selectors over a range: a forward-only iterator that remembers one previous sample gives at
    every step what a fresh search of the whole series would give. */
module InstantSelector {
  import opened Common
  import opened IntMath
  import opened SampleRing
  import PromEval

  // ---------- the reference ----------

  /** How many samples lie before `t`. */
  function CountBefore(p: seq<Sample>, t: int): (n: nat)
    ensures n <= |p|
  {
    if p == [] then 0 else if p[|p| - 1].t < t then |p| else CountBefore(p[..|p| - 1], t)
  }

  lemma {:induction false} CountSplits(p: seq<Sample>, t: int)
    requires Increasing(p)
    ensures var n := CountBefore(p, t);
            (forall k :: 0 <= k < n ==> p[k].t < t) && (forall k :: n <= k < |p| ==> p[k].t >= t)
  {
    if p != [] && p[|p| - 1].t >= t { CountSplits(p[..|p| - 1], t); }
  }

  lemma {:induction false} CountIs(p: seq<Sample>, t: int, n: nat)
    requires Increasing(p) && n <= |p| && (n > 0 ==> p[n - 1].t < t) && (n < |p| ==> p[n].t >= t)
    ensures CountBefore(p, t) == n
  {
    CountSplits(p, t);
  }

  /** The newest sample at or before `ref` and not older than `delta`. */
  function Newest(p: seq<Sample>, ref: int, delta: int): Option<Sample> {
    var n := CountBefore(p, ref + 1);
    if n > 0 && p[n - 1].t >= ref - delta then Some(p[n - 1]) else None
  }

  /** Its value; a stale marker hides the series. */
  function Read(p: seq<Sample>, ref: int, delta: int): Option<real> {
    match Newest(p, ref, delta)
    case Some(s) => if s.stale then None else Some(s.v)
    case None => None
  }

  // ---------- the iterator ----------

  class MemoizedIterator {
    const points: seq<Sample>
    const delta: int
    var curr: int
    var lastTime: Option<int>   // `None` before the first seek
    var ok: bool
    var prev: Option<Sample>

    /** The remembered sample is the one before position `n`, and is there whenever that one is recent. */
    ghost predicate Remembers(n: int, t: int)
      reads this
    {
      && 0 <= n <= |points|
      && (prev.Some? ==> n > 0 && prev.value == points[n - 1])
      && (n > 0 && points[n - 1].t >= t - delta ==> prev == Some(points[n - 1]))
    }

    ghost predicate AtStart()
      reads this
    {
      Increasing(points) && delta >= 0 && curr == 0 && lastTime == None && ok && prev == None
    }

    /** On the way to `t`: every sample before the current one lies before `t`. */
    ghost predicate Moving(t: int)
      reads this
    {
      && Increasing(points) && delta >= 0 && Remembers(curr, t) && (curr > 0 ==> points[curr - 1].t < t)
      && (if ok then curr < |points| && lastTime == Some(points[curr].t)
          else curr == |points| && curr > 0 && lastTime == Some(points[curr - 1].t))
    }

    /** At rest after a seek to `t`. */
    ghost predicate Sought(t: int)
      reads this
    {
      var n := CountBefore(points, t);
      && Increasing(points) && delta >= 0 && Remembers(n, t)
      && (if ok then curr == n < |points| && lastTime == Some(points[n].t)
          else
            && n == |points|
            && ((curr == n && n > 0 && lastTime == Some(points[n - 1].t))
                || (curr == n - 1 && prev == None && (lastTime.Some? ==> lastTime.value < t - delta))))
    }

    constructor (points: seq<Sample>, delta: int)
      requires Increasing(points) && delta >= 0
      ensures AtStart() && this.points == points && this.delta == delta
    {
      this.points, this.delta := points, delta;
      curr, lastTime, ok, prev := 0, None, true, None;
    }

    method Next(ghost t: int) returns (more: bool)
      requires Moving(t) && (ok ==> points[curr].t < t)
      modifies this
      ensures Moving(t) && more == ok && (old(ok) ==> curr == old(curr) + 1) && (!old(ok) ==> curr == old(curr))
    {
      if !ok { return false; }
      prev := Some(points[curr]);
      curr := curr + 1;
      ok := curr < |points|;
      if ok { lastTime := Some(points[curr].t); }
      more := ok;
    }

    lemma Rests(t: int)
      requires Moving(t) && (ok ==> points[curr].t >= t)
      ensures Sought(t)
    {
      CountIs(points, t, curr);
    }

    /** Drops the remembered sample and skips if the delta does not reach back to the current one. */
    method Skip(t: int, ghost before: Option<int>) returns (found: bool)
      requires if before.None? then AtStart() else before.value < t && Sought(before.value)
      modifies this
      ensures if found then Moving(t) else !ok && Sought(t)
    {
      if before.Some? { CountSplits(points, before.value); }
      var t0 := t - delta;
      if lastTime.None? || t0 > lastTime.value {
        prev := None;
        ok, curr := SeekFrom(points, curr, t0);
        if !ok {
          CountIs(points, t, |points|);
          return false;
        }
        lastTime := Some(points[curr].t);
      }
      found := true;
    }

    /** Moves to the first sample at or after `t`. */
    method Seek(t: int, ghost before: Option<int>) returns (found: bool)
      requires if before.None? then AtStart() else before.value < t && Sought(before.value)
      modifies this
      ensures Sought(t) && found == ok
    {
      var reached := Skip(t, before);
      if !reached { return false; }
      if lastTime.value >= t {
        Rests(t);
        return true;
      }
      var more := Next(t);
      while more
        invariant Moving(t) && more == ok
        decreases |points| - curr, if more then 1 else 0
      {
        if lastTime.value >= t {
          Rests(t);
          return true;
        }
        more := Next(t);
      }
      Rests(t);
      return false;
    }
  }

  // ---------- one step ----------

  /** The value of the series at one step. `before` is the previous step's reference time. */
  method VectorSelectorSingle(it: MemoizedIterator, offset: int, ts: int, ghost before: Option<int>) returns (r: Option<real>)
    requires if before.None? then it.AtStart() else before.value < ts - offset && it.Sought(before.value)
    modifies it
    ensures it.Sought(ts - offset) && r == Read(it.points, ts - offset, it.delta)
  {
    var ref := ts - offset;
    var ok := it.Seek(ref, before);
    NewestIs(it.points, ref, it.delta);
    CountSplits(it.points, ref);
    var s := Sample(0, 0.0, false);
    if ok { s := it.points[it.curr]; }
    if !ok || s.t > ref {
      if it.prev.None? || it.prev.value.t < ref - it.delta {
        assert Newest(it.points, ref, it.delta) == None;
        return None;
      }
      s := it.prev.value;
    }
    assert Newest(it.points, ref, it.delta) == Some(s);
    if s.stale { return None; }
    r := Some(s.v);
  }

  /** The newest sample is the first one not before `ref` if it lies exactly there, else the one before. */
  lemma {:induction false} NewestIs(p: seq<Sample>, ref: int, delta: int)
    requires Increasing(p) && delta >= 0
    ensures var n := CountBefore(p, ref);
            Newest(p, ref, delta)
            == if n < |p| && p[n].t == ref then Some(p[n])
               else if n > 0 && p[n - 1].t >= ref - delta then Some(p[n - 1])
               else None
  {
    CountSplits(p, ref);
    var n := CountBefore(p, ref);
    if n < |p| && p[n].t == ref { CountIs(p, ref + 1, n + 1); } else { CountIs(p, ref + 1, n); }
  }

  // ---------- all steps ----------

  function StepTime(start: int, interval: int, k: int): int { start + k * interval }

  /** What a search per step gives in the first `steps` steps. */
  function Column(p: seq<Sample>, delta: int, offset: int, start: int, interval: int, steps: nat): seq<Point> {
    if steps == 0 then []
    else
      var ts := StepTime(start, interval, steps - 1);
      Column(p, delta, offset, start, interval, steps - 1)
      + match Read(p, ts - offset, delta) case Some(v) => [Point(ts, v)] case None => []
  }

  /** The number of steps from `start` to `end`. */
  function StepCount(start: int, end: int, interval: int): nat
    requires interval > 0
  {
    if end < start then 0 else (end - start) / interval + 1
  }

  lemma {:induction false} StepCountIs(start: int, end: int, interval: int, k: nat)
    requires interval > 0 && (k > 0 ==> StepTime(start, interval, k - 1) <= end)
    ensures k <= StepCount(start, end, interval)
    ensures StepTime(start, interval, k) > end ==> k == StepCount(start, end, interval)
  {
    if k > 0 {
      MulMonotone(interval, 0, k - 1);
      var d := end - start;
      assert interval * (k - 1) <= d;
      if d / interval < k - 1 { MulMonotone(interval, d / interval + 1, k - 1); }
      if StepTime(start, interval, k) > end { DivModUnique(d, interval, k - 1, d - interval * (k - 1)); }
    }
  }

  lemma {:induction false} ColumnGrows(p: seq<Sample>, delta: int, offset: int, start: int, interval: int, k: nat, n: nat)
    requires k <= n
    ensures |Column(p, delta, offset, start, interval, k)| <= |Column(p, delta, offset, start, interval, n)|
    decreases n
  {
    if k < n { ColumnGrows(p, delta, offset, start, interval, k, n - 1); }
  }

  /** Evaluates a selector on one series for all steps. `held` samples are in memory; more than `max` are
      an error. */
  method EvalSeries(p: seq<Sample>, delta: int, offset: int, start: int, end: int, interval: int, held: int, max: int)
    returns (ok: bool, out: seq<Point>, held': int)
    requires Increasing(p) && delta >= 0 && interval > 0
    ensures var all := Column(p, delta, offset, start, interval, StepCount(start, end, interval));
            && ok == (all == [] || held + |all| <= max)
            && (ok ==> out == all && held' == held + |out|)
  {
    hide StepTime, Read, Increasing, StepCount;
    FirstTime(start, interval);
    var it := new MemoizedIterator(p, delta);
    out, held' := [], held;
    ghost var steps: nat := 0;
    var ts := start;
    ghost var before: Option<int> := None;
    while ts <= end
      invariant ts == StepTime(start, interval, steps) && it.points == p && it.delta == delta && fresh(it)
      invariant steps > 0 ==> StepTime(start, interval, steps - 1) <= end
      invariant out == Column(p, delta, offset, start, interval, steps) && held' == held + |out| && (out != [] ==> held' <= max)
      invariant if before.None? then it.AtStart() else before.value < ts - offset && it.Sought(before.value)
      decreases end - ts
    {
      var r := VectorSelectorSingle(it, offset, ts, before);
      before := Some(ts - offset);
      steps := steps + 1;
      NextTime(start, steps, interval);
      if r.Some? {
        if held' >= max {
          StepCountIs(start, end, interval, steps);
          ColumnGrows(p, delta, offset, start, interval, steps, StepCount(start, end, interval));
          return false, out, held';
        }
        out := out + [Point(ts, r.value)];
        held' := held' + 1;
      }
      ts := ts + interval;
    }
    StepCountIs(start, end, interval, steps);
    ok := true;
  }

  lemma FirstTime(start: int, interval: int)
    ensures StepTime(start, interval, 0) == start
  {
  }

  lemma NextTime(start: int, steps: nat, interval: int)
    requires steps > 0
    ensures StepTime(start, interval, steps) == StepTime(start, interval, steps - 1) + interval
  {
  }

  // ---------- agreement with the evaluator's reading of storage ----------

  /** A series of samples as the evaluator's semantics sees it. */
  ghost function SeriesOf(p: seq<Sample>): PromEval.Series
    requires Increasing(p)
  {
    map i | 0 <= i < |p| :: p[i].t := if p[i].stale then None else Some(p[i].v)
  }

  lemma {:induction false} NewestBack(p: seq<Sample>, ref: int, delta: nat)
    requires Increasing(p) && delta > 0 && forall i :: 0 <= i < |p| ==> p[i].t != ref
    ensures Newest(p, ref, delta) == Newest(p, ref - 1, delta - 1)
  {
    CountSplits(p, ref);
    CountIs(p, ref + 1, CountBefore(p, ref));
  }

  lemma SeriesAt(p: seq<Sample>, ref: int)
    requires Increasing(p)
    ensures ref in SeriesOf(p) <==> exists i :: 0 <= i < |p| && p[i].t == ref
    ensures forall i :: 0 <= i < |p| && p[i].t == ref ==>
              ref in SeriesOf(p) && SeriesOf(p)[ref] == if p[i].stale then None else Some(p[i].v)
  {
  }

  /** The value read by the iterator is the value the semantics gives the selector. */
  lemma {:induction false} ReadsLatest(p: seq<Sample>, ref: int, delta: nat)
    requires Increasing(p)
    ensures PromEval.Latest(SeriesOf(p), ref, delta) == Read(p, ref, delta)
    decreases delta
  {
    hide SeriesOf, CountBefore;
    SeriesAt(p, ref);
    if ref in SeriesOf(p) {
      var i :| 0 <= i < |p| && p[i].t == ref;
      CountIs(p, ref + 1, i + 1);
    } else if delta > 0 {
      NewestBack(p, ref, delta);
      ReadsLatest(p, ref - 1, delta - 1);
      hide Newest;
    } else {
      CountSplits(p, ref + 1);
    }
  }
}
