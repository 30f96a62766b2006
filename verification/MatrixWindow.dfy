/** Range selectors over a whole query: one buffered pass per series, reusing the points of the
    previous step, against selecting every window afresh. */
module MatrixWindow {
  import opened Common
  import opened SampleRing

  // ---------- selecting a window afresh ----------

  predicate InWindow(s: Sample, mint: int, maxt: int) {
    !s.stale && mint <= s.t <= maxt
  }

  /** The non-stale samples in a closed time window, in order. */
  function Select(p: seq<Sample>, mint: int, maxt: int): seq<Sample> {
    if p == [] then []
    else
      var n := |p| - 1;
      if InWindow(p[n], mint, maxt) then Select(p[..n], mint, maxt) + [p[n]] else Select(p[..n], mint, maxt)
  }

  lemma {:induction false} SelectConcat(a: seq<Sample>, b: seq<Sample>, mint: int, maxt: int)
    ensures Select(a + b, mint, maxt) == Select(a, mint, maxt) + Select(b, mint, maxt)
  {
    if b == [] {
      assert a + b == a;
    } else {
      var n := |b| - 1;
      SelectConcat(a, b[..n], mint, maxt);
      assert (a + b)[..|a| + n] == a + b[..n];
    }
  }

  /** Nothing to select. */
  lemma {:induction false} SelectNone(p: seq<Sample>, mint: int, maxt: int)
    requires forall k :: 0 <= k < |p| ==> !InWindow(p[k], mint, maxt)
    ensures Select(p, mint, maxt) == []
  {
    if p != [] { SelectNone(p[..|p| - 1], mint, maxt); }
  }

  lemma {:induction false} SelectSame(p: seq<Sample>, mint: int, maxt: int, mint': int, maxt': int)
    requires forall k :: 0 <= k < |p| ==> (InWindow(p[k], mint, maxt) <==> InWindow(p[k], mint', maxt'))
    ensures Select(p, mint, maxt) == Select(p, mint', maxt')
  {
    if p != [] { SelectSame(p[..|p| - 1], mint, maxt, mint', maxt'); }
  }

  /** Membership, and freedom from duplicates: the selection is again in time order. */
  lemma {:induction false} SelectIs(p: seq<Sample>, mint: int, maxt: int)
    requires Increasing(p)
    ensures Increasing(Select(p, mint, maxt))
    ensures forall s :: s in Select(p, mint, maxt) <==> s in p && InWindow(s, mint, maxt)
    ensures forall k :: 0 <= k < |Select(p, mint, maxt)| ==> InWindow(Select(p, mint, maxt)[k], mint, maxt)
  {
    if p != [] {
      var n := |p| - 1;
      SelectIs(p[..n], mint, maxt);
      assert p == p[..n] + [p[n]];
      var r := Select(p[..n], mint, maxt);
      forall k | 0 <= k < |r| ensures r[k].t < p[n].t {
        assert r[k] in p[..n];
      }
    }
  }

  lemma {:induction false} SelectStep(p: seq<Sample>, j: int, mint: int, maxt: int)
    requires 0 <= j < |p|
    ensures Select(p[..j + 1], mint, maxt)
            == Select(p[..j], mint, maxt) + (if InWindow(p[j], mint, maxt) then [p[j]] else [])
  {
    assert p[..j + 1][..j] == p[..j];
  }

  lemma {:induction false} SelectPrefix(p: seq<Sample>, j: int, mint: int, maxt: int)
    requires 0 <= j <= |p|
    ensures |Select(p[..j], mint, maxt)| <= |Select(p, mint, maxt)|
    decreases |p| - j
  {
    if j == |p| {
      assert p[..j] == p;
    } else {
      SelectStep(p, j, mint, maxt);
      SelectPrefix(p, j + 1, mint, maxt);
    }
  }

  /** Samples outside the window may be cut off at both ends. */
  lemma {:induction false} SelectMiddle(p: seq<Sample>, lo: int, hi: int, mint: int, maxt: int)
    requires 0 <= lo <= hi <= |p|
    requires forall k :: 0 <= k < lo || hi <= k < |p| ==> !InWindow(p[k], mint, maxt)
    ensures Select(p[lo..hi], mint, maxt) == Select(p, mint, maxt)
  {
    hide Select;
    SelectNone(p[..lo], mint, maxt);
    SelectNone(p[hi..], mint, maxt);
    SelectConcat(p[lo..hi], p[hi..], mint, maxt);
    assert p[lo..hi] + p[hi..] == p[lo..];
    SelectConcat(p[..lo], p[lo..], mint, maxt);
    assert p[..lo] + p[lo..] == p;
  }

  /** A window splits at any time inside it. */
  lemma {:induction false} SelectSplit(p: seq<Sample>, mint: int, mid: int, maxt: int)
    requires Increasing(p) && mint - 1 <= mid <= maxt
    ensures Select(p, mint, maxt) == Select(p, mint, mid) + Select(p, mid + 1, maxt)
  {
    var n := CountUpTo(p, mid);
    var a, b := p[..n], p[n..];
    assert p == a + b;
    SelectConcat(a, b, mint, maxt);
    SelectConcat(a, b, mint, mid);
    SelectConcat(a, b, mid + 1, maxt);
    SelectSame(a, mint, maxt, mint, mid);
    SelectNone(a, mid + 1, maxt);
    SelectSame(b, mint, maxt, mid + 1, maxt);
    SelectNone(b, mint, mid);
  }

  /** Number of samples at or before `t`. */
  lemma {:induction false} CountUpTo(p: seq<Sample>, t: int) returns (n: nat)
    requires Increasing(p)
    ensures n <= |p|
    ensures forall k :: 0 <= k < n ==> p[k].t <= t
    ensures forall k :: n <= k < |p| ==> p[k].t > t
  {
    n := 0;
    while n < |p| && p[n].t <= t
      invariant n <= |p| && forall k :: 0 <= k < n ==> p[k].t <= t
    {
      n := n + 1;
    }
  }

  // ---------- the buffered iterator ----------

  /** Trimming a stretch of a series leaves a shorter stretch with the same end. */
  lemma {:induction false} TrimmedStretch(p: seq<Sample>, lo: int, hi: int, tmin: int) returns (lo': int)
    requires 0 <= lo <= hi <= |p|
    ensures lo <= lo' <= hi && Trim(p[lo..hi], tmin) == p[lo'..hi]
    ensures forall k :: lo <= k < lo' ==> p[k].t < tmin
  {
    var n := TrimDropsPrefix(p[lo..hi], tmin);
    lo' := lo + n;
    assert p[lo..hi][n..] == p[lo'..hi];
    forall k | lo <= k < lo' ensures p[k].t < tmin {
      assert p[k] == p[lo..hi][k - lo];
    }
  }

  /** The first `n` samples all lie before `t`. */
  ghost predicate AllBefore(p: seq<Sample>, n: int, t: int) {
    forall k :: 0 <= k < n && k < |p| ==> p[k].t < t
  }

  /** A series iterator with a look-back buffer. */
  class BufferedIterator {
    const points: seq<Sample>
    var curr: int
    var ring: Ring
    var lastTime: Option<int>   // `None` before the first seek
    var ok: bool

    ghost predicate Valid()
      reads this, ring, ring.buf
    {
      && ring.Valid() && Increasing(points)
      && (ok ==> points == [] || 0 <= curr < |points|)
    }

    /** Everything reachable that a step may change. */
    ghost function Footprint(): set<object>
      reads this, ring
    {
      {this, ring, ring.buf}
    }

    /** The iterator rests at `t`: the buffer is a stretch `points[lo..hi]` that ends before `t`
        and misses no sample less than `delta` before it, and the current element, if any, is the
        first at or after `t`. */
    ghost predicate Sought(t: int, lo: int, hi: int)
      reads this, ring, ring.buf
    {
      && Valid() && 0 <= lo <= hi <= |points|
      && ring.contents == points[lo..hi]
      && AllBefore(points, hi, t)
      && AllBefore(points, lo, t - ring.delta)
      && (if ok then
            hi < |points| && curr == hi && points[hi].t >= t && lastTime == Some(points[hi].t)
          else
            || (hi == |points| && curr == hi && hi > 0 && lastTime == Some(points[hi - 1].t))
            || (lo == hi == |points| && curr == |points| - 1 && (lastTime.Some? ==> lastTime.value < t - ring.delta)))
    }

    constructor (points: seq<Sample>, delta: int)
      requires Increasing(points) && delta >= 0
      ensures Valid() && fresh(Footprint()) && this.points == points
      ensures ring.delta == delta && ring.contents == [] && lastTime == None && ok && curr == 0
    {
      this.points := points;
      ring := new Ring(delta, 16);
      lastTime := None;
      ok := true;
      curr := 0;
    }

    /** Not yet moved past its first sample. */
    ghost predicate AtStart()
      reads this, ring, ring.buf
    {
      Valid() && ring.contents == [] && lastTime == None && ok && curr == 0
    }

    /** Between two seeks: on the way to `t`, with every sample before the current one too old or
        buffered. */
    ghost predicate Moving(t: int, lo: int, hi: int)
      reads this, ring, ring.buf
    {
      && Valid() && 0 <= lo <= hi <= |points|
      && ring.contents == points[lo..hi]
      && AllBefore(points, hi, t)
      && AllBefore(points, lo, t - ring.delta)
      && (if ok then hi < |points| && curr == hi && lastTime == Some(points[hi].t)
          else hi == |points| && curr == hi && hi > 0 && lastTime == Some(points[hi - 1].t))
    }

    method Next(ghost t: int, ghost lo: int, ghost hi: int) returns (more: bool, ghost lo': int, ghost hi': int)
      requires Moving(t, lo, hi) && (ok ==> points[hi].t < t)
      modifies Footprint()
      ensures Moving(t, lo', hi') && more == ok && ring == old(ring)
      ensures ring.delta == old(ring.delta) && (ring.buf == old(ring.buf) || fresh(ring.buf))
      ensures ok ==> hi' == hi + 1
    {
      hide Trim, Increasing, Ring.Valid;
      if !ok { return false, lo, hi; }
      hi' := hi + 1;
      lo' := TrimmedStretch(points, lo, hi', points[hi].t - ring.delta);
      assert points[lo..hi] + [points[hi]] == points[lo..hi + 1];
      ring.Add(points[curr]);
      curr := curr + 1;
      ok := curr < |points|;
      if ok { lastTime := Some(points[curr].t); }
      more := ok;
    }

    /** Drops the buffer and skips samples if the delta does not reach back to the current one. */
    method Skip(t: int, ghost prev: Option<int>, ghost lo: int, ghost hi: int)
      returns (found: bool, ghost lo': int, ghost hi': int)
      requires if prev.None? then AtStart() else prev.value < t && Sought(prev.value, lo, hi)
      modifies this, ring
      ensures ring == old(ring) && ring.delta == old(ring.delta) && ring.buf == old(ring.buf)
      ensures if found then
                lastTime.Some? && (if lastTime.value >= t then ok && Sought(t, lo', hi') else Moving(t, lo', hi'))
              else !ok && Sought(t, lo', hi')
    {
      var t0 := t - ring.delta;
      if lastTime.None? || t0 > lastTime.value {
        ring.Reset();
        ok, curr := SeekFrom(points, curr, t0);
        lo', hi' := |points|, |points|;
        if !ok { return false, lo', hi'; }
        lastTime := Some(points[curr].t);
        lo', hi' := curr, curr;
      } else {
        lo', hi' := lo, hi;
      }
      found := true;
    }

    /** Moves to the first sample at or after `t`, buffering what it passes. No sample within
        delta of `t` is lost, whether the buffer was kept or dropped on the way. */
    method Seek(t: int, ghost prev: Option<int>, ghost lo: int, ghost hi: int)
      returns (found: bool, ghost lo': int, ghost hi': int)
      requires if prev.None? then AtStart() else prev.value < t && Sought(prev.value, lo, hi)
      modifies Footprint()
      ensures Sought(t, lo', hi') && found == ok && ring == old(ring)
      ensures ring.delta == old(ring.delta) && (ring.buf == old(ring.buf) || fresh(ring.buf))
    {
      hide AllBefore, Increasing, Ring.Valid;
      var reached;
      reached, lo', hi' := Skip(t, prev, lo, hi);
      if !reached { return false, lo', hi'; }
      if lastTime.value >= t { return true, lo', hi'; }
      var more;
      more, lo', hi' := Next(t, lo', hi');
      while more
        invariant Moving(t, lo', hi') && more == ok && ring == old(ring)
        invariant ring.delta == old(ring.delta) && (ring.buf == old(ring.buf) || fresh(ring.buf))
        decreases |points| - hi', if more then 1 else 0
      {
        if lastTime.value >= t { return true, lo', hi'; }
        more, lo', hi' := Next(t, lo', hi');
      }
      return false, lo', hi';
    }

    /** Lowering the delta after a seek keeps the promise for the lower delta. */
    method ReduceDelta(d: int, ghost t: int, ghost lo: int, ghost hi: int) returns (ghost lo': int)
      requires Sought(t, lo, hi) && 0 <= d
      modifies ring
      ensures Sought(t, lo', hi) && ring == old(ring) && ring.buf == old(ring.buf)
      ensures ring.delta == if d <= old(ring.delta) then d else old(ring.delta)
    {
      var reduced := ring.ReduceDelta(d);
      lo' := lo;
      if reduced && lo < hi { lo' := TrimmedStretch(points, lo, hi, points[hi - 1].t - d); }
    }
  }

  // ---------- one step of the window ----------

  /** Dropping old points from the previous window leaves what the two windows share. */
  lemma {:induction false} SharedPart(p: seq<Sample>, pmint: int, mint: int, pmaxt: int)
    requires Increasing(p) && pmint <= mint
    ensures var out, kept := Select(p, pmint, pmaxt), Select(p, mint, pmaxt);
            && |kept| <= |out| && out[|out| - |kept|..] == kept
            && (forall k :: 0 <= k < |out| - |kept| ==> out[k].t < mint)
            && (forall k :: 0 <= k < |kept| ==> kept[k].t >= mint)
  {
    SelectIs(p, pmint, pmaxt);
    SelectIs(p, mint, pmaxt);
    if mint - 1 <= pmaxt {
      SelectSplit(p, pmint, mint - 1, pmaxt);
      SelectIs(p, pmint, mint - 1);
      hide Select;
    } else {
      SelectNone(p, mint, pmaxt);
    }
  }

  /** Where the points that are new in this window start. */
  function NewFrom(prev: Option<int>, mint: int): int {
    if prev.Some? && prev.value >= mint then prev.value + 1 else mint
  }

  /** Starting one past the last kept point, as the code does, or past the whole previous window
      selects the same new points. */
  lemma {:induction false} SkippedNothing(p: seq<Sample>, mint: int, pmaxt: int, k: int)
    requires Increasing(p) && 0 <= k < |p| && !p[k].stale && mint <= p[k].t <= pmaxt
    ensures var kept := Select(p, mint, pmaxt); kept != [] && p[k].t <= kept[|kept| - 1].t
  {
    SelectIs(p, mint, pmaxt);
    var kept := Select(p, mint, pmaxt);
    assert p[k] in p;
    assert p[k] in kept;
    var j :| 0 <= j < |kept| && kept[j] == p[k];
  }

  lemma {:induction false} BufferHoldsNew(p: seq<Sample>, lo: int, hi: int, from: int, mint': int, maxt: int)
    requires Increasing(p) && 0 <= lo <= hi <= |p|
    requires forall k :: 0 <= k < lo ==> p[k].t < from
    requires forall k :: hi <= k < |p| ==> p[k].t >= maxt
    requires forall k :: 0 <= k < |p| && !p[k].stale ==> (p[k].t >= mint' <==> p[k].t >= from)
    ensures Select(p[lo..hi], mint', maxt - 1) == Select(p, from, maxt - 1)
  {
    SelectMiddle(p, lo, hi, from, maxt - 1);
    forall k | 0 <= k < hi - lo ensures InWindow(p[lo..hi][k], mint', maxt - 1) <==> InWindow(p[lo..hi][k], from, maxt - 1) {
      assert p[lo..hi][k] == p[lo + k];
    }
    SelectSame(p[lo..hi], mint', maxt - 1, from, maxt - 1);
    hide Select;
  }

  lemma {:induction false} SelectAt(p: seq<Sample>, hi: int, maxt: int)
    requires Increasing(p) && 0 <= hi <= |p|
    requires forall k :: 0 <= k < hi ==> p[k].t < maxt
    requires hi < |p| ==> p[hi].t >= maxt
    ensures Select(p, maxt, maxt) == SoughtPoint(p, hi, maxt)
  {
    if hi < |p| && p[hi].t == maxt && !p[hi].stale {
      assert p == p[..hi] + ([p[hi]] + p[hi + 1..]);
      SelectConcat(p[..hi], [p[hi]] + p[hi + 1..], maxt, maxt);
      SelectConcat([p[hi]], p[hi + 1..], maxt, maxt);
      SelectNone(p[..hi], maxt, maxt);
      SelectNone(p[hi + 1..], maxt, maxt);
      assert [p[hi]][..0] == [];
    } else {
      forall k | 0 <= k < |p| ensures !InWindow(p[k], maxt, maxt) {
      }
      SelectNone(p, maxt, maxt);
    }
  }

  class Evaluator {
    var currentSamples: int
    const maxSamples: int

    constructor (maxSamples: int)
      ensures this.maxSamples == maxSamples && currentSamples == 0
    {
      this.maxSamples := maxSamples;
      currentSamples := 0;
    }

    /** Keeps the points of the previous window that are still in range. */
    method Retain(out: seq<Sample>, mint: int, ghost kept: seq<Sample>) returns (res: seq<Sample>, mint': int)
      requires |kept| <= |out| && out[|out| - |kept|..] == kept
      requires forall k :: 0 <= k < |out| - |kept| ==> out[k].t < mint
      requires forall k :: 0 <= k < |kept| ==> kept[k].t >= mint
      modifies this
      ensures res == kept && currentSamples == old(currentSamples) - |out| + |kept|
      ensures mint' == if kept != [] then kept[|kept| - 1].t + 1 else mint
    {
      if |out| > 0 && out[|out| - 1].t >= mint {
        assert out[|out| - |kept|] == kept[0];
        var drop := 0;
        while out[drop].t < mint
          invariant 0 <= drop <= |out| - |kept|
          decreases |out| - drop
        {
          drop := drop + 1;
        }
        currentSamples := currentSamples - drop;
        res := out[drop..];
        mint' := res[|res| - 1].t + 1;
      } else {
        currentSamples := currentSamples - |out|;
        res, mint' := [], mint;
      }
    }

    /** Appends the buffered points that are new; `ok` is false when the sample limit is hit. */
    method AppendBuffer(ring: Ring, out: seq<Sample>, mint: int, maxt: int) returns (res: seq<Sample>, ok: bool)
      requires ring.Valid()
      requires forall k :: 0 <= k < |ring.contents| ==> ring.contents[k].t < maxt
      modifies this
      ensures var added := Select(ring.contents, mint, maxt - 1);
              && (ok <==> added == [] || old(currentSamples) + |added| <= maxSamples)
              && (ok ==> res == out + added && currentSamples == old(currentSamples) + |added|)
    {
      hide Select;
      res := out;
      var j := 0;
      ghost var added: seq<Sample> := [];
      ghost var c := ring.contents;
      SelectNone([], mint, maxt - 1);
      assert c[..0] == [];
      while j < ring.l
        invariant 0 <= j <= ring.l && ring.Valid() && ring.contents == c
        invariant added == Select(c[..j], mint, maxt - 1) && res == out + added
        invariant currentSamples == old(currentSamples) + |added|
        invariant added == [] || currentSamples <= maxSamples
      {
        var s := ring.At(j);
        SelectStep(c, j, mint, maxt - 1);
        SelectPrefix(c, j + 1, mint, maxt - 1);
        if !s.stale && s.t >= mint {
          if currentSamples >= maxSamples { return res, false; }
          currentSamples := currentSamples + 1;
          res := res + [s];
          added := added + [s];
        }
        j := j + 1;
      }
      assert c[..j] == c;
      ok := true;
    }

    /** The points of one step. Whatever was buffered, retained or skipped, the result is the window
        selected afresh, and the sample counter changes by exactly the change in window length. The
        limit strikes exactly when there is a new point and the window would exceed it. */
    method MatrixIterSlice(it: BufferedIterator, mint: int, maxt: int, out: seq<Sample>,
                           ghost prev: Option<int>, ghost pmint: int, ghost lo: int, ghost hi: int)
      returns (res: seq<Sample>, ok: bool, ghost lo': int, ghost hi': int)
      requires if prev.None? then it.AtStart() && out == []
               else it.Sought(prev.value, lo, hi) && prev.value < maxt && pmint <= mint
                    && out == Select(it.points, pmint, prev.value)
      requires mint <= maxt && maxt - it.ring.delta <= NewFrom(prev, mint)
      modifies this, it.Footprint()
      ensures it.Sought(maxt, lo', hi') && it.ring == old(it.ring) && it.ring.delta == old(it.ring.delta)
      ensures it.ring.buf == old(it.ring.buf) || fresh(it.ring.buf)
      ensures var w := Select(it.points, mint, maxt);
              && (ok <==> Select(it.points, NewFrom(prev, mint), maxt) == []
                          || old(currentSamples) - |out| + |w| <= maxSamples)
              && (ok ==> res == w && currentSamples == old(currentSamples) - |out| + |w|)
    {
      hide Select, Increasing;
      ghost var kept := KeptPoints(it.points, prev, pmint, mint, out);
      var mint';
      res, mint' := Retain(out, mint, kept);
      var found;
      found, lo', hi' := it.Seek(maxt, prev, lo, hi);
      SoughtTimes(it, maxt, lo', hi');
      NewPoints(it.points, prev, mint, maxt, kept, mint', lo', hi', it.ring.delta);
      res, ok := AppendNew(it, res, mint', maxt, found, lo', hi');
    }

    /** Appends the new points: those in the buffer, then the sought sample if it is in the range. */
    method AppendNew(it: BufferedIterator, out: seq<Sample>, mint: int, maxt: int, found: bool, ghost lo: int, ghost hi: int)
      returns (res: seq<Sample>, ok: bool)
      requires it.Sought(maxt, lo, hi) && found == it.ok
      modifies this
      ensures var added := Select(it.points[lo..hi], mint, maxt - 1) + SoughtPoint(it.points, hi, maxt);
              && (ok <==> added == [] || old(currentSamples) + |added| <= maxSamples)
              && (ok ==> res == out + added && currentSamples == old(currentSamples) + |added|)
    {
      hide Select;
      res, ok := AppendBuffer(it.ring, out, mint, maxt);
      if ok && found {
        var s := it.points[it.curr];
        if s.t == maxt && !s.stale {
          if currentSamples >= maxSamples { return res, false; }
          res := res + [s];
          currentSamples := currentSamples + 1;
        }
      }
    }
  }

  /** The sample the iterator rests on, if it closes the window. */
  function SoughtPoint(p: seq<Sample>, hi: int, maxt: int): seq<Sample>
    requires 0 <= hi <= |p|
  {
    if hi < |p| && p[hi].t == maxt && !p[hi].stale then [p[hi]] else []
  }

  lemma {:induction false} SoughtTimes(it: BufferedIterator, maxt: int, lo: int, hi: int)
    requires it.Sought(maxt, lo, hi)
    ensures forall k :: hi <= k < |it.points| ==> it.points[k].t >= maxt
  {
  }

  lemma {:induction false} KeptPoints(p: seq<Sample>, prev: Option<int>, pmint: int, mint: int, out: seq<Sample>)
    returns (kept: seq<Sample>)
    requires Increasing(p)
    requires if prev.None? then out == [] else pmint <= mint && out == Select(p, pmint, prev.value)
    ensures kept == Select(p, mint, NewFrom(prev, mint) - 1)
    ensures |kept| <= |out| && out[|out| - |kept|..] == kept
    ensures forall k :: 0 <= k < |out| - |kept| ==> out[k].t < mint
    ensures forall k :: 0 <= k < |kept| ==> kept[k].t >= mint
  {
    kept := Select(p, mint, NewFrom(prev, mint) - 1);
    if prev.Some? {
      SharedPart(p, pmint, mint, prev.value);
      SelectSame(p, mint, prev.value, mint, NewFrom(prev, mint) - 1);
    } else {
      SelectNone(p, mint, mint - 1);
    }
  }

  /** What the buffer and the sought sample add to the kept points is the new part of the window. */
  lemma {:induction false} NewPoints(p: seq<Sample>, prev: Option<int>, mint: int, maxt: int, kept: seq<Sample>, mint': int,
                                     lo: int, hi: int, delta: int)
    requires Increasing(p) && mint <= maxt && (prev.Some? ==> prev.value < maxt)
    requires kept == Select(p, mint, NewFrom(prev, mint) - 1)
    requires mint' == if kept != [] then kept[|kept| - 1].t + 1 else mint
    requires 0 <= lo <= hi <= |p| && maxt - delta <= NewFrom(prev, mint)
    requires forall k :: 0 <= k < hi ==> p[k].t < maxt
    requires forall k :: hi <= k < |p| ==> p[k].t >= maxt
    requires forall k :: 0 <= k < lo ==> p[k].t < maxt - delta
    ensures var from := NewFrom(prev, mint);
            var added := Select(p[lo..hi], mint', maxt - 1);
            && Select(p, from, maxt) == added + SoughtPoint(p, hi, maxt)
            && Select(p, mint, maxt) == kept + (added + SoughtPoint(p, hi, maxt))
  {
    hide Select;
    var from := NewFrom(prev, mint);
    SelectIs(p, mint, from - 1);
    forall k | 0 <= k < |p| && !p[k].stale ensures p[k].t >= mint' <==> p[k].t >= from {
      if mint <= p[k].t < from { SkippedNothing(p, mint, from - 1, k); }
    }
    BufferHoldsNew(p, lo, hi, from, mint', maxt);
    SelectSplit(p, from, maxt - 1, maxt);
    SelectAt(p, hi, maxt);
    SelectSplit(p, mint, from - 1, maxt);
  }

  // ---------- a range function over all steps of one series ----------

  /** A range function: the value of a non-empty window at an evaluation time, if it has one. */
  type RangeFunction = (seq<Sample>, int) -> Option<real>

  /** The selector part of a range call, with durations in milliseconds. */
  datatype Selector = Selector(offset: int, range: int)

  function Window(p: seq<Sample>, sel: Selector, ts: int): seq<Sample> {
    Select(p, ts - sel.offset - sel.range, ts - sel.offset)
  }

  function StepValue(p: seq<Sample>, sel: Selector, f: RangeFunction, ts: int): seq<Point> {
    var w := Window(p, sel, ts);
    if w != [] && f(w, ts).Some? then [Point(ts, f(w, ts).value)] else []
  }

  /** The range function applied to a fresh window at every step from `ts` on. */
  function StepValues(p: seq<Sample>, sel: Selector, f: RangeFunction, ts: int, end: int, interval: int): seq<Point>
    requires interval > 0
    decreases end - ts
  {
    if ts > end then []
    else StepValue(p, sel, f, ts) + StepValues(p, sel, f, ts + interval, end, interval)
  }

  /** No step from `ts` on that adds points has a window longer than `room`; `prev` is the end of the
      previous window. */
  ghost predicate HasRoom(p: seq<Sample>, sel: Selector, prev: Option<int>, ts: int, end: int, interval: int, room: int)
    requires interval > 0
    decreases end - ts
  {
    ts <= end ==>
      && (NewPart(p, sel, prev, ts) == [] || |Window(p, sel, ts)| <= room)
      && HasRoom(p, sel, Some(ts - sel.offset), ts + interval, end, interval, room)
  }

  /** The part of a window that the previous one does not have. */
  function NewPart(p: seq<Sample>, sel: Selector, prev: Option<int>, ts: int): seq<Sample> {
    Select(p, NewFrom(prev, ts - sel.offset - sel.range), ts - sel.offset)
  }

  /** The window of the last step. */
  function LastWindow(p: seq<Sample>, sel: Selector, ts: int, end: int, interval: int): seq<Sample>
    requires interval > 0
    decreases end - ts
  {
    if ts > end then []
    else if ts + interval > end then Window(p, sel, ts)
    else LastWindow(p, sel, ts + interval, end, interval)
  }

  /** Between two steps: the points are the previous window, and the buffer delta, though it may have
      been lowered to the step, still reaches every sample that the next window adds. */
  ghost predicate Ready(it: BufferedIterator, sel: Selector, interval: int, ts: int, prev: Option<int>, lo: int, hi: int,
                        points: seq<Sample>)
    reads it, it.ring, it.ring.buf
  {
    && (it.ring.delta >= sel.range || (prev.Some? && it.ring.delta >= interval))
    && if prev.None? then it.AtStart() && points == []
       else it.Sought(prev.value, lo, hi) && prev.value == ts - interval - sel.offset
            && points == Select(it.points, prev.value - sel.range, prev.value)
  }

  method Step(ev: Evaluator, it: BufferedIterator, sel: Selector, f: RangeFunction, ts: int, interval: int,
              points: seq<Sample>, ghost prev: Option<int>, ghost lo: int, ghost hi: int)
    returns (window: seq<Sample>, value: seq<Point>, ok: bool, ghost lo': int, ghost hi': int)
    requires interval > 0 && sel.range >= 0 && Ready(it, sel, interval, ts, prev, lo, hi, points)
    modifies ev, it.Footprint()
    ensures it.ring == old(it.ring) && (it.ring.buf == old(it.ring.buf) || fresh(it.ring.buf))
    ensures ok ==> Ready(it, sel, interval, ts + interval, Some(ts - sel.offset), lo', hi', window)
    ensures ok ==> window == Window(it.points, sel, ts) && value == StepValue(it.points, sel, f, ts)
    ensures ok ==> ev.currentSamples == old(ev.currentSamples) - |points| + |window|
    ensures ok <==> NewPart(it.points, sel, prev, ts) == []
                    || old(ev.currentSamples) - |points| + |Window(it.points, sel, ts)| <= ev.maxSamples
  {
    hide Select, Increasing;
    var maxt := ts - sel.offset;
    var mint := maxt - sel.range;
    value := [];
    window, ok, lo', hi' := ev.MatrixIterSlice(it, mint, maxt, points, prev,
      if prev.Some? then prev.value - sel.range else 0, lo, hi);
    if ok && |window| != 0 {
      var r := f(window, ts);
      if r.Some? { value := [Point(ts, r.value)]; }
      var stepRange := if sel.range > interval then interval else sel.range;
      lo' := it.ReduceDelta(stepRange, maxt, lo', hi');
    }
  }

  /** One buffered pass over a series equals selecting every window afresh. Between series only the
      result stays counted. The sample limit strikes exactly when a step adds points to a window that
      does not fit, or when the result does not fit beside the last window. */
  method EvalSeries(ev: Evaluator, p: seq<Sample>, sel: Selector, f: RangeFunction, start: int, end: int, interval: int)
    returns (out: seq<Point>, ok: bool)
    requires Increasing(p) && interval > 0 && sel.range >= 0
    modifies ev
    ensures ok ==> out == StepValues(p, sel, f, start, end, interval)
    ensures ok ==> ev.currentSamples == old(ev.currentSamples) + |out|
    ensures var all, last := StepValues(p, sel, f, start, end, interval), LastWindow(p, sel, start, end, interval);
            ok <==> HasRoom(p, sel, None, start, end, interval, ev.maxSamples - old(ev.currentSamples))
                    && (all == [] || old(ev.currentSamples) + |last| + |all| <= ev.maxSamples)
  {
    hide Select, Increasing, Window, StepValue, Ready, NewPart;
    var it := new BufferedIterator(p, sel.range);
    StartReady(it, sel, interval, start);
    var points: seq<Sample> := [];
    ghost var prev: Option<int>, lo, hi := None, 0, 0;
    ghost var room := ev.maxSamples - ev.currentSamples;
    out := [];
    var ts := start;
    while ts <= end
      invariant fresh(it) && fresh(it.ring) && fresh(it.ring.buf) && it.points == p
      invariant Ready(it, sel, interval, ts, prev, lo, hi, points)
      invariant out + StepValues(p, sel, f, ts, end, interval) == StepValues(p, sel, f, start, end, interval)
      invariant ev.currentSamples == old(ev.currentSamples) + |points|
      invariant HasRoom(p, sel, None, start, end, interval, room) <==> HasRoom(p, sel, prev, ts, end, interval, room)
      invariant ts <= end ==> LastWindow(p, sel, ts, end, interval) == LastWindow(p, sel, start, end, interval)
      invariant ts > end ==> points == LastWindow(p, sel, start, end, interval)
      decreases end - ts
    {
      var value;
      points, value, ok, lo, hi := Step(ev, it, sel, f, ts, interval, points, prev, lo, hi);
      if !ok { return [], false; }
      prev := Some(ts - sel.offset);
      assert out + StepValues(p, sel, f, ts, end, interval)
          == (out + value) + StepValues(p, sel, f, ts + interval, end, interval);
      out := out + value;
      ts := ts + interval;
    }
    assert out + [] == out;
    if |out| > 0 {
      if ev.currentSamples + |out| > ev.maxSamples { return [], false; }
      ev.currentSamples := ev.currentSamples + |out|;
    }
    ev.currentSamples := ev.currentSamples - |points|;
    ok := true;
  }

  lemma {:induction false} StartReady(it: BufferedIterator, sel: Selector, interval: int, ts: int)
    requires it.AtStart() && it.ring.delta == sel.range
    ensures Ready(it, sel, interval, ts, None, 0, 0, [])
  {
  }
}
