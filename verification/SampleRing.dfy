/** The look-back ring buffer behind range selectors, and what it holds. */
module SampleRing {
  import IntMath

  /** A stored sample; a stale marker carries no value. */
  datatype Sample = Sample(t: int, v: real, stale: bool)

  /** Samples are stored in time order, one per timestamp. */
  predicate Increasing(s: seq<Sample>) {
    forall i, j :: 0 <= i < j < |s| ==> s[i].t < s[j].t
  }

  /** Drops the samples at the head that are older than `tmin`. */
  function Trim(s: seq<Sample>, tmin: int): seq<Sample> {
    if s != [] && s[0].t < tmin then Trim(s[1..], tmin) else s
  }

  /** Trimming removes a prefix: all of it too old, and nothing too old right after it. */
  lemma {:induction false} TrimDropsPrefix(s: seq<Sample>, tmin: int) returns (n: nat)
    ensures n <= |s| && Trim(s, tmin) == s[n..]
    ensures forall k :: 0 <= k < n ==> s[k].t < tmin
    ensures n < |s| ==> s[n].t >= tmin
  {
    if s != [] && s[0].t < tmin {
      var m := TrimDropsPrefix(s[1..], tmin);
      n := m + 1;
      assert s[1..][m..] == s[n..];
      forall k | 0 <= k < n ensures s[k].t < tmin {
        if k > 0 { assert s[k] == s[1..][k - 1]; }
      }
    } else {
      n := 0;
    }
  }

  /** The underlying series iterator's seek from position `curr`: never moves backwards, and rests on the
      last sample when nothing is late enough. */
  method SeekFrom(points: seq<Sample>, curr: int, t: int) returns (found: bool, curr': int)
    requires -1 <= curr
    ensures found ==> curr <= curr' < |points| && 0 <= curr' && points[curr'].t >= t
    ensures found ==> forall k :: curr <= k < curr' && 0 <= k ==> points[k].t < t
    ensures !found ==> curr' == |points| - 1 && forall k :: curr <= k < |points| && 0 <= k ==> points[k].t < t
  {
    var i := if curr < 0 then 0 else curr;
    while i < |points|
      invariant curr <= i && 0 <= i
      invariant forall k :: curr <= k < i && 0 <= k < |points| ==> points[k].t < t
    {
      if points[i].t >= t { return true, i; }
      i := i + 1;
    }
    return false, |points| - 1;
  }

  class Ring {
    var delta: int
    var buf: array<Sample>
    var i: int   // position of the most recent element
    var f: int   // position of the first element
    var l: int   // number of elements
    ghost var contents: seq<Sample>

    /** Array position of the k-th element. */
    ghost function Pos(k: int): int
      reads this
    {
      if f + k < buf.Length then f + k else f + k - buf.Length
    }

    /** The array holds `contents`, wrapped around, from position `f` on. */
    ghost predicate Holds()
      reads this, buf
    {
      && delta >= 0 && 0 <= f < buf.Length && 0 <= l <= buf.Length && |contents| == l
      && forall k :: 0 <= k < l ==> contents[k] == buf[Pos(k)]
    }

    ghost predicate Valid()
      reads this, buf
    {
      && Holds()
      && (l == 0 ==> i == -1 && f == 0)
      && (l > 0 ==> i == Pos(l - 1))
    }

    constructor (delta: int, size: int)
      requires delta >= 0 && size > 0
      ensures Valid() && fresh(buf) && this.delta == delta && contents == []
    {
      this.delta := delta;
      buf := new Sample[size](_ => Sample(0, 0.0, false));
      i, f, l := -1, 0, 0;
      contents := [];
    }

    method Reset()
      requires Valid()
      modifies this
      ensures Valid() && buf == old(buf) && delta == old(delta) && contents == []
    {
      l := 0;
      i := -1;
      f := 0;
      contents := [];
    }

    method At(k: int) returns (s: Sample)
      requires Valid() && 0 <= k < l
      ensures s == contents[k]
    {
      var n := buf.Length;
      if f + k < n { IntMath.DivModUnique(f + k, n, 0, f + k); } else { IntMath.DivModUnique(f + k, n, 1, f + k - n); }
      s := buf[(f + k) % n];
    }

    /** Makes `i` the position for the next element. A full array is doubled: its first element
        moves to the upper half, so that the wrapped part still follows it. */
    method NextSlot()
      requires Valid()
      modifies this
      ensures Holds() && delta == old(delta) && contents == old(contents)
      ensures l < buf.Length && i == Pos(l) && (buf == old(buf) || fresh(buf))
    {
      var n := buf.Length;
      if n == l {
        var prev, first := buf, f;
        var bigger := new Sample[2 * n](k requires 0 <= k < 2 * n reads prev =>
          if k < first then prev[k] else if k < n + first then Sample(0, 0.0, false) else prev[k - n]);
        buf := bigger;
        i := f;
        f := f + n;
      } else {
        i := i + 1;
        if i >= n { i := i - n; }
      }
    }

    method Put(s: Sample)
      requires Holds() && l < buf.Length && i == Pos(l)
      modifies this`l, this`contents, buf
      ensures Valid() && contents == old(contents) + [s]
    {
      buf[i] := s;
      l := l + 1;
      contents := contents + [s];
    }

    /** Removes the samples at the head that are older than `tmin`. The newest sample is not. */
    method FreeHead(tmin: int)
      requires Valid() && l > 0 && contents[l - 1].t >= tmin
      modifies this`f, this`l, this`contents
      ensures Valid() && contents == Trim(old(contents), tmin)
    {
      while buf[f].t < tmin
        invariant Valid() && l > 0 && contents[l - 1].t >= tmin
        invariant Trim(contents, tmin) == Trim(old(contents), tmin)
        decreases l
      {
        assert contents[0] == buf[Pos(0)];
        f := f + 1;
        if f >= buf.Length { f := f - buf.Length; }
        l := l - 1;
        contents := contents[1..];
      }
      assert contents[0] == buf[Pos(0)];
    }

    /** Appends a sample and frees all samples that fall out of the delta range. */
    method Add(s: Sample)
      requires Valid()
      modifies this, buf
      ensures Valid() && delta == old(delta) && (buf == old(buf) || fresh(buf))
      ensures contents == Trim(old(contents) + [s], s.t - delta)
    {
      NextSlot();
      Put(s);
      FreeHead(s.t - delta);
    }

    /** Lowers the buffered time delta, dropping samples out of the new range. */
    method ReduceDelta(d: int) returns (ok: bool)
      requires Valid() && d >= 0
      modifies this
      ensures Valid() && buf == old(buf) && ok == (d <= old(delta))
      ensures delta == if ok then d else old(delta)
      ensures var c := old(contents);
              contents == if ok && c != [] then Trim(c, c[|c| - 1].t - d) else c
    {
      if d > delta { return false; }
      delta := d;
      if l == 0 { return true; }
      assert contents[l - 1] == buf[Pos(l - 1)];
      FreeHead(buf[i].t - d);
      return true;
    }
  }
}
