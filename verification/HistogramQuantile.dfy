/** `histogram_quantile`: buckets are sorted, merged per upper bound, made monotone and searched. */
module HistogramQuantile {

  /** An upper bound: a number, or plus infinity. */
  datatype Bound = Fin(x: real) | Inf

  datatype Bucket = Bucket(bound: Bound, count: real)

  datatype Value = Num(x: real) | NaN | PosInf | NegInf

  predicate Less(a: Bound, b: Bound) { a.Fin? && (b.Inf? || a.x < b.x) }

  // ---------- sorting ----------

  ghost predicate Sorted(s: seq<Bucket>) { forall i, j :: 0 <= i < j < |s| ==> !Less(s[j].bound, s[i].bound) }

  ghost predicate Ascending(s: seq<Bucket>) { forall i, j :: 0 <= i < j < |s| ==> Less(s[i].bound, s[j].bound) }

  method Swap(a: array<Bucket>, i: nat, j: nat)
    requires i < j < a.Length
    modifies a
    ensures a[i] == old(a[j]) && a[j] == old(a[i]) && forall k :: 0 <= k < a.Length && k != i && k != j ==> a[k] == old(a[k])
    ensures multiset(a[..]) == old(multiset(a[..]))
  {
    a[i], a[j] := a[j], a[i];
  }

  /** Moves the last element of a prefix down to its place. */
  method Sink(a: array<Bucket>, n: nat)
    requires n < a.Length && Sorted(a[..n])
    modifies a
    ensures Sorted(a[..n + 1]) && multiset(a[..]) == old(multiset(a[..]))
  {
    var j := n;
    while j > 0 && Less(a[j].bound, a[j - 1].bound)
      invariant 0 <= j <= n
      invariant forall x, y :: 0 <= x < y <= n && x != j && y != j ==> !Less(a[y].bound, a[x].bound)
      invariant forall y :: j < y <= n ==> Less(a[j].bound, a[y].bound)
      invariant multiset(a[..]) == old(multiset(a[..]))
    {
      Swap(a, j - 1, j);
      j := j - 1;
    }
  }

  /** Sorting by bound; buckets with equal bounds may end up in any order. */
  method SortBuckets(a: array<Bucket>)
    modifies a
    ensures Sorted(a[..]) && multiset(a[..]) == old(multiset(a[..]))
  {
    var n := 0;
    while n < a.Length
      invariant 0 <= n <= a.Length && Sorted(a[..n]) && multiset(a[..]) == old(multiset(a[..]))
    {
      Sink(a, n);
      n := n + 1;
    }
    assert a[..n] == a[..];
  }

  // ---------- merging equal bounds ----------

  function Coalesced(s: seq<Bucket>): (c: seq<Bucket>)
    requires s != []
    ensures c != [] && |c| <= |s| && c[|c| - 1].bound == s[|s| - 1].bound
  {
    if |s| == 1 then s
    else Merged(Coalesced(s[..|s| - 1]), s[|s| - 1])
  }

  /** Merging one more bucket. */
  function Merged(c: seq<Bucket>, b: Bucket): seq<Bucket>
    requires c != []
  {
    var last := c[|c| - 1];
    if b.bound == last.bound then c[..|c| - 1] + [last.(count := last.count + b.count)] else c + [b]
  }

  lemma CoalescedStep(s: seq<Bucket>, k: nat)
    requires 0 < k < |s|
    ensures Coalesced(s[..k + 1]) == Merged(Coalesced(s[..k]), s[k])
  {
    assert s[..k + 1][..k] == s[..k];
  }

  /** What one more bucket does to the buckets written so far and the one being merged. */
  lemma MergeStep(written: seq<Bucket>, last: Bucket, b: Bucket)
    ensures Merged(written + [last], b)
         == if b.bound == last.bound then written + [last.(count := last.count + b.count)] else (written + [last]) + [b]
  {
    assert (written + [last])[..|written|] == written;
  }

  method CoalesceBuckets(a: array<Bucket>) returns (n: nat)
    requires a.Length > 0
    modifies a
    ensures n <= a.Length && a[..n] == Coalesced(old(a[..]))
  {
    hide Coalesced, Merged;
    ghost var s := a[..];
    FirstCoalesced(s);
    var last, i, k := a[0], 0, 1;
    ghost var written: seq<Bucket> := [];
    while k < a.Length
      invariant 0 <= i < k <= a.Length && |written| == i && written + [last] == Coalesced(s[..k])
      invariant forall j :: 0 <= j < i ==> a[j] == written[j]
      invariant forall j :: k <= j < a.Length ==> a[j] == s[j]
    {
      CoalescedStep(s, k);
      MergeStep(written, last, s[k]);
      var b := a[k];
      if b.bound == last.bound {
        last := last.(count := last.count + b.count);
      } else {
        a[i] := last;
        written := written + [last];
        last := b;
        i := i + 1;
      }
      k := k + 1;
    }
    assert s[..k] == s;
    a[i] := last;
    n := i + 1;
    assert a[..n] == written + [last];
  }

  lemma FirstCoalesced(s: seq<Bucket>)
    requires s != []
    ensures [] + [s[0]] == Coalesced(s[..1])
  {
  }

  /** The observations counted at a bound. */
  function Total(s: seq<Bucket>, b: Bound): real {
    if s == [] then 0.0
    else Total(s[..|s| - 1], b) + if s[|s| - 1].bound == b then s[|s| - 1].count else 0.0
  }

  ghost predicate HasBound(s: seq<Bucket>, b: Bound) { exists i :: 0 <= i < |s| && s[i].bound == b }

  /** Merging keeps the total of every bound and leaves strictly ascending bounds. */
  lemma {:induction false} CoalescedTotals(s: seq<Bucket>, b: Bound)
    requires s != []
    ensures Total(Coalesced(s), b) == Total(s, b) && HasBound(Coalesced(s), b) == HasBound(s, b)
  {
    var c := Coalesced(s);
    var n := |s| - 1;
    if n > 0 {
      var d, x := Coalesced(s[..n]), s[n];
      CoalescedTotals(s[..n], b);
      HasBoundLast(s, b);
      HasBoundLast(c, b);
      HasBoundLast(d, b);
      if x.bound == d[|d| - 1].bound { assert c[..|c| - 1] == d[..|d| - 1]; } else { assert c[..|c| - 1] == d; }
    }
  }

  lemma {:induction false} HasBoundLast(s: seq<Bucket>, b: Bound)
    requires s != []
    ensures HasBound(s, b) <==> HasBound(s[..|s| - 1], b) || s[|s| - 1].bound == b
  {
    var t := s[..|s| - 1];
    if HasBound(t, b) { var i :| 0 <= i < |t| && t[i].bound == b; assert s[i] == t[i]; }
    if HasBound(s, b) { var i :| 0 <= i < |s| && s[i].bound == b; if i < |t| { assert t[i] == s[i]; } }
  }

  lemma {:induction false} CoalescedAscends(s: seq<Bucket>)
    requires s != [] && Sorted(s)
    ensures Ascending(Coalesced(s))
  {
    var n := |s| - 1;
    if n > 0 {
      CoalescedAscends(s[..n]);
      var d, x := Coalesced(s[..n]), s[n];
      assert !Less(x.bound, s[n - 1].bound);
    }
  }

  lemma {:induction false} TotalAbsent(s: seq<Bucket>, b: Bound)
    requires !HasBound(s, b)
    ensures Total(s, b) == 0.0
  {
    if s != [] {
      HasBoundLast(s, b);
      TotalAbsent(s[..|s| - 1], b);
    }
  }

  /** In strictly ascending buckets each bound's total is its only bucket's count. */
  lemma {:induction false} TotalIsCount(s: seq<Bucket>, i: nat)
    requires Ascending(s) && i < |s|
    ensures Total(s, s[i].bound) == s[i].count
  {
    var n := |s| - 1;
    if i < n {
      TotalIsCount(s[..n], i);
    } else {
      forall j | 0 <= j < n ensures s[..n][j].bound != s[n].bound { assert Less(s[j].bound, s[n].bound); }
      TotalAbsent(s[..n], s[n].bound);
    }
  }

  ghost predicate SameTotals(s: seq<Bucket>, t: seq<Bucket>) {
    forall b :: Total(s, b) == Total(t, b) && HasBound(s, b) == HasBound(t, b)
  }

  /** Strictly ascending buckets are determined by their bounds and totals. */
  lemma {:induction false} AscendingUnique(c: seq<Bucket>, d: seq<Bucket>)
    requires Ascending(c) && Ascending(d) && SameTotals(c, d)
    ensures c == d
    decreases |c|
  {
    if c == [] {
      if d != [] { assert HasBound(d, d[0].bound); }
    } else {
      assert c[|c| - 1].bound == c[|c| - 1].bound;
      assert HasBound(c, c[|c| - 1].bound) && HasBound(d, c[|c| - 1].bound);
      TopBound(d, c[|c| - 1].bound);
      assert HasBound(d, d[|d| - 1].bound) && HasBound(c, d[|d| - 1].bound);
      TopBound(c, d[|d| - 1].bound);
      assert c[|c| - 1].bound == d[|d| - 1].bound;
      TotalIsCount(c, |c| - 1);
      TotalIsCount(d, |d| - 1);
      var c', d' := c[..|c| - 1], d[..|d| - 1];
      var top := c[|c| - 1];
      assert d[|d| - 1] == top;
      forall b ensures Total(c', b) == Total(d', b) && HasBound(c', b) == HasBound(d', b) {
        HasBoundLast(c, b);
        HasBoundLast(d, b);
        assert Total(c, b) == Total(d, b) && HasBound(c, b) == HasBound(d, b);
        if b == top.bound { LastIsNew(c); LastIsNew(d); }
      }
      AscendingUnique(c', d');
      assert c == c' + [top] && d == d' + [top];
    }
  }

  lemma TopBound(c: seq<Bucket>, b: Bound)
    requires Ascending(c) && HasBound(c, b)
    ensures c != [] && (b == c[|c| - 1].bound || Less(b, c[|c| - 1].bound))
  {
    var i :| 0 <= i < |c| && c[i].bound == b;
    if i < |c| - 1 { assert Less(c[i].bound, c[|c| - 1].bound); }
  }

  lemma LastIsNew(c: seq<Bucket>)
    requires c != [] && Ascending(c)
    ensures !HasBound(c[..|c| - 1], c[|c| - 1].bound)
  {
    forall i | 0 <= i < |c| - 1 ensures c[i].bound != c[|c| - 1].bound { assert Less(c[i].bound, c[|c| - 1].bound); }
  }

  lemma {:induction false} TotalRemove(t: seq<Bucket>, i: nat, b: Bound)
    requires i < |t|
    ensures Total(t, b) == Total(t[..i] + t[i + 1..], b) + if t[i].bound == b then t[i].count else 0.0
    decreases |t|
  {
    var n := |t| - 1;
    var r := t[..i] + t[i + 1..];
    if i == n {
      assert r == t[..n];
    } else {
      TotalRemove(t[..n], i, b);
      assert r[..|r| - 1] == t[..n][..i] + t[..n][i + 1..];
    }
  }

  lemma {:induction false} PermutedTotals(s: seq<Bucket>, t: seq<Bucket>, b: Bound)
    requires multiset(s) == multiset(t)
    ensures Total(s, b) == Total(t, b)
    decreases |s|
  {
    if s == [] {
      assert |multiset(t)| == |t|;
    } else {
      var i := TakeOut(s, t);
      PermutedTotals(s[..|s| - 1], t[..i] + t[i + 1..], b);
      TotalRemove(t, i, b);
    }
  }

  lemma TakeOut(s: seq<Bucket>, t: seq<Bucket>) returns (i: nat)
    requires multiset(s) == multiset(t) && s != []
    ensures i < |t| && t[i] == s[|s| - 1] && multiset(s[..|s| - 1]) == multiset(t[..i] + t[i + 1..])
  {
    var n := |s| - 1;
    assert s[n] in multiset(t);
    i :| 0 <= i < |t| && t[i] == s[n];
    assert s == s[..n] + [s[n]];
    assert t == t[..i] + ([t[i]] + t[i + 1..]);
    Cancel(multiset(s[..n]), multiset(t[..i]), multiset(t[i + 1..]), s[n]);
  }

  lemma Cancel(a: multiset<Bucket>, b: multiset<Bucket>, c: multiset<Bucket>, x: Bucket)
    requires a + multiset{x} == b + (multiset{x} + c)
    ensures a == b + c
  {
    assert a == (a + multiset{x}) - multiset{x};
    assert b + c == (b + (multiset{x} + c)) - multiset{x};
  }

  lemma {:induction false} PermutedBounds(s: seq<Bucket>, t: seq<Bucket>, b: Bound)
    requires multiset(s) == multiset(t) && HasBound(s, b)
    ensures HasBound(t, b)
  {
    var i :| 0 <= i < |s| && s[i].bound == b;
    assert s[i] in multiset(t);
    var j :| 0 <= j < |t| && t[j] == s[i];
  }

  lemma {:induction false} PermutedSame(s: seq<Bucket>, t: seq<Bucket>)
    requires multiset(s) == multiset(t)
    ensures SameTotals(s, t)
  {
    forall b ensures Total(s, b) == Total(t, b) && HasBound(s, b) == HasBound(t, b) {
      PermutedTotals(s, t, b);
      if HasBound(s, b) { PermutedBounds(s, t, b); }
      if HasBound(t, b) { PermutedBounds(t, s, b); }
    }
  }

  // ---------- the envelope ----------

  function Max(a: real, b: real): real { if a < b then b else a }

  /** Counts raised to the highest count so far. */
  function Envelope(s: seq<Bucket>): (e: seq<Bucket>)
    ensures |e| == |s|
  {
    if |s| <= 1 then s
    else
      var e, b := Envelope(s[..|s| - 1]), s[|s| - 1];
      e + [b.(count := Max(e[|e| - 1].count, b.count))]
  }

  method EnsureMonotonic(a: array<Bucket>, n: nat)
    requires 0 < n <= a.Length
    modifies a
    ensures a[..n] == Envelope(old(a[..n]))
  {
    ghost var s := a[..n];
    var max, i := a[0].count, 1;
    assert s[..1] == a[..1];
    while i < n
      invariant 1 <= i <= n
      invariant a[..i] == Envelope(s[..i]) && max == a[i - 1].count
      invariant a[i..n] == s[i..]
    {
      assert s[..i + 1][..i] == s[..i];
      assert a[i] == a[i..n][0] == s[i];
      if a[i].count > max {
        max := a[i].count;
      } else if a[i].count < max {
        a[i] := a[i].(count := max);
      }
      assert a[..i + 1] == a[..i] + [a[i]];
      i := i + 1;
    }
    assert s[..n] == s;
  }

  ghost predicate NonDecreasing(s: seq<Bucket>) { forall i, j :: 0 <= i <= j < |s| ==> s[i].count <= s[j].count }

  /** `m` has the same bounds and counts that are nowhere lower. */
  ghost predicate Above(m: seq<Bucket>, s: seq<Bucket>) {
    |m| == |s| && forall i :: 0 <= i < |s| ==> m[i].bound == s[i].bound && m[i].count >= s[i].count
  }

  /** The envelope is the least non-decreasing sequence above the counts. */
  lemma {:induction false} EnvelopeIsLeast(s: seq<Bucket>, m: seq<Bucket>)
    ensures NonDecreasing(Envelope(s)) && Above(Envelope(s), s)
    ensures NonDecreasing(m) && Above(m, s) ==> Above(m, Envelope(s))
    decreases |s|
  {
    if |s| > 1 {
      var n := |s| - 1;
      EnvelopeIsLeast(s[..n], if |m| == |s| then m[..n] else []);
      if NonDecreasing(m) && Above(m, s) {
        assert Above(m[..n], s[..n]);
        assert m[n - 1].count <= m[n].count;
      }
    }
  }

  // ---------- the search ----------

  /** The first of the first `n` buckets whose count reaches the rank, or `n`. */
  function FirstReaching(e: seq<Bucket>, n: nat, rank: real): (b: nat)
    requires n <= |e|
    ensures b <= n && (b < n ==> e[b].count >= rank) && forall i :: 0 <= i < b ==> e[i].count < rank
  {
    if n == 0 then 0
    else
      var b := FirstReaching(e, n - 1, rank);
      if b < n - 1 || e[n - 1].count >= rank then b else n
  }

  method Search(a: array<Bucket>, n: nat, rank: real) returns (b: nat)
    requires n <= a.Length && NonDecreasing(a[..n])
    ensures b == FirstReaching(a[..n], n, rank)
  {
    var i, j := 0, n;
    while i < j
      invariant 0 <= i <= j <= n
      invariant forall k :: 0 <= k < i ==> a[k].count < rank
      invariant forall k :: j <= k < n ==> a[k].count >= rank
    {
      var h := (i + j) / 2;
      if a[h].count < rank {
        assert forall k :: 0 <= k <= h ==> a[..n][k].count <= a[..n][h].count;
        i := h + 1;
      } else {
        assert forall k :: h <= k < n ==> a[..n][h].count <= a[..n][k].count;
        j := h;
      }
    }
    b := i;
    ghost var e := a[..n];
    assert forall k :: 0 <= k < b ==> e[k].count < rank;
    assert b < n ==> e[b].count >= rank;
  }

  // ---------- the quantile ----------

  /** The point at fraction `rest / count` of the way. */
  function Line(start: real, end: real, rest: real, count: real): real
    requires count != 0.0
  {
    start + (end - start) * (rest / count)
  }

  function Rank(q: real, n: real): real { q * n }

  /** Interpolation in bucket `b` of an envelope with at least two buckets, the last one open. Only the
      lowest bucket can make the quotient undefined. */
  function Interpolated(e: seq<Bucket>, b: nat, rank: real): Value
    requires |e| >= 2 && b < |e| && forall i :: 0 <= i < |e| - 1 ==> e[i].bound.Fin?
  {
    if b == |e| - 1 then Num(e[|e| - 2].bound.x)
    else if b == 0 && e[0].bound.x <= 0.0 then Num(e[0].bound.x)
    else
      var start := if b > 0 then e[b - 1].bound.x else 0.0;
      var count := if b > 0 then e[b].count - e[b - 1].count else e[b].count;
      var rest := if b > 0 then rank - e[b - 1].count else rank;
      if count != 0.0 then Num(Line(start, e[b].bound.x, rest, count))
      else if rest == 0.0 then NaN
      else if rest < 0.0 then NegInf else PosInf
  }

  /** The quantile of an envelope. */
  function QuantileOf(q: real, e: seq<Bucket>): Value
    requires e != [] && Ascending(e)
  {
    if |e| < 2 || e[|e| - 1].count == 0.0 then NaN
    else
      var rank := Rank(q, e[|e| - 1].count);
      assert forall i :: 0 <= i < |e| - 1 ==> Less(e[i].bound, e[|e| - 1].bound);
      Interpolated(e, FirstReaching(e, |e| - 1, rank), rank)
  }

  /** The buckets the quantile is read from: merged per bound, in order, and monotone. */
  ghost predicate Prepares(e: seq<Bucket>, s: seq<Bucket>) {
    exists sorted: seq<Bucket> :: multiset(sorted) == multiset(s) && Sorted(sorted) && sorted != [] && e == Envelope(Coalesced(sorted))
  }

  lemma {:induction false} EnvelopeAscends(s: seq<Bucket>)
    requires Ascending(s)
    ensures Ascending(Envelope(s))
  {
    EnvelopeIsLeast(s, s);
  }

  lemma {:induction false} PreparedAscends(e: seq<Bucket>, s: seq<Bucket>)
    requires Prepares(e, s)
    ensures e != [] && Ascending(e) && NonDecreasing(e)
  {
    var sorted: seq<Bucket> :| multiset(sorted) == multiset(s) && Sorted(sorted) && sorted != [] && e == Envelope(Coalesced(sorted));
    CoalescedAscends(sorted);
    EnvelopeAscends(Coalesced(sorted));
    EnvelopeIsLeast(Coalesced(sorted), []);
  }

  /** Every order of the same buckets is prepared alike. */
  lemma {:induction false} PreparedUnique(e: seq<Bucket>, s: seq<Bucket>, f: seq<Bucket>, t: seq<Bucket>)
    requires Prepares(e, s) && Prepares(f, t) && multiset(s) == multiset(t)
    ensures e == f
  {
    var a: seq<Bucket> :| multiset(a) == multiset(s) && Sorted(a) && a != [] && e == Envelope(Coalesced(a));
    var b: seq<Bucket> :| multiset(b) == multiset(t) && Sorted(b) && b != [] && f == Envelope(Coalesced(b));
    PermutedSame(a, b);
    CoalescedAscends(a);
    CoalescedAscends(b);
    forall x ensures Total(Coalesced(a), x) == Total(Coalesced(b), x) && HasBound(Coalesced(a), x) == HasBound(Coalesced(b), x) {
      CoalescedTotals(a, x);
      CoalescedTotals(b, x);
      assert Total(a, x) == Total(b, x);
    }
    AscendingUnique(Coalesced(a), Coalesced(b));
  }

  /** What the prepared buckets hold, in terms of the given ones: exactly their bounds, with counts that
      are the least non-decreasing ones above the totals. */
  lemma {:induction false} PreparedMeaning(e: seq<Bucket>, s: seq<Bucket>, m: seq<Bucket>)
    requires Prepares(e, s)
    ensures forall b :: HasBound(e, b) <==> HasBound(s, b)
    ensures forall i :: 0 <= i < |e| ==> e[i].count >= Total(s, e[i].bound)
    ensures NonDecreasing(m) && |m| == |e| && (forall i :: 0 <= i < |e| ==> m[i].bound == e[i].bound && m[i].count >= Total(s, e[i].bound))
            ==> Above(m, e)
  {
    var a: seq<Bucket> :| multiset(a) == multiset(s) && Sorted(a) && a != [] && e == Envelope(Coalesced(a));
    var c := Coalesced(a);
    CoalescedAscends(a);
    EnvelopeIsLeast(c, m);
    PermutedSame(a, s);
    forall i | 0 <= i < |e| ensures c[i].bound == e[i].bound && c[i].count == Total(s, e[i].bound) {
      TotalIsCount(c, i);
      CoalescedTotals(a, e[i].bound);
      assert Total(a, e[i].bound) == Total(s, e[i].bound);
    }
    forall b ensures HasBound(e, b) <==> HasBound(s, b) {
      CoalescedTotals(a, b);
      assert HasBound(a, b) == HasBound(s, b);
      if HasBound(c, b) { var i :| 0 <= i < |c| && c[i].bound == b; assert e[i].bound == b; }
      if HasBound(e, b) { var i :| 0 <= i < |e| && e[i].bound == b; assert c[i].bound == b; }
    }
  }

  lemma {:induction false} SortedTop(s: seq<Bucket>, t: seq<Bucket>)
    requires Sorted(s) && s != [] && multiset(s) == multiset(t)
    ensures s[|s| - 1].bound.Inf? <==> HasBound(t, Inf)
  {
    if s[|s| - 1].bound.Inf? { assert HasBound(s, Inf); PermutedBounds(s, t, Inf); }
    if HasBound(t, Inf) {
      PermutedBounds(t, s, Inf);
      var i :| 0 <= i < |s| && s[i].bound == Inf;
      assert i == |s| - 1 || !Less(s[|s| - 1].bound, s[i].bound);
    }
  }

  /** The whole computation; it leaves the buckets rearranged. */
  method BucketQuantile(q: real, a: array<Bucket>) returns (v: Value, ghost e: seq<Bucket>)
    requires a.Length > 0
    modifies a
    ensures q < 0.0 ==> v == NegInf
    ensures q > 1.0 ==> v == PosInf
    ensures 0.0 <= q <= 1.0 && !HasBound(old(a[..]), Inf) ==> v == NaN
    ensures 0.0 <= q <= 1.0 && HasBound(old(a[..]), Inf) ==>
              Prepares(e, old(a[..])) && e != [] && Ascending(e) && NonDecreasing(e) && v == QuantileOf(q, e)
    ensures 0.0 < q <= 1.0 && HasBound(old(a[..]), Inf) ==> Reads(v, q, e)
  {
    hide Reads, QuantileOf;
    e := [];
    if q < 0.0 { return NegInf, []; }
    if q > 1.0 { return PosInf, []; }
    ghost var given := a[..];
    SortBuckets(a);
    ghost var sorted := a[..];
    SortedTop(sorted, given);
    if !a[a.Length - 1].bound.Inf? { return NaN, []; }
    var n := CoalesceBuckets(a);
    EnsureMonotonic(a, n);
    e := a[..n];
    assert Prepares(e, given);
    PreparedAscends(e, given);
    v := ReadQuantile(a, n, q, e);
  }

  /** The quantile of prepared buckets, if there are observations to read it from. */
  method ReadQuantile(a: array<Bucket>, n: nat, q: real, ghost e: seq<Bucket>) returns (v: Value)
    requires 0 < n <= a.Length && e == a[..n] && Ascending(e) && NonDecreasing(e) && 0.0 <= q <= 1.0
    ensures v == QuantileOf(q, e)
    ensures q > 0.0 ==> Reads(v, q, e)
  {
    hide Reads, Interpolated;
    if q > 0.0 { QuantileReads(q, e); }
    if n < 2 { return NaN; }
    var observations := a[n - 1].count;
    if observations == 0.0 { return NaN; }
    v := Locate(a, n, q, e);
  }

  /** Finds the bucket of the rank and interpolates in it. */
  method Locate(a: array<Bucket>, n: nat, q: real, ghost e: seq<Bucket>) returns (v: Value)
    requires 2 <= n <= a.Length && e == a[..n] && Ascending(e) && NonDecreasing(e) && a[n - 1].count != 0.0
    ensures v == QuantileOf(q, e)
  {
    hide Line, Rank, Interpolated;
    var rank := Rank(q, a[n - 1].count);
    assert forall i :: 0 <= i < n - 1 ==> Less(e[i].bound, e[n - 1].bound);
    assert NonDecreasing(a[..n - 1]);
    var b := Search(a, n - 1, rank);
    SamePrefix(a[..n - 1], e, n - 1, rank);
    v := Interpolate(a, n, b, rank, e);
  }

  method Interpolate(a: array<Bucket>, n: nat, b: nat, r: real, ghost e: seq<Bucket>) returns (v: Value)
    requires 2 <= n <= a.Length && b < n && e == a[..n] && forall i :: 0 <= i < n - 1 ==> e[i].bound.Fin?
    ensures v == Interpolated(e, b, r)
  {
    hide Line;
    if b == n - 1 { return Num(a[n - 2].bound.x); }
    if b == 0 && a[0].bound.x <= 0.0 { return Num(a[0].bound.x); }
    var start, end, count, rank := 0.0, a[b].bound.x, a[b].count, r;
    if b > 0 {
      start := a[b - 1].bound.x;
      count := count - a[b - 1].count;
      rank := rank - a[b - 1].count;
    }
    if count == 0.0 {
      v := if rank == 0.0 then NaN else if rank < 0.0 then NegInf else PosInf;
    } else {
      v := Num(Line(start, end, rank, count));
    }
  }

  lemma {:induction false} SamePrefix(a: seq<Bucket>, e: seq<Bucket>, n: nat, rank: real)
    requires n <= |a| && n <= |e| && forall i :: 0 <= i < n ==> a[i] == e[i]
    ensures FirstReaching(a, n, rank) == FirstReaching(e, n, rank)
  {
  }

  // ---------- where the quantile lies ----------

  /** An envelope that has observations in at least two buckets, the last one open. */
  ghost predicate Proper(e: seq<Bucket>) {
    && |e| >= 2 && Ascending(e) && NonDecreasing(e) && e[|e| - 1].bound.Inf?
    && e[0].count >= 0.0 && e[|e| - 1].count > 0.0
  }

  /** The edges between which a quantile in bucket `b` lies. */
  function Low(e: seq<Bucket>, b: nat): real
    requires |e| >= 2 && b < |e| && forall i :: 0 <= i < |e| - 1 ==> e[i].bound.Fin?
  {
    if b == |e| - 1 then e[|e| - 2].bound.x
    else if b > 0 then e[b - 1].bound.x
    else if e[0].bound.x <= 0.0 then e[0].bound.x
    else 0.0
  }

  function High(e: seq<Bucket>, b: nat): real
    requires |e| >= 2 && b < |e| && forall i :: 0 <= i < |e| - 1 ==> e[i].bound.Fin?
  {
    if b == |e| - 1 then e[|e| - 2].bound.x else e[b].bound.x
  }

  lemma ProperFinite(e: seq<Bucket>)
    requires Proper(e)
    ensures forall i :: 0 <= i < |e| - 1 ==> e[i].bound.Fin?
    ensures forall i, j :: 0 <= i < j < |e| - 1 ==> e[i].bound.x < e[j].bound.x
  {
    assert forall i :: 0 <= i < |e| - 1 ==> Less(e[i].bound, e[|e| - 1].bound);
    assert forall i, j :: 0 <= i < j < |e| - 1 ==> Less(e[i].bound, e[j].bound);
  }

  function Bucketed(q: real, e: seq<Bucket>): nat
    requires e != []
  {
    FirstReaching(e, |e| - 1, Rank(q, e[|e| - 1].count))
  }

  /** That is the first bucket that reaches q times the total, or the open one if none does. */
  lemma {:induction false} BucketedIs(q: real, e: seq<Bucket>)
    requires |e| >= 2 && NonDecreasing(e)
    ensures var b, r := Bucketed(q, e), q * e[|e| - 1].count;
            if e[|e| - 2].count < r then b == |e| - 1 else FirstWith(e, r, b)
  {
    hide FirstWith, FirstReaching, NonDecreasing;
    var r := q * e[|e| - 1].count;
    assert Rank(q, e[|e| - 1].count) == r;
    ReachingIs(e, r);
  }

  lemma {:induction false} ReachingIs(e: seq<Bucket>, r: real)
    requires |e| >= 2 && NonDecreasing(e)
    ensures var b := FirstReaching(e, |e| - 1, r);
            if e[|e| - 2].count < r then b == |e| - 1 else FirstWith(e, r, b)
  {
    var n := |e| - 1;
    assert forall i :: 0 <= i < n ==> e[i].count <= e[n - 1].count;
  }

  lemma Between(start: real, end: real, rest: real, count: real)
    requires start <= end && 0.0 <= rest <= count && count > 0.0
    ensures start <= Line(start, end, rest, count) <= end
  {
    var f := rest / count;
    assert f * count == rest;
    assert 0.0 <= f <= 1.0;
    var w := end - start;
    assert 0.0 <= w * f;
    assert w * (1.0 - f) >= 0.0;
  }

  lemma PositiveRank(q: real, n: real)
    requires 0.0 < q <= 1.0 && n > 0.0
    ensures 0.0 < Rank(q, n) <= n
  {
    assert (1.0 - q) * n >= 0.0;
  }

  /** For 0 < q <= 1 the result is a number between the edges of its bucket. */
  lemma {:induction false} QuantilePlaced(q: real, e: seq<Bucket>)
    requires Proper(e) && 0.0 < q <= 1.0
    ensures forall i :: 0 <= i < |e| - 1 ==> e[i].bound.Fin?
    ensures var b, v := Bucketed(q, e), QuantileOf(q, e);
            v.Num? && Low(e, b) <= v.x <= High(e, b)
    ensures var b, r := Bucketed(q, e), q * e[|e| - 1].count;
            if e[|e| - 2].count < r then b == |e| - 1 else FirstWith(e, r, b)
  {
    BucketedIs(q, e);
    hide Line, Rank, FirstWith;
    ProperFinite(e);
    var n := |e| - 1;
    var rank := Rank(q, e[n].count);
    PositiveRank(q, e[n].count);
    var b := Bucketed(q, e);
    if b < n && !(b == 0 && e[0].bound.x <= 0.0) {
      var start := if b > 0 then e[b - 1].bound.x else 0.0;
      var count := if b > 0 then e[b].count - e[b - 1].count else e[b].count;
      var rest := if b > 0 then rank - e[b - 1].count else rank;
      if b > 0 { assert e[b - 1].count < rank; }
      Between(start, e[b].bound.x, rest, count);
    }
  }

  lemma {:induction false} EdgesOrdered(e: seq<Bucket>, b: nat, c: nat)
    requires Proper(e) && b < c < |e|
    ensures forall i :: 0 <= i < |e| - 1 ==> e[i].bound.Fin?
    ensures High(e, b) <= Low(e, c)
  {
    ProperFinite(e);
  }

  lemma LinearMonotone(start: real, end: real, rest: real, rest': real, count: real)
    requires start <= end && rest <= rest' && count > 0.0
    ensures Line(start, end, rest, count) <= Line(start, end, rest', count)
  {
    var f, g := rest / count, rest' / count;
    assert f * count == rest && g * count == rest';
    assert f <= g;
    assert (end - start) * (g - f) >= 0.0;
  }

  lemma {:induction false} ReachingMonotone(e: seq<Bucket>, n: nat, rank: real, rank': real)
    requires n <= |e| && rank <= rank'
    ensures FirstReaching(e, n, rank) <= FirstReaching(e, n, rank')
  {
    var b, c := FirstReaching(e, n, rank), FirstReaching(e, n, rank');
    assert c == n || e[c].count >= rank';
  }

  lemma MoreRank(q: real, q': real, n: real)
    requires q <= q' && n > 0.0
    ensures Rank(q, n) <= Rank(q', n)
  {
    assert (q' - q) * n >= 0.0;
  }

  /** The quantile never decreases as q grows. */
  lemma {:induction false} QuantileMonotone(q: real, q': real, e: seq<Bucket>)
    requires Proper(e) && 0.0 < q <= q' <= 1.0
    ensures QuantileOf(q, e).Num? && QuantileOf(q', e).Num? && QuantileOf(q, e).x <= QuantileOf(q', e).x
  {
    hide Line, Rank;
    ProperFinite(e);
    QuantilePlaced(q, e);
    QuantilePlaced(q', e);
    var n := |e| - 1;
    var rank, rank' := Rank(q, e[n].count), Rank(q', e[n].count);
    PositiveRank(q, e[n].count);
    MoreRank(q, q', e[n].count);
    ReachingMonotone(e, n, rank, rank');
    var b, c := Bucketed(q, e), Bucketed(q', e);
    if b < c {
      EdgesOrdered(e, b, c);
    } else if b < n && !(b == 0 && e[0].bound.x <= 0.0) {
      var start := if b > 0 then e[b - 1].bound.x else 0.0;
      var count := if b > 0 then e[b].count - e[b - 1].count else e[b].count;
      var rest := if b > 0 then rank - e[b - 1].count else rank;
      var rest' := if b > 0 then rank' - e[b - 1].count else rank';
      if b > 0 { assert e[b - 1].count < rank; }
      LinearMonotone(start, e[b].bound.x, rest, rest', count);
    }
  }

  /** `b` is the first bucket with a finite bound whose count reaches `r`. */
  ghost predicate FirstWith(e: seq<Bucket>, r: real, b: nat) {
    b < |e| - 1 && e[b].count >= r && forall i :: 0 <= i < b ==> e[i].count < r
  }

  lemma LineEquation(start: real, end: real, rest: real, count: real)
    requires count != 0.0
    ensures (Line(start, end, rest, count) - start) * count == (end - start) * rest
  {
    var f := rest / count;
    assert f * count == rest;
    assert (end - start) * f * count == (end - start) * (f * count);
  }

  /** A bucket is divided by the result as its count is divided by the rank. */
  ghost predicate Divides(v: Value, e: seq<Bucket>, r: real, b: nat)
    requires b < |e| && forall i :: 0 <= i <= b ==> e[i].bound.Fin?
  {
    var start := if b == 0 then 0.0 else e[b - 1].bound.x;
    var before := if b == 0 then 0.0 else e[b - 1].count;
    v.Num? && e[b].count > before && (v.x - start) * (e[b].count - before) == (e[b].bound.x - start) * (r - before)
  }

  lemma {:induction false} InterpolatedValue(e: seq<Bucket>, r: real, b: nat)
    requires Proper(e) && 0.0 < r && FirstWith(e, r, b)
    ensures forall i :: 0 <= i < |e| - 1 ==> e[i].bound.Fin?
    ensures var v := Interpolated(e, b, r);
            if b == 0 && e[0].bound.x <= 0.0 then v == Num(e[0].bound.x) else Divides(v, e, r, b)
  {
    hide Line;
    ProperFinite(e);
    if !(b == 0 && e[0].bound.x <= 0.0) {
      var start := if b == 0 then 0.0 else e[b - 1].bound.x;
      var before := if b == 0 then 0.0 else e[b - 1].count;
      assert e[b].count > before;
      LineEquation(start, e[b].bound.x, r - before, e[b].count - before);
    }
  }

  /** Which number the result is for a rank. If no finite bucket reaches it, the highest finite bound. If
      the lowest does and has no positive bound, that bound. Otherwise the result divides its bucket as the
      rank divides the bucket's count; the lowest bucket starts at zero. */
  ghost predicate ReadAt(v: Value, e: seq<Bucket>, r: real)
    requires |e| >= 2 && forall i :: 0 <= i < |e| - 1 ==> e[i].bound.Fin?
  {
    && (e[|e| - 2].count < r ==> v == Num(e[|e| - 2].bound.x))
    && (e[|e| - 2].count >= r ==> exists b :: FirstWith(e, r, b))
    && forall b: nat :: FirstWith(e, r, b) ==>
         if b == 0 && e[0].bound.x <= 0.0 then v == Num(e[0].bound.x) else Divides(v, e, r, b)
  }

  lemma {:induction false} RankValue(e: seq<Bucket>, r: real)
    requires Proper(e) && 0.0 < r
    ensures forall i :: 0 <= i < |e| - 1 ==> e[i].bound.Fin?
    ensures ReadAt(Interpolated(e, FirstReaching(e, |e| - 1, r), r), e, r)
  {
    hide Divides;
    ProperFinite(e);
    var n := |e| - 1;
    var c := FirstReaching(e, n, r);
    var v := Interpolated(e, c, r);
    if e[n - 1].count < r { assert forall i :: 0 <= i < n ==> e[i].count <= e[n - 1].count; }
    assert c < n ==> FirstWith(e, r, c);
    forall b: nat | FirstWith(e, r, b)
      ensures if b == 0 && e[0].bound.x <= 0.0 then v == Num(e[0].bound.x) else Divides(v, e, r, b)
    {
      assert b == c;
      InterpolatedValue(e, r, b);
    }
  }

  ghost predicate Reads(v: Value, q: real, e: seq<Bucket>) {
    Proper(e) ==> (forall i :: 0 <= i < |e| - 1 ==> e[i].bound.Fin?) && ReadAt(v, e, q * e[|e| - 1].count)
  }

  /** For 0 < q <= 1 the result is read at q times the total. */
  lemma {:induction false} QuantileValue(q: real, e: seq<Bucket>)
    requires Proper(e) && 0.0 < q <= 1.0
    ensures forall i :: 0 <= i < |e| - 1 ==> e[i].bound.Fin?
    ensures ReadAt(QuantileOf(q, e), e, q * e[|e| - 1].count)
  {
    hide ReadAt, Interpolated;
    PositiveRank(q, e[|e| - 1].count);
    RankValue(e, q * e[|e| - 1].count);
  }

  lemma QuantileReads(q: real, e: seq<Bucket>)
    requires e != [] && Ascending(e) && 0.0 < q <= 1.0
    ensures Reads(QuantileOf(q, e), q, e)
  {
    hide ReadAt, QuantileOf;
    if Proper(e) { QuantileValue(q, e); }
  }

  /** At q = 0 the result is undefined exactly when the lowest bucket is empty and lies above zero. */
  lemma {:induction false} QuantileAtZero(e: seq<Bucket>)
    requires Proper(e)
    ensures e[0].bound.Fin?
    ensures QuantileOf(0.0, e) == if e[0].bound.x <= 0.0 then Num(e[0].bound.x) else if e[0].count == 0.0 then NaN else Num(0.0)
  {
    ProperFinite(e);
    assert Rank(0.0, e[|e| - 1].count) == 0.0;
    var b := FirstReaching(e, |e| - 1, 0.0);
    assert b == 0;
    if e[0].bound.x > 0.0 && e[0].count != 0.0 {
      assert 0.0 / e[0].count == 0.0;
    }
  }

  lemma {:induction false} TotalNonNegative(s: seq<Bucket>, b: Bound)
    requires forall i :: 0 <= i < |s| ==> s[i].count >= 0.0
    ensures Total(s, b) >= 0.0
    ensures forall i :: 0 <= i < |s| && s[i].bound == b ==> Total(s, b) >= s[i].count
  {
    if s != [] { TotalNonNegative(s[..|s| - 1], b); }
  }

  /** Which buckets make a proper envelope: no negative count, at least one observation, an open bucket
      and another one. */
  lemma {:induction false} PreparedProper(e: seq<Bucket>, s: seq<Bucket>, i: nat, k: nat)
    requires Prepares(e, s) && (forall j :: 0 <= j < |s| ==> s[j].count >= 0.0)
    requires HasBound(s, Inf) && i < |s| && s[i].bound.Fin? && k < |s| && s[k].count > 0.0
    ensures Proper(e)
  {
    PreparedAscends(e, s);
    PreparedMeaning(e, s, []);
    assert HasBound(e, Inf);
    var t :| 0 <= t < |e| && e[t].bound == Inf;
    assert t == |e| - 1 || Less(e[t].bound, e[|e| - 1].bound);
    assert HasBound(s, s[i].bound) && HasBound(e, s[i].bound);
    assert HasBound(s, s[k].bound) && HasBound(e, s[k].bound);
    var m :| 0 <= m < |e| && e[m].bound == s[k].bound;
    TotalNonNegative(s, e[m].bound);
    TotalNonNegative(s, e[0].bound);
    assert e[m].count <= e[|e| - 1].count;
  }
}
