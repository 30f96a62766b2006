/** What a binary operator between vectors gives, said of the samples themselves: which pairs of samples
    are combined, in which order the operands go, what value and which labels each result has, and when
    there is none. */
module JoinMeaning {
  import opened Common
  import opened HashJoin

  // ---------- matching ----------

  /** Two label sets agree on what is matched: the listed labels, or all others but the metric name. */
  ghost predicate Agree(m: Matching, a: Labels, b: Labels) {
    forall k :: (if m.on then k in m.names else k !in m.names && k != "__name__") ==> Get(a, k) == Get(b, k)
  }

  lemma {:induction false} MatchesIff(m: Matching, a: Labels, b: Labels)
    requires Clean(a) && Clean(b)
    ensures Signature(m, a) == Signature(m, b) <==> Agree(m, a, b)
  {
    forall k ensures Get(Signature(m, a), k) == Get(Signature(m, b), k) <==> (InSignature(m, k) ==> Get(a, k) == Get(b, k)) {
      GetSignature(m, a, k);
      GetSignature(m, b, k);
    }
    assert Clean(Signature(m, a)) && Clean(Signature(m, b));
    if Agree(m, a, b) { CleanEqual(Signature(m, a), Signature(m, b)); }
    if Signature(m, a) == Signature(m, b) {
      forall k | if m.on then k in m.names else k !in m.names && k != "__name__" ensures Get(a, k) == Get(b, k) {
        assert InSignature(m, k);
        assert Get(Signature(m, a), k) == Get(Signature(m, b), k);
      }
    }
  }

  // ---------- one result ----------

  /** The labels of a result: included ones come from the one side and all others from the many side, except
      that the name goes when the operator or `bool` drops it, and that one-to-one keeps only what was
      matched on, or drops what was ignored. */
  ghost predicate Labelled(m: Matching, op: Operator, asBool: bool, out: Labels, many: Labels, one: Labels) {
    && (forall k :: k in out.pairs ==> out.pairs[k] != "")
    && (forall k :: Get(out, k) == LabelAt(m, op, asBool, many, one, k))
  }

  ghost function LabelAt(m: Matching, op: Operator, asBool: bool, many: Labels, one: Labels, k: string): string {
    if k == "__name__" && asBool then ""
    else if k in m.included then Get(one, k)
    else if k == "__name__" && op.dropsName then ""
    else if m.card == OneToOne && m.on && k !in m.names then ""
    else if m.card == OneToOne && !m.on && k in m.names then ""
    else Get(many, k)
  }

  /** The result of two samples, the operands in the order written. */
  ghost predicate Results(m: Matching, op: Operator, asBool: bool, out: Sample, lhs: Sample, rhs: Sample) {
    && (!asBool ==> out.v == op.apply(lhs.v, rhs.v).0)
    && (asBool ==> out.v == if op.apply(lhs.v, rhs.v).1 then 1.0 else 0.0)
    && (if m.card == OneToMany then Labelled(m, op, asBool, out.metric, rhs.metric, lhs.metric)
        else Labelled(m, op, asBool, out.metric, lhs.metric, rhs.metric))
  }

  /** A pair that matches; without `bool`, comparisons keep only pairs for which they hold. */
  ghost predicate Kept(m: Matching, op: Operator, asBool: bool, lhs: Sample, rhs: Sample) {
    Signature(m, lhs.metric) == Signature(m, rhs.metric) && (asBool || op.apply(lhs.v, rhs.v).1)
  }

  lemma {:induction false} EmittedLabels(m: Matching, op: Operator, asBool: bool, l: Labels, r: Labels)
    ensures Labelled(m, op, asBool, EmittedMetric(m, op, asBool, l, r), l, r)
  {
    forall k ensures Get(EmittedMetric(m, op, asBool, l, r), k) == LabelAt(m, op, asBool, l, r, k) {
      GetEmitted(m, op, asBool, l, r, k);
    }
  }

  /** `l` is of the many side. */
  lemma {:induction false} EmitMeans(m: Matching, op: Operator, asBool: bool, l: Sample, r: Sample)
    ensures var (a, b) := if m.card == OneToMany then (r, l) else (l, r);
            var e := Emit(m, op, asBool, l, r);
            (e.Some? <==> asBool || op.apply(a.v, b.v).1) && (e.Some? ==> Results(m, op, asBool, e.value, a, b))
  {
    EmittedLabels(m, op, asBool, l.metric, r.metric);
    hide Labelled, ResultMetric, DropName;
  }

  // ---------- all results ----------

  /** Positions of a pair in the two vectors, the many side first. */
  datatype Pair = Pair(many: nat, one: nat)

  ghost predicate Before(p: Pair, q: Pair) { p.many < q.many || (p.many == q.many && p.one < q.one) }

  ghost predicate KeptAt(m: Matching, op: Operator, asBool: bool, many: seq<Sample>, one: seq<Sample>, i: int, j: int) {
    && 0 <= i < |many| && 0 <= j < |one|
    && (if m.card == OneToMany then Kept(m, op, asBool, one[j], many[i]) else Kept(m, op, asBool, many[i], one[j]))
  }

  ghost predicate ResultsAt(m: Matching, op: Operator, asBool: bool, many: seq<Sample>, one: seq<Sample>, p: Pair, out: Sample)
    requires p.many < |many| && p.one < |one|
  {
    if m.card == OneToMany then Results(m, op, asBool, out, one[p.one], many[p.many])
    else Results(m, op, asBool, out, many[p.many], one[p.one])
  }

  /** Hits that are the results of pairs. */
  ghost predicate Stand(m: Matching, op: Operator, asBool: bool, many: seq<Sample>, one: seq<Sample>, hs: seq<Hit>, ps: seq<Pair>) {
    && |ps| == |hs|
    && forall x :: 0 <= x < |ps| ==>
         && KeptAt(m, op, asBool, many, one, ps[x].many, ps[x].one)
         && ResultsAt(m, op, asBool, many, one, ps[x], hs[x].sample)
         && hs[x].sig == Signature(m, many[ps[x].many].metric)
  }

  ghost predicate Ordered(ps: seq<Pair>) { forall x, y :: 0 <= x < y < |ps| ==> Before(ps[x], ps[y]) }

  /** Exactly the kept pairs of the first `n` rows. */
  ghost predicate UpTo(m: Matching, op: Operator, asBool: bool, many: seq<Sample>, one: seq<Sample>, n: nat, ps: seq<Pair>) {
    forall p: Pair :: p in ps <==> p.many < n && KeptAt(m, op, asBool, many, one, p.many, p.one)
  }

  ghost predicate InRow(m: Matching, op: Operator, asBool: bool, many: seq<Sample>, one: seq<Sample>, n: nat, c: nat, ps: seq<Pair>) {
    forall p: Pair :: p in ps <==> p.many == n && p.one < c && KeptAt(m, op, asBool, many, one, p.many, p.one)
  }

  lemma {:induction false} RowLists(m: Matching, op: Operator, asBool: bool, many: seq<Sample>, one: seq<Sample>, n: nat, c: nat) returns (ps: seq<Pair>)
    requires n < |many| && c <= |one|
    ensures Stand(m, op, asBool, many, one, Row(m, op, asBool, many[n], one[..c]), ps)
    ensures Ordered(ps) && InRow(m, op, asBool, many, one, n, c, ps)
    decreases c
  {
    hide Emit, Results, Signature;
    if c == 0 { return []; }
    var d := c - 1;
    ps := RowLists(m, op, asBool, many, one, n, d);
    assert one[..c][..d] == one[..d] && one[..c][d] == one[d];
    EmitMeans(m, op, asBool, many[n], one[d]);
    if KeptAt(m, op, asBool, many, one, n, d) {
      forall x | 0 <= x < |ps| ensures Before(ps[x], Pair(n, d)) { assert ps[x] in ps; }
      ps := ps + [Pair(n, d)];
    }
  }

  lemma StandJoin(m: Matching, op: Operator, asBool: bool, many: seq<Sample>, one: seq<Sample>, hs: seq<Hit>, ps: seq<Pair>, row: seq<Hit>, more: seq<Pair>)
    requires Stand(m, op, asBool, many, one, hs, ps) && Stand(m, op, asBool, many, one, row, more)
    ensures Stand(m, op, asBool, many, one, hs + row, ps + more)
  {
    hide ResultsAt, Signature, Kept;
  }

  lemma OrderedJoin(ps: seq<Pair>, more: seq<Pair>, n: nat)
    requires Ordered(ps) && Ordered(more) && (forall p: Pair :: p in ps ==> p.many < n) && (forall p: Pair :: p in more ==> p.many == n)
    ensures Ordered(ps + more)
  {
    forall x, y | 0 <= x < |ps| && 0 <= y < |more| ensures Before(ps[x], more[y]) { assert ps[x] in ps && more[y] in more; }
  }

  lemma UpToJoin(m: Matching, op: Operator, asBool: bool, many: seq<Sample>, one: seq<Sample>, n: nat, ps: seq<Pair>, more: seq<Pair>)
    requires UpTo(m, op, asBool, many, one, n, ps) && InRow(m, op, asBool, many, one, n, |one|, more)
    ensures UpTo(m, op, asBool, many, one, n + 1, ps + more)
  {
    hide Kept;
    forall p: Pair ensures p in ps + more <==> p.many < n + 1 && KeptAt(m, op, asBool, many, one, p.many, p.one) {
      assert p in ps + more <==> p in ps || p in more;
    }
  }

  lemma {:induction false} HitsList(m: Matching, op: Operator, asBool: bool, many: seq<Sample>, one: seq<Sample>, n: nat) returns (ps: seq<Pair>)
    requires n <= |many|
    ensures Stand(m, op, asBool, many, one, Hits(m, op, asBool, many[..n], one), ps)
    ensures Ordered(ps) && UpTo(m, op, asBool, many, one, n, ps)
    decreases n
  {
    if n == 0 { return []; }
    hide Row, Stand, Ordered, KeptAt;
    var k := n - 1;
    var before := HitsList(m, op, asBool, many, one, k);
    var row := RowLists(m, op, asBool, many, one, k, |one|);
    assert many[..n][..k] == many[..k] && many[..n][k] == many[k] && one[..|one|] == one;
    StandJoin(m, op, asBool, many, one, Hits(m, op, asBool, many[..k], one), before, Row(m, op, asBool, many[k], one), row);
    OrderedJoin(before, row, k);
    UpToJoin(m, op, asBool, many, one, k, before, row);
    ps := before + row;
  }

  function ManySide(m: Matching, lhs: seq<Sample>, rhs: seq<Sample>): seq<Sample> { if m.card == OneToMany then rhs else lhs }

  function OneSide(m: Matching, lhs: seq<Sample>, rhs: seq<Sample>): seq<Sample> { if m.card == OneToMany then lhs else rhs }

  /** A normal result has one sample for each kept pair, with its value and labels, in the order of the many
      side, in which no sample is used twice. */
  lemma {:induction false} BinopMeans(m: Matching, op: Operator, asBool: bool, lhs: seq<Sample>, rhs: seq<Sample>) returns (ps: seq<Pair>)
    requires Binop(m, op, asBool, lhs, rhs).Ok?
    ensures var out, many, one := Binop(m, op, asBool, lhs, rhs).out, ManySide(m, lhs, rhs), OneSide(m, lhs, rhs);
            && |ps| == |out|
            && (forall p: Pair :: p in ps <==> KeptAt(m, op, asBool, many, one, p.many, p.one))
            && (forall x, y :: 0 <= x < y < |ps| ==> ps[x].many < ps[y].many)
            && (forall x :: 0 <= x < |ps| ==>
                  ps[x].many < |many| && ps[x].one < |one| && ResultsAt(m, op, asBool, many, one, ps[x], out[x]))
  {
    hide Hits, Results, Kept, Signature;
    var many, one := ManySide(m, lhs, rhs), OneSide(m, lhs, rhs);
    ps := HitsList(m, op, asBool, many, one, |many|);
    assert many[..|many|] == many;
    forall x | 0 <= x < |ps| ensures KeptAt(m, op, asBool, many, one, ps[x].many, ps[x].one) { assert ps[x] in ps; }
    forall x, y | 0 <= x < y < |ps| ensures ps[x].many < ps[y].many {
      if ps[x].many == ps[y].many { OnePartner(m, op, asBool, many, one, ps[x].many, ps[x].one, ps[y].one); }
    }
  }

  lemma {:induction false} OnePartner(m: Matching, op: Operator, asBool: bool, many: seq<Sample>, one: seq<Sample>, i: nat, j: nat, k: nat)
    requires !RepeatsSignature(m, one) && KeptAt(m, op, asBool, many, one, i, j) && KeptAt(m, op, asBool, many, one, i, k)
    ensures j == k
  {
    hide Signature;
  }

  // ---------- errors ----------

  /** Two samples of the many side that match alike and are both kept with some partner. */
  ghost predicate Rivals(m: Matching, op: Operator, asBool: bool, many: seq<Sample>, one: seq<Sample>, p: Pair, q: Pair) {
    && KeptAt(m, op, asBool, many, one, p.many, p.one) && KeptAt(m, op, asBool, many, one, q.many, q.one)
    && p.many != q.many && Signature(m, many[p.many].metric) == Signature(m, many[q.many].metric)
  }

  ghost predicate LabelledAt(m: Matching, op: Operator, asBool: bool, many: seq<Sample>, one: seq<Sample>, p: Pair, out: Labels) {
    p.many < |many| && p.one < |one| && Labelled(m, op, asBool, out, many[p.many].metric, one[p.one].metric)
  }

  /** Two such samples whose results have the same labels. */
  ghost predicate Clash(m: Matching, op: Operator, asBool: bool, many: seq<Sample>, one: seq<Sample>, p: Pair, q: Pair) {
    && Rivals(m, op, asBool, many, one, p, q)
    && exists out :: LabelledAt(m, op, asBool, many, one, p, out) && LabelledAt(m, op, asBool, many, one, q, out)
  }

  lemma {:induction false} LabelsUnique(m: Matching, op: Operator, asBool: bool, a: Labels, b: Labels, many: Labels, one: Labels)
    requires Labelled(m, op, asBool, a, many, one) && Labelled(m, op, asBool, b, many, one)
    ensures a == b
  {
    CleanEqual(a, b);
  }

  lemma ResultLabels(m: Matching, op: Operator, asBool: bool, many: seq<Sample>, one: seq<Sample>, p: Pair, out: Sample)
    requires p.many < |many| && p.one < |one| && ResultsAt(m, op, asBool, many, one, p, out)
    ensures LabelledAt(m, op, asBool, many, one, p, out.metric)
  {
    hide Labelled;
  }

  /** Two hits with the same signature are rivals, and the other way round. */
  lemma {:induction false} HitsAreRivals(m: Matching, op: Operator, asBool: bool, many: seq<Sample>, one: seq<Sample>, hs: seq<Hit>, ps: seq<Pair>, x: nat, y: nat)
    requires Stand(m, op, asBool, many, one, hs, ps) && Ordered(ps) && !RepeatsSignature(m, one) && x < y < |ps|
    ensures hs[x].sig == hs[y].sig <==> Rivals(m, op, asBool, many, one, ps[x], ps[y])
    ensures hs[x].sig == hs[y].sig && hs[x].sample.metric == hs[y].sample.metric <==> Clash(m, op, asBool, many, one, ps[x], ps[y])
  {
    hide Signature, Kept, Results, Labelled;
    var p, q := ps[x], ps[y];
    assert Before(p, q);
    if p.many == q.many { OnePartner(m, op, asBool, many, one, p.many, p.one, q.one); }
    ResultLabels(m, op, asBool, many, one, p, hs[x].sample);
    ResultLabels(m, op, asBool, many, one, q, hs[y].sample);
    if Clash(m, op, asBool, many, one, p, q) {
      var out :| LabelledAt(m, op, asBool, many, one, p, out) && LabelledAt(m, op, asBool, many, one, q, out);
      LabelsUnique(m, op, asBool, out, hs[x].sample.metric, many[p.many].metric, one[p.one].metric);
      LabelsUnique(m, op, asBool, out, hs[y].sample.metric, many[q.many].metric, one[q.one].metric);
    }
  }

  lemma {:induction false} Positions(ps: seq<Pair>, p: Pair, q: Pair) returns (x: nat, y: nat)
    requires p in ps && q in ps && p != q
    ensures x < y < |ps| && ((ps[x] == p && ps[y] == q) || (ps[x] == q && ps[y] == p))
  {
    var i :| 0 <= i < |ps| && ps[i] == p;
    var j :| 0 <= j < |ps| && ps[j] == q;
    x, y := if i < j then i else j, if i < j then j else i;
  }

  /** Rivals and clashes are found among the hits. */
  lemma {:induction false} FoundAmong(m: Matching, op: Operator, asBool: bool, many: seq<Sample>, one: seq<Sample>, hs: seq<Hit>, ps: seq<Pair>, p: Pair, q: Pair)
    returns (x: nat, y: nat)
    requires Stand(m, op, asBool, many, one, hs, ps) && Ordered(ps) && UpTo(m, op, asBool, many, one, |many|, ps)
    requires !RepeatsSignature(m, one) && Rivals(m, op, asBool, many, one, p, q)
    ensures x < y < |hs| && hs[x].sig == hs[y].sig
    ensures Clash(m, op, asBool, many, one, p, q) ==> hs[x].sample.metric == hs[y].sample.metric
  {
    hide KeptAt, Signature, RepeatsSignature, LabelledAt, Clash, Stand;
    KeptIn(m, op, asBool, many, one, p);
    KeptIn(m, op, asBool, many, one, q);
    StandSize(m, op, asBool, many, one, hs, ps);
    x, y := Positions(ps, p, q);
    Symmetric(m, op, asBool, many, one, p, q);
    HitsAreRivals(m, op, asBool, many, one, hs, ps, x, y);
  }

  lemma {:induction false} RepeatsAre(m: Matching, op: Operator, asBool: bool, many: seq<Sample>, one: seq<Sample>)
    requires !RepeatsSignature(m, one)
    ensures var hs := Hits(m, op, asBool, many, one);
            && (RepeatsHit(hs) <==> exists p, q :: Rivals(m, op, asBool, many, one, p, q))
            && (RepeatsResult(hs) <==> exists p, q :: Clash(m, op, asBool, many, one, p, q))
  {
    hide Hits, Rivals, LabelledAt, Signature, RepeatsSignature, Stand, UpTo, Ordered;
    var hs := Hits(m, op, asBool, many, one);
    var ps := HitsList(m, op, asBool, many, one, |many|);
    assert many[..|many|] == many;
    StandSize(m, op, asBool, many, one, hs, ps);
    if x, y :| 0 <= x < y < |hs| && hs[x].sig == hs[y].sig { HitsAreRivals(m, op, asBool, many, one, hs, ps, x, y); }
    if x, y :| 0 <= x < y < |hs| && hs[x].sig == hs[y].sig && hs[x].sample.metric == hs[y].sample.metric {
      HitsAreRivals(m, op, asBool, many, one, hs, ps, x, y);
    }
    if p, q :| Rivals(m, op, asBool, many, one, p, q) { var x, y := FoundAmong(m, op, asBool, many, one, hs, ps, p, q); }
    if p, q :| Clash(m, op, asBool, many, one, p, q) { var x, y := FoundAmong(m, op, asBool, many, one, hs, ps, p, q); }
  }

  lemma StandSize(m: Matching, op: Operator, asBool: bool, many: seq<Sample>, one: seq<Sample>, hs: seq<Hit>, ps: seq<Pair>)
    requires Stand(m, op, asBool, many, one, hs, ps)
    ensures |ps| == |hs|
  {
  }

  lemma KeptIn(m: Matching, op: Operator, asBool: bool, many: seq<Sample>, one: seq<Sample>, p: Pair)
    requires KeptAt(m, op, asBool, many, one, p.many, p.one)
    ensures p.many < |many|
  {
  }

  lemma Symmetric(m: Matching, op: Operator, asBool: bool, many: seq<Sample>, one: seq<Sample>, p: Pair, q: Pair)
    ensures Rivals(m, op, asBool, many, one, p, q) ==> Rivals(m, op, asBool, many, one, q, p)
    ensures Clash(m, op, asBool, many, one, p, q) ==> Clash(m, op, asBool, many, one, q, p)
  {
    hide KeptAt, Signature, LabelledAt;
  }

  /** There is no result exactly when two samples of the one side match alike, when two of a one-to-one
      match do and are both kept, or when two of a grouped match do and get the same labels. */
  lemma {:induction false} BinopFails(m: Matching, op: Operator, asBool: bool, lhs: seq<Sample>, rhs: seq<Sample>)
    requires m.card != ManyToMany
    ensures var r, many, one := Binop(m, op, asBool, lhs, rhs), ManySide(m, lhs, rhs), OneSide(m, lhs, rhs);
            var twice := exists i, j :: 0 <= i < j < |one| && Signature(m, one[i].metric) == Signature(m, one[j].metric);
            && r != Panic
            && (r == DuplicateSeries <==> twice)
            && (r == MultipleMatches <==> !twice && m.card == OneToOne && exists p, q :: Rivals(m, op, asBool, many, one, p, q))
            && (r == GroupClash <==> !twice && m.card != OneToOne && exists p, q :: Clash(m, op, asBool, many, one, p, q))
  {
    hide Hits, Rivals, Clash, RepeatsHit, RepeatsResult, Signature;
    var many, one := ManySide(m, lhs, rhs), OneSide(m, lhs, rhs);
    if !RepeatsSignature(m, one) { RepeatsAre(m, op, asBool, many, one); }
  }
}
