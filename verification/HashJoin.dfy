/** Binary operators between instant vectors. The evaluator hashes one side by match signature and
    probes it with the other side; the reference is the nested-loop join. */
module HashJoin {
  import opened Common

  datatype Sample = Sample(metric: Labels, v: real)

  datatype Card = OneToOne | ManyToOne | OneToMany | ManyToMany

  datatype Matching = Matching(card: Card, on: bool, names: set<string>, included: set<string>)

  /** `apply` gives a value and whether a comparison holds; arithmetic operators drop the metric name. */
  datatype Operator = Operator(apply: (real, real) -> (real, bool), dropsName: bool)

  datatype Result = Panic | DuplicateSeries | MultipleMatches | GroupClash | Ok(out: seq<Sample>)

  function Get(l: Labels, k: string): string { if k in l.pairs then l.pairs[k] else "" }

  /** The labels a match looks at. */
  predicate InSignature(m: Matching, k: string) {
    if m.on then k in m.names else k != NAME && k !in m.names
  }

  function Signature(m: Matching, l: Labels): Labels {
    Labels(map k | k in l.pairs && InSignature(m, k) :: l.pairs[k])
  }

  /** Labels taken away from the many side. */
  predicate Deleted(m: Matching, dropsName: bool, k: string) {
    || (dropsName && k == NAME)
    || (m.card == OneToOne && if m.on then k !in m.names else k in m.names)
  }

  function ResultAt(m: Matching, dropsName: bool, l: Labels, r: Labels, k: string): string {
    if k in m.included then Get(r, k) else if Deleted(m, dropsName, k) then "" else Get(l, k)
  }

  function ResultMetric(m: Matching, dropsName: bool, l: Labels, r: Labels): Labels {
    Labels(map k | k in l.pairs.Keys + r.pairs.Keys && ResultAt(m, dropsName, l, r, k) != "" :: ResultAt(m, dropsName, l, r, k))
  }

  /** The output for one matching pair, or nothing when a filter drops it. `l` is of the many side. */
  function Emit(m: Matching, op: Operator, asBool: bool, l: Sample, r: Sample): Option<Sample> {
    var (vl, vr) := if m.card == OneToMany then (r.v, l.v) else (l.v, r.v);
    var (value, keep) := op.apply(vl, vr);
    if !asBool && !keep then None
    else
      var metric := ResultMetric(m, op.dropsName, l.metric, r.metric);
      if asBool then Some(Sample(DropName(metric), if keep then 1.0 else 0.0)) else Some(Sample(metric, value))
  }

  // ---------- the nested-loop join ----------

  datatype Hit = Hit(sig: Labels, sample: Sample)

  /** One sample of the many side against every sample of the other. */
  function Row(m: Matching, op: Operator, asBool: bool, l: Sample, one: seq<Sample>): seq<Hit> {
    if one == [] then []
    else
      var r := one[|one| - 1];
      Row(m, op, asBool, l, one[..|one| - 1])
      + if Signature(m, l.metric) == Signature(m, r.metric) && Emit(m, op, asBool, l, r).Some?
        then [Hit(Signature(m, l.metric), Emit(m, op, asBool, l, r).value)] else []
  }

  function Hits(m: Matching, op: Operator, asBool: bool, many: seq<Sample>, one: seq<Sample>): seq<Hit> {
    if many == [] then []
    else Hits(m, op, asBool, many[..|many| - 1], one) + Row(m, op, asBool, many[|many| - 1], one)
  }

  function Samples(hs: seq<Hit>): seq<Sample> { seq(|hs|, i requires 0 <= i < |hs| => hs[i].sample) }

  ghost predicate RepeatsSignature(m: Matching, s: seq<Sample>) {
    exists i, j :: 0 <= i < j < |s| && Signature(m, s[i].metric) == Signature(m, s[j].metric)
  }

  ghost predicate RepeatsHit(hs: seq<Hit>) { exists i, j :: 0 <= i < j < |hs| && hs[i].sig == hs[j].sig }

  ghost predicate RepeatsResult(hs: seq<Hit>) {
    exists i, j :: 0 <= i < j < |hs| && hs[i].sig == hs[j].sig && hs[i].sample.metric == hs[j].sample.metric
  }

  /** The reference: all kept matching pairs in the order of the many side, unless the other side repeats
      a signature, a one-to-one signature is kept twice, or a grouped match repeats a result. */
  ghost function Join(m: Matching, op: Operator, asBool: bool, many: seq<Sample>, one: seq<Sample>): Result {
    var hs := Hits(m, op, asBool, many, one);
    if RepeatsSignature(m, one) then DuplicateSeries
    else if m.card == OneToOne && RepeatsHit(hs) then MultipleMatches
    else if m.card != OneToOne && RepeatsResult(hs) then GroupClash
    else Ok(Samples(hs))
  }

  ghost function Binop(m: Matching, op: Operator, asBool: bool, lhs: seq<Sample>, rhs: seq<Sample>): Result {
    match m.card
    case ManyToMany => Panic
    case OneToMany => Join(m, op, asBool, rhs, lhs)
    case _ => Join(m, op, asBool, lhs, rhs)
  }

  // ---------- the hash join ----------

  ghost predicate Hashes(m: Matching, sigs: map<Labels, Sample>, s: seq<Sample>) {
    && (forall i :: 0 <= i < |s| ==> Signature(m, s[i].metric) in sigs && sigs[Signature(m, s[i].metric)] == s[i])
    && (forall sig :: sig in sigs ==> exists i :: 0 <= i < |s| && Signature(m, s[i].metric) == sig)
  }

  method HashOne(m: Matching, one: seq<Sample>) returns (ok: bool, sigs: map<Labels, Sample>)
    ensures ok <==> !RepeatsSignature(m, one)
    ensures ok ==> Hashes(m, sigs, one)
  {
    hide Signature;
    sigs := map[];
    var i := 0;
    while i < |one|
      invariant 0 <= i <= |one|
      invariant Hashes(m, sigs, one[..i]) && !RepeatsSignature(m, one[..i])
    {
      var sig := Signature(m, one[i].metric);
      if sig in sigs {
        var j :| 0 <= j < i && Signature(m, one[..i][j].metric) == sig;
        assert one[..i][j] == one[j];
        return false, sigs;
      }
      ghost var was := sigs;
      sigs := sigs[sig := one[i]];
      HashMore(m, was, one[..i], one[i]);
      assert one[..i] + [one[i]] == one[..i + 1];
      i := i + 1;
    }
    assert one[..i] == one;
    ok := true;
  }

  lemma {:induction false} HashMore(m: Matching, sigs: map<Labels, Sample>, s: seq<Sample>, x: Sample)
    requires Hashes(m, sigs, s) && !RepeatsSignature(m, s) && Signature(m, x.metric) !in sigs
    ensures Hashes(m, sigs[Signature(m, x.metric) := x], s + [x]) && !RepeatsSignature(m, s + [x])
  {
    hide Signature;
    var t := s + [x];
    var sigs' := sigs[Signature(m, x.metric) := x];
    forall sig | sig in sigs' ensures exists i :: 0 <= i < |t| && Signature(m, t[i].metric) == sig {
      if sig in sigs { var i :| 0 <= i < |s| && Signature(m, s[i].metric) == sig; assert t[i] == s[i]; }
      else { assert t[|s|] == x; }
    }
  }

  /** With unique signatures a row is at most the one hit the hash finds. */
  lemma {:induction false} RowIsProbe(m: Matching, op: Operator, asBool: bool, l: Sample, one: seq<Sample>, sigs: map<Labels, Sample>)
    requires Hashes(m, sigs, one) && !RepeatsSignature(m, one)
    ensures var sig := Signature(m, l.metric);
            Row(m, op, asBool, l, one)
            == if sig in sigs && Emit(m, op, asBool, l, sigs[sig]).Some? then [Hit(sig, Emit(m, op, asBool, l, sigs[sig]).value)] else []
  {
    hide Signature, Emit;
    var sig := Signature(m, l.metric);
    if sig in sigs {
      var i :| 0 <= i < |one| && Signature(m, one[i].metric) == sig;
      assert sigs[sig] == one[i];
      RowSingle(m, op, asBool, l, one, i);
    } else {
      RowNone(m, op, asBool, l, one);
    }
  }

  lemma {:induction false} RowNone(m: Matching, op: Operator, asBool: bool, l: Sample, one: seq<Sample>)
    requires forall i :: 0 <= i < |one| ==> Signature(m, one[i].metric) != Signature(m, l.metric)
    ensures Row(m, op, asBool, l, one) == []
  {
    hide Signature, Emit;
    if one != [] { RowNone(m, op, asBool, l, one[..|one| - 1]); }
  }

  lemma {:induction false} RowSingle(m: Matching, op: Operator, asBool: bool, l: Sample, one: seq<Sample>, i: nat)
    requires i < |one| && Signature(m, one[i].metric) == Signature(m, l.metric) && !RepeatsSignature(m, one)
    ensures Row(m, op, asBool, l, one)
            == if Emit(m, op, asBool, l, one[i]).Some? then [Hit(Signature(m, l.metric), Emit(m, op, asBool, l, one[i]).value)] else []
    decreases |one|
  {
    hide Signature, Emit;
    var n := |one| - 1;
    var before := one[..n];
    assert !RepeatsSignature(m, before) by {
      forall a, b | 0 <= a < b < n ensures Signature(m, before[a].metric) != Signature(m, before[b].metric) {
        assert one[a] == before[a] && one[b] == before[b];
      }
    }
    if i < n {
      RowSingle(m, op, asBool, l, before, i);
      assert Signature(m, one[i].metric) != Signature(m, one[n].metric);
    } else {
      forall a | 0 <= a < n ensures Signature(m, before[a].metric) != Signature(m, l.metric) {
        assert Signature(m, one[a].metric) != Signature(m, one[n].metric);
      }
      RowNone(m, op, asBool, l, before);
    }
  }

  /** What the probe remembers of its hits: their signatures and, when grouping, their results. */
  ghost predicate Remembers(grouped: bool, matched: map<Labels, set<Labels>>, hs: seq<Hit>) {
    && (forall sig :: sig in matched <==> exists i :: 0 <= i < |hs| && hs[i].sig == sig)
    && (grouped ==> forall sig, metric :: sig in matched ==>
          (metric in matched[sig] <==> exists i :: 0 <= i < |hs| && hs[i].sig == sig && hs[i].sample.metric == metric))
  }

  /** Whether a hit repeats an earlier one, in the sense that matters for the cardinality. */
  ghost predicate Repeats(grouped: bool, hs: seq<Hit>) { if grouped then RepeatsResult(hs) else RepeatsHit(hs) }

  predicate Known(grouped: bool, matched: map<Labels, set<Labels>>, h: Hit) {
    h.sig in matched && (grouped ==> h.sample.metric in matched[h.sig])
  }

  function Noted(grouped: bool, matched: map<Labels, set<Labels>>, h: Hit): map<Labels, set<Labels>> {
    matched[h.sig := if !grouped then {} else (if h.sig in matched then matched[h.sig] else {}) + {h.sample.metric}]
  }

  lemma {:induction false} KnownRepeats(grouped: bool, matched: map<Labels, set<Labels>>, hs: seq<Hit>, h: Hit)
    requires Remembers(grouped, matched, hs) && !Repeats(grouped, hs)
    ensures Repeats(grouped, hs + [h]) <==> Known(grouped, matched, h)
  {
    var all := hs + [h];
    assert all[|hs|] == h;
    if Known(grouped, matched, h) {
      if grouped {
        var i :| 0 <= i < |hs| && hs[i].sig == h.sig && hs[i].sample.metric == h.sample.metric;
        assert all[i] == hs[i];
      } else {
        var i :| 0 <= i < |hs| && hs[i].sig == h.sig;
        assert all[i] == hs[i];
      }
    }
    if Repeats(grouped, all) {
      var i, j :| 0 <= i < j < |all| && all[i].sig == all[j].sig && (grouped ==> all[i].sample.metric == all[j].sample.metric);
      assert forall a :: 0 <= a < |hs| ==> all[a] == hs[a];
    }
  }

  lemma {:induction false} RemembersMore(grouped: bool, matched: map<Labels, set<Labels>>, hs: seq<Hit>, h: Hit)
    requires Remembers(grouped, matched, hs)
    ensures Remembers(grouped, Noted(grouped, matched, h), hs + [h])
  {
    var all, noted := hs + [h], Noted(grouped, matched, h);
    assert all[|hs|] == h;
    forall sig ensures sig in noted <==> exists i :: 0 <= i < |all| && all[i].sig == sig {
      if sig in matched { var i :| 0 <= i < |hs| && hs[i].sig == sig; assert all[i] == hs[i]; }
      if i :| 0 <= i < |all| && all[i].sig == sig { if i < |hs| { assert hs[i] == all[i]; } }
    }
    if grouped {
      forall sig, metric | sig in noted
        ensures metric in noted[sig] <==> exists i :: 0 <= i < |all| && all[i].sig == sig && all[i].sample.metric == metric
      {
        if sig in matched && metric in matched[sig] {
          var i :| 0 <= i < |hs| && hs[i].sig == sig && hs[i].sample.metric == metric;
          assert all[i] == hs[i];
        }
        if i :| 0 <= i < |all| && all[i].sig == sig && all[i].sample.metric == metric { if i < |hs| { assert hs[i] == all[i]; } }
      }
    }
  }

  lemma {:induction false} RepeatsMore(grouped: bool, hs: seq<Hit>, more: seq<Hit>)
    requires Repeats(grouped, hs)
    ensures Repeats(grouped, hs + more)
  {
    var i, j :| 0 <= i < j < |hs| && hs[i].sig == hs[j].sig && (grouped ==> hs[i].sample.metric == hs[j].sample.metric);
    assert (hs + more)[i] == hs[i] && (hs + more)[j] == hs[j];
  }

  lemma {:induction false} HitsPrefix(m: Matching, op: Operator, asBool: bool, many: seq<Sample>, one: seq<Sample>, k: nat)
    requires k <= |many| && Repeats(m.card != OneToOne, Hits(m, op, asBool, many[..k], one))
    ensures Repeats(m.card != OneToOne, Hits(m, op, asBool, many, one))
    decreases |many| - k
  {
    if k == |many| {
      assert many[..k] == many;
    } else {
      assert many[..k + 1][..k] == many[..k];
      RepeatsMore(m.card != OneToOne, Hits(m, op, asBool, many[..k], one), Row(m, op, asBool, many[k], one));
      HitsPrefix(m, op, asBool, many, one, k + 1);
    }
  }

  lemma SamplesMore(hs: seq<Hit>, h: Hit)
    ensures Samples(hs + [h]) == Samples(hs) + [h.sample] && Samples(hs + []) == Samples(hs)
  {
    assert hs + [] == hs;
  }

  /** Probes the hash with the many side, in order. */
  method Probe(m: Matching, op: Operator, asBool: bool, many: seq<Sample>, sigs: map<Labels, Sample>, ghost one: seq<Sample>)
    returns (ok: bool, out: seq<Sample>)
    requires Hashes(m, sigs, one) && !RepeatsSignature(m, one)
    ensures ok <==> !Repeats(m.card != OneToOne, Hits(m, op, asBool, many, one))
    ensures ok ==> out == Samples(Hits(m, op, asBool, many, one))
  {
    hide Hashes, RepeatsSignature, Row, Hits, Samples, Signature, Emit, Remembers, Repeats, Noted, Known;
    var grouped := m.card != OneToOne;
    var matched: map<Labels, set<Labels>> := map[];
    out := [];
    var i := 0;
    NothingYet(grouped);
    NoHits(m, op, asBool, many, one);
    while i < |many|
      invariant 0 <= i <= |many|
      invariant var hs := Hits(m, op, asBool, many[..i], one); out == Samples(hs) && Remembers(grouped, matched, hs) && !Repeats(grouped, hs)
    {
      ghost var hs := Hits(m, op, asBool, many[..i], one);
      var l := many[i];
      var sig := Signature(m, l.metric);
      RowIsProbe(m, op, asBool, l, one, sigs);
      ghost var row := Row(m, op, asBool, l, one);
      HitsMore(m, op, asBool, many, one, i);
      if sig in sigs {
        var e := Emit(m, op, asBool, l, sigs[sig]);
        if e.Some? {
          var h := Hit(sig, e.value);
          SamplesMore(hs, h);
          KnownRepeats(grouped, matched, hs, h);
          if Known(grouped, matched, h) {
            HitsPrefix(m, op, asBool, many, one, i + 1);
            return false, out;
          }
          RemembersMore(grouped, matched, hs, h);
          matched := Noted(grouped, matched, h);
          out := out + [e.value];
        } else {
          assert hs + row == hs;
        }
      } else {
        assert hs + row == hs;
      }
      i := i + 1;
    }
    assert many[..i] == many;
    ok := true;
  }

  lemma NoHits(m: Matching, op: Operator, asBool: bool, many: seq<Sample>, one: seq<Sample>)
    ensures Hits(m, op, asBool, many[..0], one) == [] && Samples([]) == []
  {
  }

  lemma HitsMore(m: Matching, op: Operator, asBool: bool, many: seq<Sample>, one: seq<Sample>, i: nat)
    requires i < |many|
    ensures Hits(m, op, asBool, many[..i + 1], one) == Hits(m, op, asBool, many[..i], one) + Row(m, op, asBool, many[i], one)
  {
    assert many[..i + 1][..i] == many[..i];
  }

  lemma NothingYet(grouped: bool)
    ensures Remembers(grouped, map[], []) && !Repeats(grouped, [])
  {
  }

  /** The hash join is the nested-loop join, errors included. */
  method VectorBinop(m: Matching, op: Operator, asBool: bool, lhs: seq<Sample>, rhs: seq<Sample>) returns (r: Result)
    ensures r == Binop(m, op, asBool, lhs, rhs)
  {
    if m.card == ManyToMany { return Panic; }
    var many, one := lhs, rhs;
    if m.card == OneToMany { many, one := rhs, lhs; }
    var unique, sigs := HashOne(m, one);
    if !unique { return DuplicateSeries; }
    hide Hits, RepeatsSignature, Hashes, RepeatsHit, RepeatsResult;
    var ok, out := Probe(m, op, asBool, many, sigs, one);
    if ok { r := Ok(out); }
    else { r := if m.card == OneToOne then MultipleMatches else GroupClash; }
  }

  // ---------- properties of the join ----------

  /** An operator with its operands exchanged. */
  function Flipped(op: Operator): Operator { op.(apply := (x, y) => op.apply(y, x)) }

  lemma {:induction false} EmitSwapped(m: Matching, op: Operator, asBool: bool, l: Sample, r: Sample)
    requires m.card == OneToMany
    ensures Emit(m, op, asBool, l, r) == Emit(m.(card := ManyToOne), Flipped(op), asBool, l, r)
  {
    var m' := m.(card := ManyToOne);
    SameLabels(m, m', op.dropsName, l.metric, r.metric);
  }

  lemma SameLabels(m: Matching, m': Matching, drops: bool, l: Labels, r: Labels)
    requires m.card == OneToMany && m' == m.(card := ManyToOne)
    ensures ResultMetric(m, drops, l, r) == ResultMetric(m', drops, l, r)
  {
    forall k ensures ResultAt(m, drops, l, r, k) == ResultAt(m', drops, l, r, k) {}
    hide ResultAt;
  }

  lemma SameSignature(m: Matching, m': Matching, l: Labels)
    requires m' == m.(card := m'.card)
    ensures Signature(m, l) == Signature(m', l)
  {
    forall k ensures InSignature(m, k) == InSignature(m', k) {}
    hide InSignature;
  }

  lemma {:induction false} RowSwapped(m: Matching, op: Operator, asBool: bool, l: Sample, one: seq<Sample>)
    requires m.card == OneToMany
    ensures Row(m, op, asBool, l, one) == Row(m.(card := ManyToOne), Flipped(op), asBool, l, one)
  {
    hide Signature, Emit;
    if one != [] {
      var r := one[|one| - 1];
      RowSwapped(m, op, asBool, l, one[..|one| - 1]);
      EmitSwapped(m, op, asBool, l, r);
      SameSignature(m, m.(card := ManyToOne), l.metric);
      SameSignature(m, m.(card := ManyToOne), r.metric);
    }
  }

  lemma {:induction false} HitsSwapped(m: Matching, op: Operator, asBool: bool, many: seq<Sample>, one: seq<Sample>)
    requires m.card == OneToMany
    ensures Hits(m, op, asBool, many, one) == Hits(m.(card := ManyToOne), Flipped(op), asBool, many, one)
  {
    if many != [] {
      HitsSwapped(m, op, asBool, many[..|many| - 1], one);
      RowSwapped(m, op, asBool, many[|many| - 1], one);
    }
  }

  /** One-to-many is many-to-one with the sides, and the operands, exchanged. */
  lemma {:induction false} OneToManyIsSwapped(m: Matching, op: Operator, asBool: bool, lhs: seq<Sample>, rhs: seq<Sample>)
    requires m.card == OneToMany
    ensures Binop(m, op, asBool, lhs, rhs) == Binop(m.(card := ManyToOne), Flipped(op), asBool, rhs, lhs)
  {
    var m' := m.(card := ManyToOne);
    HitsSwapped(m, op, asBool, rhs, lhs);
    assert RepeatsSignature(m, lhs) == RepeatsSignature(m', lhs) by {
      forall i | 0 <= i < |lhs| ensures Signature(m, lhs[i].metric) == Signature(m', lhs[i].metric) { SameSignature(m, m', lhs[i].metric); }
      hide Signature;
    }
    hide Hits, RepeatsSignature, RepeatsResult;
  }

  // ---------- results carry their signature ----------

  ghost predicate Clean(l: Labels) { forall k :: k in l.pairs ==> l.pairs[k] != "" }

  /** The metric name is matched on, but dropped from the result: by `bool`, or by the operator unless the
      name is copied from the other side. */
  predicate MatchesDroppedName(m: Matching, op: Operator, asBool: bool) {
    m.on && NAME in m.names && (asBool || (op.dropsName && NAME !in m.included))
  }

  ghost function EmittedMetric(m: Matching, op: Operator, asBool: bool, l: Labels, r: Labels): Labels {
    var metric := ResultMetric(m, op.dropsName, l, r);
    if asBool then DropName(metric) else metric
  }

  lemma CleanEqual(a: Labels, b: Labels)
    requires Clean(a) && Clean(b) && forall k :: Get(a, k) == Get(b, k)
    ensures a == b
  {
    forall k ensures k in a.pairs <==> k in b.pairs
      ensures k in a.pairs ==> a.pairs[k] == b.pairs[k]
    {
      assert Get(a, k) == Get(b, k);
    }
    assert a.pairs == b.pairs;
  }

  lemma GetSignature(m: Matching, l: Labels, k: string)
    ensures Get(Signature(m, l), k) == if InSignature(m, k) then Get(l, k) else ""
  {
    hide InSignature;
  }

  lemma GetEmitted(m: Matching, op: Operator, asBool: bool, l: Labels, r: Labels, k: string)
    ensures Get(EmittedMetric(m, op, asBool, l, r), k) == if asBool && k == NAME then "" else ResultAt(m, op.dropsName, l, r, k)
  {
    assert k !in l.pairs && k !in r.pairs ==> ResultAt(m, op.dropsName, l, r, k) == "";
    hide ResultAt;
  }

  lemma {:induction false} SignatureKept(m: Matching, op: Operator, asBool: bool, l: Labels, r: Labels, k: string)
    requires Clean(l) && Clean(r) && Signature(m, l) == Signature(m, r) && !MatchesDroppedName(m, op, asBool) && InSignature(m, k)
    ensures Get(EmittedMetric(m, op, asBool, l, r), k) == Get(Signature(m, l), k)
  {
    GetSignature(m, l, k);
    GetSignature(m, r, k);
    GetEmitted(m, op, asBool, l, r, k);
    hide Signature, EmittedMetric, Get;
  }

  /** A result still has the labels it was matched by, unless the metric name was one of them and is
      dropped. */
  lemma {:induction false} ResultCarriesSignature(m: Matching, op: Operator, asBool: bool, l: Labels, r: Labels)
    requires Clean(l) && Clean(r) && Signature(m, l) == Signature(m, r) && !MatchesDroppedName(m, op, asBool)
    ensures Signature(m, EmittedMetric(m, op, asBool, l, r)) == Signature(m, l)
  {
    var e := EmittedMetric(m, op, asBool, l, r);
    forall k ensures Get(Signature(m, e), k) == Get(Signature(m, l), k) {
      GetSignature(m, e, k);
      GetSignature(m, l, k);
      if InSignature(m, k) { SignatureKept(m, op, asBool, l, r, k); }
      hide Signature, EmittedMetric, Get, InSignature;
    }
    assert Clean(Signature(m, e)) && Clean(Signature(m, l));
    CleanEqual(Signature(m, e), Signature(m, l));
  }

  ghost predicate AllClean(s: seq<Sample>) { forall i :: 0 <= i < |s| ==> Clean(s[i].metric) }

  ghost predicate Carry(m: Matching, hs: seq<Hit>) { forall i :: 0 <= i < |hs| ==> Signature(m, hs[i].sample.metric) == hs[i].sig }

  lemma {:induction false} RowCarries(m: Matching, op: Operator, asBool: bool, l: Sample, one: seq<Sample>)
    requires Clean(l.metric) && AllClean(one) && !MatchesDroppedName(m, op, asBool)
    ensures Carry(m, Row(m, op, asBool, l, one))
  {
    hide Signature, Clean, MatchesDroppedName;
    if one != [] {
      var r := one[|one| - 1];
      RowCarries(m, op, asBool, l, one[..|one| - 1]);
      if Signature(m, l.metric) == Signature(m, r.metric) {
        ResultCarriesSignature(m, op, asBool, l.metric, r.metric);
        hide ResultMetric, DropName;
        assert Emit(m, op, asBool, l, r).Some? ==> Emit(m, op, asBool, l, r).value.metric == EmittedMetric(m, op, asBool, l.metric, r.metric);
      }
    }
  }

  lemma {:induction false} HitsCarry(m: Matching, op: Operator, asBool: bool, many: seq<Sample>, one: seq<Sample>)
    requires AllClean(many) && AllClean(one) && !MatchesDroppedName(m, op, asBool)
    ensures Carry(m, Hits(m, op, asBool, many, one))
  {
    hide Signature, Clean, MatchesDroppedName;
    if many != [] {
      HitsCarry(m, op, asBool, many[..|many| - 1], one);
      RowCarries(m, op, asBool, many[|many| - 1], one);
    }
  }

  /** No label set occurs twice in a normal result. */
  ghost predicate DistinctResults(r: Result) {
    r.Ok? ==> forall i, j :: 0 <= i < j < |r.out| ==> r.out[i].metric != r.out[j].metric
  }

  /** A normal result never holds two samples with the same labels, although only samples with the same
      signature are compared with one another. */
  lemma {:induction false} ResultsDistinct(m: Matching, op: Operator, asBool: bool, lhs: seq<Sample>, rhs: seq<Sample>)
    requires AllClean(lhs) && AllClean(rhs) && !MatchesDroppedName(m, op, asBool)
    ensures var r := Binop(m, op, asBool, lhs, rhs);
            DistinctResults(r)
  {
    var r := Binop(m, op, asBool, lhs, rhs);
    if r.Ok? {
      var many, one := if m.card == OneToMany then rhs else lhs, if m.card == OneToMany then lhs else rhs;
      var hs := Hits(m, op, asBool, many, one);
      HitsCarry(m, op, asBool, many, one);
      hide Hits, Signature;
      forall i, j | 0 <= i < j < |r.out| ensures r.out[i].metric != r.out[j].metric {
        assert r.out[i] == hs[i].sample && r.out[j] == hs[j].sample;
        assert hs[i].sig == Signature(m, hs[i].sample.metric) && hs[j].sig == Signature(m, hs[j].sample.metric);
      }
    }
  }

  // ---------- when results collide ----------

  function Named(name: string): Sample { Sample(Labels(map[NAME := name]), 1.0) }

  lemma {:induction false} NamedSignature(m: Matching, name: string)
    requires m.on && NAME in m.names && name != ""
    ensures Clean(Named(name).metric) && Get(Signature(m, Named(name).metric), NAME) == name
  {
  }

  /** A dropped name leaves no labels at all. */
  lemma {:induction false} NamedResult(m: Matching, op: Operator, asBool: bool, name: string)
    requires MatchesDroppedName(m, op, asBool)
    ensures EmittedMetric(m, op, asBool, Named(name).metric, Named(name).metric) == Labels(map[])
  {
    var l := Named(name).metric;
    forall k ensures Get(EmittedMetric(m, op, asBool, l, l), k) == "" { GetEmitted(m, op, asBool, l, l, k); }
    assert Clean(EmittedMetric(m, op, asBool, l, l)) && Clean(Labels(map[]));
    hide EmittedMetric;
    CleanEqual(EmittedMetric(m, op, asBool, l, l), Labels(map[]));
  }

  /** Arithmetic operators keep every pair; comparisons may drop some, but keep the name. */
  ghost predicate KeepsAll(op: Operator) { forall x, y :: op.apply(x, y).1 }

  lemma {:induction false} NamedEmitted(m: Matching, op: Operator, asBool: bool, name: string)
    requires MatchesDroppedName(m, op, asBool) && (op.dropsName ==> KeepsAll(op))
    ensures var e := Emit(m, op, asBool, Named(name), Named(name)); e.Some? && e.value.metric == Labels(map[])
  {
    NamedResult(m, op, asBool, name);
    hide ResultMetric, DropName;
  }

  /** Two names on either side: two results, both without labels. */
  lemma {:induction false} DroppedNameCollides(m: Matching, op: Operator, asBool: bool)
    requires m.card != ManyToMany && MatchesDroppedName(m, op, asBool) && (op.dropsName ==> KeepsAll(op))
    ensures var vs := [Named("a"), Named("b")];
            var r := Binop(m, op, asBool, vs, vs);
            AllClean(vs) && r.Ok? && |r.out| == 2 && r.out[0].metric == r.out[1].metric
  {
    hide Signature, Emit, MatchesDroppedName, KeepsAll, Named;
    var a, b := Named("a"), Named("b");
    var vs := [a, b];
    assert "a"[0] != "b"[0];
    NamedApart(m, op, asBool);
    NamedEmitted(m, op, asBool, "a");
    NamedEmitted(m, op, asBool, "b");
    RowSingle(m, op, asBool, a, vs, 0);
    RowSingle(m, op, asBool, b, vs, 1);
    NoHits(m, op, asBool, vs, vs);
    HitsMore(m, op, asBool, vs, vs, 0);
    HitsMore(m, op, asBool, vs, vs, 1);
    assert vs[..2] == vs;
    hide Hits, Row;
    var hs := Hits(m, op, asBool, vs, vs);
    assert |hs| == 2 && hs[0].sig != hs[1].sig;
  }

  lemma {:induction false} NamedApart(m: Matching, op: Operator, asBool: bool)
    requires MatchesDroppedName(m, op, asBool)
    ensures var a, b := Named("a"), Named("b");
            && Clean(a.metric) && Clean(b.metric) && Signature(m, a.metric) != Signature(m, b.metric)
            && !RepeatsSignature(m, [a, b])
  {
    assert "a"[0] != "b"[0];
    NamedSignature(m, "a");
    NamedSignature(m, "b");
    hide Signature, Named, Clean;
  }

  /** Label sets are distinct in every normal result, whatever the inputs, if and only if the match is not
      on a name that is dropped. */
  lemma {:induction false} ResultsDistinctIff(m: Matching, op: Operator, asBool: bool)
    requires m.card != ManyToMany && (op.dropsName ==> KeepsAll(op))
    ensures (forall lhs, rhs :: AllClean(lhs) && AllClean(rhs) ==> DistinctResults(Binop(m, op, asBool, lhs, rhs)))
            <==> !MatchesDroppedName(m, op, asBool)
  {
    hide Binop, AllClean, MatchesDroppedName, KeepsAll;
    if MatchesDroppedName(m, op, asBool) {
      DroppedNameCollides(m, op, asBool);
      var vs := [Named("a"), Named("b")];
      assert AllClean(vs) && !DistinctResults(Binop(m, op, asBool, vs, vs));
    } else {
      forall lhs, rhs | AllClean(lhs) && AllClean(rhs) ensures DistinctResults(Binop(m, op, asBool, lhs, rhs)) {
        ResultsDistinct(m, op, asBool, lhs, rhs);
      }
    }
  }
}
