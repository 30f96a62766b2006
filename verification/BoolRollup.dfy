/** Boolean rollups: raw readings summarised per block, and block summaries combined into the
    summary of a longer window. Times and durations are whole milliseconds. */
module BoolRollup {
  import opened Common

  /** One raw reading. A value holds until the next reading; the first also holds backwards to
      the start of the window, the last forwards to its end. */
  datatype Reading = Reading(t: int, v: bool)

  datatype Item = Item(
    firstTrue: Option<int>, firstFalse: Option<int>, lastTrue: Option<int>, lastFalse: Option<int>,
    lastValue: bool, trueCnt: int, trueMs: int, falseCnt: int, falseMs: int)

  predicate Ordered(d: seq<Reading>) {
    forall i, j :: 0 <= i < j < |d| ==> d[i].t < d[j].t
  }

  // ---------- what a summary says ----------

  function Count(d: seq<Reading>, b: bool): int {
    if d == [] then 0 else Count(d[..|d| - 1], b) + (if d[|d| - 1].v == b then 1 else 0)
  }

  /** The counts are the numbers of readings with either value. */
  lemma {:induction false} CountIs(d: seq<Reading>, b: bool)
    ensures Count(d, b) == |Where(d, b)| && Count(d, true) + Count(d, false) == |d|
  {
    if d != [] {
      var n := |d| - 1;
      CountIs(d[..n], b);
      var before, now := Where(d[..n], b), Where(d, b);
      assert now == if d[n].v == b then before + {n} else before;
    }
  }

  ghost function Where(d: seq<Reading>, b: bool): set<nat> { set i: nat | i < |d| && d[i].v == b }

  function First(d: seq<Reading>, b: bool): Option<int> {
    if d == [] then None
    else
      var f := First(d[..|d| - 1], b);
      if f.Some? then f else if d[|d| - 1].v == b then Some(d[|d| - 1].t) else None
  }

  function Last(d: seq<Reading>, b: bool): Option<int> {
    if d == [] then None
    else if d[|d| - 1].v == b then Some(d[|d| - 1].t)
    else Last(d[..|d| - 1], b)
  }

  /** How long the value was `b` between `start` and `end`. */
  function Held(d: seq<Reading>, b: bool, start: int, end: int): int {
    if d == [] then 0
    else
      var x := d[|d| - 1];
      if |d| == 1 then if x.v == b then end - start else 0
      else (if x.v == b then end - x.t else 0) + Held(d[..|d| - 1], b, start, x.t)
  }

  function Summary(d: seq<Reading>, start: int, end: int): Item
    requires d != []
  {
    Item(First(d, true), First(d, false), Last(d, true), Last(d, false), d[|d| - 1].v,
         Count(d, true), Held(d, true, start, end), Count(d, false), Held(d, false, start, end))
  }

  /** Every millisecond of the window is accounted to exactly one value. */
  lemma {:induction false} HeldConserves(d: seq<Reading>, start: int, end: int)
    requires d != []
    ensures Held(d, true, start, end) + Held(d, false, start, end) == end - start
  {
    if |d| > 1 { HeldConserves(d[..|d| - 1], start, d[|d| - 1].t); }
  }

  /** Durations are never negative when the readings lie inside the window. */
  lemma {:induction false} HeldNonNegative(d: seq<Reading>, b: bool, start: int, end: int)
    requires Ordered(d) && start <= end
    requires forall k :: 0 <= k < |d| ==> start <= d[k].t <= end
    ensures Held(d, b, start, end) >= 0
  {
    if |d| > 1 { HeldNonNegative(d[..|d| - 1], b, start, d[|d| - 1].t); }
  }

  lemma {:induction false} HeldEnd(d: seq<Reading>, b: bool, start: int, end: int, end': int)
    requires d != []
    ensures Held(d, b, start, end') == Held(d, b, start, end) + (if d[|d| - 1].v == b then end' - end else 0)
  {
  }

  lemma {:induction false} HeldStart(d: seq<Reading>, b: bool, start: int, end: int, start': int)
    requires d != []
    ensures Held(d, b, start', end) == Held(d, b, start, end) + (if d[0].v == b then start - start' else 0)
  {
    if |d| > 1 { HeldStart(d[..|d| - 1], b, start, d[|d| - 1].t, start'); }
  }

  /** Joining two blocks: the gap between them belongs to the value that held last, and the second
      block's backward extension is given back. */
  lemma {:induction false} HeldConcat(a: seq<Reading>, c: seq<Reading>, b: bool, s1: int, e1: int, s2: int, e2: int)
    requires a != [] && c != []
    ensures Held(a + c, b, s1, e2)
         == Held(a, b, s1, e1) + Held(c, b, s2, e2)
            + (if a[|a| - 1].v == b then c[0].t - e1 else 0) - (if c[0].v == b then c[0].t - s2 else 0)
  {
    var n := |c| - 1;
    assert (a + c)[..|a + c| - 1] == a + c[..n];
    if n == 0 {
      assert a + c[..n] == a;
      HeldEnd(a, b, s1, e1, c[0].t);
    } else {
      HeldConcat(a, c[..n], b, s1, e1, s2, c[n].t);
    }
  }

  lemma {:induction false} CountConcat(a: seq<Reading>, c: seq<Reading>, b: bool)
    ensures Count(a + c, b) == Count(a, b) + Count(c, b)
  {
    if c == [] { assert a + c == a; }
    else {
      assert (a + c)[..|a + c| - 1] == a + c[..|c| - 1];
      CountConcat(a, c[..|c| - 1], b);
    }
  }

  lemma {:induction false} FirstConcat(a: seq<Reading>, c: seq<Reading>, b: bool)
    ensures First(a + c, b) == if First(a, b).Some? then First(a, b) else First(c, b)
  {
    if c == [] { assert a + c == a; }
    else {
      assert (a + c)[..|a + c| - 1] == a + c[..|c| - 1];
      FirstConcat(a, c[..|c| - 1], b);
    }
  }

  lemma {:induction false} LastConcat(a: seq<Reading>, c: seq<Reading>, b: bool)
    ensures Last(a + c, b) == if Last(c, b).Some? then Last(c, b) else Last(a, b)
  {
    if c == [] { assert a + c == a; }
    else {
      assert (a + c)[..|a + c| - 1] == a + c[..|c| - 1];
      LastConcat(a, c[..|c| - 1], b);
    }
  }

  /** Comparing the two first times tells which value came first, and when. */
  lemma {:induction false} FirstIsHead(d: seq<Reading>)
    requires d != [] && Ordered(d)
    ensures First(d, d[0].v) == Some(d[0].t)
    ensures First(d, !d[0].v).Some? ==> d[0].t < First(d, !d[0].v).value
  {
    if |d| > 1 {
      var n := |d| - 1;
      FirstIsHead(d[..n]);
      assert d[..n][0] == d[0];
    } else {
      assert d[..0] == [];
    }
  }

  // ---------- aggregateBool ----------

  /** Counts readings and gathers the times of each value. */
  method Tally(data: seq<Reading>) returns (cnts: map<bool, int>, trues: seq<int>, falses: seq<int>)
    ensures cnts.Keys == {true, false}
    ensures cnts[true] == Count(data, true) == |trues| && cnts[false] == Count(data, false) == |falses|
    ensures First(data, true) == (if trues == [] then None else Some(trues[0]))
    ensures First(data, false) == (if falses == [] then None else Some(falses[0]))
    ensures Last(data, true) == (if trues == [] then None else Some(trues[|trues| - 1]))
    ensures Last(data, false) == (if falses == [] then None else Some(falses[|falses| - 1]))
  {
    cnts, trues, falses := map[true := 0, false := 0], [], [];
    var i := 0;
    while i < |data|
      invariant 0 <= i <= |data| && cnts.Keys == {true, false}
      invariant cnts[true] == Count(data[..i], true) == |trues| && cnts[false] == Count(data[..i], false) == |falses|
      invariant First(data[..i], true) == (if trues == [] then None else Some(trues[0]))
      invariant First(data[..i], false) == (if falses == [] then None else Some(falses[0]))
      invariant Last(data[..i], true) == (if trues == [] then None else Some(trues[|trues| - 1]))
      invariant Last(data[..i], false) == (if falses == [] then None else Some(falses[|falses| - 1]))
    {
      var f := data[i];
      assert data[..i + 1][..i] == data[..i];
      if f.v { trues := trues + [f.t]; } else { falses := falses + [f.t]; }
      cnts := cnts[f.v := cnts[f.v] + 1];
      i := i + 1;
    }
    assert data[..i] == data;
  }

  /** How long each value was held up to the start of the last run, and where runs started. */
  method Runs(data: seq<Reading>, start: int) returns (durations: map<bool, int>, firsts: map<bool, int>)
    requires data != []
    ensures durations.Keys == {true, false} && data[|data| - 1].v in firsts
    ensures forall b, x :: Held(data, b, start, x) == durations[b] + (if data[|data| - 1].v == b then x - firsts[data[|data| - 1].v] else 0)
  {
    var sentry := data[0].v;
    durations, firsts := map[true := 0, false := 0], map[sentry := data[0].t];
    durations := durations[sentry := data[0].t - start];
    var i := 0;
    while i < |data|
      invariant 0 <= i <= |data| && durations.Keys == {true, false} && sentry in firsts
      invariant i == 0 ==> sentry == data[0].v && firsts[sentry] == data[0].t
      invariant i == 0 ==> durations == map[true := 0, false := 0][sentry := data[0].t - start]
      invariant i > 0 ==> sentry == data[i - 1].v
      invariant i > 0 ==> forall b, x :: Held(data[..i], b, start, x)
                            == durations[b] + (if sentry == b then x - firsts[sentry] else 0)
    {
      var f := data[i];
      var v := f.v;
      assert data[..i + 1][..i] == data[..i];
      if v != sentry {
        firsts := firsts[v := f.t];
        durations := durations[!v := durations[!v] + (f.t - firsts[!v])];
        sentry := v;
      }
      i := i + 1;
    }
    assert data[..i] == data;
  }

  /** Summarises raw readings in one pass. */
  method AggregateBool(data: seq<Reading>, start: int, end: int) returns (r: Option<Item>)
    ensures r == if data == [] then None else Some(Summary(data, start, end))
  {
    if |data| == 0 { return None; }
    hide Count, First, Last, Held;
    var cnts, trues, falses := Tally(data);
    var durations, firsts := Runs(data, start);
    var lastValue := data[|data| - 1].v;
    durations := durations[lastValue := durations[lastValue] + (end - firsts[lastValue])];
    HeldConserves(data, start, end);
    var firstTrue, firstFalse, lastTrue, lastFalse := None, None, None, None;
    if cnts[true] > 0 { firstTrue, lastTrue := Some(trues[0]), Some(trues[cnts[true] - 1]); }
    if cnts[false] > 0 { firstFalse, lastFalse := Some(falses[0]), Some(falses[cnts[false] - 1]); }
    var trueMs, falseMs := 0, 0;
    if cnts[true] == 0 {
      falseMs := end - start;
      NeverHeld(data, true, start, end);
    } else if cnts[false] == 0 {
      trueMs := end - start;
      NeverHeld(data, false, start, end);
    } else {
      trueMs, falseMs := durations[true], durations[false];
    }
    r := Some(Item(firstTrue, firstFalse, lastTrue, lastFalse, lastValue, cnts[true], trueMs, cnts[false], falseMs));
  }

  lemma {:induction false} NeverHeld(d: seq<Reading>, b: bool, start: int, end: int)
    requires d != [] && Count(d, b) == 0
    ensures Held(d, b, start, end) == 0
  {
    CountNonNegative(d[..|d| - 1], b);
    if |d| > 1 { NeverHeld(d[..|d| - 1], b, start, d[|d| - 1].t); }
  }

  lemma {:induction false} CountNonNegative(d: seq<Reading>, b: bool)
    ensures Count(d, b) >= 0
  {
    if d != [] { CountNonNegative(d[..|d| - 1], b); }
  }

  // ---------- rollupBool ----------

  /** A stored summary and the end of the block it covers. */
  datatype Column = Column(item: Item, time: int)

  /** Summaries are only stored for blocks with readings. */
  predicate Stored(c: Column) {
    c.item.firstTrue.Some? || c.item.firstFalse.Some?
  }

  predicate FirstValue(i: Item) {
    i.firstFalse.None? || (i.firstTrue.Some? && i.firstTrue.value < i.firstFalse.value)
  }

  function FirstTime(c: Column): int
    requires Stored(c)
  {
    if FirstValue(c.item) then c.item.firstTrue.value else c.item.firstFalse.value
  }

  function Ms(i: Item, b: bool): int { if b then i.trueMs else i.falseMs }

  function Cnt(i: Item, b: bool): int { if b then i.trueCnt else i.falseCnt }

  function FirstOf(i: Item, b: bool): Option<int> { if b then i.firstTrue else i.firstFalse }

  function LastOf(i: Item, b: bool): Option<int> { if b then i.lastTrue else i.lastFalse }

  /** Duration of `b` from the start of the first block to the end of the last one. */
  function JoinedMs(cs: seq<Column>, b: bool, durationMs: int): int
    requires forall k :: 0 <= k < |cs| ==> Stored(cs[k])
  {
    if cs == [] then 0
    else
      var x := cs[|cs| - 1];
      if |cs| == 1 then Ms(x.item, b)
      else
        var prev := cs[|cs| - 2];
        JoinedMs(cs[..|cs| - 1], b, durationMs) + Ms(x.item, b)
        + (if prev.item.lastValue == b then FirstTime(x) - prev.time else 0)
        - (if FirstValue(x.item) == b then FirstTime(x) - (x.time - durationMs) else 0)
  }

  function JoinedCnt(cs: seq<Column>, b: bool): int {
    if cs == [] then 0 else JoinedCnt(cs[..|cs| - 1], b) + Cnt(cs[|cs| - 1].item, b)
  }

  function JoinedFirst(cs: seq<Column>, b: bool): Option<int> {
    if cs == [] then None
    else
      var f := JoinedFirst(cs[..|cs| - 1], b);
      if f.Some? then f else FirstOf(cs[|cs| - 1].item, b)
  }

  function JoinedLast(cs: seq<Column>, b: bool): Option<int> {
    if cs == [] then None
    else if LastOf(cs[|cs| - 1].item, b).Some? then LastOf(cs[|cs| - 1].item, b)
    else JoinedLast(cs[..|cs| - 1], b)
  }

  /** The combined summary, stretched to the whole window at both ends. */
  function Rolled(cs: seq<Column>, start: int, end: int, durationMs: int): Item
    requires cs != [] && forall k :: 0 <= k < |cs| ==> Stored(cs[k])
  {
    var ft, ff := JoinedFirst(cs, true), JoinedFirst(cs, false);
    var head := ft.Some? && (ff.None? || ft.value < ff.value);
    var last := cs[|cs| - 1];
    var lead, tail := cs[0].time - durationMs - start, end - last.time;
    Item(ft, ff, JoinedLast(cs, true), JoinedLast(cs, false), last.item.lastValue,
         JoinedCnt(cs, true),
         JoinedMs(cs, true, durationMs) + (if head then lead else 0) + (if last.item.lastValue then tail else 0),
         JoinedCnt(cs, false),
         JoinedMs(cs, false, durationMs) + (if !head then lead else 0) + (if !last.item.lastValue then tail else 0))
  }

  lemma {:induction false} JoinedStep(cs: seq<Column>, i: int, b: bool, durationMs: int)
    requires 0 <= i < |cs| && forall k :: 0 <= k < |cs| ==> Stored(cs[k])
    ensures var p, q, x := cs[..i], cs[..i + 1], cs[i];
            && JoinedCnt(q, b) == JoinedCnt(p, b) + Cnt(x.item, b)
            && JoinedFirst(q, b) == (if JoinedFirst(p, b).Some? then JoinedFirst(p, b) else FirstOf(x.item, b))
            && JoinedLast(q, b) == (if LastOf(x.item, b).Some? then LastOf(x.item, b) else JoinedLast(p, b))
            && JoinedMs(q, b, durationMs) == JoinedMs(p, b, durationMs) + Ms(x.item, b) + (if i == 0 then 0 else
                 (if cs[i - 1].item.lastValue == b then FirstTime(x) - cs[i - 1].time else 0)
                 - (if FirstValue(x.item) == b then FirstTime(x) - (x.time - durationMs) else 0))
  {
    assert cs[..i + 1][..i] == cs[..i];
  }

  lemma {:induction false} JoinedNothing(b: bool, durationMs: int)
    ensures JoinedMs([], b, durationMs) == 0 && JoinedCnt([], b) == 0
    ensures JoinedFirst([], b) == None && JoinedLast([], b) == None
  {
  }

  /** Adds one block's durations and settles the gap before it: equal values on both sides of the
      gap extend each other, different ones meet at the block's first reading. */
  method AddBlock(durations: map<bool, int>, c: Column, isFirst: bool, lastValue: bool, lastEnd: int, durationMs: int)
    returns (res: map<bool, int>)
    requires Stored(c) && durations.Keys == {true, false}
    ensures res.Keys == {true, false}
    ensures forall b :: res[b] == durations[b] + Ms(c.item, b) + (if isFirst then 0 else
              (if lastValue == b then FirstTime(c) - lastEnd else 0)
              - (if FirstValue(c.item) == b then FirstTime(c) - (c.time - durationMs) else 0))
  {
    var f := c.item;
    var startTime := c.time - durationMs;
    res := durations;
    var firstValue, firstTime := false, f.firstFalse;
    if firstTime.None? || (f.firstTrue.Some? && f.firstTrue.value < f.firstFalse.value) {
      firstValue, firstTime := true, f.firstTrue;
    }
    if isFirst {
    } else if firstValue == lastValue {
      res := res[firstValue := res[firstValue] + (startTime - lastEnd)];
    } else {
      res := res[lastValue := res[lastValue] + (firstTime.value - lastEnd)];
      res := res[firstValue := res[firstValue] - (firstTime.value - startTime)];
    }
    res := res[true := res[true] + f.trueMs];
    res := res[false := res[false] + f.falseMs];
  }

  /** Extends the first value back to the start of the window and the last one to its end. */
  method Stretch(durations: map<bool, int>, firstTrue: Option<int>, firstFalse: Option<int>, lastValue: bool,
                 lead: int, tail: int)
    returns (res: map<bool, int>)
    requires durations.Keys == {true, false}
    ensures res.Keys == {true, false}
    ensures var head := firstTrue.Some? && (firstFalse.None? || firstTrue.value < firstFalse.value);
            forall b :: res[b] == durations[b] + (if head == b then lead else 0) + (if lastValue == b then tail else 0)
  {
    res := durations;
    if firstTrue.Some? && (firstFalse.None? || firstTrue.value < firstFalse.value) {
      res := res[true := res[true] + lead];
    } else {
      res := res[false := res[false] + lead];
    }
    res := res[lastValue := res[lastValue] + tail];
  }

  /** Combines stored summaries in one pass. */
  method RollupBool(data: seq<Column>, start: int, end: int, durationMs: int) returns (r: Option<Item>)
    requires forall k :: 0 <= k < |data| ==> Stored(data[k])
    ensures r == if data == [] then None else Some(Rolled(data, start, end, durationMs))
  {
    hide JoinedMs, JoinedCnt, JoinedFirst, JoinedLast, FirstTime, FirstValue, Stored, Ms;
    if |data| == 0 { return None; }
    JoinedNothing(true, durationMs);
    JoinedNothing(false, durationMs);
    var durations := map[true := 0, false := 0];
    var firstTrue: Option<int>, firstFalse: Option<int> := None, None;
    var trues: seq<int>, falses: seq<int> := [], [];
    var trueCnt, falseCnt := 0, 0;
    var lastValue, lastEnd := false, 0;
    var i := 0;
    while i < |data|
      invariant 0 <= i <= |data| && durations.Keys == {true, false}
      invariant i > 0 ==> lastValue == data[i - 1].item.lastValue && lastEnd == data[i - 1].time
      invariant durations[true] == JoinedMs(data[..i], true, durationMs)
      invariant durations[false] == JoinedMs(data[..i], false, durationMs)
      invariant firstTrue == JoinedFirst(data[..i], true) && firstFalse == JoinedFirst(data[..i], false)
      invariant JoinedLast(data[..i], true) == (if trues == [] then None else Some(trues[|trues| - 1]))
      invariant JoinedLast(data[..i], false) == (if falses == [] then None else Some(falses[|falses| - 1]))
      invariant trueCnt == JoinedCnt(data[..i], true) && falseCnt == JoinedCnt(data[..i], false)
    {
      var c := data[i];
      var f := c.item;
      JoinedStep(data, i, true, durationMs);
      JoinedStep(data, i, false, durationMs);
      durations := AddBlock(durations, c, i == 0, lastValue, lastEnd, durationMs);
      if firstTrue.None? && f.firstTrue.Some? { firstTrue := f.firstTrue; }
      if firstFalse.None? && f.firstFalse.Some? { firstFalse := f.firstFalse; }
      if f.lastTrue.Some? { trues := trues + [f.lastTrue.value]; }
      if f.lastFalse.Some? { falses := falses + [f.lastFalse.value]; }
      trueCnt := trueCnt + f.trueCnt;
      falseCnt := falseCnt + f.falseCnt;
      lastValue, lastEnd := f.lastValue, c.time;
      i := i + 1;
    }
    assert data[..i] == data;
    var lastTrue, lastFalse := None, None;
    if |trues| > 0 { lastTrue := Some(trues[|trues| - 1]); }
    if |falses| > 0 { lastFalse := Some(falses[|falses| - 1]); }
    var last := data[|data| - 1];
    durations := Stretch(durations, firstTrue, firstFalse, last.item.lastValue,
                         data[0].time - durationMs - start, end - last.time);
    r := Some(Item(firstTrue, firstFalse, lastTrue, lastFalse, last.item.lastValue,
                   trueCnt, durations[true], falseCnt, durations[false]));
  }

  // ---------- rolling up summaries equals summarising the readings ----------

  /** The readings of one block that has some, and the end of the block. */
  datatype Block = Block(readings: seq<Reading>, end: int)

  function Readings(bs: seq<Block>): seq<Reading> {
    if bs == [] then [] else Readings(bs[..|bs| - 1]) + bs[|bs| - 1].readings
  }

  /** What the lower level stores for the given blocks. */
  function Summaries(bs: seq<Block>, durationMs: int): (cs: seq<Column>)
    requires forall k :: 0 <= k < |bs| ==> bs[k].readings != []
    ensures |cs| == |bs|
    ensures forall k :: 0 <= k < |bs| ==>
              cs[k] == Column(Summary(bs[k].readings, bs[k].end - durationMs, bs[k].end), bs[k].end)
  {
    seq(|bs|, k requires 0 <= k < |bs| =>
      Column(Summary(bs[k].readings, bs[k].end - durationMs, bs[k].end), bs[k].end))
  }

  predicate WellFormed(bs: seq<Block>) {
    && (forall k :: 0 <= k < |bs| ==> bs[k].readings != [])
    && Ordered(Readings(bs))
  }

  lemma {:induction false} WellFormedPrefix(bs: seq<Block>)
    requires bs != [] && WellFormed(bs)
    ensures WellFormed(bs[..|bs| - 1]) && Ordered(bs[|bs| - 1].readings)
  {
    var a, c := Readings(bs[..|bs| - 1]), bs[|bs| - 1].readings;
    assert forall i :: 0 <= i < |a| ==> (a + c)[i] == a[i];
    assert forall i :: 0 <= i < |c| ==> (a + c)[|a| + i] == c[i];
  }

  lemma {:induction false} SummaryHead(d: seq<Reading>, start: int, end: int)
    requires d != [] && Ordered(d)
    ensures var c := Column(Summary(d, start, end), end);
            Stored(c) && FirstValue(c.item) == d[0].v && FirstTime(c) == d[0].t
  {
    FirstIsHead(d);
  }

  lemma {:induction false} ReadingsEnds(bs: seq<Block>)
    requires bs != [] && forall k :: 0 <= k < |bs| ==> bs[k].readings != []
    ensures var d, last := Readings(bs), bs[|bs| - 1].readings;
            d != [] && d[|d| - 1] == last[|last| - 1] && d[0] == bs[0].readings[0]
  {
    if |bs| > 1 { ReadingsEnds(bs[..|bs| - 1]); } else { assert Readings(bs[..0]) == []; }
  }

  lemma {:induction false} SummariesStored(bs: seq<Block>, durationMs: int)
    requires WellFormed(bs)
    ensures var cs := Summaries(bs, durationMs);
            forall k :: 0 <= k < |cs| ==>
              Stored(cs[k]) && FirstValue(cs[k].item) == bs[k].readings[0].v && FirstTime(cs[k]) == bs[k].readings[0].t
    decreases |bs|
  {
    if bs != [] {
      var n := |bs| - 1;
      WellFormedPrefix(bs);
      SummariesStored(bs[..n], durationMs);
      SummaryHead(bs[n].readings, bs[n].end - durationMs, bs[n].end);
      var cs := Summaries(bs, durationMs);
      forall k | 0 <= k < n ensures cs[k] == Summaries(bs[..n], durationMs)[k] {
      }
    }
  }

  lemma {:induction false} Joined(bs: seq<Block>, durationMs: int, b: bool)
    requires bs != [] && WellFormed(bs)
    ensures var cs, d := Summaries(bs, durationMs), Readings(bs);
            && (forall k :: 0 <= k < |cs| ==> Stored(cs[k]))
            && JoinedCnt(cs, b) == Count(d, b)
            && JoinedFirst(cs, b) == First(d, b) && JoinedLast(cs, b) == Last(d, b)
            && JoinedMs(cs, b, durationMs) == Held(d, b, bs[0].end - durationMs, bs[|bs| - 1].end)
    decreases |bs|
  {
    hide Ordered, JoinedMs, JoinedCnt, JoinedFirst, JoinedLast, Held, Count, First, Last;
    var n := |bs| - 1;
    var cs := Summaries(bs, durationMs);
    var a, c := Readings(bs[..n]), bs[n].readings;
    SummariesStored(bs, durationMs);
    JoinedStep(cs, n, b, durationMs);
    assert cs[..n + 1] == cs;
    assert cs[..n] == Summaries(bs[..n], durationMs);
    if n == 0 {
      JoinedNothing(b, durationMs);
      assert a + c == c;
    } else {
      WellFormedPrefix(bs);
      Joined(bs[..n], durationMs, b);
      ReadingsEnds(bs[..n]);
      CountConcat(a, c, b);
      FirstConcat(a, c, b);
      LastConcat(a, c, b);
      HeldConcat(a, c, b, bs[0].end - durationMs, bs[n - 1].end, bs[n].end - durationMs, bs[n].end);
    }
  }

  /** Rolling up the stored summaries of the non-empty blocks gives exactly the summary of all
      readings of the window, across gaps of any length. */
  lemma {:induction false} RollupIsExact(bs: seq<Block>, start: int, end: int, durationMs: int)
    requires bs != [] && WellFormed(bs)
    ensures forall c :: c in Summaries(bs, durationMs) ==> Stored(c)
    ensures Readings(bs) != []
    ensures Rolled(Summaries(bs, durationMs), start, end, durationMs) == Summary(Readings(bs), start, end)
  {
    var cs, d := Summaries(bs, durationMs), Readings(bs);
    Joined(bs, durationMs, true);
    Joined(bs, durationMs, false);
    ReadingsEnds(bs);
    FirstIsHead(d);
    forall b: bool ensures Held(d, b, start, end)
      == Held(d, b, bs[0].end - durationMs, bs[|bs| - 1].end)
         + (if d[0].v == b then bs[0].end - durationMs - start else 0)
         + (if d[|d| - 1].v == b then end - bs[|bs| - 1].end else 0)
    {
      HeldStart(d, b, bs[0].end - durationMs, bs[|bs| - 1].end, start);
      HeldEnd(d, b, start, bs[|bs| - 1].end, end);
    }
  }

  // ---------- levels ----------

  const MINUTE_MS := 60000
  const HOUR_MS := 3600000

  /** An hour that has readings, as its non-empty minutes. */
  datatype Hour = Hour(minutes: seq<Block>, end: int)

  function HourReadings(hs: seq<Hour>): (bs: seq<Block>)
    ensures |bs| == |hs|
    ensures forall k :: 0 <= k < |hs| ==> bs[k] == Block(Readings(hs[k].minutes), hs[k].end)
  {
    seq(|hs|, k requires 0 <= k < |hs| => Block(Readings(hs[k].minutes), hs[k].end))
  }

  predicate WellFormedHour(h: Hour) {
    h.minutes != [] && WellFormed(h.minutes)
  }

  /** What the second level stores for an hour, computed from the stored minutes. */
  function RolledHour(h: Hour): Column
    requires WellFormedHour(h)
  {
    SummariesStored(h.minutes, MINUTE_MS);
    Column(Rolled(Summaries(h.minutes, MINUTE_MS), h.end - HOUR_MS, h.end, MINUTE_MS), h.end)
  }

  /** Minutes into hours into a day: two levels of rollup still give the summary of the raw readings. */
  lemma {:induction false} TwoLevelsExact(hs: seq<Hour>, start: int, end: int)
    requires hs != [] && Ordered(Readings(HourReadings(hs)))
    requires forall k :: 0 <= k < |hs| ==> WellFormedHour(hs[k])
    ensures var cs := seq(|hs|, k requires 0 <= k < |hs| => RolledHour(hs[k]));
            && (forall k :: 0 <= k < |cs| ==> Stored(cs[k]))
            && Readings(HourReadings(hs)) != []
            && Rolled(cs, start, end, HOUR_MS) == Summary(Readings(HourReadings(hs)), start, end)
  {
    hide Summary, Rolled, Ordered, Stored;
    var bs := HourReadings(hs);
    var cs := seq(|hs|, k requires 0 <= k < |hs| => RolledHour(hs[k]));
    forall k | 0 <= k < |hs|
      ensures bs[k].readings != []
      ensures cs[k] == Column(Summary(bs[k].readings, bs[k].end - HOUR_MS, bs[k].end), bs[k].end)
    {
      RollupIsExact(hs[k].minutes, hs[k].end - HOUR_MS, hs[k].end, MINUTE_MS);
    }
    assert cs == Summaries(bs, HOUR_MS);
    RollupIsExact(bs, start, end, HOUR_MS);
  }

  // ---------- conservation, and what a wrong block length costs ----------

  function TotalMs(cs: seq<Column>): int {
    if cs == [] then 0 else TotalMs(cs[..|cs| - 1]) + cs[|cs| - 1].item.trueMs + cs[|cs| - 1].item.falseMs
  }

  lemma {:induction false} JoinedTotal(cs: seq<Column>, durationMs: int)
    requires cs != [] && forall k :: 0 <= k < |cs| ==> Stored(cs[k])
    ensures JoinedMs(cs, true, durationMs) + JoinedMs(cs, false, durationMs)
         == cs[|cs| - 1].time - cs[0].time + durationMs + TotalMs(cs) - |cs| * durationMs
  {
    var n := |cs| - 1;
    assert cs[..n + 1] == cs;
    if n > 0 {
      JoinedTotal(cs[..n], durationMs);
      assert (n + 1) * durationMs == n * durationMs + durationMs;
    }
  }

  /** The durations of a rollup add up to the window exactly when the block summaries add up to
      one block length each. Rolling up with the window length in place of the block length, as the
      on-the-fly query does, misses by the difference. */
  lemma {:induction false} RollupConserves(cs: seq<Column>, start: int, end: int, durationMs: int)
    requires cs != [] && forall k :: 0 <= k < |cs| ==> Stored(cs[k])
    ensures var r := Rolled(cs, start, end, durationMs);
            && r.trueMs + r.falseMs == end - start + TotalMs(cs) - |cs| * durationMs
            && (r.trueMs + r.falseMs == end - start <==> TotalMs(cs) == |cs| * durationMs)
  {
    JoinedTotal(cs, durationMs);
  }

  lemma OneMore(n: nat, a: int)
    ensures (n + 1) * a == n * a + a
  {
  }

  lemma {:induction false} SummariesTotal(bs: seq<Block>, blockMs: int)
    requires WellFormed(bs)
    ensures TotalMs(Summaries(bs, blockMs)) == |bs| * blockMs
    decreases |bs|
  {
    if bs != [] {
      var n := |bs| - 1;
      WellFormedPrefix(bs);
      SummariesTotal(bs[..n], blockMs);
      assert Summaries(bs, blockMs)[..n] == Summaries(bs[..n], blockMs);
      HeldConserves(bs[n].readings, bs[n].end - blockMs, bs[n].end);
      OneMore(n, blockMs);
    }
  }

  /** Stored blocks of length `blockMs` rolled up with length `durationMs`: conserved if and only if
      the two lengths agree. */
  lemma {:induction false} RollupConservesIff(bs: seq<Block>, start: int, end: int, blockMs: int, durationMs: int)
    requires bs != [] && WellFormed(bs)
    requires forall c :: c in Summaries(bs, blockMs) ==> Stored(c)
    ensures var r := Rolled(Summaries(bs, blockMs), start, end, durationMs);
            r.trueMs + r.falseMs == end - start <==> blockMs == durationMs
  {
    hide Rolled, TotalMs;
    RollupConserves(Summaries(bs, blockMs), start, end, durationMs);
    SummariesTotal(bs, blockMs);
    SameMultiple(|bs|, blockMs, durationMs);
  }

  lemma SameMultiple(n: nat, a: int, b: int)
    requires n > 0
    ensures n * a == n * b <==> a == b
  {
    assert n * a - n * b == n * (a - b);
  }
}
