/**
  * The rollup job queue: when a rollup of a data point is due, which time block it covers, and how the
  * cache of recently written jobs keeps each job from being written twice.
  *
  * Instants and durations are whole nanoseconds; zones have a fixed offset in seconds.
  */
module JobQueue {
  import opened IntMath
  import opened JobCodec

  const Sec := 1_000_000_000
  const Milli := 1_000_000

  /** Block lengths in seconds; blocks of a week or a month are cut at seconds like those of a second. */
  function Span(unit: Unit): int {
    match unit
    case Minute => 60
    case Hour => 3600
    case Day => 86400
    case _ => 1
  }

  // ---------- wall clocks ----------

  /** The local date (as a day number) and time of day. */
  datatype Clock = Clock(day: int, hour: int, minute: int, second: int)

  function Local(t: int, zone: int): Clock {
    var l := (t + zone * Sec) / Sec;
    Clock(l / 86400, l % 86400 / 3600, l % 3600 / 60, l % 60)
  }

  function Instant(c: Clock, zone: int): int {
    (c.day * 86400 + c.hour * 3600 + c.minute * 60 + c.second - zone) * Sec
  }

  function ToTimeBlock(t: int, unit: Unit, zone: int): TimeBlock {
    var c := Local(t, zone);
    var hour := if unit == Day then 0 else c.hour;
    var minute := if unit == Day || unit == Hour then 0 else c.minute;
    var second := if unit == Day || unit == Hour || unit == Minute then 0 else c.second;
    TimeBlock(Instant(Clock(c.day, hour, minute, second), zone) / Sec, unit)
  }

  function LocalTime(t: int, d: int, zone: int): int {
    var c := Local(t, zone);
    if d >= 86400 * Sec then Instant(Clock(c.day, 0, 0, 0), zone)
    else if d >= 3600 * Sec then Instant(Clock(c.day, c.hour, 0, 0), zone)
    else Instant(Clock(c.day, c.hour, c.minute, 0), zone)
  }

  /** When a job for data at `start`, received at `now`, is to be handled, in seconds. */
  function ProcTime(now: int, start: int, duration: int, zone: int): int
    requires duration >= Milli
  {
    var millis := duration / Milli;
    var at := start / Milli;
    var remaining := if start + duration < now then duration else (millis - (at - millis * TruncDiv(at, millis))) * Milli;
    if duration < 60 * Sec then (now + remaining) / Sec
    else (LocalTime(now, duration, zone) + duration) / Sec
  }

  lemma {:induction false} SplitSeconds(l: int)
    ensures l == l / 86400 * 86400 + l % 86400 / 3600 * 3600 + l % 3600 / 60 * 60 + l % 60
    ensures l / 3600 * 3600 == l / 86400 * 86400 + l % 86400 / 3600 * 3600
    ensures l / 60 * 60 == l / 86400 * 86400 + l % 86400 / 3600 * 3600 + l % 3600 / 60 * 60
  {
  }

  /** `s` starts the local block of `span` seconds that contains `t`. */
  predicate Starts(s: int, t: int, span: int, zone: int)
    requires span > 0
  {
    (s + zone) % span == 0 && s * Sec <= t < (s + span) * Sec
  }

  lemma {:induction false} StartsUnique(s: int, s': int, t: int, span: int, zone: int)
    requires span > 0 && Starts(s, t, span, zone) && Starts(s', t, span, zone)
    ensures s == s'
  {
    assert s < s' + span && s' < s + span;
    ModDifference(s' + zone, s + zone, span);
    ModDifference(s + zone, s' + zone, span);
    if s <= s' { DivModUnique(s' - s, span, 0, s' - s); } else { DivModUnique(s - s', span, 0, s - s'); }
  }

  lemma {:induction false} BlockIndex(t: int, unit: Unit, zone: int)
    ensures var l := t / Sec + zone;
            ToTimeBlock(t, unit, zone).index == l / Span(unit) * Span(unit) - zone
  {
    var l := (t + zone * Sec) / Sec;
    assert l == t / Sec + zone;
    SplitSeconds(l);
  }

  lemma {:induction false} FloorStarts(t: int, span: int, zone: int)
    requires span > 0
    ensures Starts((t / Sec + zone) / span * span - zone, t, span, zone)
  {
    var l := t / Sec + zone;
    var k := l / span;
    MultipleMod(span, k);
    assert span * k == k * span;
    assert k * span <= l < k * span + span;
    assert t / Sec * Sec <= t < t / Sec * Sec + Sec;
  }

  /** A time block starts at the one local boundary that its data point falls behind. */
  lemma {:induction false} BlockStarts(t: int, unit: Unit, zone: int)
    ensures forall s :: Starts(s, t, Span(unit), zone) <==> s == ToTimeBlock(t, unit, zone).index
  {
    hide ToTimeBlock, Starts;
    BlockIndex(t, unit, zone);
    FloorStarts(t, Span(unit), zone);
    var index := ToTimeBlock(t, unit, zone).index;
    forall s | Starts(s, t, Span(unit), zone) ensures s == index { StartsUnique(s, index, t, Span(unit), zone); }
  }

  predicate IsRollup(unit: Unit) { unit == Minute || unit == Hour || unit == Day }

  /** A rollup is due when the block that contains `now` closes, wherever its data lies. */
  lemma {:induction false} ProcTimeCloses(now: int, start: int, unit: Unit, zone: int)
    requires IsRollup(unit)
    ensures ProcTime(now, start, Span(unit) * Sec, zone) == ToTimeBlock(now, unit, zone).index + Span(unit)
  {
    assert LocalTime(now, Span(unit) * Sec, zone) == ToTimeBlock(now, unit, zone).index * Sec;
  }

  lemma {:induction false} StartsMonotone(a: int, t: int, b: int, u: int, span: int, zone: int)
    requires span > 0 && Starts(a, t, span, zone) && Starts(b, u, span, zone)
    ensures t <= u ==> a <= b
    ensures a < b ==> a + span <= b
  {
    ModDifference(a + zone, b + zone, span);
    if a > b && t <= u { DivModUnique(a - b, span, 0, a - b); }
    if a < b < a + span { ModDifference(b + zone, a + zone, span); DivModUnique(b - a, span, 0, b - a); }
  }

  /** The process time lies after now, at most one block later; it is not before the job's own block
      closes exactly when that block is not later than the block of now. */
  lemma {:induction false} DueAfterBlock(now: int, start: int, unit: Unit, zone: int)
    requires IsRollup(unit)
    ensures var p := ProcTime(now, start, Span(unit) * Sec, zone);
            var tb := ToTimeBlock(start, unit, zone);
            && now < p * Sec <= now + Span(unit) * Sec
            && (p >= tb.index + Span(unit) <==> tb.index <= ToTimeBlock(now, unit, zone).index)
            && (start <= now ==> p >= tb.index + Span(unit))
  {
    ProcTimeCloses(now, start, unit, zone);
    BlockStarts(now, unit, zone);
    BlockStarts(start, unit, zone);
    StartsMonotone(ToTimeBlock(start, unit, zone).index, start, ToTimeBlock(now, unit, zone).index, now, Span(unit), zone);
  }

  // ---------- jobs ----------

  datatype Group = Rollups | Deletes

  datatype Job = Job(group: Group, procTime: int, consumer: nat, content: Content)

  /** What reaches the log storage. */
  datatype Row = Row(group: Group, consumer: nat, data: string, time: int)

  function DelaySec(unit: Unit, base: int): int {
    match unit
    case Second => base
    case Minute => base
    case Hour => 12 * base
    case Day => 24 * base
    case _ => 0
  }

  /** Requests to the manager, with the clock each of them reads. Only minute, hour and day rollups exist. */
  datatype Event =
    | Rollup(unit: Unit, key: string, now: int, start: int, zone: int)
    | Delete(op: Operation, key: string, now: int)
    | Evict(now: int)

  /** The job a request constructs; `place` stands for the consumer hash of a key and a second. */
  function JobFor(e: Event, place: (string, int) -> nat): Job
    requires e.Rollup? || e.Delete?
  {
    match e
    case Rollup(unit, key, now, start, zone) =>
      Job(Rollups, ProcTime(now, start, Span(unit) * Sec, zone), place(key, now / Sec),
          Content(TimeSeriesRollup, ToTimeBlock(start, unit, zone), key))
    case Delete(op, key, now) =>
      Job(Deletes, now / Sec, place(key, now / Sec), Content(op, TimeBlock(0, Second), key))
  }

  /** A process time as a cache key. */
  datatype Slot = Slot(time: int)

  type Cache = map<Slot, set<string>>

  datatype State = State(cache: Cache, rows: seq<Row>)

  function RowOf(j: Job): Row { Row(j.group, j.consumer, JobText(j.content), j.procTime) }

  function Delayed(j: Job, delay: int): Job {
    j.(procTime := j.procTime + DelaySec(j.content.block.unit, delay))
  }

  function KeysAt(cache: Cache, p: int): set<string> { if Slot(p) in cache then cache[Slot(p)] else {} }

  function Written(s: State, j: Job, cached: bool, delay: int): State {
    if !cached then s.(rows := s.rows + [RowOf(j)])
    else
      var d := Delayed(j, delay);
      var k := CacheKey(j.content.block, j.content.key);
      if k in KeysAt(s.cache, d.procTime) then s
      else State(s.cache[Slot(d.procTime) := KeysAt(s.cache, d.procTime) + {k}], s.rows + [RowOf(d)])
  }

  function Evicted(s: State, now: int): State {
    State(EvictedCache(s.cache, now / Sec), s.rows)
  }

  function EvictedCache(cache: Cache, at: int): Cache {
    map p | p in cache && at <= p.time :: cache[p]
  }

  function Step(s: State, e: Event, delay: int, place: (string, int) -> nat): State {
    match e
    case Evict(now) => Evicted(s, now)
    case _ => Written(s, JobFor(e, place), e.Rollup?, delay)
  }

  class Manager {
    var cache: Cache
    var rows: seq<Row>
    const delay: int

    function Current(): State reads this { State(cache, rows) }

    constructor (delay: int)
      ensures Current() == State(map[], []) && this.delay == delay
    {
      cache, rows, this.delay := map[], [], delay;
    }

    method WriteJob(job: Job, cached: bool)
      modifies this
      ensures Current() == Written(old(Current()), job, cached, delay)
    {
      var j := job;
      if cached {
        j := j.(procTime := j.procTime + DelaySec(j.content.block.unit, delay));
        var k := BlockText(j.content.block) + j.content.key;
        var keys: set<string> := {};
        if Slot(j.procTime) in cache {
          keys := cache[Slot(j.procTime)];
          if k in keys { return; }
        }
        keys := keys + {k};
        cache := cache[Slot(j.procTime) := keys];
      }
      rows := rows + [RowOf(j)];
    }

    /** One tick: visits the keys in any order and drops those that have passed. */
    method MaintainCache(now: int)
      modifies this
      ensures Current() == Evicted(old(Current()), now)
    {
      Purge(now / Sec);
    }

    method Purge(at: int)
      modifies this`cache
      ensures cache == EvictedCache(old(cache), at)
    {
      var todo := cache.Keys;
      while todo != {}
        invariant forall p :: p in cache <==> p in old(cache) && (p in todo || at <= p.time)
        invariant forall p :: p in cache ==> cache[p] == old(cache)[p]
        decreases |todo|
      {
        var p :| p in todo;
        if at > p.time { cache := cache - {p}; }
        todo := todo - {p};
      }
    }

    method Handle(e: Event, place: (string, int) -> nat)
      modifies this
      ensures Current() == Step(old(Current()), e, delay, place)
    {
      match e
      case Evict(now) => MaintainCache(now);
      case Rollup(_, _, _, _, _) => WriteJob(JobFor(e, place), true);
      case Delete(_, _, _) => WriteJob(JobFor(e, place), false);
    }
  }

  // ---------- every job is written exactly once ----------

  function Run(es: seq<Event>, delay: int, place: (string, int) -> nat): State {
    if es == [] then State(map[], [])
    else Step(Run(es[..|es| - 1], delay, place), es[|es| - 1], delay, place)
  }

  /** When a rollup is to be handled, in seconds: a minute, hour or day after the start of the local minute,
      hour or day of the request, and then once, 12 times or 24 times the delay. */
  function DueTime(unit: Unit, now: int, zone: int, delay: int): int {
    var local := now / 1_000_000_000 + zone;
    match unit
    case Minute => local / 60 * 60 + 60 - zone + delay
    case Hour => local / 3600 * 3600 + 3600 - zone + 12 * delay
    case Day => local / 86400 * 86400 + 86400 - zone + 24 * delay
    case _ => 0
  }

  /** The start of the local minute, hour or day of some data, in seconds. */
  function BlockStart(unit: Unit, start: int, zone: int): int {
    var local := start / 1_000_000_000 + zone;
    match unit
    case Minute => local / 60 * 60 - zone
    case Hour => local / 3600 * 3600 - zone
    case Day => local / 86400 * 86400 - zone
    case _ => 0
  }

  /** The row that a rollup request adds, in numbers, unless the cache has the job for that time. */
  lemma {:induction false} RollupRow(s: State, e: Event, delay: int, place: (string, int) -> nat)
    requires e.Rollup? && IsRollup(e.unit)
    ensures var due, block := DueTime(e.unit, e.now, e.zone, delay), TimeBlock(BlockStart(e.unit, e.start, e.zone), e.unit);
            var row := Row(Rollups, place(e.key, e.now / 1_000_000_000), JobText(Content(TimeSeriesRollup, block, e.key)), due);
            Step(s, e, delay, place).rows == if CacheKey(block, e.key) in KeysAt(s.cache, due) then s.rows else s.rows + [row]
  {
    hide ProcTime, ToTimeBlock, JobText, CacheKey;
    ProcTimeCloses(e.now, e.start, e.unit, e.zone);
    BlockIndex(e.now, e.unit, e.zone);
    BlockIndex(e.start, e.unit, e.zone);
    BlockUnit(e);
    assert ToTimeBlock(e.start, e.unit, e.zone) == TimeBlock(BlockStart(e.unit, e.start, e.zone), e.unit);
  }

  /** A deletion is due at once, is not delayed and leaves the cache alone. */
  lemma {:induction false} DeleteRow(s: State, e: Event, delay: int, place: (string, int) -> nat)
    requires e.Delete?
    ensures Step(s, e, delay, place)
            == s.(rows := s.rows + [Row(Deletes, place(e.key, e.now / 1_000_000_000), JobText(Content(e.op, TimeBlock(0, Second), e.key)),
                                        e.now / 1_000_000_000)])
  {
    hide JobText, CacheKey;
  }

  /** What identifies a rollup job. */
  datatype Tag = Tag(time: int, block: TimeBlock, key: string)

  function TagOf(e: Event, delay: int): Tag
    requires e.Rollup?
  {
    var block := ToTimeBlock(e.start, e.unit, e.zone);
    Tag(ProcTime(e.now, e.start, Span(e.unit) * Sec, e.zone) + DelaySec(e.unit, delay), block, e.key)
  }

  predicate Asks(e: Event, delay: int, tag: Tag) { e.Rollup? && TagOf(e, delay) == tag }

  predicate Asked(es: seq<Event>, delay: int, tag: Tag) { exists i :: 0 <= i < |es| && Asks(es[i], delay, tag) }

  function RowFor(e: Event, delay: int, place: (string, int) -> nat): Row
    requires e.Rollup?
  {
    RowOf(Delayed(JobFor(e, place), delay))
  }

  /** The rows a queue with a perfect memory would write: each rollup job when it is first asked for,
      and every deletion. */
  function FirstRows(es: seq<Event>, delay: int, place: (string, int) -> nat): seq<Row> {
    if es == [] then []
    else
      var before := es[..|es| - 1];
      var e := es[|es| - 1];
      FirstRows(before, delay, place)
      + (match e
         case Evict(_) => []
         case Delete(_, _, _) => [RowOf(JobFor(e, place))]
         case Rollup(_, _, _, _, _) => if Asked(before, delay, TagOf(e, delay)) then [] else [RowFor(e, delay, place)])
  }

  predicate Drops(e: Event, time: int) { e.Evict? && e.now / Sec > time }

  /** The job was asked for and has not been evicted since. */
  ghost predicate Remembered(es: seq<Event>, delay: int, tag: Tag) {
    exists h :: 0 <= h < |es| && Asks(es[h], delay, tag) && forall i :: h < i < |es| ==> !Drops(es[i], tag.time)
  }

  lemma {:induction false} RememberedBefore(es: seq<Event>, delay: int, tag: Tag, n: nat)
    requires |es| == n + 1 && Remembered(es, delay, tag) && !Asks(es[n], delay, tag)
    ensures Remembered(es[..n], delay, tag) && !Drops(es[n], tag.time)
  {
    hide Asks, Drops;
    var h :| 0 <= h < |es| && Asks(es[h], delay, tag) && forall i :: h < i < |es| ==> !Drops(es[i], tag.time);
    assert Asks(es[..n][h], delay, tag);
  }

  lemma {:induction false} RememberedAfter(es: seq<Event>, delay: int, tag: Tag, n: nat)
    requires |es| == n + 1 && Remembered(es[..n], delay, tag) && !Drops(es[n], tag.time)
    ensures Remembered(es, delay, tag)
  {
    hide Asks, Drops;
    var before := es[..n];
    var h :| 0 <= h < n && Asks(before[h], delay, tag) && forall i :: h < i < n ==> !Drops(before[i], tag.time);
    assert Asks(es[h], delay, tag);
    forall i | h < i < |es| ensures !Drops(es[i], tag.time) { if i < n { assert es[i] == before[i]; } }
  }

  lemma {:induction false} RememberedStep(es: seq<Event>, delay: int, tag: Tag)
    requires es != []
    ensures var e := es[|es| - 1];
            Remembered(es, delay, tag) <==> Asks(e, delay, tag) || (Remembered(es[..|es| - 1], delay, tag) && !Drops(e, tag.time))
  {
    hide Asks, Drops;
    var n := |es| - 1;
    if Asks(es[n], delay, tag) { assert Asks(es[|es| - 1], delay, tag); }
    else if Remembered(es, delay, tag) { RememberedBefore(es, delay, tag, n); }
    else if Remembered(es[..n], delay, tag) && !Drops(es[n], tag.time) { RememberedAfter(es, delay, tag, n); }
  }

  predicate Proper(es: seq<Event>) { forall i :: 0 <= i < |es| && es[i].Rollup? ==> IsRollup(es[i].unit) }

  predicate IsCached(s: State, tag: Tag) { CacheKey(tag.block, tag.key) in KeysAt(s.cache, tag.time) }

  lemma {:induction false} CachedStep(s: State, e: Event, delay: int, place: (string, int) -> nat, tag: Tag)
    requires e.Rollup? ==> IsRollup(e.unit)
    ensures IsCached(Step(s, e, delay, place), tag) <==> Asks(e, delay, tag) || (IsCached(s, tag) && !Drops(e, tag.time))
  {
    hide ProcTime, ToTimeBlock, CacheKey;
    if e.Rollup? {
      var t := TagOf(e, delay);
      BlockUnit(e);
      if CacheKey(t.block, t.key) == CacheKey(tag.block, tag.key) {
        CacheKeyInjective(t.block, t.key, tag.block, tag.key);
      }
    }
  }

  lemma BlockUnit(e: Event)
    requires e.Rollup?
    ensures ToTimeBlock(e.start, e.unit, e.zone).unit == e.unit
  {
  }

  /** The cache holds exactly the remembered jobs. */
  lemma {:induction false} CacheRemembers(es: seq<Event>, delay: int, place: (string, int) -> nat, tag: Tag)
    requires Proper(es)
    ensures IsCached(Run(es, delay, place), tag) <==> Remembered(es, delay, tag)
  {
    if es != [] {
      var n := |es| - 1;
      CacheRemembers(es[..n], delay, place, tag);
      CachedStep(Run(es[..n], delay, place), es[n], delay, place, tag);
      RememberedStep(es, delay, tag);
    }
  }

  /** A job that is asked for again after it was evicted. */
  ghost predicate Late(es: seq<Event>, delay: int) {
    exists h, i, j :: IsLate(es, delay, h, i, j)
  }

  predicate IsLate(es: seq<Event>, delay: int, h: int, i: int, j: int) {
    && 0 <= h < i < j < |es| && es[h].Rollup? && Asks(es[j], delay, TagOf(es[h], delay))
    && Drops(es[i], TagOf(es[h], delay).time)
  }

  /** What one more request adds to the rows. */
  lemma {:induction false} RowsStep(es: seq<Event>, delay: int, place: (string, int) -> nat)
    requires Proper(es) && es != []
    ensures var n := |es| - 1;
            var before, e := es[..n], es[n];
            Run(es, delay, place).rows
            == Run(before, delay, place).rows
               + (match e
                  case Evict(_) => []
                  case Delete(_, _, _) => [RowOf(JobFor(e, place))]
                  case Rollup(_, _, _, _, _) => if Remembered(before, delay, TagOf(e, delay)) then [] else [RowFor(e, delay, place)])
  {
    hide ProcTime, ToTimeBlock, CacheKey, JobText, Remembered;
    var n := |es| - 1;
    var e := es[n];
    var s := Run(es[..n], delay, place);
    if e.Rollup? {
      CacheRemembers(es[..n], delay, place, TagOf(e, delay));
      BlockUnit(e);
    }
  }

  /** The evicting cache does what a perfect memory does exactly when no job is asked for again after
      it was evicted. */
  lemma {:induction false} DeduplicatesIff(es: seq<Event>, delay: int, place: (string, int) -> nat)
    requires Proper(es)
    ensures |Run(es, delay, place).rows| >= |FirstRows(es, delay, place)|
    ensures Run(es, delay, place).rows == FirstRows(es, delay, place) <==> !Late(es, delay)
    ensures Late(es, delay) ==> |Run(es, delay, place).rows| > |FirstRows(es, delay, place)|
  {
    if es != [] {
      var n := |es| - 1;
      var before, e := es[..n], es[n];
      DeduplicatesIff(before, delay, place);
      RowsStep(es, delay, place);
      if e.Rollup? {
        var tag := TagOf(e, delay);
        RememberedAsked(before, delay, tag);
        if Asked(before, delay, tag) && !Remembered(before, delay, tag) { ForgottenIsLate(es, delay, n); }
      }
      if Late(before, delay) { LateGrows(es, delay, n); }
      else if Late(es, delay) { LateIsForgotten(es, delay, n); }
      hide TagOf, RowFor, Remembered, Asked, Late, JobFor, RowOf;
    }
  }

  lemma {:induction false} RememberedAsked(es: seq<Event>, delay: int, tag: Tag)
    ensures Remembered(es, delay, tag) ==> Asked(es, delay, tag)
  {
  }

  lemma {:induction false} LateGrows(es: seq<Event>, delay: int, n: nat)
    requires n <= |es| && Late(es[..n], delay)
    ensures Late(es, delay)
  {
    hide TagOf, Drops;
    var h, i, j :| IsLate(es[..n], delay, h, i, j);
    assert IsLate(es, delay, h, i, j);
  }

  lemma {:induction false} ForgottenIsLate(es: seq<Event>, delay: int, n: nat)
    requires n < |es| && es[n].Rollup?
    requires var tag := TagOf(es[n], delay); Asked(es[..n], delay, tag) && !Remembered(es[..n], delay, tag)
    ensures Late(es, delay)
  {
    hide TagOf, Drops;
    var before, tag := es[..n], TagOf(es[n], delay);
    var h :| 0 <= h < n && Asks(before[h], delay, tag);
    var i :| h < i < n && Drops(before[i], tag.time);
    assert IsLate(es, delay, h, i, n);
  }

  lemma {:induction false} NotRemembered(es: seq<Event>, delay: int, tag: Tag, h: int, i: int)
    requires 0 <= h < i < |es| && Asks(es[h], delay, tag) && Drops(es[i], tag.time) && forall g :: !IsLate(es, delay, h, i, g)
    ensures !Remembered(es, delay, tag)
  {
    hide TagOf;
    forall g | 0 <= g < |es| && Asks(es[g], delay, tag) ensures g < i {
      assert !IsLate(es, delay, h, i, g);
    }
  }

  lemma {:induction false} LateIsForgotten(es: seq<Event>, delay: int, n: nat)
    requires |es| == n + 1 && Late(es, delay) && !Late(es[..n], delay)
    ensures es[n].Rollup?
    ensures var tag := TagOf(es[n], delay); Asked(es[..n], delay, tag) && !Remembered(es[..n], delay, tag)
  {
    hide TagOf;
    var before := es[..n];
    var h, i, j :| IsLate(es, delay, h, i, j);
    assert !IsLate(before, delay, h, i, j);
    var tag := TagOf(es[n], delay);
    assert Asks(before[h], delay, tag) && Drops(before[i], tag.time);
    assert forall g :: !IsLate(before, delay, h, i, g);
    NotRemembered(before, delay, tag, h, i);
  }

  ghost predicate MonotoneClock(es: seq<Event>) { forall i, j :: 0 <= i < j < |es| ==> es[i].now <= es[j].now }

  /** A clock that never goes back makes no job late. */
  lemma {:induction false} MonotoneIsNotLate(es: seq<Event>, delay: int)
    requires Proper(es) && MonotoneClock(es) && delay >= 0
    ensures !Late(es, delay)
  {
    if Late(es, delay) {
      var h, i, j :| IsLate(es, delay, h, i, j);
      var e := es[j];
      DueAfterBlock(e.now, e.start, e.unit, e.zone);
    }
  }

  /** With a clock that never goes back and a delay that is not negative, the queue writes exactly the
      rows of a perfect memory. */
  lemma {:induction false} WritesFirstRows(es: seq<Event>, delay: int, place: (string, int) -> nat)
    requires Proper(es) && MonotoneClock(es) && delay >= 0
    ensures Run(es, delay, place).rows == FirstRows(es, delay, place)
  {
    MonotoneIsNotLate(es, delay);
    DeduplicatesIff(es, delay, place);
  }

  predicate Carries(r: Row, tag: Tag) {
    r.group == Rollups && r.time == tag.time && r.data == JobText(Content(TimeSeriesRollup, tag.block, tag.key))
  }

  function Count(rows: seq<Row>, tag: Tag): nat {
    if rows == [] then 0
    else Count(rows[..|rows| - 1], tag) + if Carries(rows[|rows| - 1], tag) then 1 else 0
  }

  lemma {:induction false} CountAppend(rows: seq<Row>, r: Row, tag: Tag)
    ensures Count(rows + [r], tag) == Count(rows, tag) + if Carries(r, tag) then 1 else 0
    ensures Count(rows + [], tag) == Count(rows, tag)
  {
    assert (rows + [r])[..|rows|] == rows && rows + [] == rows;
  }

  /** Two jobs with the same text have the same block and key. */
  lemma {:induction false} TextTells(e: Event, delay: int, place: (string, int) -> nat, tag: Tag)
    requires e.Rollup?
    ensures Carries(RowFor(e, delay, place), tag) <==> Asks(e, delay, tag)
  {
    hide ProcTime, ToTimeBlock, JobText, CacheKey;
    var t := TagOf(e, delay);
    BlockUnit(e);
    SameText(t.block, t.key, tag.block, tag.key);
  }

  lemma TextIs(block: TimeBlock, key: string)
    ensures JobText(Content(TimeSeriesRollup, block, key)) == "TSR" + CacheKey(block, key)
  {
    hide BlockText;
  }

  lemma {:induction false} SameText(a: TimeBlock, k: string, b: TimeBlock, l: string)
    ensures JobText(Content(TimeSeriesRollup, a, k)) == JobText(Content(TimeSeriesRollup, b, l)) <==> a == b && k == l
  {
    hide JobText, CacheKey;
    TextIs(a, k);
    TextIs(b, l);
    assert ("TSR" + CacheKey(a, k))[3..] == CacheKey(a, k) && ("TSR" + CacheKey(b, l))[3..] == CacheKey(b, l);
    if CacheKey(a, k) == CacheKey(b, l) { CacheKeyInjective(a, k, b, l); }
  }

  lemma {:induction false} FirstRowsCount(es: seq<Event>, delay: int, place: (string, int) -> nat, tag: Tag)
    ensures Count(FirstRows(es, delay, place), tag) == if Asked(es, delay, tag) then 1 else 0
  {
    if es != [] {
      var n := |es| - 1;
      var before, e := es[..n], es[n];
      FirstRowsCount(before, delay, place, tag);
      var rows := FirstRows(before, delay, place);
      assert Asked(es, delay, tag) <==> Asked(before, delay, tag) || Asks(e, delay, tag) by { AskedStep(es, delay, tag); }
      match e {
        case Evict(_) => CountAppend(rows, Row(Deletes, 0, "", 0), tag);
        case Delete(_, _, _) => CountAppend(rows, RowOf(JobFor(e, place)), tag);
        case Rollup(_, _, _, _, _) =>
          TextTells(e, delay, place, tag);
          CountAppend(rows, RowFor(e, delay, place), tag);
      }
    }
  }

  lemma {:induction false} AskedStep(es: seq<Event>, delay: int, tag: Tag)
    requires es != []
    ensures Asked(es, delay, tag) <==> Asked(es[..|es| - 1], delay, tag) || Asks(es[|es| - 1], delay, tag)
  {
    var n := |es| - 1;
    if Asked(es[..n], delay, tag) {
      var i :| 0 <= i < n && Asks(es[..n][i], delay, tag);
      assert Asks(es[i], delay, tag);
    }
    if Asked(es, delay, tag) {
      var i :| 0 <= i < |es| && Asks(es[i], delay, tag);
      if i < n { assert Asks(es[..n][i], delay, tag); }
    }
  }

  /** Each rollup job that is asked for is written exactly once, and no other is written. */
  lemma {:induction false} ExactlyOnce(es: seq<Event>, delay: int, place: (string, int) -> nat, tag: Tag)
    requires Proper(es) && MonotoneClock(es) && delay >= 0
    ensures Count(Run(es, delay, place).rows, tag) == if Asked(es, delay, tag) then 1 else 0
  {
    WritesFirstRows(es, delay, place);
    FirstRowsCount(es, delay, place, tag);
  }

  /** And it is due after the request that asked for it and not before its block closes. */
  lemma {:induction false} NeverEarly(e: Event, delay: int, place: (string, int) -> nat)
    requires e.Rollup? && IsRollup(e.unit) && delay >= 0
    ensures var r := RowFor(e, delay, place);
            && r.time * Sec > e.now
            && (e.start <= e.now ==> r.time >= TagOf(e, delay).block.index + Span(e.unit))
  {
    DueAfterBlock(e.now, e.start, e.unit, e.zone);
    hide ProcTime, ToTimeBlock;
    BlockUnit(e);
  }

  // ---------- a late request ----------

  lemma FirstMinute()
    ensures ProcTime(0, 0, 60 * Sec, 0) == 60 && ToTimeBlock(0, Minute, 0) == TimeBlock(0, Minute)
  {
  }

  /** A request that reads its clock before an eviction and is handled after it writes its job again. */
  lemma {:induction false} LateWritesTwice(e: Event, v: Event, delay: int, place: (string, int) -> nat)
    requires e.Rollup? && IsRollup(e.unit) && Drops(v, TagOf(e, delay).time)
    ensures var es := [e, v, e]; Late(es, delay) && Count(Run(es, delay, place).rows, TagOf(e, delay)) == 2
  {
    hide TagOf, RowFor, Remembered, Run, Drops;
    var es := [e, v, e];
    var tag, r := TagOf(e, delay), RowFor(e, delay, place);
    assert IsLate(es, delay, 0, 1, 2);
    TwoRows(e, v, delay, place);
    TextTells(e, delay, place, tag);
    CountAppend([], r, tag);
    CountAppend([r], r, tag);
    assert [] + [r] == [r] && [r] + [r] == [r, r];
  }

  lemma {:induction false} TwoRows(e: Event, v: Event, delay: int, place: (string, int) -> nat)
    requires e.Rollup? && IsRollup(e.unit) && Drops(v, TagOf(e, delay).time)
    ensures var r := RowFor(e, delay, place); Run([e, v, e], delay, place).rows == [r, r]
  {
    hide TagOf, RowFor, Remembered;
    EvictOnly(v, TagOf(e, delay).time);
    var es, tag, r := [e, v, e], TagOf(e, delay), RowFor(e, delay, place);
    var one, two := [e], [e, v];
    assert es[..2] == two && two[..1] == one && one[..0] == [];
    RowsStep(one, delay, place);
    RowsStep(two, delay, place);
    RowsStep(es, delay, place);
    NothingRemembered(delay, tag);
    Forgotten(two, delay, tag);
    RunOfNothing(delay, place);
    hide Run;
    assert [] + [r] == [r] && [r] + [] == [r] && [r] + [r] == [r, r];
  }

  lemma EvictOnly(v: Event, time: int)
    requires Drops(v, time)
    ensures v.Evict?
  {
  }

  lemma RunOfNothing(delay: int, place: (string, int) -> nat)
    ensures Run([], delay, place).rows == []
  {
  }

  lemma NothingRemembered(delay: int, tag: Tag)
    ensures !Remembered([], delay, tag)
  {
  }

  /** Concretely: a minute job asked for at time zero, an eviction one second after it was due, and the
      same request again. */
  lemma {:induction false} LateRequestExists(place: (string, int) -> nat)
    ensures var e := Rollup(Minute, "k", 0, 0, 0);
            var es := [e, Evict(61 * Sec), e];
            Late(es, 0) && Count(Run(es, 0, place).rows, TagOf(e, 0)) == 2
  {
    FirstMinute();
    hide ProcTime, ToTimeBlock, Run, Late;
    LateWritesTwice(Rollup(Minute, "k", 0, 0, 0), Evict(61 * Sec), 0, place);
  }

  lemma {:induction false} Forgotten(es: seq<Event>, delay: int, tag: Tag)
    requires |es| == 2 && Drops(es[1], tag.time)
    ensures !Remembered(es, delay, tag)
  {
    assert !Asks(es[1], delay, tag);
    hide Asks, TagOf;
  }
}
