/** What a round of registry calls achieves: when the IDs end up partitioned between the consumers, and
    that whatever they end up with at their shares is final. */
module RegistryRounds {
  import IntMath
  import opened Registry

  function AllIds(ws: seq<Consumer>): seq<nat> {
    if ws == [] then [] else AllIds(ws[..|ws| - 1]) + ws[|ws| - 1].ids
  }

  /** Nobody holds an ID twice or more IDs than its share. */
  ghost predicate Tidy(ws: seq<Consumer>, max: nat) {
    && Unshared(ws, max)
    && forall i :: 0 <= i < |ws| ==> Distinct(ws[i].ids) && |ws[i].ids| <= Share(max, |ws|, i)
  }

  lemma {:induction false} AllIdsDistinct(ws: seq<Consumer>, max: nat)
    requires Unshared(ws, max) && forall i :: 0 <= i < |ws| ==> Distinct(ws[i].ids)
    ensures Distinct(AllIds(ws))
    ensures forall x: nat :: x in AllIds(ws) <==> x in UsedIds(ws)
  {
    if ws != [] {
      var n := |ws| - 1;
      AllIdsDistinct(ws[..n], max);
      var a, b := AllIds(ws[..n]), ws[n].ids;
      forall x: nat ensures x in a + b <==> x in UsedIds(ws) {
        if x in b { assert 0 <= n < |ws| && x in ws[n].ids; }
        if x in a { var i, y :| 0 <= i < n && y in ws[..n][i].ids && y == x; assert x in ws[i].ids; }
      }
      forall i, j | 0 <= i < |a| && 0 <= j < |b| ensures a[i] != b[j] {
        assert a[i] in a && b[j] in b;
        var k, y :| 0 <= k < n && y in ws[..n][k].ids && y == a[i];
        assert Apart(ws[k], ws[n]);
      }
    }
  }

  function Between(used: set<nat>, i: nat, max: nat): set<nat> {
    set x | x in used && i <= x < max
  }

  lemma {:induction false} FreeCount(used: set<nat>, max: nat, i: nat)
    requires i <= max
    ensures |FreeFrom(used, max, i)| == max - i - |Between(used, i, max)|
    decreases max - i
  {
    if i == max {
      assert Between(used, i, max) == {};
    } else {
      FreeCount(used, max, i + 1);
      if i in used {
        assert Between(used, i, max) == Between(used, i + 1, max) + {i};
      } else {
        assert Between(used, i, max) == Between(used, i + 1, max);
      }
    }
  }

  lemma {:induction false} DistinctCount(s: seq<nat>)
    requires Distinct(s)
    ensures |SetOf(s)| == |s|
  {
    if s != [] {
      var n := |s| - 1;
      DistinctCount(s[..n]);
      assert s == s[..n] + [s[n]];
      assert SetOf(s) == SetOf(s[..n]) + {s[n]};
      assert s[n] !in SetOf(s[..n]);
    }
  }

  /** In a row without duplicates, what is not held is free. */
  lemma {:induction false} FreeIsRest(ws: seq<Consumer>, max: nat)
    requires Unshared(ws, max) && forall i :: 0 <= i < |ws| ==> Distinct(ws[i].ids)
    ensures |FreeFrom(UsedIds(ws), max, 0)| == max - |AllIds(ws)|
  {
    AllIdsDistinct(ws, max);
    DistinctCount(AllIds(ws));
    FreeCount(UsedIds(ws), max, 0);
    forall x: nat | x in UsedIds(ws) ensures x < max {
      var i, y :| 0 <= i < |ws| && y in ws[i].ids && y == x;
    }
    assert Between(UsedIds(ws), 0, max) == UsedIds(ws) == SetOf(AllIds(ws));
  }

  lemma {:induction false} HeldWithinShares(ws: seq<Consumer>, max: nat, m: nat, k: nat)
    requires m <= |ws| && k < |ws|
    requires forall i :: 0 <= i < |ws| ==> |ws[i].ids| <= Share(max, |ws|, i)
    ensures |AllIds(ws[..m])| <= ShareSum(max, |ws|, m) - (if k < m then Share(max, |ws|, k) - |ws[k].ids| else 0)
  {
    if m > 0 {
      HeldWithinShares(ws, max, m - 1, k);
      assert ws[..m][..m - 1] == ws[..m - 1];
    }
  }

  /** The row after the consumer at position `k` has beaten. */
  function Served(ws: seq<Consumer>, k: nat, now: int, max: nat, locked: set<int>): seq<Consumer>
    requires k < |ws|
  {
    ws[k := Consumer(ws[k].name, Allocated(ws, ws[k].ids, k, max, locked), now)]
  }

  /** A call in which nobody expires only changes the caller's entry. */
  lemma {:induction false} QuietCall(row: seq<Consumer>, c: Call, ws: seq<Consumer>, k: nat, ids: seq<nat>, heartbeat: int, max: nat)
    requires Beaten(row, c.name, c.now) == ws && (forall i :: 0 <= i < |ws| ==> Alive(ws[i], c.later, heartbeat))
    requires k < |ws| && FindByName(ws, c.name) == k && Allocated(ws, ws[k].ids, k, max, c.locked) == ids
    ensures CallOutcome(row, c, heartbeat, max) == Done(ws[k := ws[k].(ids := ids)], ids)
  {
    AllLiving(ws, c.later, heartbeat);
    hide Beaten, Living, FindByName, Allocated;
  }

  /** With nobody expiring, a call does just that. */
  lemma {:induction false} CallServes(ws: seq<Consumer>, c: Call, heartbeat: int, max: nat)
    requires FindByName(ws, c.name) >= 0
    requires c.later - c.now < 20 * heartbeat && forall i :: 0 <= i < |ws| ==> Alive(ws[i], c.later, heartbeat)
    ensures var k := FindByName(ws, c.name);
            CallOutcome(ws, c, heartbeat, max)
            == Done(Served(ws, k, c.now, max, c.locked), Allocated(ws, ws[k].ids, k, max, c.locked))
  {
    var k := FindByName(ws, c.name);
    var b := ws[k := ws[k].(recent := c.now)];
    assert Beaten(ws, c.name, c.now) == b;
    SameFind(ws, b, c.name);
    SameUsed(ws, b);
    hide FindByName, Beaten, UsedIds;
    var ids := Allocated(ws, ws[k].ids, k, max, c.locked);
    assert Allocated(b, b[k].ids, k, max, c.locked) == ids;
    hide Allocated;
    QuietCall(ws, c, b, k, ids, heartbeat, max);
    assert b[k := b[k].(ids := ids)] == Served(ws, k, c.now, max, c.locked);
  }

  lemma {:induction false} SameUsed(a: seq<Consumer>, b: seq<Consumer>)
    requires |a| == |b| && forall i :: 0 <= i < |a| ==> a[i].ids == b[i].ids
    ensures UsedIds(a) == UsedIds(b)
  {
  }

  lemma {:induction false} SameFind(a: seq<Consumer>, b: seq<Consumer>, name: string)
    requires |a| == |b| && forall i :: 0 <= i < |a| ==> a[i].name == b[i].name
    ensures FindByName(a, name) == FindByName(b, name)
    decreases |a|
  {
    if a != [] {
      SameFind(a[1..], b[1..], name);
    }
  }

  lemma {:induction false} GrowsToShare(ws: seq<Consumer>, k: nat, max: nat, locked: set<int>)
    requires Tidy(ws, max) && k < |ws|
    ensures var ids := Allocated(ws, ws[k].ids, k, max, locked);
            Distinct(ids) && |ids| == Share(max, |ws|, k)
  {
    var ids, need, used := ws[k].ids, Share(max, |ws|, k) - |ws[k].ids|, UsedIds(ws);
    var free := FreeFrom(used, max, 0);
    FreeIsRest(ws, max);
    HeldWithinShares(ws, max, |ws|, k);
    assert ws[..|ws|] == ws;
    SharesAddUp(max, |ws|);
    assert need <= |free|;
    GrownIsPrefix(used, max, 0, need);
    FreeFromAscends(used, max, 0);
    FreeFromIs(used, max, 0);
    assert Allocated(ws, ids, k, max, locked) == ids + free[..need];
    assert forall x: nat :: x in ids ==> x in used;
    hide *;
    DistinctJoin(ids, free[..need], used);
  }

  lemma {:induction false} DistinctJoin(a: seq<nat>, b: seq<nat>, used: set<nat>)
    requires Distinct(a) && Distinct(b) && (forall x: nat :: x in a ==> x in used) && (forall x: nat :: x in b ==> x !in used)
    ensures Distinct(a + b)
  {
    forall i, j | 0 <= i < |a| && 0 <= j < |b| ensures a[i] != b[j] {
      assert a[i] in a && b[j] in b;
    }
  }

  datatype Beat = Beat(k: nat, now: int, locked: set<int>)

  function Round(ws: seq<Consumer>, beats: seq<Beat>, max: nat): (r: seq<Consumer>)
    requires forall b :: b in beats ==> b.k < |ws|
    ensures |r| == |ws|
  {
    if beats == [] then ws
    else
      var b := beats[|beats| - 1];
      assert b in beats;
      Served(Round(ws, beats[..|beats| - 1], max), b.k, b.now, max, b.locked)
  }

  // ---------- rounds ----------

  ghost predicate HasBeaten(beats: seq<Beat>, i: int) {
    exists j :: 0 <= j < |beats| && beats[j].k == i
  }

  predicate Above(ws: seq<Consumer>, i: int, max: nat)
    requires 0 <= i < |ws|
  {
    |ws[i].ids| > Share(max, |ws|, i)
  }

  predicate Under(ws: seq<Consumer>, i: int, max: nat)
    requires 0 <= i < |ws|
  {
    |ws[i].ids| < Share(max, |ws|, i)
  }

  predicate InRow(ws: seq<Consumer>, beats: seq<Beat>) { forall j :: 0 <= j < |beats| ==> beats[j].k < |ws| }

  /** Consumers above their share beat before any consumer below its share does, and the positions they
      have to give back are not locked. */
  ghost predicate Orderly(ws: seq<Consumer>, beats: seq<Beat>, max: nat)
    requires InRow(ws, beats)
  {
    && (forall j, i :: 0 <= j < |beats| && 0 <= i < |ws| && Under(ws, beats[j].k, max) && Above(ws, i, max) ==> HasBeaten(beats[..j], i))
    && (forall j, p :: 0 <= j < |beats| && Share(max, |ws|, beats[j].k) <= p < |ws[beats[j].k].ids| ==> p !in beats[j].locked)
  }

  /** Nobody holds an ID twice. */
  ghost predicate NoRepeats(ws: seq<Consumer>) { forall i :: 0 <= i < |ws| ==> Distinct(ws[i].ids) }

  /** Who has beaten is at its share; who has not holds what it held. */
  ghost predicate Underway(ws: seq<Consumer>, beats: seq<Beat>, r: seq<Consumer>, max: nat) {
    && |r| == |ws| && Unshared(r, max) && NoRepeats(r)
    && forall i :: 0 <= i < |ws| ==> if HasBeaten(beats, i) then |r[i].ids| == Share(max, |ws|, i) else r[i].ids == ws[i].ids
  }

  lemma {:induction false} BeatenMore(beats: seq<Beat>, n: nat, i: int)
    requires n < |beats|
    ensures HasBeaten(beats[..n + 1], i) <==> HasBeaten(beats[..n], i) || beats[n].k == i
  {
    if HasBeaten(beats[..n], i) { var j :| 0 <= j < n && beats[..n][j].k == i; assert beats[..n + 1][j].k == i; }
    if beats[n].k == i { assert beats[..n + 1][n].k == i; }
    if HasBeaten(beats[..n + 1], i) {
      var j :| 0 <= j < n + 1 && beats[..n + 1][j].k == i;
      if j < n { assert beats[..n][j].k == i; }
    }
  }

  lemma {:induction false} ServedUnshared(ws: seq<Consumer>, k: nat, now: int, max: nat, locked: set<int>)
    requires Unshared(ws, max) && k < |ws|
    ensures Unshared(Served(ws, k, now, max, locked), max)
  {
    var ids := Allocated(ws, ws[k].ids, k, max, locked);
    AllocatedApart(ws, k, max, locked);
    UpdateUnshared(ws, k, ids, max);
    hide Allocated;
    var s, u := Served(ws, k, now, max, locked), ws[k := ws[k].(ids := ids)];
    forall i, j | 0 <= i < j < |s| ensures Apart(s[i], s[j]) { assert Apart(u[i], u[j]); }
  }

  /** A consumer at or above its share keeps exactly its first IDs, if the others are not locked. */
  lemma {:induction false} ShrinksToShare(ws: seq<Consumer>, k: nat, max: nat, locked: set<int>)
    requires k < |ws| && !Under(ws, k, max) && forall p :: Share(max, |ws|, k) <= p < |ws[k].ids| ==> p !in locked
    ensures var share := Share(max, |ws|, k);
            0 <= share <= |ws[k].ids| && Allocated(ws, ws[k].ids, k, max, locked) == ws[k].ids[..share]
  {
    var ids, share := ws[k].ids, Share(max, |ws|, k);
    ShareValue(max, |ws|, k);
    IntMath.MulMonotone(1, 0, max / |ws|);
    if share < |ids| {
      NoLockedIds(ids, share, |ids|, locked);
    } else {
      assert ids + GrownFrom(UsedIds(ws), max, 0, 0) == ids == ids[..share];
    }
  }

  lemma {:induction false} BeatStep(ws: seq<Consumer>, beats: seq<Beat>, r: seq<Consumer>, n: nat, max: nat)
    requires InRow(ws, beats) && Orderly(ws, beats, max) && n < |beats| && Underway(ws, beats[..n], r, max)
    ensures var b := beats[n]; Underway(ws, beats[..n + 1], Served(r, b.k, b.now, max, b.locked), max)
  {
    var b := beats[n];
    var k := b.k;
    var s := Served(r, k, b.now, max, b.locked);
    forall i | 0 <= i < |ws| ensures HasBeaten(beats[..n + 1], i) <==> HasBeaten(beats[..n], i) || i == k { BeatenMore(beats, n, i); }
    ServedUnshared(r, k, b.now, max, b.locked);
    if Under(r, k, max) {
      assert Under(ws, k, max);
      forall i | 0 <= i < |r| ensures |r[i].ids| <= Share(max, |r|, i) {
        if Above(ws, i, max) { assert HasBeaten(beats[..n], i); }
      }
      hide HasBeaten, Orderly, Unshared;
      assert Tidy(r, max);
      GrowsToShare(r, k, max, b.locked);
    } else {
      ShrinksToShare(r, k, max, b.locked);
    }
  }

  lemma {:induction false} RoundUnderway(ws: seq<Consumer>, beats: seq<Beat>, max: nat, n: nat)
    requires InRow(ws, beats) && Orderly(ws, beats, max) && Unshared(ws, max) && NoRepeats(ws) && n <= |beats|
    ensures Underway(ws, beats[..n], Round(ws, beats[..n], max), max)
  {
    if n > 0 {
      RoundUnderway(ws, beats, max, n - 1);
      hide Orderly;
      assert beats[..n][..n - 1] == beats[..n - 1];
      BeatStep(ws, beats, Round(ws, beats[..n - 1], max), n - 1, max);
    }
  }

  lemma {:induction false} AllAtShare(ws: seq<Consumer>, max: nat, m: nat)
    requires m <= |ws| && forall i :: 0 <= i < |ws| ==> |ws[i].ids| == Share(max, |ws|, i)
    ensures |ws| > 0 ==> |AllIds(ws[..m])| == ShareSum(max, |ws|, m)
  {
    if m > 0 {
      AllAtShare(ws, max, m - 1);
      assert ws[..m][..m - 1] == ws[..m - 1];
    }
  }

  ghost predicate IsHeld(ws: seq<Consumer>, x: nat) {
    exists i :: 0 <= i < |ws| && x in ws[i].ids
  }

  /** Every ID is held. */
  ghost predicate AllHeld(ws: seq<Consumer>, max: nat) { forall x: nat :: x < max ==> IsHeld(ws, x) }

  ghost predicate AtShares(ws: seq<Consumer>, max: nat) { forall i :: 0 <= i < |ws| ==> |ws[i].ids| == Share(max, |ws|, i) }

  /** Once everybody is at its share, the IDs are partitioned if and only if nobody holds one twice. */
  lemma {:induction false} PartitionedIff(ws: seq<Consumer>, max: nat)
    requires ws != [] && Unshared(ws, max) && AtShares(ws, max)
    ensures AllHeld(ws, max) <==> NoRepeats(ws)
  {
    AllAtShare(ws, max, |ws|);
    assert ws[..|ws|] == ws;
    SharesAddUp(max, |ws|);
    UsedIsSet(ws);
    UsedBelow(ws, max);
    if NoRepeats(ws) {
      FreeIsRest(ws, max);
      FreeFromIs(UsedIds(ws), max, 0);
      forall x: nat | x < max ensures IsHeld(ws, x) { assert x !in FreeFrom(UsedIds(ws), max, 0); }
    } else {
      RepeatCosts(ws);
      FreeCount(UsedIds(ws), max, 0);
      assert Between(UsedIds(ws), 0, max) == UsedIds(ws);
      FreeFromIs(UsedIds(ws), max, 0);
      var x := FreeFrom(UsedIds(ws), max, 0)[0];
      assert x in FreeFrom(UsedIds(ws), max, 0);
      assert !IsHeld(ws, x);
    }
  }

  lemma {:induction false} UsedIsSet(ws: seq<Consumer>)
    ensures UsedIds(ws) == SetOf(AllIds(ws))
  {
    if ws != [] {
      var n := |ws| - 1;
      UsedIsSet(ws[..n]);
      forall x: nat ensures x in UsedIds(ws) <==> x in UsedIds(ws[..n]) || x in ws[n].ids {
        if x in UsedIds(ws[..n]) { var i, y :| 0 <= i < n && y in ws[..n][i].ids && y == x; assert x in ws[i].ids; }
        if x in UsedIds(ws) { var i, y :| 0 <= i < |ws| && y in ws[i].ids && y == x; if i < n { assert x in ws[..n][i].ids; } }
      }
    }
  }

  lemma {:induction false} UsedBelow(ws: seq<Consumer>, max: nat)
    requires Unshared(ws, max)
    ensures forall x: nat :: x in UsedIds(ws) ==> x < max
  {
    forall x: nat | x in UsedIds(ws) ensures x < max { var i, y :| 0 <= i < |ws| && y in ws[i].ids && y == x; }
  }

  lemma RepeatsLast(s: seq<nat>)
    requires s != [] && !Distinct(s) && Distinct(s[..|s| - 1])
    ensures s[|s| - 1] in s[..|s| - 1]
  {
    var n := |s| - 1;
    var i, j :| 0 <= i < j < |s| && s[i] == s[j];
    forall a, b | 0 <= a < b < n ensures s[a] != s[b] { assert s[..n][a] == s[a] && s[..n][b] == s[b]; }
    assert j == n;
    assert s[..n][i] == s[i];
  }

  lemma {:induction false} SetSmaller(s: seq<nat>)
    ensures |SetOf(s)| <= |s|
    ensures !Distinct(s) ==> |SetOf(s)| < |s|
  {
    hide Distinct;
    if s != [] {
      var n := |s| - 1;
      SetSmaller(s[..n]);
      assert s == s[..n] + [s[n]];
      assert SetOf(s) == SetOf(s[..n]) + {s[n]};
      if !Distinct(s) && Distinct(s[..n]) {
        RepeatsLast(s);
        assert SetOf(s) == SetOf(s[..n]);
      }
    } else {
      NothingRepeats();
    }
  }

  lemma NothingRepeats()
    ensures Distinct([])
  {
  }

  lemma {:induction false} RepeatInside(ws: seq<Consumer>, k: nat)
    requires k < |ws| && !Distinct(ws[k].ids)
    ensures !Distinct(AllIds(ws))
  {
    var n := |ws| - 1;
    var a, b := AllIds(ws[..n]), ws[n].ids;
    if k < n {
      RepeatInside(ws[..n], k);
      var i, j :| 0 <= i < j < |a| && a[i] == a[j];
      assert (a + b)[i] == (a + b)[j];
    } else {
      var i, j :| 0 <= i < j < |b| && b[i] == b[j];
      assert (a + b)[|a| + i] == (a + b)[|a| + j];
    }
  }

  lemma {:induction false} RepeatCosts(ws: seq<Consumer>)
    requires !NoRepeats(ws)
    ensures |SetOf(AllIds(ws))| < |AllIds(ws)|
  {
    var k :| 0 <= k < |ws| && !Distinct(ws[k].ids);
    RepeatInside(ws, k);
    SetSmaller(AllIds(ws));
  }

  /** From any row without repeated IDs, a round in which consumers above their share beat first leaves
      every ID with exactly one consumer, once. */
  lemma {:induction false} RoundPartitions(ws: seq<Consumer>, beats: seq<Beat>, max: nat)
    requires ws != [] && Unshared(ws, max) && NoRepeats(ws) && InRow(ws, beats) && Orderly(ws, beats, max)
    requires forall i :: 0 <= i < |ws| ==> HasBeaten(beats, i)
    ensures var r := Round(ws, beats, max);
            Unshared(r, max) && NoRepeats(r) && AtShares(r, max) && AllHeld(r, max)
  {
    RoundUnderway(ws, beats, max, |beats|);
    assert beats[..|beats|] == beats;
    hide Orderly;
    PartitionedIff(Round(ws, beats, max), max);
  }

  // ---------- rounds of calls ----------

  /** Every call is by a known consumer, and nobody expires. */
  ghost predicate Quiet(row: seq<Consumer>, calls: seq<Call>, heartbeat: int, max: nat) {
    calls != [] ==>
      var n := |calls| - 1;
      && Quiet(row, calls[..n], heartbeat, max)
      && QuietNow(RunFrom(row, calls[..n], heartbeat, max), calls[n], heartbeat)
  }

  ghost predicate QuietNow(ws: seq<Consumer>, c: Call, heartbeat: int) {
    FindByName(ws, c.name) >= 0 && c.later - c.now < 20 * heartbeat && forall i :: 0 <= i < |ws| ==> Alive(ws[i], c.later, heartbeat)
  }

  /** The beats that calls amount to. */
  function BeatsOf(row: seq<Consumer>, calls: seq<Call>): seq<Beat> {
    seq(|calls|, i requires 0 <= i < |calls| =>
      Beat(if FindByName(row, calls[i].name) < 0 then 0 else FindByName(row, calls[i].name), calls[i].now, calls[i].locked))
  }

  ghost predicate SameConsumers(a: seq<Consumer>, b: seq<Consumer>) {
    |a| == |b| && forall i :: 0 <= i < |a| ==> a[i].name == b[i].name
  }

  /** A quiet run is a round. */
  lemma {:induction false} QuietRunIsRound(row: seq<Consumer>, calls: seq<Call>, heartbeat: int, max: nat)
    requires Quiet(row, calls, heartbeat, max) && row != []
    ensures InRow(row, BeatsOf(row, calls)) && RunFrom(row, calls, heartbeat, max) == Round(row, BeatsOf(row, calls), max)
    ensures SameConsumers(RunFrom(row, calls, heartbeat, max), row)
    ensures forall j :: 0 <= j < |calls| ==> FindByName(row, calls[j].name) >= 0
  {
    hide FindByName, Allocated, CallOutcome, Alive;
    var beats := BeatsOf(row, calls);
    if calls != [] {
      var n := |calls| - 1;
      QuietRunIsRound(row, calls[..n], heartbeat, max);
      var ws, c := RunFrom(row, calls[..n], heartbeat, max), calls[n];
      SameFind(ws, row, c.name);
      CallServes(ws, c, heartbeat, max);
      assert beats[..n] == BeatsOf(row, calls[..n]);
      forall j | 0 <= j < |calls| ensures FindByName(row, calls[j].name) >= 0 { if j < n { assert calls[j] == calls[..n][j]; } }
      RoundMore(row, beats, n, max);
      assert beats[..n + 1] == beats;
    } else {
      assert beats == [];
    }
  }

  lemma RoundMore(ws: seq<Consumer>, beats: seq<Beat>, n: nat, max: nat)
    requires n < |beats| && forall j :: 0 <= j < |beats| ==> beats[j].k < |ws|
    ensures var b := beats[n]; Round(ws, beats[..n + 1], max) == Served(Round(ws, beats[..n], max), b.k, b.now, max, b.locked)
  {
    assert beats[..n + 1][..n] == beats[..n];
  }

  /** In terms of calls: when nobody expires, everybody calls, and whoever holds too many IDs calls before
      anyone who holds too few, all IDs end up partitioned. */
  lemma {:induction false} CallsPartition(row: seq<Consumer>, calls: seq<Call>, heartbeat: int, max: nat)
    requires row != [] && Unshared(row, max) && NoRepeats(row) && Quiet(row, calls, heartbeat, max)
    requires InRow(row, BeatsOf(row, calls)) && Orderly(row, BeatsOf(row, calls), max)
    requires forall i :: 0 <= i < |row| ==> HasBeaten(BeatsOf(row, calls), i)
    ensures var r := RunFrom(row, calls, heartbeat, max);
            Unshared(r, max) && NoRepeats(r) && AtShares(r, max) && AllHeld(r, max)
  {
    hide Orderly, Quiet, RunFrom, Round;
    QuietRunIsRound(row, calls, heartbeat, max);
    RoundPartitions(row, BeatsOf(row, calls), max);
  }

  /** Once everybody is at its share, quiet calls change no IDs any more. */
  lemma {:induction false} SharesAreFinal(row: seq<Consumer>, calls: seq<Call>, heartbeat: int, max: nat)
    requires row != [] && AtShares(row, max) && Quiet(row, calls, heartbeat, max)
    ensures var r := RunFrom(row, calls, heartbeat, max);
            |r| == |row| && forall i :: 0 <= i < |row| ==> r[i].ids == row[i].ids
  {
    if calls != [] {
      var n := |calls| - 1;
      SharesAreFinal(row, calls[..n], heartbeat, max);
      var ws, c := RunFrom(row, calls[..n], heartbeat, max), calls[n];
      CallServes(ws, c, heartbeat, max);
      var k := FindByName(ws, c.name);
      assert Allocated(ws, ws[k].ids, k, max, c.locked) == ws[k].ids by { GrowNothing(ws[k].ids, UsedIds(ws), max); }
      hide FindByName, Allocated, CallOutcome;
    }
  }
}
