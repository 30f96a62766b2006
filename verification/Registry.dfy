/** The consumer registry: heartbeat, expiry and the sharing out of worker IDs. One `allocateIDs`
    call reads the stored row, changes it and writes it back; it is one atomic step here. */
module Registry {
  import IntMath

  datatype Consumer = Consumer(name: string, ids: seq<nat>, recent: int)

  function FindByName(ws: seq<Consumer>, name: string): (i: int)
    ensures -1 <= i < |ws|
    ensures i >= 0 ==> ws[i].name == name
    ensures i == -1 ==> forall k :: 0 <= k < |ws| ==> ws[k].name != name
  {
    if ws == [] then -1
    else if ws[0].name == name then 0
    else
      var i := FindByName(ws[1..], name);
      assert forall k :: 1 <= k < |ws| ==> ws[k] == ws[1..][k - 1];
      if i == -1 then -1 else i + 1
  }

  // ---------- collate ----------

  predicate Alive(c: Consumer, now: int, heartbeat: int) {
    now - c.recent < 20 * heartbeat
  }

  /** The consumers that still beat, in order. */
  function Living(ws: seq<Consumer>, now: int, heartbeat: int): seq<Consumer> {
    if ws == [] then []
    else
      var n := |ws| - 1;
      Living(ws[..n], now, heartbeat) + (if Alive(ws[n], now, heartbeat) then [ws[n]] else [])
  }

  /** Compacts the slice in place. */
  method Collate(ws: array<Consumer>, now: int, heartbeat: int) returns (n: nat)
    modifies ws
    ensures n <= ws.Length && ws[..n] == Living(old(ws[..]), now, heartbeat)
  {
    n := 0;
    var k := 0;
    ghost var all := ws[..];
    while k < ws.Length
      invariant 0 <= n <= k <= ws.Length
      invariant ws[..n] == Living(all[..k], now, heartbeat)
      invariant forall j :: k <= j < ws.Length ==> ws[j] == all[j]
    {
      assert all[..k + 1][..k] == all[..k];
      if now - ws[k].recent < 20 * heartbeat {
        ws[n] := ws[k];
        n := n + 1;
      }
      k := k + 1;
    }
    assert all[..k] == all;
  }

  lemma {:induction false} LivingMembers(ws: seq<Consumer>, now: int, heartbeat: int)
    ensures forall c :: c in Living(ws, now, heartbeat) <==> c in ws && Alive(c, now, heartbeat)
  {
    if ws != [] {
      var n := |ws| - 1;
      LivingMembers(ws[..n], now, heartbeat);
      assert ws == ws[..n] + [ws[n]];
    }
  }

  lemma {:induction false} AllLiving(ws: seq<Consumer>, now: int, heartbeat: int)
    requires forall k :: 0 <= k < |ws| ==> Alive(ws[k], now, heartbeat)
    ensures Living(ws, now, heartbeat) == ws
  {
    if ws != [] {
      var n := |ws| - 1;
      AllLiving(ws[..n], now, heartbeat);
      assert ws == ws[..n] + [ws[n]];
    }
  }

  // ---------- giving IDs back ----------

  /** Walks back over at most `cnt` positions from `i`, removing those that are not locked. The lock is
      looked up by position, not by ID. */
  function ShrunkFrom(ids: seq<nat>, i: int, cnt: int, locked: set<int>): (r: seq<nat>)
    requires i < |ids|
    ensures |r| <= |ids| && (forall x :: x in r ==> x in ids)
    decreases i + 1
  {
    if i < 0 || cnt <= 0 then ids
    else if i in locked then ShrunkFrom(ids, i - 1, cnt - 1, locked)
    else ShrunkFrom(ids[..i] + ids[i + 1..], i - 1, cnt - 1, locked)
  }

  /** The IDs at locked positions between `lo` and `hi`, in order. */
  function LockedIds(ids: seq<nat>, lo: int, hi: int, locked: set<int>): seq<nat>
    requires 0 <= lo && hi <= |ids|
    decreases hi
  {
    if hi <= lo then []
    else LockedIds(ids, lo, hi - 1, locked) + if hi - 1 in locked then [ids[hi - 1]] else []
  }

  /** Where a walk over `cnt` positions back from `n` ends. */
  function WalkEnd(n: int, cnt: int): int { if cnt <= 0 then n else if cnt < n then n - cnt else 0 }

  lemma {:induction false} LockedIdsLocal(ids: seq<nat>, ids': seq<nat>, lo: int, hi: int, locked: set<int>)
    requires 0 <= lo && hi <= |ids| && hi <= |ids'| && forall k :: 0 <= k < hi ==> ids[k] == ids'[k]
    ensures LockedIds(ids, lo, hi, locked) == LockedIds(ids', lo, hi, locked)
    decreases hi
  {
    if lo < hi { LockedIdsLocal(ids, ids', lo, hi - 1, locked); }
  }

  /** What the walk leaves: everything below its end and above its start, and in between exactly the IDs
      at locked positions. */
  lemma {:induction false} ShrunkIs(ids: seq<nat>, i: int, cnt: int, locked: set<int>)
    requires -1 <= i < |ids|
    ensures var lo := WalkEnd(i + 1, cnt);
            ShrunkFrom(ids, i, cnt, locked) == ids[..lo] + LockedIds(ids, lo, i + 1, locked) + ids[i + 1..]
    decreases i + 1
  {
    hide LockedIds;
    var lo := WalkEnd(i + 1, cnt);
    LockedIdsStep(ids, lo, i + 1, locked);
    if i < 0 || cnt <= 0 {
      assert ids == ids[..i + 1] + [] + ids[i + 1..];
    } else {
      var next := if i in locked then ids else ids[..i] + ids[i + 1..];
      ShrunkIs(next, i - 1, cnt - 1, locked);
      LockedIdsLocal(ids, next, lo, i, locked);
      assert next[..lo] == ids[..lo];
      Glue(ids, next, lo, i, LockedIds(ids, lo, i, locked), i in locked);
    }
  }

  lemma LockedIdsStep(ids: seq<nat>, lo: int, hi: int, locked: set<int>)
    requires 0 <= lo && hi <= |ids|
    ensures hi <= lo ==> LockedIds(ids, lo, hi, locked) == []
    ensures lo < hi ==> LockedIds(ids, lo, hi, locked) == LockedIds(ids, lo, hi - 1, locked) + if hi - 1 in locked then [ids[hi - 1]] else []
  {
  }

  lemma Glue(ids: seq<nat>, next: seq<nat>, lo: int, i: int, mid: seq<nat>, kept: bool)
    requires 0 <= lo <= i < |ids| && next == if kept then ids else ids[..i] + ids[i + 1..]
    ensures ids[..lo] + mid + next[i..] == ids[..lo] + (mid + if kept then [ids[i]] else []) + ids[i + 1..]
  {
    if kept { assert ids[i..] == [ids[i]] + ids[i + 1..]; } else { assert next[i..] == ids[i + 1..]; }
  }

  /** What is left of `ids` when the last `cnt` positions are given back. */
  function Released(ids: seq<nat>, cnt: int, locked: set<int>): seq<nat> {
    var lo := WalkEnd(|ids|, cnt);
    ids[..lo] + LockedIds(ids, lo, |ids|, locked)
  }

  lemma {:induction false} ReleasedKeeps(ids: seq<nat>, cnt: int, locked: set<int>)
    ensures var r := Released(ids, cnt, locked);
            (forall x :: x in r ==> x in ids) && (Distinct(ids) ==> Distinct(r))
  {
    ShrunkIs(ids, |ids| - 1, cnt, locked);
    if Distinct(ids) { ShrunkDistinct(ids, |ids| - 1, cnt, locked); }
    hide LockedIds, WalkEnd, Distinct;
    assert ids[|ids|..] == [];
    assert Released(ids, cnt, locked) + [] == Released(ids, cnt, locked);
  }

  /** Gives back IDs from the last `cnt` positions: the result is what lies before them, followed by
      exactly the IDs at locked positions among them. */
  method Shrink(ids: seq<nat>, cnt: int, locked: set<int>) returns (r: seq<nat>)
    ensures var lo := WalkEnd(|ids|, cnt); r == ids[..lo] + LockedIds(ids, lo, |ids|, locked)
  {
    ShrunkIs(ids, |ids| - 1, cnt, locked);
    hide LockedIds, WalkEnd;
    r := ids;
    var i, c := |ids| - 1, cnt;
    while i >= 0 && c > 0
      invariant -1 <= i < |r| || (r == [] && i == -1)
      invariant ShrunkFrom(r, i, c, locked) == ShrunkFrom(ids, |ids| - 1, cnt, locked)
    {
      if i !in locked { r := r[..i] + r[i + 1..]; }
      c := c - 1;
      i := i - 1;
    }
  }

  lemma {:induction false} NoLockedIds(ids: seq<nat>, lo: int, hi: int, locked: set<int>)
    requires 0 <= lo && hi <= |ids| && forall k :: lo <= k < hi ==> k !in locked
    ensures LockedIds(ids, lo, hi, locked) == []
    decreases hi
  {
    if lo < hi { NoLockedIds(ids, lo, hi - 1, locked); }
  }

  predicate Distinct(s: seq<nat>) {
    forall i, j :: 0 <= i < j < |s| ==> s[i] != s[j]
  }

  lemma {:induction false} ShrunkDistinct(ids: seq<nat>, i: int, cnt: int, locked: set<int>)
    requires i < |ids| && Distinct(ids)
    ensures Distinct(ShrunkFrom(ids, i, cnt, locked))
    decreases i + 1
  {
    if i < 0 || cnt <= 0 {
    } else if i in locked {
      ShrunkDistinct(ids, i - 1, cnt - 1, locked);
    } else {
      ShrunkDistinct(ids[..i] + ids[i + 1..], i - 1, cnt - 1, locked);
    }
  }

  // ---------- taking free IDs ----------

  /** The free IDs from `i` on, ascending. */
  function FreeFrom(used: set<nat>, max: nat, i: nat): seq<nat>
    decreases max - i
  {
    if i >= max then [] else if i in used then FreeFrom(used, max, i + 1) else [i] + FreeFrom(used, max, i + 1)
  }

  lemma {:induction false} FreeFromIs(used: set<nat>, max: nat, i: nat)
    ensures forall x: nat :: x in FreeFrom(used, max, i) <==> i <= x < max && x !in used
    decreases max - i
  {
    if i < max { FreeFromIs(used, max, i + 1); }
  }

  lemma {:induction false} FreeFromAscends(used: set<nat>, max: nat, i: nat)
    ensures var s := FreeFrom(used, max, i);
            && (forall j, k :: 0 <= j < k < |s| ==> s[j] < s[k])
            && Distinct(s)
    decreases max - i
  {
    if i < max {
      FreeFromAscends(used, max, i + 1);
      FreeFromIs(used, max, i + 1);
      var t := FreeFrom(used, max, i + 1);
      forall k | 0 <= k < |t| ensures i < t[k] { assert t[k] in t; }
    }
  }

  /** The first clear bit at or after `i`. */
  method NextClear(used: set<nat>, max: nat, i: nat) returns (j: nat, ok: bool)
    ensures ok == (FreeFrom(used, max, i) != [])
    ensures j == if ok then FreeFrom(used, max, i)[0] else 0
  {
    j := i;
    while j < max
      invariant FreeFrom(used, max, j) == FreeFrom(used, max, i)
    {
      if j !in used { return j, true; }
      j := j + 1;
    }
    return 0, false;
  }

  /** The IDs the allocation loop appends. When no clear bit is left it restarts from 1, and the bits
      it handed out were never set, so it may hand out the same ID again. */
  function GrownFrom(used: set<nat>, max: nat, i: nat, cnt: nat): seq<nat>
    decreases cnt
  {
    if i >= max || cnt == 0 then []
    else
      var free := FreeFrom(used, max, i);
      if free != [] then [free[0]] + GrownFrom(used, max, free[0] + 1, cnt - 1)
      else GrownFrom(used, max, 1, cnt - 1)
  }

  lemma {:induction false} GrownAreFree(used: set<nat>, max: nat, i: nat, cnt: nat)
    ensures |GrownFrom(used, max, i, cnt)| <= cnt
    ensures forall x: nat :: x in GrownFrom(used, max, i, cnt) ==> x < max && x !in used
    decreases cnt
  {
    if i < max && cnt > 0 {
      FreeFromIs(used, max, i);
      var free := FreeFrom(used, max, i);
      if free != [] {
        var f := free[0];
        assert f in free;
        GrownAreFree(used, max, f + 1, cnt - 1);
        var next := GrownFrom(used, max, f + 1, cnt - 1);
        assert GrownFrom(used, max, i, cnt) == [f] + next;
        hide *;
        forall x: nat | x in [f] + next ensures x < max && x !in used {
          assert x == f || x in next;
        }
      } else {
        GrownAreFree(used, max, 1, cnt - 1);
      }
    }
  }

  method Grow(ids: seq<nat>, used: set<nat>, max: nat, cnt: nat) returns (r: seq<nat>)
    ensures r == ids + GrownFrom(used, max, 0, cnt)
  {
    r := ids;
    var i: nat, c: nat := 0, cnt;
    while i < max && c > 0
      invariant r + GrownFrom(used, max, i, c) == ids + GrownFrom(used, max, 0, cnt)
      decreases c
    {
      var ok;
      ghost var rest := GrownFrom(used, max, i, c);
      ghost var was := r;
      i, ok := NextClear(used, max, i);
      if ok { r := r + [i]; }
      i := i + 1;
      c := c - 1;
      assert r + GrownFrom(used, max, i, c) == was + rest;
    }
    assert r + [] == r;
  }

  /** While enough IDs are free, exactly the smallest free ones are taken. */
  lemma {:induction false} GrownIsPrefix(used: set<nat>, max: nat, i: nat, cnt: nat)
    requires cnt <= |FreeFrom(used, max, i)|
    ensures GrownFrom(used, max, i, cnt) == FreeFrom(used, max, i)[..cnt]
    decreases cnt
  {
    if cnt > 0 {
      var free := FreeFrom(used, max, i);
      FreeTail(used, max, i);
      GrownIsPrefix(used, max, free[0] + 1, cnt - 1);
    }
  }

  lemma {:induction false} FreeTail(used: set<nat>, max: nat, i: nat)
    requires FreeFrom(used, max, i) != []
    ensures var free := FreeFrom(used, max, i);
            i <= free[0] < max && FreeFrom(used, max, free[0] + 1) == free[1..]
    decreases max - i
  {
    if i in used { FreeTail(used, max, i + 1); }
  }

  /** Where the scan stands after it has taken all free IDs from `i` on. */
  function Stop(free: seq<nat>, i: nat): nat { if free == [] then i else free[|free| - 1] + 1 }

  /** What the scan appends once nothing is left. */
  function Again(used: set<nat>, max: nat, stop: nat, cnt: nat): seq<nat>
    requires cnt > 0
  {
    if stop < max then GrownFrom(used, max, 1, cnt - 1) else []
  }

  lemma {:induction false} GrownStep(used: set<nat>, max: nat, i: nat, cnt: nat)
    requires i <= max && cnt > 0
    ensures var free := FreeFrom(used, max, i);
            if free == [] then GrownFrom(used, max, i, cnt) == Again(used, max, i, cnt)
            else
              && free[0] < max && FreeFrom(used, max, free[0] + 1) == free[1..]
              && GrownFrom(used, max, i, cnt) == [free[0]] + GrownFrom(used, max, free[0] + 1, cnt - 1)
  {
    if FreeFrom(used, max, i) != [] { FreeTail(used, max, i); }
  }

  /** Beyond that, all free IDs are taken first, and what follows depends on where the scan stopped. */
  lemma {:induction false} GrownBeyond(used: set<nat>, max: nat, i: nat, cnt: nat)
    requires i <= max && cnt > |FreeFrom(used, max, i)|
    ensures var free := FreeFrom(used, max, i);
            GrownFrom(used, max, i, cnt) == free + Again(used, max, Stop(free, i), cnt - |free|)
    decreases cnt
  {
    var free := FreeFrom(used, max, i);
    GrownStep(used, max, i, cnt);
    hide FreeFrom, GrownFrom, Again;
    if free != [] {
      var f := free[0];
      GrownBeyond(used, max, f + 1, cnt - 1);
      assert Stop(free[1..], f + 1) == Stop(free, i);
      Regroup(free, Again(used, max, Stop(free, i), cnt - |free|));
      assert |free[1..]| == |free| - 1;
      hide Stop;
    } else {
      assert [] + Again(used, max, i, cnt) == Again(used, max, i, cnt);
    }
  }

  lemma Regroup(free: seq<nat>, tail: seq<nat>)
    requires free != []
    ensures [free[0]] + (free[1..] + tail) == free + tail
  {
  }

  /** When the loop hands out an ID twice: it is asked for at least two more IDs than are free, and the
      largest free one is neither 0 nor the last ID. */
  predicate HandsOutTwice(used: set<nat>, max: nat, cnt: nat) {
    var free := FreeFrom(used, max, 0);
    free != [] && cnt >= |free| + 2 && 1 <= free[|free| - 1] < max - 1
  }

  lemma {:induction false} NothingToGrow(used: set<nat>, max: nat, cnt: nat)
    requires FreeFrom(used, max, 1) == []
    ensures GrownFrom(used, max, 1, cnt) == []
    decreases cnt
  {
    if cnt > 0 { NothingToGrow(used, max, cnt - 1); }
  }

  /** The appended IDs are free of duplicates exactly when that condition fails. */
  lemma {:induction false} GrownDistinctIff(used: set<nat>, max: nat, cnt: nat)
    ensures Distinct(GrownFrom(used, max, 0, cnt)) <==> !HandsOutTwice(used, max, cnt)
  {
    var free := FreeFrom(used, max, 0);
    FreeFromAscends(used, max, 0);
    FreeFromIs(used, max, 0);
    FreeFromIs(used, max, 1);
    if cnt <= |free| {
      GrownIsPrefix(used, max, 0, cnt);
    } else {
      GrownBeyond(used, max, 0, cnt);
      var later := FreeFrom(used, max, 1);
      var stop := if free == [] then 0 else free[|free| - 1] + 1;
      if stop >= max {
      } else if later == [] {
        NothingToGrow(used, max, cnt - |free| - 1);
        if free != [] { assert free[|free| - 1] in free; }
      } else {
        assert later[0] in later;
        assert later[0] in free;
        assert free[|free| - 1] >= 1;
        var again := GrownFrom(used, max, 1, cnt - |free| - 1);
        if cnt >= |free| + 2 {
          assert again[0] == later[0];
          var k :| 0 <= k < |free| && free[k] == later[0];
          var r := free + again;
          assert r[k] == r[|free|];
        } else {
          assert again == [];
        }
      }
    }
  }

  // ---------- fair shares ----------

  /** What the consumer at position `index` of `n` should hold. */
  function Share(max: nat, n: nat, index: int): int
    requires n > 0 && -1 <= index
  {
    (max + n - index - 1) / n
  }

  /** Shares differ by at most one: the first `max % n` consumers hold one more. */
  lemma {:induction false} ShareValue(max: nat, n: nat, index: nat)
    requires index < n
    ensures Share(max, n, index) == max / n + (if index < max % n then 1 else 0)
  {
    var q, r := max / n, max % n;
    assert max == n * q + r;
    if index < r {
      assert max + n - index - 1 == n * (q + 1) + (r - index - 1) by { assert n * (q + 1) == n * q + n; }
      IntMath.DivModUnique(max + n - index - 1, n, q + 1, r - index - 1);
    } else {
      IntMath.DivModUnique(max + n - index - 1, n, q, n + r - index - 1);
    }
  }

  function ShareSum(max: nat, n: nat, k: nat): int
    requires n > 0 && k <= n
  {
    if k == 0 then 0 else ShareSum(max, n, k - 1) + Share(max, n, k - 1)
  }

  lemma {:induction false} ShareSumValue(max: nat, n: nat, k: nat)
    requires n > 0 && k <= n
    ensures ShareSum(max, n, k) == k * (max / n) + (if k < max % n then k else max % n)
  {
    if k > 0 {
      ShareSumValue(max, n, k - 1);
      ShareValue(max, n, k - 1);
      assert k * (max / n) == (k - 1) * (max / n) + max / n;
    }
  }

  /** The shares of all consumers add up to the number of IDs. */
  lemma {:induction false} SharesAddUp(max: nat, n: nat)
    requires n > 0
    ensures ShareSum(max, n, n) == max
  {
    ShareSumValue(max, n, n);
    assert max == n * (max / n) + max % n;
  }

  // ---------- one allocateIDs call ----------

  function UsedIds(ws: seq<Consumer>): set<nat> {
    set i, x | 0 <= i < |ws| && x in ws[i].ids :: x
  }

  /** The caller's IDs after it has been brought to its share. */
  function Allocated(ws: seq<Consumer>, ids: seq<nat>, index: int, max: nat, locked: set<int>): seq<nat>
    requires |ws| > 0 && -1 <= index
  {
    var need := Share(max, |ws|, index) - |ids|;
    if need < 0 then Released(ids, -need, locked)
    else ids + GrownFrom(UsedIds(ws), max, 0, need)
  }

  /** The row with the caller's beat recorded; a new caller is appended without IDs. */
  function Beaten(row: seq<Consumer>, name: string, now: int): (ws: seq<Consumer>)
    ensures FindByName(ws, name) >= 0
  {
    var i := FindByName(row, name);
    var ws := if i == -1 then row + [Consumer(name, [], now)] else row[i := row[i].(recent := now)];
    assert ws[if i == -1 then |row| else i].name == name;
    ws
  }

  datatype Call = Call(name: string, now: int, later: int, locked: set<int>)

  datatype Outcome = Panic | Done(row: seq<Consumer>, ids: seq<nat>)

  /** `now` is read when the call starts, `later` when the row is collated. */
  function CallOutcome(row: seq<Consumer>, c: Call, heartbeat: int, max: nat): Outcome {
    var ws := Beaten(row, c.name, c.now);
    var self := ws[FindByName(ws, c.name)];
    var living := Living(ws, c.later, heartbeat);
    if living == [] then Panic
    else
      var k := FindByName(living, c.name);
      var ids := Allocated(living, self.ids, k, max, c.locked);
      Done(if k >= 0 then living[k := living[k].(ids := ids)] else living, ids)
  }

  // ---------- IDs are never shared ----------

  ghost predicate Apart(a: Consumer, b: Consumer) {
    a.name != b.name && forall x: nat :: !(x in a.ids && x in b.ids)
  }

  /** Names are unique, IDs are in range, and no two consumers hold the same ID. */
  ghost predicate Unshared(ws: seq<Consumer>, max: nat) {
    && (forall i, j :: 0 <= i < j < |ws| ==> Apart(ws[i], ws[j]))
    && (forall i, x: nat :: 0 <= i < |ws| && x in ws[i].ids ==> x < max)
  }

  lemma {:induction false} BeatenUnshared(row: seq<Consumer>, name: string, now: int, max: nat)
    requires Unshared(row, max)
    ensures Unshared(Beaten(row, name, now), max)
    ensures var ws := Beaten(row, name, now); ws[FindByName(ws, name)].recent == now
  {
    var ws := Beaten(row, name, now);
    var i := FindByName(row, name);
    if i == -1 {
      assert ws[|row|].name == name;
      forall a, b | 0 <= a < b < |ws| ensures Apart(ws[a], ws[b]) {
        if b < |row| { assert Apart(row[a], row[b]); }
      }
    } else {
      assert ws[i].name == name;
      forall a, b | 0 <= a < b < |ws| ensures Apart(ws[a], ws[b]) {
        assert Apart(row[a], row[b]);
      }
      assert FindByName(ws, name) == i;
    }
  }

  lemma {:induction false} LivingUnshared(ws: seq<Consumer>, now: int, heartbeat: int, max: nat)
    requires Unshared(ws, max)
    ensures Unshared(Living(ws, now, heartbeat), max)
  {
    if ws != [] {
      var n := |ws| - 1;
      LivingUnshared(ws[..n], now, heartbeat, max);
      LivingMembers(ws[..n], now, heartbeat);
      var l := Living(ws[..n], now, heartbeat);
      forall k | 0 <= k < |l| ensures Apart(l[k], ws[n]) {
        assert l[k] in l;
        var j :| 0 <= j < n && ws[..n][j] == l[k];
        assert Apart(ws[j], ws[n]);
      }
    }
  }

  /** New IDs are taken from nobody. */
  lemma {:induction false} AllocatedApart(ws: seq<Consumer>, k: nat, max: nat, locked: set<int>)
    requires Unshared(ws, max) && k < |ws|
    ensures var ids := Allocated(ws, ws[k].ids, k, max, locked);
            forall x: nat :: x in ids ==> x < max && (x in ws[k].ids || x !in UsedIds(ws))
  {
    var ids := Allocated(ws, ws[k].ids, k, max, locked);
    var need := Share(max, |ws|, k) - |ws[k].ids|;
    if need >= 0 { GrownAreFree(UsedIds(ws), max, 0, need); } else { ReleasedKeeps(ws[k].ids, -need, locked); }
  }

  lemma {:induction false} UpdateUnshared(ws: seq<Consumer>, k: nat, ids: seq<nat>, max: nat)
    requires Unshared(ws, max) && k < |ws|
    requires forall x: nat :: x in ids ==> x < max && (x in ws[k].ids || x !in UsedIds(ws))
    ensures Unshared(ws[k := ws[k].(ids := ids)], max)
  {
    var ws' := ws[k := ws[k].(ids := ids)];
    forall i, j | 0 <= i < j < |ws'| ensures Apart(ws'[i], ws'[j]) {
      assert Apart(ws[i], ws[j]);
      if i == k || j == k {
        var o := if i == k then j else i;
        assert forall x: nat :: x in ws[o].ids ==> x in UsedIds(ws);
      }
    }
  }

  /** One call keeps the IDs apart. The caller is kept exactly when its own beat, taken at `now`, is
      still fresh at `later`; otherwise it is expired by its own call. */
  lemma {:induction false} CallKeepsUnshared(row: seq<Consumer>, c: Call, heartbeat: int, max: nat)
    requires Unshared(row, max)
    ensures var o := CallOutcome(row, c, heartbeat, max);
            && (o.Done? ==> Unshared(o.row, max))
            && (c.later - c.now < 20 * heartbeat <==> o.Done? && FindByName(o.row, c.name) >= 0)
            && (o.Done? && FindByName(o.row, c.name) >= 0 ==> o.ids == o.row[FindByName(o.row, c.name)].ids)
  {
    var ws := Beaten(row, c.name, c.now);
    BeatenUnshared(row, c.name, c.now, max);
    var me := ws[FindByName(ws, c.name)];
    var living := Living(ws, c.later, heartbeat);
    LivingUnshared(ws, c.later, heartbeat, max);
    LivingMembers(ws, c.later, heartbeat);
    OnlyMe(ws, c.name, max);
    var k := FindByName(living, c.name);
    if k >= 0 {
      assert living[k] in living;
      assert living[k] == me;
      AllocatedApart(living, k, max, c.locked);
      var ids := Allocated(living, living[k].ids, k, max, c.locked);
      UpdateUnshared(living, k, ids, max);
      SameNames(living, k, ids, c.name);
    } else {
      assert me !in living;
    }
  }

  lemma {:induction false} OnlyMe(ws: seq<Consumer>, name: string, max: nat)
    requires Unshared(ws, max)
    ensures forall c :: c in ws && c.name == name ==> FindByName(ws, name) >= 0 && c == ws[FindByName(ws, name)]
  {
    forall c | c in ws && c.name == name ensures FindByName(ws, name) >= 0 && c == ws[FindByName(ws, name)] {
      var i :| 0 <= i < |ws| && ws[i] == c;
      assert FindByName(ws, name) == i;
    }
  }

  lemma {:induction false} SameNames(ws: seq<Consumer>, k: nat, ids: seq<nat>, name: string)
    requires k < |ws|
    ensures FindByName(ws[k := ws[k].(ids := ids)], name) == FindByName(ws, name)
    decreases |ws|
  {
    var ws' := ws[k := ws[k].(ids := ids)];
    if ws[0].name != name {
      if k == 0 { assert ws'[1..] == ws[1..]; }
      else {
        assert ws'[1..] == ws[1..][k - 1 := ws[1..][k - 1].(ids := ids)];
        SameNames(ws[1..], k - 1, ids, name);
      }
    }
  }

  /** The row after any sequence of calls; a call that panics writes nothing. */
  function RunFrom(row: seq<Consumer>, calls: seq<Call>, heartbeat: int, max: nat): seq<Consumer> {
    if calls == [] then row
    else
      var before := RunFrom(row, calls[..|calls| - 1], heartbeat, max);
      var o := CallOutcome(before, calls[|calls| - 1], heartbeat, max);
      if o.Done? then o.row else before
  }

  /** In every run of joins, beats, expiries, shrinks and grows, no ID is held by two consumers. */
  lemma {:induction false} NeverShared(row: seq<Consumer>, calls: seq<Call>, heartbeat: int, max: nat)
    requires Unshared(row, max)
    ensures Unshared(RunFrom(row, calls, heartbeat, max), max)
  {
    if calls != [] {
      NeverShared(row, calls[..|calls| - 1], heartbeat, max);
      CallKeepsUnshared(RunFrom(row, calls[..|calls| - 1], heartbeat, max), calls[|calls| - 1], heartbeat, max);
    }
  }

  // ---------- the stored row ----------

  function SetOf(s: seq<nat>): set<nat> { set x | x in s }

  /** The bits of all IDs that any living consumer holds. */
  method MarkUsed(ws: seq<Consumer>) returns (used: set<nat>)
    ensures used == UsedIds(ws)
  {
    used := {};
    var i := 0;
    while i < |ws|
      invariant 0 <= i <= |ws| && used == UsedIds(ws[..i])
    {
      var ids, j := ws[i].ids, 0;
      while j < |ids|
        invariant 0 <= j <= |ids| && used == UsedIds(ws[..i]) + SetOf(ids[..j])
      {
        assert ids[..j + 1] == ids[..j] + [ids[j]];
        used := used + {ids[j]};
        j := j + 1;
      }
      assert ids[..j] == ids;
      assert ws[..i + 1] == ws[..i] + [ws[i]];
      assert UsedIds(ws[..i + 1]) == UsedIds(ws[..i]) + SetOf(ids) by {
        forall x | x in UsedIds(ws[..i]) + SetOf(ids) ensures x in UsedIds(ws[..i + 1]) {
          if x in ids { assert ws[..i + 1][i].ids == ids; }
          else { var a, y :| 0 <= a < i && y in ws[..i][a].ids && y == x; assert ws[..i + 1][a] == ws[..i][a]; }
        }
      }
      i := i + 1;
    }
    assert ws[..i] == ws;
  }

  lemma GrowNothing(ids: seq<nat>, used: set<nat>, max: nat)
    ensures ids + GrownFrom(used, max, 0, 0) == ids
  {
  }

  class Row {
    var consumers: seq<Consumer>
    const heartbeat: int
    const maxInstances: nat

    constructor (heartbeat: int, maxInstances: nat)
      ensures consumers == [] && this.heartbeat == heartbeat && this.maxInstances == maxInstances
    {
      consumers := [];
      this.heartbeat := heartbeat;
      this.maxInstances := maxInstances;
    }

    /** Reads the row, records the caller's beat, expires silent consumers, brings the caller to its share
        and writes the row back. `ok` is false when the call divides by zero, because it expired
        everybody including itself. */
    method AllocateIDs(c: Call) returns (ok: bool, ids: seq<nat>)
      modifies this
      ensures var o := CallOutcome(old(consumers), c, heartbeat, maxInstances);
              && ok == o.Done?
              && (ok ==> consumers == o.row && ids == o.ids)
              && (!ok ==> consumers == old(consumers))
    {
      hide Beaten, Living, UsedIds, GrownFrom, LockedIds, WalkEnd, Share;
      var beaten := Beaten(consumers, c.name, c.now);
      var self := beaten[FindByName(beaten, c.name)];
      var ws := new Consumer[|beaten|](i requires 0 <= i < |beaten| => beaten[i]);
      assert ws[..] == beaten;
      var n := Collate(ws, c.later, heartbeat);
      var living := ws[..n];
      if n == 0 { return false, []; }
      var k := FindByName(living, c.name);
      ids := self.ids;
      var need := Share(maxInstances, n, k) - |ids|;
      if need < 0 {
        ids := Shrink(ids, -need, c.locked);
      } else if need > 0 {
        var used := MarkUsed(living);
        ids := Grow(ids, used, maxInstances, need);
      } else {
        GrowNothing(ids, UsedIds(living), maxInstances);
      }
      consumers := if k >= 0 then living[k := living[k].(ids := ids)] else living;
      ok := true;
    }
  }
}
