/** A run without locks after which one consumer holds an ID twice and another ID is held by nobody, for
    good: three consumers join one after the other, and the third asks for its share before the second
    has given back what it holds too many. */
module RegistryRuns {
  import opened Registry
  import opened RegistryRounds

  const NameA := "a"
  const NameB := "b"
  const NameC := "c"

  /** All calls happen at the same moment. */
  function By(name: string): Call { Call(name, 0, 0, {}) }

  function Row1(x: seq<nat>): seq<Consumer> { [Consumer(NameA, x, 0)] }

  function Row2(x: seq<nat>, y: seq<nat>): seq<Consumer> { Row1(x) + [Consumer(NameB, y, 0)] }

  function Row3(x: seq<nat>, y: seq<nat>, z: seq<nat>): seq<Consumer> { Row2(x, y) + [Consumer(NameC, z, 0)] }

  // ---------- free IDs ----------

  predicate Ascends(s: seq<nat>) { forall i, j :: 0 <= i < j < |s| ==> s[i] < s[j] }

  lemma FirstMember(s: seq<nat>)
    requires s != []
    ensures s[0] in s
  {
  }

  lemma {:induction false} SameAscending(s: seq<nat>, t: seq<nat>)
    requires Ascends(s) && Ascends(t) && forall x: nat :: x in s <==> x in t
    ensures s == t
    decreases |s|
  {
    if s == [] {
      if t != [] { FirstMember(t); }
    } else {
      assert s[0] in s && s[0] in t && t != [] && t[0] in t && t[0] in s;
      assert s[0] <= t[0] <= s[0];
      forall x: nat ensures x in s[1..] <==> x in t[1..] {
        assert x in s <==> x == s[0] || x in s[1..];
        assert x in t <==> x == t[0] || x in t[1..];
        assert x in s[1..] ==> x > s[0];
        assert x in t[1..] ==> x > t[0];
      }
      SameAscending(s[1..], t[1..]);
      assert s == [s[0]] + s[1..] && t == [t[0]] + t[1..];
    }
  }

  lemma {:induction false} FreeIs(used: set<nat>, max: nat, s: seq<nat>)
    requires Ascends(s) && forall x: nat :: x in s <==> x < max && x !in used
    ensures FreeFrom(used, max, 0) == s
  {
    hide FreeFrom;
    FreeFromIs(used, max, 0);
    FreeFromAscends(used, max, 0);
    SameAscending(FreeFrom(used, max, 0), s);
  }

  /** Taking some of the free IDs. */
  lemma {:induction false} Takes(ws: seq<Consumer>, ids: seq<nat>, k: nat, free: seq<nat>)
    requires k < |ws| && Ascends(free) && forall x: nat :: x in free <==> x < 10 && x !in UsedIds(ws)
    requires 0 <= Share(10, |ws|, k) - |ids| <= |free|
    ensures Allocated(ws, ids, k, 10, {}) == ids + free[..Share(10, |ws|, k) - |ids|]
  {
    hide FreeFrom, UsedIds, GrownFrom, Share;
    FreeIs(UsedIds(ws), 10, free);
    GrownIsPrefix(UsedIds(ws), 10, 0, Share(10, |ws|, k) - |ids|);
  }

  /** Nothing is free: nothing is taken. */
  lemma {:induction false} TakesNothing(ws: seq<Consumer>, ids: seq<nat>, k: nat)
    requires k < |ws| && (forall x: nat :: x < 10 ==> x in UsedIds(ws)) && Share(10, |ws|, k) >= |ids|
    ensures Allocated(ws, ids, k, 10, {}) == ids
  {
    var used := UsedIds(ws);
    var need := Share(10, |ws|, k) - |ids|;
    hide FreeFrom, UsedIds, Share, GrownFrom;
    FreeIs(used, 10, []);
    if need == 0 { GrowNothing(ids, used, 10); }
    else {
      GrownBeyond(used, 10, 0, need);
      NoneFrom(used);
      NothingToGrow(used, 10, need - 1);
      assert ids + ([] + []) == ids;
    }
  }

  lemma NoneFrom(used: set<nat>)
    requires forall x: nat :: x < 10 ==> x in used
    ensures FreeFrom(used, 10, 1) == []
  {
    FreeFromIs(used, 10, 1);
    if FreeFrom(used, 10, 1) != [] { FirstMember(FreeFrom(used, 10, 1)); }
  }

  /** Giving back the last IDs. */
  lemma {:induction false} Gives(ws: seq<Consumer>, ids: seq<nat>, k: nat)
    requires k < |ws| && 0 <= Share(10, |ws|, k) < |ids|
    ensures Allocated(ws, ids, k, 10, {}) == ids[..Share(10, |ws|, k)]
  {
    hide Share;
    NoLockedIds(ids, Share(10, |ws|, k), |ids|, {});
  }

  /** One free ID, three wanted: it is taken twice. */
  lemma {:induction false} TakesTwice(ws: seq<Consumer>, k: nat)
    requires k < |ws| && Share(10, |ws|, k) == 3 && forall x: nat :: x == 4 <==> x < 10 && x !in UsedIds(ws)
    ensures Allocated(ws, [], k, 10, {}) == [4, 4]
  {
    var used := UsedIds(ws);
    hide FreeFrom, UsedIds, Share, GrownFrom;
    FreeIs(used, 10, [4]);
    GrownBeyond(used, 10, 0, 3);
    assert Stop([4], 0) == 5;
    FourFrom(used);
    GrownIsPrefix(used, 10, 1, 1);
    assert [] + ([4] + [4]) == [4, 4];
  }

  lemma FourFrom(used: set<nat>)
    requires forall x: nat :: x == 4 <==> x < 10 && x !in used
    ensures FreeFrom(used, 10, 1) == [4]
  {
    hide FreeFrom;
    FreeFromIs(used, 10, 1);
    FreeFromAscends(used, 10, 1);
    SameAscending(FreeFrom(used, 10, 1), [4]);
  }

  // ---------- single calls ----------

  /** A known consumer calls: only its own entry changes. */
  lemma {:induction false} Beats(ws: seq<Consumer>, k: nat, name: string, ids: seq<nat>)
    requires k < |ws| && FindByName(ws, name) == k && (forall i :: 0 <= i < |ws| ==> ws[i].recent == 0)
    requires Allocated(ws, ws[k].ids, k, 10, {}) == ids
    ensures CallOutcome(ws, By(name), 1, 10) == Done(ws[k := ws[k].(ids := ids)], ids)
  {
    hide FindByName, Allocated, CallOutcome;
    CallServes(ws, By(name), 1, 10);
  }

  /** A new consumer calls: it is appended. */
  lemma {:induction false} Joins(ws: seq<Consumer>, name: string, ids: seq<nat>)
    requires FindByName(ws, name) == -1 && (forall i :: 0 <= i < |ws| ==> ws[i].recent == 0)
    requires Allocated(ws + [Consumer(name, [], 0)], [], |ws|, 10, {}) == ids
    ensures CallOutcome(ws, By(name), 1, 10) == Done(ws + [Consumer(name, ids, 0)], ids)
  {
    var all := ws + [Consumer(name, [], 0)];
    assert Beaten(ws, name, 0) == all;
    NewIsLast(ws, Consumer(name, [], 0));
    hide FindByName, Allocated, CallOutcome, Beaten;
    QuietCall(ws, By(name), all, |ws|, ids, 1, 10);
    assert all[|ws| := all[|ws|].(ids := ids)] == ws + [Consumer(name, ids, 0)];
  }

  lemma {:induction false} NewIsLast(ws: seq<Consumer>, c: Consumer)
    requires FindByName(ws, c.name) == -1
    ensures FindByName(ws + [c], c.name) == |ws|
  {
    if ws != [] {
      assert (ws + [c])[1..] == ws[1..] + [c];
      NewIsLast(ws[1..], c);
    }
  }

  lemma FindSkips(ws: seq<Consumer>, name: string)
    requires ws != [] && ws[0].name != name
    ensures FindByName(ws, name) == if FindByName(ws[1..], name) < 0 then -1 else FindByName(ws[1..], name) + 1
  {
  }

  lemma Names(x: seq<nat>, y: seq<nat>, z: seq<nat>)
    ensures FindByName([], NameA) == -1 && FindByName(Row1(x), NameB) == -1 && FindByName(Row2(x, y), NameC) == -1
    ensures FindByName(Row2(x, y), NameA) == FindByName(Row3(x, y, z), NameA) == 0
    ensures FindByName(Row2(x, y), NameB) == FindByName(Row3(x, y, z), NameB) == 1 && FindByName(Row3(x, y, z), NameC) == 2
  {
    assert NameA != NameB && NameA != NameC && NameB != NameC;
    hide NameA, NameB, NameC;
    var r1, r2, r3 := Row1(x), Row2(x, y), Row3(x, y, z);
    var b, c := Consumer(NameB, y, 0), Consumer(NameC, z, 0);
    assert r1[1..] == [] && r2[1..] == [b] && [b][1..] == [] && r3[1..] == [b, c] && [b, c][1..] == [c] && [c][1..] == [];
    FindSkips(r1, NameB);
    FindSkips(r2, NameB);
    FindSkips(r3, NameB);
    FindSkips(r2, NameC);
    FindSkips([b], NameC);
    FindSkips(r3, NameC);
    FindSkips([b, c], NameC);
  }

  lemma Used(x: seq<nat>, y: seq<nat>, z: seq<nat>)
    ensures forall i: nat :: i in UsedIds(Row1(x)) <==> i in x
    ensures forall i: nat :: i in UsedIds(Row2(x, y)) <==> i in x || i in y
    ensures forall i: nat :: i in UsedIds(Row3(x, y, z)) <==> i in x || i in y || i in z
  {
    var r1, r2, r3 := Row1(x), Row2(x, y), Row3(x, y, z);
    assert r1[0].ids == x && r2[0].ids == x && r2[1].ids == y && r3[0].ids == x && r3[1].ids == y && r3[2].ids == z;
  }

  lemma Shares()
    ensures Share(10, 1, 0) == 10 && Share(10, 2, 0) == 5 && Share(10, 2, 1) == 5
    ensures Share(10, 3, 0) == 4 && Share(10, 3, 1) == 3 && Share(10, 3, 2) == 3
  {
  }

  // ---------- the run ----------

  /** The ten IDs, and stretches of them. */
  function Ids(lo: nat, hi: nat): (s: seq<nat>)
    requires lo <= hi
    ensures |s| == hi - lo && (forall x: nat :: x in s <==> lo <= x < hi) && (forall i :: 0 <= i < |s| ==> s[i] == lo + i)
  {
    if lo == hi then [] else Ids(lo, hi - 1) + [hi - 1]
  }

  lemma {:induction false} CallA1()
    ensures CallOutcome([], By(NameA), 1, 10) == Done(Row1(Ids(0, 10)), Ids(0, 10))
  {
    hide Share, FindByName, UsedIds, Allocated, CallOutcome;
    Shares();
    Names([], [], []);
    Used([], [], []);
    assert [] + [Consumer(NameA, [], 0)] == Row1([]);
    Takes(Row1([]), [], 0, Ids(0, 10));
    assert [] + Ids(0, 10)[..10] == Ids(0, 10);
    Joins([], NameA, Ids(0, 10));
    assert [] + [Consumer(NameA, Ids(0, 10), 0)] == Row1(Ids(0, 10));
  }

  lemma {:induction false} CallB1()
    ensures CallOutcome(Row1(Ids(0, 10)), By(NameB), 1, 10) == Done(Row2(Ids(0, 10), []), [])
  {
    hide Share, FindByName, UsedIds, Allocated, CallOutcome;
    Shares();
    Names(Ids(0, 10), [], []);
    Used(Ids(0, 10), [], []);
    TakesNothing(Row2(Ids(0, 10), []), [], 1);
    Joins(Row1(Ids(0, 10)), NameB, []);
  }

  lemma {:induction false} CallA2()
    ensures CallOutcome(Row2(Ids(0, 10), []), By(NameA), 1, 10) == Done(Row2(Ids(0, 5), []), Ids(0, 5))
  {
    hide Share, FindByName, Allocated, CallOutcome;
    Shares();
    Names(Ids(0, 10), [], []);
    var ws := Row2(Ids(0, 10), []);
    Gives(ws, Ids(0, 10), 0);
    assert Ids(0, 10)[..5] == Ids(0, 5);
    Beats(ws, 0, NameA, Ids(0, 5));
    assert ws[0 := ws[0].(ids := Ids(0, 5))] == Row2(Ids(0, 5), []);
  }

  lemma {:induction false} CallB2()
    ensures CallOutcome(Row2(Ids(0, 5), []), By(NameB), 1, 10) == Done(Row2(Ids(0, 5), Ids(5, 10)), Ids(5, 10))
  {
    hide Share, FindByName, UsedIds, Allocated, CallOutcome;
    Shares();
    Names(Ids(0, 5), [], []);
    Used(Ids(0, 5), [], []);
    var ws := Row2(Ids(0, 5), []);
    Takes(ws, [], 1, Ids(5, 10));
    assert [] + Ids(5, 10)[..5] == Ids(5, 10);
    Beats(ws, 1, NameB, Ids(5, 10));
    assert ws[1 := ws[1].(ids := Ids(5, 10))] == Row2(Ids(0, 5), Ids(5, 10));
  }

  lemma {:induction false} CallC1()
    ensures CallOutcome(Row2(Ids(0, 5), Ids(5, 10)), By(NameC), 1, 10) == Done(Row3(Ids(0, 5), Ids(5, 10), []), [])
  {
    hide Share, FindByName, UsedIds, Allocated, CallOutcome;
    Shares();
    Names(Ids(0, 5), Ids(5, 10), []);
    Used(Ids(0, 5), Ids(5, 10), []);
    TakesNothing(Row3(Ids(0, 5), Ids(5, 10), []), [], 2);
    Joins(Row2(Ids(0, 5), Ids(5, 10)), NameC, []);
  }

  lemma {:induction false} CallA3()
    ensures CallOutcome(Row3(Ids(0, 5), Ids(5, 10), []), By(NameA), 1, 10) == Done(Row3(Ids(0, 4), Ids(5, 10), []), Ids(0, 4))
  {
    hide Share, FindByName, Allocated, CallOutcome;
    Shares();
    Names(Ids(0, 5), Ids(5, 10), []);
    var ws := Row3(Ids(0, 5), Ids(5, 10), []);
    Gives(ws, Ids(0, 5), 0);
    assert Ids(0, 5)[..4] == Ids(0, 4);
    Beats(ws, 0, NameA, Ids(0, 4));
    assert ws[0 := ws[0].(ids := Ids(0, 4))] == Row3(Ids(0, 4), Ids(5, 10), []);
  }

  lemma {:induction false} CallC2()
    ensures CallOutcome(Row3(Ids(0, 4), Ids(5, 10), []), By(NameC), 1, 10) == Done(Row3(Ids(0, 4), Ids(5, 10), [4, 4]), [4, 4])
  {
    hide Share, FindByName, UsedIds, Allocated, CallOutcome;
    Shares();
    Names(Ids(0, 4), Ids(5, 10), []);
    Used(Ids(0, 4), Ids(5, 10), []);
    var ws := Row3(Ids(0, 4), Ids(5, 10), []);
    TakesTwice(ws, 2);
    Beats(ws, 2, NameC, [4, 4]);
    assert ws[2 := ws[2].(ids := [4, 4])] == Row3(Ids(0, 4), Ids(5, 10), [4, 4]);
  }

  lemma {:induction false} CallB3()
    ensures CallOutcome(Row3(Ids(0, 4), Ids(5, 10), [4, 4]), By(NameB), 1, 10) == Done(Row3(Ids(0, 4), Ids(5, 8), [4, 4]), Ids(5, 8))
  {
    hide Share, FindByName, Allocated, CallOutcome;
    Shares();
    Names(Ids(0, 4), Ids(5, 10), [4, 4]);
    var ws := Row3(Ids(0, 4), Ids(5, 10), [4, 4]);
    Gives(ws, Ids(5, 10), 1);
    assert Ids(5, 10)[..3] == Ids(5, 8);
    Beats(ws, 1, NameB, Ids(5, 8));
    assert ws[1 := ws[1].(ids := Ids(5, 8))] == Row3(Ids(0, 4), Ids(5, 8), [4, 4]);
  }

  lemma {:induction false} CallC3()
    ensures CallOutcome(Row3(Ids(0, 4), Ids(5, 8), [4, 4]), By(NameC), 1, 10) == Done(Row3(Ids(0, 4), Ids(5, 8), [4, 4, 8]), [4, 4, 8])
  {
    hide Share, FindByName, UsedIds, Allocated, CallOutcome;
    Shares();
    Names(Ids(0, 4), Ids(5, 8), [4, 4]);
    Used(Ids(0, 4), Ids(5, 8), [4, 4]);
    var ws := Row3(Ids(0, 4), Ids(5, 8), [4, 4]);
    Takes(ws, [4, 4], 2, [8, 9]);
    assert [4, 4] + [8, 9][..1] == [4, 4, 8];
    Beats(ws, 2, NameC, [4, 4, 8]);
    assert ws[2 := ws[2].(ids := [4, 4, 8])] == Row3(Ids(0, 4), Ids(5, 8), [4, 4, 8]);
  }

  lemma {:induction false} RunStep(calls: seq<Call>, c: Call)
    ensures var o := CallOutcome(RunFrom([], calls, 1, 10), c, 1, 10);
            o.Done? ==> RunFrom([], calls + [c], 1, 10) == o.row
  {
    hide CallOutcome;
    assert (calls + [c])[..|calls|] == calls;
  }

  function Joining(): seq<Call> { [By(NameA), By(NameB), By(NameA), By(NameB), By(NameC)] }

  function Settling(): seq<Call> { [By(NameA), By(NameC), By(NameB), By(NameC)] }

  lemma {:induction false} AfterJoining()
    ensures RunFrom([], Joining(), 1, 10) == Row3(Ids(0, 5), Ids(5, 10), [])
  {
    hide CallOutcome, RunFrom, By, Ids;
    var a, b, c := By(NameA), By(NameB), By(NameC);
    RunNothing();
    RunStep([], a);
    assert [] + [a] == [a];
    RunStep([a], b);
    assert [a] + [b] == [a, b];
    RunStep([a, b], a);
    assert [a, b] + [a] == [a, b, a];
    RunStep([a, b, a], b);
    assert [a, b, a] + [b] == [a, b, a, b];
    RunStep([a, b, a, b], c);
    assert [a, b, a, b] + [c] == Joining();
    CallA1();
    CallB1();
    CallA2();
    CallB2();
    CallC1();
  }

  lemma RunNothing()
    ensures RunFrom([], [], 1, 10) == []
  {
  }

  /** Nine calls, no locks: the third consumer ends up with ID 4 twice. */
  lemma {:induction false} DuplicateIsReachable()
    ensures RunFrom([], Joining() + Settling(), 1, 10) == Row3([0, 1, 2, 3], [5, 6, 7], [4, 4, 8])
  {
    hide CallOutcome, RunFrom, By;
    var a, b, c := By(NameA), By(NameB), By(NameC);
    var j := Joining();
    AfterJoining();
    RunStep(j, a);
    RunStep(j + [a], c);
    RunStep(j + [a] + [c], b);
    RunStep(j + [a] + [c] + [b], c);
    assert j + [a] + [c] + [b] + [c] == j + Settling();
    CallA3();
    CallC2();
    CallB3();
    CallC3();
    assert Ids(0, 4) == [0, 1, 2, 3] && Ids(5, 8) == [5, 6, 7];
  }

  /** From there on everybody is at its share, and however often they call, nobody ever holds ID 9. */
  lemma {:induction false} NineIsLost(calls: seq<Call>)
    requires Quiet(RunFrom([], Joining() + Settling(), 1, 10), calls, 1, 10)
    ensures var r := RunFrom(RunFrom([], Joining() + Settling(), 1, 10), calls, 1, 10); AtShares(r, 10) && !IsHeld(r, 9)
  {
    DuplicateIsReachable();
    Shares();
    hide CallOutcome, RunFrom, Quiet, Share, By;
    var row := Row3([0, 1, 2, 3], [5, 6, 7], [4, 4, 8]);
    assert AtShares(row, 10);
    SharesAreFinal(row, calls, 1, 10);
  }
}
