/**
  * Things may be placed under other things. Parent links of live things must stay a forest: the
  * searches over descendants only terminate, and make sense, because they do.
  */
module ThingForest {

  /** Live things and the name of their parent; the empty name stands for none. A parent that was
      deleted stays named until its children are told. */
  type Parents = map<string, string>

  /** No cycle: the parent of a live thing, if it is live, has a lower rank. */
  ghost predicate Ranked(parents: Parents, rank: string -> nat) {
    "" !in parents && forall id :: id in parents ==> ParentBelow(parents, rank, id)
  }

  ghost predicate ParentBelow(parents: Parents, rank: string -> nat, id: string)
    requires id in parents
  {
    parents[id] in parents ==> rank(parents[id]) < rank(id)
  }

  ghost predicate Forest(parents: Parents) { exists rank :: Ranked(parents, rank) }

  ghost function Depth(parents: Parents, rank: string -> nat, id: string): nat {
    if id in parents then rank(id) + 1 else 0
  }

  /** `id` is a live proper descendant of `top`. */
  ghost predicate Descends(parents: Parents, rank: string -> nat, top: string, id: string)
    requires Ranked(parents, rank)
    decreases Depth(parents, rank, id)
  {
    id in parents && (parents[id] == top || (assert ParentBelow(parents, rank, id); Descends(parents, rank, top, parents[id])))
  }

  lemma {:induction false} DescendsRank(parents: Parents, rank: string -> nat, top: string, id: string)
    requires Ranked(parents, rank) && Descends(parents, rank, top, id) && top in parents
    ensures rank(top) < rank(id)
    decreases Depth(parents, rank, id)
  {
    assert ParentBelow(parents, rank, id);
    if parents[id] != top { DescendsRank(parents, rank, top, parents[id]); }
  }

  /** A descent passes through a child of its top. */
  lemma {:induction false} FirstStep(parents: Parents, rank: string -> nat, top: string, id: string) returns (child: string)
    requires Ranked(parents, rank) && Descends(parents, rank, top, id)
    ensures child in parents && parents[child] == top && (child == id || Descends(parents, rank, child, id))
    decreases Depth(parents, rank, id)
  {
    if parents[id] == top { return id; }
    assert ParentBelow(parents, rank, id);
    child := FirstStep(parents, rank, top, parents[id]);
  }

  // ---------- isMyChildThing ----------

  method ChildThings(parents: Parents, parent: string) returns (ids: seq<string>)
    ensures forall id :: id in ids <==> id in parents && parents[id] == parent
  {
    ids := [];
    var todo := parents.Keys;
    while todo != {}
      invariant todo <= parents.Keys
      invariant forall id :: id in ids <==> id in parents && id !in todo && parents[id] == parent
      decreases |todo|
    {
      var id :| id in todo;
      if parents[id] == parent { ids := ids + [id]; }
      todo := todo - {id};
    }
  }

  /** `id` is in the list or below one of its members. */
  ghost predicate Reached(parents: Parents, rank: string -> nat, list: seq<string>, id: string)
    requires Ranked(parents, rank)
  {
    exists c :: c in list && (c == id || Descends(parents, rank, c, id))
  }

  ghost predicate AllBelow(parents: Parents, rank: string -> nat, top: string, list: seq<string>, level: nat)
    requires Ranked(parents, rank)
  {
    forall c :: c in list ==> Descends(parents, rank, top, c) && rank(c) >= level
  }

  /** The search through the children, level by level, finds exactly the proper descendants. */
  method IsMyChildThing(parents: Parents, mySelf: string, id: string, ghost rank: string -> nat, ghost bound: nat) returns (found: bool)
    requires Ranked(parents, rank) && forall x :: x in parents ==> rank(x) < bound
    ensures found <==> Descends(parents, rank, mySelf, id)
  {
    var children := ChildThings(parents, mySelf);
    ghost var level := 0;
    if Descends(parents, rank, mySelf, id) { var c := FirstStep(parents, rank, mySelf, id); }
    assert |children| > 0 ==> children[0] in children;
    while |children| > 0
      invariant AllBelow(parents, rank, mySelf, children, level)
      invariant Descends(parents, rank, mySelf, id) ==> Reached(parents, rank, children, id)
      invariant |children| > 0 ==> level < bound
      decreases bound - level
    {
      var ts: seq<string> := [];
      var i := 0;
      while i < |children|
        invariant 0 <= i <= |children|
        invariant AllBelow(parents, rank, mySelf, ts, level + 1)
        invariant Descends(parents, rank, mySelf, id) ==> Reached(parents, rank, children[i..], id) || Reached(parents, rank, ts, id)
      {
        var child := children[i];
        assert child in children;
        if child == id { return true; }
        var ret := ChildThings(parents, child);
        AllBelowMore(parents, rank, mySelf, ts, child, ret, level);
        if Descends(parents, rank, mySelf, id) { ReachedMore(parents, rank, children[i..], ts, ret, id); }
        assert children[i..][1..] == children[i + 1..];
        ts := ts + ret;
        i := i + 1;
      }
      children := ts;
      level := level + 1;
      assert |children| > 0 ==> children[0] in children;
    }
    found := false;
  }

  lemma {:induction false} AllBelowMore(parents: Parents, rank: string -> nat, top: string, ts: seq<string>, child: string, ret: seq<string>, level: nat)
    requires Ranked(parents, rank) && AllBelow(parents, rank, top, ts, level + 1) && Descends(parents, rank, top, child) && rank(child) >= level
    requires forall x :: x in ret <==> x in parents && parents[x] == child
    ensures AllBelow(parents, rank, top, ts + ret, level + 1)
  {
    forall c | c in ts + ret ensures Descends(parents, rank, top, c) && rank(c) >= level + 1 {
      if c in ret { assert ParentBelow(parents, rank, c); }
    }
  }

  lemma {:induction false} ReachedMore(parents: Parents, rank: string -> nat, list: seq<string>, ts: seq<string>, ret: seq<string>, id: string)
    requires Ranked(parents, rank) && list != [] && list[0] != id
    requires Reached(parents, rank, list, id) || Reached(parents, rank, ts, id)
    requires forall x :: x in ret <==> x in parents && parents[x] == list[0]
    ensures Reached(parents, rank, list[1..], id) || Reached(parents, rank, ts + ret, id)
  {
    if Reached(parents, rank, ts, id) {
      var c :| c in ts && (c == id || Descends(parents, rank, c, id));
      assert c in ts + ret;
    } else {
      var c :| c in list && (c == id || Descends(parents, rank, c, id));
      if c == list[0] {
        var child := FirstStep(parents, rank, c, id);
        assert child in ts + ret;
      } else {
        assert c in list[1..];
      }
    }
  }

  // ---------- moving a thing ----------

  /** Ranks after `id` and everything below it are lifted over all other things. */
  ghost function Lifted(parents: Parents, rank: string -> nat, bound: nat, id: string): string -> nat
    requires Ranked(parents, rank)
  {
    x => if x == id || Descends(parents, rank, id, x) then rank(x) + bound else rank(x)
  }

  lemma {:induction false} MoveKeepsRanked(parents: Parents, rank: string -> nat, bound: nat, id: string, parent: string)
    requires Ranked(parents, rank) && id in parents && forall x :: x in parents ==> rank(x) < bound
    requires parent != id && !Descends(parents, rank, id, parent)
    ensures Ranked(parents[id := parent], Lifted(parents, rank, bound, id))
    ensures forall x :: x in parents ==> Lifted(parents, rank, bound, id)(x) < 2 * bound
  {
    var parents', rank' := parents[id := parent], Lifted(parents, rank, bound, id);
    forall x | x in parents' ensures ParentBelow(parents', rank', x) {
      assert ParentBelow(parents, rank, x);
    }
  }

  /** Any ranking of the moved links still orders what was below `id`. */
  lemma {:induction false} StillBelow(parents: Parents, rank: string -> nat, id: string, parent: string, rank': string -> nat, x: string)
    requires Ranked(parents, rank) && id in parents && Ranked(parents[id := parent], rank') && Descends(parents, rank, id, x)
    ensures rank'(id) < rank'(x)
    decreases Depth(parents, rank, x)
  {
    var parents' := parents[id := parent];
    DescendsRank(parents, rank, id, x);
    assert ParentBelow(parents, rank, x) && ParentBelow(parents', rank', x);
    if parents[x] != id { StillBelow(parents, rank, id, parent, rank', parents[x]); }
  }

  /** Placing a thing under a live thing keeps the forest if and only if that thing is neither itself
      nor one of its descendants. */
  lemma {:induction false} MoveKeepsForestIff(parents: Parents, rank: string -> nat, bound: nat, id: string, parent: string)
    requires Ranked(parents, rank) && id in parents && parent in parents && forall x :: x in parents ==> rank(x) < bound
    ensures Forest(parents[id := parent]) <==> parent != id && !Descends(parents, rank, id, parent)
  {
    var parents' := parents[id := parent];
    if parent != id && !Descends(parents, rank, id, parent) {
      MoveKeepsRanked(parents, rank, bound, id, parent);
    } else if Forest(parents') {
      var rank' :| Ranked(parents', rank');
      assert ParentBelow(parents', rank', id);
      if parent != id { StillBelow(parents, rank, id, parent, rank', parent); }
    }
  }

  // ---------- the manager ----------

  datatype Answer = Done | ParentNotFound | Cycled | Invalid | NotFound

  class Manager {
    var parents: Parents
    ghost var rank: string -> nat
    ghost var bound: nat

    ghost predicate Valid() reads this {
      Ranked(parents, rank) && forall x :: x in parents ==> rank(x) < bound
    }

    constructor ()
      ensures Valid() && parents == map[]
    {
      parents := map[];
      rank, bound := (_: string) => 0, 0;
    }

    /** A new thing gets a new identifier, which nothing names yet. */
    method CreateThing(id: string, parent: string) returns (a: Answer)
      requires Valid() && id != "" && id !in parents && (forall x :: x in parents ==> parents[x] != id)
      modifies this
      ensures Valid()
      ensures a == if parent == "" || parent in old(parents) then Done else ParentNotFound
      ensures parents == if a == Done then old(parents)[id := parent] else old(parents)
    {
      if parent != "" && parent !in parents { return ParentNotFound; }
      ghost var was, oldRank, top := parents, rank, bound;
      parents := parents[id := parent];
      rank := x => if x == id then top else oldRank(x);
      bound := bound + 1;
      forall x | x in parents ensures ParentBelow(parents, rank, x) {
        if x != id { assert ParentBelow(was, oldRank, x); }
      }
      a := Done;
    }

    /** The thing goes; its children, told one by one afterwards, no longer have a parent. */
    method DeleteThing(id: string)
      requires Valid()
      modifies this`parents
      ensures Valid() && parents == old(parents) - {id}
    {
      ghost var was := parents;
      parents := parents - {id};
      forall x | x in parents ensures ParentBelow(parents, rank, x) { assert ParentBelow(was, rank, x); }
    }

    method Orphan(id: string)
      requires Valid() && id in parents
      modifies this`parents
      ensures Valid() && parents == old(parents)[id := ""]
    {
      ghost var was := parents;
      parents := parents[id := ""];
      forall x | x in parents ensures ParentBelow(parents, rank, x) { assert ParentBelow(was, rank, x); }
    }

    /** The parent part of an update. It refuses descendants, but not the thing itself. */
    method UpdateThing(id: string, parent: string) returns (a: Answer)
      requires Valid() && id in parents
      modifies this
      ensures var moves := old(parents)[id] == "" || parent != old(parents)[id];
              a == if !moves || parent == "" then Done
                   else if parent !in old(parents) then ParentNotFound
                   else if old(Descends(parents, rank, id, parent)) then Cycled
                   else Done
      ensures parents == if a == Done then old(parents)[id := parent] else old(parents)
      ensures parent != id ==> Valid()
      ensures a == Done && parent == id && old(parents)[id] != id ==> !Forest(parents)
    {
      ghost var was, oldRank := parents, rank;
      if parents[id] == "" || parent != parents[id] {
        if parent == "" {
          Orphan(id);
        } else {
          if parent !in parents { return ParentNotFound; }
          var below := IsMyChildThing(parents, id, parent, rank, bound);
          if below { return Cycled; }
          MoveKeepsForestIff(parents, rank, bound, id, parent);
          if parent != id { MoveKeepsRanked(parents, rank, bound, id, parent); }
          parents := parents[id := parent];
          if parent != id {
            rank := Lifted(was, oldRank, bound, id);
            bound := 2 * bound;
          }
        }
      } else {
        assert parents == parents[id := parent];
      }
      a := Done;
    }

    /** What the REST endpoint runs: validation refuses the thing itself as its parent. */
    method RestUpdateThing(id: string, parent: string) returns (a: Answer)
      requires Valid()
      modifies this
      ensures Valid()
      ensures a == Invalid <==> id in old(parents) && parent == id
      ensures a != Done ==> parents == old(parents)
    {
      if id !in parents { return NotFound; }
      if parent == id { return Invalid; }
      a := UpdateThing(id, parent);
    }
  }
}
