/**
  * Thing types form a forest of inheritance. Every thing carries an index from names to the nearest
  * definition up its type chain. The index is computed once when the thing is created and then kept up
  * to date by pushing each edit of a type down to the things of all derived types.
  *
  * A definition is a shared cell: editing it in place shows in every index, so only the identity of the
  * cell matters here.
  */
module TypeIndex {
  import opened Common
  import opened Collections

  datatype Key = Characteristic(name: string) | PropertySet(name: string)

  datatype Defs = Defs(cells: map<Key, nat>)

  datatype ThingType = ThingType(parent: string, instantiable: bool, defs: Defs)

  datatype Thing = Thing(typeId: string, index: Defs)

  type Types = map<string, ThingType>

  type Things = map<string, Thing>

  // ---------- the type forest ----------

  /** Parents are live and of lower rank; the empty name stands for no parent. */
  ghost predicate Ranked(types: Types, rank: string -> nat) {
    && "" !in types
    && forall id :: id in types ==> ParentOk(types, rank, id)
  }

  ghost predicate ParentOk(types: Types, rank: string -> nat, id: string)
    requires id in types
  {
    var p := types[id].parent;
    p == "" || (p in types && rank(p) < rank(id))
  }

  ghost function Depth(types: Types, rank: string -> nat, id: string): nat {
    if id in types then rank(id) + 1 else 0
  }

  /** What a name means for a type: its own definition, or else that of the closest ancestor. */
  ghost function Nearest(types: Types, rank: string -> nat, id: string, k: Key): Option<nat>
    requires Ranked(types, rank)
    decreases Depth(types, rank, id)
  {
    if id !in types then None
    else if k in types[id].defs.cells then Some(types[id].defs.cells[k])
    else
      assert ParentOk(types, rank, id);
      Nearest(types, rank, types[id].parent, k)
  }

  /** `id` is the root or derives from it. */
  ghost predicate Under(types: Types, rank: string -> nat, root: string, id: string)
    requires Ranked(types, rank)
    decreases Depth(types, rank, id)
  {
    id in types && (id == root || (assert ParentOk(types, rank, id); Under(types, rank, root, types[id].parent)))
  }

  ghost function Family(types: Types, rank: string -> nat, root: string): set<string>
    requires Ranked(types, rank)
  {
    set id | id in types && Under(types, rank, root, id)
  }

  /** A type on the way from `id` up to the root, the root excluded, defines the name. */
  ghost predicate DefinedBelow(types: Types, rank: string -> nat, root: string, id: string, k: Key)
    requires Ranked(types, rank)
    decreases Depth(types, rank, id)
  {
    id in types && id != root
    && (k in types[id].defs.cells || (assert ParentOk(types, rank, id); DefinedBelow(types, rank, root, types[id].parent, k)))
  }

  predicate Overrides(types: Types, id: string, k: Key)
    requires id in types
  {
    var p := types[id].parent;
    k in types[id].defs.cells && p in types && k in types[p].defs.cells
  }

  /** On the way from the root down to `id`, a type and its parent both define the name: there the
      propagation drops the name. */
  ghost predicate Stopped(types: Types, rank: string -> nat, root: string, id: string, k: Key)
    requires Ranked(types, rank)
    decreases Depth(types, rank, id)
  {
    id in types && id != root
    && (Overrides(types, id, k) || (assert ParentOk(types, rank, id); Stopped(types, rank, root, types[id].parent, k)))
  }

  // ---------- indexes ----------

  function At(d: Defs, k: Key): Option<nat> { if k in d.cells then Some(d.cells[k]) else None }

  ghost predicate Agrees(types: Types, rank: string -> nat, t: Thing)
    requires Ranked(types, rank)
  {
    forall k :: At(t.index, k) == Nearest(types, rank, t.typeId, k)
  }

  /** Every thing of a live type has the index that a recomputation would give it. */
  ghost predicate Indexed(types: Types, rank: string -> nat, things: Things)
    requires Ranked(types, rank)
  {
    forall t :: t in things && things[t].typeId in types ==> Agrees(types, rank, things[t])
  }

  /** Keeps what the index has and adds the definitions it lacks, listing them in the order of arrival. */
  method AddMissing(index: Defs, list: seq<Key>, defs: Defs) returns (index': Defs, list': seq<Key>)
    requires Lists(list, index)
    ensures forall k :: At(index', k) == if At(index, k).Some? then At(index, k) else At(defs, k)
    ensures Lists(list', index')
  {
    index', list' := index, list;
    var todo := defs.cells.Keys;
    while todo != {}
      invariant todo <= defs.cells.Keys
      invariant forall k :: At(index', k) == if At(index, k).Some? then At(index, k) else if k in todo then None else At(defs, k)
      invariant Lists(list', index')
      decreases |todo|
    {
      var k :| k in todo;
      if k !in index'.cells {
        index' := Defs(index'.cells[k := defs.cells[k]]);
        list' := list' + [k];
      }
      todo := todo - {k};
    }
  }

  /** A list without duplicates of exactly the names of an index. */
  ghost predicate Lists(list: seq<Key>, d: Defs) {
    && NoDup(list)
    && (forall k :: k in list <==> k in d.cells)
  }

  /** Walks the type chain upwards and keeps the first definition of each name. */
  method WalkChain(types: Types, typeId: string, ghost rank: string -> nat) returns (index: Defs, list: seq<Key>)
    requires Ranked(types, rank)
    ensures Agrees(types, rank, Thing(typeId, index)) && Lists(list, index)
  {
    index, list := Defs(map[]), [];
    var id := typeId;
    while id != ""
      invariant forall k :: At(index, k) == None ==> Nearest(types, rank, typeId, k) == Nearest(types, rank, id, k)
      invariant forall k :: At(index, k) != None ==> At(index, k) == Nearest(types, rank, typeId, k)
      invariant Lists(list, index)
      decreases Depth(types, rank, id), id != ""
    {
      if id !in types { break; }
      assert ParentOk(types, rank, id);
      index, list := AddMissing(index, list, types[id].defs);
      id := types[id].parent;
    }
  }

  /** The index of a new thing. */
  method Inherit(types: Types, typeId: string, ghost rank: string -> nat) returns (index: Defs)
    requires Ranked(types, rank)
    ensures Agrees(types, rank, Thing(typeId, index))
  {
    var list;
    index, list := WalkChain(types, typeId, rank);
  }

  /** A type with its inherited definitions; a type without parent is returned as it is. */
  method ExplodeThingType(types: Types, id: string, ghost rank: string -> nat) returns (exploded: ThingType)
    requires Ranked(types, rank) && id in types
    ensures exploded.parent == types[id].parent && Agrees(types, rank, Thing(id, exploded.defs))
  {
    if types[id].parent != "" {
      var index, list := WalkChain(types, id, rank);
      return types[id].(defs := index);
    }
    exploded := types[id];
    assert forall k :: Nearest(types, rank, "", k) == None;
  }

  // ---------- editing a type ----------

  /** A type keeps the cells of the names that stay and takes the saved cells of the new ones. */
  function Edited(defs: Defs, saved: Defs): Defs {
    Defs(map k | k in saved.cells :: if k in defs.cells then defs.cells[k] else saved.cells[k])
  }

  function EditedTypes(types: Types, root: string, saved: Defs): Types
    requires root in types
  {
    types[root := types[root].(defs := Edited(types[root].defs, saved))]
  }

  /** Names that leave and names that arrive. */
  predicate Leaves(types: Types, root: string, saved: Defs, k: Key)
    requires root in types
  {
    k in types[root].defs.cells && k !in saved.cells
  }

  predicate Arrives(types: Types, root: string, saved: Defs, k: Key)
    requires root in types
  {
    k !in types[root].defs.cells && k in saved.cells
  }

  lemma EditKeepsRanked(types: Types, rank: string -> nat, root: string, saved: Defs)
    requires Ranked(types, rank) && root in types
    ensures Ranked(EditedTypes(types, root, saved), rank)
  {
    var types' := EditedTypes(types, root, saved);
    forall id | id in types' ensures ParentOk(types', rank, id) { assert ParentOk(types, rank, id); }
  }

  lemma {:induction false} UnderRank(types: Types, rank: string -> nat, root: string, id: string)
    requires Ranked(types, rank) && Under(types, rank, root, id)
    ensures root in types && rank(root) <= rank(id)
    decreases Depth(types, rank, id)
  {
    if id != root {
      assert ParentOk(types, rank, id);
      UnderRank(types, rank, root, types[id].parent);
    }
  }

  /** An edit is invisible where the root is not an ancestor, and where a type below the root defines
      the name itself. */
  lemma {:induction false} NearestElsewhere(types: Types, rank: string -> nat, root: string, saved: Defs, id: string, k: Key)
    requires Ranked(types, rank) && root in types && Ranked(EditedTypes(types, root, saved), rank)
    requires !Under(types, rank, root, id) || DefinedBelow(types, rank, root, id, k)
    ensures Nearest(EditedTypes(types, root, saved), rank, id, k) == Nearest(types, rank, id, k)
    ensures DefinedBelow(types, rank, root, id, k) ==> Nearest(types, rank, id, k).Some?
    decreases Depth(types, rank, id)
  {
    var types' := EditedTypes(types, root, saved);
    if id in types && id != root && k !in types[id].defs.cells {
      assert ParentOk(types, rank, id) && ParentOk(types', rank, id);
      NearestElsewhere(types, rank, root, saved, types[id].parent, k);
    }
  }

  /** What an edit changes below the root. */
  lemma {:induction false} NearestUnder(types: Types, rank: string -> nat, root: string, saved: Defs, id: string, k: Key)
    requires Ranked(types, rank) && root in types && Ranked(EditedTypes(types, root, saved), rank)
    requires Under(types, rank, root, id) && !DefinedBelow(types, rank, root, id, k)
    ensures Nearest(types, rank, id, k) == Nearest(types, rank, root, k)
    ensures Nearest(EditedTypes(types, root, saved), rank, id, k) == Nearest(EditedTypes(types, root, saved), rank, root, k)
    decreases Depth(types, rank, id)
  {
    var types' := EditedTypes(types, root, saved);
    if id != root {
      assert ParentOk(types, rank, id) && ParentOk(types', rank, id);
      NearestUnder(types, rank, root, saved, types[id].parent, k);
    }
  }

  lemma {:induction false} NearestAtRoot(types: Types, rank: string -> nat, root: string, saved: Defs, k: Key)
    requires Ranked(types, rank) && root in types && Ranked(EditedTypes(types, root, saved), rank)
    ensures var e := Edited(types[root].defs, saved);
            Nearest(EditedTypes(types, root, saved), rank, root, k)
            == if k in e.cells then Some(e.cells[k]) else Nearest(types, rank, types[root].parent, k)
  {
    var p := types[root].parent;
    assert ParentOk(types, rank, root);
    if Under(types, rank, root, p) { UnderRank(types, rank, root, p); }
    NearestElsewhere(types, rank, root, saved, p, k);
  }

  /** The shape between the root and a derived type is the same before and after an edit, except that
      the direct children of the root see its new definitions. */
  lemma {:induction false} SameShape(types: Types, rank: string -> nat, root: string, saved: Defs, id: string, k: Key)
    requires Ranked(types, rank) && root in types && Ranked(EditedTypes(types, root, saved), rank)
    ensures Under(EditedTypes(types, root, saved), rank, root, id) == Under(types, rank, root, id)
    ensures DefinedBelow(EditedTypes(types, root, saved), rank, root, id, k) == DefinedBelow(types, rank, root, id, k)
    ensures Stopped(EditedTypes(types, root, saved), rank, root, id, k) ==> DefinedBelow(types, rank, root, id, k)
    decreases Depth(types, rank, id)
  {
    var types' := EditedTypes(types, root, saved);
    if id in types && id != root {
      assert ParentOk(types, rank, id) && ParentOk(types', rank, id);
      SameShape(types, rank, root, saved, types[id].parent, k);
    }
  }

  // ---------- what the propagation makes of an index ----------

  /** The new index of a thing whose type derives from the root: a name that was not stopped on the way
      is removed, or set to the root's new cell. */
  ghost predicate Propagated(types: Types, rank: string -> nat, root: string, saved: Defs, t: Thing, t': Thing)
    requires Ranked(types, rank) && root in types && Ranked(EditedTypes(types, root, saved), rank)
  {
    t'.typeId == t.typeId
    && forall k :: At(t'.index, k) == PropagatedAt(types, rank, root, saved, t, k)
  }

  ghost function PropagatedAt(types: Types, rank: string -> nat, root: string, saved: Defs, t: Thing, k: Key): Option<nat>
    requires Ranked(types, rank) && root in types && Ranked(EditedTypes(types, root, saved), rank)
  {
    var types' := EditedTypes(types, root, saved);
    if !Under(types, rank, root, t.typeId) || Stopped(types', rank, root, t.typeId, k) then At(t.index, k)
    else if Arrives(types, root, saved, k) then At(types'[root].defs, k)
    else if Leaves(types, root, saved, k) then None
    else At(t.index, k)
  }

  /** New definitions live in new cells. */
  ghost predicate FreshCells(types: Types, root: string, saved: Defs)
    requires root in types
  {
    forall id, k :: id in types && k in types[id].defs.cells && Arrives(types, root, saved, k) ==> types[id].defs.cells[k] != saved.cells[k]
  }

  /** The propagation gets a name right for a type exactly under this condition on the definitions in
      the type tree. */
  ghost predicate Harmless(types: Types, rank: string -> nat, root: string, saved: Defs, id: string, k: Key)
    requires Ranked(types, rank) && root in types && Ranked(EditedTypes(types, root, saved), rank)
  {
    Under(types, rank, root, id) && !Stopped(EditedTypes(types, root, saved), rank, root, id, k) ==>
      && (Arrives(types, root, saved, k) ==> !DefinedBelow(types, rank, root, id, k))
      && (Leaves(types, root, saved, k) ==> !DefinedBelow(types, rank, root, id, k) && Nearest(types, rank, types[root].parent, k).None?)
  }

  lemma {:induction false} NearestIsCell(types: Types, rank: string -> nat, id: string, k: Key) returns (owner: string)
    requires Ranked(types, rank) && Nearest(types, rank, id, k).Some?
    ensures owner in types && k in types[owner].defs.cells && types[owner].defs.cells[k] == Nearest(types, rank, id, k).value
    decreases Depth(types, rank, id)
  {
    if k in types[id].defs.cells { return id; }
    assert ParentOk(types, rank, id);
    owner := NearestIsCell(types, rank, types[id].parent, k);
  }

  /** After the edit a thing's index is right for a name if and only if the edit is harmless for it. */
  lemma {:induction false} PropagationExact(types: Types, rank: string -> nat, root: string, saved: Defs, t: Thing, t': Thing, k: Key)
    requires Ranked(types, rank) && root in types && Ranked(EditedTypes(types, root, saved), rank)
    requires FreshCells(types, root, saved) && t.typeId in types
    requires Agrees(types, rank, t) && Propagated(types, rank, root, saved, t, t')
    ensures At(t'.index, k) == Nearest(EditedTypes(types, root, saved), rank, t.typeId, k) <==> Harmless(types, rank, root, saved, t.typeId, k)
  {
    var types' := EditedTypes(types, root, saved);
    var id := t.typeId;
    assert At(t.index, k) == Nearest(types, rank, id, k);
    SameShape(types, rank, root, saved, id, k);
    if !Under(types, rank, root, id) || DefinedBelow(types, rank, root, id, k) {
      NearestElsewhere(types, rank, root, saved, id, k);
      if DefinedBelow(types, rank, root, id, k) {
        var owner := NearestIsCell(types, rank, id, k);
      }
    } else {
      NearestUnder(types, rank, root, saved, id, k);
      NearestAtRoot(types, rank, root, saved, k);
    }
  }

  // ---------- the propagation ----------

  /** What the propagation should have done to a thing once the types in `done` are served. */
  ghost function Target(types: Types, rank: string -> nat, root: string, del: seq<Key>, ins: seq<Key>, done: set<string>, t: Thing, k: Key): Option<nat>
    requires Ranked(types, rank) && root in types
  {
    if t.typeId !in done || Stopped(types, rank, root, t.typeId, k) then At(t.index, k)
    else if k in ins then At(types[root].defs, k)
    else if k in del then None
    else At(t.index, k)
  }

  ghost predicate TrackOne(types: Types, rank: string -> nat, root: string, del: seq<Key>, ins: seq<Key>, done: set<string>, was: Thing, now: Thing)
    requires Ranked(types, rank) && root in types
  {
    now.typeId == was.typeId && forall k :: At(now.index, k) == Target(types, rank, root, del, ins, done, was, k)
  }

  ghost predicate Track(types: Types, rank: string -> nat, root: string, del: seq<Key>, ins: seq<Key>, done: set<string>, was: Things, now: Things)
    requires Ranked(types, rank) && root in types
  {
    now.Keys == was.Keys && forall t :: t in was ==> TrackOne(types, rank, root, del, ins, done, was[t], now[t])
  }

  /** One type's turn: its things lose the names in `del` and get the root's cells for those in `ins`. */
  ghost predicate Served(defs: Defs, id: string, del: seq<Key>, ins: seq<Key>, was: Things, now: Things) {
    now.Keys == was.Keys && forall t :: t in was ==> ServedOne(defs, id, del, ins, was[t], now[t])
  }

  ghost predicate ServedOne(defs: Defs, id: string, del: seq<Key>, ins: seq<Key>, was: Thing, now: Thing) {
    if was.typeId != id then now == was
    else now.typeId == id && forall k :: At(now.index, k) == if k in ins then At(defs, k) else if k in del then None else At(was.index, k)
  }

  /** The names that reach a type are those not stopped above it. */
  ghost predicate Passed(types: Types, rank: string -> nat, root: string, id: string, names: seq<Key>, left: seq<Key>)
    requires Ranked(types, rank)
  {
    forall k :: k in left <==> k in names && !Stopped(types, rank, root, id, k)
  }

  lemma {:induction false} TrackStep(types: Types, rank: string -> nat, root: string, del: seq<Key>, ins: seq<Key>, done: set<string>,
                                     id: string, del': seq<Key>, ins': seq<Key>, was: Things, now: Things, next: Things)
    requires Ranked(types, rank) && root in types
    requires Track(types, rank, root, del, ins, done, was, now)
    requires Passed(types, rank, root, id, del, del') && Passed(types, rank, root, id, ins, ins')
    requires Served(types[root].defs, id, del', ins', now, next)
    ensures Track(types, rank, root, del, ins, done + {id}, was, next)
  {
    forall t | t in was ensures TrackOne(types, rank, root, del, ins, done + {id}, was[t], next[t]) {
      assert TrackOne(types, rank, root, del, ins, done, was[t], now[t]) && ServedOne(types[root].defs, id, del', ins', now[t], next[t]);
      forall k ensures At(next[t].index, k) == Target(types, rank, root, del, ins, done + {id}, was[t], k) {
        assert At(now[t].index, k) == Target(types, rank, root, del, ins, done, was[t], k);
      }
    }
  }

  /** Removes and inserts names in one index. */
  method PushNames(index: Defs, del: seq<Key>, ins: seq<Key>, defs: Defs) returns (r: Defs)
    requires forall k :: k in ins ==> k in defs.cells
    ensures forall k :: At(r, k) == if k in ins then At(defs, k) else if k in del then None else At(index, k)
  {
    r := index;
    var i := 0;
    while i < |del|
      invariant 0 <= i <= |del|
      invariant forall k :: At(r, k) == if k in del[..i] then None else At(index, k)
    {
      assert del[..i + 1] == del[..i] + [del[i]];
      r := Defs(r.cells - {del[i]});
      i := i + 1;
    }
    assert del[..i] == del;
    i := 0;
    while i < |ins|
      invariant 0 <= i <= |ins|
      invariant forall k :: At(r, k) == if k in ins[..i] then At(defs, k) else if k in del then None else At(index, k)
    {
      assert ins[i] in ins && ins[..i + 1] == ins[..i] + [ins[i]];
      r := Defs(r.cells[ins[i] := defs.cells[ins[i]]]);
      i := i + 1;
    }
    assert ins[..i] == ins;
  }

  datatype Item = Item(parent: string, child: string, del: seq<Key>, ins: seq<Key>)

  ghost predicate ItemOk(types: Types, rank: string -> nat, root: string, del: seq<Key>, ins: seq<Key>, it: Item)
    requires Ranked(types, rank)
  {
    && it.child in types && types[it.child].parent == it.parent && Under(types, rank, root, it.parent)
    && Passed(types, rank, root, it.parent, del, it.del) && Passed(types, rank, root, it.parent, ins, it.ins)
  }

  ghost predicate Waits(items: seq<Item>, id: string) { exists i :: 0 <= i < |items| && items[i].child == id }

  /** Every child of a served type is served or waits. */
  ghost predicate Closed(types: Types, done: set<string>, items: seq<Item>) {
    forall id :: id in types && types[id].parent in done ==> id in done || Waits(items, id)
  }

  lemma {:induction false} ClosedIsAll(types: Types, rank: string -> nat, root: string, done: set<string>, id: string)
    requires Ranked(types, rank) && root in done && Closed(types, done, []) && Under(types, rank, root, id)
    ensures id in done
    decreases Depth(types, rank, id)
  {
    if id != root {
      assert ParentOk(types, rank, id);
      ClosedIsAll(types, rank, root, done, types[id].parent);
    }
  }

  lemma {:induction false} PassedDown(types: Types, rank: string -> nat, root: string, id: string, names: seq<Key>, above: seq<Key>, both: seq<Key>, left: seq<Key>)
    requires Ranked(types, rank) && id in types && types[id].parent in types && Under(types, rank, root, types[id].parent)
    requires Passed(types, rank, root, types[id].parent, names, above)
    requires forall k :: k in both <==> Overrides(types, id, k)
    requires forall k :: k in left <==> k in above && k !in both
    ensures Passed(types, rank, root, id, names, left) && id != root
  {
    assert ParentOk(types, rank, id);
    UnderRank(types, rank, root, types[id].parent);
  }

  /** The names of a definition list. */
  method Names(d: Defs) returns (names: seq<Key>)
    ensures forall k :: k in names <==> k in d.cells
  {
    names := [];
    var todo := d.cells.Keys;
    while todo != {}
      invariant todo <= d.cells.Keys
      invariant forall k :: k in names <==> k in d.cells && k !in todo
      decreases |todo|
    {
      var k :| k in todo;
      names := names + [k];
      todo := todo - {k};
    }
  }

  method ChildTypes(types: Types, parent: string) returns (ids: seq<string>)
    ensures forall id :: id in ids <==> id in types && types[id].parent == parent
  {
    ids := [];
    var todo := types.Keys;
    while todo != {}
      invariant todo <= types.Keys
      invariant forall id :: id in ids <==> id in types && id !in todo && types[id].parent == parent
      decreases |todo|
    {
      var id :| id in todo;
      if types[id].parent == parent { ids := ids + [id]; }
      todo := todo - {id};
    }
  }

  method NewItems(types: Types, parent: string, del: seq<Key>, ins: seq<Key>) returns (items: seq<Item>)
    ensures forall id :: Waits(items, id) <==> id in types && types[id].parent == parent
    ensures forall i :: 0 <= i < |items| ==> items[i] == Item(parent, items[i].child, del, ins)
  {
    var ids := ChildTypes(types, parent);
    items := seq(|ids|, i requires 0 <= i < |ids| => Item(parent, ids[i], del, ins));
    forall id ensures Waits(items, id) <==> id in ids {
      if id in ids {
        var i :| 0 <= i < |ids| && ids[i] == id;
        assert items[i].child == id;
      }
    }
  }

  method UpdateInstantiatedThings(things: Things, defs: Defs, id: string, del: seq<Key>, ins: seq<Key>) returns (next: Things)
    requires forall k :: k in ins ==> k in defs.cells
    ensures Served(defs, id, del, ins, things, next)
  {
    next := things;
    var todo := things.Keys;
    while todo != {}
      invariant todo <= things.Keys && next.Keys == things.Keys
      invariant forall t :: t in todo ==> next[t] == things[t]
      invariant forall t :: t in things && t !in todo ==> ServedOne(defs, id, del, ins, things[t], next[t])
      decreases |todo|
    {
      var t :| t in todo;
      if things[t].typeId == id {
        var index := PushNames(next[t].index, del, ins, defs);
        next := next[t := next[t].(index := index)];
      }
      todo := todo - {t};
    }
  }

  ghost predicate ItemsOk(types: Types, rank: string -> nat, root: string, del: seq<Key>, ins: seq<Key>, items: seq<Item>, level: nat)
    requires Ranked(types, rank)
  {
    forall i :: 0 <= i < |items| ==> ItemOk(types, rank, root, del, ins, items[i]) && rank(items[i].child) >= level
  }

  /** Everything the propagation knows between two items. */
  ghost predicate Underway(types: Types, rank: string -> nat, root: string, del: seq<Key>, ins: seq<Key>, done: set<string>, items: seq<Item>, was: Things, now: Things)
    requires Ranked(types, rank) && root in types
  {
    && Track(types, rank, root, del, ins, done, was, now)
    && Closed(types, done, items)
    && root in done && forall id :: id in done ==> Under(types, rank, root, id)
  }

  lemma {:induction false} WaitsJoin(a: seq<Item>, b: seq<Item>, id: string)
    ensures Waits(a + b, id) <==> Waits(a, id) || Waits(b, id)
  {
    if Waits(a, id) { var i :| 0 <= i < |a| && a[i].child == id; assert (a + b)[i].child == id; }
    if Waits(b, id) { var i :| 0 <= i < |b| && b[i].child == id; assert (a + b)[|a| + i].child == id; }
  }

  /** Serving one item and queueing its children keeps the closure. */
  lemma {:induction false} ClosedStep(types: Types, done: set<string>, items: seq<Item>, children: seq<Item>, more: seq<Item>)
    requires items != [] && Closed(types, done, items + children)
    requires forall id :: id in types && types[id].parent == items[0].child ==> Waits(more, id)
    ensures Closed(types, done + {items[0].child}, items[1..] + (children + more))
  {
    var rest := items[1..] + (children + more);
    forall id | id in types && types[id].parent in done + {items[0].child} ensures id in done + {items[0].child} || Waits(rest, id) {
      WaitsJoin(items, children, id);
      WaitsJoin([items[0]], items[1..], id);
      assert items == [items[0]] + items[1..];
      WaitsJoin(items[1..], children + more, id);
      WaitsJoin(children, more, id);
    }
  }

  /** Serves one type: drops the names it overrides, updates its things and queues its children. */
  method ServeItem(types: Types, root: string, it: Item, things: Things, ghost rank: string -> nat, ghost del: seq<Key>, ghost ins: seq<Key>,
                   ghost done: set<string>, ghost was: Things)
    returns (next: Things, more: seq<Item>)
    requires Ranked(types, rank) && root in types && ItemOk(types, rank, root, del, ins, it)
    requires forall k :: k in ins ==> k in types[root].defs.cells
    requires Track(types, rank, root, del, ins, done, was, things)
    ensures Track(types, rank, root, del, ins, done + {it.child}, was, next)
    ensures forall id :: id in types && types[id].parent == it.child ==> Waits(more, id)
    ensures Under(types, rank, root, it.child) && ItemsOk(types, rank, root, del, ins, more, rank(it.child) + 1)
  {
    var mine := Names(types[it.child].defs);
    var theirs := Names(types[it.parent].defs);
    var _, both, _ := DifferenceAndIntersection(mine, theirs);
    var del', _, _ := DifferenceAndIntersection(it.del, both);
    var ins', _, _ := DifferenceAndIntersection(it.ins, both);
    assert ParentOk(types, rank, it.child);
    PassedDown(types, rank, root, it.child, del, it.del, both, del');
    PassedDown(types, rank, root, it.child, ins, it.ins, both, ins');
    next := UpdateInstantiatedThings(things, types[root].defs, it.child, del', ins');
    TrackStep(types, rank, root, del, ins, done, it.child, del', ins', was, things, next);
    more := NewItems(types, it.child, del', ins');
    forall i | 0 <= i < |more| ensures ItemOk(types, rank, root, del, ins, more[i]) && rank(more[i].child) >= rank(it.child) + 1 {
      assert Waits(more, more[i].child);
      assert ParentOk(types, rank, more[i].child);
    }
  }

  /** Level by level through the derived types. */
  method UpdateDerivedChainThings(types: Types, root: string, things: Things, del: seq<Key>, ins: seq<Key>, ghost rank: string -> nat, ghost bound: nat)
    returns (next: Things)
    requires Ranked(types, rank) && root in types && forall id :: id in types ==> rank(id) < bound
    requires forall k :: k in ins ==> k in types[root].defs.cells
    ensures Track(types, rank, root, del, ins, Family(types, rank, root), things, next)
  {
    next := UpdateInstantiatedThings(things, types[root].defs, root, del, ins);
    var utts := NewItems(types, root, del, ins);
    ghost var done := {root};
    ghost var level := 0;
    RootServed(types, rank, root, del, ins, things, next, utts);
    while |utts| > 0
      invariant ItemsOk(types, rank, root, del, ins, utts, level)
      invariant Underway(types, rank, root, del, ins, done, utts, things, next)
      invariant |utts| > 0 ==> level < bound
      decreases bound - level
    {
      var children: seq<Item> := [];
      var i := 0;
      assert utts[0..] + children == utts;
      while i < |utts|
        invariant 0 <= i <= |utts|
        invariant ItemsOk(types, rank, root, del, ins, children, level + 1)
        invariant Underway(types, rank, root, del, ins, done, utts[i..] + children, things, next)
      {
        var more;
        next, more := ServeItem(types, root, utts[i], next, rank, del, ins, done, things);
        ClosedStep(types, done, utts[i..], children, more);
        assert utts[i..][1..] == utts[i + 1..] && utts[i..][0] == utts[i];
        done := done + {utts[i].child};
        children := children + more;
        i := i + 1;
      }
      assert utts[i..] + children == children;
      utts := children;
      level := level + 1;
      assert |utts| > 0 ==> rank(utts[0].child) >= level && utts[0].child in types;
    }
    forall id ensures id in done <==> Under(types, rank, root, id) {
      if Under(types, rank, root, id) { ClosedIsAll(types, rank, root, done, id); }
    }
    assert done == Family(types, rank, root);
  }

  lemma {:induction false} RootServed(types: Types, rank: string -> nat, root: string, del: seq<Key>, ins: seq<Key>, was: Things, now: Things, items: seq<Item>)
    requires Ranked(types, rank) && root in types
    requires Served(types[root].defs, root, del, ins, was, now)
    requires forall id :: Waits(items, id) <==> id in types && types[id].parent == root
    requires forall i :: 0 <= i < |items| ==> items[i] == Item(root, items[i].child, del, ins)
    ensures Underway(types, rank, root, del, ins, {root}, items, was, now)
    ensures ItemsOk(types, rank, root, del, ins, items, 0)
  {
    forall t | t in was ensures TrackOne(types, rank, root, del, ins, {}, was[t], was[t]) {}
    TrackStep(types, rank, root, del, ins, {}, root, del, ins, was, was, now);
    assert {} + {root} == {root};
    forall i | 0 <= i < |items| ensures ItemOk(types, rank, root, del, ins, items[i]) {
      assert Waits(items, items[i].child);
    }
  }

  // ---------- the manager ----------

  lemma {:induction false} TrackedIsPropagated(types: Types, rank: string -> nat, root: string, saved: Defs, del: seq<Key>, ins: seq<Key>, t: Thing, t': Thing)
    requires Ranked(types, rank) && root in types && Ranked(EditedTypes(types, root, saved), rank)
    requires forall k :: k in del <==> Leaves(types, root, saved, k)
    requires forall k :: k in ins <==> Arrives(types, root, saved, k)
    requires var types' := EditedTypes(types, root, saved); TrackOne(types', rank, root, del, ins, Family(types', rank, root), t, t')
    ensures Propagated(types, rank, root, saved, t, t')
  {
    var types' := EditedTypes(types, root, saved);
    forall k ensures At(t'.index, k) == PropagatedAt(types, rank, root, saved, t, k) {
      SameShape(types, rank, root, saved, t.typeId, k);
      assert At(t'.index, k) == Target(types', rank, root, del, ins, Family(types', rank, root), t, k);
    }
  }

  ghost predicate AllHarmless(types: Types, rank: string -> nat, root: string, saved: Defs, things: Things)
    requires Ranked(types, rank) && root in types && Ranked(EditedTypes(types, root, saved), rank)
  {
    forall t, k :: t in things && things[t].typeId in types ==> Harmless(types, rank, root, saved, things[t].typeId, k)
  }

  ghost predicate AllPropagated(types: Types, rank: string -> nat, root: string, saved: Defs, was: Things, now: Things)
    requires Ranked(types, rank) && root in types && Ranked(EditedTypes(types, root, saved), rank)
  {
    now.Keys == was.Keys && forall t :: t in was ==> Propagated(types, rank, root, saved, was[t], now[t])
  }

  /** The indexes agree with a recomputation after an edit if and only if the edit is harmless for every
      thing and every name. */
  lemma {:induction false} EditExact(types: Types, rank: string -> nat, root: string, saved: Defs, was: Things, now: Things)
    requires Ranked(types, rank) && root in types && Ranked(EditedTypes(types, root, saved), rank)
    requires FreshCells(types, root, saved) && Indexed(types, rank, was)
    requires AllPropagated(types, rank, root, saved, was, now)
    ensures Indexed(EditedTypes(types, root, saved), rank, now) <==> AllHarmless(types, rank, root, saved, was)
  {
    var types' := EditedTypes(types, root, saved);
    forall t, k | t in was && was[t].typeId in types
      ensures At(now[t].index, k) == Nearest(types', rank, was[t].typeId, k) <==> Harmless(types, rank, root, saved, was[t].typeId, k)
    {
      assert Agrees(types, rank, was[t]) && Propagated(types, rank, root, saved, was[t], now[t]);
      PropagationExact(types, rank, root, saved, was[t], now[t], k);
    }
    if Indexed(types', rank, now) {
      forall t, k | t in was && was[t].typeId in types ensures Harmless(types, rank, root, saved, was[t].typeId, k) {
        assert Propagated(types, rank, root, saved, was[t], now[t]);
        assert Agrees(types', rank, now[t]);
        assert At(now[t].index, k) == Nearest(types', rank, was[t].typeId, k);
      }
    }
    if AllHarmless(types, rank, root, saved, was) {
      forall t | t in now && now[t].typeId in types' ensures Agrees(types', rank, now[t]) {
        assert Propagated(types, rank, root, saved, was[t], now[t]);
      }
    }
  }

  class Manager {
    var types: Types
    var things: Things
    ghost var rank: string -> nat
    ghost var bound: nat

    /** Thing types always point to live types without a cycle. */
    ghost predicate Valid() reads this {
      Ranked(types, rank) && forall id :: id in types ==> rank(id) < bound
    }

    constructor ()
      ensures Valid() && things == map[] && types == map["main.BaseAgent" := ThingType("", false, Defs(map[]))]
      ensures Indexed(types, rank, things)
    {
      types, things := map["main.BaseAgent" := ThingType("", false, Defs(map[]))], map[];
      rank, bound := (_: string) => 0, 1;
    }

    method CreateThingType(id: string, parent: string, instantiable: bool, defs: Defs) returns (ok: bool)
      requires Valid() && id != ""
      modifies this
      ensures Valid() && things == old(things)
      ensures ok == (id !in old(types) && (parent == "" || parent in old(types)))
      ensures types == if ok then old(types)[id := ThingType(parent, instantiable, defs)] else old(types)
      ensures old(Indexed(types, rank, things)) && (forall t :: t in things ==> things[t].typeId != id) ==> Indexed(types, rank, things)
    {
      ok := id !in types && (parent == "" || parent in types);
      if ok {
        ghost var was, oldRank := types, rank;
        types := types[id := ThingType(parent, instantiable, defs)];
        ghost var top := bound;
        rank := x => if x == id then top else oldRank(x);
        bound := bound + 1;
        assert Ranked(types, rank) by {
          forall x | x in types ensures ParentOk(types, rank, x) { if x != id { assert ParentOk(was, oldRank, x); } }
        }
        NewTypeKeepsIndex(was, oldRank, types, rank, id, things);
      }
    }

    method DeleteThingType(id: string) returns (ok: bool)
      requires Valid()
      modifies this`types
      ensures Valid()
      ensures ok == (id != "main.BaseAgent" && id in old(types) && forall x :: x in old(types) ==> old(types)[x].parent != id)
      ensures types == if ok then old(types) - {id} else old(types)
      ensures old(Indexed(types, rank, things)) ==> Indexed(types, rank, things)
    {
      if id == "main.BaseAgent" || id !in types { return false; }
      var children := ChildTypes(types, id);
      if |children| > 0 { assert children[0] in children; return false; }
      ghost var was := types;
      types := types - {id};
      ok := true;
      assert Ranked(types, rank) by {
        forall x | x in types ensures ParentOk(types, rank, x) { assert ParentOk(was, rank, x); }
      }
      LeafKeepsIndex(was, types, rank, id, things);
    }

    method CreateThing(id: string, typeId: string) returns (ok: bool)
      requires Valid() && id !in things
      modifies this`things
      ensures ok == (typeId in types && types[typeId].instantiable)
      ensures !ok ==> things == old(things)
      ensures ok ==> id in things && things == old(things)[id := things[id]] && things[id].typeId == typeId && Agrees(types, rank, things[id])
      ensures old(Indexed(types, rank, things)) ==> Indexed(types, rank, things)
    {
      ok := typeId in types && types[typeId].instantiable;
      if ok {
        var index := Inherit(types, typeId, rank);
        things := things[id := Thing(typeId, index)];
      }
    }

    method DeleteThing(id: string)
      requires Valid()
      modifies this`things
      ensures things == old(things) - {id}
      ensures old(Indexed(types, rank, things)) ==> Indexed(types, rank, things)
    {
      things := things - {id};
    }

    /** Replaces the definitions of a type by the saved ones and pushes the difference down. */
    method UpdateThingType(root: string, saved: Defs)
      requires Valid() && root in types && FreshCells(types, root, saved)
      modifies this`types, this`things
      ensures Valid() && types == EditedTypes(old(types), root, saved)
      ensures old(Ranked(types, rank)) && AllPropagated(old(types), rank, root, saved, old(things), things)
      ensures old(Indexed(types, rank, things)) ==>
                (Indexed(types, rank, things) <==> AllHarmless(old(types), rank, root, saved, old(things)))
    {
      ghost var was, wasThings := types, things;
      var mine := Names(types[root].defs);
      var theirs := Names(saved);
      var del, _, ins := DifferenceAndIntersection(mine, theirs);
      EditKeepsRanked(types, rank, root, saved);
      types := EditedTypes(types, root, saved);
      things := UpdateDerivedChainThings(types, root, things, del, ins, rank, bound);
      forall t | t in wasThings ensures Propagated(was, rank, root, saved, wasThings[t], things[t]) {
        TrackedIsPropagated(was, rank, root, saved, del, ins, wasThings[t], things[t]);
      }
      if Indexed(was, rank, wasThings) { EditExact(was, rank, root, saved, wasThings, things); }
    }
  }

  lemma {:induction false} SameNearest(a: Types, r: string -> nat, b: Types, s: string -> nat, id: string, k: Key, x: string)
    requires Ranked(a, r) && Ranked(b, s) && id in a && id != x
    requires forall y :: y in a && y != x ==> y in b && b[y] == a[y] && a[y].parent != x
    ensures Nearest(a, r, id, k) == Nearest(b, s, id, k)
    decreases Depth(a, r, id)
  {
    if k !in a[id].defs.cells {
      assert ParentOk(a, r, id) && ParentOk(b, s, id);
      if a[id].parent != "" { SameNearest(a, r, b, s, a[id].parent, k, x); }
    }
  }

  lemma {:induction false} NewTypeKeepsIndex(a: Types, r: string -> nat, b: Types, s: string -> nat, id: string, things: Things)
    requires Ranked(a, r) && Ranked(b, s) && id !in a && id in b && b == a[id := b[id]]
    ensures Indexed(a, r, things) && (forall t :: t in things ==> things[t].typeId != id) ==> Indexed(b, s, things)
  {
    if Indexed(a, r, things) && forall t :: t in things ==> things[t].typeId != id {
      forall t | t in things && things[t].typeId in b ensures Agrees(b, s, things[t]) {
        assert Agrees(a, r, things[t]);
        forall k ensures At(things[t].index, k) == Nearest(b, s, things[t].typeId, k) {
          forall y | y in a ensures a[y].parent != id { assert ParentOk(a, r, y); }
          SameNearest(a, r, b, s, things[t].typeId, k, id);
        }
      }
    }
  }

  lemma {:induction false} LeafKeepsIndex(a: Types, b: Types, r: string -> nat, id: string, things: Things)
    requires Ranked(a, r) && Ranked(b, r) && b == a - {id} && forall y :: y in a ==> a[y].parent != id
    ensures Indexed(a, r, things) ==> Indexed(b, r, things)
  {
    if Indexed(a, r, things) {
      forall t | t in things && things[t].typeId in b ensures Agrees(b, r, things[t]) {
        assert Agrees(a, r, things[t]);
        forall k ensures At(things[t].index, k) == Nearest(b, r, things[t].typeId, k) {
          SameNearest(a, r, b, r, things[t].typeId, k, id);
        }
      }
    }
  }

  // ---------- when edits are harmless ----------

  /** No type two or more levels below the root defines an arriving name, and no type below or above it
      defines a leaving one. */
  ghost predicate NoConflict(types: Types, rank: string -> nat, root: string, saved: Defs)
    requires Ranked(types, rank) && root in types
  {
    && (forall k, id :: id in types && id != root && Under(types, rank, root, id) && k in types[id].defs.cells ==>
          !Leaves(types, root, saved, k) && (Arrives(types, root, saved, k) ==> types[id].parent == root))
    && (forall k :: Leaves(types, root, saved, k) ==> Nearest(types, rank, types[root].parent, k) == None)
  }

  lemma {:induction false} ConflictFree(types: Types, rank: string -> nat, root: string, saved: Defs, id: string, k: Key)
    requires Ranked(types, rank) && root in types && Ranked(EditedTypes(types, root, saved), rank)
    requires NoConflict(types, rank, root, saved) && Under(types, rank, root, id)
    ensures Leaves(types, root, saved, k) ==> !DefinedBelow(types, rank, root, id, k)
    ensures Arrives(types, root, saved, k) && DefinedBelow(types, rank, root, id, k) ==> Stopped(EditedTypes(types, root, saved), rank, root, id, k)
    decreases Depth(types, rank, id)
  {
    if id != root {
      var types' := EditedTypes(types, root, saved);
      assert ParentOk(types, rank, id) && ParentOk(types', rank, id);
      ConflictFree(types, rank, root, saved, types[id].parent, k);
      if Arrives(types, root, saved, k) && k in types[id].defs.cells { assert Overrides(types', id, k); }
    }
  }

  /** Without such conflicts every edit is harmless, so the incremental index equals the recomputed one. */
  lemma {:induction false} NoConflictIsHarmless(types: Types, rank: string -> nat, root: string, saved: Defs, things: Things)
    requires Ranked(types, rank) && root in types && Ranked(EditedTypes(types, root, saved), rank)
    requires NoConflict(types, rank, root, saved)
    ensures AllHarmless(types, rank, root, saved, things)
  {
    forall t, k | t in things && things[t].typeId in types ensures Harmless(types, rank, root, saved, things[t].typeId, k) {
      if Under(types, rank, root, things[t].typeId) { ConflictFree(types, rank, root, saved, things[t].typeId, k); }
    }
  }

  const X := Characteristic("x")

  /** Deleting a name from a type makes the things of a child type lose the child's own definition:
      the parent no longer defines the name, so the override is not recognised. */
  lemma {:induction false} DeletionForgetsOverride()
    ensures var types := map["P" := ThingType("", true, Defs(map[X := 0])), "C" := ThingType("P", true, Defs(map[X := 1]))];
            var rank := (id: string) => if id == "C" then 1 else 0;
            && Ranked(types, rank) && Ranked(EditedTypes(types, "P", Defs(map[])), rank)
            && !Harmless(types, rank, "P", Defs(map[]), "C", X)
  {
    var types := map["P" := ThingType("", true, Defs(map[X := 0])), "C" := ThingType("P", true, Defs(map[X := 1]))];
    var rank := (id: string) => if id == "C" then 1 else 0;
    assert "P" != "C" && "P" != "" && "C" != "";
    assert ParentOk(types, rank, "P") && ParentOk(types, rank, "C");
    assert Ranked(types, rank);
    EditKeepsRanked(types, rank, "P", Defs(map[]));
    var types' := EditedTypes(types, "P", Defs(map[]));
    assert Under(types, rank, "P", "P");
    assert Under(types, rank, "P", "C");
    assert !Stopped(types', rank, "P", "P", X);
    assert !Overrides(types', "C", X);
    assert !Stopped(types', rank, "P", "C", X);
  }

  /** A name inserted into a type is pushed over the definition of a grandchild. */
  lemma {:induction false} InsertionHidesOverride()
    ensures var types := map["P" := ThingType("", true, Defs(map[])), "C" := ThingType("P", true, Defs(map[])), "G" := ThingType("C", true, Defs(map[X := 1]))];
            var rank := (id: string) => if id == "G" then 2 else if id == "C" then 1 else 0;
            && Ranked(types, rank) && Ranked(EditedTypes(types, "P", Defs(map[X := 2])), rank)
            && !Harmless(types, rank, "P", Defs(map[X := 2]), "G", X)
  {
    var types := map["P" := ThingType("", true, Defs(map[])), "C" := ThingType("P", true, Defs(map[])), "G" := ThingType("C", true, Defs(map[X := 1]))];
    var rank := (id: string) => if id == "G" then 2 else if id == "C" then 1 else 0;
    var saved := Defs(map[X := 2]);
    assert "P" != "C" && "P" != "" && "C" != "" && "G" != "" && "G" != "P" && "G" != "C";
    assert ParentOk(types, rank, "P") && ParentOk(types, rank, "C") && ParentOk(types, rank, "G");
    assert Ranked(types, rank);
    EditKeepsRanked(types, rank, "P", saved);
    var types' := EditedTypes(types, "P", saved);
    assert Under(types, rank, "P", "P");
    assert Under(types, rank, "P", "C");
    assert Under(types, rank, "P", "G");
    assert !Stopped(types', rank, "P", "P", X);
    assert !Stopped(types', rank, "P", "C", X);
    assert !Overrides(types', "G", X);
    assert !Stopped(types', rank, "P", "G", X);
  }
}
