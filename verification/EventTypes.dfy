/**
  * Event types inherit fields. Every type caches an index of all fields visible in it and a count of
  * the required ones, and an event is accepted when the number of required fields it supplies equals
  * that count.
  *
  * Field records are shared between a type's own list and the indexes of its descendants, and they are
  * updated in place: a field is a name and a cell, and `Cells` says which cells are required.
  */
module EventTypes {
  import opened Collections

  /** Names of event types: the two fundamental ones, all others, and the empty name of no parent. */
  datatype TypeId = NoType | BaseEvent | StandardEvent | Custom(id: string)

  /** Names of fields: those of the base event, those of the standard event, and all others. */
  datatype Name =
    | Id | TypeName | CorrelationId | Time | ThingId | ETag
    | Severity | Description | Code | Source | Acknowledged
    | Other(name: string)

  datatype Field = Field(name: Name, cell: nat)

  datatype Index = Index(cells: map<Name, nat>)

  /** `count` is the cached number of required fields, those of the base event not counted. */
  datatype EventType = EventType(parent: TypeId, fields: seq<Field>, index: Index, count: int)

  type Types = map<TypeId, EventType>

  type Cells = map<nat, bool>

  predicate Fundamental(id: TypeId) { id.BaseEvent? || id.StandardEvent? }

  predicate OfBase(k: Name) { k.Id? || k.TypeName? || k.CorrelationId? || k.Time? || k.ThingId? || k.ETag? }

  // ---------- chains ----------

  ghost predicate Ranked(types: Types, rank: TypeId -> nat) {
    && NoType !in types && BaseEvent in types && StandardEvent in types
    && forall id :: id in types ==> ParentOk(types, rank, id)
  }

  /** The two fundamental types have no parent; every other type has a live parent of lower rank. */
  ghost predicate ParentOk(types: Types, rank: TypeId -> nat, id: TypeId)
    requires id in types
  {
    var p := types[id].parent;
    if Fundamental(id) then p == NoType else p in types && rank(p) < rank(id)
  }

  ghost function Depth(types: Types, rank: TypeId -> nat, id: TypeId): nat {
    if id in types then rank(id) + 1 else 0
  }

  /** The type and its ancestors, the topmost first. */
  ghost function Chain(types: Types, rank: TypeId -> nat, id: TypeId): seq<TypeId>
    requires Ranked(types, rank)
    decreases Depth(types, rank, id)
  {
    if id !in types then [] else assert ParentOk(types, rank, id); Chain(types, rank, types[id].parent) + [id]
  }

  /** A field is visible in the type that lists it and in all types derived from that. */
  ghost predicate Visible(types: Types, rank: TypeId -> nat, id: TypeId, f: Field)
    requires Ranked(types, rank)
    decreases Depth(types, rank, id)
  {
    id in types && (f in types[id].fields || (assert ParentOk(types, rank, id); Visible(types, rank, types[id].parent, f)))
  }

  /** `id` is a proper descendant of `top`. */
  ghost predicate Descends(types: Types, rank: TypeId -> nat, top: TypeId, id: TypeId)
    requires Ranked(types, rank)
    decreases Depth(types, rank, id)
  {
    id in types && types[id].parent in types
    && (types[id].parent == top || (assert ParentOk(types, rank, id); Descends(types, rank, top, types[id].parent)))
  }

  // ---------- the invariant ----------

  predicate Named(fields: seq<Field>, name: Name) { exists f :: f in fields && f.name == name }

  ghost predicate DistinctNames(fields: seq<Field>) { forall i, j :: 0 <= i < j < |fields| ==> fields[i].name != fields[j].name }

  function At(ix: Index, name: Name): int { if name in ix.cells then ix.cells[name] else -1 }

  predicate Required(cells: Cells, cell: nat) { cell in cells && cells[cell] }

  /** The required names of an index. */
  ghost function Req(ix: Index, cells: Cells): set<Name> {
    set k | k in ix.cells && Required(cells, ix.cells[k])
  }

  /** The base event's fields are listed, and only the time and the thing are required of it. */
  ghost predicate BaseOk(fields: seq<Field>, cells: Cells) {
    && (forall k :: OfBase(k) ==> Named(fields, k))
    && (forall f: Field :: f in fields ==> (Required(cells, f.cell) <==> f.name == Time || f.name == ThingId))
  }

  /** The index maps exactly the visible fields. */
  ghost predicate IndexOk(types: Types, rank: TypeId -> nat, id: TypeId)
    requires Ranked(types, rank) && id in types
  {
    forall f: Field :: Visible(types, rank, id, f) <==> At(types[id].index, f.name) == f.cell
  }

  ghost predicate NoCommon(a: seq<Field>, b: seq<Field>) {
    forall f: Field, g: Field :: f in a && g in b ==> f.name != g.name
  }

  /** Names are distinct within a type and along every chain. */
  ghost predicate Apart(types: Types, rank: TypeId -> nat)
    requires Ranked(types, rank)
  {
    && (forall a :: a in types ==> DistinctNames(types[a].fields))
    && (forall a, b :: a in types && Descends(types, rank, a, b) ==> NoCommon(types[a].fields, types[b].fields))
  }

  /** The count is right, except that a reload leaves the fundamental types with two instead of none. */
  ghost predicate CountOk(types: Types, cells: Cells, id: TypeId)
    requires id in types
  {
    var n := |Req(types[id].index, cells)|;
    if Fundamental(id) then types[id].count == n - 2 || types[id].count == n
    else types[id].count == n - 2
  }

  ghost predicate Separate(a: seq<Field>, b: seq<Field>) {
    forall f: Field, g: Field :: f in a && g in b ==> f.cell != g.cell
  }

  ghost predicate OwnCells(fields: seq<Field>) {
    forall f: Field, g: Field :: f in fields && g in fields && f.cell == g.cell ==> f == g
  }

  /** No other field shares a cell of a custom type. */
  ghost predicate Owned(types: Types) {
    && (forall a :: a in types && !Fundamental(a) ==> OwnCells(types[a].fields))
    && (forall a, b :: a in types && b in types && !Fundamental(a) && a != b ==> Separate(types[a].fields, types[b].fields))
  }

  ghost predicate Live(fields: seq<Field>, cells: Cells) { forall f: Field :: f in fields ==> f.cell in cells }

  ghost predicate AllLive(types: Types, cells: Cells) { forall id :: id in types ==> Live(types[id].fields, cells) }

  ghost predicate AllIndexed(types: Types, rank: TypeId -> nat)
    requires Ranked(types, rank)
  {
    forall id :: id in types ==> IndexOk(types, rank, id)
  }

  ghost predicate AllCounted(types: Types, cells: Cells) { forall id :: id in types ==> CountOk(types, cells, id) }

  ghost predicate BasesOk(types: Types, cells: Cells) {
    forall id :: id in types && Fundamental(id) ==> BaseOk(types[id].fields, cells)
  }

  /** What every request keeps. */
  ghost predicate Good(types: Types, cells: Cells, rank: TypeId -> nat) {
    && Ranked(types, rank) && Owned(types) && AllLive(types, cells) && BasesOk(types, cells)
    && Apart(types, rank) && AllIndexed(types, rank) && AllCounted(types, cells)
  }

  /** The invariant at one type. */
  lemma GoodAt(types: Types, cells: Cells, rank: TypeId -> nat, id: TypeId)
    requires Good(types, cells, rank) && id in types
    ensures Ranked(types, rank) && ParentOk(types, rank, id)
    ensures IndexOk(types, rank, id) && CountOk(types, cells, id) && Live(types[id].fields, cells)
    ensures Fundamental(id) ==> BaseOk(types[id].fields, cells)
    ensures !Fundamental(id) ==> OwnCells(types[id].fields)
    ensures DistinctNames(types[id].fields)
  {
    hide IndexOk, CountOk, Live, BaseOk, OwnCells, Separate, DistinctNames, NoCommon;
  }

  lemma GoodRanked(types: Types, cells: Cells, rank: TypeId -> nat)
    requires Good(types, cells, rank)
    ensures Ranked(types, rank) && Apart(types, rank)
  {
    hide Owned, AllLive, BasesOk, AllIndexed, AllCounted;
  }

  ghost function NotOfBase(names: set<Name>): set<Name> { set k | k in names && !OfBase(k) }

  // ---------- what the count means ----------

  lemma {:induction false} TopOfChain(types: Types, rank: TypeId -> nat, id: TypeId) returns (top: TypeId)
    requires Ranked(types, rank) && id in types
    ensures Fundamental(top) && top in types && forall f: Field :: f in types[top].fields ==> Visible(types, rank, id, f)
    decreases Depth(types, rank, id)
  {
    assert ParentOk(types, rank, id);
    if Fundamental(id) { return id; }
    top := TopOfChain(types, rank, types[id].parent);
  }

  lemma TwoLess(s: set<Name>)
    requires Time in s && ThingId in s
    ensures |s - {Time, ThingId}| == |s| - 2
  {
    assert |s - {Time}| == |s| - 1;
    assert |s - {Time} - {ThingId}| == |s| - 2;
    assert s - {Time} - {ThingId} == s - {Time, ThingId};
  }

  /** How a base name looks in an index. */
  lemma {:induction false} BaseName(types: Types, cells: Cells, rank: TypeId -> nat, id: TypeId, k: Name)
    requires Good(types, cells, rank) && id in types && OfBase(k)
    ensures k in types[id].index.cells && (Required(cells, types[id].index.cells[k]) <==> k == Time || k == ThingId)
  {
    hide Good, Ranked, CountOk, Required;
    GoodAt(types, cells, rank, id);
    var top := TopOfChain(types, rank, id);
    GoodAt(types, cells, rank, top);
    var fields, ix := types[top].fields, types[id].index;
    var f: Field :| f in fields && f.name == k;
    assert At(ix, f.name) == f.cell;
  }

  /** Two of the required names are the base event's, and no other base name is required. */
  lemma {:induction false} BaseRequired(types: Types, cells: Cells, rank: TypeId -> nat, id: TypeId)
    requires Good(types, cells, rank) && id in types
    ensures Time in Req(types[id].index, cells) && ThingId in Req(types[id].index, cells)
    ensures NotOfBase(Req(types[id].index, cells)) == Req(types[id].index, cells) - {Time, ThingId}
    ensures |NotOfBase(Req(types[id].index, cells))| == |Req(types[id].index, cells)| - 2
  {
    hide Good;
    forall k | OfBase(k)
      ensures k in Req(types[id].index, cells) <==> k == Time || k == ThingId
    {
      BaseName(types, cells, rank, id, k);
    }
    var r := Req(types[id].index, cells);
    assert OfBase(Time) && OfBase(ThingId);
    TwoLess(r);
    assert NotOfBase(r) == r - {Time, ThingId};
  }

  /** The required names that are not the base event's. */
  ghost function OwnRequired(t: EventType, cells: Cells): set<Name> { NotOfBase(Req(t.index, cells)) }

  /** The required-field test, for an event that supplies some names. */
  method CreateEvent(t: EventType, cells: Cells, supplied: set<Name>) returns (accepted: bool)
    ensures accepted <==> |Supplies(t, cells, supplied)| == t.count
  {
    var n := 0;
    var names := set k | k in supplied && !OfBase(k);
    var todo := names;
    ghost var hit: set<Name> := {};
    while todo != {}
      invariant n == |hit|
      invariant forall k :: k in hit <==> k in Supplies(t, cells, supplied) && k !in todo
      invariant todo <= names
      decreases |todo|
    {
      var k :| k in todo;
      if k in t.index.cells && Required(cells, t.index.cells[k]) {
        n := n + 1;
        hit := hit + {k};
      }
      todo := todo - {k};
    }
    assert hit == Supplies(t, cells, supplied);
    accepted := n == t.count;
  }

  /** The required names an event supplies, the base event's left aside. */
  ghost function Supplies(t: EventType, cells: Cells, supplied: set<Name>): set<Name> {
    set k | k in supplied && !OfBase(k) && k in Req(t.index, cells)
  }

  /** In a good state an event of a custom type is accepted exactly when it supplies every required
      field, its own type's or inherited; an event of the base type exactly when no reload happened. */
  lemma {:induction false} CountDecides(types: Types, cells: Cells, rank: TypeId -> nat, id: TypeId, supplied: set<Name>)
    requires Good(types, cells, rank) && id in types
    ensures !Fundamental(id) ==>
              (|Supplies(types[id], cells, supplied)| == types[id].count <==> OwnRequired(types[id], cells) <= supplied)
    ensures id == BaseEvent ==> (|Supplies(types[id], cells, supplied)| == types[id].count <==> types[id].count == 0)
  {
    BaseRequired(types, cells, rank, id);
    hide Good, Ranked, IndexOk, BaseOk, Live, OwnCells;
    GoodAt(types, cells, rank, id);
    if id == BaseEvent {
      forall k | k in Req(types[id].index, cells) ensures OfBase(k) { BaseOnly(types, cells, rank, id, k); }
      assert OwnRequired(types[id], cells) == {};
    }
    AllSupplied(types[id], cells, supplied);
    hide Req, NotOfBase;
  }

  /** Those required fields are the visible ones, wherever on the chain they are listed. */
  lemma {:induction false} RequiredIsVisible(types: Types, cells: Cells, rank: TypeId -> nat, id: TypeId, k: Name)
    requires Good(types, cells, rank) && id in types
    ensures Ranked(types, rank)
    ensures k in OwnRequired(types[id], cells) <==> !OfBase(k) && exists f: Field :: Visible(types, rank, id, f) && f.name == k && Required(cells, f.cell)
  {
    hide Good, CountOk;
    GoodAt(types, cells, rank, id);
    var ix := types[id].index;
    if k in ix.cells {
      var f := Field(k, ix.cells[k]);
      assert At(ix, f.name) == f.cell;
      assert Visible(types, rank, id, f);
    }
    forall f: Field | Visible(types, rank, id, f) && f.name == k ensures k in ix.cells && ix.cells[k] == f.cell {
      assert At(ix, f.name) == f.cell;
    }
  }

  lemma {:induction false} AllSupplied(t: EventType, cells: Cells, supplied: set<Name>)
    ensures |Supplies(t, cells, supplied)| == |OwnRequired(t, cells)| <==> OwnRequired(t, cells) <= supplied
    ensures |Supplies(t, cells, supplied)| <= |OwnRequired(t, cells)|
  {
    hide Req;
    var own, given := OwnRequired(t, cells), Supplies(t, cells, supplied);
    assert given <= own;
    SubsetSize(given, own);
    if own <= supplied { assert given == own; }
  }

  lemma {:induction false} SubsetSize<T>(a: set<T>, b: set<T>)
    requires a <= b
    ensures |a| <= |b| && (|a| == |b| ==> a == b)
  {
    assert b == a + (b - a);
    assert |b| == |a| + |b - a|;
    if |a| == |b| { assert b - a == {}; }
  }

  lemma {:induction false} BaseOnly(types: Types, cells: Cells, rank: TypeId -> nat, id: TypeId, k: Name)
    requires Good(types, cells, rank) && id in types && Fundamental(id) && k in Req(types[id].index, cells)
    ensures k == Time || k == ThingId
  {
    hide Good, CountOk, Live, Owned;
    GoodAt(types, cells, rank, id);
    var ix := types[id].index;
    var f := Field(k, ix.cells[k]);
    assert At(ix, f.name) == f.cell;
    assert !Visible(types, rank, NoType, f);
  }

  // ---------- inheritance chains ----------

  function Rev<T>(s: seq<T>): seq<T> { seq(|s|, i requires 0 <= i < |s| => s[|s| - 1 - i]) }

  /** Turns a list around by swapping from both ends. */
  method TurnAround<T>(s: seq<T>) returns (r: seq<T>)
    ensures r == Rev(s)
  {
    r := s;
    var i, j := 0, |s| - 1;
    while i < j
      invariant 0 <= i && j == |s| - 1 - i && i <= j + 2 && |r| == |s|
      invariant forall k :: 0 <= k < i ==> r[k] == s[|s| - 1 - k]
      invariant forall k :: j < k < |s| ==> r[k] == s[|s| - 1 - k]
      invariant forall k :: i <= k <= j ==> r[k] == s[k]
    {
      r := r[i := r[j]][j := r[i]];
      i, j := i + 1, j - 1;
    }
  }

  lemma ChainStep(types: Types, rank: TypeId -> nat, t: TypeId, parents: seq<TypeId>)
    requires Ranked(types, rank) && t in types
    ensures Chain(types, rank, t) + Rev(parents) == Chain(types, rank, types[t].parent) + Rev(parents + [t])
    ensures Fundamental(t) ==> types[t].parent == NoType
    ensures !Fundamental(t) ==> types[t].parent in types && Depth(types, rank, types[t].parent) < Depth(types, rank, t)
  {
    assert ParentOk(types, rank, t);
    assert Rev(parents + [t]) == [t] + Rev(parents);
  }

  /** Collects the ancestors upwards and then turns the list around. */
  method GenerateInheritanceChain(types: Types, parent: TypeId, ghost rank: TypeId -> nat) returns (parents: seq<TypeId>)
    requires Ranked(types, rank) && (parent in types || parent == NoType)
    ensures parents == Chain(types, rank, parent)
  {
    parents := [];
    var t := parent;
    assert Chain(types, rank, NoType) == [];
    while t != NoType
      invariant t in types || t == NoType
      invariant Chain(types, rank, parent) == Chain(types, rank, t) + Rev(parents)
      decreases Depth(types, rank, t)
    {
      ChainStep(types, rank, t, parents);
      parents := parents + [t];
      if Fundamental(t) {
        t := NoType;
        break;
      }
      t := types[t].parent;
    }
    parents := TurnAround(parents);
  }

  lemma {:induction false} ChainBelow(types: Types, rank: TypeId -> nat, id: TypeId, i: int, j: int)
    requires Ranked(types, rank) && 0 <= i < j < |Chain(types, rank, id)|
    ensures Descends(types, rank, Chain(types, rank, id)[i], Chain(types, rank, id)[j])
    decreases Depth(types, rank, id)
  {
    assert ParentOk(types, rank, id);
    var p := types[id].parent;
    var up := Chain(types, rank, p);
    if j < |up| { ChainBelow(types, rank, p, i, j); }
    else {
      ChainLast(types, rank, p);
      if i < |up| - 1 { ChainBelow(types, rank, p, i, |up| - 1); }
    }
  }

  lemma {:induction false} ChainLast(types: Types, rank: TypeId -> nat, id: TypeId)
    requires Ranked(types, rank)
    ensures var c := Chain(types, rank, id); if id in types then c != [] && c[|c| - 1] == id else c == []
  {
  }

  lemma {:induction false} ChainLive(types: Types, rank: TypeId -> nat, id: TypeId)
    requires Ranked(types, rank)
    ensures forall a :: a in Chain(types, rank, id) ==> a in types
    ensures forall a :: a in Chain(types, rank, id) <==> a in types && (a == id || Descends(types, rank, a, id))
    decreases Depth(types, rank, id)
  {
    if id in types {
      assert ParentOk(types, rank, id);
      ChainLive(types, rank, types[id].parent);
    }
  }

  /** A field is visible exactly when a type on the chain lists it. */
  lemma {:induction false} VisibleOnChain(types: Types, rank: TypeId -> nat, id: TypeId, f: Field)
    requires Ranked(types, rank)
    ensures Visible(types, rank, id, f) <==> ListedIn(types, Chain(types, rank, id), f)
    decreases Depth(types, rank, id)
  {
    if id in types {
      assert ParentOk(types, rank, id);
      var p := types[id].parent;
      VisibleOnChain(types, rank, p, f);
      var up, c := Chain(types, rank, p), Chain(types, rank, id);
      if Visible(types, rank, p, f) {
        var i :| 0 <= i < |up| && Listed(types, up[i], f);
        assert c[i] == up[i];
      }
      assert c[|up|] == id;
      if i :| 0 <= i < |c| && Listed(types, c[i], f) {
        if i < |up| { assert up[i] == c[i]; }
      }
    }
  }

  predicate Listed(types: Types, id: TypeId, f: Field) { id in types && f in types[id].fields }

  ghost predicate ListedIn(types: Types, ids: seq<TypeId>, f: Field) { exists i :: 0 <= i < |ids| && Listed(types, ids[i], f) }

  // ---------- building an index ----------

  ghost predicate NewNames(ix: Index, fields: seq<Field>) { forall f: Field :: f in fields ==> f.name !in ix.cells }

  lemma {:induction false} ReqAdd(ix: Index, cells: Cells, k: Name, c: nat)
    requires k !in ix.cells
    ensures |Req(Index(ix.cells[k := c]), cells)| == |Req(ix, cells)| + if Required(cells, c) then 1 else 0
  {
    var r, r' := Req(ix, cells), Req(Index(ix.cells[k := c]), cells);
    assert r' == if Required(cells, c) then r + {k} else r;
  }

  /** Adds fields with new names to an index and counts the required ones. */
  method IndexFields(ix: Index, count: int, fields: seq<Field>, cells: Cells) returns (ix': Index, count': int)
    requires DistinctNames(fields) && NewNames(ix, fields)
    ensures forall f: Field :: At(ix', f.name) == f.cell <==> f in fields || At(ix, f.name) == f.cell
    ensures count' - |Req(ix', cells)| == count - |Req(ix, cells)|
  {
    ix', count' := ix, count;
    var i := 0;
    while i < |fields|
      invariant 0 <= i <= |fields|
      invariant forall f: Field :: At(ix', f.name) == f.cell <==> f in fields[..i] || At(ix, f.name) == f.cell
      invariant forall k :: i <= k < |fields| ==> fields[k].name !in ix'.cells
      invariant count' - |Req(ix', cells)| == count - |Req(ix, cells)|
    {
      var f := fields[i];
      assert fields[..i + 1] == fields[..i] + [f];
      ReqAdd(ix', cells, f.name, f.cell);
      ix' := Index(ix'.cells[f.name := f.cell]);
      if Required(cells, f.cell) { count' := count' + 1; }
      i := i + 1;
    }
    assert fields[..i] == fields;
  }

  lemma {:induction false} ListedMore(types: Types, ids: seq<TypeId>, id: TypeId, f: Field)
    ensures ListedIn(types, ids + [id], f) <==> ListedIn(types, ids, f) || Listed(types, id, f)
  {
    var all := ids + [id];
    assert all[|ids|] == id;
    if ListedIn(types, ids, f) { var i :| 0 <= i < |ids| && Listed(types, ids[i], f); assert all[i] == ids[i]; }
    if ListedIn(types, all, f) { var i :| 0 <= i < |all| && Listed(types, all[i], f); if i < |ids| { assert ids[i] == all[i]; } }
  }

  /** The index holds the given fields and those listed by some types. */
  ghost predicate Holds(ix: Index, fields: seq<Field>, types: Types, ids: seq<TypeId>) {
    forall f: Field :: At(ix, f.name) == f.cell <==> f in fields || ListedIn(types, ids, f)
  }

  /** Names of the next type on a chain are not in the index yet. */
  lemma {:induction false} NextIsNew(ix: Index, fields: seq<Field>, types: Types, rank: TypeId -> nat, parent: TypeId, i: nat)
    requires Ranked(types, rank) && Apart(types, rank) && i < |Chain(types, rank, parent)|
    requires Holds(ix, fields, types, Chain(types, rank, parent)[..i])
    requires var id := Chain(types, rank, parent)[i]; id in types && NoCommon(types[id].fields, fields)
    ensures NewNames(ix, types[Chain(types, rank, parent)[i]].fields)
  {
    var c := Chain(types, rank, parent);
    forall g: Field | g in types[c[i]].fields ensures g.name !in ix.cells {
      if g.name in ix.cells {
        var f := Field(g.name, ix.cells[g.name]);
        assert At(ix, f.name) == f.cell;
        if f !in fields {
          var k :| 0 <= k < i && Listed(types, c[..i][k], f);
          ChainBelow(types, rank, parent, k, i);
        }
      }
    }
  }

  /** Indexes a type's own fields and then those of its ancestors. */
  method BuildIndex(types: Types, cells: Cells, fields: seq<Field>, parents: seq<TypeId>, ghost rank: TypeId -> nat, ghost parent: TypeId)
    returns (ix: Index, count: int)
    requires Ranked(types, rank) && Apart(types, rank) && parents == Chain(types, rank, parent)
    requires DistinctNames(fields) && forall a :: a in parents ==> a in types && NoCommon(types[a].fields, fields)
    ensures forall f: Field :: At(ix, f.name) == f.cell <==> f in fields || Visible(types, rank, parent, f)
    ensures count == |Req(ix, cells)| - if parents == [] then 0 else 2
  {
    hide Req, Holds, NewNames, NoCommon, DistinctNames, Apart;
    ix, count := IndexNothing(fields, cells, types);
    if |parents| > 0 {
      var i := 0;
      while i < |parents|
        invariant 0 <= i <= |parents|
        invariant Holds(ix, fields, types, parents[..i])
        invariant count == |Req(ix, cells)|
      {
        assert parents[i] in parents;
        ApartAt(types, rank, parents[i]);
        NextIsNew(ix, fields, types, rank, parent, i);
        ghost var was := ix;
        ix, count := IndexFields(ix, count, types[parents[i]].fields, cells);
        HoldsMore(was, ix, fields, types, parents[..i], parents[i]);
        assert parents[..i] + [parents[i]] == parents[..i + 1];
        i := i + 1;
      }
      assert parents[..i] == parents;
      count := count - 2;
    }
    forall f: Field ensures At(ix, f.name) == f.cell <==> f in fields || Visible(types, rank, parent, f) {
      VisibleOnChain(types, rank, parent, f);
      assert parents[..|parents|] == parents;
      HoldsAt(ix, fields, types, parents, f);
    }
  }

  lemma HoldsAt(ix: Index, fields: seq<Field>, types: Types, ids: seq<TypeId>, f: Field)
    requires Holds(ix, fields, types, ids)
    ensures At(ix, f.name) == f.cell <==> f in fields || ListedIn(types, ids, f)
  {
  }

  lemma ApartAt(types: Types, rank: TypeId -> nat, id: TypeId)
    requires Ranked(types, rank) && Apart(types, rank) && id in types
    ensures DistinctNames(types[id].fields)
  {
  }

  method IndexNothing(fields: seq<Field>, cells: Cells, ghost types: Types) returns (ix: Index, count: int)
    requires DistinctNames(fields)
    ensures Holds(ix, fields, types, []) && count == |Req(ix, cells)|
  {
    ix, count := IndexFields(Index(map[]), 0, fields, cells);
    assert Req(Index(map[]), cells) == {};
  }

  lemma {:induction false} HoldsMore(was: Index, ix: Index, fields: seq<Field>, types: Types, ids: seq<TypeId>, id: TypeId)
    requires id in types && Holds(was, fields, types, ids)
    requires forall f: Field :: At(ix, f.name) == f.cell <==> f in types[id].fields || At(was, f.name) == f.cell
    ensures Holds(ix, fields, types, ids + [id])
  {
    forall f: Field ensures At(ix, f.name) == f.cell <==> f in fields || ListedIn(types, ids + [id], f) {
      ListedMore(types, ids, id, f);
    }
  }

  // ---------- editing the fields of one type ----------

  datatype Spec = Spec(name: Name, required: bool)

  /** The requirement a list of specifications ends up with for a name: the last one counts. */
  function Wanted(specs: seq<Spec>, name: Name): bool {
    if specs == [] then false
    else if specs[|specs| - 1].name == name then specs[|specs| - 1].required
    else Wanted(specs[..|specs| - 1], name)
  }

  /** The specification at `i` is the last one for its name. */
  ghost predicate LastFor(specs: seq<Spec>, i: int) {
    0 <= i < |specs| && forall j :: i < j < |specs| ==> specs[j].name != specs[i].name
  }

  /** The last specification for a name asks for this requirement. */
  ghost predicate Says(specs: seq<Spec>, name: Name, required: bool) {
    exists i :: LastFor(specs, i) && specs[i] == Spec(name, required)
  }

  lemma {:induction false} WantedSays(specs: seq<Spec>, name: Name)
    requires Specified(specs, name)
    ensures Says(specs, name, Wanted(specs, name))
  {
    var n := |specs| - 1;
    if specs[n].name == name {
      assert LastFor(specs, n) && specs[n] == Spec(name, Wanted(specs, name));
    } else {
      assert Specified(specs[..n], name) by { var t :| t in specs && t.name == name; assert t in specs[..n]; }
      WantedSays(specs[..n], name);
      SaysStill(specs, name, Wanted(specs[..n], name));
    }
  }

  lemma SaysStill(specs: seq<Spec>, name: Name, required: bool)
    requires specs != [] && specs[|specs| - 1].name != name && Says(specs[..|specs| - 1], name, required)
    ensures Says(specs, name, required)
  {
    var before := specs[..|specs| - 1];
    var i :| LastFor(before, i) && before[i] == Spec(name, required);
    forall j | i < j < |specs| ensures specs[j].name != name { if j < |before| { assert before[j].name != name; } }
    assert LastFor(specs, i) && specs[i] == Spec(name, required);
  }

  /** Which requirement a name ends up with is determined. */
  lemma SaysOne(specs: seq<Spec>, name: Name, a: bool, b: bool)
    requires Says(specs, name, a) && Says(specs, name, b)
    ensures a == b
  {
  }

  /** With distinct names every specification counts. */
  lemma SaysDistinct(specs: seq<Spec>, name: Name, required: bool)
    requires SpecsDistinct(specs)
    ensures Says(specs, name, required) <==> Spec(name, required) in specs
  {
    if Spec(name, required) in specs {
      var i :| 0 <= i < |specs| && specs[i] == Spec(name, required);
      assert LastFor(specs, i);
    }
  }

  /** A type's own fields are in the index, and their cells stand for no other name. */
  ghost predicate OwnsIn(ix: Index, fields: seq<Field>) {
    && DistinctNames(fields)
    && (forall f: Field :: f in fields ==> At(ix, f.name) == f.cell)
    && (forall f: Field, k :: f in fields && k in ix.cells && ix.cells[k] == f.cell ==> k == f.name)
  }

  lemma {:induction false} ReqDrop(ix: Index, cells: Cells, k: Name)
    requires k in ix.cells
    ensures |Req(Index(ix.cells - {k}), cells)| == |Req(ix, cells)| - if Required(cells, ix.cells[k]) then 1 else 0
  {
    var r, r' := Req(ix, cells), Req(Index(ix.cells - {k}), cells);
    assert r' == if Required(cells, ix.cells[k]) then r - {k} else r;
  }

  /** Removes the named fields from the list, keeping the order of the others, and from the index. */
  method DeleteFields(fields: seq<Field>, ix: Index, count: int, names: seq<Name>, cells: Cells)
    returns (fields': seq<Field>, ix': Index, count': int)
    requires OwnsIn(ix, fields)
    ensures forall f: Field :: f in fields' <==> f in fields && f.name !in names
    ensures OwnsIn(ix', fields')
    ensures forall f: Field :: At(ix', f.name) == f.cell <==> At(ix, f.name) == f.cell && !(f in fields && f.name in names)
    ensures count' - |Req(ix', cells)| == count - |Req(ix, cells)|
  {
    fields', ix', count' := [], ix, count;
    var i := 0;
    while i < |fields|
      invariant 0 <= i <= |fields| && |fields'| <= i
      invariant forall f: Field :: f in fields' <==> f in fields[..i] && f.name !in names
      invariant DistinctNames(fields')
      invariant forall k :: i <= k < |fields| ==> At(ix', fields[k].name) == fields[k].cell
      invariant forall f: Field :: At(ix', f.name) == f.cell <==> At(ix, f.name) == f.cell && !(f in fields[..i] && f.name in names)
      invariant count' - |Req(ix', cells)| == count - |Req(ix, cells)|
    {
      var f := fields[i];
      assert fields[..i + 1] == fields[..i] + [f];
      assert f in fields;
      if f.name !in names {
        NotYet(fields, i, fields');
        fields' := fields' + [f];
      } else {
        ReqDrop(ix', cells, f.name);
        if Required(cells, f.cell) { count' := count' - 1; }
        ix' := Index(ix'.cells - {f.name});
      }
      i := i + 1;
    }
    assert fields[..i] == fields;
    forall f: Field, k | f in fields' && k in ix'.cells && ix'.cells[k] == f.cell ensures k == f.name {
      var g := Field(k, f.cell);
      assert At(ix', g.name) == g.cell;
      assert f in fields;
    }
  }

  lemma {:induction false} NotYet(fields: seq<Field>, i: nat, kept: seq<Field>)
    requires i < |fields| && DistinctNames(fields) && forall f: Field :: f in kept ==> f in fields[..i]
    ensures forall k :: 0 <= k < |kept| ==> kept[k].name != fields[i].name
  {
    forall k | 0 <= k < |kept| ensures kept[k].name != fields[i].name {
      assert kept[k] in kept;
      var j :| 0 <= j < i && fields[..i][j] == kept[k];
    }
  }

  lemma {:induction false} ReqSet(ix: Index, cells: Cells, k: Name, r: bool)
    requires k in ix.cells && ix.cells[k] in cells && forall n :: n in ix.cells && ix.cells[n] == ix.cells[k] ==> n == k
    ensures |Req(ix, cells[ix.cells[k] := r])| == |Req(ix, cells)| - (if cells[ix.cells[k]] then 1 else 0) + (if r then 1 else 0)
  {
    var c := ix.cells[k];
    var q, q' := Req(ix, cells), Req(ix, cells[c := r]);
    forall n ensures n in q' <==> if n == k then r else n in q {
      if n in ix.cells && n != k { assert ix.cells[n] != c; }
    }
    assert k in q <==> cells[c];
    hide *;
    SetOne(q, q', k, r);
  }

  lemma SetOne<T>(q: set<T>, q': set<T>, k: T, r: bool)
    requires forall n :: n in q' <==> if n == k then r else n in q
    ensures |q'| == |q| - (if k in q then 1 else 0) + (if r then 1 else 0)
  {
    if r { assert q' == q - {k} + {k}; } else { assert q' == q - {k}; }
  }

  /** Sets the requirement of each named field, in the shared cell. */
  method UpdateFields(fields: seq<Field>, ix: Index, count: int, names: seq<Name>, specs: seq<Spec>, cells: Cells)
    returns (count': int, cells': Cells)
    requires OwnsIn(ix, fields) && Live(fields, cells) && NoDup(names)
    requires forall k :: k in names ==> Named(fields, k)
    ensures cells'.Keys == cells.Keys
    ensures forall c :: c in cells && (forall f: Field :: f in fields && f.name in names ==> f.cell != c) ==> cells'[c] == cells[c]
    ensures forall f: Field :: f in fields && f.name in names ==> f.cell in cells && (Specified(specs, f.name) ==> Says(specs, f.name, cells'[f.cell]))
    ensures count' - |Req(ix, cells')| == count - |Req(ix, cells)|
  {
    hide Req, Wanted, Says, Specified;
    count', cells' := count, cells;
    var i := 0;
    while i < |names|
      invariant 0 <= i <= |names|
      invariant cells'.Keys == cells.Keys
      invariant forall c :: c in cells && (forall f: Field :: f in fields && f.name in names[..i] ==> f.cell != c) ==> cells'[c] == cells[c]
      invariant forall f: Field :: f in fields && f.name in names[..i] ==> f.cell in cells && cells'[f.cell] == Wanted(specs, f.name)
      invariant count' - |Req(ix, cells')| == count - |Req(ix, cells)|
    {
      var k := names[i];
      assert names[..i + 1] == names[..i] + [k];
      assert k in names;
      ghost var f: Field :| f in fields && f.name == k;
      assert At(ix, f.name) == f.cell;
      var c := ix.cells[k];
      var wanted := Wanted(specs, k);
      ReqSet(ix, cells', k, wanted);
      if cells'[c] && !wanted { count' := count' - 1; }
      else if !cells'[c] && wanted { count' := count' + 1; }
      cells' := cells'[c := wanted];
      i := i + 1;
    }
    assert names[..i] == names;
    forall f: Field | f in fields && f.name in names && Specified(specs, f.name) ensures Says(specs, f.name, cells'[f.cell]) { WantedSays(specs, f.name); }
  }

  lemma {:induction false} ReqInsert(ix: Index, cells: Cells, k: Name, c: nat, r: bool)
    requires k !in ix.cells && c !in cells && forall n :: n in ix.cells ==> ix.cells[n] != c
    ensures |Req(Index(ix.cells[k := c]), cells[c := r])| == |Req(ix, cells)| + if r then 1 else 0
  {
    var q, q' := Req(ix, cells), Req(Index(ix.cells[k := c]), cells[c := r]);
    assert k !in q;
    forall n ensures n in q' <==> if n == k then r else n in q {
      if n in ix.cells { assert ix.cells[n] != c; }
    }
    hide *;
    SetOne(q, q', k, r);
  }

  ghost predicate Below(ix: Index, cells: Cells, next: nat) {
    (forall c :: c in cells ==> c < next) && (forall k :: k in ix.cells ==> ix.cells[k] < next)
  }

  /** The fields added for the names so far, with ascending new cells. */
  ghost predicate Added(added: seq<Field>, names: seq<Name>, specs: seq<Spec>, cells: Cells, next: nat, next': nat) {
    && |added| <= |names| && next <= next'
    && (forall k :: 0 <= k < |added| ==> added[k].name == names[k] && next <= added[k].cell < next')
    && (forall j, k :: 0 <= j < k < |added| ==> added[j].cell < added[k].cell)
    && (forall k :: 0 <= k < |added| ==> added[k].cell in cells && cells[added[k].cell] == Wanted(specs, added[k].name))
  }

  lemma AddedMore(added: seq<Field>, names: seq<Name>, specs: seq<Spec>, cells: Cells, next: nat, next': nat)
    requires Added(added, names, specs, cells, next, next') && |added| < |names| && next' !in cells
    ensures var k := names[|added|];
            Added(added + [Field(k, next')], names, specs, cells[next' := Wanted(specs, k)], next, next' + 1)
  {
  }

  lemma AddedAll(added: seq<Field>, names: seq<Name>, specs: seq<Spec>, cells: Cells, next: nat, next': nat)
    requires Added(added, names, specs, cells, next, next') && |added| == |names| && NoDup(names)
    ensures DistinctNames(added) && OwnCells(added) && forall k :: k in names <==> Named(added, k)
    ensures forall f: Field :: f in added ==> next <= f.cell < next' && f.cell in cells && cells[f.cell] == Wanted(specs, f.name)
  {
    forall k | k in names ensures Named(added, k) {
      var j :| 0 <= j < |names| && names[j] == k;
      assert added[j] in added;
    }
  }

  /** Appends a field with a new cell for each name. */
  method InsertFields(ix: Index, count: int, names: seq<Name>, specs: seq<Spec>, cells: Cells, next: nat)
    returns (added: seq<Field>, ix': Index, count': int, cells': Cells, next': nat)
    requires NoDup(names) && (forall k :: k in names ==> k !in ix.cells) && Below(ix, cells, next)
    ensures Below(ix', cells', next') && next <= next'
    ensures DistinctNames(added) && OwnCells(added) && forall k :: k in names <==> Named(added, k)
    ensures forall f: Field :: f in added ==> next <= f.cell < next' && f.cell in cells' && (Specified(specs, f.name) ==> Says(specs, f.name, cells'[f.cell]))
    ensures forall c :: c in cells ==> c in cells' && cells'[c] == cells[c]
    ensures forall f: Field :: At(ix', f.name) == f.cell <==> At(ix, f.name) == f.cell || f in added
    ensures count' - |Req(ix', cells')| == count - |Req(ix, cells)|
  {
    hide Req, Wanted, Says, Specified;
    added, ix', count', cells', next' := [], ix, count, cells, next;
    var i := 0;
    while i < |names|
      invariant 0 <= i <= |names| && |added| == i
      invariant Below(ix', cells', next')
      invariant Added(added, names, specs, cells', next, next')
      invariant forall c :: c in cells ==> c in cells' && cells'[c] == cells[c]
      invariant forall f: Field :: At(ix', f.name) == f.cell <==> At(ix, f.name) == f.cell || f in added
      invariant forall k :: i <= k < |names| ==> names[k] !in ix'.cells
      invariant count' - |Req(ix', cells')| == count - |Req(ix, cells)|
    {
      hide Added;
      var k := names[i];
      var wanted := Wanted(specs, k);
      ReqInsert(ix', cells', k, next', wanted);
      AddedMore(added, names, specs, cells', next, next');
      ix' := Index(ix'.cells[k := next']);
      cells' := cells'[next' := wanted];
      if wanted { count' := count' + 1; }
      added := added + [Field(k, next')];
      next' := next' + 1;
      i := i + 1;
    }
    AddedAll(added, names, specs, cells', next, next');
    forall f: Field | f in added && Specified(specs, f.name) ensures Says(specs, f.name, cells'[f.cell]) { WantedSays(specs, f.name); }
  }

  /** Takes over inserted names, forgets deleted ones and counts afresh. */
  method ReindexChild(ix: Index, owner: Index, ins: seq<Name>, del: seq<Name>, cells: Cells) returns (ix': Index, count: int)
    requires forall k :: k in ins ==> k in owner.cells
    ensures forall k :: At(ix', k) == if k in del then -1 else if k in ins then At(owner, k) else At(ix, k)
    ensures count == |Req(ix', cells)| - 2
  {
    ix' := ix;
    var i := 0;
    while i < |ins|
      invariant 0 <= i <= |ins|
      invariant forall k :: At(ix', k) == if k in ins[..i] then At(owner, k) else At(ix, k)
    {
      assert ins[i] in ins && ins[..i + 1] == ins[..i] + [ins[i]];
      ix' := Index(ix'.cells[ins[i] := owner.cells[ins[i]]]);
      i := i + 1;
    }
    assert ins[..i] == ins;
    i := 0;
    while i < |del|
      invariant 0 <= i <= |del|
      invariant forall k :: At(ix', k) == if k in del[..i] then -1 else if k in ins then At(owner, k) else At(ix, k)
    {
      assert del[..i + 1] == del[..i] + [del[i]];
      ix' := Index(ix'.cells - {del[i]});
      i := i + 1;
    }
    assert del[..i] == del;
    count := CountRequired(ix', cells);
    count := count - 2;
  }

  method CountRequired(ix: Index, cells: Cells) returns (n: nat)
    ensures n == |Req(ix, cells)|
  {
    n := 0;
    var todo := ix.cells.Keys;
    ghost var hit: set<Name> := {};
    while todo != {}
      invariant todo <= ix.cells.Keys && n == |hit|
      invariant forall k :: k in hit <==> k in Req(ix, cells) && k !in todo
      decreases |todo|
    {
      var k :| k in todo;
      if Required(cells, ix.cells[k]) {
        n := n + 1;
        hit := hit + {k};
      }
      todo := todo - {k};
    }
    assert hit == Req(ix, cells);
  }

  // ---------- descendants ----------

  method ChildTypes(types: Types, parent: TypeId) returns (ids: seq<TypeId>)
    ensures forall id :: id in ids <==> id in types && types[id].parent == parent
    ensures NoDup(ids)
  {
    ids := [];
    var todo := types.Keys;
    while todo != {}
      invariant todo <= types.Keys && NoDup(ids)
      invariant forall id :: id in ids <==> id in types && id !in todo && types[id].parent == parent
      decreases |todo|
    {
      var id :| id in todo;
      if types[id].parent == parent { ids := ids + [id]; }
      todo := todo - {id};
    }
  }

  ghost predicate ChildOfOne(types: Types, top: TypeId, ids: seq<TypeId>, id: TypeId) {
    id in types && (types[id].parent == top || types[id].parent in ids)
  }

  lemma {:induction false} DescendsRank(types: Types, rank: TypeId -> nat, top: TypeId, id: TypeId)
    requires Ranked(types, rank) && Descends(types, rank, top, id)
    ensures top in types && rank(top) < rank(id) && !Fundamental(id)
    decreases Depth(types, rank, id)
  {
    assert ParentOk(types, rank, id);
    if types[id].parent != top { DescendsRank(types, rank, top, types[id].parent); }
  }

  lemma {:induction false} SeqWithin(ids: seq<TypeId>, keys: set<TypeId>)
    requires NoDup(ids) && forall id :: id in ids ==> id in keys
    ensures |ids| <= |keys|
    decreases |ids|
  {
    if ids != [] {
      var n := |ids| - 1;
      assert forall i :: 0 <= i < n ==> ids[i] != ids[n];
      SeqWithin(ids[..n], keys - {ids[n]});
    }
  }

  lemma {:induction false} NoDupJoin(a: seq<TypeId>, b: seq<TypeId>)
    requires NoDup(a) && NoDup(b) && forall x :: x in a ==> x !in b
    ensures NoDup(a + b)
  {
    forall i, j | 0 <= i < |a| && 0 <= j < |b| ensures a[i] != b[j] { assert a[i] in a && b[j] in b; }
  }

  /** The list grows while it is walked, until it holds all descendants. */
  method DescendantTypes(types: Types, top: TypeId, ghost rank: TypeId -> nat) returns (ets: seq<TypeId>)
    requires Ranked(types, rank) && top in types
    ensures forall id :: id in ets <==> Descends(types, rank, top, id)
    ensures NoDup(ets)
  {
    ets := ChildTypes(types, top);
    var i := 0;
    while i < |ets|
      invariant 0 <= i <= |ets| && NoDup(ets)
      invariant forall id :: id in ets ==> Descends(types, rank, top, id)
      invariant forall id :: id in ets <==> ChildOfOne(types, top, ets[..i], id)
      decreases |types.Keys| - i
    {
      var t := ets[i];
      assert t in ets;
      SeqWithin(ets, types.Keys);
      var children := ChildTypes(types, t);
      forall x | x in ets ensures x !in children { NotAgain(types, rank, top, ets, i, x); }
      NoDupJoin(ets, children);
      assert ets[..i + 1] == ets[..i] + [t] && (ets + children)[..i + 1] == ets[..i + 1];
      forall x | x in children ensures Descends(types, rank, top, x) { assert ParentOk(types, rank, x); }
      ets := ets + children;
      i := i + 1;
    }
    assert ets[..i] == ets;
    forall id | Descends(types, rank, top, id) ensures id in ets { AllFound(types, rank, top, ets, id); }
  }

  lemma {:induction false} NotAgain(types: Types, rank: TypeId -> nat, top: TypeId, ets: seq<TypeId>, i: nat, x: TypeId)
    requires Ranked(types, rank) && i < |ets| && NoDup(ets) && ChildOfOne(types, top, ets[..i], x) && Descends(types, rank, top, ets[i])
    ensures types[x].parent != ets[i]
  {
    DescendsRank(types, rank, top, ets[i]);
    if types[x].parent != top { var k :| 0 <= k < i && ets[..i][k] == types[x].parent; }
  }

  lemma {:induction false} AllFound(types: Types, rank: TypeId -> nat, top: TypeId, ets: seq<TypeId>, id: TypeId)
    requires Ranked(types, rank) && Descends(types, rank, top, id) && forall x :: x in ets <==> ChildOfOne(types, top, ets, x)
    ensures id in ets
    decreases Depth(types, rank, id)
  {
    assert ParentOk(types, rank, id);
    if types[id].parent != top { AllFound(types, rank, top, ets, types[id].parent); }
    assert ChildOfOne(types, top, ets, id);
  }

  // ---------- the edit as a whole ----------

  predicate Specified(specs: seq<Spec>, k: Name) { exists s :: s in specs && s.name == k }

  /** What an edit does to a type's own fields: fields that stay keep their cells, new ones get new
      cells, and every field ends up as specified. No other cell changes. */
  ghost predicate EditedFields(fields: seq<Field>, fields': seq<Field>, specs: seq<Spec>, cells: Cells, cells': Cells, next: nat) {
    && DistinctNames(fields') && OwnCells(fields')
    && (forall f: Field :: f in fields' ==> f in fields || (next <= f.cell && !Named(fields, f.name)))
    && (forall k :: Named(fields', k) <==> Specified(specs, k))
    && (forall f: Field :: f in fields && Specified(specs, f.name) ==> f in fields')
    && (forall f: Field :: f in fields' ==> f.cell in cells' && Says(specs, f.name, cells'[f.cell]))
    && (forall c :: c in cells ==> c in cells' && (Foreign(fields, c) ==> cells'[c] == cells[c]))
  }

  ghost predicate Foreign(fields: seq<Field>, c: nat) { forall f: Field :: f in fields ==> f.cell != c }

  method FieldNames(fields: seq<Field>) returns (names: seq<Name>)
    ensures forall k :: k in names <==> Named(fields, k)
  {
    names := seq(|fields|, i requires 0 <= i < |fields| => fields[i].name);
    forall k ensures k in names <==> Named(fields, k) {
      if k in names { var i :| 0 <= i < |names| && names[i] == k; assert fields[i] in fields; }
      if Named(fields, k) { var f: Field :| f in fields && f.name == k; var i :| 0 <= i < |fields| && fields[i] == f; assert names[i] == k; }
    }
  }

  method SpecNames(specs: seq<Spec>) returns (names: seq<Name>)
    ensures forall k :: k in names <==> Specified(specs, k)
    ensures SpecsDistinct(specs) ==> NoDup(names)
  {
    names := seq(|specs|, i requires 0 <= i < |specs| => specs[i].name);
    forall k ensures k in names <==> Specified(specs, k) {
      if k in names { var i :| 0 <= i < |names| && names[i] == k; assert specs[i] in specs; }
      if Specified(specs, k) { var f :| f in specs && f.name == k; var i :| 0 <= i < |specs| && specs[i] == f; assert names[i] == k; }
    }
  }

  method EditFields(fields: seq<Field>, ix: Index, count: int, specs: seq<Spec>, cells: Cells, next: nat)
    returns (fields': seq<Field>, ix': Index, count': int, cells': Cells, next': nat, ins: seq<Name>, del: seq<Name>)
    requires OwnsIn(ix, fields) && OwnCells(fields) && Live(fields, cells) && Below(ix, cells, next)
    requires forall k :: Specified(specs, k) && k in ix.cells ==> Named(fields, k)
    ensures EditedFields(fields, fields', specs, cells, cells', next) && next <= next' && Below(ix', cells', next')
    ensures forall f: Field :: At(ix', f.name) == f.cell <==> f in fields' || (At(ix, f.name) == f.cell && f !in fields)
    ensures forall k :: k in ins <==> Specified(specs, k) && !Named(fields, k)
    ensures forall k :: k in del <==> Named(fields, k) && !Specified(specs, k)
    ensures count' - |Req(ix', cells')| == count - |Req(ix, cells)|
  {
    hide Req, Says;
    var mine := FieldNames(fields);
    var theirs := SpecNames(specs);
    var up;
    del, up, ins := DifferenceAndIntersection(mine, theirs);
    var kept, ix1, count1 := DeleteFields(fields, ix, count, del, cells);
    Kept(fields, kept, up, del);
    var count2, cells2 := UpdateFields(kept, ix1, count1, up, specs, cells);
    NotThere(ix, ix1, fields, ins);
    assert Below(ix1, cells2, next) by {
      forall k | k in ix1.cells ensures ix1.cells[k] < next { assert At(ix1, Field(k, ix1.cells[k]).name) == ix1.cells[k]; }
    }
    var added;
    added, ix', count', cells', next' := InsertFields(ix1, count2, ins, specs, cells2, next);
    fields' := kept + added;
    Assembled(fields, kept, added, specs, cells, cells2, cells', next, next', up, ins, del);
    IndexAssembled(fields, kept, added, ix, ix1, ix', del);
  }

  lemma {:induction false} Kept(fields: seq<Field>, kept: seq<Field>, up: seq<Name>, del: seq<Name>)
    requires forall f: Field :: f in kept <==> f in fields && f.name !in del
    requires forall k :: k in up ==> Named(fields, k) && k !in del
    ensures forall k :: k in up ==> Named(kept, k)
  {
    forall k | k in up ensures Named(kept, k) {
      var f: Field :| f in fields && f.name == k;
      assert f in kept;
    }
  }

  lemma {:induction false} NotThere(ix: Index, ix1: Index, fields: seq<Field>, ins: seq<Name>)
    requires forall k :: k in ins ==> k !in ix.cells
    requires forall f: Field :: At(ix1, f.name) == f.cell ==> At(ix, f.name) == f.cell
    ensures forall k :: k in ins ==> k !in ix1.cells
  {
    forall k | k in ix1.cells ensures k in ix.cells {
      assert At(ix1, Field(k, ix1.cells[k]).name) == ix1.cells[k];
    }
  }

  lemma {:induction false} DistinctJoin(a: seq<Field>, b: seq<Field>)
    requires DistinctNames(a) && DistinctNames(b) && NoCommon(a, b)
    ensures DistinctNames(a + b)
  {
    forall i, j | 0 <= i < |a| && 0 <= j < |b| ensures a[i].name != b[j].name { assert a[i] in a && b[j] in b; }
  }

  lemma {:induction false} IndexAssembled(fields: seq<Field>, kept: seq<Field>, added: seq<Field>, ix: Index, ix1: Index, ix': Index, del: seq<Name>)
    requires forall f: Field :: f in kept <==> f in fields && f.name !in del
    requires forall f: Field :: f in fields ==> At(ix, f.name) == f.cell
    requires forall f: Field :: At(ix1, f.name) == f.cell <==> At(ix, f.name) == f.cell && !(f in fields && f.name in del)
    requires forall f: Field :: At(ix', f.name) == f.cell <==> At(ix1, f.name) == f.cell || f in added
    ensures forall f: Field :: At(ix', f.name) == f.cell <==> f in kept + added || (At(ix, f.name) == f.cell && f !in fields)
  {
    forall f: Field ensures At(ix', f.name) == f.cell <==> f in kept + added || (At(ix, f.name) == f.cell && f !in fields) {
      assert f in kept + added <==> f in kept || f in added;
    }
  }

  lemma {:induction false} Assembled(fields: seq<Field>, kept: seq<Field>, added: seq<Field>, specs: seq<Spec>, cells: Cells, cells2: Cells, cells': Cells,
                                     next: nat, next': nat, up: seq<Name>, ins: seq<Name>, del: seq<Name>)
    requires OwnCells(fields) && Live(fields, cells) && (forall c :: c in cells ==> c < next)
    requires DistinctNames(kept) && forall f: Field :: f in kept <==> f in fields && f.name !in del
    requires DistinctNames(added) && OwnCells(added) && forall k :: k in ins <==> Named(added, k)
    requires forall f: Field :: f in added ==> next <= f.cell < next' && f.cell in cells' && (Specified(specs, f.name) ==> Says(specs, f.name, cells'[f.cell]))
    requires forall k :: k in del <==> Named(fields, k) && !Specified(specs, k)
    requires forall k :: k in up <==> Named(fields, k) && Specified(specs, k)
    requires forall k :: k in ins <==> !Named(fields, k) && Specified(specs, k)
    requires cells2.Keys == cells.Keys
    requires forall c :: c in cells && (forall f: Field :: f in kept && f.name in up ==> f.cell != c) ==> cells2[c] == cells[c]
    requires forall f: Field :: f in kept && f.name in up ==> f.cell in cells && (Specified(specs, f.name) ==> Says(specs, f.name, cells2[f.cell]))
    requires forall c :: c in cells2 ==> c in cells' && cells'[c] == cells2[c]
    ensures EditedFields(fields, kept + added, specs, cells, cells', next)
  {
    hide Says;
    var all := kept + added;
    forall f: Field | f in kept ensures f.name in up && Named(fields, f.name) && f.cell < next { assert f in fields; }
    forall f: Field | f in added ensures f.name in ins { assert Named(added, f.name); }
    DistinctJoin(kept, added);
    forall k ensures Named(all, k) <==> Specified(specs, k) {
      if Named(all, k) { var f: Field :| f in all && f.name == k; assert f in kept || f in added; }
      if Specified(specs, k) {
        if Named(fields, k) {
          var f: Field :| f in fields && f.name == k;
          assert f in kept;
          assert f in all;
        } else {
          assert Named(added, k);
          var f: Field :| f in added && f.name == k;
          assert f in all;
        }
      }
    }
    forall c | c in cells ensures c in cells' && (Foreign(fields, c) ==> cells'[c] == cells[c]) {}
  }

  // ---------- the effect of an edit on all types ----------

  /** Only the own fields of `id` differ; links are the same. */
  ghost predicate Relisted(types: Types, types': Types, id: TypeId, fields: seq<Field>) {
    && types'.Keys == types.Keys && id in types
    && (forall x :: x in types ==> types'[x].parent == types[x].parent)
    && (forall x :: x in types ==> types'[x].fields == if x == id then fields else types[x].fields)
  }

  lemma {:induction false} SameLinks(types: Types, types': Types, rank: TypeId -> nat, id: TypeId, fields: seq<Field>)
    requires Ranked(types, rank) && Relisted(types, types', id, fields)
    ensures Ranked(types', rank)
  {
    forall x | x in types' ensures ParentOk(types', rank, x) { assert ParentOk(types, rank, x); }
  }

  lemma {:induction false} SameDescent(types: Types, types': Types, rank: TypeId -> nat, id: TypeId, fields: seq<Field>, a: TypeId, b: TypeId)
    requires Ranked(types, rank) && Ranked(types', rank) && Relisted(types, types', id, fields)
    ensures Descends(types', rank, a, b) == Descends(types, rank, a, b)
    decreases Depth(types, rank, b)
  {
    if b in types {
      assert ParentOk(types, rank, b) && ParentOk(types', rank, b);
      SameDescent(types, types', rank, id, fields, a, types[b].parent);
    }
  }

  ghost predicate Under(types: Types, rank: TypeId -> nat, id: TypeId, x: TypeId)
    requires Ranked(types, rank)
  {
    x == id || Descends(types, rank, id, x)
  }

  /** A visible field is listed by the type itself or by an ancestor. */
  lemma {:induction false} Owner(types: Types, rank: TypeId -> nat, x: TypeId, f: Field) returns (a: TypeId)
    requires Ranked(types, rank) && Visible(types, rank, x, f)
    ensures a in types && f in types[a].fields && (a == x || Descends(types, rank, a, x))
    decreases Depth(types, rank, x)
  {
    if f in types[x].fields { return x; }
    assert ParentOk(types, rank, x);
    a := Owner(types, rank, types[x].parent, f);
  }

  /** What becomes visible: the new fields instead of the old ones, under the edited type only. */
  lemma {:induction false} VisibleAfter(types: Types, types': Types, rank: TypeId -> nat, id: TypeId, fields: seq<Field>, x: TypeId, f: Field)
    requires Ranked(types, rank) && Ranked(types', rank) && Apart(types, rank) && Relisted(types, types', id, fields)
    ensures x in types && Under(types, rank, id, x) ==>
              (Visible(types', rank, x, f) <==> f in fields || (Visible(types, rank, x, f) && f !in types[id].fields))
    ensures !Under(types, rank, id, x) ==> (Visible(types', rank, x, f) <==> Visible(types, rank, x, f))
    decreases Depth(types, rank, x)
  {
    if x in types {
      assert ParentOk(types, rank, x) && ParentOk(types', rank, x);
      var p := types[x].parent;
      VisibleAfter(types, types', rank, id, fields, p, f);
      if x == id {
        if Descends(types, rank, id, p) { DescendsRank(types, rank, id, p); }
        if Visible(types, rank, p, f) {
          var a := Owner(types, rank, p, f);
          assert Descends(types, rank, a, id);
          assert NoCommon(types[a].fields, types[id].fields);
        }
      } else if Descends(types, rank, id, x) {
        assert NoCommon(types[id].fields, types[x].fields);
      }
    }
  }

  /** The specified names occur neither above nor below. */
  ghost predicate FreeNames(types: Types, rank: TypeId -> nat, id: TypeId, fields: seq<Field>)
    requires Ranked(types, rank)
  {
    && (forall a :: a in types && Descends(types, rank, a, id) ==> NoCommon(types[a].fields, fields))
    && (forall b :: b in types && Descends(types, rank, id, b) ==> NoCommon(fields, types[b].fields))
  }

  lemma {:induction false} ApartAfter(types: Types, types': Types, rank: TypeId -> nat, id: TypeId, fields: seq<Field>)
    requires Ranked(types, rank) && Ranked(types', rank) && Apart(types, rank) && Relisted(types, types', id, fields)
    requires DistinctNames(fields) && FreeNames(types, rank, id, fields)
    ensures Apart(types', rank)
  {
    forall a, b | a in types' && Descends(types', rank, a, b) ensures NoCommon(types'[a].fields, types'[b].fields) {
      SameDescent(types, types', rank, id, fields, a, b);
      assert b in types;
      if a == b { DescendsRank(types, rank, a, b); }
    }
  }

  /** New cells are new everywhere. */
  ghost predicate AllBelow(types: Types, cells: Cells, next: nat) {
    (forall c :: c in cells ==> c < next) && (forall x :: x in types ==> Below(types[x].index, cells, next))
  }

  lemma {:induction false} OwnedAfter(types: Types, types': Types, cells: Cells, rank: TypeId -> nat, id: TypeId, fields: seq<Field>, next: nat)
    requires Relisted(types, types', id, fields) && !Fundamental(id) && Owned(types) && AllLive(types, cells) && (forall c :: c in cells ==> c < next)
    requires OwnCells(fields) && forall f: Field :: f in fields ==> f in types[id].fields || next <= f.cell
    ensures Owned(types')
  {
    forall a, b | a in types' && b in types' && !Fundamental(a) && a != b ensures Separate(types'[a].fields, types'[b].fields) {
      assert Separate(types[a].fields, types[b].fields);
      assert Live(types[a].fields, cells) && Live(types[b].fields, cells);
    }
  }

  lemma {:induction false} LiveAfter(types: Types, types': Types, cells: Cells, cells': Cells, id: TypeId, fields: seq<Field>)
    requires Relisted(types, types', id, fields) && AllLive(types, cells) && Live(fields, cells') && forall c :: c in cells ==> c in cells'
    ensures AllLive(types', cells')
  {
    forall x | x in types' ensures Live(types'[x].fields, cells') { assert Live(types[x].fields, cells); }
  }

  lemma {:induction false} BasesAfter(types: Types, types': Types, cells: Cells, cells': Cells, id: TypeId, fields: seq<Field>)
    requires Relisted(types, types', id, fields) && !Fundamental(id) && Owned(types) && AllLive(types, cells) && BasesOk(types, cells)
    requires forall c :: c in cells ==> c in cells' && (Foreign(types[id].fields, c) ==> cells'[c] == cells[c])
    ensures BasesOk(types', cells')
  {
    forall x | x in types' && Fundamental(x) ensures BaseOk(types'[x].fields, cells') {
      assert Separate(types[id].fields, types[x].fields) && Live(types[x].fields, cells) && BaseOk(types[x].fields, cells);
      forall f: Field | f in types[x].fields ensures Required(cells', f.cell) == Required(cells, f.cell) {
        assert Foreign(types[id].fields, f.cell);
      }
    }
  }

  /** Types that do not derive from the edited one keep their required names. */
  lemma {:induction false} ReqElsewhere(types: Types, cells: Cells, cells': Cells, rank: TypeId -> nat, id: TypeId, x: TypeId)
    requires Ranked(types, rank) && Owned(types) && AllLive(types, cells) && id in types && !Fundamental(id)
    requires x in types && IndexOk(types, rank, x) && !Under(types, rank, id, x)
    requires forall c :: c in cells ==> c in cells' && (Foreign(types[id].fields, c) ==> cells'[c] == cells[c])
    ensures Req(types[x].index, cells') == Req(types[x].index, cells)
  {
    var ix := types[x].index;
    forall k | k in ix.cells ensures Required(cells', ix.cells[k]) == Required(cells, ix.cells[k]) {
      var f := Field(k, ix.cells[k]);
      assert At(ix, f.name) == f.cell;
      var a := Owner(types, rank, x, f);
      assert Separate(types[id].fields, types[a].fields) && Live(types[a].fields, cells);
      assert Foreign(types[id].fields, f.cell);
    }
  }

  // ---------- adding and removing a leaf ----------

  /** `types'` has one more type, from which nothing derives. */
  ghost predicate Grown(types: Types, rank: TypeId -> nat, types': Types, rank': TypeId -> nat, id: TypeId) {
    && Ranked(types, rank) && Ranked(types', rank') && id !in types && id in types' && types' == types[id := types'[id]]
    && !Fundamental(id)
  }

  lemma {:induction false} OldVisible(types: Types, rank: TypeId -> nat, types': Types, rank': TypeId -> nat, id: TypeId, x: TypeId, f: Field)
    requires Grown(types, rank, types', rank', id) && x != id
    ensures Visible(types', rank', x, f) == Visible(types, rank, x, f)
    decreases Depth(types, rank, x)
  {
    if x in types {
      assert ParentOk(types, rank, x) && ParentOk(types', rank', x);
      OldVisible(types, rank, types', rank', id, types[x].parent, f);
    }
  }

  lemma {:induction false} OldDescends(types: Types, rank: TypeId -> nat, types': Types, rank': TypeId -> nat, id: TypeId, a: TypeId, x: TypeId)
    requires Grown(types, rank, types', rank', id) && x != id
    ensures Descends(types', rank', a, x) == Descends(types, rank, a, x)
    ensures Descends(types, rank, a, x) ==> a != id && a in types
    decreases Depth(types, rank, x)
  {
    if x in types {
      assert ParentOk(types, rank, x) && ParentOk(types', rank', x);
      OldDescends(types, rank, types', rank', id, a, types[x].parent);
    }
  }

  lemma {:induction false} ReqNewCells(ix: Index, cells: Cells, cells': Cells)
    requires (forall c :: c in cells ==> c in cells' && cells'[c] == cells[c]) && forall k :: k in ix.cells ==> ix.cells[k] in cells
    ensures Req(ix, cells') == Req(ix, cells)
  {
  }

  lemma {:induction false} IndexLive(types: Types, cells: Cells, rank: TypeId -> nat, x: TypeId)
    requires Good(types, cells, rank) && x in types
    ensures forall k :: k in types[x].index.cells ==> types[x].index.cells[k] in cells
  {
    hide Owned, Apart, AllCounted, BasesOk;
    var ix := types[x].index;
    assert IndexOk(types, rank, x);
    forall k | k in ix.cells ensures ix.cells[k] in cells {
      var f := Field(k, ix.cells[k]);
      assert At(ix, f.name) == f.cell;
      var a := Owner(types, rank, x, f);
      assert Live(types[a].fields, cells);
    }
  }

  lemma {:induction false} GrownIndexed(types: Types, rank: TypeId -> nat, types': Types, rank': TypeId -> nat, id: TypeId)
    requires Grown(types, rank, types', rank', id) && AllIndexed(types, rank)
    requires forall f: Field :: At(types'[id].index, f.name) == f.cell <==> f in types'[id].fields || Visible(types, rank, types'[id].parent, f)
    ensures AllIndexed(types', rank')
  {
    forall x | x in types' ensures IndexOk(types', rank', x) {
      if x == id {
        assert ParentOk(types', rank', id);
        forall f: Field ensures Visible(types', rank', id, f) <==> At(types'[id].index, f.name) == f.cell {
          OldVisible(types, rank, types', rank', id, types'[id].parent, f);
        }
      } else {
        assert IndexOk(types, rank, x);
        forall f: Field ensures Visible(types', rank', x, f) <==> At(types'[x].index, f.name) == f.cell {
          OldVisible(types, rank, types', rank', id, x, f);
        }
      }
    }
  }

  lemma {:induction false} GrownApart(types: Types, rank: TypeId -> nat, types': Types, rank': TypeId -> nat, id: TypeId)
    requires Grown(types, rank, types', rank', id) && Apart(types, rank) && DistinctNames(types'[id].fields)
    requires forall a :: a in Chain(types, rank, types'[id].parent) ==> a in types && NoCommon(types[a].fields, types'[id].fields)
    ensures Apart(types', rank')
  {
    forall a, b | a in types' && Descends(types', rank', a, b) ensures NoCommon(types'[a].fields, types'[b].fields) {
      if b == id {
        var p := types'[id].parent;
        assert ParentOk(types', rank', id);
        ChainLive(types, rank, p);
        OldDescends(types, rank, types', rank', id, a, p);
        assert a in Chain(types, rank, p);
      } else {
        OldDescends(types, rank, types', rank', id, a, b);
      }
    }
  }

  lemma {:induction false} GrownGood(types: Types, cells: Cells, rank: TypeId -> nat, types': Types, cells': Cells, rank': TypeId -> nat, id: TypeId, next: nat)
    requires Good(types, cells, rank) && Grown(types, rank, types', rank', id) && AllBelow(types, cells, next)
    requires forall c :: c in cells ==> c in cells' && cells'[c] == cells[c]
    requires DistinctNames(types'[id].fields) && OwnCells(types'[id].fields)
    requires forall f: Field :: f in types'[id].fields ==> next <= f.cell && f.cell in cells'
    requires forall a :: a in Chain(types, rank, types'[id].parent) ==> a in types && NoCommon(types[a].fields, types'[id].fields)
    requires forall f: Field :: At(types'[id].index, f.name) == f.cell <==> f in types'[id].fields || Visible(types, rank, types'[id].parent, f)
    requires types'[id].count == |Req(types'[id].index, cells')| - 2
    ensures Good(types', cells', rank')
  {
    GrownIndexed(types, rank, types', rank', id);
    GrownApart(types, rank, types', rank', id);
    assert Owned(types') && AllLive(types', cells') && BasesOk(types', cells') by {
      hide Apart, AllIndexed, AllCounted;
      GrownOwned(types, cells, types', cells', id, next);
    }
    assert AllCounted(types', cells') by {
      forall x | x in types' ensures CountOk(types', cells', x) {
        if x != id {
          hide Owned, Apart, BasesOk;
          assert CountOk(types, cells, x);
          IndexLive(types, cells, rank, x);
          ReqNewCells(types[x].index, cells, cells');
        }
      }
    }
  }

  lemma {:induction false} GrownOwned(types: Types, cells: Cells, types': Types, cells': Cells, id: TypeId, next: nat)
    requires id !in types && id in types' && types' == types[id := types'[id]] && !Fundamental(id)
    requires Owned(types) && AllLive(types, cells) && BasesOk(types, cells) && forall c :: c in cells ==> c < next
    requires forall c :: c in cells ==> c in cells' && cells'[c] == cells[c]
    requires OwnCells(types'[id].fields) && forall f: Field :: f in types'[id].fields ==> next <= f.cell && f.cell in cells'
    ensures Owned(types') && AllLive(types', cells') && BasesOk(types', cells')
  {
    forall x | x in types ensures Live(types[x].fields, cells') && Separate(types'[id].fields, types[x].fields) && Separate(types[x].fields, types'[id].fields) {
      assert Live(types[x].fields, cells);
    }
    forall x | x in types' && Fundamental(x) ensures BaseOk(types'[x].fields, cells') {
      assert BaseOk(types[x].fields, cells) && Live(types[x].fields, cells);
    }
    forall a, b | a in types' && b in types' && !Fundamental(a) && a != b ensures Separate(types'[a].fields, types'[b].fields) {}
  }

  lemma {:induction false} LessRanked(types: Types, rank: TypeId -> nat, id: TypeId)
    requires Ranked(types, rank) && id in types && !Fundamental(id) && forall x :: x in types ==> types[x].parent != id
    ensures Ranked(types - {id}, rank) && Grown(types - {id}, rank, types, rank, id)
  {
    var less := types - {id};
    forall x | x in less ensures ParentOk(less, rank, x) { assert ParentOk(types, rank, x); }
    assert types == less[id := types[id]];
  }

  lemma {:induction false} LessIndexed(types: Types, rank: TypeId -> nat, id: TypeId)
    requires Ranked(types, rank) && Ranked(types - {id}, rank) && Grown(types - {id}, rank, types, rank, id)
    requires AllIndexed(types, rank)
    ensures AllIndexed(types - {id}, rank)
  {
    hide Ranked;
    var less := types - {id};
    forall x | x in less ensures IndexOk(less, rank, x) {
      assert IndexOk(types, rank, x);
      forall f: Field ensures Visible(less, rank, x, f) <==> At(less[x].index, f.name) == f.cell {
        OldVisible(less, rank, types, rank, id, x, f);
      }
    }
  }

  lemma {:induction false} LessApart(types: Types, rank: TypeId -> nat, id: TypeId)
    requires Ranked(types, rank) && Ranked(types - {id}, rank) && Grown(types - {id}, rank, types, rank, id)
    requires Apart(types, rank)
    ensures Apart(types - {id}, rank)
  {
    hide Ranked, NoCommon, DistinctNames;
    var less := types - {id};
    forall a, b | a in less && Descends(less, rank, a, b) ensures NoCommon(less[a].fields, less[b].fields) {
      if b != id { OldDescends(less, rank, types, rank, id, a, b); }
    }
  }

  lemma LessRest(types: Types, cells: Cells, id: TypeId)
    requires Owned(types) && AllLive(types, cells) && BasesOk(types, cells) && AllCounted(types, cells)
    ensures var less := types - {id}; Owned(less) && AllLive(less, cells) && BasesOk(less, cells) && AllCounted(less, cells)
  {
    hide Live, BaseOk, Separate, OwnCells, Req;
    var less := types - {id};
    forall x | x in less ensures CountOk(less, cells, x) { assert CountOk(types, cells, x); }
  }

  /** Removing a type from which nothing derives. */
  lemma {:induction false} LeafGood(types: Types, cells: Cells, rank: TypeId -> nat, id: TypeId)
    requires Good(types, cells, rank) && id in types && !Fundamental(id) && forall x :: x in types ==> types[x].parent != id
    ensures Good(types - {id}, cells, rank)
  {
    hide Ranked, Owned, AllLive, BasesOk, Apart, AllIndexed, AllCounted, Grown;
    LessRanked(types, rank, id);
    LessIndexed(types, rank, id);
    LessApart(types, rank, id);
    LessRest(types, cells, id);
  }

  // ---------- one edit, all types ----------

  /** The index after an edit of fields that it saw. */
  ghost predicate Follows(ix: Index, ix': Index, fields: seq<Field>, fields': seq<Field>) {
    forall f: Field :: At(ix', f.name) == f.cell <==> f in fields' || (At(ix, f.name) == f.cell && f !in fields)
  }

  /** All types after an edit of one: its descendants follow and are counted afresh. */
  ghost predicate Edited(types: Types, types': Types, cells': Cells, rank: TypeId -> nat, id: TypeId, fields: seq<Field>)
    requires Ranked(types, rank)
  {
    && Relisted(types, types', id, fields)
    && (forall x :: x in types && Under(types, rank, id, x) ==>
          Follows(types[x].index, types'[x].index, types[id].fields, fields) && types'[x].count == |Req(types'[x].index, cells')| - 2)
    && (forall x :: x in types && !Under(types, rank, id, x) ==> types'[x] == types[x])
  }

  lemma {:induction false} EditIndexed(types: Types, types': Types, cells': Cells, rank: TypeId -> nat, id: TypeId, fields: seq<Field>, x: TypeId)
    requires Ranked(types, rank) && Ranked(types', rank) && Apart(types, rank) && Edited(types, types', cells', rank, id, fields)
    requires x in types && IndexOk(types, rank, x)
    ensures IndexOk(types', rank, x)
  {
    if Under(types, rank, id, x) { assert Follows(types[x].index, types'[x].index, types[id].fields, fields); }
    hide Req, Apart;
    forall f: Field ensures Visible(types', rank, x, f) <==> At(types'[x].index, f.name) == f.cell {
      VisibleAfter(types, types', rank, id, fields, x, f);
    }
  }

  lemma {:induction false} EditCounted(types: Types, types': Types, cells: Cells, cells': Cells, rank: TypeId -> nat, id: TypeId, fields: seq<Field>, x: TypeId)
    requires Good(types, cells, rank) && Edited(types, types', cells', rank, id, fields) && !Fundamental(id) && x in types
    requires forall c :: c in cells ==> c in cells' && (Foreign(types[id].fields, c) ==> cells'[c] == cells[c])
    ensures CountOk(types', cells', x)
  {
    GoodAt(types, cells, rank, x);
    if Under(types, rank, id, x) {
      if x != id { DescendsRank(types, rank, id, x); }
    } else {
      hide Apart, AllIndexed, AllCounted, BasesOk;
      ReqElsewhere(types, cells, cells', rank, id, x);
    }
  }

  lemma {:induction false} EditGood(types: Types, types': Types, cells: Cells, cells': Cells, rank: TypeId -> nat, id: TypeId, fields: seq<Field>, specs: seq<Spec>, next: nat)
    requires Good(types, cells, rank) && AllBelow(types, cells, next) && id in types && !Fundamental(id)
    requires EditedFields(types[id].fields, fields, specs, cells, cells', next) && FreeNames(types, rank, id, fields)
    requires Edited(types, types', cells', rank, id, fields)
    ensures Good(types', cells', rank)
  {
    SameLinks(types, types', rank, id, fields);
    ApartAfter(types, types', rank, id, fields);
    OwnedAfter(types, types', cells, rank, id, fields, next);
    LiveAfter(types, types', cells, cells', id, fields);
    BasesAfter(types, types', cells, cells', id, fields);
    forall x | x in types' ensures IndexOk(types', rank, x) && CountOk(types', cells', x) {
      EditCounted(types, types', cells, cells', rank, id, fields, x);
      assert IndexOk(types, rank, x);
      EditIndexed(types, types', cells', rank, id, fields, x);
    }
  }

  // ---------- the manager ----------

  datatype Answer = Done | Exists | NotFound | Immutable | Duplicate | FieldExists | ChildExists

  /** Some type of the list has a field with a given name. */
  predicate Taken(types: Types, ids: seq<TypeId>, k: Name) { exists i :: 0 <= i < |ids| && ids[i] in types && Named(types[ids[i]].fields, k) }

  method IsFieldExists(types: Types, ids: seq<TypeId>, k: Name) returns (taken: bool)
    requires forall id :: id in ids ==> id in types
    ensures taken == Taken(types, ids, k)
  {
    var i := 0;
    while i < |ids|
      invariant 0 <= i <= |ids|
      invariant forall j :: 0 <= j < i ==> !Named(types[ids[j]].fields, k)
    {
      assert ids[i] in ids;
      var fields, j := types[ids[i]].fields, 0;
      while j < |fields|
        invariant 0 <= j <= |fields| && forall n :: 0 <= n < j ==> fields[n].name != k
      {
        if fields[j].name == k { assert fields[j] in fields; return true; }
        j := j + 1;
      }
      i := i + 1;
    }
    taken := false;
  }

  /** Whether any specified name is taken. */
  method AnyTaken(types: Types, ids: seq<TypeId>, specs: seq<Spec>) returns (taken: bool)
    requires forall id :: id in ids ==> id in types
    ensures taken == exists k :: Specified(specs, k) && Taken(types, ids, k)
  {
    var i := 0;
    while i < |specs|
      invariant 0 <= i <= |specs|
      invariant forall j :: 0 <= j < i ==> !Taken(types, ids, specs[j].name)
    {
      var t := IsFieldExists(types, ids, specs[i].name);
      if t {
        assert specs[i] in specs;
        assert Specified(specs, specs[i].name);
        return true;
      }
      i := i + 1;
    }
    taken := false;
  }

  // ---------- what an edit may rely on ----------

  lemma {:induction false} OwnsOf(types: Types, cells: Cells, rank: TypeId -> nat, id: TypeId)
    requires Good(types, cells, rank) && id in types && !Fundamental(id)
    ensures OwnsIn(types[id].index, types[id].fields)
  {
    GoodAt(types, cells, rank, id);
    var ix, fields := types[id].index, types[id].fields;
    forall f: Field | f in fields ensures At(ix, f.name) == f.cell { assert Visible(types, rank, id, f); }
    forall f: Field, k | f in fields && k in ix.cells && ix.cells[k] == f.cell ensures k == f.name {
      var g := Field(k, f.cell);
      assert At(ix, g.name) == g.cell;
      var a := Owner(types, rank, id, g);
      assert a == id || Separate(fields, types[a].fields);
    }
  }

  /** On one chain, types are comparable. */
  lemma {:induction false} Comparable(types: Types, rank: TypeId -> nat, id: TypeId, a: TypeId, x: TypeId)
    requires Ranked(types, rank) && Under(types, rank, id, x) && (a == x || Descends(types, rank, a, x))
    ensures a == id || Descends(types, rank, a, id) || Descends(types, rank, id, a)
    decreases Depth(types, rank, x)
  {
    if x != id && a != x {
      assert ParentOk(types, rank, x);
      Comparable(types, rank, id, a, types[x].parent);
    }
  }

  /** Names specified for `id` are free in its ancestors and descendants. */
  ghost predicate Untaken(types: Types, rank: TypeId -> nat, id: TypeId, specs: seq<Spec>)
    requires Ranked(types, rank)
  {
    forall a, k :: a in types && (Descends(types, rank, a, id) || Descends(types, rank, id, a)) && Specified(specs, k) ==> !Named(types[a].fields, k)
  }

  lemma {:induction false} SeenIsOwn(types: Types, cells: Cells, rank: TypeId -> nat, id: TypeId, specs: seq<Spec>, x: TypeId, k: Name)
    requires Good(types, cells, rank) && id in types && Untaken(types, rank, id, specs)
    requires x in types && Under(types, rank, id, x) && Specified(specs, k) && k in types[x].index.cells
    ensures Named(types[id].fields, k)
  {
    hide Owned, Apart, AllLive, AllCounted, BasesOk;
    assert IndexOk(types, rank, x);
    var f := Field(k, types[x].index.cells[k]);
    assert At(types[x].index, f.name) == f.cell;
    var a := Owner(types, rank, x, f);
    Comparable(types, rank, id, a, x);
    assert Named(types[a].fields, k);
  }

  lemma {:induction false} EditedFree(types: Types, rank: TypeId -> nat, id: TypeId, specs: seq<Spec>, fields: seq<Field>)
    requires Ranked(types, rank) && Untaken(types, rank, id, specs) && forall k :: Named(fields, k) ==> Specified(specs, k)
    ensures FreeNames(types, rank, id, fields)
  {
    forall a, f: Field, g: Field | a in types && (Descends(types, rank, a, id) || Descends(types, rank, id, a)) && f in types[a].fields && g in fields
      ensures f.name != g.name
    {
      assert Named(fields, g.name) && Named(types[a].fields, f.name);
    }
  }

  lemma {:induction false} OwnSeenBelow(types: Types, rank: TypeId -> nat, id: TypeId, x: TypeId, f: Field)
    requires Ranked(types, rank) && id in types && Under(types, rank, id, x) && Visible(types, rank, id, f)
    ensures Visible(types, rank, x, f)
    decreases Depth(types, rank, x)
  {
    if x != id {
      assert ParentOk(types, rank, x);
      OwnSeenBelow(types, rank, id, types[x].parent, f);
    }
  }

  /** What re-indexing a descendant gives. */
  lemma {:induction false} ChildFollows(ix: Index, owner: Index, owner': Index, ix': Index, fields: seq<Field>, fields': seq<Field>, specs: seq<Spec>, ins: seq<Name>, del: seq<Name>)
    requires DistinctNames(fields) && DistinctNames(fields')
    requires forall f: Field :: f in fields ==> At(ix, f.name) == f.cell && At(owner, f.name) == f.cell
    requires Follows(owner, owner', fields, fields')
    requires forall k :: Named(fields', k) <==> Specified(specs, k)
    requires forall f: Field :: f in fields && Specified(specs, f.name) ==> f in fields'
    requires forall k :: k in ins <==> Specified(specs, k) && !Named(fields, k)
    requires forall k :: k in del <==> Named(fields, k) && !Specified(specs, k)
    requires forall k :: k in ins ==> k !in ix.cells && k !in owner.cells
    requires forall k :: At(ix', k) == if k in del then -1 else if k in ins then At(owner', k) else At(ix, k)
    ensures Follows(ix, ix', fields, fields')
  {
    forall f: Field ensures At(ix', f.name) == f.cell <==> f in fields' || (At(ix, f.name) == f.cell && f !in fields) {
      if f in fields' { assert Named(fields', f.name); }
      if Named(fields, f.name) {
        var g: Field :| g in fields && g.name == f.name;
        assert At(ix, g.name) == g.cell;
        if g in fields' && f in fields' { OneOf(fields', f, g); }
      } else if f.name in ins {
        assert At(owner', f.name) == f.cell <==> f in fields' || (At(owner, f.name) == f.cell && f !in fields);
      }
    }
  }

  lemma OneOf(fields: seq<Field>, f: Field, g: Field)
    requires DistinctNames(fields) && f in fields && g in fields && f.name == g.name
    ensures f == g
  {
    var i :| 0 <= i < |fields| && fields[i] == f;
    var j :| 0 <= j < |fields| && fields[j] == g;
    if i < j { assert fields[i].name != fields[j].name; }
  }

  /** Re-indexed: names and count of one type. */
  ghost predicate Reindexed(t: EventType, t': EventType, owner: Index, ins: seq<Name>, del: seq<Name>, cells: Cells) {
    && t'.parent == t.parent && t'.fields == t.fields
    && (forall k :: At(t'.index, k) == if k in del then -1 else if k in ins then At(owner, k) else At(t.index, k))
    && t'.count == |Req(t'.index, cells)| - 2
  }

  method ReindexChildren(types: Types, cets: seq<TypeId>, owner: Index, ins: seq<Name>, del: seq<Name>, cells: Cells) returns (types': Types)
    requires NoDup(cets) && (forall x :: x in cets ==> x in types) && forall k :: k in ins ==> k in owner.cells
    ensures types'.Keys == types.Keys
    ensures forall x :: x in types ==> if x in cets then Reindexed(types[x], types'[x], owner, ins, del, cells) else types'[x] == types[x]
  {
    types' := types;
    var i := 0;
    while i < |cets|
      invariant 0 <= i <= |cets| && types'.Keys == types.Keys
      invariant forall x :: x in types ==> if x in cets[..i] then Reindexed(types[x], types'[x], owner, ins, del, cells) else types'[x] == types[x]
    {
      var x := cets[i];
      assert x in cets && x !in cets[..i];
      var ix, count := ReindexChild(types'[x].index, owner, ins, del, cells);
      types' := types'[x := types'[x].(index := ix, count := count)];
      assert Reindexed(types[x], types'[x], owner, ins, del, cells);
      assert cets[..i + 1] == cets[..i] + [x];
      i := i + 1;
    }
    assert cets[..i] == cets;
  }

  method UpdateType(types: Types, cells: Cells, next: nat, id: TypeId, specs: seq<Spec>, cets: seq<TypeId>, ghost rank: TypeId -> nat)
    returns (types': Types, cells': Cells, next': nat)
    requires Good(types, cells, rank) && AllBelow(types, cells, next) && id in types && !Fundamental(id) && Untaken(types, rank, id, specs)
    requires NoDup(cets) && forall x :: x in cets <==> Descends(types, rank, id, x)
    ensures Good(types', cells', rank) && AllBelow(types', cells', next') && id in types'
    ensures Relisted(types, types', id, types'[id].fields) && EditedFields(types[id].fields, types'[id].fields, specs, cells, cells', next)
    ensures forall x :: x in types && !Under(types, rank, id, x) ==> types'[x] == types[x]
  {
    var et := types[id];
    OwnsOf(types, cells, rank, id);
    GoodAt(types, cells, rank, id);
    forall k | Specified(specs, k) && k in et.index.cells ensures Named(et.fields, k) { SeenIsOwn(types, cells, rank, id, specs, id, k); }
    hide Good, Req;
    var fields', ix', count', ins, del;
    fields', ix', count', cells', next', ins, del := EditFields(et.fields, et.index, et.count, specs, cells, next);
    forall k | k in ins ensures k in ix'.cells { InsertedSeen(et.index, ix', et.fields, fields', specs, k); }
    var edited := types[id := EventType(et.parent, fields', ix', count')];
    assert id !in cets by { if Descends(types, rank, id, id) { DescendsRank(types, rank, id, id); } }
    types' := ReindexChildren(edited, cets, ix', ins, del, cells');
    EditedAll(types, cells, types', cells', rank, id, specs, cets, fields', ix', ins, del);
    hide EditedFields;
    assert types'[id].fields == fields';
    assert FreeNames(types, rank, id, fields') by { EditedHas(et.fields, fields', specs, cells, cells', next); EditedFree(types, rank, id, specs, fields'); }
    EditGood(types, types', cells, cells', rank, id, fields', specs, next);
    BelowAfter(types', cells', rank, next');
  }

  lemma EditedHas(fields: seq<Field>, fields': seq<Field>, specs: seq<Spec>, cells: Cells, cells': Cells, next: nat)
    requires EditedFields(fields, fields', specs, cells, cells', next)
    ensures forall k :: Named(fields', k) <==> Specified(specs, k)
  {
  }

  /** Re-indexing the descendants completes the edit. */
  lemma {:induction false} EditedAll(types: Types, cells: Cells, types': Types, cells': Cells, rank: TypeId -> nat, id: TypeId, specs: seq<Spec>,
                                     cets: seq<TypeId>, fields': seq<Field>, owner': Index, ins: seq<Name>, del: seq<Name>)
    requires Good(types, cells, rank) && id in types && !Fundamental(id) && Untaken(types, rank, id, specs)
    requires id !in cets && forall x :: x in cets <==> Descends(types, rank, id, x)
    requires DistinctNames(fields') && (forall k :: Named(fields', k) <==> Specified(specs, k))
    requires forall f: Field :: f in types[id].fields && Specified(specs, f.name) ==> f in fields'
    requires forall k :: k in ins <==> Specified(specs, k) && !Named(types[id].fields, k)
    requires forall k :: k in del <==> Named(types[id].fields, k) && !Specified(specs, k)
    requires types'.Keys == types.Keys && types'[id].parent == types[id].parent && types'[id].fields == fields' && types'[id].index == owner'
    requires Follows(types[id].index, owner', types[id].fields, fields') && types'[id].count == |Req(owner', cells')| - 2
    requires forall x :: x in types && x != id ==> if x in cets then Reindexed(types[x], types'[x], owner', ins, del, cells') else types'[x] == types[x]
    ensures Edited(types, types', cells', rank, id, fields')
  {
    hide Good, Req, Follows, OwnCells, Live, IndexOk, CountOk, Untaken;
    GoodAt(types, cells, rank, id);
    forall x | x in types && Descends(types, rank, id, x)
      ensures Follows(types[x].index, types'[x].index, types[id].fields, fields') && types'[x].count == |Req(types'[x].index, cells')| - 2
    {
      assert x in cets && x != id;
      assert Reindexed(types[x], types'[x], owner', ins, del, cells');
      ChildReady(types, cells, rank, id, specs, x, ins);
      ChildFollows(types[x].index, types[id].index, owner', types'[x].index, types[id].fields, fields', specs, ins, del);
    }
  }

  lemma {:induction false} InsertedSeen(ix: Index, ix': Index, fields: seq<Field>, fields': seq<Field>, specs: seq<Spec>, k: Name)
    requires Follows(ix, ix', fields, fields') && Specified(specs, k) && forall n :: Named(fields', n) <==> Specified(specs, n)
    ensures k in ix'.cells
  {
    var f: Field :| f in fields' && f.name == k;
    assert At(ix', f.name) == f.cell;
  }

  lemma {:induction false} ChildReady(types: Types, cells: Cells, rank: TypeId -> nat, id: TypeId, specs: seq<Spec>, x: TypeId, ins: seq<Name>)
    requires Good(types, cells, rank) && id in types && Untaken(types, rank, id, specs) && Descends(types, rank, id, x)
    requires forall k :: k in ins <==> Specified(specs, k) && !Named(types[id].fields, k)
    ensures forall f: Field :: f in types[id].fields ==> At(types[x].index, f.name) == f.cell && At(types[id].index, f.name) == f.cell
    ensures forall k :: k in ins ==> k !in types[x].index.cells && k !in types[id].index.cells
  {
    GoodAt(types, cells, rank, x);
    GoodAt(types, cells, rank, id);
    forall f: Field | f in types[id].fields ensures At(types[x].index, f.name) == f.cell && At(types[id].index, f.name) == f.cell {
      OwnSeenBelow(types, rank, id, x, f);
    }
    forall k | k in ins ensures k !in types[x].index.cells && k !in types[id].index.cells {
      if k in types[x].index.cells { SeenIsOwn(types, cells, rank, id, specs, x, k); }
      if k in types[id].index.cells { SeenIsOwn(types, cells, rank, id, specs, id, k); }
    }
  }

  lemma {:induction false} BelowAfter(types: Types, cells: Cells, rank: TypeId -> nat, next: nat)
    requires Good(types, cells, rank) && forall c :: c in cells ==> c < next
    ensures AllBelow(types, cells, next)
  {
    forall x | x in types ensures Below(types[x].index, cells, next) { IndexLive(types, cells, rank, x); }
  }

  // ---------- requests ----------

  lemma {:induction false} NotTakenOnChain(types: Types, rank: TypeId -> nat, parent: TypeId, specs: seq<Spec>, fields: seq<Field>)
    requires Ranked(types, rank) && forall k :: Specified(specs, k) ==> !Taken(types, Chain(types, rank, parent), k)
    requires forall k :: Named(fields, k) ==> Specified(specs, k)
    ensures forall a :: a in Chain(types, rank, parent) ==> a in types && NoCommon(types[a].fields, fields)
  {
    ChainLive(types, rank, parent);
    var c := Chain(types, rank, parent);
    forall a, f: Field, g: Field | a in c && f in types[a].fields && g in fields ensures f.name != g.name {
      var i :| 0 <= i < |c| && c[i] == a;
      assert Named(fields, g.name) && Named(types[a].fields, f.name);
      assert !Taken(types, c, g.name);
    }
  }

  lemma {:induction false} NotTakenAround(types: Types, rank: TypeId -> nat, id: TypeId, specs: seq<Spec>, cets: seq<TypeId>)
    requires Ranked(types, rank) && id in types
    requires forall x :: x in cets <==> Descends(types, rank, id, x)
    ensures Untaken(types, rank, id, specs)
            <==> forall k :: Specified(specs, k) ==> !Taken(types, Chain(types, rank, types[id].parent), k) && !Taken(types, cets, k)
  {
    assert ParentOk(types, rank, id);
    var c := Chain(types, rank, types[id].parent);
    ChainLive(types, rank, types[id].parent);
    forall a ensures a in c <==> a in types && Descends(types, rank, a, id) {}
    if Untaken(types, rank, id, specs) {
      forall k | Specified(specs, k) ensures !Taken(types, c, k) && !Taken(types, cets, k) {
        assert forall i :: 0 <= i < |c| ==> c[i] in c;
        assert forall i :: 0 <= i < |cets| ==> cets[i] in cets;
      }
    }
    if forall k :: Specified(specs, k) ==> !Taken(types, c, k) && !Taken(types, cets, k) {
      forall a, k | a in types && (Descends(types, rank, a, id) || Descends(types, rank, id, a)) && Specified(specs, k) ensures !Named(types[a].fields, k) {
        assert !Taken(types, c, k) && !Taken(types, cets, k);
        if a in c { var i :| 0 <= i < |c| && c[i] == a; } else { var i :| 0 <= i < |cets| && cets[i] == a; }
      }
    }
  }

  /** All specified fields are new to the type's ancestors. */
  ghost predicate Creatable(types: Types, rank: TypeId -> nat, parent: TypeId, specs: seq<Spec>)
    requires Ranked(types, rank)
  {
    forall k :: Specified(specs, k) ==> !Taken(types, Chain(types, rank, parent), k)
  }

  predicate SpecsDistinct(specs: seq<Spec>) { forall i, j :: 0 <= i < j < |specs| ==> specs[i].name != specs[j].name }

  /** Every type after a reload: the index is rebuilt from the field lists; the count of a type without
      ancestors includes the two fields of the base event. */
  ghost predicate Reloaded(types: Types, types': Types) {
    && types'.Keys == types.Keys
    && forall x :: x in types ==> types'[x].parent == types[x].parent && types'[x].fields == types[x].fields
  }

  lemma {:induction false} SameVisible(types: Types, types': Types, rank: TypeId -> nat, x: TypeId, f: Field)
    requires Ranked(types, rank) && Ranked(types', rank) && Reloaded(types, types')
    ensures Visible(types', rank, x, f) == Visible(types, rank, x, f)
    decreases Depth(types, rank, x)
  {
    if x in types {
      assert ParentOk(types, rank, x) && ParentOk(types', rank, x);
      SameVisible(types, types', rank, types[x].parent, f);
    }
  }

  lemma {:induction false} ReloadGood(types: Types, types': Types, cells: Cells, rank: TypeId -> nat)
    requires Good(types, cells, rank) && Reloaded(types, types')
    requires forall x :: x in types ==> BuiltFor(types, types'[x], cells, rank, x)
    ensures Good(types', cells, rank)
  {
    assert Relisted(types, types', BaseEvent, types[BaseEvent].fields);
    SameLinks(types, types', rank, BaseEvent, types[BaseEvent].fields);
    assert Apart(types', rank) by {
      forall a, b | a in types' && Descends(types', rank, a, b) ensures NoCommon(types'[a].fields, types'[b].fields) {
        SameDescent(types, types', rank, BaseEvent, types[BaseEvent].fields, a, b);
      }
    }
    assert AllIndexed(types', rank) && AllCounted(types', cells) by {
      hide Owned, AllLive, BasesOk, AllCounted, Req;
      forall x | x in types' ensures IndexOk(types', rank, x) && CountOk(types', cells, x) {
        assert BuiltFor(types, types'[x], cells, rank, x);
        forall f: Field ensures Visible(types', rank, x, f) <==> At(types'[x].index, f.name) == f.cell {
          SameVisible(types, types', rank, x, f);
        }
      }
    }
    assert Owned(types') && AllLive(types', cells) && BasesOk(types', cells) by { hide Apart, AllIndexed, AllCounted, Ranked; }
  }

  ghost predicate BuiltFor(types: Types, t: EventType, cells: Cells, rank: TypeId -> nat, x: TypeId)
    requires Ranked(types, rank)
  {
    && (forall f: Field :: At(t.index, f.name) == f.cell <==> Visible(types, rank, x, f))
    && t.count == |Req(t.index, cells)| - if Fundamental(x) then 0 else 2
  }

  method ReloadType(types: Types, cells: Cells, x: TypeId, ghost rank: TypeId -> nat) returns (t: EventType)
    requires Good(types, cells, rank) && x in types
    ensures t.parent == types[x].parent && t.fields == types[x].fields && BuiltFor(types, t, cells, rank, x)
  {
    GoodAt(types, cells, rank, x);
    var parents := GenerateInheritanceChain(types, types[x].parent, rank);
    ChainLive(types, rank, types[x].parent);
    forall a | a in parents ensures a in types && NoCommon(types[a].fields, types[x].fields) { assert Descends(types, rank, a, x); }
    assert Fundamental(x) <==> parents == [] by { ChainLast(types, rank, types[x].parent); }
    GoodRanked(types, cells, rank);
    hide Good;
    var ix, count := BuildIndex(types, cells, types[x].fields, parents, rank, types[x].parent);
    t := EventType(types[x].parent, types[x].fields, ix, count);
  }

  method ReloadTypes(types: Types, cells: Cells, ghost rank: TypeId -> nat) returns (types': Types)
    requires Good(types, cells, rank) && Ranked(types, rank)
    ensures Reloaded(types, types') && forall x :: x in types ==> BuiltFor(types, types'[x], cells, rank, x)
  {
    hide Good, BuiltFor, Ranked;
    types' := types;
    var todo := types.Keys;
    while todo != {}
      invariant todo <= types.Keys && Reloaded(types, types')
      invariant forall x :: x in types && x !in todo ==> BuiltFor(types, types'[x], cells, rank, x)
      decreases |todo|
    {
      var x :| x in todo;
      var t := ReloadType(types, cells, x, rank);
      types' := types'[x := t];
      todo := todo - {x};
    }
  }

  method ReloadAll(types: Types, cells: Cells, ghost rank: TypeId -> nat) returns (types': Types)
    requires Good(types, cells, rank) && Ranked(types, rank)
    ensures Good(types', cells, rank) && Reloaded(types, types') && BaseEvent in types'
    ensures types'[BaseEvent].count == 2
  {
    hide Good, BuiltFor;
    types' := ReloadTypes(types, cells, rank);
    ReloadGood(types, types', cells, rank);
    BaseCounts(types, types', cells, rank);
  }

  lemma {:induction false} BaseCounts(types: Types, types': Types, cells: Cells, rank: TypeId -> nat)
    requires Good(types', cells, rank) && Ranked(types, rank) && BaseEvent in types' && BuiltFor(types, types'[BaseEvent], cells, rank, BaseEvent)
    ensures types'[BaseEvent].count == 2
  {
    hide Good;
    BaseRequired(types', cells, rank, BaseEvent);
    var r := Req(types'[BaseEvent].index, cells);
    forall k | k in r ensures OfBase(k) { BaseOnly(types', cells, rank, BaseEvent, k); }
    assert NotOfBase(r) == {};
  }

  // ---------- the initial types ----------

  function BaseFields(): seq<Field> {
    [Field(Id, 0), Field(TypeName, 1), Field(CorrelationId, 2), Field(Time, 3), Field(ThingId, 4), Field(ETag, 5)]
  }

  /** The standard event lists its own fields and the base event's, whose records it shares. */
  function StandardFields(): seq<Field> {
    OwnStandardFields() + BaseFields()
  }

  function InitialCells(): Cells {
    map[0 := false, 1 := false, 2 := false, 3 := true, 4 := true, 5 := false, 6 := false, 7 := false, 8 := false, 9 := false, 10 := false]
  }

  lemma BaseFieldsDistinct()
    ensures DistinctNames(BaseFields())
  {
  }

  lemma BaseFieldsNamed(k: Name)
    requires OfBase(k)
    ensures Named(BaseFields(), k)
  {
    var b := BaseFields();
    assert b[0] in b && b[1] in b && b[2] in b && b[3] in b && b[4] in b && b[5] in b;
  }

  lemma BaseFieldsOk()
    ensures DistinctNames(BaseFields()) && BaseOk(BaseFields(), InitialCells()) && Live(BaseFields(), InitialCells())
  {
    hide BaseFields, InitialCells, DistinctNames;
    BaseFieldsDistinct();
    forall k | OfBase(k) ensures Named(BaseFields(), k) { BaseFieldsNamed(k); }
    forall f: Field | f in BaseFields() ensures f.cell in InitialCells() && (Required(InitialCells(), f.cell) <==> f.name == Time || f.name == ThingId) {
      BaseCell(f);
    }
  }

  lemma BaseCell(f: Field)
    requires f in BaseFields()
    ensures f.cell in InitialCells() && (InitialCells()[f.cell] <==> f.name == Time || f.name == ThingId)
  {
  }

  function OwnStandardFields(): seq<Field> {
    [Field(Severity, 6), Field(Description, 7), Field(Code, 8), Field(Source, 9), Field(Acknowledged, 10)]
  }

  lemma OwnStandardFieldsOk()
    ensures DistinctNames(OwnStandardFields())
    ensures forall f: Field :: f in OwnStandardFields() ==> !OfBase(f.name) && f.cell in InitialCells() && !InitialCells()[f.cell]
  {
  }

  lemma StandardFieldsOk()
    ensures DistinctNames(StandardFields()) && BaseOk(StandardFields(), InitialCells()) && Live(StandardFields(), InitialCells())
  {
    hide BaseFields, OwnStandardFields, InitialCells;
    BaseFieldsOk();
    OwnStandardFieldsOk();
    var own, b, s := OwnStandardFields(), BaseFields(), StandardFields();
    forall f: Field | f in b ensures OfBase(f.name) { BaseNames(f); }
    DistinctJoin(own, b);
    forall k | OfBase(k) ensures Named(s, k) {
      assert Named(b, k);
      var f: Field :| f in b && f.name == k;
      assert f in s;
    }
    forall f: Field | f in s ensures f.cell in InitialCells() && (Required(InitialCells(), f.cell) <==> f.name == Time || f.name == ThingId) {
      assert f in own || f in b;
    }
  }

  lemma BaseNames(f: Field)
    requires f in BaseFields()
    ensures OfBase(f.name)
  {
  }

  lemma {:induction false} TwoRequired(ix: Index, fields: seq<Field>, cells: Cells)
    requires BaseOk(fields, cells) && forall f: Field :: At(ix, f.name) == f.cell <==> f in fields
    ensures |Req(ix, cells)| == 2
  {
    var r := Req(ix, cells);
    forall k ensures k in r <==> k == Time || k == ThingId {
      if k in ix.cells {
        var f := Field(k, ix.cells[k]);
        assert At(ix, f.name) == f.cell;
      }
      if k == Time || k == ThingId {
        assert OfBase(k);
        var f: Field :| f in fields && f.name == k;
        assert At(ix, f.name) == f.cell;
      }
    }
    assert r == {Time, ThingId};
  }

  lemma {:induction false} InitialGood(types: Types, cells: Cells, rank: TypeId -> nat)
    requires types.Keys == {BaseEvent, StandardEvent}
    requires forall x :: x in types ==> types[x].parent == NoType && types[x].count == 0
    requires forall x :: x in types ==> DistinctNames(types[x].fields) && BaseOk(types[x].fields, cells) && Live(types[x].fields, cells)
    requires forall x, f: Field :: x in types ==> (At(types[x].index, f.name) == f.cell <==> f in types[x].fields)
    ensures Good(types, cells, rank)
  {
    hide BaseOk, DistinctNames, Live;
    forall x | x in types ensures CountOk(types, cells, x) { TwoRequired(types[x].index, types[x].fields, cells); }
    hide CountOk;
    forall x | x in types ensures ParentOk(types, rank, x) {}
    forall x, f: Field | x in types ensures Visible(types, rank, x, f) == (f in types[x].fields) {
      assert !Visible(types, rank, NoType, f);
    }
    forall x | x in types ensures IndexOk(types, rank, x) {}
    forall a, b ensures !Descends(types, rank, a, b) {}
  }

  // ---------- the manager ----------

  // ---------- requirements as specified ----------

  /** The names that a list of specifications asks for. */
  ghost function Demanded(specs: seq<Spec>): set<Name> { set s | s in specs && Says(specs, s.name, true) :: s.name }

  /** The own fields of a type are as specified. */
  ghost predicate AsSpecified(t: EventType, cells: Cells, specs: seq<Spec>) {
    && (forall k :: Named(t.fields, k) <==> Specified(specs, k))
    && (forall f: Field :: f in t.fields ==> f.cell in cells && Says(specs, f.name, cells[f.cell]))
  }

  lemma DemandedIs(specs: seq<Spec>, k: Name)
    ensures k in Demanded(specs) <==> Says(specs, k, true)
  {
    if Says(specs, k, true) {
      var i :| LastFor(specs, i) && specs[i] == Spec(k, true);
      assert specs[i] in specs;
    }
  }

  /** No type lists a name of the base event again. */
  lemma {:induction false} OwnNotBase(types: Types, cells: Cells, rank: TypeId -> nat, id: TypeId, f: Field)
    requires Good(types, cells, rank) && id in types && !Fundamental(id) && f in types[id].fields
    ensures !OfBase(f.name)
  {
    hide Good, CountOk, IndexOk;
    GoodAt(types, cells, rank, id);
    if OfBase(f.name) {
      var top := TopOfChain(types, rank, id);
      GoodAt(types, cells, rank, top);
      var g: Field :| g in types[top].fields && g.name == f.name;
      OneCell(types, cells, rank, id, f, g);
      OwnedApart(types, cells, rank, id, top, f, g);
    }
  }

  lemma OneCell(types: Types, cells: Cells, rank: TypeId -> nat, id: TypeId, f: Field, g: Field)
    requires Good(types, cells, rank) && id in types && f.name == g.name
    requires Ranked(types, rank) && Visible(types, rank, id, f) && Visible(types, rank, id, g)
    ensures f.cell == g.cell
  {
    hide Good, CountOk, Visible;
    GoodAt(types, cells, rank, id);
    assert At(types[id].index, f.name) == f.cell;
  }

  lemma OwnedApart(types: Types, cells: Cells, rank: TypeId -> nat, a: TypeId, b: TypeId, f: Field, g: Field)
    requires Good(types, cells, rank) && a in types && b in types && !Fundamental(a) && a != b && f in types[a].fields && g in types[b].fields
    ensures f.cell != g.cell
  {
    hide Ranked, AllLive, BasesOk, Apart, AllIndexed, AllCounted;
    assert Separate(types[a].fields, types[b].fields);
  }

  /** What is required of an event is what the type's specifications ask for and what is required of its
      parent's events. */
  lemma {:induction false} RequiredAsSpecified(types: Types, cells: Cells, rank: TypeId -> nat, id: TypeId, specs: seq<Spec>)
    requires Good(types, cells, rank) && id in types && !Fundamental(id) && AsSpecified(types[id], cells, specs)
    ensures types[id].parent in types && OwnRequired(types[id], cells) == Demanded(specs) + OwnRequired(types[types[id].parent], cells)
  {
    hide Good, CountOk, IndexOk, BaseOk, Live, OwnCells, DistinctNames, Demanded, OwnRequired, Says;
    GoodAt(types, cells, rank, id);
    var p := types[id].parent;
    forall k ensures k in OwnRequired(types[id], cells) <==> k in Demanded(specs) || k in OwnRequired(types[p], cells) {
      OneRequirement(types, cells, rank, id, specs, k);
    }
  }

  lemma {:induction false} OneRequirement(types: Types, cells: Cells, rank: TypeId -> nat, id: TypeId, specs: seq<Spec>, k: Name)
    requires Good(types, cells, rank) && id in types && !Fundamental(id) && AsSpecified(types[id], cells, specs) && types[id].parent in types
    ensures k in OwnRequired(types[id], cells) <==> k in Demanded(specs) || k in OwnRequired(types[types[id].parent], cells)
  {
    hide Good, CountOk, IndexOk, BaseOk, Live, OwnCells, DistinctNames, Demanded, OwnRequired, Says;
    GoodAt(types, cells, rank, id);
    var p := types[id].parent;
    RequiredIsVisible(types, cells, rank, id, k);
    RequiredIsVisible(types, cells, rank, p, k);
    DemandedIs(specs, k);
    if k in OwnRequired(types[id], cells) {
      var f: Field :| Visible(types, rank, id, f) && f.name == k && Required(cells, f.cell);
      assert f in types[id].fields || Visible(types, rank, p, f);
    }
    if k in Demanded(specs) {
      SaysSpecified(specs, k, true);
      var f: Field :| f in types[id].fields && f.name == k;
      SaysOne(specs, k, true, cells[f.cell]);
      OwnNotBase(types, cells, rank, id, f);
      assert Visible(types, rank, id, f);
    }
    if k in OwnRequired(types[p], cells) {
      var f: Field :| Visible(types, rank, p, f) && f.name == k && Required(cells, f.cell);
      assert Visible(types, rank, id, f);
    }
  }

  lemma SaysSpecified(specs: seq<Spec>, k: Name, r: bool)
    requires Says(specs, k, r)
    ensures Specified(specs, k)
  {
    var i :| LastFor(specs, i) && specs[i] == Spec(k, r);
    assert specs[i] in specs;
  }

  lemma DemandedDistinct(specs: seq<Spec>)
    requires SpecsDistinct(specs)
    ensures Demanded(specs) == set s | s in specs && s.required :: s.name
  {
    hide SpecsDistinct, Says;
    forall s | s in specs ensures Says(specs, s.name, true) <==> Spec(s.name, true) in specs { SaysDistinct(specs, s.name, true); }
    forall s | s in specs && s.required ensures Spec(s.name, true) in specs { assert s == Spec(s.name, true); }
  }

  /** The specifications last given for every custom type. */
  type Given = map<TypeId, seq<Spec>>

  ghost predicate AllAsSpecified(types: Types, cells: Cells, given: Given) {
    && (forall x :: x in given <==> x in types && !Fundamental(x))
    && (forall x :: x in given ==> AsSpecified(types[x], cells, given[x]))
  }

  /** What the specifications of a type and its ancestors ask for together. */
  ghost function DemandedOnChain(types: Types, rank: TypeId -> nat, given: Given, id: TypeId): set<Name>
    requires Ranked(types, rank)
    decreases Depth(types, rank, id)
  {
    if id !in given || id !in types || Fundamental(id) then {}
    else assert ParentOk(types, rank, id); Demanded(given[id]) + DemandedOnChain(types, rank, given, types[id].parent)
  }

  lemma {:induction false} RequiredOnChain(types: Types, cells: Cells, rank: TypeId -> nat, given: Given, id: TypeId)
    requires Good(types, cells, rank) && AllAsSpecified(types, cells, given) && id in types
    ensures Ranked(types, rank) && OwnRequired(types[id], cells) == DemandedOnChain(types, rank, given, id)
    decreases Depth(types, rank, id)
  {
    hide Good, CountOk, IndexOk, BaseOk, Live, OwnCells, DistinctNames, Demanded, AsSpecified;
    GoodRanked(types, cells, rank);
    GoodAt(types, cells, rank, id);
    if Fundamental(id) {
      forall k | k in Req(types[id].index, cells) ensures OfBase(k) { BaseOnly(types, cells, rank, id, k); }
      assert OwnRequired(types[id], cells) == {};
    } else {
      assert ParentOk(types, rank, id);
      RequiredAsSpecified(types, cells, rank, id, given[id]);
      RequiredOnChain(types, cells, rank, given, types[id].parent);
    }
  }

  lemma {:induction false} CreatedAsSpecified(types: Types, cells: Cells, given: Given, id: TypeId, t: EventType, specs: seq<Spec>, cells': Cells, next: nat)
    requires AllAsSpecified(types, cells, given) && id !in types && !Fundamental(id) && EditedFields([], t.fields, specs, cells, cells', next)
    ensures AllAsSpecified(types[id := t], cells', given[id := specs])
  {
    hide Says, Specified;
    forall c | c in cells ensures c in cells' && cells'[c] == cells[c] { assert Foreign([], c); }
  }

  lemma {:induction false} UpdatedAsSpecified(types: Types, cells: Cells, rank: TypeId -> nat, given: Given, types': Types, id: TypeId, specs: seq<Spec>, cells': Cells, next: nat)
    requires Good(types, cells, rank) && AllAsSpecified(types, cells, given) && id in types && id in types' && !Fundamental(id)
    requires Relisted(types, types', id, types'[id].fields) && EditedFields(types[id].fields, types'[id].fields, specs, cells, cells', next)
    ensures AllAsSpecified(types', cells', given[id := specs])
  {
    hide Good, Says, Specified, EditedFields;
    forall x | x in given && x != id ensures AsSpecified(types'[x], cells', given[x]) {
      forall f: Field | f in types[x].fields ensures f.cell in cells' && cells'[f.cell] == cells[f.cell] {
        assert AsSpecified(types[x], cells, given[x]);
        forall g: Field | g in types[id].fields ensures g.cell != f.cell { OwnedApart(types, cells, rank, id, x, g, f); }
        EditedElsewhere(types[id].fields, types'[id].fields, specs, cells, cells', next, f.cell);
      }
    }
    EditedOwn(types[id].fields, types'[id], specs, cells, cells', next);
  }

  lemma ReloadedAsSpecified(types: Types, cells: Cells, given: Given)
    ensures forall types': Types :: Reloaded(types, types') && AllAsSpecified(types, cells, given) ==> AllAsSpecified(types', cells, given)
  {
    hide Says, Specified;
    forall types': Types | Reloaded(types, types') && AllAsSpecified(types, cells, given) ensures AllAsSpecified(types', cells, given) {
      forall x | x in given ensures AsSpecified(types'[x], cells, given[x]) { assert AsSpecified(types[x], cells, given[x]); }
    }
  }

  lemma EditedElsewhere(fields: seq<Field>, fields': seq<Field>, specs: seq<Spec>, cells: Cells, cells': Cells, next: nat, c: nat)
    requires EditedFields(fields, fields', specs, cells, cells', next) && c in cells && Foreign(fields, c)
    ensures c in cells' && cells'[c] == cells[c]
  {
    hide Says, Specified;
  }

  lemma EditedOwn(fields: seq<Field>, t: EventType, specs: seq<Spec>, cells: Cells, cells': Cells, next: nat)
    requires EditedFields(fields, t.fields, specs, cells, cells', next)
    ensures AsSpecified(t, cells', specs)
  {
    hide Says, Specified;
  }

  /** Whether an ancestor or a descendant has one of the names, and the descendants. */
  method CheckTaken(types: Types, id: TypeId, specs: seq<Spec>, ghost rank: TypeId -> nat) returns (taken: bool, cets: seq<TypeId>)
    requires Ranked(types, rank) && id in types && !Fundamental(id)
    ensures taken <==> !Untaken(types, rank, id, specs)
    ensures NoDup(cets) && forall x :: x in cets <==> Descends(types, rank, id, x)
  {
    assert ParentOk(types, rank, id);
    var parents := GenerateInheritanceChain(types, types[id].parent, rank);
    ChainLive(types, rank, types[id].parent);
    cets := DescendantTypes(types, id, rank);
    NotTakenAround(types, rank, id, specs, cets);
    var above := AnyTaken(types, parents, specs);
    var below := AnyTaken(types, cets, specs);
    taken := above || below;
  }

  /** Whether a type on the chain has one of the names, and the chain. */
  method CheckChain(types: Types, p: TypeId, specs: seq<Spec>, ghost rank: TypeId -> nat) returns (taken: bool, parents: seq<TypeId>)
    requires Ranked(types, rank) && p in types
    ensures taken <==> !Creatable(types, rank, p, specs)
    ensures parents == Chain(types, rank, p)
  {
    parents := GenerateInheritanceChain(types, p, rank);
    ChainLive(types, rank, p);
    taken := AnyTaken(types, parents, specs);
  }

  lemma HasBaseEvent(types: Types, rank: TypeId -> nat)
    requires Ranked(types, rank)
    ensures BaseEvent in types && NoType !in types && StandardEvent in types
  {
  }

  class Manager {
    var types: Types
    var cells: Cells
    var next: nat
    ghost var rank: TypeId -> nat
    ghost var bound: nat
    ghost var given: Given

    ghost predicate Valid() reads this {
      && Good(types, cells, rank) && AllBelow(types, cells, next) && AllAsSpecified(types, cells, given)
      && forall x :: x in types ==> rank(x) < bound
    }

    constructor ()
      ensures Valid() && types.Keys == {BaseEvent, StandardEvent} && types[BaseEvent].count == 0
    {
      BaseFieldsOk();
      StandardFieldsOk();
      hide BaseFields, StandardFields, BaseOk, DistinctNames, Good, AllBelow;
      var base, _ := IndexFieldsInit(BaseFields());
      var standard, _ := IndexFieldsInit(StandardFields());
      types := map[BaseEvent := EventType(NoType, BaseFields(), base, 0), StandardEvent := EventType(NoType, StandardFields(), standard, 0)];
      cells, next := InitialCells(), 11;
      rank, bound, given := (_: TypeId) => 0, 1, map[];
      new;
      InitialGood(types, cells, rank);
      BelowAfter(types, cells, rank, next);
    }

    method CreateEventType(id: TypeId, parent: TypeId, specs: seq<Spec>) returns (a: Answer)
      requires Valid() && id != NoType
      modifies this
      ensures Valid()
      ensures old(Ranked(types, rank))
      ensures var p := if parent == NoType then BaseEvent else parent;
              a == if !SpecsDistinct(specs) then Duplicate
                   else if id in old(types) then Exists
                   else if p !in old(types) then NotFound
                   else if !old(Creatable(types, rank, p, specs)) then FieldExists
                   else Done
      ensures a != Done ==> types == old(types) && cells == old(cells)
      ensures a == Done ==>
                && id in types && types == old(types)[id := types[id]]
                && types[id].parent == (if parent == NoType then BaseEvent else parent)
                && EditedFields([], types[id].fields, specs, old(cells), cells, old(next))
      ensures given == if a == Done then old(given)[id := specs] else old(given)
    {
      hide Good, EditedFields, AllBelow, Grown, Req, AllAsSpecified, Creatable, Chain, Ranked, SpecsDistinct;
      GoodRanked(types, cells, rank);
      HasBaseEvent(types, rank);
      var distinct := CheckDistinct(specs);
      if !distinct { return Duplicate; }
      if id in types { return Exists; }
      if parent != NoType && parent !in types { return NotFound; }
      var p := if parent == NoType then BaseEvent else parent;
      var taken, parents := CheckChain(types, p, specs, rank);
      if taken { return FieldExists; }
      ghost var ranked := AddRank(types, rank, id, bound);
      types, cells, next := AddType(types, cells, next, id, p, parents, specs, rank, bound);
      CreatedAsSpecified(old(types), old(cells), given, id, types[id], specs, cells, old(next));
      rank, bound, given := ranked, bound + 1, given[id := specs];
      a := Done;
    }

    /** An edit may add, change and remove fields; the fundamental types are immutable. */
    method UpdateEventType(id: TypeId, specs: seq<Spec>) returns (a: Answer)
      requires Valid()
      modifies this`types, this`cells, this`next, this`given
      ensures Valid()
      ensures old(Ranked(types, rank))
      ensures a == if id !in old(types) then NotFound
                   else if Fundamental(id) then Immutable
                   else if !old(Untaken(types, rank, id, specs)) then FieldExists
                   else Done
      ensures a != Done ==> types == old(types) && cells == old(cells)
      ensures a == Done ==>
                && id in types && Relisted(old(types), types, id, types[id].fields)
                && EditedFields(old(types)[id].fields, types[id].fields, specs, old(cells), cells, old(next))
      ensures given == if a == Done then old(given)[id := specs] else old(given)
    {
      hide Good, EditedFields, AllBelow, Req, Apart, AllAsSpecified, Untaken, Descends;
      GoodRanked(types, cells, rank);
      if id !in types { return NotFound; }
      if Fundamental(id) { return Immutable; }
      var taken, cets := CheckTaken(types, id, specs, rank);
      if taken { return FieldExists; }
      types, cells, next := UpdateType(types, cells, next, id, specs, cets, rank);
      UpdatedAsSpecified(old(types), old(cells), rank, given, types, id, specs, cells, old(next));
      given := given[id := specs];
      a := Done;
    }

    method DeleteEventType(id: TypeId) returns (a: Answer)
      requires Valid()
      modifies this`types, this`given
      ensures Valid()
      ensures a == if Fundamental(id) then Immutable
                   else if id !in old(types) then NotFound
                   else if exists x :: x in old(types) && old(types)[x].parent == id then ChildExists
                   else Done
      ensures types == if a == Done then old(types) - {id} else old(types)
      ensures given == if a == Done then old(given) - {id} else old(given)
    {
      hide Good, AllBelow, AsSpecified;
      if Fundamental(id) { return Immutable; }
      if id !in types { return NotFound; }
      var children := ChildTypes(types, id);
      if |children| > 0 {
        assert children[0] in children;
        return ChildExists;
      }
      LeafGood(types, cells, rank, id);
      BelowLess(types, cells, next, id);
      types, given := types - {id}, given - {id};
      a := Done;
    }

    /** A restart: when custom types were stored, every index and count is rebuilt. */
    method Reload()
      requires Valid()
      modifies this`types
      ensures Valid() && Reloaded(old(types), types)
      ensures (exists x :: x in types && !Fundamental(x)) ==> BaseEvent in types && types[BaseEvent].count == 2
    {
      hide Good, AllBelow, Ranked, AllAsSpecified;
      GoodRanked(types, cells, rank);
      ReloadedAsSpecified(types, cells, given);
      if exists x :: x in types && !Fundamental(x) {
        types := ReloadAll(types, cells, rank);
        assert forall c :: c in cells ==> c < next by { CellsBelow(old(types), cells, next); }
        BelowAfter(types, cells, rank, next);
      }
    }

    /** The required-field test of an event; unknown types are refused. An event of a custom type passes
        exactly when it supplies what the specifications last given for its type and its ancestors ask for. */
    method AcceptsEvent(id: TypeId, supplied: set<Name>) returns (accepted: bool)
      requires Valid() && id != StandardEvent
      ensures id !in types ==> !accepted
      ensures id in types && !Fundamental(id) ==> (accepted <==> OwnRequired(types[id], cells) <= supplied)
      ensures Ranked(types, rank)
      ensures id in types && !Fundamental(id) ==> (accepted <==> DemandedOnChain(types, rank, given, id) <= supplied)
      ensures id == BaseEvent && id in types ==> (accepted <==> types[id].count == 0)
    {
      GoodRanked(types, cells, rank);
      if id !in types { return false; }
      CountDecides(types, cells, rank, id, supplied);
      RequiredOnChain(types, cells, rank, given, id);
      hide Good, AllAsSpecified;
      accepted := CreateEvent(types[id], cells, supplied);
    }
  }

  lemma CellsBelow(types: Types, cells: Cells, next: nat)
    requires AllBelow(types, cells, next)
    ensures forall c :: c in cells ==> c < next
  {
  }

  lemma BelowLess(types: Types, cells: Cells, next: nat, id: TypeId)
    requires AllBelow(types, cells, next)
    ensures AllBelow(types - {id}, cells, next)
  {
  }

  method IndexFieldsInit(fields: seq<Field>) returns (ix: Index, n: int)
    requires DistinctNames(fields)
    ensures forall f: Field :: At(ix, f.name) == f.cell <==> f in fields
  {
    ix, n := IndexFields(Index(map[]), 0, fields, InitialCells());
  }

  method CheckDistinct(specs: seq<Spec>) returns (distinct: bool)
    ensures distinct == SpecsDistinct(specs)
  {
    var seen: set<Name> := {};
    var i := 0;
    while i < |specs|
      invariant 0 <= i <= |specs| && seen == (set j | 0 <= j < i :: specs[j].name) && SpecsDistinct(specs[..i])
    {
      if specs[i].name in seen { return false; }
      seen := seen + {specs[i].name};
      assert specs[..i + 1] == specs[..i] + [specs[i]];
      i := i + 1;
    }
    assert specs[..i] == specs;
    distinct := true;
  }

  ghost function AddRank(types: Types, rank: TypeId -> nat, id: TypeId, bound: nat): TypeId -> nat {
    x => if x == id then bound else rank(x)
  }

  lemma {:induction false} AddRankOk(types: Types, rank: TypeId -> nat, id: TypeId, bound: nat, t: EventType)
    requires Ranked(types, rank) && id !in types && id != NoType && t.parent in types && forall x :: x in types ==> rank(x) < bound
    ensures Grown(types, rank, types[id := t], AddRank(types, rank, id, bound), id)
  {
    var types', rank' := types[id := t], AddRank(types, rank, id, bound);
    forall x | x in types' ensures ParentOk(types', rank', x) { if x != id { assert ParentOk(types, rank, x); } }
  }

  /** A new type: its own fields in new cells, then an index over its chain. */
  method CreateType(types: Types, cells: Cells, next: nat, parent: TypeId, parents: seq<TypeId>, specs: seq<Spec>, ghost rank: TypeId -> nat)
    returns (t: EventType, cells': Cells, next': nat)
    requires Good(types, cells, rank) && AllBelow(types, cells, next) && parent in types && parents == Chain(types, rank, parent)
    requires SpecsDistinct(specs) && Creatable(types, rank, parent, specs)
    ensures t.parent == parent && next <= next' && (forall c :: c in cells' ==> c < next')
    ensures EditedFields([], t.fields, specs, cells, cells', next) && DistinctNames(t.fields) && OwnCells(t.fields)
    ensures forall c :: c in cells ==> c in cells' && cells'[c] == cells[c]
    ensures forall f: Field :: f in t.fields ==> next <= f.cell && f.cell in cells'
    ensures forall a :: a in parents ==> a in types && NoCommon(types[a].fields, t.fields)
    ensures forall f: Field :: At(t.index, f.name) == f.cell <==> f in t.fields || Visible(types, rank, parent, f)
    ensures t.count == |Req(t.index, cells')| - 2
  {
    var names := SpecNames(specs);
    var empty := Index(map[]);
    var fields, ix, count;
    assert Below(empty, cells, next);
    GoodRanked(types, cells, rank);
    hide Good, Req;
    fields, ix, count, cells', next' := InsertFields(empty, 0, names, specs, cells, next);
    NotTakenOnChain(types, rank, parent, specs, fields);
    ChainLast(types, rank, parent);
    ix, count := BuildIndex(types, cells', fields, parents, rank, parent);
    t := EventType(parent, fields, ix, count);
  }

  method AddType(types: Types, cells: Cells, next: nat, id: TypeId, parent: TypeId, parents: seq<TypeId>, specs: seq<Spec>, ghost rank: TypeId -> nat, ghost bound: nat)
    returns (types': Types, cells': Cells, next': nat)
    requires Good(types, cells, rank) && AllBelow(types, cells, next) && parent in types && parents == Chain(types, rank, parent)
    requires id !in types && id != NoType && SpecsDistinct(specs) && Creatable(types, rank, parent, specs) && forall x :: x in types ==> rank(x) < bound
    ensures Good(types', cells', AddRank(types, rank, id, bound)) && AllBelow(types', cells', next')
    ensures id in types' && types' == types[id := types'[id]] && types'[id].parent == parent
    ensures EditedFields([], types'[id].fields, specs, cells, cells', next)
  {
    GoodRanked(types, cells, rank);
    hide Good, EditedFields, AllBelow, Grown, Req, Apart, Creatable;
    var t;
    t, cells', next' := CreateType(types, cells, next, parent, parents, specs, rank);
    types' := types[id := t];
    AddRankOk(types, rank, id, bound, t);
    GrownGood(types, cells, rank, types', cells', AddRank(types, rank, id, bound), id, next);
    BelowAfter(types', cells', AddRank(types, rank, id, bound), next');
  }
}
