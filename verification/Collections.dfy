/** Comparing two lists of names. */
module Collections {

  predicate NoDup<T(==)>(s: seq<T>) { forall i, j :: 0 <= i < j < |s| ==> s[i] != s[j] }

  function Bits<T(==)>(m: map<T, bv8>, k: T): bv8 { if k in m then m[k] else 0 }

  /** Sets one bit for every name of a list. */
  method Mark<T(==)>(m: map<T, bv8>, names: seq<T>, bit: bv8) returns (m': map<T, bv8>)
    ensures forall k :: k in m' <==> k in m || k in names
    ensures forall k :: k in m' ==> m'[k] == if k in names then Bits(m, k) | bit else Bits(m, k)
  {
    m' := m;
    var i := 0;
    while i < |names|
      invariant 0 <= i <= |names|
      invariant forall k :: k in m' <==> k in m || k in names[..i]
      invariant forall k :: k in m' ==> m'[k] == if k in names[..i] then Bits(m, k) | bit else Bits(m, k)
    {
      var n := names[i];
      assert names[..i + 1] == names[..i] + [n];
      assert Twice(Bits(m, n), bit);
      m' := m'[n := Bits(m', n) | bit];
      i := i + 1;
    }
    assert names[..i] == names;
  }

  /** Setting a bit again changes nothing. */
  predicate Twice(b: bv8, bit: bv8) { (b | bit) | bit == b | bit }

  predicate First(b: bv8) { b & 1 != 0 }

  predicate Second(b: bv8) { b & 2 != 0 }

  /** Sorts the marked names by their bits, each list in any order. */
  method Sort<T(==)>(m: map<T, bv8>) returns (onlySrc: seq<T>, both: seq<T>, onlyDes: seq<T>)
    ensures forall k :: k in onlySrc <==> k in m && First(m[k]) && !Second(m[k])
    ensures forall k :: k in both <==> k in m && First(m[k]) && Second(m[k])
    ensures forall k :: k in onlyDes <==> k in m && !First(m[k]) && Second(m[k])
    ensures NoDup(onlySrc) && NoDup(both) && NoDup(onlyDes)
  {
    hide First, Second;
    onlySrc, both, onlyDes := [], [], [];
    var todo := m.Keys;
    while todo != {}
      invariant todo <= m.Keys && NoDup(onlySrc) && NoDup(both) && NoDup(onlyDes)
      invariant forall k :: k in onlySrc <==> k in m && k !in todo && First(m[k]) && !Second(m[k])
      invariant forall k :: k in both <==> k in m && k !in todo && First(m[k]) && Second(m[k])
      invariant forall k :: k in onlyDes <==> k in m && k !in todo && !First(m[k]) && Second(m[k])
      decreases |todo|
    {
      var k :| k in todo;
      var a, b := First(m[k]), Second(m[k]);
      if a && b {
        both := both + [k];
      } else if a && !b {
        onlySrc := onlySrc + [k];
      } else if !a && b {
        onlyDes := onlyDes + [k];
      }
      todo := todo - {k};
    }
  }

  /** Splits the names of two lists into those of the first only, of both, and of the second only. Each
      name is marked with one bit per list it occurs in. */
  method DifferenceAndIntersection<T(==)>(src: seq<T>, des: seq<T>)
    returns (onlySrc: seq<T>, both: seq<T>, onlyDes: seq<T>)
    ensures forall k :: k in onlySrc <==> k in src && k !in des
    ensures forall k :: k in both <==> k in src && k in des
    ensures forall k :: k in onlyDes <==> k in des && k !in src
    ensures NoDup(onlySrc) && NoDup(both) && NoDup(onlyDes)
  {
    var m := Mark(map[], src, 1);
    m := Mark(m, des, 2);
    assert forall k :: k in m ==> (First(m[k]) <==> k in src) && (Second(m[k]) <==> k in des);
    hide First, Second;
    onlySrc, both, onlyDes := Sort(m);
  }
}
