/** Declarations that several components share. */
module Common {

  datatype Option<+T> = None | Some(value: T)

  /** A label set; a label with an empty value is the same as a missing one. */
  datatype Labels = Labels(pairs: map<string, string>)

  const NAME := "__name__"

  /** The labels without the metric name. */
  function DropName(l: Labels): Labels {
    Labels(map k | k in l.pairs && k != NAME && l.pairs[k] != "" :: l.pairs[k])
  }

  /** A value at a time, in milliseconds. */
  datatype Point = Point(t: int, v: real)

  predicate InOrder(ps: seq<Point>) { forall i, j :: 0 <= i < j < |ps| ==> ps[i].t < ps[j].t }
}
