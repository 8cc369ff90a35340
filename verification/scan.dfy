/**
 Leftmost-first search: how `String.prototype.match` and `RegExp.exec`
 pick a match. A recogniser says whether a pattern matches starting exactly
 at a position (and what it captures); the search returns the first
 position, from a starting point up to the end of the text, where it does.
 */
module Scan {
  import opened Wrappers

  datatype Hit<T> = Hit(pos: nat, value: T)

  /** The first position in `from..last` at which `m` succeeds, with what it captured. */
  function FirstFrom<T>(from: nat, last: nat, m: nat -> Option<T>): (r: Option<Hit<T>>)
    ensures r.Some? ==> from <= r.value.pos <= last && m(r.value.pos) == Some(r.value.value)
    ensures r.Some? ==> forall q :: from <= q < r.value.pos ==> m(q).None?
    ensures r.None? ==> forall q :: from <= q <= last ==> m(q).None?
    decreases last + 1 - from
  {
    if from > last then None
    else match m(from)
      case Some(v) => Some(Hit(from, v))
      case None => FirstFrom(from + 1, last, m)
  }
}
