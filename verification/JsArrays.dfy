/** JavaScript arrays: references to a growable buffer, so two names can share one array. */
module JsArrays {
  function Least(a: nat, b: nat): nat {
    if a < b then a else b
  }

  /** Array.prototype.splice on a non-negative start: both start and count are clamped. */
  function Spliced<T>(s: seq<T>, start: nat, deleteCount: nat, items: seq<T>): seq<T> {
    var from := Least(start, |s|);
    var to := from + Least(deleteCount, |s| - from);
    s[..from] + items + s[to..]
  }

  class JsArray<T> {
    var elems: seq<T>

    /** Array.from: a new array with the same elements. */
    constructor From(s: seq<T>)
      ensures elems == s
    {
      elems := s;
    }

    method Splice(start: nat, deleteCount: nat, items: seq<T>) returns (removed: seq<T>)
      modifies this
      ensures elems == Spliced(old(elems), start, deleteCount, items)
      ensures start >= |old(elems)| || deleteCount == 0 ==> removed == []
      ensures start < |old(elems)| && deleteCount == 1 ==> removed == [old(elems)[start]]
    {
      var from := Least(start, |elems|);
      var to := from + Least(deleteCount, |elems| - from);
      removed := elems[from..to];
      elems := elems[..from] + items + elems[to..];
    }
  }
}
