/** Relative indices, as `toAbsoluteIndex` reads them. */
module Indices {

  /** Where a relative index points, inside the array or not: negative ones count from the end. */
  function Wanted(i: int, length: nat): int {
    if i < 0 then i + length else i
  }

  function Distance(a: int, b: int): nat {
    if a < b then b - a else a - b
  }

  /** A relative index as an absolute one. */
  function AbsoluteIndex(i: int, length: nat): (r: nat)
    ensures r <= length
  {
    if i < 0 then (if i + length < 0 then 0 else i + length)
    else (if i < length then i else length)
  }

  /** The absolute index is the one position of the array, its end included, that is nearest to the position wanted. */
  lemma NearestPosition(i: int, length: nat, r: nat)
    requires r <= length
    ensures r == AbsoluteIndex(i, length) <==>
      forall p :: 0 <= p <= length ==> Distance(r, Wanted(i, length)) <= Distance(p, Wanted(i, length))
  {
    var best := AbsoluteIndex(i, length);
    if r != best {
      assert Distance(best, Wanted(i, length)) < Distance(r, Wanted(i, length));
    }
  }
}
