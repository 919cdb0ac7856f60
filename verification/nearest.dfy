/** Choosing the candidate cell closest to a target. */
module Nearest {
  import opened Points

  /** Position of the first smallest key: a minimum-by scan that replaces
      its best only on a strict improvement keeps the earliest of equal
      keys. */
  function FirstMinIndex(keys: seq<nat>): (k: nat)
    requires |keys| > 0
    ensures k < |keys|
    ensures forall i :: 0 <= i < |keys| ==> keys[k] <= keys[i]
    ensures forall i :: 0 <= i < k ==> keys[k] < keys[i]
  {
    if |keys| == 1 then
      0
    else
      var k := FirstMinIndex(keys[1..]) + 1;
      if keys[k] < keys[0] then k else 0
  }

  /** The selector the source minimises by, applied to every candidate. */
  function Distances(candidates: seq<Point>, target: Point): (d: seq<nat>)
    ensures |d| == |candidates|
    ensures forall i :: 0 <= i < |candidates| ==> d[i] == SqDistance(candidates[i], target)
  {
    if |candidates| == 0 then []
    else [SqDistance(candidates[0], target)] + Distances(candidates[1..], target)
  }

  /** The candidate nearest to `target`, the earliest one on a tie. */
  function NearestTo(candidates: seq<Point>, target: Point): (r: Point)
    requires |candidates| > 0
    ensures r in candidates
    ensures forall i :: 0 <= i < |candidates| ==>
              SqDistance(r, target) <= SqDistance(candidates[i], target)
    ensures exists k :: 0 <= k < |candidates| && r == candidates[k] &&
              forall i :: 0 <= i < k ==> SqDistance(r, target) < SqDistance(candidates[i], target)
  {
    candidates[FirstMinIndex(Distances(candidates, target))]
  }

  /** The chosen candidate is no farther than any given candidate. */
  lemma NearestNoFartherThan(candidates: seq<Point>, target: Point, c: Point)
    requires c in candidates
    ensures SqDistance(NearestTo(candidates, target), target) <= SqDistance(c, target)
  {
  }

  /** A candidate strictly nearer than all the others is the one chosen. */
  lemma NearestIsStrictMinimum(candidates: seq<Point>, target: Point, best: Point)
    requires best in candidates
    requires forall c | c in candidates && c != best :: SqDistance(best, target) < SqDistance(c, target)
    ensures NearestTo(candidates, target) == best
  {
  }
}
