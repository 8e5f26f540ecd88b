/**
 * Tap resolution: among the hit-test candidates of a tap (nearest first), the
 * first PlaneHitResult whose hit lies inside the plane's polygon is chosen,
 * and every candidate after it is ignored.
 */
module TapResolution {
  import opened Wrappers
  import opened ArCore

  /** `hit is PlaneHitResult && hit.isHitInPolygon` */
  predicate Qualifies(h: HitResult) {
    h.PlaneHit? && h.inPolygon
  }

  /** Index of the candidate the tap resolves to, if any. */
  function FirstQualifying(hits: seq<HitResult>): (r: Option<nat>)
    ensures r.Some? ==> r.value < |hits| && Qualifies(hits[r.value])
    ensures r.Some? ==> forall j :: 0 <= j < r.value ==> !Qualifies(hits[j])
    ensures r.None? <==> forall j :: 0 <= j < |hits| ==> !Qualifies(hits[j])
    decreases |hits|
  {
    if hits == [] then None
    else if Qualifies(hits[0]) then Some(0)
    else
      match FirstQualifying(hits[1..])
      case Some(i) => Some(i + 1)
      case None => None
  }

  /** Candidates farther away than the chosen one cannot change the choice. */
  lemma {:induction false} FartherHitsIgnored(hits: seq<HitResult>, farther: seq<HitResult>)
    requires FirstQualifying(hits).Some?
    ensures FirstQualifying(hits + farther) == FirstQualifying(hits)
  {
    var i := FirstQualifying(hits).value;
    assert (hits + farther)[i] == hits[i];
    assert forall j :: 0 <= j < i ==> (hits + farther)[j] == hits[j];
  }
}
