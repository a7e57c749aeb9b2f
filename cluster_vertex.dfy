/**
 * `ClusterVertex` (core/cluster_vertex.hpp): the clustering state of one
 * vertex.  A vertex is covered once it has a positive probability of
 * reaching its centre; centres are covered with probability 1.
 */
module ClusterVertices {
  import opened Common

  /** The `std::logic_error` that `REQUIRE` throws. */
  datatype LogicError = LogicError(message: string)

  class ClusterVertex {
    var center: nat
    var isCenter: bool
    var probability: real

    /** A fresh vertex: no centre, probability -1, so uncovered. */
    constructor ()
      ensures center == 0 && !isCenter && probability == -1.0
      ensures !IsCovered()
    {
      center := 0;
      isCenter := false;
      probability := -1.0;
    }

    predicate IsCovered()
      reads this
    {
      probability > 0.0
    }

    /** `center()`: throws on an uncovered vertex. */
    function Center(): (r: Result<nat, LogicError>)
      reads this
      ensures r.Ok? <==> probability > 0.0
      ensures r.Ok? ==> r.value == center
      ensures r.Err? ==> r.error == LogicError("The node is uncovered")
    {
      if IsCovered() then Ok(center) else Err(LogicError("The node is uncovered"))
    }

    /** `probability()`: throws on an uncovered vertex; a covered vertex has a positive probability. */
    function Probability(): (r: Result<real, LogicError>)
      reads this
      ensures r.Ok? <==> IsCovered()
      ensures r.Ok? ==> r.value == probability && r.value > 0.0
      ensures r.Err? ==> r.error == LogicError("The node is uncovered")
    {
      if IsCovered() then Ok(probability) else Err(LogicError("The node is uncovered"))
    }

    /** `make_center(id)`: the uncovered vertex becomes a centre, covered with probability 1. */
    method MakeCenter(id: nat)
      requires !IsCovered()
      modifies this
      ensures center == id && isCenter && probability == 1.0
      ensures IsCovered() && Center() == Ok(id) && Probability() == Ok(1.0)
    {
      center := id;
      isCenter := true;
      probability := 1.0;
    }

    /**
     * `cover(c, p)`: throws if the vertex is already covered; otherwise
     * records the centre and probability and keeps `is_center`.  A
     * probability p <= 0 leaves the vertex uncovered.
     */
    method Cover(c: nat, p: real) returns (r: Result<(), LogicError>)
      modifies this
      ensures old(IsCovered()) ==> r == Err(LogicError("The node is covered")) && unchanged(this)
      ensures !old(IsCovered()) ==> r.Ok? && center == c && probability == p && isCenter == old(isCenter)
      ensures !old(IsCovered()) ==> (IsCovered() <==> p > 0.0)
    {
      if IsCovered() {
        return Err(LogicError("The node is covered"));
      }
      center := c;
      probability := p;
      r := Ok(());
    }
  }

  /**
   * A fresh vertex covered with probability p > 0 reports that centre and
   * probability and is no centre; a second cover then fails.
   */
  method CoverOnce(c: nat, p: real, d: nat, q: real) returns (centre: Result<nat, LogicError>, second: Result<(), LogicError>)
    requires p > 0.0
    ensures centre == Ok(c)
    ensures second == Err(LogicError("The node is covered"))
  {
    var v := new ClusterVertex();
    var first := v.Cover(c, p);
    assert !v.isCenter;
    centre := v.Center();
    second := v.Cover(d, q);
  }
}
