/** The nearest-candidate scan shared by the server's and the client's greedy
    route builders: walk the candidates left to right, starting from an
    infinite best distance, and take a candidate only when its distance is
    strictly smaller than the best so far. The distance itself (a haversine
    formula in the code) is a parameter. */
module Nearest {
  import opened Common

  /** Index of the candidate the scan settles on: the first one at minimal distance. */
  function FirstNearest(from: Coord, pts: seq<Coord>, dist: (Coord, Coord) -> nat): (k: nat)
    requires |pts| > 0
    ensures k < |pts|
    decreases |pts|
  {
    if |pts| == 1 then 0
    else
      var k := FirstNearest(from, pts[..|pts| - 1], dist);
      if dist(from, pts[|pts| - 1]) < dist(from, pts[k]) then |pts| - 1 else k
  }

  /** The scan's candidate is at minimal distance, and strictly nearer than
      every candidate listed before it. */
  lemma {:induction false} FirstNearestIsNearest(from: Coord, pts: seq<Coord>, dist: (Coord, Coord) -> nat)
    requires |pts| > 0
    ensures forall j :: 0 <= j < |pts| ==> dist(from, pts[FirstNearest(from, pts, dist)]) <= dist(from, pts[j])
    ensures forall j :: 0 <= j < FirstNearest(from, pts, dist) ==> dist(from, pts[FirstNearest(from, pts, dist)]) < dist(from, pts[j])
    decreases |pts|
  {
    if |pts| > 1 {
      var init := pts[..|pts| - 1];
      FirstNearestIsNearest(from, init, dist);
      assert forall j :: 0 <= j < |init| ==> init[j] == pts[j];
    }
  }

  /** The inner `for` loop of the greedy route: the best candidate and its
      distance. The best candidate starts out absent, standing for the
      infinite initial distance. */
  method FindNearest(from: Coord, pts: seq<Coord>, dist: (Coord, Coord) -> nat) returns (best: nat, bestDistance: nat)
    requires |pts| > 0
    ensures best == FirstNearest(from, pts, dist)
    ensures best < |pts| && bestDistance == dist(from, pts[best])
  {
    var candidate: Option<nat> := None;
    var shortest: Option<nat> := None;
    for i := 0 to |pts|
      invariant candidate.None? <==> i == 0
      invariant shortest.None? <==> i == 0
      invariant i > 0 ==> candidate.value == FirstNearest(from, pts[..i], dist)
      invariant i > 0 ==> candidate.value < i && shortest.value == dist(from, pts[candidate.value])
    {
      var d := dist(from, pts[i]);
      if i > 0 {
        assert pts[..i + 1][..i] == pts[..i];
        assert pts[..i + 1][i] == pts[i];
        assert pts[..i][candidate.value] == pts[candidate.value];
      }
      if shortest.None? || d < shortest.value {
        shortest := Some(d);
        candidate := Some(i);
      }
    }
    assert pts[..|pts|] == pts;
    best, bestDistance := candidate.value, shortest.value;
  }
}
