/** The server's schedule recalculation for one technician and one day:
    choose a start time and a start position, order the day's customers by
    a greedy nearest-neighbour walk, advance a clock by the travel time to
    each customer and a fixed working time after it, and write the new
    scheduled times back in one bulk update.
    Distances and travel times come from outside (a haversine formula and a
    directions web service) and are parameters; a travel time of `None`
    stands for the service's `Infinity`. The stores that the code queries are
    sequences of records. */
module Schedule {
  import opened Common
  import Nearest

  /** The populated customer of an appointment. */
  datatype Customer = Customer(id: string, name: string, address: string, coords: Option<Coord>)

  /** An appointment of the day, as returned by the query (the query's own
      filter on technician, time window and status is not part of this model). */
  datatype Appointment = Appointment(id: string, customer: Customer, scheduledTime: int, status: Status)

  datatype Technician = Technician(id: string, userId: string, location: Option<Coord>)

  datatype User = User(id: string, addressCoordinates: Option<Coord>)

  /** A customer that has coordinates: a candidate stop of the route. */
  datatype Stop = Stop(id: string, name: string, address: string, coords: Coord)

  /** One leg of the route and the distance it was chosen by. */
  datatype Leg = Leg(customer: Stop, distance: nat)

  /** A stop reached at a time (milliseconds). */
  datatype Visit = Visit(stop: Stop, at: int)

  /** `updateOne: { filter: { _id }, update: { $set: { scheduledTime } } }` */
  datatype BulkOp = SetScheduledTime(id: string, scheduledTime: int)

  datatype Failure = TechnicianNotFound | UserOfTechnicianNotFound | NoStartingPosition

  /** The appointments returned, and the bulk write issued (None: no write). */
  datatype Recalculated = Recalculated(updated: seq<Appointment>, written: Option<seq<BulkOp>>)

  /** Minutes spent at each customer. */
  const WorkingTime: nat := 30
  const DayStartHour: int := 8

  // ---------------------------------------------------------------------
  // Start time and start position

  /** Now, when the appointment day is today and it is 08:00 or later;
      otherwise 08:00:00.000 on the appointment day. */
  function StartTime(now: int, apptDate: int): (t: int)
    ensures DayOf(t) == DayOf(apptDate) && HourOf(t) >= DayStartHour
    ensures DayOf(now) == DayOf(apptDate) && HourOf(now) >= DayStartHour ==> t == now
    ensures !(DayOf(now) == DayOf(apptDate) && HourOf(now) >= DayStartHour) ==> t % MsPerDay == DayStartHour * MsPerHour
  {
    if DayOf(now) == DayOf(apptDate) && HourOf(now) >= DayStartHour then now
    else
      TimeOfDayIsOnThatDay(DayOf(apptDate), DayStartHour, 0, 0, 0);
      TimeOfDay(DayOf(apptDate), DayStartHour, 0, 0, 0)
  }

  function TechnicianWithId(id: string): Technician -> bool
  {
    (t: Technician) => t.id == id
  }

  function UserWithId(id: string): User -> bool
  {
    (u: User) => u.id == id
  }

  /** The current location when both of its components are set; otherwise
      the technician's stored location when both are set; otherwise the
      address coordinates of the technician's user, whatever they are. */
  function StartCoords(current: Option<Coord>, technicianId: string, technicians: seq<Technician>, users: seq<User>)
    : (r: Result<Option<Coord>, Failure>)
    ensures IsSet(current) ==> r == Ok(current)
    ensures r == Err(TechnicianNotFound) <==>
              !IsSet(current) && forall i :: 0 <= i < |technicians| ==> technicians[i].id != technicianId
    ensures r == Err(UserOfTechnicianNotFound) ==>
              !IsSet(current) &&
              exists i :: 0 <= i < |technicians| && technicians[i].id == technicianId &&
                !IsSet(technicians[i].location) && forall k :: 0 <= k < |users| ==> users[k].id != technicians[i].userId
    ensures r != Err(NoStartingPosition)
    ensures r.Ok? && !IsSet(current) ==>
              exists i :: 0 <= i < |technicians| && technicians[i].id == technicianId &&
                if IsSet(technicians[i].location) then r.value == technicians[i].location
                else exists k :: 0 <= k < |users| && users[k].id == technicians[i].userId && r.value == users[k].addressCoordinates
  {
    if IsSet(current) then Ok(current)
    else
      match Find(technicians, TechnicianWithId(technicianId))
      case None => Err(TechnicianNotFound)
      case Some(t) =>
        if IsSet(t.location) then Ok(t.location)
        else
          match Find(users, UserWithId(t.userId))
          case None => Err(UserOfTechnicianNotFound)
          case Some(u) => Ok(u.addressCoordinates)
  }

  // ---------------------------------------------------------------------
  // The greedy route

  function StopOf(a: Appointment): Stop
    requires a.customer.coords.Some?
  {
    Stop(a.customer.id, a.customer.name, a.customer.address, a.customer.coords.value)
  }

  /** The customers of the appointments that have coordinates, in order. */
  function Stops(pending: seq<Appointment>): (r: seq<Stop>)
    ensures |r| <= |pending|
    ensures forall i :: 0 <= i < |r| ==>
              exists j :: 0 <= j < |pending| && pending[j].customer.coords.Some? && r[i] == StopOf(pending[j])
    ensures forall j :: 0 <= j < |pending| && pending[j].customer.coords.Some? ==> StopOf(pending[j]) in r
  {
    if pending == [] then []
    else
      var rest := Stops(pending[1..]);
      assert forall j :: 1 <= j < |pending| ==> pending[j] == pending[1..][j - 1];
      if pending[0].customer.coords.Some? then [StopOf(pending[0])] + rest else rest
  }

  function Points(s: seq<Stop>): (p: seq<Coord>)
    ensures |p| == |s| && forall i :: 0 <= i < |s| ==> p[i] == s[i].coords
  {
    seq(|s|, i requires 0 <= i < |s| => s[i].coords)
  }

  function Other(id: string): Stop -> bool
  {
    (c: Stop) => c.id != id
  }

  /** The outer `while` loop: take the nearest remaining customer, move
      there, and drop every remaining entry with that customer's id. */
  function Route(pos: Coord, remaining: seq<Stop>, dist: (Coord, Coord) -> nat): (r: seq<Leg>)
    ensures |r| <= |remaining|
    decreases |remaining|
  {
    if remaining == [] then []
    else
      var k := Nearest.FirstNearest(pos, Points(remaining), dist);
      var c := remaining[k];
      FilterShrinks(remaining, Other(c.id), k);
      [Leg(c, dist(pos, c.coords))] + Route(c.coords, Filter(remaining, Other(c.id)), dist)
  }

  method GreedyRoute(start: Coord, customers: seq<Stop>, dist: (Coord, Coord) -> nat) returns (route: seq<Leg>)
    ensures route == Route(start, customers, dist)
  {
    route := [];
    var currentPos := start;
    var remaining := customers;
    while |remaining| > 0
      invariant route + Route(currentPos, remaining, dist) == Route(start, customers, dist)
      decreases |remaining|
    {
      var best, bestDistance := Nearest.FindNearest(currentPos, Points(remaining), dist);
      var candidate := remaining[best];
      ghost var done := route;
      ghost var c, rest := RouteStep(currentPos, remaining, dist);
      ghost var later := Route(candidate.coords, rest, dist);
      route := route + [Leg(candidate, bestDistance)];
      currentPos := candidate.coords;
      remaining := Filter(remaining, Other(candidate.id));
      AppendAssociates(done, [Leg(c, bestDistance)], later);
    }
  }

  /** The customer ids of a run of legs. */
  function Ids(legs: seq<Leg>): set<string>
  {
    set i | 0 <= i < |legs| :: legs[i].customer.id
  }

  function IdsOf(s: seq<Stop>): set<string>
  {
    set c | c in s :: c.id
  }

  /** Where the walk stands before leg i. */
  function Before(pos: Coord, legs: seq<Leg>, i: nat): Coord
    requires i <= |legs|
  {
    if i == 0 then pos else legs[i - 1].customer.coords
  }

  function Untaken(taken: set<string>): Stop -> bool
  {
    (c: Stop) => c.id !in taken
  }

  /** Every leg goes to a candidate customer, no customer id is visited
      twice, and every candidate's id is visited. */
  ghost predicate VisitsEachOnce(r: seq<Leg>, remaining: seq<Stop>)
  {
    (forall i :: 0 <= i < |r| ==> r[i].customer in remaining) &&
    DistinctIds(r) &&
    (forall c :: c in remaining ==> c.id in Ids(r))
  }

  lemma RouteVisitsEachCustomerOnce(pos: Coord, remaining: seq<Stop>, dist: (Coord, Coord) -> nat)
    ensures VisitsEachOnce(Route(pos, remaining, dist), remaining)
  {
    RouteFromCandidates(pos, remaining, dist);
    RouteDistinct(pos, remaining, dist);
    RouteCovers(pos, remaining, dist);
  }

  /** The first step of the route, named. */
  lemma RouteStep(pos: Coord, remaining: seq<Stop>, dist: (Coord, Coord) -> nat)
      returns (c: Stop, rest: seq<Stop>)
    requires remaining != []
    ensures c == remaining[Nearest.FirstNearest(pos, Points(remaining), dist)]
    ensures c in remaining && rest == Filter(remaining, Other(c.id)) && |rest| < |remaining|
    ensures Route(pos, remaining, dist) == [Leg(c, dist(pos, c.coords))] + Route(c.coords, rest, dist)
    ensures forall x :: x in rest <==> x in remaining && x.id != c.id
  {
    var k := Nearest.FirstNearest(pos, Points(remaining), dist);
    c := remaining[k];
    FilterShrinks(remaining, Other(c.id), k);
    rest := Filter(remaining, Other(c.id));
    forall x | x in remaining && x.id != c.id ensures x in rest {
      var m :| 0 <= m < |remaining| && remaining[m] == x;
      assert Other(c.id)(remaining[m]);
    }
  }

  lemma {:induction false} RouteFromCandidates(pos: Coord, remaining: seq<Stop>, dist: (Coord, Coord) -> nat)
    ensures forall i :: 0 <= i < |Route(pos, remaining, dist)| ==> Route(pos, remaining, dist)[i].customer in remaining
    decreases |remaining|
  {
    if remaining != [] {
      var c, rest := RouteStep(pos, remaining, dist);
      var tail := Route(c.coords, rest, dist);
      RouteFromCandidates(c.coords, rest, dist);
      var r := Route(pos, remaining, dist);
      forall i | 0 <= i < |r| ensures r[i].customer in remaining {
        if i > 0 {
          assert r[i] == tail[i - 1];
          assert tail[i - 1].customer in rest;
        }
      }
    }
  }

  lemma {:induction false} RouteDistinct(pos: Coord, remaining: seq<Stop>, dist: (Coord, Coord) -> nat)
    ensures DistinctIds(Route(pos, remaining, dist))
    decreases |remaining|
  {
    if remaining != [] {
      var c, rest := RouteStep(pos, remaining, dist);
      var tail := Route(c.coords, rest, dist);
      RouteDistinct(c.coords, rest, dist);
      RouteFromCandidates(c.coords, rest, dist);
      DistinctCons(Leg(c, dist(pos, c.coords)), tail, rest, Route(pos, remaining, dist));
    }
  }

  ghost predicate DistinctIds(r: seq<Leg>)
  {
    forall i, j :: 0 <= i < j < |r| ==> r[i].customer.id != r[j].customer.id
  }

  lemma DistinctCons(l: Leg, tail: seq<Leg>, rest: seq<Stop>, r: seq<Leg>)
    requires DistinctIds(tail)
    requires forall m :: 0 <= m < |tail| ==> tail[m].customer in rest
    requires forall x :: x in rest ==> x.id != l.customer.id
    requires r == [l] + tail
    ensures DistinctIds(r)
  {
    forall i, j | 0 <= i < j < |r| ensures r[i].customer.id != r[j].customer.id {
      assert r[j] == tail[j - 1];
      if i > 0 {
        assert r[i] == tail[i - 1];
      }
    }
  }

  lemma {:induction false} RouteCovers(pos: Coord, remaining: seq<Stop>, dist: (Coord, Coord) -> nat)
    ensures forall x :: x in remaining ==> x.id in Ids(Route(pos, remaining, dist))
    decreases |remaining|
  {
    if remaining != [] {
      var c, rest := RouteStep(pos, remaining, dist);
      var tail := Route(c.coords, rest, dist);
      RouteCovers(c.coords, rest, dist);
      var r := Route(pos, remaining, dist);
      forall x | x in remaining ensures x.id in Ids(r) {
        if x.id != c.id {
          var i :| 0 <= i < |tail| && tail[i].customer.id == x.id;
          assert r[i + 1] == tail[i];
        } else {
          assert r[0].customer.id == x.id;
        }
      }
    }
  }

  /** The route has one leg per distinct customer id among the candidates. */
  lemma {:induction false} RouteLength(pos: Coord, remaining: seq<Stop>, dist: (Coord, Coord) -> nat)
    ensures |Route(pos, remaining, dist)| == |IdsOf(remaining)|
    decreases |remaining|
  {
    if remaining != [] {
      var c, rest := RouteStep(pos, remaining, dist);
      RouteLength(c.coords, rest, dist);
      IdsOfOther(remaining, c);
    }
  }

  /** Dropping every entry with c's id drops exactly that id. */
  lemma IdsOfOther(remaining: seq<Stop>, c: Stop)
    requires c in remaining
    ensures IdsOf(Filter(remaining, Other(c.id))) == IdsOf(remaining) - {c.id}
    ensures c.id in IdsOf(remaining)
  {
    var rest := Filter(remaining, Other(c.id));
    forall id | id in IdsOf(remaining) - {c.id} ensures id in IdsOf(rest) {
      var x :| x in remaining && x.id == id;
      var m :| 0 <= m < |remaining| && remaining[m] == x;
      assert Other(c.id)(remaining[m]);
    }
  }

  lemma {:induction false} FilterOtherUntaken(s: seq<Stop>, id: string, taken: set<string>)
    ensures Filter(Filter(s, Other(id)), Untaken(taken)) == Filter(s, Untaken({id} + taken))
  {
    if s != [] {
      FilterOtherUntaken(s[1..], id, taken);
    }
  }

  /** The candidates still remaining when leg i is chosen: those whose id
      no earlier leg took. */
  function Left(pos: Coord, remaining: seq<Stop>, dist: (Coord, Coord) -> nat, i: nat): seq<Stop>
    requires i <= |Route(pos, remaining, dist)|
  {
    Filter(remaining, Untaken(Ids(Route(pos, remaining, dist)[..i])))
  }

  /** Leg i goes to the customer the scan picks among the candidates still
      remaining, measured from where leg i - 1 ended, and records that distance. */
  ghost predicate PicksNearest(pos: Coord, remaining: seq<Stop>, dist: (Coord, Coord) -> nat, i: nat)
    requires i < |Route(pos, remaining, dist)|
  {
    var r := Route(pos, remaining, dist);
    var left := Left(pos, remaining, dist, i);
    |left| > 0 &&
    r[i].customer == left[Nearest.FirstNearest(Before(pos, r, i), Points(left), dist)] &&
    r[i].distance == dist(Before(pos, r, i), r[i].customer.coords)
  }

  lemma {:induction false} RouteLegIsNearest(pos: Coord, remaining: seq<Stop>, dist: (Coord, Coord) -> nat, i: nat)
    requires i < |Route(pos, remaining, dist)|
    ensures PicksNearest(pos, remaining, dist, i)
    decreases |remaining|
  {
    var c, rest := RouteStep(pos, remaining, dist);
    if i == 0 {
      FirstLegIsNearest(pos, remaining, dist, c);
    } else {
      RouteLegIsNearest(c.coords, rest, dist, i - 1);
      LaterLegIsNearest(pos, remaining, dist, i, c, rest);
    }
  }

  lemma FirstLegIsNearest(pos: Coord, remaining: seq<Stop>, dist: (Coord, Coord) -> nat, c: Stop)
    requires remaining != [] && c == remaining[Nearest.FirstNearest(pos, Points(remaining), dist)]
    requires Route(pos, remaining, dist) == [Leg(c, dist(pos, c.coords))] + Route(c.coords, Filter(remaining, Other(c.id)), dist)
    ensures PicksNearest(pos, remaining, dist, 0)
  {
    var r := Route(pos, remaining, dist);
    assert r[0] == Leg(c, dist(pos, c.coords));
    assert Before(pos, r, 0) == pos;
    assert Ids(r[..0]) == {};
    FilterKeepsAll(remaining, Untaken({}));
    assert Left(pos, remaining, dist, 0) == remaining;
  }

  lemma LaterLegIsNearest(pos: Coord, remaining: seq<Stop>, dist: (Coord, Coord) -> nat, i: nat, c: Stop, rest: seq<Stop>)
    requires 0 < i < |Route(pos, remaining, dist)|
    requires rest == Filter(remaining, Other(c.id))
    requires Route(pos, remaining, dist) == [Leg(c, dist(pos, c.coords))] + Route(c.coords, rest, dist)
    requires PicksNearest(c.coords, rest, dist, i - 1)
    ensures PicksNearest(pos, remaining, dist, i)
  {
    var r := Route(pos, remaining, dist);
    var tail := Route(c.coords, rest, dist);
    FilterOtherUntaken(remaining, c.id, Ids(tail[..i - 1]));
    IdsOfStep(r, tail, c, dist(pos, c.coords), i);
    assert Left(pos, remaining, dist, i) == Left(c.coords, rest, dist, i - 1);
    assert r[i] == tail[i - 1];
    assert Before(pos, r, i) == Before(c.coords, tail, i - 1);
  }

  lemma IdsOfStep(r: seq<Leg>, tail: seq<Leg>, c: Stop, d: nat, i: nat)
    requires r == [Leg(c, d)] + tail && 0 < i <= |r|
    ensures Ids(r[..i]) == {c.id} + Ids(tail[..i - 1])
  {
    assert r[..i] == [Leg(c, d)] + tail[..i - 1];
    assert r[..i][0].customer.id == c.id;
    forall id | id in Ids(r[..i]) ensures id in {c.id} + Ids(tail[..i - 1]) {
      var j :| 0 <= j < i && r[..i][j].customer.id == id;
      if j > 0 {
        assert tail[..i - 1][j - 1] == r[..i][j];
      }
    }
    forall id | id in Ids(tail[..i - 1]) ensures id in Ids(r[..i]) {
      var j :| 0 <= j < i - 1 && tail[..i - 1][j].customer.id == id;
      assert r[..i][j + 1] == tail[..i - 1][j];
    }
  }

  /** A nearest candidate to `from` by distance d, listed before every other
      candidate at that same distance. */
  ghost predicate NearestFirst(d: nat, c: Stop, from: Coord, left: seq<Stop>, dist: (Coord, Coord) -> nat)
  {
    (forall x :: x in left ==> d <= dist(from, x.coords)) &&
    exists k :: 0 <= k < |left| && left[k] == c && forall j :: 0 <= j < k ==> d < dist(from, left[j].coords)
  }

  /** The same, in plain terms: no remaining candidate is closer than leg i's
      customer, and every remaining candidate listed before it is farther. */
  lemma LegIsMinimal(pos: Coord, remaining: seq<Stop>, dist: (Coord, Coord) -> nat, i: nat)
    requires i < |Route(pos, remaining, dist)|
    ensures NearestFirst(Route(pos, remaining, dist)[i].distance, Route(pos, remaining, dist)[i].customer,
                         Before(pos, Route(pos, remaining, dist), i), Left(pos, remaining, dist, i), dist)
  {
    var r := Route(pos, remaining, dist);
    var left := Left(pos, remaining, dist, i);
    RouteLegIsNearest(pos, remaining, dist, i);
    ScanIsNearestFirst(Before(pos, r, i), left, dist);
  }

  /** The stop the scan picks is a nearest one, listed before the others at its distance. */
  lemma ScanIsNearestFirst(from: Coord, left: seq<Stop>, dist: (Coord, Coord) -> nat)
    requires |left| > 0
    ensures NearestFirst(dist(from, left[Nearest.FirstNearest(from, Points(left), dist)].coords),
                         left[Nearest.FirstNearest(from, Points(left), dist)], from, left, dist)
  {
    var pts := Points(left);
    var k := Nearest.FirstNearest(from, pts, dist);
    Nearest.FirstNearestIsNearest(from, pts, dist);
    assert pts[k] == left[k].coords;
    forall x | x in left ensures dist(from, left[k].coords) <= dist(from, x.coords) {
      var m :| 0 <= m < |left| && left[m] == x;
      assert pts[m] == x.coords;
    }
    forall j | 0 <= j < k ensures dist(from, left[k].coords) < dist(from, left[j].coords) {
      assert pts[j] == left[j].coords;
    }
  }


  // ---------------------------------------------------------------------
  // The schedule

  /** The `for` loop over the legs: a leg the travel service cannot reach is
      skipped and neither the clock nor the position moves; otherwise the
      customer is reached after the travel time and the clock then runs on
      for the working time. */
  function Timeline(legs: seq<Leg>, clock: int, pos: Coord, travel: (Coord, Coord) -> Option<nat>): (v: seq<Visit>)
    ensures |v| <= |legs|
    decreases |legs|
  {
    if legs == [] then []
    else
      var c := legs[0].customer;
      match travel(pos, c.coords)
      case None => Timeline(legs[1..], clock, pos, travel)
      case Some(t) =>
        var at := clock + t * MsPerMinute;
        [Visit(c, at)] + Timeline(legs[1..], at + WorkingTime * MsPerMinute, c.coords, travel)
  }

  /** Visits never precede the starting clock, and each one is at least the
      working time after the one before. */
  ghost predicate Spaced(v: seq<Visit>, clock: int)
  {
    (forall i :: 0 <= i < |v| ==> v[i].at >= clock) &&
    (forall i :: 0 <= i < |v| - 1 ==> v[i + 1].at >= v[i].at + WorkingTime * MsPerMinute)
  }

  lemma {:induction false} TimelineSpacing(legs: seq<Leg>, clock: int, pos: Coord, travel: (Coord, Coord) -> Option<nat>)
    ensures Spaced(Timeline(legs, clock, pos, travel), clock)
    decreases |legs|
  {
    if legs != [] {
      var c := legs[0].customer;
      match travel(pos, c.coords)
      case None =>
        TimelineSpacing(legs[1..], clock, pos, travel);
      case Some(t) =>
        var at := clock + t * MsPerMinute;
        var rest := Timeline(legs[1..], at + WorkingTime * MsPerMinute, c.coords, travel);
        TimelineSpacing(legs[1..], at + WorkingTime * MsPerMinute, c.coords, travel);
        var v := [Visit(c, at)] + rest;
        assert Timeline(legs, clock, pos, travel) == v;
        forall i | 0 <= i < |v| ensures v[i].at >= clock {
          if i > 0 {
            assert v[i] == rest[i - 1];
          }
        }
        forall i | 0 <= i < |v| - 1 ensures v[i + 1].at >= v[i].at + WorkingTime * MsPerMinute {
          assert v[i + 1] == rest[i];
          if i > 0 {
            assert v[i] == rest[i - 1];
          }
        }
    }
  }

  /** Each visit is timed from the one before it: the first is the travel
      time from the start position after the start clock, and every later
      one is the working time plus the travel time from the previous
      customer after the previous visit. Skipped legs move neither. */
  ghost predicate Stepped(v: seq<Visit>, clock: int, pos: Coord, travel: (Coord, Coord) -> Option<nat>)
  {
    (|v| > 0 ==>
       travel(pos, v[0].stop.coords).Some? &&
       v[0].at == clock + travel(pos, v[0].stop.coords).value * MsPerMinute) &&
    (forall i :: 0 <= i < |v| - 1 ==>
       travel(v[i].stop.coords, v[i + 1].stop.coords).Some? &&
       v[i + 1].at == v[i].at + (WorkingTime + travel(v[i].stop.coords, v[i + 1].stop.coords).value) * MsPerMinute)
  }

  /** The exact visit times on every route, reachable legs and skipped ones mixed. */
  lemma {:induction false} TimelineSteps(legs: seq<Leg>, clock: int, pos: Coord, travel: (Coord, Coord) -> Option<nat>)
    ensures Stepped(Timeline(legs, clock, pos, travel), clock, pos, travel)
    decreases |legs|
  {
    if legs != [] {
      var c := legs[0].customer;
      match travel(pos, c.coords)
      case None =>
        TimelineSteps(legs[1..], clock, pos, travel);
      case Some(t) =>
        var at := clock + t * MsPerMinute;
        var next := at + WorkingTime * MsPerMinute;
        var rest := Timeline(legs[1..], next, c.coords, travel);
        TimelineSteps(legs[1..], next, c.coords, travel);
        var v := [Visit(c, at)] + rest;
        assert Timeline(legs, clock, pos, travel) == v;
        forall i | 0 <= i < |v| - 1
          ensures travel(v[i].stop.coords, v[i + 1].stop.coords).Some? &&
                  v[i + 1].at == v[i].at + (WorkingTime + travel(v[i].stop.coords, v[i + 1].stop.coords).value) * MsPerMinute
        {
          assert v[i + 1] == rest[i];
          if i > 0 {
            assert v[i] == rest[i - 1];
          }
        }
    }
  }

  function VisitedStops(v: seq<Visit>): (r: seq<Stop>)
    ensures |r| == |v| && forall i :: 0 <= i < |v| ==> r[i] == v[i].stop
  {
    seq(|v|, i requires 0 <= i < |v| => v[i].stop)
  }

  function LegStops(legs: seq<Leg>): (r: seq<Stop>)
    ensures |r| == |legs| && forall i :: 0 <= i < |legs| ==> r[i] == legs[i].customer
  {
    seq(|legs|, i requires 0 <= i < |legs| => legs[i].customer)
  }

  /** The visits are the route's customers with some legs left out, in route order. */
  lemma {:induction false} TimelineFollowsRoute(legs: seq<Leg>, clock: int, pos: Coord, travel: (Coord, Coord) -> Option<nat>)
    ensures IsSubsequence(VisitedStops(Timeline(legs, clock, pos, travel)), LegStops(legs))
    decreases |legs|
  {
    if legs != [] {
      var c := legs[0].customer;
      var s := LegStops(legs);
      assert s[0] == c && s[1..] == LegStops(legs[1..]);
      match travel(pos, c.coords)
      case None =>
        TimelineFollowsRoute(legs[1..], clock, pos, travel);
      case Some(t) =>
        var at := clock + t * MsPerMinute;
        var rest := Timeline(legs[1..], at + WorkingTime * MsPerMinute, c.coords, travel);
        TimelineFollowsRoute(legs[1..], at + WorkingTime * MsPerMinute, c.coords, travel);
        var r := VisitedStops([Visit(c, at)] + rest);
        assert r[0] == c && r[1..] == VisitedStops(rest);
    }
  }

  /** Where the technician is when leg j comes up: the start position, or the
      customer of the last earlier leg that was reachable from where the
      technician then was. */
  ghost function PositionAt(legs: seq<Leg>, pos: Coord, travel: (Coord, Coord) -> Option<nat>, j: nat): Coord
    requires j <= |legs|
    decreases j
  {
    if j == 0 then pos
    else
      var p := PositionAt(legs, pos, travel, j - 1);
      if travel(p, legs[j - 1].customer.coords).Some? then legs[j - 1].customer.coords else p
  }

  /** Leg j is reachable from where the technician is when it comes up. */
  ghost predicate Reached(legs: seq<Leg>, pos: Coord, travel: (Coord, Coord) -> Option<nat>, j: nat)
    requires j < |legs|
  {
    travel(PositionAt(legs, pos, travel, j), legs[j].customer.coords).Some?
  }

  /** The reached legs among the first n, in route order. */
  ghost function ReachedLegs(legs: seq<Leg>, pos: Coord, travel: (Coord, Coord) -> Option<nat>, n: nat): seq<Leg>
    requires n <= |legs|
    decreases n
  {
    if n == 0 then []
    else ReachedLegs(legs, pos, travel, n - 1) + (if Reached(legs, pos, travel, n - 1) then [legs[n - 1]] else [])
  }

  /** Past the first leg, positions are those of the rest, started from where
      the first leg leaves the technician. */
  lemma {:induction false} PositionShift(legs: seq<Leg>, pos: Coord, travel: (Coord, Coord) -> Option<nat>, j: nat)
    requires legs != [] && 1 <= j <= |legs|
    ensures PositionAt(legs, pos, travel, j)
            == PositionAt(legs[1..], PositionAt(legs, pos, travel, 1), travel, j - 1)
    decreases j
  {
    if j > 1 {
      PositionShift(legs, pos, travel, j - 1);
      assert legs[j - 1] == legs[1..][j - 2];
    }
  }

  lemma {:induction false} ReachedShift(legs: seq<Leg>, pos: Coord, travel: (Coord, Coord) -> Option<nat>, n: nat)
    requires legs != [] && 1 <= n <= |legs|
    ensures ReachedLegs(legs, pos, travel, n)
            == ReachedLegs(legs, pos, travel, 1) + ReachedLegs(legs[1..], PositionAt(legs, pos, travel, 1), travel, n - 1)
    decreases n
  {
    if n > 1 {
      var tl := legs[1..];
      var next := PositionAt(legs, pos, travel, 1);
      ReachedShift(legs, pos, travel, n - 1);
      PositionShift(legs, pos, travel, n - 1);
      assert legs[n - 1] == tl[n - 2];
      assert Reached(legs, pos, travel, n - 1) == Reached(tl, next, travel, n - 2);
      var last := if Reached(legs, pos, travel, n - 1) then [legs[n - 1]] else [];
      assert ReachedLegs(tl, next, travel, n - 1) == ReachedLegs(tl, next, travel, n - 2) + last;
      assert ReachedLegs(legs, pos, travel, n)
             == ReachedLegs(legs, pos, travel, 1) + ReachedLegs(tl, next, travel, n - 2) + last;
    }
  }

  lemma VisitedStopsCons(x: Visit, rest: seq<Visit>)
    ensures VisitedStops([x] + rest) == [x.stop] + VisitedStops(rest)
  {
    var a := VisitedStops([x] + rest);
    var b := [x.stop] + VisitedStops(rest);
    forall i | 0 <= i < |a| ensures a[i] == b[i] {
      if i > 0 {
        assert ([x] + rest)[i] == rest[i - 1];
      }
    }
  }

  lemma LegStopsCons(l: Leg, rest: seq<Leg>)
    ensures LegStops([l] + rest) == [l.customer] + LegStops(rest)
  {
    var a := LegStops([l] + rest);
    var b := [l.customer] + LegStops(rest);
    forall i | 0 <= i < |a| ensures a[i] == b[i] {
      if i > 0 {
        assert ([l] + rest)[i] == rest[i - 1];
      }
    }
  }

  /** The visits are exactly the reached legs, in route order: a leg is
      visited if and only if it is reachable from the start, when no earlier
      leg was visited, or from the last visited customer before it. */
  lemma {:induction false} TimelineVisitsReachedLegs(legs: seq<Leg>, clock: int, pos: Coord,
                                                      travel: (Coord, Coord) -> Option<nat>)
    ensures VisitedStops(Timeline(legs, clock, pos, travel)) == LegStops(ReachedLegs(legs, pos, travel, |legs|))
    decreases |legs|
  {
    if legs != [] {
      var c := legs[0].customer;
      var tl := legs[1..];
      var next := PositionAt(legs, pos, travel, 1);
      ReachedShift(legs, pos, travel, |legs|);
      var kept := ReachedLegs(tl, next, travel, |tl|);
      var first := ReachedLegs(legs, pos, travel, 1);
      assert ReachedLegs(legs, pos, travel, |legs|) == first + kept;
      if travel(pos, c.coords).None? {
        assert next == pos && first == [];
        assert Timeline(legs, clock, pos, travel) == Timeline(tl, clock, pos, travel);
        TimelineVisitsReachedLegs(tl, clock, pos, travel);
      } else {
        var at := clock + travel(pos, c.coords).value * MsPerMinute;
        var rest := Timeline(tl, at + WorkingTime * MsPerMinute, c.coords, travel);
        assert next == c.coords && first == [legs[0]];
        assert Timeline(legs, clock, pos, travel) == [Visit(c, at)] + rest;
        TimelineVisitsReachedLegs(tl, at + WorkingTime * MsPerMinute, c.coords, travel);
        VisitedStopsCons(Visit(c, at), rest);
        LegStopsCons(legs[0], kept);
      }
    }
  }

  /** The technician is always at the start or at an earlier leg's customer. */
  lemma {:induction false} PositionIsStartOrEarlier(legs: seq<Leg>, pos: Coord, travel: (Coord, Coord) -> Option<nat>, j: nat)
    requires j <= |legs|
    ensures PositionAt(legs, pos, travel, j) == pos ||
            exists i :: 0 <= i < j && PositionAt(legs, pos, travel, j) == legs[i].customer.coords
    decreases j
  {
    if j > 0 {
      PositionIsStartOrEarlier(legs, pos, travel, j - 1);
    }
  }

  lemma {:induction false} ReachedLegIncluded(legs: seq<Leg>, pos: Coord, travel: (Coord, Coord) -> Option<nat>, j: nat, n: nat)
    requires j < n <= |legs| && Reached(legs, pos, travel, j)
    ensures legs[j] in ReachedLegs(legs, pos, travel, n)
    decreases n
  {
    if j < n - 1 {
      ReachedLegIncluded(legs, pos, travel, j, n - 1);
    }
  }

  /** A leg reachable from the start and from every earlier customer is visited. */
  lemma ReachableLegVisited(legs: seq<Leg>, clock: int, pos: Coord, travel: (Coord, Coord) -> Option<nat>, j: nat)
    requires j < |legs| && travel(pos, legs[j].customer.coords).Some?
    requires forall i :: 0 <= i < j ==> travel(legs[i].customer.coords, legs[j].customer.coords).Some?
    ensures legs[j].customer in VisitedStops(Timeline(legs, clock, pos, travel))
  {
    PositionIsStartOrEarlier(legs, pos, travel, j);
    assert Reached(legs, pos, travel, j);
    ReachedLegIncluded(legs, pos, travel, j, |legs|);
    TimelineVisitsReachedLegs(legs, clock, pos, travel);
    var kept := ReachedLegs(legs, pos, travel, |legs|);
    var k :| 0 <= k < |kept| && kept[k] == legs[j];
    assert LegStops(kept)[k] == legs[j].customer;
  }

  /** When the service cannot reach any leg from the start, the position never
      moves, so nothing at all is scheduled. */
  lemma {:induction false} UnreachableFromStart(legs: seq<Leg>, clock: int, pos: Coord, travel: (Coord, Coord) -> Option<nat>)
    requires forall i :: 0 <= i < |legs| ==> travel(pos, legs[i].customer.coords).None?
    ensures Timeline(legs, clock, pos, travel) == []
    decreases |legs|
  {
    if legs != [] {
      assert travel(pos, legs[0].customer.coords).None?;
      assert forall i :: 0 <= i < |legs[1..]| ==> legs[1..][i] == legs[i + 1];
      UnreachableFromStart(legs[1..], clock, pos, travel);
    }
  }

  /** Every leg is reachable from where the previous one ended. */
  ghost predicate AllReachable(legs: seq<Leg>, pos: Coord, travel: (Coord, Coord) -> Option<nat>)
  {
    forall j :: 0 <= j < |legs| ==> travel(Before(pos, legs, j), legs[j].customer.coords).Some?
  }

  function TravelTimes(legs: seq<Leg>, pos: Coord, travel: (Coord, Coord) -> Option<nat>): (r: seq<nat>)
    requires AllReachable(legs, pos, travel)
    ensures |r| == |legs|
  {
    seq(|legs|, j requires 0 <= j < |legs| && AllReachable(legs, pos, travel) => travel(Before(pos, legs, j), legs[j].customer.coords).value)
  }

  /** Leg k is reached at the start clock plus the travel times of legs
      0..k plus k working times. */
  ghost predicate ArrivalsAdd(v: seq<Visit>, legs: seq<Leg>, times: seq<nat>, clock: int)
  {
    |v| == |legs| && |times| == |legs| &&
    forall k :: 0 <= k < |legs| ==>
      v[k].stop == legs[k].customer &&
      v[k].at == clock + (Sum(times[..k + 1]) + WorkingTime * k) * MsPerMinute
  }

  /** With every leg reachable, every leg is visited, at the summed times. */
  lemma {:induction false} TimelineClosedForm(legs: seq<Leg>, clock: int, pos: Coord, travel: (Coord, Coord) -> Option<nat>)
    requires AllReachable(legs, pos, travel)
    ensures ArrivalsAdd(Timeline(legs, clock, pos, travel), legs, TravelTimes(legs, pos, travel), clock)
    decreases |legs|
  {
    if legs != [] {
      var c := legs[0].customer;
      TravelTimesTail(legs, pos, travel);
      var t := travel(pos, c.coords).value;
      var next := clock + t * MsPerMinute + WorkingTime * MsPerMinute;
      TimelineClosedForm(legs[1..], next, c.coords, travel);
      assert Timeline(legs, clock, pos, travel) == [Visit(c, clock + t * MsPerMinute)] + Timeline(legs[1..], next, c.coords, travel);
      ArrivalsCons(Timeline(legs, clock, pos, travel), Timeline(legs[1..], next, c.coords, travel), legs,
                   TravelTimes(legs, pos, travel), TravelTimes(legs[1..], c.coords, travel), t, clock, next);
    }
  }

  /** Past the first leg, the rest is reachable from its customer, with the
      remaining travel times. */
  lemma TravelTimesTail(legs: seq<Leg>, pos: Coord, travel: (Coord, Coord) -> Option<nat>)
    requires legs != [] && AllReachable(legs, pos, travel)
    ensures travel(pos, legs[0].customer.coords).Some?
    ensures AllReachable(legs[1..], legs[0].customer.coords, travel)
    ensures TravelTimes(legs, pos, travel)
            == [travel(pos, legs[0].customer.coords).value] + TravelTimes(legs[1..], legs[0].customer.coords, travel)
  {
    var c := legs[0].customer;
    var tl := legs[1..];
    assert travel(Before(pos, legs, 0), c.coords).Some?;
    assert forall j :: 0 <= j < |tl| ==> Before(c.coords, tl, j) == Before(pos, legs, j + 1) && tl[j] == legs[j + 1];
    assert AllReachable(tl, c.coords, travel);
  }

  lemma ArrivalsCons(v: seq<Visit>, rest: seq<Visit>, legs: seq<Leg>, times: seq<nat>, ts: seq<nat>, t: nat, clock: int, next: int)
    requires legs != [] && ArrivalsAdd(rest, legs[1..], ts, next)
    requires v == [Visit(legs[0].customer, clock + t * MsPerMinute)] + rest
    requires times == [t] + ts && next == clock + t * MsPerMinute + WorkingTime * MsPerMinute
    ensures ArrivalsAdd(v, legs, times, clock)
  {
    forall k | 0 <= k < |legs|
      ensures v[k].stop == legs[k].customer && v[k].at == clock + (Sum(times[..k + 1]) + WorkingTime * k) * MsPerMinute
    {
      assert times[..k + 1] == [t] + ts[..k];
      SumCons(t, ts[..k]);
      if k == 0 {
        assert ts[..0] == [];
      } else {
        assert v[k] == rest[k - 1] && legs[k] == legs[1..][k - 1];
        assert ts[..k] == ts[..(k - 1) + 1];
      }
    }
  }

  // ---------------------------------------------------------------------
  // Updating the appointments

  function CustomerIs(id: string): Appointment -> bool
  {
    (a: Appointment) => a.customer.id == id
  }

  /** One of the appointments, changed at most in its time. */
  ghost predicate Retimed(a: Appointment, pending: seq<Appointment>)
  {
    exists j :: 0 <= j < |pending| && a == pending[j].(scheduledTime := a.scheduledTime)
  }

  /** For each visit, the first appointment of that customer, carrying the
      visit's time; a visit with no such appointment adds nothing. */
  function Updated(pending: seq<Appointment>, visits: seq<Visit>): (u: seq<Appointment>)
    ensures |u| <= |visits|
    decreases |visits|
  {
    if visits == [] then [] else Touched(pending, visits[0]) + Updated(pending, visits[1..])
  }

  /** The appointment a single visit updates, if any. */
  function Touched(pending: seq<Appointment>, v: Visit): (u: seq<Appointment>)
    ensures |u| <= 1
  {
    match Find(pending, CustomerIs(v.stop.id))
    case None => []
    case Some(a) => [a.(scheduledTime := v.at)]
  }

  /** There is exactly one appointment per visit, in visit order, the first
      of that customer, with the visit's time and nothing else changed. */
  ghost predicate FollowsVisits(u: seq<Appointment>, pending: seq<Appointment>, visits: seq<Visit>)
  {
    |u| == |visits| && forall i :: 0 <= i < |u| ==> FirstOf(u[i], pending, visits[i])
  }

  /** a is the first appointment of v's customer, carrying v's time. */
  ghost predicate FirstOf(a: Appointment, pending: seq<Appointment>, v: Visit)
  {
    a.customer.id == v.stop.id && a.scheduledTime == v.at &&
    exists j :: 0 <= j < |pending| && a == pending[j].(scheduledTime := v.at) &&
      forall m :: 0 <= m < j ==> pending[m].customer.id != v.stop.id
  }

  /** Some appointment belongs to this customer. */
  ghost predicate Booked(pending: seq<Appointment>, id: string)
  {
    exists j :: 0 <= j < |pending| && pending[j].customer.id == id
  }

  /** A visit of a booked customer updates exactly one appointment: that
      customer's first, with the visit's time. */
  lemma TouchedBooked(pending: seq<Appointment>, v: Visit)
    requires Booked(pending, v.stop.id)
    ensures |Touched(pending, v)| == 1
    ensures FirstOf(Touched(pending, v)[0], pending, v)
  {
    var j :| 0 <= j < |pending| && pending[j].customer.id == v.stop.id;
    assert CustomerIs(v.stop.id)(pending[j]);
  }

  /** When every visited customer has an appointment, the updates follow the visits. */
  lemma {:induction false} UpdatedFollowsVisits(pending: seq<Appointment>, visits: seq<Visit>)
    requires forall i :: 0 <= i < |visits| ==> Booked(pending, visits[i].stop.id)
    ensures FollowsVisits(Updated(pending, visits), pending, visits)
    decreases |visits|
  {
    if visits != [] {
      assert forall i :: 0 <= i < |visits[1..]| ==> visits[1..][i] == visits[i + 1];
      UpdatedFollowsVisits(pending, visits[1..]);
      TouchedBooked(pending, visits[0]);
      FollowsCons(Touched(pending, visits[0]), Updated(pending, visits[1..]), pending, visits);
    }
  }

  lemma FollowsCons(t: seq<Appointment>, rest: seq<Appointment>, pending: seq<Appointment>, visits: seq<Visit>)
    requires |visits| > 0 && |t| == 1 && FirstOf(t[0], pending, visits[0])
    requires FollowsVisits(rest, pending, visits[1..])
    ensures FollowsVisits(t + rest, pending, visits)
  {
    var u := t + rest;
    forall i | 0 <= i < |u|
      ensures FirstOf(u[i], pending, visits[i])
    {
      if i > 0 {
        assert u[i] == rest[i - 1] && visits[i] == visits[1..][i - 1];
      }
    }
  }

  /** The bulk write: one operation per returned appointment, in order. */
  function BulkOps(updated: seq<Appointment>): (ops: seq<BulkOp>)
    ensures |ops| == |updated|
  {
    seq(|updated|, i requires 0 <= i < |updated| => SetScheduledTime(updated[i].id, updated[i].scheduledTime))
  }

  /** What one operation does to the stored appointments. */
  function ApplyOp(store: seq<Appointment>, op: BulkOp): (r: seq<Appointment>)
    ensures |r| == |store|
  {
    seq(|store|, k requires 0 <= k < |store| => if store[k].id == op.id then store[k].(scheduledTime := op.scheduledTime) else store[k])
  }

  function ApplyOps(store: seq<Appointment>, ops: seq<BulkOp>): (r: seq<Appointment>)
    ensures |r| == |store|
    decreases |ops|
  {
    if ops == [] then store else ApplyOps(ApplyOp(store, ops[0]), ops[1..])
  }

  /** A stored appointment with the id of a returned appointment carries
      that appointment's time, every other stored appointment is untouched,
      and no other field changes. */
  ghost predicate StoresUpdated(after: seq<Appointment>, store: seq<Appointment>, updated: seq<Appointment>)
  {
    |after| == |store| &&
    (forall k :: 0 <= k < |store| ==>
       (forall i :: 0 <= i < |updated| ==> store[k].id != updated[i].id) ==> after[k] == store[k]) &&
    (forall k, i :: 0 <= k < |store| && 0 <= i < |updated| && store[k].id == updated[i].id ==>
       after[k] == store[k].(scheduledTime := updated[i].scheduledTime))
  }

  /** The bulk write stores exactly the returned appointments' times. */
  lemma {:induction false} BulkWriteStoresUpdated(store: seq<Appointment>, updated: seq<Appointment>)
    requires forall i, j :: 0 <= i < j < |updated| ==> updated[i].id != updated[j].id
    ensures StoresUpdated(ApplyOps(store, BulkOps(updated)), store, updated)
    decreases |updated|
  {
    if updated != [] {
      var ops := BulkOps(updated);
      var first := ApplyOp(store, ops[0]);
      assert ops[1..] == BulkOps(updated[1..]);
      BulkWriteStoresUpdated(first, updated[1..]);
      var after := ApplyOps(store, ops);
      assert after == ApplyOps(first, BulkOps(updated[1..]));
      forall k, i | 0 <= k < |store| && 0 <= i < |updated| && store[k].id == updated[i].id
        ensures after[k] == store[k].(scheduledTime := updated[i].scheduledTime)
      {
        if i == 0 {
          assert forall m :: 0 <= m < |updated[1..]| ==> first[k].id != updated[1..][m].id;
        } else {
          assert updated[1..][i - 1] == updated[i];
        }
      }
    }
  }

  // ---------------------------------------------------------------------
  // The whole recalculation

  /** `recalcScheduleForTechnician`. The start position is looked up before
      the day's appointments are considered, so a missing technician is an
      error even on an empty day; an empty day then returns nothing and
      writes nothing, before the start position is checked for absence. */
  function Recalc(now: int, apptDate: int, current: Option<Coord>, technicianId: string,
                  technicians: seq<Technician>, users: seq<User>, pending: seq<Appointment>,
                  dist: (Coord, Coord) -> nat, travel: (Coord, Coord) -> Option<nat>): (r: Result<Recalculated, Failure>)
    ensures pending == [] && r.Ok? ==> r.value == Recalculated([], None)
    ensures r.Ok? && pending != [] ==> r.value.written == Some(BulkOps(r.value.updated))
    ensures r == Err(NoStartingPosition) <==> pending != [] && StartCoords(current, technicianId, technicians, users) == Ok(None)
    ensures StartCoords(current, technicianId, technicians, users).Err? ==> r == Err(StartCoords(current, technicianId, technicians, users).error)
    ensures r.Err? && r.error != NoStartingPosition ==> StartCoords(current, technicianId, technicians, users) == Err(r.error)
  {
    match StartCoords(current, technicianId, technicians, users)
    case Err(e) => Err(e)
    case Ok(coords) =>
      if pending == [] then Ok(Recalculated([], None))
      else if coords.None? then Err(NoStartingPosition)
      else
        var route := Route(coords.value, Stops(pending), dist);
        var visits := Timeline(route, StartTime(now, apptDate), coords.value, travel);
        var updated := Updated(pending, visits);
        Ok(Recalculated(updated, Some(BulkOps(updated))))
  }

  /** The schedule loop, updating each reached customer's first appointment as it goes. */
  method ScheduleLegs(route: seq<Leg>, pending: seq<Appointment>, start: int, startPos: Coord,
                      travel: (Coord, Coord) -> Option<nat>) returns (updated: seq<Appointment>)
    ensures updated == Updated(pending, Timeline(route, start, startPos, travel))
  {
    var scheduledTime := start;
    var prevPos := startPos;
    updated := [];
    ghost var visits: seq<Visit> := [];
    assert route[0..] == route;
    for i := 0 to |route|
      invariant visits + Timeline(route[i..], scheduledTime, prevPos, travel) == Timeline(route, start, startPos, travel)
      invariant updated == Updated(pending, visits)
    {
      var leg := route[i];
      var travelTime := travel(prevPos, leg.customer.coords);
      if travelTime.None? {
        LegSkipped(route, i, visits, scheduledTime, prevPos, travel, Timeline(route, start, startPos, travel));
      } else {
        ghost var clock, pos, done := scheduledTime, prevPos, visits;
        scheduledTime := scheduledTime + travelTime.value * MsPerMinute;
        // find the customer's appointment and, when there is one, retime it
        ghost var v := Visit(leg.customer, scheduledTime);
        var touched := Touched(pending, Visit(leg.customer, scheduledTime));
        UpdatedStep(pending, visits, v, updated, touched);
        updated := updated + touched;
        visits := visits + [v];
        scheduledTime := scheduledTime + WorkingTime * MsPerMinute;
        prevPos := leg.customer.coords;
        LegVisited(route, i, done, clock, pos, v, travel, Timeline(route, start, startPos, travel), scheduledTime, prevPos);
      }
    }
    assert route[|route|..] == [];
    assert visits == Timeline(route, start, startPos, travel);
  }

  /** A turn of the scheduling loop whose leg cannot be reached leaves the
      clock, the position and the visits as they were. */
  lemma LegSkipped(route: seq<Leg>, i: nat, visits: seq<Visit>, clock: int, pos: Coord,
                   travel: (Coord, Coord) -> Option<nat>, whole: seq<Visit>)
    requires i < |route| && travel(pos, route[i].customer.coords).None?
    requires visits + Timeline(route[i..], clock, pos, travel) == whole
    ensures visits + Timeline(route[i + 1..], clock, pos, travel) == whole
  {
    assert route[i..][0] == route[i] && route[i..][1..] == route[i + 1..];
  }

  /** A turn of the scheduling loop whose leg is reached adds the visit v and
      moves the clock and the position on past it. */
  lemma LegVisited(route: seq<Leg>, i: nat, visits: seq<Visit>, clock: int, pos: Coord, v: Visit,
                   travel: (Coord, Coord) -> Option<nat>, whole: seq<Visit>, next: int, nextPos: Coord)
    requires i < |route| && travel(pos, route[i].customer.coords).Some?
    requires v == Visit(route[i].customer, clock + travel(pos, route[i].customer.coords).value * MsPerMinute)
    requires visits + Timeline(route[i..], clock, pos, travel) == whole
    requires next == v.at + WorkingTime * MsPerMinute && nextPos == v.stop.coords
    ensures (visits + [v]) + Timeline(route[i + 1..], next, nextPos, travel) == whole
  {
    var todo := route[i..];
    assert todo[0] == route[i] && todo[1..] == route[i + 1..];
    var later := Timeline(route[i + 1..], v.at + WorkingTime * MsPerMinute, v.stop.coords, travel);
    assert Timeline(todo, clock, pos, travel) == [v] + later;
    assert visits + ([v] + later) == (visits + [v]) + later;
  }

  lemma UpdatedStep(pending: seq<Appointment>, done: seq<Visit>, v: Visit, before: seq<Appointment>, touched: seq<Appointment>)
    requires before == Updated(pending, done) && touched == Touched(pending, v)
    ensures before + touched == Updated(pending, done + [v])
  {
    UpdatedSnoc(pending, done, v);
  }

  lemma {:induction false} UpdatedSnoc(pending: seq<Appointment>, visits: seq<Visit>, v: Visit)
    ensures Updated(pending, visits + [v]) == Updated(pending, visits) + Touched(pending, v)
    decreases |visits|
  {
    if visits == [] {
      assert [v][1..] == [];
    } else {
      assert (visits + [v])[0] == visits[0] && (visits + [v])[1..] == visits[1..] + [v];
      UpdatedSnoc(pending, visits[1..], v);
    }
  }

  method RecalcSchedule(now: int, apptDate: int, current: Option<Coord>, technicianId: string,
                        technicians: seq<Technician>, users: seq<User>, pending: seq<Appointment>,
                        dist: (Coord, Coord) -> nat, travel: (Coord, Coord) -> Option<nat>) returns (r: Result<Recalculated, Failure>)
    ensures r == Recalc(now, apptDate, current, technicianId, technicians, users, pending, dist, travel)
  {
    var startTime := StartTime(now, apptDate);
    var startCoords := StartCoords(current, technicianId, technicians, users);
    if startCoords.Err? {
      return Err(startCoords.error);
    }
    if |pending| == 0 {
      return Ok(Recalculated([], None));
    }
    var customers := Stops(pending);
    if startCoords.value.None? {
      return Err(NoStartingPosition);
    }
    var route := GreedyRoute(startCoords.value.value, customers, dist);
    var updated := ScheduleLegs(route, pending, startTime, startCoords.value.value, travel);
    return Ok(Recalculated(updated, Some(BulkOps(updated))));
  }

  /** A subsequence of stops with distinct ids has distinct ids. */
  lemma SubsequenceDistinct(r: seq<Stop>, s: seq<Stop>)
    requires IsSubsequence(r, s)
    requires forall m, n :: 0 <= m < n < |s| ==> s[m].id != s[n].id
    ensures forall i, j :: 0 <= i < j < |r| ==> r[i].id != r[j].id
  {
    forall i, j | 0 <= i < j < |r| ensures r[i].id != r[j].id {
      SubsequenceOrder(r, s, i, j);
    }
  }

  /** The returned appointments are appointments of distinct customers
      that have coordinates, each changed only in its time, at times that do
      not precede the start time and are spaced by at least the working
      time; there are at most as many as there are distinct customers. */
  ghost predicate Plausible(u: seq<Appointment>, pending: seq<Appointment>, start: int)
  {
    |u| <= |IdsOf(Stops(pending))| &&
    (forall i :: 0 <= i < |u| ==> u[i].customer.id in IdsOf(Stops(pending))) &&
    (forall i :: 0 <= i < |u| ==> Retimed(u[i], pending)) &&
    (forall i, j :: 0 <= i < j < |u| ==> u[i].customer.id != u[j].customer.id) &&
    (forall i :: 0 <= i < |u| ==> u[i].scheduledTime >= start) &&
    (forall i :: 0 <= i < |u| - 1 ==> u[i + 1].scheduledTime >= u[i].scheduledTime + WorkingTime * MsPerMinute)
  }

  /** End to end: every successful recalculation returns plausible appointments. */
  lemma RecalcOutcome(now: int, apptDate: int, current: Option<Coord>, technicianId: string,
                      technicians: seq<Technician>, users: seq<User>, pending: seq<Appointment>,
                      dist: (Coord, Coord) -> nat, travel: (Coord, Coord) -> Option<nat>)
    requires Recalc(now, apptDate, current, technicianId, technicians, users, pending, dist, travel).Ok?
    ensures Plausible(Recalc(now, apptDate, current, technicianId, technicians, users, pending, dist, travel).value.updated,
                      pending, StartTime(now, apptDate))
  {
    var coords := StartCoords(current, technicianId, technicians, users).value;
    if pending != [] {
      var customers := Stops(pending);
      var route := Route(coords.value, customers, dist);
      var start := StartTime(now, apptDate);
      var visits := Timeline(route, start, coords.value, travel);
      RouteLength(coords.value, customers, dist);
      RouteVisitsEachCustomerOnce(coords.value, customers, dist);
      ScheduledPlausible(pending, route, start, coords.value, travel);
    }
  }

  /** The timeline of a route that visits each customer once gives plausible updates. */
  lemma ScheduledPlausible(pending: seq<Appointment>, route: seq<Leg>, start: int, pos: Coord,
                           travel: (Coord, Coord) -> Option<nat>)
    requires VisitsEachOnce(route, Stops(pending))
    requires |route| == |IdsOf(Stops(pending))|
    ensures Plausible(Updated(pending, Timeline(route, start, pos, travel)), pending, start)
  {
    var visits := Timeline(route, start, pos, travel);
    TimelineSpacing(route, start, pos, travel);
    TimelineFollowsRoute(route, start, pos, travel);
    var vs := VisitedStops(visits);
    var ls := LegStops(route);
    assert forall m, n :: 0 <= m < n < |ls| ==> ls[m].id != ls[n].id;
    SubsequenceDistinct(vs, ls);
    VisitsBooked(pending, route, visits);
    UpdatedFollowsVisits(pending, visits);
    forall i | 0 <= i < |visits|
      ensures visits[i].stop.id in IdsOf(Stops(pending))
    {
    }
    FollowsPlausible(Updated(pending, visits), pending, visits, start);
  }

  /** Every visit is of a customer with coordinates and an appointment. */
  lemma VisitsBooked(pending: seq<Appointment>, route: seq<Leg>, visits: seq<Visit>)
    requires IsSubsequence(VisitedStops(visits), LegStops(route))
    requires forall i :: 0 <= i < |route| ==> route[i].customer in Stops(pending)
    ensures forall i :: 0 <= i < |visits| ==> visits[i].stop in Stops(pending) && Booked(pending, visits[i].stop.id)
  {
    var vs := VisitedStops(visits);
    var ls := LegStops(route);
    forall i | 0 <= i < |visits|
      ensures visits[i].stop in Stops(pending)
      ensures Booked(pending, visits[i].stop.id)
    {
      SubsequenceMember(vs, ls, i);
      var m :| 0 <= m < |route| && ls[m] == vs[i];
      var j :| 0 <= j < |pending| && pending[j].customer.coords.Some? && route[m].customer == StopOf(pending[j]);
    }
  }

  /** Updates that follow distinct, spaced visits of the customers are plausible. */
  lemma FollowsPlausible(u: seq<Appointment>, pending: seq<Appointment>, visits: seq<Visit>, start: int)
    requires FollowsVisits(u, pending, visits)
    requires Spaced(visits, start)
    requires forall i, j :: 0 <= i < j < |visits| ==> visits[i].stop.id != visits[j].stop.id
    requires forall i :: 0 <= i < |visits| ==> visits[i].stop.id in IdsOf(Stops(pending))
    requires |visits| <= |IdsOf(Stops(pending))|
    ensures Plausible(u, pending, start)
  {
    forall i | 0 <= i < |u|
      ensures Retimed(u[i], pending)
    {
      var j :| 0 <= j < |pending| && u[i] == pending[j].(scheduledTime := visits[i].at);
      assert u[i] == pending[j].(scheduledTime := u[i].scheduledTime);
    }
  }
}
