/** The technician's screen in the mobile client: the day's greedy route, the
    schedule it implies, today's queue of in-progress appointments, and the
    calendar's dots and day list. The client keeps the technician's
    appointments in memory (a sequence here); the stored start position,
    the geocoding service, the distance formula and the directions service
    are parameters. Travel times are whole minutes, `None` standing for the
    service's `Infinity`; clock values are milliseconds. */
module TechnicianScreen {
  import opened Common
  import Nearest
  import S = Schedule

  // ---------------------------------------------------------------------
  // Day filters

  /** `new Date(a.scheduledTime)` falls on the given calendar day. */
  function OnDay(day: int): S.Appointment -> bool
  {
    (a: S.Appointment) => DayOf(a.scheduledTime) == day
  }

  /** The calendar's day list: the appointments on the pressed day, in order. */
  function DailyAppointments(appointments: seq<S.Appointment>, day: int): (r: seq<S.Appointment>)
    ensures forall a :: a in r <==> a in appointments && DayOf(a.scheduledTime) == day
  {
    var r := Filter(appointments, OnDay(day));
    assert forall a :: a in appointments && DayOf(a.scheduledTime) == day ==> a in r by {
      forall a | a in appointments && DayOf(a.scheduledTime) == day ensures a in r {
        var j :| 0 <= j < |appointments| && appointments[j] == a;
        assert OnDay(day)(appointments[j]);
      }
    }
    r
  }

  lemma DailyAppointmentsInOrder(appointments: seq<S.Appointment>, day: int)
    ensures IsSubsequence(DailyAppointments(appointments, day), appointments)
  {
    FilterIsSubsequence(appointments, OnDay(day));
  }

  /** Same calendar day as the route's date, and still pending. */
  function PendingOnDay(day: int): S.Appointment -> bool
  {
    (a: S.Appointment) => DayOf(a.scheduledTime) == day && a.status == Pending
  }

  // ---------------------------------------------------------------------
  // The approximate route

  function SameId(id: string): S.Stop -> bool
  {
    (c: S.Stop) => c.id == id
  }

  /** `splice(i, 1)`: the sequence without its i-th entry. */
  function Without<T>(s: seq<T>, i: nat): (r: seq<T>)
    requires i < |s|
    ensures |r| == |s| - 1
  {
    s[..i] + s[i + 1..]
  }

  /** The customer the scan settles on: the first nearest one. */
  function Pick(pos: Coord, remaining: seq<S.Stop>, dist: (Coord, Coord) -> nat): S.Stop
    requires remaining != []
  {
    remaining[Nearest.FirstNearest(pos, S.Points(remaining), dist)]
  }

  /** `findIndex` of the picked customer's id: the first entry carrying it,
      which is never missing since the picked entry itself carries it. */
  function PickIndex(pos: Coord, remaining: seq<S.Stop>, dist: (Coord, Coord) -> nat): (index: nat)
    requires remaining != []
    ensures index < |remaining| && remaining[index].id == Pick(pos, remaining, dist).id
  {
    var c := Pick(pos, remaining, dist);
    assert SameId(c.id)(remaining[Nearest.FirstNearest(pos, S.Points(remaining), dist)]);
    FindIndex(remaining, SameId(c.id))
  }

  /** The greedy `while` loop: take the nearest remaining customer, move
      there, and remove the first entry with that customer's id, which is
      one entry only. */
  function Approx(pos: Coord, remaining: seq<S.Stop>, dist: (Coord, Coord) -> nat): (r: seq<S.Leg>)
    ensures |r| == |remaining|
    decreases |remaining|
  {
    if remaining == [] then []
    else
      var c := Pick(pos, remaining, dist);
      [S.Leg(c, dist(pos, c.coords))] + Approx(c.coords, Without(remaining, PickIndex(pos, remaining, dist)), dist)
  }

  method ApproxLoop(start: Coord, customers: seq<S.Stop>, dist: (Coord, Coord) -> nat) returns (route: seq<S.Leg>)
    ensures route == Approx(start, customers, dist)
  {
    route := [];
    var currentPos := start;
    var remaining := customers;
    while |remaining| > 0
      invariant route + Approx(currentPos, remaining, dist) == Approx(start, customers, dist)
      decreases |remaining|
    {
      var bestCandidate, bestDistance := Nearest.FindNearest(currentPos, S.Points(remaining), dist);
      var candidate := remaining[bestCandidate];
      ghost var done := route;
      ApproxStepAt(currentPos, remaining, dist, bestCandidate, bestDistance);
      route := route + [S.Leg(candidate, bestDistance)];
      currentPos := candidate.coords;
      // never -1: the candidate itself carries the id
      var index := FindIndex(remaining, SameId(candidate.id));
      remaining := Without(remaining, index);
      AppendAssociates(done, [S.Leg(candidate, bestDistance)], Approx(currentPos, remaining, dist));
    }
  }

  /** The first step of the walk, in the terms of the scan's result. */
  lemma ApproxStepAt(pos: Coord, remaining: seq<S.Stop>, dist: (Coord, Coord) -> nat, best: nat, bestDistance: nat)
    requires remaining != [] && best == Nearest.FirstNearest(pos, S.Points(remaining), dist)
    requires best < |remaining| && bestDistance == dist(pos, S.Points(remaining)[best])
    ensures 0 <= FindIndex(remaining, SameId(remaining[best].id)) < |remaining|
    ensures Approx(pos, remaining, dist)
            == [S.Leg(remaining[best], bestDistance)]
               + Approx(remaining[best].coords, Without(remaining, FindIndex(remaining, SameId(remaining[best].id))), dist)
  {
    var c, index := ApproxStep(pos, remaining, dist);
  }

  /** The first step of the walk, named. */
  lemma ApproxStep(pos: Coord, remaining: seq<S.Stop>, dist: (Coord, Coord) -> nat) returns (c: S.Stop, index: nat)
    requires remaining != []
    ensures c == remaining[Nearest.FirstNearest(pos, S.Points(remaining), dist)]
    ensures index == FindIndex(remaining, SameId(c.id)) && index < |remaining|
    ensures Approx(pos, remaining, dist) == [S.Leg(c, dist(pos, c.coords))] + Approx(c.coords, Without(remaining, index), dist)
  {
    c, index := Pick(pos, remaining, dist), PickIndex(pos, remaining, dist);
  }

  /** The customer ids, position by position. */
  function StopIds(s: seq<S.Stop>): (r: seq<string>)
    ensures |r| == |s| && forall i :: 0 <= i < |s| ==> r[i] == s[i].id
  {
    seq(|s|, i requires 0 <= i < |s| => s[i].id)
  }

  function LegIds(legs: seq<S.Leg>): (r: seq<string>)
    ensures |r| == |legs| && forall i :: 0 <= i < |legs| ==> r[i] == legs[i].customer.id
  {
    seq(|legs|, i requires 0 <= i < |legs| => legs[i].customer.id)
  }

  /** The route's customer ids are those of the candidates, each as often as
      it occurs among them: one leg per entry. */
  lemma {:induction false} ApproxIds(pos: Coord, remaining: seq<S.Stop>, dist: (Coord, Coord) -> nat)
    ensures multiset(LegIds(Approx(pos, remaining, dist))) == multiset(StopIds(remaining))
    decreases |remaining|
  {
    if remaining != [] {
      var c, index := Pick(pos, remaining, dist), PickIndex(pos, remaining, dist);
      var rest := Without(remaining, index);
      ApproxIds(c.coords, rest, dist);
      LegIdsCons(S.Leg(c, dist(pos, c.coords)), Approx(c.coords, rest, dist), Approx(pos, remaining, dist));
      WithoutIds(remaining, index);
    }
  }

  lemma LegIdsCons(l: S.Leg, tail: seq<S.Leg>, r: seq<S.Leg>)
    requires r == [l] + tail
    ensures multiset(LegIds(r)) == multiset{l.customer.id} + multiset(LegIds(tail))
  {
    assert LegIds(r) == [l.customer.id] + LegIds(tail);
  }

  lemma WithoutIds(s: seq<S.Stop>, i: nat)
    requires i < |s|
    ensures multiset(StopIds(s)) == multiset{s[i].id} + multiset(StopIds(Without(s, i)))
  {
    var ids := StopIds(s);
    assert StopIds(Without(s, i)) == ids[..i] + ids[i + 1..];
    assert ids == ids[..i] + [ids[i]] + ids[i + 1..];
  }

  /** Every leg goes to one of the candidates. */
  lemma {:induction false} ApproxFromCandidates(pos: Coord, remaining: seq<S.Stop>, dist: (Coord, Coord) -> nat)
    ensures forall i :: 0 <= i < |remaining| ==> Approx(pos, remaining, dist)[i].customer in remaining
    decreases |remaining|
  {
    if remaining != [] {
      var c, index := Pick(pos, remaining, dist), PickIndex(pos, remaining, dist);
      var rest := Without(remaining, index);
      ApproxFromCandidates(c.coords, rest, dist);
      CustomersCons(Approx(pos, remaining, dist), S.Leg(c, dist(pos, c.coords)), Approx(c.coords, rest, dist), rest, remaining, index);
    }
  }

  lemma CustomersCons(r: seq<S.Leg>, l: S.Leg, tail: seq<S.Leg>, rest: seq<S.Stop>, remaining: seq<S.Stop>, index: nat)
    requires r == [l] + tail && l.customer in remaining
    requires index < |remaining| && rest == Without(remaining, index)
    requires |tail| == |rest| && forall i :: 0 <= i < |rest| ==> tail[i].customer in rest
    ensures forall i :: 0 <= i < |r| ==> r[i].customer in remaining
  {
    forall i | 0 <= i < |r| ensures r[i].customer in remaining {
      if i > 0 {
        assert r[i] == tail[i - 1];
        var m :| 0 <= m < |rest| && rest[m] == tail[i - 1].customer;
        if m < index {
          assert rest[m] == remaining[m];
        } else {
          assert rest[m] == remaining[m + 1];
        }
      }
    }
  }

  /** Where the walk stands when leg i is chosen: the position it leaves
      from and the candidates still remaining. */
  function Walk(pos: Coord, remaining: seq<S.Stop>, dist: (Coord, Coord) -> nat, i: nat): (w: (Coord, seq<S.Stop>))
    requires i <= |remaining|
    ensures |w.1| == |remaining| - i
    decreases i
  {
    if i == 0 then (pos, remaining)
    else
      var w := Walk(pos, remaining, dist, i - 1);
      (Pick(w.0, w.1, dist).coords, Without(w.1, PickIndex(w.0, w.1, dist)))
  }

  /** From leg i on, the route is the walk started afresh from where it
      stands when leg i is chosen, and that position is where leg i - 1 ended. */
  lemma ApproxSuffix(pos: Coord, remaining: seq<S.Stop>, dist: (Coord, Coord) -> nat, i: nat, r: seq<S.Leg>)
    requires i <= |remaining| && r == Approx(pos, remaining, dist)
    ensures S.Before(pos, r, i) == Walk(pos, remaining, dist, i).0
    ensures r[i..] == Approx(Walk(pos, remaining, dist, i).0, Walk(pos, remaining, dist, i).1, dist)
  {
    assert r[0..] == r;
    var j := 0;
    while j < i
      invariant j <= i
      invariant S.Before(pos, r, j) == Walk(pos, remaining, dist, j).0
      invariant r[j..] == Approx(Walk(pos, remaining, dist, j).0, Walk(pos, remaining, dist, j).1, dist)
    {
      var w := Walk(pos, remaining, dist, j);
      WalkStep(r, j + 1, w.0, w.1, dist);
      j := j + 1;
    }
  }

  /** One step of the walk seen from the route: leg i - 1 goes to the picked
      candidate, and the route from leg i on walks what is left. */
  lemma WalkStep(r: seq<S.Leg>, i: nat, from: Coord, left: seq<S.Stop>, dist: (Coord, Coord) -> nat)
    requires 0 < i <= |r| && left != [] && r[i - 1..] == Approx(from, left, dist)
    ensures r[i - 1].customer == Pick(from, left, dist)
    ensures r[i..] == Approx(Pick(from, left, dist).coords, Without(left, PickIndex(from, left, dist)), dist)
  {
    var c := Pick(from, left, dist);
    var t := Approx(from, left, dist);
    assert t == [S.Leg(c, dist(from, c.coords))] + Approx(c.coords, Without(left, PickIndex(from, left, dist)), dist);
    assert r[i - 1] == t[0] && r[i..] == t[1..];
  }

  /** Leg i goes to a candidate still remaining at minimal distance from
      where leg i - 1 ended, listed before every other remaining candidate
      at that distance, and records that distance. */
  lemma ApproxLegIsNearest(pos: Coord, remaining: seq<S.Stop>, dist: (Coord, Coord) -> nat, i: nat)
    requires i < |remaining|
    ensures S.NearestFirst(Approx(pos, remaining, dist)[i].distance, Approx(pos, remaining, dist)[i].customer,
                           S.Before(pos, Approx(pos, remaining, dist), i), Walk(pos, remaining, dist, i).1, dist)
    ensures Approx(pos, remaining, dist)[i].distance
            == dist(S.Before(pos, Approx(pos, remaining, dist), i), Approx(pos, remaining, dist)[i].customer.coords)
  {
    var r := Approx(pos, remaining, dist);
    var from, left := S.Before(pos, r, i), Walk(pos, remaining, dist, i).1;
    ApproxSuffix(pos, remaining, dist, i, r);
    assert r[i] == r[i..][0] == Approx(from, left, dist)[0];
    assert Approx(from, left, dist)[0] == S.Leg(Pick(from, left, dist), dist(from, Pick(from, left, dist).coords));
    S.ScanIsNearestFirst(from, left, dist);
  }

  // ---------------------------------------------------------------------
  // The route of a day

  /** The day's candidates: the customers that have coordinates, of the
      pending appointments on the route's calendar day. */
  function Candidates(date: int, appointments: seq<S.Appointment>): seq<S.Stop>
  {
    S.Stops(Filter(appointments, PendingOnDay(DayOf(date))))
  }

  /** `computeApproxRoute`: no route at all (`undefined`) when there are
      candidates but no stored start position; otherwise the greedy walk
      from the stored position, which is empty when there are no candidates. */
  function ApproxRoute(date: int, appointments: seq<S.Appointment>, stored: Option<Coord>, dist: (Coord, Coord) -> nat)
    : Option<seq<S.Leg>>
  {
    var forDate := Filter(appointments, PendingOnDay(DayOf(date)));
    if forDate == [] then Some([])
    else
      var valid := S.Stops(forDate);
      if valid == [] then Some([])
      else if stored.None? then None
      else Some(Approx(stored.value, valid, dist))
  }

  method ComputeApproxRoute(date: int, appointments: seq<S.Appointment>, stored: Option<Coord>, dist: (Coord, Coord) -> nat)
      returns (r: Option<seq<S.Leg>>)
    ensures r == ApproxRoute(date, appointments, stored, dist)
  {
    var forDate := Filter(appointments, PendingOnDay(DayOf(date)));
    if forDate == [] {
      return Some([]);
    }
    var valid := S.Stops(forDate);
    if valid == [] {
      return Some([]);
    }
    if stored.None? {
      return None;
    }
    var route := ApproxLoop(stored.value, valid, dist);
    r := Some(route);
  }

  /** A candidate is the customer, with coordinates, of a pending appointment on that day. */
  lemma CandidateIsBooked(date: int, appointments: seq<S.Appointment>, c: S.Stop)
    requires c in Candidates(date, appointments)
    ensures exists a :: a in appointments && DayOf(a.scheduledTime) == DayOf(date) && a.status == Pending &&
                        a.customer.coords.Some? && c == S.StopOf(a)
  {
    var forDate := Filter(appointments, PendingOnDay(DayOf(date)));
    var i :| 0 <= i < |Candidates(date, appointments)| && Candidates(date, appointments)[i] == c;
    var j :| 0 <= j < |forDate| && forDate[j].customer.coords.Some? && c == S.StopOf(forDate[j]);
    assert PendingOnDay(DayOf(date))(forDate[j]);
  }

  /** No route exactly when there are candidates and no stored start; a
      route has one leg per candidate entry, each going to a candidate. */
  lemma ApproxRouteOutcome(date: int, appointments: seq<S.Appointment>, stored: Option<Coord>, dist: (Coord, Coord) -> nat)
    ensures ApproxRoute(date, appointments, stored, dist).None? <==> Candidates(date, appointments) != [] && stored.None?
    ensures Candidates(date, appointments) == [] ==> ApproxRoute(date, appointments, stored, dist) == Some([])
    ensures ApproxRoute(date, appointments, stored, dist).Some? ==>
              var legs := ApproxRoute(date, appointments, stored, dist).value;
              multiset(LegIds(legs)) == multiset(StopIds(Candidates(date, appointments))) &&
              forall i :: 0 <= i < |legs| ==> legs[i].customer in Candidates(date, appointments)
  {
    var valid := Candidates(date, appointments);
    if valid != [] && stored.Some? {
      ApproxIds(stored.value, valid, dist);
      ApproxFromCandidates(stored.value, valid, dist);
    }
  }

  // ---------------------------------------------------------------------
  // The scheduled route

  /** `toISOString()` on an Invalid Date throws a RangeError. */
  datatype DateError = InvalidDate

  /** `new Date(t + minutes * 60000)`: not a finite time once either part is
      not (`None`), since `Infinity` minutes give an Invalid Date, which then stays invalid. */
  function Advance(clock: Option<int>, minutes: Option<nat>): Option<int>
  {
    if clock.Some? && minutes.Some? then Some(clock.value + minutes.value * MsPerMinute) else None
  }

  /** The arrival time of each leg in turn: the travel time from where the
      previous leg ended, then the working time; the position always moves
      on to the leg's customer. */
  function ClientArrivals(legs: seq<S.Leg>, clock: Option<int>, pos: Coord, travel: (Coord, Coord) -> Option<nat>)
    : (r: seq<Option<int>>)
    ensures |r| == |legs|
    decreases |legs|
  {
    if legs == [] then []
    else
      var c := legs[0].customer;
      var at := Advance(clock, travel(pos, c.coords));
      [at] + ClientArrivals(legs[1..], Advance(at, Some(S.WorkingTime)), c.coords, travel)
  }

  /** The `scheduledTimes` dictionary the loop fills: each leg writes its
      customer's entry, so a later leg overwrites an earlier one. */
  function TimesOf(legs: seq<S.Leg>, arrivals: seq<Option<int>>): map<string, Option<int>>
    requires |arrivals| == |legs|
  {
    if legs == [] then map[]
    else TimesOf(legs[..|legs| - 1], arrivals[..|legs| - 1])[legs[|legs| - 1].customer.id := arrivals[|legs| - 1]]
  }

  /** The start position: the stored one, else the first leg's customer. */
  function ScheduleStart(stored: Option<Coord>, route: seq<S.Leg>): Coord
    requires route != []
  {
    if stored.Some? then stored.value else route[0].customer.coords
  }

  /** 08:00:00.000 on the route's day. */
  function BaseTime(date: int): (t: int)
    ensures DayOf(t) == DayOf(date) && t % MsPerDay == S.DayStartHour * MsPerHour
  {
    TimeOfDayIsOnThatDay(DayOf(date), S.DayStartHour, 0, 0, 0);
    TimeOfDay(DayOf(date), S.DayStartHour, 0, 0, 0)
  }

  /** The loop over the legs. */
  method ScheduleTimes(route: seq<S.Leg>, start: Coord, base: int, travel: (Coord, Coord) -> Option<nat>)
      returns (scheduledTimes: map<string, Option<int>>)
    ensures scheduledTimes == TimesOf(route, ClientArrivals(route, Some(base), start, travel))
  {
    var currentTime: Option<int> := Some(base);
    var previousLocation := start;
    scheduledTimes := map[];
    ghost var arrivals: seq<Option<int>> := [];
    for i := 0 to |route|
      invariant |arrivals| == i
      invariant arrivals + ClientArrivals(route[i..], currentTime, previousLocation, travel)
                == ClientArrivals(route, Some(base), start, travel)
      invariant scheduledTimes == TimesOf(route[..i], arrivals)
    {
      var leg := route[i];
      var travelTime := travel(previousLocation, leg.customer.coords);
      ghost var clock, pos, done, before := currentTime, previousLocation, arrivals, scheduledTimes;
      currentTime := Advance(currentTime, travelTime);
      scheduledTimes := scheduledTimes[leg.customer.id := currentTime];
      arrivals := arrivals + [currentTime];
      currentTime := Advance(currentTime, Some(S.WorkingTime));
      previousLocation := leg.customer.coords;
      ArrivalsStep(route, i, done, clock, pos, travel, ClientArrivals(route, Some(base), start, travel), arrivals, currentTime);
      TimesStep(route, i, done, before, arrivals, scheduledTimes);
    }
    assert route[..|route|] == route && route[|route|..] == [];
    assert arrivals == ClientArrivals(route, Some(base), start, travel);
  }

  lemma ArrivalsStep(route: seq<S.Leg>, i: nat, done: seq<Option<int>>, clock: Option<int>, pos: Coord,
                     travel: (Coord, Coord) -> Option<nat>, whole: seq<Option<int>>, arrivals: seq<Option<int>>, next: Option<int>)
    requires i < |route| && done + ClientArrivals(route[i..], clock, pos, travel) == whole
    requires arrivals == done + [Advance(clock, travel(pos, route[i].customer.coords))]
    requires next == Advance(arrivals[|arrivals| - 1], Some(S.WorkingTime))
    ensures arrivals + ClientArrivals(route[i + 1..], next, route[i].customer.coords, travel) == whole
  {
    assert route[i..][1..] == route[i + 1..];
    AppendAssociates(done, [arrivals[|arrivals| - 1]], ClientArrivals(route[i + 1..], next, route[i].customer.coords, travel));
  }

  lemma TimesStep(route: seq<S.Leg>, i: nat, done: seq<Option<int>>, before: map<string, Option<int>>,
                  arrivals: seq<Option<int>>, times: map<string, Option<int>>)
    requires i < |route| && |done| == i && before == TimesOf(route[..i], done)
    requires |arrivals| == i + 1 && arrivals[..i] == done
    requires times == before[route[i].customer.id := arrivals[i]]
    ensures times == TimesOf(route[..i + 1], arrivals)
  {
    var legs := route[..i + 1];
    assert legs[..i] == route[..i] && legs[i] == route[i] && |legs| - 1 == i;
    assert TimesOf(legs, arrivals) == TimesOf(legs[..i], arrivals[..i])[legs[i].customer.id := arrivals[i]];
  }

  /** Once the clock is not finite, no later arrival is either. */
  lemma {:induction false} UnknownClock(legs: seq<S.Leg>, pos: Coord, travel: (Coord, Coord) -> Option<nat>)
    ensures forall k :: 0 <= k < |legs| ==> ClientArrivals(legs, None, pos, travel)[k].None?
    decreases |legs|
  {
    if legs != [] {
      var c := legs[0].customer;
      UnknownClock(legs[1..], c.coords, travel);
      assert ClientArrivals(legs, None, pos, travel) == [None] + ClientArrivals(legs[1..], None, c.coords, travel);
    }
  }

  /** The first k + 1 legs are reachable exactly when the first one is and,
      from its customer, the k after it are. */
  lemma ReachableCons(legs: seq<S.Leg>, pos: Coord, travel: (Coord, Coord) -> Option<nat>, k: nat)
    requires k < |legs|
    ensures S.AllReachable(legs[..k + 1], pos, travel)
            <==> travel(pos, legs[0].customer.coords).Some? && S.AllReachable(legs[1..][..k], legs[0].customer.coords, travel)
  {
    var c := legs[0].customer;
    var front, tl := legs[..k + 1], legs[1..][..k];
    assert S.Before(pos, front, 0) == pos && front[0] == legs[0];
    assert forall j :: 0 <= j < k ==> S.Before(pos, front, j + 1) == S.Before(c.coords, tl, j) && front[j + 1] == tl[j];
    if travel(pos, c.coords).Some? && S.AllReachable(tl, c.coords, travel) {
      forall j | 0 <= j < |front| ensures travel(S.Before(pos, front, j), front[j].customer.coords).Some? {
        if j > 0 {
          assert travel(S.Before(c.coords, tl, j - 1), tl[j - 1].customer.coords).Some?;
        }
      }
    }
    if S.AllReachable(front, pos, travel) {
      assert travel(S.Before(pos, front, 0), front[0].customer.coords).Some?;
      forall j | 0 <= j < |tl| ensures travel(S.Before(c.coords, tl, j), tl[j].customer.coords).Some? {
        assert travel(S.Before(pos, front, j + 1), front[j + 1].customer.coords).Some?;
      }
    }
  }

  /** Leg k's arrival is a finite time exactly when each of legs 0..k is
      reachable from where the one before it ended. */
  lemma {:induction false} ArrivalKnown(legs: seq<S.Leg>, clock: int, pos: Coord, travel: (Coord, Coord) -> Option<nat>, k: nat)
    requires k < |legs|
    ensures ClientArrivals(legs, Some(clock), pos, travel)[k].Some? <==> S.AllReachable(legs[..k + 1], pos, travel)
    decreases k
  {
    var c := legs[0].customer;
    var at := Advance(Some(clock), travel(pos, c.coords));
    var later := ClientArrivals(legs[1..], Advance(at, Some(S.WorkingTime)), c.coords, travel);
    var arrivals := ClientArrivals(legs, Some(clock), pos, travel);
    assert arrivals == [at] + later;
    assert at.Some? <==> travel(pos, c.coords).Some?;
    ReachableCons(legs, pos, travel, k);
    if k == 0 {
      assert arrivals[k] == at;
      assert legs[1..][..0] == [];
    } else {
      assert arrivals[k] == later[k - 1];
      if at.Some? {
        assert Advance(at, Some(S.WorkingTime)) == Some(at.value + S.WorkingTime * MsPerMinute);
        ArrivalKnown(legs[1..], at.value + S.WorkingTime * MsPerMinute, c.coords, travel, k - 1);
      } else {
        UnknownClock(legs[1..], c.coords, travel);
      }
    }
  }

  /** The legs before a reachable prefix's end are a reachable prefix too. */
  lemma ReachablePrefix(legs: seq<S.Leg>, pos: Coord, travel: (Coord, Coord) -> Option<nat>, j: nat, k: nat)
    requires j <= k < |legs| && S.AllReachable(legs[..k + 1], pos, travel)
    ensures S.AllReachable(legs[..j + 1], pos, travel)
  {
    var long, short := legs[..k + 1], legs[..j + 1];
    forall m | 0 <= m < |short| ensures travel(S.Before(pos, short, m), short[m].customer.coords).Some? {
      assert S.Before(pos, short, m) == S.Before(pos, long, m) && short[m] == long[m];
    }
  }

  /** An Invalid Date propagates: after an unreachable leg, no arrival is known. */
  lemma ArrivalsStayUnknown(legs: seq<S.Leg>, clock: int, pos: Coord, travel: (Coord, Coord) -> Option<nat>, j: nat)
    requires j < |legs| && ClientArrivals(legs, Some(clock), pos, travel)[j].None?
    ensures forall k :: j <= k < |legs| ==> ClientArrivals(legs, Some(clock), pos, travel)[k].None?
  {
    forall k | j <= k < |legs| ensures ClientArrivals(legs, Some(clock), pos, travel)[k].None? {
      ArrivalKnown(legs, clock, pos, travel, j);
      ArrivalKnown(legs, clock, pos, travel, k);
      if ClientArrivals(legs, Some(clock), pos, travel)[k].Some? {
        ReachablePrefix(legs, pos, travel, j, k);
      }
    }
  }

  /** With every leg reachable, the client's arrivals are the server's
      visit times for the same legs. */
  lemma {:induction false} ArrivalsAsTimeline(legs: seq<S.Leg>, clock: int, pos: Coord, travel: (Coord, Coord) -> Option<nat>)
    requires S.AllReachable(legs, pos, travel)
    ensures |S.Timeline(legs, clock, pos, travel)| == |legs|
    ensures forall k :: 0 <= k < |legs| ==>
              ClientArrivals(legs, Some(clock), pos, travel)[k] == Some(S.Timeline(legs, clock, pos, travel)[k].at)
    decreases |legs|
  {
    if legs != [] {
      var c := legs[0].customer;
      S.TravelTimesTail(legs, pos, travel);
      var at := clock + travel(pos, c.coords).value * MsPerMinute;
      var next := at + S.WorkingTime * MsPerMinute;
      ArrivalsAsTimeline(legs[1..], next, c.coords, travel);
      var v, rest := S.Timeline(legs, clock, pos, travel), S.Timeline(legs[1..], next, c.coords, travel);
      var a, later := ClientArrivals(legs, Some(clock), pos, travel), ClientArrivals(legs[1..], Some(next), c.coords, travel);
      assert v == [S.Visit(c, at)] + rest;
      assert a == [Some(at)] + later;
      forall k | 0 <= k < |legs| ensures a[k] == Some(v[k].at) {
        if k > 0 {
          assert a[k] == later[k - 1] && v[k] == rest[k - 1];
        }
      }
    }
  }

  /** Leg k is reached at the start clock plus the travel times of legs
      0..k plus k working times. */
  ghost predicate ArrivalsAddUp(arrivals: seq<Option<int>>, times: seq<nat>, clock: int)
  {
    |arrivals| == |times| &&
    forall k :: 0 <= k < |arrivals| ==>
      arrivals[k] == Some(clock + (Sum(times[..k + 1]) + S.WorkingTime * k) * MsPerMinute)
  }

  /** With every leg reachable, each arrival is 08:00 (the clock it starts
      from) plus the travel times so far plus one working time per earlier leg. */
  lemma {:induction false} ArrivalsClosedForm(legs: seq<S.Leg>, clock: int, pos: Coord, travel: (Coord, Coord) -> Option<nat>)
    requires S.AllReachable(legs, pos, travel)
    ensures ArrivalsAddUp(ClientArrivals(legs, Some(clock), pos, travel), S.TravelTimes(legs, pos, travel), clock)
    decreases |legs|
  {
    if legs != [] {
      var c := legs[0].customer;
      S.TravelTimesTail(legs, pos, travel);
      var t := travel(pos, c.coords).value;
      var next := clock + t * MsPerMinute + S.WorkingTime * MsPerMinute;
      ArrivalsClosedForm(legs[1..], next, c.coords, travel);
      assert ClientArrivals(legs, Some(clock), pos, travel)
             == [Some(clock + t * MsPerMinute)] + ClientArrivals(legs[1..], Some(next), c.coords, travel);
      AddUpCons(ClientArrivals(legs, Some(clock), pos, travel), ClientArrivals(legs[1..], Some(next), c.coords, travel),
                S.TravelTimes(legs, pos, travel), S.TravelTimes(legs[1..], c.coords, travel), t, clock, next);
    }
  }

  lemma AddUpCons(arrivals: seq<Option<int>>, rest: seq<Option<int>>, times: seq<nat>, ts: seq<nat>, t: nat, clock: int, next: int)
    requires ArrivalsAddUp(rest, ts, next)
    requires arrivals == [Some(clock + t * MsPerMinute)] + rest
    requires times == [t] + ts && next == clock + t * MsPerMinute + S.WorkingTime * MsPerMinute
    ensures ArrivalsAddUp(arrivals, times, clock)
  {
    forall k | 0 <= k < |arrivals|
      ensures arrivals[k] == Some(clock + (Sum(times[..k + 1]) + S.WorkingTime * k) * MsPerMinute)
    {
      assert times[..k + 1] == [t] + ts[..k];
      SumCons(t, ts[..k]);
      if k == 0 {
        assert ts[..0] == [];
      } else {
        assert arrivals[k] == rest[k - 1];
        assert ts[..k] == ts[..(k - 1) + 1];
      }
    }
  }

  /** The dictionary has an entry for exactly the route's customer ids. */
  lemma {:induction false} TimesOfKeys(legs: seq<S.Leg>, arrivals: seq<Option<int>>)
    requires |arrivals| == |legs|
    ensures forall id :: id in TimesOf(legs, arrivals) <==> id in LegIds(legs)
    decreases |legs|
  {
    if legs != [] {
      var n := |legs| - 1;
      TimesOfKeys(legs[..n], arrivals[..n]);
      assert LegIds(legs) == LegIds(legs[..n]) + [legs[n].customer.id];
    }
  }

  /** A customer's entry is the arrival of the last leg to that customer. */
  lemma {:induction false} LastLegWins(legs: seq<S.Leg>, arrivals: seq<Option<int>>, j: nat)
    requires |arrivals| == |legs| && j < |legs|
    requires forall k :: j < k < |legs| ==> legs[k].customer.id != legs[j].customer.id
    ensures legs[j].customer.id in TimesOf(legs, arrivals)
    ensures TimesOf(legs, arrivals)[legs[j].customer.id] == arrivals[j]
    decreases |legs|
  {
    var n := |legs| - 1;
    if j < n {
      LastLegWins(legs[..n], arrivals[..n], j);
    }
  }

  /** Leg j is the route's last leg to customer `id`. */
  ghost predicate LastLegTo(legs: seq<S.Leg>, j: int, id: string)
  {
    0 <= j < |legs| && legs[j].customer.id == id &&
    forall k :: j < k < |legs| ==> legs[k].customer.id != id
  }

  /** Every entry is the arrival of the last leg to that customer. */
  lemma {:induction false} TimesOfValue(legs: seq<S.Leg>, arrivals: seq<Option<int>>, id: string)
    requires |arrivals| == |legs| && id in TimesOf(legs, arrivals)
    ensures exists j :: LastLegTo(legs, j, id) && TimesOf(legs, arrivals)[id] == arrivals[j]
    decreases |legs|
  {
    var n := |legs| - 1;
    if legs[n].customer.id == id {
      assert LastLegTo(legs, n, id);
    } else {
      TimesOfValue(legs[..n], arrivals[..n], id);
      var j :| LastLegTo(legs[..n], j, id) && TimesOf(legs[..n], arrivals[..n])[id] == arrivals[..n][j];
      assert legs[j] == legs[..n][j] && arrivals[j] == arrivals[..n][j];
      assert forall k :: j < k < n ==> legs[k] == legs[..n][k];
      assert LastLegTo(legs, j, id);
    }
  }

  /** One appointment of the final `map`: retimed when its customer has an
      entry, which fails when that entry is an Invalid Date. */
  function RetimeOne(a: S.Appointment, times: map<string, Option<int>>): (r: Result<S.Appointment, DateError>)
    ensures r.Ok? ==> r.value == a.(scheduledTime := r.value.scheduledTime)
    ensures a.customer.id !in times ==> r == Ok(a)
  {
    if a.customer.id !in times then Ok(a)
    else
      match times[a.customer.id]
      case None => Err(InvalidDate)
      case Some(t) => Ok(a.(scheduledTime := t))
  }

  /** `appointments.map(...)`, which throws at the first Invalid Date. */
  function ApplyTimes(appointments: seq<S.Appointment>, times: map<string, Option<int>>): Result<seq<S.Appointment>, DateError>
    decreases |appointments|
  {
    if appointments == [] then Ok([])
    else
      match RetimeOne(appointments[0], times)
      case Err(e) => Err(e)
      case Ok(a) =>
        match ApplyTimes(appointments[1..], times)
        case Err(e) => Err(e)
        case Ok(rest) => Ok([a] + rest)
  }

  /** The map fails exactly when some appointment meets an Invalid Date;
      otherwise it keeps length and order and retimes each appointment on its own. */
  lemma {:induction false} ApplyTimesOutcome(appointments: seq<S.Appointment>, times: map<string, Option<int>>)
    ensures ApplyTimes(appointments, times).Err? <==>
              exists i :: 0 <= i < |appointments| && RetimeOne(appointments[i], times).Err?
    ensures ApplyTimes(appointments, times).Ok? ==>
              |ApplyTimes(appointments, times).value| == |appointments| &&
              forall i :: 0 <= i < |appointments| ==> Ok(ApplyTimes(appointments, times).value[i]) == RetimeOne(appointments[i], times)
    decreases |appointments|
  {
    if appointments != [] {
      ApplyTimesOutcome(appointments[1..], times);
      var tl := appointments[1..];
      assert forall i :: 1 <= i < |appointments| ==> appointments[i] == tl[i - 1];
      if ApplyTimes(appointments, times).Ok? {
        var u, rest := ApplyTimes(appointments, times).value, ApplyTimes(tl, times).value;
        assert u == [RetimeOne(appointments[0], times).value] + rest;
        forall i | 0 <= i < |appointments| ensures Ok(u[i]) == RetimeOne(appointments[i], times) {
          if i > 0 {
            assert u[i] == rest[i - 1];
          }
        }
      }
      if RetimeOne(appointments[0], times).Ok? && exists i :: 0 <= i < |appointments| && RetimeOne(appointments[i], times).Err? {
        var i :| 0 <= i < |appointments| && RetimeOne(appointments[i], times).Err?;
        assert RetimeOne(tl[i - 1], times).Err?;
      }
    }
  }

  /** `computeScheduledRoute`: the appointments unchanged when there is no
      route or an empty one; otherwise every appointment of a routed
      customer carries that customer's arrival time, starting from 08:00 on
      the route's day. The write to the server is not part of this model. */
  function ScheduledRoute(date: int, appointments: seq<S.Appointment>, stored: Option<Coord>,
                          dist: (Coord, Coord) -> nat, travel: (Coord, Coord) -> Option<nat>)
    : Result<seq<S.Appointment>, DateError>
  {
    match ApproxRoute(date, appointments, stored, dist)
    case None => Ok(appointments)
    case Some(route) =>
      if route == [] then Ok(appointments)
      else ApplyTimes(appointments, TimesOf(route, ClientArrivals(route, Some(BaseTime(date)), ScheduleStart(stored, route), travel)))
  }

  method ComputeScheduledRoute(date: int, appointments: seq<S.Appointment>, stored: Option<Coord>,
                               dist: (Coord, Coord) -> nat, travel: (Coord, Coord) -> Option<nat>)
      returns (r: Result<seq<S.Appointment>, DateError>)
    ensures r == ScheduledRoute(date, appointments, stored, dist, travel)
  {
    var approxRoute := ComputeApproxRoute(date, appointments, stored, dist);
    if approxRoute.None? || approxRoute.value == [] {
      return Ok(appointments);
    }
    var route := approxRoute.value;
    var startCoordinates := ScheduleStart(stored, route);
    var scheduledTimes := ScheduleTimes(route, startCoordinates, BaseTime(date), travel);
    r := ApplyTimes(appointments, scheduledTimes);
  }

  /** Each appointment after a successful retiming: only its time may
      differ; an appointment of a customer off the route keeps its time, and
      one of a routed customer gets the arrival of the route's last leg to
      that customer. */
  ghost predicate RetimedByRoute(u: seq<S.Appointment>, appointments: seq<S.Appointment>, route: seq<S.Leg>, arrivals: seq<Option<int>>)
  {
    |u| == |appointments| &&
    forall i :: 0 <= i < |appointments| ==>
      u[i] == appointments[i].(scheduledTime := u[i].scheduledTime) &&
      (appointments[i].customer.id !in LegIds(route) ==> u[i] == appointments[i]) &&
      (appointments[i].customer.id in LegIds(route) ==>
         exists j :: LastLegTo(route, j, appointments[i].customer.id) && j < |arrivals| && arrivals[j] == Some(u[i].scheduledTime))
  }

  /** The route's last leg reaches a customer with an appointment. */
  lemma LastLegBooked(date: int, appointments: seq<S.Appointment>, stored: Option<Coord>, dist: (Coord, Coord) -> nat, route: seq<S.Leg>)
    requires ApproxRoute(date, appointments, stored, dist) == Some(route) && route != []
    ensures exists i :: 0 <= i < |appointments| && appointments[i].customer.id == route[|route| - 1].customer.id
  {
    ApproxRouteOutcome(date, appointments, stored, dist);
    CandidateIsBooked(date, appointments, route[|route| - 1].customer);
    var a :| a in appointments && DayOf(a.scheduledTime) == DayOf(date) && a.status == Pending &&
             a.customer.coords.Some? && route[|route| - 1].customer == S.StopOf(a);
    var i :| 0 <= i < |appointments| && appointments[i] == a;
  }

  /** The last arrival is unknown exactly when some leg is unreachable,
      and an unknown arrival anywhere leaves the last one unknown. */
  lemma ArrivalsFail(legs: seq<S.Leg>, clock: int, pos: Coord, travel: (Coord, Coord) -> Option<nat>)
    requires legs != []
    ensures ClientArrivals(legs, Some(clock), pos, travel)[|legs| - 1].None? <==> !S.AllReachable(legs, pos, travel)
    ensures forall j :: 0 <= j < |legs| && ClientArrivals(legs, Some(clock), pos, travel)[j].None? ==>
              ClientArrivals(legs, Some(clock), pos, travel)[|legs| - 1].None?
  {
    var n := |legs| - 1;
    assert legs[..n + 1] == legs;
    ArrivalKnown(legs, clock, pos, travel, n);
    forall j | 0 <= j < |legs| && ClientArrivals(legs, Some(clock), pos, travel)[j].None?
      ensures ClientArrivals(legs, Some(clock), pos, travel)[n].None?
    {
      ArrivalsStayUnknown(legs, clock, pos, travel, j);
    }
  }

  /** Applying the dictionary fails exactly when the last leg's arrival is
      unknown, given that an unknown arrival anywhere makes the last one
      unknown and that the last leg's customer has an appointment. */
  lemma {:induction false} TimesFail(appointments: seq<S.Appointment>, route: seq<S.Leg>, arrivals: seq<Option<int>>)
    requires |arrivals| == |route| && route != []
    requires forall j :: 0 <= j < |route| && arrivals[j].None? ==> arrivals[|route| - 1].None?
    requires exists i :: 0 <= i < |appointments| && appointments[i].customer.id == route[|route| - 1].customer.id
    ensures ApplyTimes(appointments, TimesOf(route, arrivals)).Err? <==> arrivals[|route| - 1].None?
  {
    var times := TimesOf(route, arrivals);
    var n := |route| - 1;
    ApplyTimesOutcome(appointments, times);
    if arrivals[n].None? {
      LastLegWins(route, arrivals, n);
      var i :| 0 <= i < |appointments| && appointments[i].customer.id == route[n].customer.id;
      assert RetimeOne(appointments[i], times).Err?;
    }
    if ApplyTimes(appointments, times).Err? {
      var i :| 0 <= i < |appointments| && RetimeOne(appointments[i], times).Err?;
      TimesOfValue(route, arrivals, appointments[i].customer.id);
    }
  }

  /** With every arrival known, applying the dictionary succeeds and
      retimes as the route says. */
  lemma TimesApplied(appointments: seq<S.Appointment>, route: seq<S.Leg>, arrivals: seq<Option<int>>)
    requires |arrivals| == |route|
    requires forall j :: 0 <= j < |route| ==> arrivals[j].Some?
    ensures ApplyTimes(appointments, TimesOf(route, arrivals)).Ok?
    ensures RetimedByRoute(ApplyTimes(appointments, TimesOf(route, arrivals)).value, appointments, route, arrivals)
  {
    var times := TimesOf(route, arrivals);
    ApplyTimesOutcome(appointments, times);
    TimesOfKeys(route, arrivals);
    if ApplyTimes(appointments, times).Err? {
      var i :| 0 <= i < |appointments| && RetimeOne(appointments[i], times).Err?;
      TimesOfValue(route, arrivals, appointments[i].customer.id);
    }
    var u := ApplyTimes(appointments, times).value;
    forall i | 0 <= i < |appointments|
      ensures appointments[i].customer.id in LegIds(route) ==>
                exists j :: LastLegTo(route, j, appointments[i].customer.id) && j < |arrivals| && arrivals[j] == Some(u[i].scheduledTime)
    {
      var id := appointments[i].customer.id;
      if id in LegIds(route) {
        TimesOfValue(route, arrivals, id);
        var j :| LastLegTo(route, j, id) && times[id] == arrivals[j];
        assert Ok(u[i]) == RetimeOne(appointments[i], times);
      }
    }
  }

  /** Retiming fails exactly when some leg of the route is unreachable
      (an Infinity travel time gives an Invalid Date, which the last leg
      then carries into the dictionary). */
  lemma ScheduledRouteFails(date: int, appointments: seq<S.Appointment>, stored: Option<Coord>,
                            dist: (Coord, Coord) -> nat, travel: (Coord, Coord) -> Option<nat>, route: seq<S.Leg>)
    requires ApproxRoute(date, appointments, stored, dist) == Some(route) && route != []
    ensures ScheduledRoute(date, appointments, stored, dist, travel).Err?
            <==> !S.AllReachable(route, ScheduleStart(stored, route), travel)
  {
    var start := ScheduleStart(stored, route);
    var arrivals := ClientArrivals(route, Some(BaseTime(date)), start, travel);
    assert ScheduledRoute(date, appointments, stored, dist, travel) == ApplyTimes(appointments, TimesOf(route, arrivals));
    LastLegBooked(date, appointments, stored, dist, route);
    ArrivalsFail(route, BaseTime(date), start, travel);
    TimesFail(appointments, route, arrivals);
  }

  /** With every leg reachable, retiming succeeds; each appointment then
      differs at most in its time, which is the arrival of the route's last
      leg to its customer. */
  lemma ScheduledRouteTimes(date: int, appointments: seq<S.Appointment>, stored: Option<Coord>,
                            dist: (Coord, Coord) -> nat, travel: (Coord, Coord) -> Option<nat>, route: seq<S.Leg>)
    requires ApproxRoute(date, appointments, stored, dist) == Some(route) && route != []
    requires S.AllReachable(route, ScheduleStart(stored, route), travel)
    ensures ScheduledRoute(date, appointments, stored, dist, travel).Ok?
    ensures RetimedByRoute(ScheduledRoute(date, appointments, stored, dist, travel).value, appointments, route,
                           ClientArrivals(route, Some(BaseTime(date)), ScheduleStart(stored, route), travel))
  {
    var start := ScheduleStart(stored, route);
    var arrivals := ClientArrivals(route, Some(BaseTime(date)), start, travel);
    assert ScheduledRoute(date, appointments, stored, dist, travel) == ApplyTimes(appointments, TimesOf(route, arrivals));
    ArrivalsAsTimeline(route, BaseTime(date), start, travel);
    TimesApplied(appointments, route, arrivals);
  }

  // ---------------------------------------------------------------------
  // Today's queue

  /** `computeQueue`'s filter: today's appointments that are in progress. */
  function InProgressOn(day: int): S.Appointment -> bool
  {
    (a: S.Appointment) => DayOf(a.scheduledTime) == day && a.status == InProgress
  }

  /** An appointment with the coordinates the geocoder found for its
      customer's address, and the travel time to it from the technician's
      current location (None standing for Infinity). */
  datatype Entry = Entry(appointment: S.Appointment, coords: Option<Coord>, initialTravel: Option<nat>)

  /** Travel time from the previous point, minutes from now until arrival,
      and the 1-based position in the queue. */
  datatype QueueItem = QueueItem(entry: Entry, travelTime: Option<nat>, estimatedArrival: Option<nat>, queuePosition: nat)

  /** The two `Promise.all` maps: geocode each address, then time the trip
      from the current location to each one found. */
  function Entries(todays: seq<S.Appointment>, current: Coord, geocode: string -> Option<Coord>,
                   travel: (Coord, Coord) -> Option<nat>): (r: seq<Entry>)
    ensures |r| == |todays|
    ensures forall i :: 0 <= i < |todays| ==> r[i].appointment == todays[i]
  {
    seq(|todays|, i requires 0 <= i < |todays| =>
      var c := geocode(todays[i].customer.address);
      Entry(todays[i], c, if c.Some? then travel(current, c.value) else None))
  }

  /** The comparator `a.initialTravelTime - b.initialTravelTime` is not
      positive: Infinity comes after every finite time and ties with itself
      (Infinity - Infinity is NaN, which the sort reads as a tie). */
  predicate TravelLe(x: Option<nat>, y: Option<nat>)
  {
    y.None? || (x.Some? && x.value <= y.value)
  }

  /** Insert into a sorted list after the entries that sort strictly before. */
  function Insert(e: Entry, sorted: seq<Entry>): (r: seq<Entry>)
    ensures |r| == |sorted| + 1
  {
    if sorted == [] || TravelLe(e.initialTravel, sorted[0].initialTravel) then [e] + sorted
    else [sorted[0]] + Insert(e, sorted[1..])
  }

  /** `Array.prototype.sort` with that comparator, which is stable: the
      result is the only arrangement that is ordered, a permutation, and
      keeps entries with equal times in their order, so any stable sort
      defines it; this one inserts from the back. */
  function SortByTravel(entries: seq<Entry>): (r: seq<Entry>)
    ensures |r| == |entries|
  {
    if entries == [] then [] else Insert(entries[0], SortByTravel(entries[1..]))
  }

  ghost predicate SortedByTravel(s: seq<Entry>)
  {
    forall i, j :: 0 <= i < j < |s| ==> TravelLe(s[i].initialTravel, s[j].initialTravel)
  }

  function HasTravel(t: Option<nat>): Entry -> bool
  {
    (e: Entry) => e.initialTravel == t
  }

  lemma {:induction false} InsertPerm(e: Entry, sorted: seq<Entry>)
    ensures multiset(Insert(e, sorted)) == multiset{e} + multiset(sorted)
    decreases |sorted|
  {
    if sorted != [] && !TravelLe(e.initialTravel, sorted[0].initialTravel) {
      InsertPerm(e, sorted[1..]);
      assert sorted == [sorted[0]] + sorted[1..];
    }
  }

  lemma {:induction false} InsertSorted(e: Entry, sorted: seq<Entry>)
    requires SortedByTravel(sorted)
    ensures SortedByTravel(Insert(e, sorted))
    decreases |sorted|
  {
    if sorted == [] || TravelLe(e.initialTravel, sorted[0].initialTravel) {
      SortedCons(e, sorted);
    } else {
      var tl := sorted[1..];
      InsertSorted(e, tl);
      InsertPerm(e, tl);
      var ins := Insert(e, tl);
      forall j | 0 <= j < |ins| ensures TravelLe(sorted[0].initialTravel, ins[j].initialTravel) {
        assert ins[j] in multiset{e} + multiset(tl);
        if ins[j] != e {
          var m :| 0 <= m < |tl| && tl[m] == ins[j];
          assert tl[m] == sorted[m + 1];
        }
      }
      SortedCons(sorted[0], ins);
    }
  }

  /** An entry that sorts before all of a sorted list may go in front of it. */
  lemma SortedCons(e: Entry, s: seq<Entry>)
    requires SortedByTravel(s)
    requires forall j :: 0 <= j < |s| ==> TravelLe(e.initialTravel, s[j].initialTravel)
    ensures SortedByTravel([e] + s)
  {
    var r := [e] + s;
    forall i, j | 0 <= i < j < |r| ensures TravelLe(r[i].initialTravel, r[j].initialTravel) {
      assert r[j] == s[j - 1];
      if i > 0 {
        assert r[i] == s[i - 1];
      }
    }
  }

  /** Entries of one travel time keep their order through an insertion. */
  lemma {:induction false} InsertStable(e: Entry, sorted: seq<Entry>, t: Option<nat>)
    ensures Filter(Insert(e, sorted), HasTravel(t)) == (if e.initialTravel == t then [e] else []) + Filter(sorted, HasTravel(t))
    decreases |sorted|
  {
    if sorted == [] || TravelLe(e.initialTravel, sorted[0].initialTravel) {
      assert Insert(e, sorted) == [e] + sorted;
      assert ([e] + sorted)[1..] == sorted;
    } else {
      var r := Insert(e, sorted);
      InsertStable(e, sorted[1..], t);
      assert r == [sorted[0]] + Insert(e, sorted[1..]);
      assert r[1..] == Insert(e, sorted[1..]);
      // the skipped entry sorts strictly before e, so it has another time
      assert e.initialTravel == t ==> sorted[0].initialTravel != t;
    }
  }

  /** The queue order is sorted by initial travel time. */
  lemma {:induction false} SortIsSorted(entries: seq<Entry>)
    ensures SortedByTravel(SortByTravel(entries))
    decreases |entries|
  {
    if entries != [] {
      SortIsSorted(entries[1..]);
      InsertSorted(entries[0], SortByTravel(entries[1..]));
    }
  }

  /** Sorting neither drops nor adds an entry. */
  lemma {:induction false} SortIsPermutation(entries: seq<Entry>)
    ensures multiset(SortByTravel(entries)) == multiset(entries)
    decreases |entries|
  {
    if entries != [] {
      SortIsPermutation(entries[1..]);
      InsertPerm(entries[0], SortByTravel(entries[1..]));
      assert entries == [entries[0]] + entries[1..];
    }
  }

  /** Sorting is stable: entries with the same travel time stay in order. */
  lemma {:induction false} SortIsStable(entries: seq<Entry>, t: Option<nat>)
    ensures Filter(SortByTravel(entries), HasTravel(t)) == Filter(entries, HasTravel(t))
    decreases |entries|
  {
    if entries != [] {
      SortIsStable(entries[1..], t);
      InsertStable(entries[0], SortByTravel(entries[1..]), t);
    }
  }

  /** Minutes with Infinity as None: Infinity absorbs every addition. */
  function Plus(x: Option<nat>, y: Option<nat>): (r: Option<nat>)
    ensures r.Some? <==> x.Some? && y.Some?
  {
    if x.Some? && y.Some? then Some(x.value + y.value) else None
  }

  /** The `for` loop of `computeQueue` over the remaining sorted entries:
      the travel time from the previous point (Infinity without
      coordinates), the running total as the arrival, a working time
      added unless this is the last entry, and the previous point moved
      only to an entry that has coordinates. */
  function Queue(entries: seq<Entry>, prev: Coord, cumulative: Option<nat>, position: nat,
                 travel: (Coord, Coord) -> Option<nat>): (q: seq<QueueItem>)
    ensures |q| == |entries|
    decreases |entries|
  {
    if entries == [] then []
    else
      var e := entries[0];
      var travelTime := if e.coords.Some? then travel(prev, e.coords.value) else None;
      var arrival := Plus(cumulative, travelTime);
      var next := if |entries| > 1 then Plus(arrival, Some(S.WorkingTime)) else arrival;
      [QueueItem(e, travelTime, arrival, position + 1)]
      + Queue(entries[1..], if e.coords.Some? then e.coords.value else prev, next, position + 1, travel)
  }

  method BuildQueue(sorted: seq<Entry>, current: Coord, travel: (Coord, Coord) -> Option<nat>) returns (queueItems: seq<QueueItem>)
    ensures queueItems == Queue(sorted, current, Some(0), 0, travel)
  {
    queueItems := [];
    var previousLocation := current;
    var cumulativeTime: Option<nat> := Some(0);
    for i := 0 to |sorted|
      invariant queueItems + Queue(sorted[i..], previousLocation, cumulativeTime, i, travel) == Queue(sorted, current, Some(0), 0, travel)
    {
      var app := sorted[i];
      ghost var done, prev, cum := queueItems, previousLocation, cumulativeTime;
      var travelTime: Option<nat> := if app.coords.Some? then travel(previousLocation, app.coords.value) else None;
      cumulativeTime := Plus(cumulativeTime, travelTime);
      var estimatedArrival := cumulativeTime;
      var item := QueueItem(app, travelTime, estimatedArrival, i + 1);
      queueItems := queueItems + [item];
      if i < |sorted| - 1 {
        cumulativeTime := Plus(cumulativeTime, Some(S.WorkingTime));
      }
      if app.coords.Some? {
        previousLocation := app.coords.value;
      }
      QueueStep(sorted, i, prev, cum, travel, item, previousLocation, cumulativeTime);
      AppendAssociates(done, [item], Queue(sorted[i + 1..], previousLocation, cumulativeTime, i + 1, travel));
    }
  }

  /** One turn of the loop, as the first step of the recursion. */
  lemma QueueStep(sorted: seq<Entry>, i: nat, prev: Coord, cum: Option<nat>, travel: (Coord, Coord) -> Option<nat>,
                  item: QueueItem, prev': Coord, cum': Option<nat>)
    requires i < |sorted|
    requires var travelTime := if sorted[i].coords.Some? then travel(prev, sorted[i].coords.value) else None;
             item == QueueItem(sorted[i], travelTime, Plus(cum, travelTime), i + 1) &&
             cum' == (if i < |sorted| - 1 then Plus(Plus(cum, travelTime), Some(S.WorkingTime)) else Plus(cum, travelTime))
    requires prev' == if sorted[i].coords.Some? then sorted[i].coords.value else prev
    ensures Queue(sorted[i..], prev, cum, i, travel) == [item] + Queue(sorted[i + 1..], prev', cum', i + 1, travel)
  {
    var rest := sorted[i..];
    assert rest[0] == sorted[i] && rest[1..] == sorted[i + 1..];
    assert |rest| > 1 <==> i < |sorted| - 1;
  }

  /** The point the technician leaves from for entry i: the last earlier
      entry with coordinates, else the current location. */
  function From(current: Coord, entries: seq<Entry>, i: nat): Coord
    requires i <= |entries|
  {
    if i == 0 then current
    else if entries[i - 1].coords.Some? then entries[i - 1].coords.value
    else From(current, entries, i - 1)
  }

  /** Entry i's travel time: from where the technician leaves for it,
      Infinity when it has no coordinates. */
  function LegTravel(current: Coord, entries: seq<Entry>, i: nat, travel: (Coord, Coord) -> Option<nat>): Option<nat>
    requires i < |entries|
  {
    if entries[i].coords.Some? then travel(From(current, entries, i), entries[i].coords.value) else None
  }

  /** The travel times of entries 0..n-1 added up, Infinity absorbing. */
  function TravelSum(current: Coord, entries: seq<Entry>, n: nat, travel: (Coord, Coord) -> Option<nat>): Option<nat>
    requires n <= |entries|
  {
    if n == 0 then Some(0) else Plus(TravelSum(current, entries, n - 1, travel), LegTravel(current, entries, n - 1, travel))
  }

  /** The running total when entry i is reached: all earlier travel plus
      one working time per earlier entry. */
  function Elapsed(current: Coord, entries: seq<Entry>, i: nat, travel: (Coord, Coord) -> Option<nat>): Option<nat>
    requires i <= |entries|
  {
    Plus(TravelSum(current, entries, i, travel), Some(S.WorkingTime * i))
  }

  /** From item i on, the queue is the loop resumed where entry i is reached. */
  lemma QueueSuffix(entries: seq<Entry>, current: Coord, travel: (Coord, Coord) -> Option<nat>, i: nat, q: seq<QueueItem>)
    requires i <= |entries| && q == Queue(entries, current, Some(0), 0, travel)
    ensures q[i..] == Queue(entries[i..], From(current, entries, i), Elapsed(current, entries, i, travel), i, travel)
  {
    assert q[0..] == q && entries[0..] == entries;
    var j := 0;
    while j < i
      invariant j <= i
      invariant q[j..] == Queue(entries[j..], From(current, entries, j), Elapsed(current, entries, j, travel), j, travel)
    {
      QueueItemAt(entries, current, travel, j, q);
      j := j + 1;
    }
  }

  /** Item j of the queue, read off the loop resumed at entry j. */
  lemma QueueItemAt(entries: seq<Entry>, current: Coord, travel: (Coord, Coord) -> Option<nat>, j: nat, q: seq<QueueItem>)
    requires j < |entries| && |q| == |entries|
    requires q[j..] == Queue(entries[j..], From(current, entries, j), Elapsed(current, entries, j, travel), j, travel)
    ensures q[j] == QueueItem(entries[j], LegTravel(current, entries, j, travel),
                              Plus(Elapsed(current, entries, j, travel), LegTravel(current, entries, j, travel)), j + 1)
    ensures q[j + 1..] == Queue(entries[j + 1..], From(current, entries, j + 1), Elapsed(current, entries, j + 1, travel), j + 1, travel)
  {
    var rest := entries[j..];
    var t := LegTravel(current, entries, j, travel);
    var arrival := Plus(Elapsed(current, entries, j, travel), t);
    var next := if |rest| > 1 then Plus(arrival, Some(S.WorkingTime)) else arrival;
    assert rest[0] == entries[j] && rest[1..] == entries[j + 1..];
    assert q[j..] == [QueueItem(entries[j], t, arrival, j + 1)]
                     + Queue(entries[j + 1..], From(current, entries, j + 1), next, j + 1, travel);
    assert q[j] == q[j..][0] && q[j + 1..] == q[j..][1..];
    if |rest| > 1 {
      assert next == Elapsed(current, entries, j + 1, travel);
    } else {
      assert entries[j + 1..] == [];
    }
  }

  /** Item i holds entry i at position i + 1, the travel time from the
      last earlier point with coordinates (the current location for the
      first), and as arrival the travel times of items 0..i plus 30
      minutes for each earlier item; Infinity anywhere makes every later
      arrival Infinity. */
  lemma QueueClosedForm(entries: seq<Entry>, current: Coord, travel: (Coord, Coord) -> Option<nat>, i: nat)
    requires i < |entries|
    ensures Queue(entries, current, Some(0), 0, travel)[i]
            == QueueItem(entries[i], LegTravel(current, entries, i, travel),
                         Plus(TravelSum(current, entries, i + 1, travel), Some(S.WorkingTime * i)), i + 1)
  {
    var q := Queue(entries, current, Some(0), 0, travel);
    QueueSuffix(entries, current, travel, i, q);
    QueueItemAt(entries, current, travel, i, q);
  }

  /** An Infinity travel time makes every later arrival Infinity. */
  lemma {:induction false} TravelSumInfinite(current: Coord, entries: seq<Entry>, n: nat, travel: (Coord, Coord) -> Option<nat>, j: nat)
    requires j < n <= |entries| && LegTravel(current, entries, j, travel).None?
    ensures TravelSum(current, entries, n, travel).None?
    decreases n
  {
    if j < n - 1 {
      TravelSumInfinite(current, entries, n - 1, travel, j);
    }
  }

  /** Today's in-progress appointments. */
  function Todays(appointments: seq<S.Appointment>, now: int): seq<S.Appointment>
  {
    Filter(appointments, InProgressOn(DayOf(now)))
  }

  /** `computeQueue`: today's in-progress appointments, geocoded, timed
      from the current location, sorted by that time and walked in order. */
  function TodaysQueue(appointments: seq<S.Appointment>, now: int, current: Coord, geocode: string -> Option<Coord>,
                       travel: (Coord, Coord) -> Option<nat>): seq<QueueItem>
  {
    var todays := Todays(appointments, now);
    Queue(SortByTravel(Entries(todays, current, geocode, travel)), current, Some(0), 0, travel)
  }

  method ComputeQueue(appointments: seq<S.Appointment>, now: int, current: Coord, geocode: string -> Option<Coord>,
                      travel: (Coord, Coord) -> Option<nat>) returns (queueItems: seq<QueueItem>)
    ensures queueItems == TodaysQueue(appointments, now, current, geocode, travel)
  {
    var todaysAppointments := Todays(appointments, now);
    var appointmentsWithCoords := Entries(todaysAppointments, current, geocode, travel);
    var appointmentsSorted := SortByTravel(appointmentsWithCoords);
    queueItems := BuildQueue(appointmentsSorted, current, travel);
  }

  function EntriesOf(q: seq<QueueItem>): (r: seq<Entry>)
    ensures |r| == |q| && forall i :: 0 <= i < |q| ==> r[i] == q[i].entry
  {
    seq(|q|, i requires 0 <= i < |q| => q[i].entry)
  }

  /** Each item holds the sorted entry at its position, numbered from 1. */
  lemma QueueEntries(entries: seq<Entry>, current: Coord, travel: (Coord, Coord) -> Option<nat>)
    ensures EntriesOf(Queue(entries, current, Some(0), 0, travel)) == entries
    ensures forall i :: 0 <= i < |entries| ==> Queue(entries, current, Some(0), 0, travel)[i].queuePosition == i + 1
  {
    var q := Queue(entries, current, Some(0), 0, travel);
    forall i | 0 <= i < |entries| ensures q[i].entry == entries[i] && q[i].queuePosition == i + 1 {
      QueueClosedForm(entries, current, travel, i);
    }
  }

  /** Every entry comes from one of today's appointments. */
  lemma EntryFrom(todays: seq<S.Appointment>, current: Coord, geocode: string -> Option<Coord>,
                  travel: (Coord, Coord) -> Option<nat>, e: Entry)
    requires e in Entries(todays, current, geocode, travel)
    ensures e.appointment in todays
  {
    var r := Entries(todays, current, geocode, travel);
    var k :| 0 <= k < |r| && r[k] == e;
    assert e.appointment == todays[k];
  }

  /** Walking the sorted entries queues each entry once, in sorted and
      stable order, at positions 1, 2, ... */
  lemma SortedQueue(entries: seq<Entry>, current: Coord, travel: (Coord, Coord) -> Option<nat>, q: seq<QueueItem>)
    requires q == Queue(SortByTravel(entries), current, Some(0), 0, travel)
    ensures multiset(EntriesOf(q)) == multiset(entries)
    ensures SortedByTravel(EntriesOf(q))
    ensures forall t :: Filter(EntriesOf(q), HasTravel(t)) == Filter(entries, HasTravel(t))
    ensures forall i :: 0 <= i < |q| ==> q[i].queuePosition == i + 1 && q[i].entry in entries
  {
    QueueEntries(SortByTravel(entries), current, travel);
    SortIsSorted(entries);
    SortIsPermutation(entries);
    forall t ensures Filter(SortByTravel(entries), HasTravel(t)) == Filter(entries, HasTravel(t)) {
      SortIsStable(entries, t);
    }
    forall i | 0 <= i < |q| ensures q[i].entry in entries {
      assert q[i].entry in multiset(EntriesOf(q));
    }
  }

  /** The queue holds today's in-progress appointments, each once, ordered
      by initial travel time (Infinity last, ties in their original order),
      at positions 1, 2, ... */
  lemma QueueOutcome(appointments: seq<S.Appointment>, now: int, current: Coord, geocode: string -> Option<Coord>,
                     travel: (Coord, Coord) -> Option<nat>, q: seq<QueueItem>)
    requires q == TodaysQueue(appointments, now, current, geocode, travel)
    ensures |q| == |Todays(appointments, now)|
    ensures multiset(EntriesOf(q)) == multiset(Entries(Todays(appointments, now), current, geocode, travel))
    ensures SortedByTravel(EntriesOf(q))
    ensures forall t :: Filter(EntriesOf(q), HasTravel(t))
                        == Filter(Entries(Todays(appointments, now), current, geocode, travel), HasTravel(t))
    ensures forall i :: 0 <= i < |q| ==> q[i].queuePosition == i + 1 && q[i].entry.appointment in Todays(appointments, now)
  {
    var todays := Todays(appointments, now);
    var entries := Entries(todays, current, geocode, travel);
    SortedQueue(entries, current, travel, q);
    assert |multiset(EntriesOf(q))| == |entries|;
    forall i | 0 <= i < |q| ensures q[i].entry.appointment in todays {
      EntryFrom(todays, current, geocode, travel, q[i].entry);
    }
  }

  // ---------------------------------------------------------------------
  // The calendar's marked dates

  /** A calendar dot: its colour and the appointment id as its key. */
  datatype Dot = Dot(color: string, key: string)

  const Blue: string := "blue"

  function DotOf(a: S.Appointment): (d: Dot)
    ensures d.color == Blue && d.key == a.id
  {
    Dot(Blue, a.id)
  }

  /** The dots of a list of appointments, one per appointment, in order. */
  function DotsOf(appointments: seq<S.Appointment>): (r: seq<Dot>)
    ensures |r| == |appointments|
    ensures forall i :: 0 <= i < |appointments| ==> r[i] == DotOf(appointments[i])
  {
    seq(|appointments|, i requires 0 <= i < |appointments| => DotOf(appointments[i]))
  }

  /** The dots filed under a date so far (none when the key is absent). */
  function DotsAt(marked: map<int, seq<Dot>>, day: int): seq<Dot>
  {
    if day in marked then marked[day] else []
  }

  /** One step of the `forEach`: the appointment's dot is pushed onto its
      date's list, which is created when absent. */
  function Mark(marked: map<int, seq<Dot>>, a: S.Appointment): (m: map<int, seq<Dot>>)
    ensures m.Keys == marked.Keys + {DayOf(a.scheduledTime)}
    ensures forall d :: DotsAt(m, d) == DotsAt(marked, d) + (if d == DayOf(a.scheduledTime) then [DotOf(a)] else [])
  {
    var day := DayOf(a.scheduledTime);
    if day in marked then marked[day := marked[day] + [DotOf(a)]]
    else marked[day := [DotOf(a)]]
  }

  /** The marked dates after visiting the appointments in order, keyed by the
      UTC calendar day of the scheduled time. */
  function Marked(appointments: seq<S.Appointment>): map<int, seq<Dot>>
  {
    if appointments == [] then map[]
    else Mark(Marked(appointments[..|appointments| - 1]), appointments[|appointments| - 1])
  }

  method MarkedDates(appointments: seq<S.Appointment>) returns (markedDates: map<int, seq<Dot>>)
    ensures markedDates == Marked(appointments)
  {
    markedDates := map[];
    for i := 0 to |appointments|
      invariant markedDates == Marked(appointments[..i])
    {
      var appointment := appointments[i];
      var date := DayOf(appointment.scheduledTime);
      if date in markedDates {
        markedDates := markedDates[date := markedDates[date] + [DotOf(appointment)]];
      } else {
        markedDates := markedDates[date := [DotOf(appointment)]];
      }
      assert appointments[..i + 1][..i] == appointments[..i];
    }
    assert appointments[..|appointments|] == appointments;
  }

  lemma DotsOfAppend(s: seq<S.Appointment>, a: S.Appointment)
    ensures DotsOf(s + [a]) == DotsOf(s) + [DotOf(a)]
  {
    assert forall i :: 0 <= i < |s| ==> (s + [a])[i] == s[i];
  }

  /** A date carries, in order, one dot for each appointment whose scheduled
      time falls on it: exactly the day list shown when it is pressed. */
  lemma {:induction false} MarkedIsDaily(appointments: seq<S.Appointment>, day: int)
    ensures DotsAt(Marked(appointments), day) == DotsOf(DailyAppointments(appointments, day))
    ensures day in Marked(appointments) <==> DailyAppointments(appointments, day) != []
  {
    if appointments != [] {
      var init := appointments[..|appointments| - 1];
      var last := appointments[|appointments| - 1];
      assert appointments == init + [last];
      MarkedIsDaily(init, day);
      FilterAppend(init, last, OnDay(day));
      if OnDay(day)(last) {
        DotsOfAppend(DailyAppointments(init, day), last);
      }
    }
  }

  lemma SomeDate(marked: map<int, seq<Dot>>)
    ensures marked == map[] || exists day :: day in marked
  {
    if forall day :: day !in marked {
      assert marked == map[];
    }
  }

  /** The number of dots over all dates. */
  ghost function TotalDots(marked: map<int, seq<Dot>>): nat
    decreases |marked.Keys|
  {
    if marked == map[] then 0
    else
      SomeDate(marked);
      var day :| day in marked;
      assert (marked - {day}).Keys == marked.Keys - {day};
      |marked[day]| + TotalDots(marked - {day})
  }

  /** TotalDots may set aside any date first. */
  lemma {:induction false} TotalDotsAt(marked: map<int, seq<Dot>>, day: int)
    requires day in marked
    ensures TotalDots(marked) == |marked[day]| + TotalDots(marked - {day})
    decreases |marked.Keys|
  {
    var other :| other in marked && TotalDots(marked) == |marked[other]| + TotalDots(marked - {other});
    if other != day {
      assert (marked - {other}).Keys == marked.Keys - {other};
      assert (marked - {day}).Keys == marked.Keys - {day};
      TotalDotsAt(marked - {other}, day);
      TotalDotsAt(marked - {day}, other);
      assert marked - {other} - {day} == marked - {day} - {other};
    }
  }

  lemma MarkAddsOne(marked: map<int, seq<Dot>>, a: S.Appointment)
    ensures TotalDots(Mark(marked, a)) == TotalDots(marked) + 1
  {
    var day := DayOf(a.scheduledTime);
    var m := Mark(marked, a);
    TotalDotsAt(m, day);
    assert m - {day} == marked - {day};
    if day in marked {
      TotalDotsAt(marked, day);
    } else {
      assert marked - {day} == marked;
    }
  }

  /** Every appointment gets exactly one dot. */
  lemma {:induction false} MarkedCount(appointments: seq<S.Appointment>)
    ensures TotalDots(Marked(appointments)) == |appointments|
  {
    if appointments != [] {
      MarkedCount(appointments[..|appointments| - 1]);
      MarkAddsOne(Marked(appointments[..|appointments| - 1]), appointments[|appointments| - 1]);
    }
  }
}
