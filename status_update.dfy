/** The morning job that starts the day's work: every appointment still
    pending and scheduled from now until 23:59:59 today is set in progress.
    The stored appointments are an array updated in place; the query that
    selects them and the per-document save are the selection predicate
    and the array update. */
module StatusUpdate {
  import opened Common
  import S = Schedule

  /** `new Date(y, m, d, 23, 59, 59)`: 23:59:59.000 of now's day. */
  function EndOfDay(now: int): (e: int)
    ensures DayOf(e) == DayOf(now)
    ensures e == TimeOfDay(DayOf(now), 23, 59, 59, 0)
  {
    TimeOfDayIsOnThatDay(DayOf(now), 23, 59, 59, 0);
    TimeOfDay(DayOf(now), 23, 59, 59, 0)
  }

  /** The query: pending, and `now <= scheduledTime < endOfDay`. */
  predicate Selected(a: S.Appointment, now: int)
  {
    a.status == Pending && now <= a.scheduledTime < EndOfDay(now)
  }

  /** What the loop does to one appointment. */
  function Started(a: S.Appointment, now: int): (r: S.Appointment)
    ensures Selected(a, now) ==> r == a.(status := InProgress)
    ensures !Selected(a, now) ==> r == a
  {
    if Selected(a, now) then a.(status := InProgress) else a
  }

  /** The sweep starts exactly the selected appointments and touches no
      other field. */
  function StartAll(s: seq<S.Appointment>, now: int): (r: seq<S.Appointment>)
    ensures |r| == |s|
    ensures forall i :: 0 <= i < |s| ==>
              r[i].status == (if Selected(s[i], now) then InProgress else s[i].status) &&
              r[i].(status := s[i].status) == s[i]
  {
    seq(|s|, i requires 0 <= i < |s| => Started(s[i], now))
  }

  /** `updatePendingToInProgress` over the stored appointments. */
  method UpdatePendingToInProgress(appointments: array<S.Appointment>, now: int)
    modifies appointments
    ensures appointments[..] == StartAll(old(appointments[..]), now)
  {
    for i := 0 to appointments.Length
      invariant forall k :: 0 <= k < i ==> appointments[k] == Started(old(appointments[k]), now)
      invariant forall k :: i <= k < appointments.Length ==> appointments[k] == old(appointments[k])
    {
      if Selected(appointments[i], now) {
        appointments[i] := appointments[i].(status := InProgress);
      }
    }
  }

  /** A selected appointment is scheduled later on the same calendar day. */
  lemma SelectedIsToday(a: S.Appointment, now: int)
    requires Selected(a, now)
    ensures DayOf(a.scheduledTime) == DayOf(now) && a.scheduledTime >= now
  {
    assert DayOf(EndOfDay(now)) == DayOf(now);
    assert DayOf(now) <= DayOf(a.scheduledTime) <= DayOf(EndOfDay(now));
  }

  /** Running it again at the same instant changes nothing: nothing it
      selects is still pending. */
  lemma StartAllIdempotent(s: seq<S.Appointment>, now: int)
    ensures StartAll(StartAll(s, now), now) == StartAll(s, now)
  {
    var once := StartAll(s, now);
    forall i | 0 <= i < |s| ensures Started(once[i], now) == once[i] {
      assert !Selected(once[i], now);
    }
  }
}
