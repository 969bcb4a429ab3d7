/** The server's appointment routes that validate and build writes: creating
    an appointment, and turning a client's rescheduled appointments into a
    bulk write of their times. The creation route compares the request's
    raw time with the current time under JavaScript's coercions; the current
    time is a parameter. */
module Appointments {
  import opened Common
  import S = Schedule

  /** The `scheduledTime` of a request, as the JSON body delivers it: absent,
      a string (the client sends a `Date`, which JSON turns into its ISO
      string), or a number. */
  datatype RequestTime = NoTime | Text(text: string) | Number(value: int)

  /** The fields of a creation request; an absent or empty id is "". */
  datatype CreateBody = CreateBody(customerId: string, technicianId: string, companyId: string,
                                   scheduledTime: RequestTime, notes: Option<string>)

  /** The appointment document built for a valid request. */
  datatype NewAppointment = NewAppointment(customerId: string, technicianId: string, companyId: string,
                                           scheduledTime: RequestTime, notes: Option<string>, status: Status)

  /** The `appointments` field of an update request. */
  datatype Payload = Absent | NotAnArray | Items(appointments: seq<S.Appointment>)

  const MissingFields: Reply := Reply(400, "All fields are required")
  const PastTime: Reply := Reply(400, "Scheduled time must be in the future")
  const InvalidData: Reply := Reply(400, "Invalid appointments data")

  /** `!value` is false: a non-empty string or a non-zero number. */
  predicate Truthy(t: RequestTime)
  {
    match t
    case NoTime => false
    case Text(s) => s != ""
    case Number(n) => n != 0
  }

  predicate IsDigit(c: char)
  {
    '0' <= c <= '9'
  }

  predicate AllDigits(s: string)
  {
    forall i :: 0 <= i < |s| ==> IsDigit(s[i])
  }

  function DigitsValue(s: string): nat
    requires AllDigits(s)
    decreases |s|
  {
    if s == [] then 0 else DigitsValue(s[..|s| - 1]) * 10 + (s[|s| - 1] as int - '0' as int)
  }

  /** JavaScript's reading of a string as a number, on the decimal integers:
      the empty string is 0, an optional sign followed by digits is that
      integer, and a string with any other character past its first reads as
      NaN (`None`). */
  function NumberValue(s: string): (r: Option<int>)
    ensures s == "" ==> r == Some(0)
    ensures r.Some? ==> forall i :: 0 < i < |s| ==> IsDigit(s[i])
    ensures r.Some? && s != "" ==> IsDigit(s[0]) || s[0] == '-' || s[0] == '+'
  {
    if s == "" then Some(0)
    else if s[0] == '-' || s[0] == '+' then
      if |s| > 1 && AllDigits(s[1..]) then
        var d: int := DigitsValue(s[1..]);
        Some(if s[0] == '-' then -d else d)
      else None
    else if AllDigits(s) then Some(DigitsValue(s))
    else None
  }

  /** The decimal digits of a natural number, as `String(n)` writes them. */
  function DecimalText(n: nat): (r: string)
    ensures r != [] && AllDigits(r)
    decreases n
  {
    var last := [(n % 10 + '0' as int) as char];
    if n < 10 then last else DecimalText(n / 10) + last
  }

  lemma {:induction false} DecimalDigitsValue(n: nat)
    ensures DigitsValue(DecimalText(n)) == n
    decreases n
  {
    var t := DecimalText(n);
    if n >= 10 {
      DecimalDigitsValue(n / 10);
      assert t[..|t| - 1] == DecimalText(n / 10);
    }
  }

  /** Every decimal text reads back as its number. */
  lemma NumberValueReadsDecimal(n: nat)
    ensures NumberValue(DecimalText(n)) == Some(n)
  {
    DecimalDigitsValue(n);
  }

  /** `value < new Date()`: the date turns into its time value, a string into
      its number reading, an absent value into NaN; a comparison with NaN is
      false. */
  predicate LessThanNow(t: RequestTime, now: int)
  {
    match t
    case NoTime => false
    case Number(n) => n < now
    case Text(s) => NumberValue(s).Some? && NumberValue(s).value < now
  }

  /** POST `/` as written: every identifying field and the time are required,
      the time is compared raw with the current time, and the new
      appointment starts out pending. */
  function Create(body: CreateBody, now: int): (r: Result<NewAppointment, Reply>)
    ensures r == Err(MissingFields) <==>
              body.customerId == "" || body.technicianId == "" || body.companyId == "" || !Truthy(body.scheduledTime)
    ensures r == Err(PastTime) <==>
              body.customerId != "" && body.technicianId != "" && body.companyId != "" && Truthy(body.scheduledTime) &&
              LessThanNow(body.scheduledTime, now)
    ensures r.Ok? ==>
              r.value.status == Pending &&
              r.value.customerId == body.customerId && r.value.technicianId == body.technicianId &&
              r.value.companyId == body.companyId && r.value.scheduledTime == body.scheduledTime &&
              r.value.notes == body.notes
  {
    if body.customerId == "" || body.technicianId == "" || body.companyId == "" || !Truthy(body.scheduledTime) then
      Err(MissingFields)
    else if LessThanNow(body.scheduledTime, now) then Err(PastTime)
    else Ok(NewAppointment(body.customerId, body.technicianId, body.companyId, body.scheduledTime, body.notes, Pending))
  }

  /** The shape `toISOString` gives every year from 0 to 9999: four digits
      and a dash. */
  predicate IsoForm(s: string)
  {
    |s| >= 5 && AllDigits(s[..4]) && s[4] == '-'
  }

  /** An ISO time, however far in the past, is never refused as past: it
      reads as NaN, and the comparison is false. */
  lemma IsoTimeNeverPast(body: CreateBody, now: int)
    requires body.scheduledTime.Text? && IsoForm(body.scheduledTime.text)
    ensures Create(body, now) != Err(PastTime)
  {
    var s := body.scheduledTime.text;
    assert !IsDigit(s[4]);
  }

  /** A request for 08:00 on 1 January 2020, as the client sends it, is
      accepted at any current time. */
  lemma PastIsoTimeAccepted(now: int)
    ensures Create(CreateBody("c", "t", "co", Text("2020-01-01T08:00:00.000Z"), None), now).Ok?
  {
    IsoTimeNeverPast(CreateBody("c", "t", "co", Text("2020-01-01T08:00:00.000Z"), None), now);
  }

  /** `new Date(value)`: a number is that time, a string is what the date
      parser makes of it, and an absent value is an Invalid Date. */
  function DateValue(t: RequestTime, parseDate: string -> Option<int>): Option<int>
  {
    match t
    case NoTime => None
    case Number(n) => Some(n)
    case Text(s) => parseDate(s)
  }

  /** POST `/` as evidently intended, comparing `new Date(scheduledTime)` with
      the current time: every time the date parser reads as earlier than now
      is refused, the ISO times the client sends among them. */
  function CreateComparingDates(body: CreateBody, now: int, parseDate: string -> Option<int>): (r: Result<NewAppointment, Reply>)
    ensures r == Err(MissingFields) <==>
              body.customerId == "" || body.technicianId == "" || body.companyId == "" || !Truthy(body.scheduledTime)
    ensures r == Err(PastTime) <==>
              body.customerId != "" && body.technicianId != "" && body.companyId != "" && Truthy(body.scheduledTime) &&
              DateValue(body.scheduledTime, parseDate).Some? && DateValue(body.scheduledTime, parseDate).value < now
    ensures r.Ok? ==>
              r.value.status == Pending &&
              r.value.customerId == body.customerId && r.value.technicianId == body.technicianId &&
              r.value.companyId == body.companyId && r.value.scheduledTime == body.scheduledTime &&
              r.value.notes == body.notes
  {
    var at := DateValue(body.scheduledTime, parseDate);
    if body.customerId == "" || body.technicianId == "" || body.companyId == "" || !Truthy(body.scheduledTime) then
      Err(MissingFields)
    else if at.Some? && at.value < now then Err(PastTime)
    else Ok(NewAppointment(body.customerId, body.technicianId, body.companyId, body.scheduledTime, body.notes, Pending))
  }

  /** The corrected route refuses a past ISO time that the route as written accepts. */
  lemma ComparingDatesRefusesPastIso(body: CreateBody, now: int, parseDate: string -> Option<int>)
    requires body.customerId != "" && body.technicianId != "" && body.companyId != ""
    requires body.scheduledTime.Text? && IsoForm(body.scheduledTime.text)
    requires parseDate(body.scheduledTime.text).Some? && parseDate(body.scheduledTime.text).value < now
    ensures CreateComparingDates(body, now, parseDate) == Err(PastTime)
    ensures Create(body, now).Ok?
  {
    IsoTimeNeverPast(body, now);
  }

  /** A numeric time agrees under both comparisons. */
  lemma NumericTimesAgree(body: CreateBody, now: int, parseDate: string -> Option<int>)
    requires body.scheduledTime.Number?
    ensures CreateComparingDates(body, now, parseDate) == Create(body, now)
  {
  }

  /** PUT `/updateSchedule`: a missing or non-array payload is refused;
      otherwise one operation per appointment sent, in order, each setting
      only that appointment's time. */
  function UpdateSchedule(payload: Payload): (r: Result<seq<S.BulkOp>, Reply>)
    ensures r.Err? <==> !payload.Items?
    ensures r.Err? ==> r.error == InvalidData
    ensures r.Ok? ==>
              |r.value| == |payload.appointments| &&
              forall i :: 0 <= i < |r.value| ==>
                r.value[i] == S.SetScheduledTime(payload.appointments[i].id, payload.appointments[i].scheduledTime)
  {
    match payload
    case Items(appointments) => Ok(S.BulkOps(appointments))
    case _ => Err(InvalidData)
  }

  /** The time the last appointment sent with this id asks for. */
  function LastTimeFor(sent: seq<S.Appointment>, id: string): Option<int>
  {
    if sent == [] then None
    else
      var later := LastTimeFor(sent[1..], id);
      if later.Some? then later
      else if sent[0].id == id then Some(sent[0].scheduledTime)
      else None
  }

  lemma {:induction false} LastTimeForSent(sent: seq<S.Appointment>, id: string)
    ensures LastTimeFor(sent, id).None? <==> forall i :: 0 <= i < |sent| ==> sent[i].id != id
    ensures LastTimeFor(sent, id).Some? ==>
              exists i :: 0 <= i < |sent| && sent[i].id == id && sent[i].scheduledTime == LastTimeFor(sent, id).value &&
                forall j :: i < j < |sent| ==> sent[j].id != id
  {
    if sent != [] {
      LastTimeForSent(sent[1..], id);
      assert forall i :: 1 <= i < |sent| ==> sent[i] == sent[1..][i - 1];
      if LastTimeFor(sent[1..], id).Some? {
        var i :| 0 <= i < |sent[1..]| && sent[1..][i].id == id && sent[1..][i].scheduledTime == LastTimeFor(sent, id).value &&
                 forall j :: i < j < |sent[1..]| ==> sent[1..][j].id != id;
        assert sent[i + 1] == sent[1..][i];
      }
    }
  }

  /** Running the bulk write over the stored appointments: each stored
      appointment that some operation names takes the time of the last such
      operation, and nothing else changes. */
  lemma {:induction false} BulkWriteLastWins(store: seq<S.Appointment>, sent: seq<S.Appointment>, k: nat)
    requires k < |store|
    ensures S.ApplyOps(store, S.BulkOps(sent))[k] ==
              match LastTimeFor(sent, store[k].id)
              case None => store[k]
              case Some(t) => store[k].(scheduledTime := t)
    decreases |sent|
  {
    if sent != [] {
      var ops := S.BulkOps(sent);
      var first := S.ApplyOp(store, ops[0]);
      assert ops[1..] == S.BulkOps(sent[1..]);
      assert first[k].id == store[k].id;
      BulkWriteLastWins(first, sent[1..], k);
    }
  }
}
