# TechNaim scheduling core in Dafny

TechNaim is a field-service application. Companies employ technicians,
customers book appointments, and each technician's working day is ordered
by a greedy nearest-neighbour route. Each stop's time is the travel time
from the previous stop plus 30 minutes of work per appointment. This project
models, and proves properties of:

- the server's schedule recalculation (`recalcScheduleForTechnician`):
  the start time and position, the greedy route, the timeline, and the bulk
  write of the new times;
- the technician screen of the mobile client:
  - the approximate route and the schedule derived from it;
  - today's queue of in-progress appointments;
  - the calendar's dots, and the day list shown when a date is pressed;
- the account routes (login, signup, creating a technician, creating an
  admin) and the authentication middleware;
- the appointment routes: creating an appointment, and bulk-rescheduling;
- the morning job that sets the day's pending appointments in progress;
- the search bar's filter of appointment cards;
- the small directory-tree printer script.

Each module is one file:

| file | contents |
|---|---|
| `common.dfy` | shared types: options, results, coordinates, statuses, the millisecond clock, and sequence helpers (filter, find, split/join) |
| `nearest.dfy` | the first-nearest scan shared by both greedy routes |
| `schedule.dfy` | the server's recalculation |
| `technician_screen.dfy` | the client's route, schedule, queue and calendar |
| `auth_middleware.dfy` | the middleware |
| `auth_routes.dfy` | the account routes, over a `Database` class whose fields are the user, technician and company collections |
| `appointments.dfy` | the appointment routes |
| `status_update.dfy` | the morning job, as an in-place loop over an array of appointments |
| `search_bar.dfy` | the search bar |
| `tree_printer.dfy` | the tree printer, on a rose tree of directory entries |

Modelling conventions:

- **Time.** Times are integer milliseconds since the epoch. A calendar day
  is `t / 86400000`, because local time is taken to be UTC.
- **Distances and travel.** Distances are natural numbers from a distance
  parameter. Travel times are whole minutes from a travel parameter, with
  `None` standing for the directions service's `Infinity`.
- **Services.** Geocoding, password hashing and comparison, and token
  signing and verification are function parameters.
- **Collections.** Database collections are sequences. Fresh document ids
  come from a counter.
- **User schema.** The schema's `lowercase` setter lowercases stored emails
  and addresses and the email of every lookup by email (`Lower`). A save the
  schema rejects (an empty or missing required field, a `country_id` that
  does not cast to a number, a role outside the four roles) throws, and the
  route answers 500 "Server error" with nothing stored (`Conforms`; the
  number cast is the parameter `isNumber`).

## Model

| member | source | states |
|---|---|---|
| TreePrinter.Listing | tree_printer.py:4-9 | the listed items are entries of the directory whose names are not excluded, and every entry whose name is not excluded is listed |
| TreePrinter.ListingKeepsOrder | tree_printer.py:9 | the listing keeps the directory's own order |
| TreePrinter.Pointers | tree_printer.py:10 | every item gets the branch marker except the last, which gets the last marker; an empty listing still builds one marker, which zip never uses |
| TreePrinter.PrintTree | tree_printer.py:6-16 | the recursive printing procedure emits exactly the lines of the tree function |
| TreePrinter.TreeRows | tree_printer.py:10-16 | printed line k is the prefix, a run of continuation pads ending in one marker, and the name of the k-th entry shown depth-first; there are as many lines as shown entries |
| TreePrinter.ShownNotExcluded | tree_printer.py:9 | no shown entry has an excluded name |
| TreePrinter.ExcludedEntryIgnored | tree_printer.py:9 | removing an excluded entry, file or directory, from a directory does not change the output: nothing beneath it is printed |
| TreePrinter.EmptyListingPrintsNothing | tree_printer.py:9-11 | a directory whose entries are all excluded prints nothing |
| TreePrinter.NegativeDepthPrintsNothing | tree_printer.py:7-8 | a negative depth budget prints nothing |
| TreePrinter.DepthZeroListsTopLevel | tree_printer.py:10-16 | at depth 0 exactly one line per listed item is printed, in listing order, with branch markers and then the last marker, and nothing beneath them |
| TreePrinter.ChildrenFollowTheirDirectory | tree_printer.py:13-16 | each item's line comes after everything printed for the items before it, and is followed at once by its subtree, printed with the padding its marker selects |
| TreePrinter.PrintsEveryEntry | tree_printer.py:6-16 | with no excluded names and a depth budget of at least the tree's height, every entry below the root is printed once |
| TreePrinter.LineCount | tree_printer.py:6-16 | the number of lines equals the number of entries within the depth budget that are neither excluded nor below an excluded directory |
| Nearest.FirstNearestIsNearest | TechNaim-app/routes/schedule.js:94-107 | the candidate the strict-less-than scan keeps is at minimal distance, and strictly nearer than every candidate listed before it |
| Nearest.FindNearest | TechNaim-app/routes/schedule.js:94-107 | the scan loop returns that first nearest candidate and its distance |
| Schedule.StartTime | TechNaim-app/routes/schedule.js:26-34 | the start is on the appointment's day at 08:00 or later; it is now when the appointment day is today and it is 08:00 or later, and 08:00:00.000 otherwise |
| Schedule.StartCoords | TechNaim-app/routes/schedule.js:35-55 | a set current location is used first; the technician's stored location comes next; the address coordinates of the technician's user come last. A missing technician is an error. A missing user is an error only when the stored location is unset |
| Schedule.Stops | TechNaim-app/routes/schedule.js:77-84 | the candidate stops are exactly the customers of appointments that have coordinates |
| Schedule.GreedyRoute | TechNaim-app/routes/schedule.js:92-112 | the `while` loop computes the route function |
| Schedule.RouteVisitsEachCustomerOnce | TechNaim-app/routes/schedule.js:92-112 | every leg goes to a candidate, no customer id is visited twice, and every candidate's id is visited |
| Schedule.RouteLength | TechNaim-app/routes/schedule.js:92-112 | the route has exactly one leg per distinct customer id among the candidates |
| Schedule.RouteLegIsNearest | TechNaim-app/routes/schedule.js:93-111 | leg i goes to the first nearest of the candidates no earlier leg took, measured from where leg i-1 ended, and records that distance |
| Schedule.LegIsMinimal | TechNaim-app/routes/schedule.js:93-111 | no remaining candidate is nearer than leg i's customer, and every remaining candidate listed before it is strictly farther |
| Schedule.TimelineSpacing | TechNaim-app/routes/schedule.js:115-147 | no visit is earlier than the start time, and each visit is at least the 30-minute working time after the one before |
| Schedule.TimelineFollowsRoute | TechNaim-app/routes/schedule.js:123-147 | the visited customers are some of the route's customers, in route order |
| Schedule.TimelineVisitsReachedLegs | TechNaim-app/routes/schedule.js:123-147 | the visits are exactly the reached legs in route order: a leg is visited if and only if the travel service reaches it from the start, when no earlier leg was visited, or from the last visited customer before it |
| Schedule.ReachableLegVisited | TechNaim-app/routes/schedule.js:123-147 | a leg reachable from the start and from every earlier leg's customer is visited, whatever the other legs do |
| Schedule.UnreachableFromStart | TechNaim-app/routes/schedule.js:123-128 | when no leg can be reached from the start, the position never moves, so nothing is scheduled |
| Schedule.TimelineSteps | TechNaim-app/routes/schedule.js:123-147 | on every route, reachable and unreachable legs mixed, the first visit is the travel time from the start position after the start time, and each later visit is the working time plus the travel time from the previous customer after the previous visit |
| Schedule.TimelineClosedForm | TechNaim-app/routes/schedule.js:123-147 | when every leg is reachable, leg k is visited at the start time plus the travel times of legs 0..k plus k working times |
| Schedule.UpdatedFollowsVisits | TechNaim-app/routes/schedule.js:132-139 | when every visited customer has an appointment, each visit updates exactly one appointment: the first of that customer, with only its time changed |
| Schedule.BulkWriteStoresUpdated | TechNaim-app/routes/schedule.js:149-156 | applying the bulk write gives each stored appointment whose id was returned the returned time, and leaves every other stored appointment untouched |
| Schedule.Recalc | TechNaim-app/routes/schedule.js:35-158 | an empty day returns nothing and writes nothing; a non-empty day writes one operation per returned appointment; "no starting position" is reported exactly when the day is non-empty and the start lookup yields nothing; every other error is the start lookup's error, which is always reported |
| Schedule.ScheduleLegs | TechNaim-app/routes/schedule.js:116-147 | the scheduling loop returns the updates of the timeline of the route |
| Schedule.RecalcSchedule | TechNaim-app/routes/schedule.js:20-158 | the imperative recalculation computes the recalculation function |
| Schedule.RecalcOutcome | TechNaim-app/routes/schedule.js:20-158 | every successful recalculation returns appointments of distinct customers that have coordinates. Each is changed only in its time. The times are no earlier than the start time and at least 30 minutes apart. There is at most one appointment per distinct customer |
| Schedule.ScheduledPlausible | TechNaim-app/routes/schedule.js:114-147 | the timeline of any route that visits each customer once yields such plausible updates |
| Appointments.Create | TechNaim-app/routes/appointments.js:9-32 | a falsy identifying field or time (empty, absent or zero) is refused first, exactly then. Next, a time is refused as past exactly when JavaScript's `<` against the current date holds: for a number, when it is earlier; for a string, when it reads as a number that is earlier, so ISO date strings are never refused. Otherwise a pending appointment with the request's fields, the time as sent, is built |
| Appointments.NumberValue | TechNaim-app/routes/appointments.js:18 | a string reads as a number only when every character past the first is a digit; the empty string reads as 0 |
| Appointments.NumberValueReadsDecimal | TechNaim-app/routes/appointments.js:18 | the decimal text of every natural number reads back as that number |
| Appointments.IsoTimeNeverPast | TechNaim-app/routes/appointments.js:18-20 | a time in the ISO form the client sends, however far in the past, is never refused as past |
| Appointments.PastIsoTimeAccepted | TechNaim-app/routes/appointments.js:14-32 | a request for 08:00 on 1 January 2020, sent as an ISO string, is accepted at every current time |
| Appointments.CreateComparingDates | TechNaim-app/routes/appointments.js:9-32 | the evidently intended route, comparing the parsed date: the same missing-field refusal, and a time is refused as past exactly when it parses, or is a number, earlier than now |
| Appointments.ComparingDatesRefusesPastIso | TechNaim-app/routes/appointments.js:18-20 | a past ISO time that parses is refused by the intended route and accepted by the route as written |
| Appointments.NumericTimesAgree | TechNaim-app/routes/appointments.js:18 | for a numeric time, the route as written and the intended route give the same result |
| Appointments.UpdateSchedule | TechNaim-app/routes/appointments.js:86-101 | a missing or non-array payload is refused, exactly then; otherwise there is one operation per appointment sent, in order, each setting only that appointment's time |
| Appointments.LastTimeForSent | TechNaim-app/routes/appointments.js:94-101 | the last requested time for an id is absent exactly when no appointment sent has that id, and is otherwise the time of the last one that has it |
| Appointments.BulkWriteLastWins | TechNaim-app/routes/appointments.js:94-101 | after the bulk write, a stored appointment named by some operation carries the time of the last such operation, and every other stored appointment is unchanged |
| StatusUpdate.EndOfDay | TechNaim-app/schedules/appointmentStatusUpdate.js:9 | the end of the day is 23:59:59.000 on the current calendar day |
| StatusUpdate.StartAll | TechNaim-app/schedules/appointmentStatusUpdate.js:11-19 | exactly the appointments that are pending and scheduled from now until before the end of the day become in progress; no other field and no other appointment changes |
| StatusUpdate.UpdatePendingToInProgress | TechNaim-app/schedules/appointmentStatusUpdate.js:5-19 | the loop over the stored appointments leaves the array with those contents |
| StatusUpdate.SelectedIsToday | TechNaim-app/schedules/appointmentStatusUpdate.js:9-14 | a selected appointment is scheduled no earlier than now, on the same calendar day |
| StatusUpdate.StartAllIdempotent | TechNaim-app/schedules/appointmentStatusUpdate.js:11-19 | running the job twice at the same instant changes nothing the first run did not |
| SearchBar.GetCards | TechNaimApp/components/SearchBar.tsx:51-73 | a missing role alerts first and leaves the shown cards alone; a missing id alerts next; there is no alert exactly when both are given; the result then holds exactly the appointments matching the chosen role and id |
| SearchBar.ResultsInOrder | TechNaimApp/components/SearchBar.tsx:63-69 | the results keep the appointments' order |
| SearchBar.RoleFilters | TechNaimApp/components/SearchBar.tsx:63-69 | `Technician` matches on the technician's user's national id, `Customer` on the customer's, and any other role on either |
| SearchBar.AllIsUnion | TechNaimApp/components/SearchBar.tsx:44-69 | searching `All` finds exactly what searching `Technician` or `Customer` finds |
| AuthMiddleware.BearerFormat | TechNaim-app/middlewares/authMiddleware.js:12-17 | the format check accepts only a header that is `Bearer`, one space and a token without spaces, and extracts that token |
| AuthMiddleware.BearerOf | TechNaim-app/middlewares/authMiddleware.js:12-17 | every such header is accepted |
| AuthMiddleware.Authenticate | TechNaim-app/middlewares/authMiddleware.js:4-40 | the guards answer in order: no header, bad format, no secret, a token that fails to verify, an unknown user. The stored user is passed on without its password hash |
| AuthMiddleware.AuthenticatedUser | TechNaim-app/middlewares/authMiddleware.js:10-36 | only a well-formed header whose token verifies under the configured secret and names a stored user gets through, and then as that user |
| AuthMiddleware.ValidBearerAccepted | TechNaim-app/middlewares/authMiddleware.js:10-36 | conversely, every verified token of a stored user sent as `Bearer <token>` with the secret set gets through |
| AuthRoutes.LowerIdempotent | TechNaim-app/models/userModel.js:7-9 | lowercasing twice is lowercasing once, and only the empty string lowercases to the empty string |
| AuthRoutes.LookupIgnoresCase | TechNaim-app/models/userModel.js:7 | two emails that agree once lowercased find the same user |
| AuthRoutes.Login | TechNaim-app/routes/authRoutes.js:12-40 | the email is looked up lowercased, so its case does not matter. The errors are an unknown email, a wrong password, a role outside the four roles, and a technician without a technician record, each reported exactly when it is the first failing check. A session carries a one-hour token for that user's id and role |
| AuthRoutes.NewUserLogsIn | TechNaim-app/routes/authRoutes.js:12-40 | a user stored under the lowercase form of an email no account has logs in with that email, in any case, and the password whose hash was stored; a technician's session gets the company of its technician record |
| AuthRoutes.NameWords | TechNaim-app/routes/authRoutes.js:107 | the name check counts spaces: a name passes exactly when it has one or two spaces, so a double space counts as a word |
| AuthRoutes.TechnicianRequestCheck | TechNaim-app/routes/authRoutes.js:94-114 | a request passes exactly when every field is present, the password has at least 6 characters, the phone exactly 10, the name two or three words, and the caller is an admin. Non-admins are refused only for an otherwise valid request; every field error is a 400 |
| AuthRoutes.FieldErrorsIgnoreCaller | TechNaim-app/routes/authRoutes.js:94-114 | the field errors do not depend on who calls |
| AuthRoutes.TechnicianGuard | TechNaim-app/routes/authRoutes.js:94-129 | the request checks come first, then the caller's company, then the email, looked up lowercased, then geocoding the address; success gives the caller's company |
| AuthRoutes.TechnicianFieldsChecked | TechNaim-app/models/userModel.js:4-18 | after the request checks pass, the technician document fails the schema only on a `country_id` that is not a number or an empty password hash |
| AuthRoutes.AdminGuard | TechNaim-app/routes/authRoutes.js:172-185 | a caller who is not the super admin is refused first, then an email taken in any case, then a taken company name, each exactly when it is the first failing check |
| AuthRoutes.Database.Signup | TechNaim-app/routes/authRoutes.js:51-85 | the email-taken refusal comes exactly when the email is taken in any case, and stores nothing; a server error comes exactly when the email is fresh and the geocoding fails or the user schema rejects the document (an empty required field, a `country_id` that is not a number, a role outside the four), and stores nothing. Otherwise exactly one user is appended under a fresh id, with the email and address lowercased, the hashed password, the geocoded address and the role sent or `customer` by default; the company is kept unless the role sent is `customer`. A seven-day token is returned. Stored emails stay lowercase and unique |
| AuthRoutes.Database.CreateTechnician | TechNaim-app/routes/authRoutes.js:90-164 | it fails exactly when the guard does or the user schema rejects the document, and then stores nothing. Otherwise a technician user, with its email and address lowercased, and its technician record are stored under fresh ids in the caller's company, the record's id is appended to that company's technicians, and the company is returned |
| AuthRoutes.Database.CreateAdmin | TechNaim-app/routes/authRoutes.js:167-213 | as written it never succeeds and stores nothing: a failing check gives that check's error, and a request that passes the checks is a server error, because the admin document has no address and the schema requires one |
| AuthRoutes.AdminNeverConforms | TechNaim-app/models/userModel.js:4-18 | no admin document built by `/create-admin` passes the user schema's validation, whatever the request |
| AuthRoutes.Database.CreateLinkedAdmin | TechNaim-app/routes/authRoutes.js:167-213 | the evidently intended route, saving the admin without an address: it succeeds exactly when the checks pass, the other required fields are valid and the company has a name. Then an admin user and a company are appended under fresh ids and linked both ways, and the admin is returned. A check or a rejected admin stores nothing; a company without a name leaves the admin stored with no company |
| TechnicianScreen.DailyAppointments | TechNaimApp/screens/TechnicianScreenOld.tsx:542-549 | the day list holds exactly the appointments whose scheduled time falls on the pressed day |
| TechnicianScreen.DailyAppointmentsInOrder | TechNaimApp/screens/TechnicianScreenOld.tsx:542-549 | the day list keeps the appointments' order |
| TechnicianScreen.Without | TechNaimApp/screens/TechnicianScreenOld.tsx:353-355 | `splice(index, 1)` removes exactly one entry |
| TechnicianScreen.ApproxLoop | TechNaimApp/screens/TechnicianScreenOld.tsx:325-363 | the client's greedy `while` loop computes the walk function |
| TechnicianScreen.ApproxIds | TechNaimApp/screens/TechnicianScreenOld.tsx:329-361 | the route's customer ids are those of the candidates, each as often as it occurs: the client removes one entry per leg, not every entry of that customer |
| TechnicianScreen.ApproxLegIsNearest | TechNaimApp/screens/TechnicianScreenOld.tsx:329-361 | leg i goes to the first nearest of the candidates still remaining, measured from where leg i-1 ended, and records that distance |
| TechnicianScreen.ComputeApproxRoute | TechNaimApp/screens/TechnicianScreenOld.tsx:267-364 | the route computation follows its function: an empty route without candidates, the walk from the stored start otherwise |
| TechnicianScreen.ApproxRouteOutcome | TechNaimApp/screens/TechnicianScreenOld.tsx:267-364 | no route is given exactly when there are candidates and no stored start. Without candidates the route is empty. Otherwise there is one leg per candidate entry, each to a candidate: a customer with coordinates of a pending appointment on that day |
| TechnicianScreen.ScheduleTimes | TechNaimApp/screens/TechnicianScreenOld.tsx:226-245 | the loop over the legs fills the dictionary of arrival times |
| TechnicianScreen.UnknownClock | TechNaimApp/screens/TechnicianScreenOld.tsx:236-242 | once the clock is an Invalid Date, every later arrival is too |
| TechnicianScreen.ArrivalKnown | TechNaimApp/screens/TechnicianScreenOld.tsx:234-245 | leg k's arrival is a valid time exactly when legs 0..k are each reachable from where the previous one ended |
| TechnicianScreen.ArrivalsStayUnknown | TechNaimApp/screens/TechnicianScreenOld.tsx:234-245 | after an Infinity travel time, no later arrival is a valid time |
| TechnicianScreen.ArrivalsAsTimeline | TechNaimApp/screens/TechnicianScreenOld.tsx:234-245 | when every leg is reachable, the client's arrivals are the server's visit times for the same legs, so they add up the same way |
| TechnicianScreen.ArrivalsClosedForm | TechNaimApp/screens/TechnicianScreenOld.tsx:234-245 | when every leg is reachable, each arrival is 08:00 plus the travel times so far plus one working time per earlier leg |
| TechnicianScreen.TimesOfKeys | TechNaimApp/screens/TechnicianScreenOld.tsx:240 | the dictionary has an entry for exactly the route's customer ids |
| TechnicianScreen.LastLegWins | TechNaimApp/screens/TechnicianScreenOld.tsx:240 | a customer's entry is the arrival of the last leg to that customer |
| TechnicianScreen.TimesOfValue | TechNaimApp/screens/TechnicianScreenOld.tsx:240 | every entry is the arrival of the last leg to its customer |
| TechnicianScreen.ApplyTimesOutcome | TechNaimApp/screens/TechnicianScreenOld.tsx:248-256 | the final map fails (an Invalid Date's `toISOString` throws) exactly when some appointment meets an Invalid Date; otherwise it keeps length and order and retimes each appointment on its own |
| TechnicianScreen.ComputeScheduledRoute | TechNaimApp/screens/TechnicianScreenOld.tsx:195-256 | the scheduled-route computation follows its function |
| TechnicianScreen.ScheduledRouteFails | TechNaimApp/screens/TechnicianScreenOld.tsx:195-256 | with a non-empty route, retiming fails exactly when some leg is unreachable from where the previous one ended |
| TechnicianScreen.ScheduledRouteTimes | TechNaimApp/screens/TechnicianScreenOld.tsx:195-256 | when every leg is reachable, retiming succeeds. Each appointment then differs at most in its time. An appointment of a customer off the route keeps its time. One of a routed customer gets the arrival of the last leg to that customer |
| TechnicianScreen.SortIsSorted | TechNaimApp/screens/TechnicianScreenOld.tsx:468 | the sorted entries are ordered by initial travel time, Infinity last |
| TechnicianScreen.SortIsPermutation | TechNaimApp/screens/TechnicianScreenOld.tsx:468 | sorting neither drops nor adds an entry |
| TechnicianScreen.SortIsStable | TechNaimApp/screens/TechnicianScreenOld.tsx:468 | entries with equal travel times keep their order |
| TechnicianScreen.BuildQueue | TechNaimApp/screens/TechnicianScreenOld.tsx:471-499 | the queue loop computes the queue function |
| TechnicianScreen.QueueClosedForm | TechNaimApp/screens/TechnicianScreenOld.tsx:474-499 | item i is entry i at position i+1. Its travel time is from the last earlier entry that had coordinates, or from the current location. Its arrival is the travel times up to it plus one working time per earlier item |
| TechnicianScreen.TravelSumInfinite | TechNaimApp/screens/TechnicianScreenOld.tsx:476-482 | an Infinity travel time makes every later arrival Infinity |
| TechnicianScreen.ComputeQueue | TechNaimApp/screens/TechnicianScreenOld.tsx:438-500 | the queue computation follows its function |
| TechnicianScreen.QueueOutcome | TechNaimApp/screens/TechnicianScreenOld.tsx:438-500 | the queue holds today's in-progress appointments, each once, ordered by initial travel time with Infinity last and ties in their original order, at positions 1, 2, ... |
| TechnicianScreen.Mark | TechNaimApp/screens/TechnicianScreenOld.tsx:559-565 | visiting an appointment adds its date as a key and pushes one blue dot keyed by the appointment's id onto that date's list, leaving every other date alone |
| TechnicianScreen.MarkedDates | TechNaimApp/screens/TechnicianScreenOld.tsx:557-568 | the `forEach` over the appointments computes the marked dates function |
| TechnicianScreen.MarkedIsDaily | TechNaimApp/screens/TechnicianScreenOld.tsx:542-568 | a date's dots are, in order, one per appointment on that date: exactly the day list shown when it is pressed. A date is marked exactly when that list is non-empty |
| TechnicianScreen.MarkedCount | TechNaimApp/screens/TechnicianScreenOld.tsx:557-568 | every appointment gets exactly one dot |

The model follows the code as written, including where it differs from its
own messages or from what a reader might expect:

- **Phone length.** The phone check of `/create-and-assign-technician`
  demands exactly 10 characters, although its message says "at least 10
  digits".
- **Signup role.** `/signup` refuses roles outside the four roles, but
  anyone may sign up as a technician, an admin or the super admin; it does
  not restrict signups to customers, despite its comment.
- **Scheduled route.** The client's scheduled route retimes every
  appointment of a routed customer, not only that day's pending ones.
- **Past times.** Creating an appointment refuses a past time only when
  the time is sent as a number (or a numeric string). The client sends the
  ISO string of a `Date`, which reads as NaN, so for the app's own requests
  a past time is never refused (see "## Findings").

## Left out

- **I/O and logging.** Console logging, HTTP responses beyond status and
  message, and React state updates are represented only by their returned
  values. AsyncStorage reads become a `stored` parameter, and the write to
  the server after the client's scheduled route is not modelled.
- **External services.** The Google geocoding and directions requests are
  parameters, as are bcrypt hashing and comparison, and JWT signing and
  verification. The rounding of durations up to whole minutes is inside the
  travel parameter.
- **Haversine.** The formula and all floating point are left out. Distances
  are natural numbers and coordinates are integers. A zero coordinate stands
  for every falsy value the code tests against.
- **Time zones.** Local time and UTC are taken to be the same, so
  `toDateString`, `getHours` and the ISO date key all agree on a day index;
  the calendar keys are that day index, not the `YYYY-MM-DD` string.
- **Database queries.** The recalculation's query (technician, time window,
  status depending on whether the day is today) and its population of
  customers are not modelled: the resulting appointments are an input.
  Mongo's `findById` / `findOne` are first-match searches over sequences.
- **Concurrency.** `Promise.all`, `await` and concurrent requests are
  sequential here. One request runs at a time against the `Database` object.
- **Exceptions.** The modelled exceptions are a save the user schema
  rejects and a failed geocoding. Others, such as a database outage or a
  duplicate-key error from two concurrent signups, and the routes' 500
  catch-all for them, are left out.
  Exceptions from the middleware's user lookup, which it would answer as an
  invalid token, are left out too.
- **Scheduling.** The cron registration of the morning job (08:00 daily)
  is not modelled. The job's per-document save is the in-place array update.
- **Dead code.** The server route's stop after a scan without a candidate
  is unreachable, because every distance is below the initial Infinity. So
  is the client's `index !== -1` guard, because the picked customer is in
  the remaining list. Neither is modelled as a separate path. The client's
  first-leg start fallback in `computeScheduledRoute` is modelled, although
  a non-empty route already implies a stored start.
- **Time comparison.** JSON numbers are integers here. A string's number
  reading covers the empty string and optionally signed decimal integers;
  strings with surrounding whitespace, fractions, exponents, hexadecimal
  digits or `Infinity`, which JavaScript also reads as numbers, read as NaN
  in the model. The date parser of the intended route is a parameter. The
  appointment schema's cast of the stored time to a date is not modelled:
  the document keeps the time as sent.
- **Password field.** `.select('-password')` in the middleware is modelled
  as an emptied password hash.
- **Reply contents.** The user fields echoed in login and signup replies
  are summarized by `Session`.
- **Other files.** The other screens, components, models, the remaining
  routers, `server.js` and the navigation files are not part of this model.
- **Tree printer.** `os.listdir` order is the order of a directory's
  entries, and the script's hard-coded root directory is a parameter of
  `PrintRoot`. Errors from `os.listdir` and `os.path.isdir`, such as the
  `PermissionError` of an unreadable directory that ends the script, are
  not modelled: every directory is readable.
- Lower: maps only the ASCII capitals; the full Unicode case mapping of
  `toLowerCase` is not modelled.
- Database.Signup: its session carries the stored role, while the reply
  echoes the role of the request, which is absent when the default applied.
  A missing password, on which hashing throws, is not modelled, as the hash
  is a parameter.

## Findings

| source | as written | input that shows it | evidently intended | confidence | as-written member | corrected member |
|---|---|---|---|---|---|---|
| TechNaim-app/routes/authRoutes.js:188-197 | the admin document is built without an `address`, which the user schema requires (TechNaim-app/models/userModel.js:9), so its first `save` fails validation and the route answers 500 | any request from the super admin with a fresh email and a fresh company name | the admin is saved, a company is created for it, and the two are linked | not executed | AuthRoutes.Database.CreateAdmin, AuthRoutes.AdminNeverConforms | AuthRoutes.Database.CreateLinkedAdmin |
| TechNaim-app/routes/appointments.js:18 | `scheduledTime < new Date()` compares the request's raw value; the client sends an ISO string (TechNaimApp/screens/CreateAppointmentScreen.tsx:94-99), which reads as NaN, so the comparison is false | `scheduledTime: "2020-01-01T08:00:00.000Z"` with every field present | a time earlier than now is refused as past | not executed | Appointments.Create, Appointments.IsoTimeNeverPast, Appointments.PastIsoTimeAccepted | Appointments.CreateComparingDates, Appointments.ComparingDatesRefusesPastIso |
