# Steermate trips and reports, modelled in Dafny

Steermate's backend stores driving trips that users upload. Each trip has
its recorded unsafe-driving events and its traffic-sign detections. From a
trip it builds a report, and from a user's newest trips it builds a trends
summary. This project models that core and proves properties of the model:

- **Types** (`types.dfy`): the rows of the `trips`, `trip_events` and
  `sign_detections` tables, and the upload payload.
  - Nullable columns are `Option`s.
  - Float conversions, rounding and timestamp formatting are fields of a
    `FloatOps` record. They stay uninterpreted.
- **EventCounts** (`breakdown.dfy`): the event breakdown. A reference
  definition gives each type present and its count. The `EventBreakdown`
  method is the source's dictionary loop, proved equal to it. Lemmas cover
  lookups of absent types, independence from event order, and the counts
  summing to the number of events.
- **Advice** (`advice.dfy`): the recommendation rules.
  - The four threshold rules form a table checked in order, with a fallback
    message.
  - A message is an `Advisory` value. `Text` gives the exact string the
    source appends, and the report carries those strings.
  - `GenerateRecommendations` and `CheckRules` are the source's
    step-by-step appends, proved equal to the table-driven reference.
  - Lemmas state the if-and-only-if for each rule, the fixed order, the
    fallback, the bounds and the texts.
- **Store** (`store.dfy`): the trip store.
  - `TripStore` is a class holding the trips table and the three id
    counters.
  - `Upload` is `upload_trip`: it builds the events and signs in loops,
    then appends the trip.
  - `GetTrip` and `GetTrips` are the owner-scoped queries: ordered by
    `created_at` descending, then OFFSET/LIMIT.
  - Lemmas cover the upload-then-fetch round trip, isolation between users,
    and how the pages of the model's one newest-first list fit together.
- **Reports** (`reports.dfy`): the shape of `get_report` and `get_trends`.
  - Per-element views keep length and order.
  - Falsy guards yield the integer `0`.
  - A missing timestamp stays `None`.
  - A trend window is the first page of `get_trips`.
  - An empty window gives the integer `0` for the average.
  - Only truthy distances enter the distance total.

The numbers in a report are of the datatype `Num`, which is either `Int(i)`
or `Float(f)`. It keeps apart the two values that Python's
`round(x, 2) if x else 0` can produce. So "a missing or zero value gives
`0`" is an if-and-only-if that the model proves.

The caller's identity, the upload's creation time (`now`, which the
database clock supplies) and the `FloatOps` primitives are all parameters.

Two consequences of Python truthiness are modelled as the code has them:

- The trend distance total skips zero distances as well as null ones
  (`reports.py:134`, `if t.distance_m`).
- In the report, a null number and a zero number both become the integer
  `0` (`x if x else 0`).

## Model

| member | source | states |
|---|---|---|
| EventCounts.Count | backend/app/api/v1/reports.py:83-87 | the number of events of a type is at most the number of events, and positive exactly when some event has that type |
| EventCounts.Breakdown | backend/app/api/v1/reports.py:83-87 | every count in the breakdown lies between 1 and the number of events |
| EventCounts.EventBreakdown | backend/app/api/v1/reports.py:83-87 | the dictionary loop yields exactly the reference breakdown |
| EventCounts.BreakdownCountOf | backend/app/api/v1/reports.py:86 | the keys are exactly the types present; `get(ty, 0)` gives the number of events of type `ty`, which is 0 for an absent type |
| EventCounts.BreakdownSnoc | backend/app/api/v1/reports.py:85-86 | one more event bumps exactly the entry of its type and leaves all others |
| EventCounts.CountAllOfType | backend/app/api/v1/reports.py:85-86 | when every event has one type, that type's count is the number of events |
| EventCounts.CountPermutation | backend/app/api/v1/reports.py:85-86 | a type's count depends only on the multiset of events |
| EventCounts.BreakdownPermutation | backend/app/api/v1/reports.py:83-87 | the breakdown does not depend on the order of the events |
| EventCounts.BreakdownTotal | backend/app/api/v1/reports.py:83-87 | the counts of the breakdown add up to the number of events |
| Advice.TextInjective | backend/app/api/v1/reports.py:98-111 | the five messages are pairwise different |
| Advice.TextsInjective | backend/app/api/v1/reports.py:76 | two recommendation lists have the same texts exactly when they are the same list |
| Advice.GenerateRecommendations | backend/app/api/v1/reports.py:90-113 | recount, rule checks and fallback yield exactly the reference recommendation list |
| Advice.CheckRules | backend/app/api/v1/reports.py:98-108 | the four appends in order yield exactly the advisories of the rules that fire, in table order |
| Advice.FiredAmongSpec | backend/app/api/v1/reports.py:98-108 | among the rules checked so far, an advisory is present exactly when its rule fires, and advisories keep table order |
| Advice.FiredAmongRanks | backend/app/api/v1/reports.py:98-108 | among the first n rules checked, at most n advisories, each from one of those rules, in strictly increasing table position |
| Advice.FiredAmongMembers | backend/app/api/v1/reports.py:98-108 | among the first n rules checked, a rule's advisory is present exactly when the rule is one of them and fires |
| Advice.RecommendationRules | backend/app/api/v1/reports.py:98-113 | each advisory is present iff hard_brake > 3, harsh_accel > 3, overspeed > 5 or unsafe_curve > 2 respectively (absent types count 0); order is the table's; the fallback is present iff no rule fires and is then alone; 1 to 4 entries |
| Advice.FallbackThresholds | backend/app/api/v1/reports.py:98-111 | no rule fires exactly when every count is within its threshold |
| Advice.RecommendationsPermutation | backend/app/api/v1/reports.py:93-96 | the recommendations do not depend on the order of the events |
| Advice.FourHardBrakes | backend/app/api/v1/reports.py:98-99 | four hard brakes and nothing else give exactly the braking advisory |
| Store.TripStore.Upload | backend/app/api/v1/trips.py:13-60 | appends one trip with the next id, owned by the caller, with the payload's fields and creation time `now`; one event and one sign per payload entry, in payload order, each pointing at the new trip with fresh ids; earlier trips unchanged; store invariant kept; the owner then finds the trip by id; no other lookup or other user's listing changes (for ties in `created_at`, see Left out) |
| Store.GetTrip | backend/app/api/v1/trips.py:94-105 | succeeds exactly when a trip with that id owned by the caller exists, and returns such a trip; otherwise not-found |
| Store.GetTripFinds | backend/app/api/v1/trips.py:94-99 | with unique ids, the lookup returns the one matching trip |
| Store.Owned | backend/app/api/v1/trips.py:74-75 | keeps each of the caller's trips with its multiplicity and drops all others |
| Store.OwnedMembers | backend/app/api/v1/trips.py:74-75 | a trip is listed exactly when it is in the store and owned by the caller |
| Store.OwnedAppend | backend/app/api/v1/trips.py:74-75 | the owner filter distributes over concatenation |
| Store.Insert | backend/app/api/v1/trips.py:77 | adds exactly the trip to the list, in front or behind the old head |
| Store.InsertNewestFirst | backend/app/api/v1/trips.py:77 | inserting into a newest-first list keeps it newest first |
| Store.SortNewest | backend/app/api/v1/trips.py:77 | ORDER BY created_at DESC gives a newest-first permutation |
| Store.Window | backend/app/api/v1/trips.py:78-79 | OFFSET/LIMIT gives the contiguous slice after `skip` of length min(limit, remaining) |
| Store.WindowOfSorted | backend/app/api/v1/trips.py:77-79 | a window of a newest-first list is newest first and takes its trips from the list |
| Store.GetTrips | backend/app/api/v1/trips.py:63-82 | fails exactly for a negative skip or limit; otherwise the page after `skip` of some newest-first ordering of exactly the caller's trips, holding min(`limit`, trips left after `skip`) of them, all the caller's, newest first |
| Store.AllOwnedFacts | backend/app/api/v1/trips.py:72-79 | the unwindowed query result is newest first, a permutation of the caller's trips, and holds only the caller's trips |
| Store.PageFacts | backend/app/api/v1/trips.py:72-81 | the OFFSET/LIMIT page of that result is newest first, holds only the caller's trips, and has exactly min(`limit`, trips left after `skip`) of them |
| Store.GetTripsPages | backend/app/api/v1/trips.py:78-79 | over the model's one fixed newest-first order, a page of size a + b is the page of size a followed by the next page of size b (equal timestamps: see Left out) |
| Store.GetTripsAll | backend/app/api/v1/trips.py:73-81 | a large enough limit lists every trip the caller owns |
| Store.NewestComesFirst | backend/app/api/v1/trips.py:77 | the first trip listed is at least as new as every trip the caller owns |
| Store.UploadThenGet | backend/app/api/v1/trips.py:20-29 | after appending a trip with an id above all others, its owner fetches exactly it |
| Store.UploadIsolated | backend/app/api/v1/trips.py:73-76 | another user's fetch and listing are the same before and after an upload (listing under the model's fixed tie order; see Left out) |
| Store.UploadKeepsOtherTrips | backend/app/api/v1/trips.py:94-99 | an upload changes no lookup except the new trip's id for its owner |
| Reports.Iso | backend/app/api/v1/reports.py:47-48 | a timestamp is formatted exactly when present; None stays None |
| Reports.Guarded | backend/app/api/v1/reports.py:50-52 | the integer 0 exactly for a missing or zero value, else the rounded conversion |
| Reports.EventViews | backend/app/api/v1/reports.py:55-64 | one view per event, same length and order |
| Reports.SignViews | backend/app/api/v1/reports.py:65-73 | one view per sign detection, same length and order |
| Reports.GetReport | backend/app/api/v1/reports.py:23-80 | not-found exactly when the caller owns no trip with that id; the report carries the requested id |
| Reports.ReportOfFoundTrip | backend/app/api/v1/reports.py:30-41 | the report is the report of the caller's trip that the owner-scoped lookup finds |
| Reports.SummaryGuards | backend/app/api/v1/reports.py:46-54 | duration and unsafe count pass through; timestamps are None iff missing; distance and speeds are 0 iff missing or zero |
| Reports.ReportEvents | backend/app/api/v1/reports.py:55-64 | same length and order as the trip's events; type and location pass through; timestamp None iff missing; speed and acceleration 0 iff missing or zero |
| Reports.ReportSigns | backend/app/api/v1/reports.py:65-73 | same length and order as the detections; class and bbox pass through; timestamp None iff missing; confidence 0 iff missing or zero |
| Reports.ReportBreakdown | backend/app/api/v1/reports.py:75 | the report's breakdown has the trip's types as keys and counts each type's events |
| Reports.ReportRecommendations | backend/app/api/v1/reports.py:76 | the report carries the recommendations' texts; 1 to 4 recommendations; the fallback alone iff every count is within its threshold |
| Reports.ReportFallbackText | backend/app/api/v1/reports.py:76 | the report's recommendation strings are the single encouraging message iff every count is within its threshold |
| Reports.Digests | backend/app/api/v1/reports.py:135-143 | one digest per trip of the window, same length and order |
| Reports.DistancesKm | backend/app/api/v1/reports.py:134 | at most one term per trip; no terms exactly when no trip has a truthy distance |
| Reports.PySum | backend/app/api/v1/reports.py:134 | summing nothing leaves the start value; summing any term gives a float |
| Reports.GetTrends | backend/app/api/v1/reports.py:116-146 | fails exactly for a negative limit; total_trips is the number of digests and equals min(`limit`, number of trips the caller owns) |
| Reports.TrendsWindow | backend/app/api/v1/reports.py:122-143 | the window is the start of the caller's full newest-first list, holding min(`limit`, trips owned) trips, the caller's only; total_trips is its length; the digests follow its order, with id and unsafe count passed through and guards applied |
| Reports.TrendsGuards | backend/app/api/v1/reports.py:133-134 | the average is the integer 0 iff the window is empty; the distance total is the integer 0 iff no trip in the window has a truthy distance |
| Reports.DistancesSkipFalsy | backend/app/api/v1/reports.py:134 | a trip with a missing or zero distance contributes no term to the total |
| Reports.DistancesSingle | backend/app/api/v1/reports.py:134 | one trip contributes `distance_m / 1000` exactly when its distance is truthy, and nothing otherwise |
| Reports.DistancesAppend | backend/app/api/v1/reports.py:134 | the terms of a concatenation are the terms of each part, in order, so every truthy distance contributes its own term |
| Advice.Text | backend/app/api/v1/reports.py:99-111 | the five message strings, exactly as appended; `TextHasLength` and `TextInjective` state their lengths and that they are distinct |
| Store.NewEvent | backend/app/api/v1/trips.py:34-42 | one event row built from the payload, with its id and trip id; `TripStore.Upload` states that the stored events are these rows, in payload order |
| Store.NewSign | backend/app/api/v1/trips.py:47-55 | one sign-detection row built from the payload, with its id and trip id; `TripStore.Upload` states that the stored detections are these rows, in payload order |
| Store.AllOwned | backend/app/api/v1/trips.py:73-77 | the query before OFFSET/LIMIT; `AllOwnedFacts` states that it is a newest-first permutation of the caller's trips |
| Reports.SummaryOf | backend/app/api/v1/reports.py:46-54 | the summary dict; `SummaryGuards` states its pass-throughs and guards |
| Reports.EventViewOf | backend/app/api/v1/reports.py:56-62 | one event's dict; `ReportEvents` states its fields and guards |
| Reports.SignViewOf | backend/app/api/v1/reports.py:66-71 | one detection's dict; `ReportSigns` states its fields and guards |
| Reports.ReportOf | backend/app/api/v1/reports.py:44-78 | the report dict; `SummaryGuards`, `ReportEvents`, `ReportSigns`, `ReportBreakdown`, `ReportRecommendations` and `ReportFallbackText` state its parts |
| Reports.DigestOf | backend/app/api/v1/reports.py:136-141 | one recent-trip dict; `Digests` and `TrendsWindow` state its fields and guards |
| Reports.TrendsOf | backend/app/api/v1/reports.py:131-144 | the trends dict; `GetTrends`, `TrendsWindow` and `TrendsGuards` state its count, digests and guards |

## Left out

- `predict_sign` and its label table (`reports.py:149-188`). It decodes an image and makes an unseeded random draw, so it has no deterministic behaviour to model.
- Floating-point arithmetic is not interpreted:
  - ÷1000, ×3.6 and `round(x, n)`;
  - float addition in `sum` and the true division of the average.

  These are the fields of `FloatOps`, and nothing numeric is proved about them.
- `datetime.isoformat()` is the uninterpreted `FloatOps.isoformat`. A timestamp is an integer instant.
- Sessions, flushes, commits and transactional atomicity are left out. `Upload` applies the whole upload as one step.
- The order in which the database assigns serial ids across concurrent uploads is left out.
- Authentication is left out: the caller's user id is a parameter.
- Pydantic validation of payloads and responses is left out. The payload datatypes hold only well-typed values.
- The insertion order of the breakdown dictionary's keys is left out: it is a `map`.
- `scalar_one_or_none` raising on several matches is left out. Trip ids are unique under `TripStore.Valid`, so at most one trip matches.
- Advice.GenerateRecommendations: recounts through the `EventBreakdown` method rather than repeating the same loop inline (`reports.py:94-96`).
- Store.SortNewest, Store.GetTripsPages, Reports.TrendsWindow, Store.UploadIsolated, Store.TripStore.Upload: `ORDER BY created_at DESC` leaves the order of equal timestamps unspecified, and PostgreSQL may order ties differently for different OFFSET/LIMIT values. The model sorts stably into one fixed order. `GetTrips` and the lemmas about `SortNewest` state only newest-first order and permutation. `GetTripsPages` (pages join up) and `TrendsWindow` (the window is the start of `AllOwned`) are about that fixed order, and so are the listing-equality clauses of `UploadIsolated` and of `TripStore.Upload`'s last `ensures` (another user's page is the same sequence before and after an upload). The database may return that user's tied trips in a different order on each query even when none of their rows changed, and with OFFSET/LIMIT even a page's contents may differ. All of these carry over to the database only when the listed user's trips have pairwise distinct `created_at`: a caller with two trips A and B created at the same instant may see A on page (0, 1) and again on page (1, 1).
- Store.TripStore.Upload: integer columns are unbounded in the model. In the database `duration_seconds`, `unsafe_events` and the ids are 32-bit `INTEGER` columns (`models/trip.py:10-18`). The payload's `int` has no bound, so a value such as `unsafe_events = 2147483648` passes validation, but the insert fails and nothing is stored. The model instead appends the trip. That range error is not modelled.
- Store.TripStore.Upload, Store.GetTrip, Reports.ReportEvents, Reports.ReportSigns: a trip's events and sign detections are read back in insertion order. The relationships declare no `order_by` and the eager loads issue no ORDER BY, so the database does not promise that order.
- Store.GetTrips, Reports.GetTrends: the endpoints' default arguments (`skip=0`, `limit=100` at `trips.py:67-68`, `limit=10` at `reports.py:120`) are not modelled; the caller always passes both values.
- Store.GetTrips: PostgreSQL rejects a negative OFFSET or LIMIT with an error. The model returns `Err(NegativeWindow)` instead.
- The users table, the app wiring, configuration, migrations and the HTTP tests are not part of this model.
