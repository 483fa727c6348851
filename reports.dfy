/**
 * The trip report and the trends summary of backend/app/api/v1/reports.py:
 * get_report shapes one trip the caller owns into a summary, per-event and
 * per-sign views and the analytics; get_trends summarises the caller's
 * newest trips. Floating-point conversions and timestamp formatting come
 * from a `FloatOps` record and are not interpreted.
 */
module Reports {
  import opened Types
  import opened EventCounts
  import opened Advice
  import opened Store

  /**
   * A JSON number as the report builds it: the integer literal 0 of a
   * falsy guard, an integer column, or a float.
   */
  datatype Num = Int(i: int) | Float(f: real)

  /** `ts.isoformat() if ts else None` (a datetime is always truthy). */
  function Iso(ts: Option<Timestamp>, ops: FloatOps): (s: Option<string>)
    ensures s.None? <==> ts.None?
    ensures ts.Some? ==> s == Some(ops.isoformat(ts.value))
  {
    match ts
    case None => None
    case Some(t) => Some(ops.isoformat(t))
  }

  /**
   * `round(convert(x), digits) if x else 0`: a missing or zero value gives
   * the integer 0, any other value the rounded float.
   */
  function Guarded(x: Option<real>, convert: real -> real, digits: nat, ops: FloatOps): (n: Num)
    ensures n.Int? <==> !Truthy(x)
    ensures n.Int? ==> n.i == 0
    ensures n.Float? ==> n.f == ops.round(convert(x.value), digits)
  {
    if Truthy(x) then Float(ops.round(convert(x.value), digits)) else Int(0)
  }

  function Identity(x: real): real { x }

  // ---- get_report ----

  datatype Summary = Summary(
    startTime: Option<string>,
    endTime: Option<string>,
    durationSeconds: Option<int>,
    distanceKm: Num,
    avgSpeedKmh: Num,
    maxSpeedKmh: Num,
    unsafeEvents: int)

  datatype Location = Location(lat: Option<real>, lon: Option<real>)

  datatype EventView = EventView(
    eventType: string,
    timestamp: Option<string>,
    location: Location,
    speedKmh: Num,
    acceleration: Num)

  datatype SignView = SignView(
    timestamp: Option<string>,
    className: Option<string>,
    confidence: Num,
    bbox: Option<Json>)

  datatype Analytics = Analytics(eventBreakdown: map<string, nat>, recommendations: seq<string>)

  datatype Report = Report(
    tripId: nat,
    summary: Summary,
    events: seq<EventView>,
    signs: seq<SignView>,
    analytics: Analytics)

  function SummaryOf(t: Trip, ops: FloatOps): Summary {
    Summary(
      Iso(t.startTime, ops),
      Iso(t.endTime, ops),
      t.durationSeconds,
      Guarded(t.distanceM, ops.perThousand, 2, ops),
      Guarded(t.avgSpeedMs, ops.toKmh, 2, ops),
      Guarded(t.maxSpeedMs, ops.toKmh, 2, ops),
      t.unsafeEvents)
  }

  function EventViewOf(e: TripEvent, ops: FloatOps): EventView {
    EventView(
      e.eventType,
      Iso(e.timestamp, ops),
      Location(e.lat, e.lon),
      Guarded(e.speedMs, ops.toKmh, 2, ops),
      Guarded(e.accelMs2, Identity, 2, ops))
  }

  function SignViewOf(s: SignDetection, ops: FloatOps): SignView {
    SignView(Iso(s.ts, ops), s.className, Guarded(s.confidence, Identity, 3, ops), s.bbox)
  }

  /** One view per event, in the trip's order. */
  function EventViews(events: seq<TripEvent>, ops: FloatOps): (views: seq<EventView>)
    ensures |views| == |events|
    ensures forall i :: 0 <= i < |events| ==> views[i] == EventViewOf(events[i], ops)
  {
    if events == [] then [] else [EventViewOf(events[0], ops)] + EventViews(events[1..], ops)
  }

  /** One view per sign detection, in the trip's order. */
  function SignViews(signs: seq<SignDetection>, ops: FloatOps): (views: seq<SignView>)
    ensures |views| == |signs|
    ensures forall i :: 0 <= i < |signs| ==> views[i] == SignViewOf(signs[i], ops)
  {
    if signs == [] then [] else [SignViewOf(signs[0], ops)] + SignViews(signs[1..], ops)
  }

  /**
   * The report of one trip. The analytics are the breakdown and the
   * recommendations as specified in EventCounts and Advice, which the
   * EventBreakdown and GenerateRecommendations methods compute.
   */
  function ReportOf(t: Trip, ops: FloatOps): Report {
    var counts := Breakdown(t.events);
    Report(
      t.id,
      SummaryOf(t, ops),
      EventViews(t.events, ops),
      SignViews(t.signs, ops),
      Analytics(counts, Texts(Recommendations(counts))))
  }

  /**
   * get_report: the report of the trip with id `tripId` if the caller owns
   * it; not-found when there is no such trip or another user owns it.
   */
  function GetReport(trips: seq<Trip>, tripId: int, caller: nat, ops: FloatOps): (r: Result<Report>)
    ensures r.Err? <==> !HasOwned(trips, tripId, caller)
    ensures r.Err? ==> r.error == NotFound
    ensures r.Ok? ==> r.value.tripId == tripId
  {
    match GetTrip(trips, tripId, caller)
    case Err(e) => Err(e)
    case Ok(t) => Ok(ReportOf(t, ops))
  }

  /** The report found is the report of the trip get_trip finds. */
  lemma ReportOfFoundTrip(trips: seq<Trip>, tripId: int, caller: nat, ops: FloatOps)
    requires HasOwned(trips, tripId, caller)
    ensures var t := GetTrip(trips, tripId, caller).value;
      t in trips && t.userId == caller &&
      GetReport(trips, tripId, caller, ops) == Ok(ReportOf(t, ops))
  {
  }

  /**
   * The summary passes the duration and unsafe-event count through, gives
   * no timestamp exactly for a missing one, and gives 0 exactly for a
   * missing or zero distance or speed.
   */
  lemma SummaryGuards(t: Trip, ops: FloatOps)
    ensures var s := ReportOf(t, ops).summary;
      s.durationSeconds == t.durationSeconds && s.unsafeEvents == t.unsafeEvents &&
      (s.startTime.None? <==> t.startTime.None?) && (s.endTime.None? <==> t.endTime.None?) &&
      (s.distanceKm == Int(0) <==> !Truthy(t.distanceM)) &&
      (s.avgSpeedKmh == Int(0) <==> !Truthy(t.avgSpeedMs)) &&
      (s.maxSpeedKmh == Int(0) <==> !Truthy(t.maxSpeedMs))
  {
  }

  /**
   * The report lists the trip's events in order, one view each: the type
   * and location pass through, a missing timestamp stays missing, and a
   * missing or zero speed or acceleration gives 0.
   */
  lemma ReportEvents(t: Trip, ops: FloatOps)
    ensures var vs := ReportOf(t, ops).events;
      |vs| == |t.events| &&
      forall i :: 0 <= i < |vs| ==>
        vs[i].eventType == t.events[i].eventType &&
        vs[i].location == Location(t.events[i].lat, t.events[i].lon) &&
        (vs[i].timestamp.None? <==> t.events[i].timestamp.None?) &&
        (vs[i].speedKmh == Int(0) <==> !Truthy(t.events[i].speedMs)) &&
        (vs[i].acceleration == Int(0) <==> !Truthy(t.events[i].accelMs2))
  {
  }

  /**
   * The report lists the trip's sign detections in order, one view each:
   * class and bounding box pass through, a missing timestamp stays
   * missing, and a missing or zero confidence gives 0.
   */
  lemma ReportSigns(t: Trip, ops: FloatOps)
    ensures var vs := ReportOf(t, ops).signs;
      |vs| == |t.signs| &&
      forall i :: 0 <= i < |vs| ==>
        vs[i].className == t.signs[i].className && vs[i].bbox == t.signs[i].bbox &&
        (vs[i].timestamp.None? <==> t.signs[i].ts.None?) &&
        (vs[i].confidence == Int(0) <==> !Truthy(t.signs[i].confidence))
  {
  }

  /** The breakdown of the report counts every event type of the trip. */
  lemma ReportBreakdown(t: Trip, ops: FloatOps, ty: string)
    ensures var a := ReportOf(t, ops).analytics;
      a.eventBreakdown.Keys == TypesPresent(t.events) &&
      CountOf(a.eventBreakdown, ty) == Count(t.events, ty)
  {
    BreakdownCountOf(t.events, ty);
  }

  /**
   * The report carries the texts of the recommendations, between one and
   * four of them; the recommendations are the fallback alone exactly when
   * no threshold is exceeded.
   */
  lemma ReportRecommendations(t: Trip, ops: FloatOps)
    ensures var recs := Recommendations(Breakdown(t.events));
      ReportOf(t, ops).analytics.recommendations == Texts(recs) &&
      1 <= |recs| <= 4 &&
      (recs == [GreatDriving] <==>
        Count(t.events, "hard_brake") <= 3 && Count(t.events, "harsh_accel") <= 3 &&
        Count(t.events, "overspeed") <= 5 && Count(t.events, "unsafe_curve") <= 2)
  {
    var counts := Breakdown(t.events);
    BreakdownCountOf(t.events, "hard_brake");
    BreakdownCountOf(t.events, "harsh_accel");
    BreakdownCountOf(t.events, "overspeed");
    BreakdownCountOf(t.events, "unsafe_curve");
    RecommendationRules(counts);
    FallbackThresholds(counts);
  }

  /**
   * The report's recommendation list is the single encouraging message
   * exactly when no threshold is exceeded; the texts are distinct, so the
   * strings say as much as the advisories.
   */
  lemma ReportFallbackText(t: Trip, ops: FloatOps)
    ensures ReportOf(t, ops).analytics.recommendations == [Text(GreatDriving)] <==>
      Count(t.events, "hard_brake") <= 3 && Count(t.events, "harsh_accel") <= 3 &&
      Count(t.events, "overspeed") <= 5 && Count(t.events, "unsafe_curve") <= 2
  {
    var recs := Recommendations(Breakdown(t.events));
    ReportRecommendations(t, ops);
    assert Texts([GreatDriving]) == [Text(GreatDriving)];
    TextsInjective(recs, [GreatDriving]);
  }

  // ---- get_trends ----

  datatype TripDigest = TripDigest(tripId: nat, date: Option<string>, unsafeEvents: int, distanceKm: Num)

  datatype Trends = Trends(
    totalTrips: nat,
    avgUnsafeEvents: Num,
    totalDistanceKm: Num,
    recentTrips: seq<TripDigest>)

  function DigestOf(t: Trip, ops: FloatOps): TripDigest {
    TripDigest(t.id, Iso(t.startTime, ops), t.unsafeEvents, Guarded(t.distanceM, ops.perThousand, 2, ops))
  }

  function Digests(trips: seq<Trip>, ops: FloatOps): (ds: seq<TripDigest>)
    ensures |ds| == |trips|
    ensures forall i :: 0 <= i < |trips| ==> ds[i] == DigestOf(trips[i], ops)
  {
    if trips == [] then [] else [DigestOf(trips[0], ops)] + Digests(trips[1..], ops)
  }

  /** The sum of the unsafe-event counts (integer arithmetic). */
  function SumUnsafe(trips: seq<Trip>): int {
    if trips == [] then 0 else trips[0].unsafeEvents + SumUnsafe(trips[1..])
  }

  /** `t.distance_m / 1000` for each trip with a truthy distance, in order. */
  function DistancesKm(trips: seq<Trip>, ops: FloatOps): (ds: seq<real>)
    ensures |ds| <= |trips|
    ensures ds == [] <==> forall i :: 0 <= i < |trips| ==> !Truthy(trips[i].distanceM)
  {
    if trips == [] then []
    else
      var rest := DistancesKm(trips[1..], ops);
      assert forall i :: 1 <= i < |trips| ==> trips[i] == trips[1..][i - 1];
      if Truthy(trips[0].distanceM) then [ops.perThousand(trips[0].distanceM.value)] + rest else rest
  }

  /** The value of a number as a float. */
  function AsReal(n: Num): real {
    match n
    case Int(i) => i as real
    case Float(f) => f
  }

  /**
   * Python's `sum` over floats, modelled as a left fold of the uninterpreted
   * `ops.add` onto `acc`. A compensated sum is not expressed, and nothing
   * numeric is proved about the total.
   */
  function PySum(acc: Num, xs: seq<real>, ops: FloatOps): (s: Num)
    decreases |xs|
    ensures xs == [] ==> s == acc
    ensures xs != [] ==> s.Float?
  {
    if xs == [] then acc else PySum(Float(ops.add(AsReal(acc), xs[0])), xs[1..], ops)
  }

  /** The trends of a window of trips. */
  function TrendsOf(window: seq<Trip>, ops: FloatOps): Trends {
    Trends(
      |window|,
      if window == [] then Int(0) else Float(ops.trueDiv(SumUnsafe(window), |window|)),
      PySum(Int(0), DistancesKm(window, ops), ops),
      Digests(window, ops))
  }

  /**
   * get_trends: the trends of the caller's newest `limit` trips. The
   * database rejects a negative LIMIT.
   */
  function GetTrends(trips: seq<Trip>, caller: nat, limit: int, ops: FloatOps): (r: Result<Trends>)
    ensures r.Err? <==> limit < 0
    ensures r.Err? ==> r.error == NegativeWindow
    ensures r.Ok? ==> var n := |Owned(trips, caller)|;
      r.value.totalTrips == |r.value.recentTrips| == (if limit < n then limit else n)
  {
    match GetTrips(trips, caller, 0, limit)
    case Err(e) => Err(e)
    case Ok(window) => Ok(TrendsOf(window, ops))
  }

  /**
   * The window holds only the caller's trips, newest first, as many of
   * them as `limit` allows, and is the start of the caller's full
   * newest-first list (the first page of get_trips); the digests follow the
   * window's order one for one.
   */
  lemma TrendsWindow(trips: seq<Trip>, caller: nat, limit: nat, ops: FloatOps)
    ensures var w := GetTrips(trips, caller, 0, limit).value;
      var tr := GetTrends(trips, caller, limit, ops).value;
      var n := |Owned(trips, caller)|;
      NewestFirst(w) && |w| == (if limit < n then limit else n) &&
      w == AllOwned(trips, caller)[..|w|] &&
      (forall t :: t in w ==> t in trips && t.userId == caller) &&
      tr.totalTrips == |w| &&
      forall i :: 0 <= i < |w| ==>
        tr.recentTrips[i].tripId == w[i].id && tr.recentTrips[i].unsafeEvents == w[i].unsafeEvents &&
        (tr.recentTrips[i].date.None? <==> w[i].startTime.None?) &&
        (tr.recentTrips[i].distanceKm == Int(0) <==> !Truthy(w[i].distanceM))
  {
  }

  /**
   * The average is the integer 0 exactly for an empty window, and the
   * distance total is the integer 0 exactly when no trip in the window has
   * a truthy distance.
   */
  lemma TrendsGuards(trips: seq<Trip>, caller: nat, limit: nat, ops: FloatOps)
    ensures var w := GetTrips(trips, caller, 0, limit).value;
      var tr := GetTrends(trips, caller, limit, ops).value;
      (tr.avgUnsafeEvents == Int(0) <==> w == []) &&
      (tr.totalDistanceKm == Int(0) <==> forall i :: 0 <= i < |w| ==> !Truthy(w[i].distanceM))
  {
  }

  /** One trip contributes its distance in kilometres exactly when the distance is truthy. */
  lemma DistancesSingle(t: Trip, ops: FloatOps)
    ensures DistancesKm([t], ops) ==
      if Truthy(t.distanceM) then [ops.perThousand(t.distanceM.value)] else []
  {
    assert [t][1..] == [];
  }

  /** The distances of two runs of trips are the distances of each, in order. */
  lemma {:induction false} DistancesAppend(a: seq<Trip>, b: seq<Trip>, ops: FloatOps)
    ensures DistancesKm(a + b, ops) == DistancesKm(a, ops) + DistancesKm(b, ops)
  {
    if a == [] {
      assert a + b == b;
    } else {
      assert (a + b)[1..] == a[1..] + b;
      DistancesAppend(a[1..], b, ops);
    }
  }

  /** A trip with a missing or zero distance adds nothing to the total. */
  lemma {:induction false} DistancesSkipFalsy(a: seq<Trip>, t: Trip, b: seq<Trip>, ops: FloatOps)
    requires !Truthy(t.distanceM)
    ensures DistancesKm(a + [t] + b, ops) == DistancesKm(a + b, ops)
  {
    if a == [] {
      assert a + [t] + b == [t] + b;
      assert ([t] + b)[1..] == b;
      assert a + b == b;
    } else {
      assert (a + [t] + b)[1..] == a[1..] + [t] + b;
      assert (a + b)[1..] == a[1..] + b;
      DistancesSkipFalsy(a[1..], t, b, ops);
    }
  }
}
