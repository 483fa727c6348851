/**
 * Records of the trip store: a trip owned by a user, with its ordered
 * events and sign detections, and the upload payload they are made from.
 * Nullable database columns are `Option`s; floats are `real`s.
 */
module Types {

  datatype Option<+T> = None | Some(value: T)

  /** The failures the trip and report endpoints signal to their caller. */
  datatype Error =
    | NotFound        // no trip with that id owned by the caller (HTTP 404)
    | NegativeWindow  // a negative OFFSET or LIMIT, which the database rejects

  datatype Result<+T> = Ok(value: T) | Err(error: Error)

  /** An instant, as a count of time units since an epoch; larger is later. */
  type Timestamp = int

  /** The JSON document stored in a sign detection's bounding-box column. */
  datatype Json =
    | JNull
    | JBool(b: bool)
    | JNumber(n: real)
    | JString(s: string)
    | JArray(items: seq<Json>)
    | JObject(fields: map<string, Json>)

  /** A row of the trip_events table. */
  datatype TripEvent = TripEvent(
    id: nat,
    tripId: nat,
    eventType: string,
    timestamp: Option<Timestamp>,
    lat: Option<real>,
    lon: Option<real>,
    speedMs: Option<real>,
    accelMs2: Option<real>)

  /** A row of the sign_detections table. */
  datatype SignDetection = SignDetection(
    id: nat,
    tripId: nat,
    ts: Option<Timestamp>,
    className: Option<string>,
    confidence: Option<real>,
    bbox: Option<Json>)

  /**
   * A row of the trips table together with the children it owns.
   * `unsafeEvents` is never null: the column defaults to 0 and every insert
   * supplies it. `createdAt` is filled by the database clock on insert.
   */
  datatype Trip = Trip(
    id: nat,
    userId: nat,
    startTime: Option<Timestamp>,
    endTime: Option<Timestamp>,
    durationSeconds: Option<int>,
    distanceM: Option<real>,
    avgSpeedMs: Option<real>,
    maxSpeedMs: Option<real>,
    unsafeEvents: int,
    createdAt: Timestamp,
    events: seq<TripEvent>,
    signs: seq<SignDetection>)

  /** One event of an upload payload; every field is required. */
  datatype EventCreate = EventCreate(
    eventType: string,
    timestamp: Timestamp,
    lat: real,
    lon: real,
    speedMs: real,
    accelMs2: real)

  /** One sign detection of an upload payload; every field is required. */
  datatype SignCreate = SignCreate(
    ts: Timestamp,
    className: string,
    confidence: real,
    bbox: map<string, Json>)

  /** An upload payload: trip-level metrics plus ordered child lists. */
  datatype TripCreate = TripCreate(
    startTime: Timestamp,
    endTime: Timestamp,
    durationSeconds: int,
    distanceM: real,
    avgSpeedMs: real,
    maxSpeedMs: real,
    unsafeEvents: int,
    events: seq<EventCreate>,
    signs: seq<SignCreate>)

  /**
   * The floating-point and formatting primitives the reports use, kept
   * uninterpreted: the model proves nothing numeric about them.
   */
  datatype FloatOps = FloatOps(
    isoformat: Timestamp -> string,  // datetime.isoformat()
    perThousand: real -> real,       // x / 1000
    toKmh: real -> real,             // x * 3.6
    round: (real, nat) -> real,      // round(x, digits)
    add: (real, real) -> real,       // float +
    trueDiv: (int, int) -> real)     // int / int

  /** Python truthiness of a nullable float: missing and 0.0 are both false. */
  predicate Truthy(x: Option<real>) {
    x.Some? && x.value != 0.0
  }

}
