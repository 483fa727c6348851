/**
 * The trip store behind backend/app/api/v1/trips.py: the trips table with
 * each trip's events and sign detections, an upload that adds one trip and
 * its children, and the owner-scoped queries get_trip and get_trips.
 */
module Store {
  import opened Types

  // ---- Upload ----

  /** The trip_events row made from one payload event. */
  function NewEvent(e: EventCreate, id: nat, tripId: nat): TripEvent {
    TripEvent(id, tripId, e.eventType, Some(e.timestamp), Some(e.lat), Some(e.lon), Some(e.speedMs), Some(e.accelMs2))
  }

  /** The sign_detections row made from one payload detection. */
  function NewSign(s: SignCreate, id: nat, tripId: nat): SignDetection {
    SignDetection(id, tripId, Some(s.ts), Some(s.className), Some(s.confidence), Some(JObject(s.bbox)))
  }

  /** The trip-level columns of `t` hold the payload's values. */
  predicate HasPayloadFields(t: Trip, p: TripCreate) {
    t.startTime == Some(p.startTime) && t.endTime == Some(p.endTime) &&
    t.durationSeconds == Some(p.durationSeconds) && t.distanceM == Some(p.distanceM) &&
    t.avgSpeedMs == Some(p.avgSpeedMs) && t.maxSpeedMs == Some(p.maxSpeedMs) &&
    t.unsafeEvents == p.unsafeEvents
  }

  /**
   * Every child of `t` points back at `t`, and all ids were handed out
   * before the given next ids.
   */
  predicate WellFormed(t: Trip, nextTripId: nat, nextEventId: nat, nextSignId: nat) {
    1 <= t.id < nextTripId &&
    (forall e :: e in t.events ==> e.tripId == t.id && 1 <= e.id < nextEventId) &&
    (forall s :: s in t.signs ==> s.tripId == t.id && 1 <= s.id < nextSignId)
  }

  /**
   * The trips table and its two child tables. Ids come from three counters,
   * as the database's serial columns hand them out: each new row takes the
   * counter's value and bumps it.
   */
  class TripStore {
    var trips: seq<Trip>
    var nextTripId: nat
    var nextEventId: nat
    var nextSignId: nat

    /** Trip ids increase along the table, and every trip is well formed. */
    ghost predicate Valid()
      reads this
    {
      1 <= nextTripId && 1 <= nextEventId && 1 <= nextSignId &&
      (forall i :: 0 <= i < |trips| ==> WellFormed(trips[i], nextTripId, nextEventId, nextSignId)) &&
      IdsIncreasing(trips)
    }

    constructor ()
      ensures Valid()
      ensures trips == []
      ensures nextTripId == 1 && nextEventId == 1 && nextSignId == 1
    {
      trips := [];
      nextTripId, nextEventId, nextSignId := 1, 1, 1;
    }

    /**
     * upload_trip: the new trip is owned by the caller, takes a fresh id and
     * the payload's trip-level values, and `now` as its creation time; then
     * one event and one sign detection per payload entry, in payload order,
     * each pointing at the new trip and taking a fresh id of its own. The
     * trip is added after every existing one, which stay as they were.
     */
    method Upload(caller: nat, payload: TripCreate, now: Timestamp) returns (t: Trip)
      requires Valid()
      modifies this
      ensures Valid()
      ensures trips == old(trips) + [t]
      ensures t.id == old(nextTripId) && nextTripId == old(nextTripId) + 1
      ensures t.userId == caller && t.createdAt == now
      ensures HasPayloadFields(t, payload)
      ensures |t.events| == |payload.events| && nextEventId == old(nextEventId) + |payload.events|
      ensures forall i :: 0 <= i < |payload.events| ==>
        t.events[i] == NewEvent(payload.events[i], old(nextEventId) + i, t.id)
      ensures |t.signs| == |payload.signs| && nextSignId == old(nextSignId) + |payload.signs|
      ensures forall i :: 0 <= i < |payload.signs| ==>
        t.signs[i] == NewSign(payload.signs[i], old(nextSignId) + i, t.id)
      ensures GetTrip(trips, t.id, caller) == Ok(t)
      ensures forall tripId: int, user: nat :: user != caller || tripId != t.id ==>
        GetTrip(trips, tripId, user) == GetTrip(old(trips), tripId, user)
      ensures forall user: nat, skip: int, limit: int :: user != caller ==>
        GetTrips(trips, user, skip, limit) == GetTrips(old(trips), user, skip, limit)
    {
      var tripId := nextTripId;
      nextTripId := nextTripId + 1;

      var events: seq<TripEvent> := [];
      for i := 0 to |payload.events|
        invariant trips == old(trips) && nextTripId == tripId + 1 && nextSignId == old(nextSignId)
        invariant |events| == i && nextEventId == old(nextEventId) + i
        invariant forall k :: 0 <= k < i ==> events[k] == NewEvent(payload.events[k], old(nextEventId) + k, tripId)
      {
        events := events + [NewEvent(payload.events[i], nextEventId, tripId)];
        nextEventId := nextEventId + 1;
      }

      var signs: seq<SignDetection> := [];
      for i := 0 to |payload.signs|
        invariant trips == old(trips) && nextTripId == tripId + 1
        invariant nextEventId == old(nextEventId) + |payload.events|
        invariant |signs| == i && nextSignId == old(nextSignId) + i
        invariant forall k :: 0 <= k < i ==> signs[k] == NewSign(payload.signs[k], old(nextSignId) + k, tripId)
      {
        signs := signs + [NewSign(payload.signs[i], nextSignId, tripId)];
        nextSignId := nextSignId + 1;
      }

      t := Trip(tripId, caller, Some(payload.startTime), Some(payload.endTime), Some(payload.durationSeconds),
        Some(payload.distanceM), Some(payload.avgSpeedMs), Some(payload.maxSpeedMs), payload.unsafeEvents,
        now, events, signs);
      assert WellFormed(t, nextTripId, nextEventId, nextSignId) by {
        forall e | e in t.events ensures e.tripId == t.id && 1 <= e.id < nextEventId {
          var k :| 0 <= k < |events| && events[k] == e;
        }
        forall s | s in t.signs ensures s.tripId == t.id && 1 <= s.id < nextSignId {
          var k :| 0 <= k < |signs| && signs[k] == s;
        }
      }
      forall i | 0 <= i < |trips| ensures WellFormed(trips[i], nextTripId, nextEventId, nextSignId) {
        assert WellFormed(trips[i], old(nextTripId), old(nextEventId), old(nextSignId));
      }
      UploadThenGet(trips, t);
      forall tripId: int, user: nat | user != caller || tripId != t.id
        ensures GetTrip(trips + [t], tripId, user) == GetTrip(trips, tripId, user)
      {
        UploadKeepsOtherTrips(trips, t, tripId, user);
      }
      forall user: nat, skip: int, limit: int | user != caller
        ensures GetTrips(trips + [t], user, skip, limit) == GetTrips(trips, user, skip, limit)
      {
        UploadIsolated(trips, t, user, 0, skip, limit);
      }
      trips := trips + [t];
    }
  }

  // ---- get_trip ----

  /** The caller owns a trip with id `tripId`. */
  predicate HasOwned(trips: seq<Trip>, tripId: int, caller: nat) {
    exists i :: 0 <= i < |trips| && trips[i].id == tripId && trips[i].userId == caller
  }

  /**
   * get_trip: the trip with id `tripId` if the caller owns it, otherwise
   * not-found; another user's trip is reported exactly like a missing one.
   */
  function GetTrip(trips: seq<Trip>, tripId: int, caller: nat): (r: Result<Trip>)
    ensures r.Ok? <==> HasOwned(trips, tripId, caller)
    ensures r.Err? ==> r.error == NotFound
    ensures r.Ok? ==> r.value in trips && r.value.id == tripId && r.value.userId == caller
  {
    if trips == [] then Err(NotFound)
    else if trips[0].id == tripId && trips[0].userId == caller then Ok(trips[0])
    else
      var r := GetTrip(trips[1..], tripId, caller);
      assert HasOwned(trips, tripId, caller) ==> HasOwned(trips[1..], tripId, caller) by {
        if HasOwned(trips, tripId, caller) {
          var i :| 0 <= i < |trips| && trips[i].id == tripId && trips[i].userId == caller;
          assert i != 0;
          assert trips[1..][i - 1] == trips[i];
        }
      }
      assert HasOwned(trips[1..], tripId, caller) ==> HasOwned(trips, tripId, caller) by {
        if HasOwned(trips[1..], tripId, caller) {
          var i :| 0 <= i < |trips| - 1 && trips[1..][i].id == tripId && trips[1..][i].userId == caller;
          assert trips[i + 1] == trips[1..][i];
        }
      }
      r
  }

  /** Trip ids are unique when they increase along the table. */
  predicate IdsIncreasing(trips: seq<Trip>) {
    forall i, j :: 0 <= i < j < |trips| ==> trips[i].id < trips[j].id
  }

  /** With unique ids, get_trip returns the one matching trip. */
  lemma {:induction false} GetTripFinds(trips: seq<Trip>, i: nat, caller: nat)
    requires IdsIncreasing(trips)
    requires i < |trips| && trips[i].userId == caller
    ensures GetTrip(trips, trips[i].id, caller) == Ok(trips[i])
  {
    if i > 0 {
      assert trips[0].id < trips[i].id;
      assert trips[1..][i - 1] == trips[i];
      GetTripFinds(trips[1..], i - 1, caller);
    }
  }

  // ---- get_trips ----

  /** The caller's trips, in table order. */
  function Owned(trips: seq<Trip>, caller: nat): (r: seq<Trip>)
    ensures forall t :: multiset(r)[t] == if t.userId == caller then multiset(trips)[t] else 0
  {
    if trips == [] then []
    else
      var rest := Owned(trips[1..], caller);
      assert trips == [trips[0]] + trips[1..];
      if trips[0].userId == caller then [trips[0]] + rest else rest
  }

  lemma OwnedMembers(trips: seq<Trip>, caller: nat)
    ensures forall t :: t in Owned(trips, caller) <==> t in trips && t.userId == caller
  {
    forall t ensures t in Owned(trips, caller) <==> t in trips && t.userId == caller {
      assert t in Owned(trips, caller) <==> t in multiset(Owned(trips, caller));
      assert t in trips <==> t in multiset(trips);
    }
  }

  /** Filtering by owner distributes over concatenation. */
  lemma {:induction false} OwnedAppend(a: seq<Trip>, b: seq<Trip>, caller: nat)
    ensures Owned(a + b, caller) == Owned(a, caller) + Owned(b, caller)
  {
    if a == [] {
      assert a + b == b;
    } else {
      assert (a + b)[1..] == a[1..] + b;
      OwnedAppend(a[1..], b, caller);
    }
  }

  /** Newest `created_at` first. */
  predicate NewestFirst(s: seq<Trip>) {
    forall i, j :: 0 <= i < j < |s| ==> s[i].createdAt >= s[j].createdAt
  }

  /** Insert `t` ahead of the first trip no newer than it. */
  function Insert(t: Trip, s: seq<Trip>): (r: seq<Trip>)
    ensures multiset(r) == multiset(s) + multiset{t}
    ensures |r| == |s| + 1 && (r[0] == t || (s != [] && r[0] == s[0]))
  {
    if s == [] || t.createdAt >= s[0].createdAt then
      [t] + s
    else
      assert s == [s[0]] + s[1..];
      [s[0]] + Insert(t, s[1..])
  }

  /** Inserting into a newest-first list keeps it newest first. */
  lemma {:induction false} InsertNewestFirst(t: Trip, s: seq<Trip>)
    requires NewestFirst(s)
    ensures NewestFirst(Insert(t, s))
  {
    if s == [] || t.createdAt >= s[0].createdAt {
      PrependNewest(t, s);
    } else {
      var tail := s[1..];
      assert NewestFirst(tail) by {
        forall i, j | 0 <= i < j < |tail| ensures tail[i].createdAt >= tail[j].createdAt {
          assert tail[i] == s[i + 1] && tail[j] == s[j + 1];
        }
      }
      InsertNewestFirst(t, tail);
      var rest := Insert(t, tail);
      assert s[0].createdAt >= rest[0].createdAt by {
        if rest[0] != t {
          assert rest[0] == s[1];
        }
      }
      PrependNewest(s[0], rest);
    }
  }

  /** A trip at least as new as the head of a newest-first list may go in front of it. */
  lemma PrependNewest(x: Trip, s: seq<Trip>)
    requires NewestFirst(s)
    requires s != [] ==> x.createdAt >= s[0].createdAt
    ensures NewestFirst([x] + s)
  {
    var r := [x] + s;
    forall i, j | 0 <= i < j < |r| ensures r[i].createdAt >= r[j].createdAt {
      if i == 0 && j > 1 {
        assert s[0].createdAt >= s[j - 1].createdAt;
      }
    }
  }

  /** ORDER BY created_at DESC: a newest-first permutation of `s`. */
  function SortNewest(s: seq<Trip>): (r: seq<Trip>)
    ensures NewestFirst(r)
    ensures multiset(r) == multiset(s)
  {
    if s == [] then []
    else
      assert s == [s[0]] + s[1..];
      var rest := SortNewest(s[1..]);
      InsertNewestFirst(s[0], rest);
      Insert(s[0], rest)
  }

  /** OFFSET skip LIMIT limit: drop the first `skip`, keep at most `limit`. */
  function Window(s: seq<Trip>, skip: nat, limit: nat): (w: seq<Trip>)
    ensures skip >= |s| ==> w == []
    ensures skip < |s| ==> |w| == (if limit < |s| - skip then limit else |s| - skip) && w == s[skip..skip + |w|]
  {
    if skip >= |s| then []
    else if limit < |s| - skip then s[skip..skip + limit]
    else s[skip..]
  }

  /** A window of a newest-first list is newest first and takes its trips from the list. */
  lemma WindowOfSorted(s: seq<Trip>, skip: nat, limit: nat)
    requires NewestFirst(s)
    ensures NewestFirst(Window(s, skip, limit))
    ensures forall t :: t in Window(s, skip, limit) ==> t in s
  {
    var w := Window(s, skip, limit);
    if skip < |s| {
      forall i, j | 0 <= i < j < |w| ensures w[i].createdAt >= w[j].createdAt {
        assert w[i] == s[skip + i] && w[j] == s[skip + j];
      }
      forall t | t in w ensures t in s {
        var i :| 0 <= i < |w| && w[i] == t;
        assert t == s[skip + i];
      }
    }
  }

  /** The full list, unwindowed, is a newest-first permutation of the caller's trips. */
  function AllOwned(trips: seq<Trip>, caller: nat): seq<Trip> {
    SortNewest(Owned(trips, caller))
  }

  lemma AllOwnedFacts(trips: seq<Trip>, caller: nat)
    ensures NewestFirst(AllOwned(trips, caller))
    ensures multiset(AllOwned(trips, caller)) == multiset(Owned(trips, caller))
    ensures |AllOwned(trips, caller)| == |Owned(trips, caller)|
    ensures forall t :: t in AllOwned(trips, caller) ==> t in trips && t.userId == caller
  {
    var sorted := AllOwned(trips, caller);
    OwnedMembers(trips, caller);
    assert forall t :: t in sorted ==> t in multiset(Owned(trips, caller));
    assert |multiset(sorted)| == |multiset(Owned(trips, caller))|;
  }

  /**
   * get_trips: the caller's trips, newest first, after OFFSET `skip`, at
   * most `limit` of them. The database rejects a negative OFFSET or LIMIT.
   */
  function GetTrips(trips: seq<Trip>, caller: nat, skip: int, limit: int): (r: Result<seq<Trip>>)
    ensures r.Err? <==> skip < 0 || limit < 0
    ensures r.Err? ==> r.error == NegativeWindow
    ensures r.Ok? ==> |r.value| <= limit && NewestFirst(r.value)
    ensures r.Ok? ==> forall t :: t in r.value ==> t in trips && t.userId == caller
    ensures r.Ok? ==> (exists s :: NewestFirst(s) && multiset(s) == multiset(Owned(trips, caller)) &&
                                  r.value == Window(s, skip, limit))
    ensures r.Ok? ==> var n := |Owned(trips, caller)|;
      |r.value| == (if skip >= n then 0 else if limit < n - skip then limit else n - skip)
  {
    if skip < 0 || limit < 0 then Err(NegativeWindow)
    else
      PageFacts(trips, caller, skip, limit);
      Ok(Window(AllOwned(trips, caller), skip, limit))
  }

  /** What get_trips promises about the page it returns. */
  lemma PageFacts(trips: seq<Trip>, caller: nat, skip: nat, limit: nat)
    ensures var w := Window(AllOwned(trips, caller), skip, limit);
      var n := |Owned(trips, caller)|;
      |w| <= limit && NewestFirst(w) &&
      (forall t :: t in w ==> t in trips && t.userId == caller) &&
      (exists s :: NewestFirst(s) && multiset(s) == multiset(Owned(trips, caller)) &&
                   w == Window(s, skip, limit)) &&
      |w| == (if skip >= n then 0 else if limit < n - skip then limit else n - skip)
  {
    var sorted := AllOwned(trips, caller);
    AllOwnedFacts(trips, caller);
    WindowOfSorted(sorted, skip, limit);
  }

  /**
   * Paging is consistent: the page after `skip` of size `a + b` is the page
   * of size `a` followed by the page after `skip + a` of size `b`; and a
   * window large enough holds every trip the caller owns.
   */
  lemma GetTripsPages(trips: seq<Trip>, caller: nat, skip: nat, a: nat, b: nat)
    ensures GetTrips(trips, caller, skip, a + b).value ==
      GetTrips(trips, caller, skip, a).value + GetTrips(trips, caller, skip + a, b).value
  {
    WindowPages(AllOwned(trips, caller), skip, a, b);
  }

  lemma WindowPages(s: seq<Trip>, skip: nat, a: nat, b: nat)
    ensures Window(s, skip, a + b) == Window(s, skip, a) + Window(s, skip + a, b)
  {
    if skip + a < |s| {
      if skip + a + b <= |s| {
        assert s[skip..skip + a + b] == s[skip..skip + a] + s[skip + a..skip + a + b];
      } else {
        assert s[skip..] == s[skip..skip + a] + s[skip + a..];
      }
    }
  }

  lemma GetTripsAll(trips: seq<Trip>, caller: nat, limit: nat)
    requires limit >= |trips|
    ensures multiset(GetTrips(trips, caller, 0, limit).value) == multiset(Owned(trips, caller))
  {
    var s := AllOwned(trips, caller);
    assert |s| == |Owned(trips, caller)| by {
      assert |multiset(s)| == |multiset(Owned(trips, caller))|;
    }
    assert |Owned(trips, caller)| <= |trips| by {
      OwnedLength(trips, caller);
    }
    assert s[0..] == s;
  }

  lemma {:induction false} OwnedLength(trips: seq<Trip>, caller: nat)
    ensures |Owned(trips, caller)| <= |trips|
  {
    if trips != [] {
      OwnedLength(trips[1..], caller);
    }
  }

  /** The first trip of a window from the start is at least as new as every trip the caller owns. */
  lemma NewestComesFirst(trips: seq<Trip>, caller: nat, limit: nat, t: Trip)
    requires limit > 0
    requires t in trips && t.userId == caller
    ensures var w := GetTrips(trips, caller, 0, limit).value;
      w != [] && w[0].createdAt >= t.createdAt
  {
    var s := AllOwned(trips, caller);
    OwnedMembers(trips, caller);
    assert t in multiset(s);
    var j :| 0 <= j < |s| && s[j] == t;
  }

  // ---- What an upload does to the queries ----

  /**
   * Right after the upload, get_trip finds the new trip for its owner (the
   * new trip's id exceeds every existing id).
   */
  lemma UploadThenGet(trips: seq<Trip>, t: Trip)
    requires IdsIncreasing(trips)
    requires forall i :: 0 <= i < |trips| ==> trips[i].id < t.id
    ensures GetTrip(trips + [t], t.id, t.userId) == Ok(t)
  {
    var s := trips + [t];
    assert IdsIncreasing(s);
    GetTripFinds(s, |trips|, t.userId);
  }

  /**
   * An upload changes nothing another user sees: neither the result of
   * get_trip nor any page of get_trips.
   */
  lemma UploadIsolated(trips: seq<Trip>, t: Trip, other: nat, tripId: int, skip: int, limit: int)
    requires t.userId != other
    ensures GetTrip(trips + [t], tripId, other) == GetTrip(trips, tripId, other)
    ensures GetTrips(trips + [t], other, skip, limit) == GetTrips(trips, other, skip, limit)
  {
    OwnedAppend(trips, [t], other);
    assert Owned([t], other) == [];
    assert Owned(trips + [t], other) == Owned(trips, other);
    UploadKeepsOtherTrips(trips, t, tripId, other);
  }

  /**
   * An upload changes no other lookup: get_trip gives what it gave before
   * for every id but the new trip's, and for every user but its owner.
   */
  lemma {:induction false} UploadKeepsOtherTrips(trips: seq<Trip>, t: Trip, tripId: int, caller: nat)
    requires t.userId != caller || t.id != tripId
    ensures GetTrip(trips + [t], tripId, caller) == GetTrip(trips, tripId, caller)
  {
    if trips == [] {
      assert trips + [t] == [t];
    } else {
      assert (trips + [t])[1..] == trips[1..] + [t];
      UploadKeepsOtherTrips(trips[1..], t, tripId, caller);
    }
  }
}
