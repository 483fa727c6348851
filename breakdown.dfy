/**
 * The event breakdown of a trip report: how many of the trip's events have
 * each event type (backend/app/api/v1/reports.py, _get_event_breakdown).
 */
module EventCounts {
  import opened Types

  /** The number of events whose type is `ty`. */
  function Count(events: seq<TripEvent>, ty: string): (c: nat)
    ensures c <= |events|
    ensures c > 0 <==> exists i :: 0 <= i < |events| && events[i].eventType == ty
  {
    if events == [] then 0
    else (if events[0].eventType == ty then 1 else 0) + Count(events[1..], ty)
  }

  /** When every event has type `ty`, all of them are counted. */
  lemma {:induction false} CountAllOfType(events: seq<TripEvent>, ty: string)
    requires forall i :: 0 <= i < |events| ==> events[i].eventType == ty
    ensures Count(events, ty) == |events|
  {
    if events != [] {
      assert forall i :: 0 <= i < |events| - 1 ==> events[1..][i] == events[i + 1];
      CountAllOfType(events[1..], ty);
    }
  }

  /** The event types that occur in `events`. */
  function TypesPresent(events: seq<TripEvent>): set<string> {
    set e | e in events :: e.eventType
  }

  /**
   * The reference breakdown: one key per type present, mapped to how many
   * events have that type.
   */
  function Breakdown(events: seq<TripEvent>): (b: map<string, nat>)
    ensures forall ty :: ty in b ==> 1 <= b[ty] <= |events|
  {
    CountsOver(events, TypesPresent(events))
  }

  /** The count of each type in `keys`. */
  function CountsOver(events: seq<TripEvent>, keys: set<string>): (m: map<string, nat>)
    ensures m.Keys == keys
    ensures forall ty :: ty in m ==> m[ty] == Count(events, ty)
  {
    map ty | ty in keys :: Count(events, ty)
  }

  /** `dict.get(ty, 0)`: a type that does not occur counts 0. */
  function CountOf(b: map<string, nat>, ty: string): nat {
    if ty in b then b[ty] else 0
  }

  /**
   * The breakdown as the source computes it: one pass over the events,
   * bumping the entry of each event's type.
   */
  method EventBreakdown(events: seq<TripEvent>) returns (breakdown: map<string, nat>)
    ensures breakdown == Breakdown(events)
  {
    breakdown := map[];
    for i := 0 to |events|
      invariant breakdown == Breakdown(events[..i])
    {
      var ty := events[i].eventType;
      BreakdownSnoc(events[..i], events[i]);
      assert events[..i + 1] == events[..i] + [events[i]];
      breakdown := breakdown[ty := CountOf(breakdown, ty) + 1];
    }
    assert events[..|events|] == events;
  }

  /**
   * The keys are exactly the types present, and looking up any type, present
   * or not, gives the number of events of that type.
   */
  lemma BreakdownCountOf(events: seq<TripEvent>, ty: string)
    ensures Breakdown(events).Keys == TypesPresent(events)
    ensures CountOf(Breakdown(events), ty) == Count(events, ty)
  {
    if Count(events, ty) > 0 {
      var i :| 0 <= i < |events| && events[i].eventType == ty;
      assert events[i] in events;
    }
  }

  lemma {:induction false} CountAppend(a: seq<TripEvent>, b: seq<TripEvent>, ty: string)
    ensures Count(a + b, ty) == Count(a, ty) + Count(b, ty)
  {
    if a == [] {
      assert a + b == b;
    } else {
      assert (a + b)[1..] == a[1..] + b;
      CountAppend(a[1..], b, ty);
    }
  }

  /** Appending one event bumps exactly the entry of its type. */
  lemma BreakdownSnoc(s: seq<TripEvent>, e: TripEvent)
    ensures Breakdown(s + [e]) == Breakdown(s)[e.eventType := CountOf(Breakdown(s), e.eventType) + 1]
  {
    var b, b' := Breakdown(s), Breakdown(s + [e]);
    var expected := b[e.eventType := CountOf(b, e.eventType) + 1];
    TypesPresentSnoc(s, e);
    assert b'.Keys == expected.Keys;
    forall ty | ty in b'
      ensures b'[ty] == expected[ty]
    {
      CountAppend(s, [e], ty);
      assert Count([e], ty) == if e.eventType == ty then 1 else 0;
      if ty == e.eventType {
        BreakdownCountOf(s, ty);
      } else {
        assert ty in b;
      }
    }
  }

  /** Appending one event adds exactly its type. */
  lemma TypesPresentSnoc(s: seq<TripEvent>, e: TripEvent)
    ensures TypesPresent(s + [e]) == TypesPresent(s) + {e.eventType}
  {
    forall x | x in s + [e] ensures x in s || x == e { }
    assert e in s + [e];
    forall x | x in s ensures x in s + [e] { }
  }

  /** The count of a type depends only on the multiset of events. */
  lemma {:induction false} CountPermutation(s: seq<TripEvent>, t: seq<TripEvent>, ty: string)
    requires multiset(s) == multiset(t)
    ensures Count(s, ty) == Count(t, ty)
    decreases |s|
  {
    if s == [] {
      assert |t| == |multiset(t)| == 0;
    } else {
      assert s[0] in multiset(t);
      var j :| 0 <= j < |t| && t[j] == s[0];
      var rest := t[..j] + t[j + 1..];
      assert t == t[..j] + [t[j]] + t[j + 1..];
      assert s == [s[0]] + s[1..];
      assert multiset(t) == multiset(t[..j]) + multiset{t[j]} + multiset(t[j + 1..]);
      assert multiset(rest) == multiset(t[..j]) + multiset(t[j + 1..]);
      assert multiset(s) == multiset{s[0]} + multiset(s[1..]);
      assert multiset(s[1..]) == multiset(s) - multiset{s[0]};
      assert multiset(rest) == multiset(t) - multiset{t[j]};
      CountPermutation(s[1..], rest, ty);
      CountAppend(t[..j] + [t[j]], t[j + 1..], ty);
      CountAppend(t[..j], [t[j]], ty);
      CountAppend(t[..j], t[j + 1..], ty);
    }
  }

  /** The breakdown does not depend on the order of the events. */
  lemma BreakdownPermutation(s: seq<TripEvent>, t: seq<TripEvent>)
    requires multiset(s) == multiset(t)
    ensures Breakdown(s) == Breakdown(t)
  {
    forall ty ensures Count(s, ty) == Count(t, ty) {
      CountPermutation(s, t, ty);
    }
    assert TypesPresent(s) == TypesPresent(t) by {
      forall x ensures x in s <==> x in t {
        assert x in s <==> x in multiset(s);
        assert x in t <==> x in multiset(t);
      }
    }
  }

  // ---- The counts of a breakdown add up to the number of events ----

  /** Some element of a non-empty set, the same one on every call. */
  ghost function Pick(keys: set<string>): (k: string)
    requires keys != {}
    ensures k in keys
  {
    var k :| k in keys; k
  }

  /** The sum of the counts in a breakdown. */
  ghost function SumCounts(m: map<string, nat>): nat
    decreases |m.Keys|
  {
    if m.Keys == {} then 0
    else
      var k := Pick(m.Keys);
      assert m.Keys - {k} < m.Keys;
      m[k] + SumCounts(m - {k})
  }

  /** Removing any key first gives the same sum. */
  lemma {:induction false} SumCountsAt(m: map<string, nat>, k: string)
    requires k in m
    ensures SumCounts(m) == m[k] + SumCounts(m - {k})
    decreases |m.Keys|
  {
    var j := Pick(m.Keys);
    if j != k {
      assert (m - {j}).Keys < m.Keys;
      assert (m - {k}).Keys < m.Keys;
      SumCountsAt(m - {j}, k);
      SumCountsAt(m - {k}, j);
      assert m - {j} - {k} == m - {k} - {j};
    }
  }

  /** The number of events whose type lies in `keys`. */
  function CountIn(events: seq<TripEvent>, keys: set<string>): nat {
    if events == [] then 0
    else (if events[0].eventType in keys then 1 else 0) + CountIn(events[1..], keys)
  }

  lemma {:induction false} CountInSplit(events: seq<TripEvent>, keys: set<string>, k: string)
    requires k in keys
    ensures CountIn(events, keys) == Count(events, k) + CountIn(events, keys - {k})
  {
    if events != [] {
      CountInSplit(events[1..], keys, k);
    }
  }

  lemma {:induction false} CountInAll(events: seq<TripEvent>, keys: set<string>)
    requires TypesPresent(events) <= keys
    ensures CountIn(events, keys) == |events|
  {
    if events != [] {
      assert events[0] in events;
      assert TypesPresent(events[1..]) <= TypesPresent(events) by {
        forall x | x in events[1..] ensures x in events { }
      }
      CountInAll(events[1..], keys);
    }
  }

  lemma {:induction false} CountInNone(events: seq<TripEvent>)
    ensures CountIn(events, {}) == 0
  {
    if events != [] {
      CountInNone(events[1..]);
    }
  }

  lemma {:induction false} SumOverKeys(events: seq<TripEvent>, keys: set<string>)
    ensures SumCounts(CountsOver(events, keys)) == CountIn(events, keys)
    decreases |keys|
  {
    var m := CountsOver(events, keys);
    if keys == {} {
      CountInNone(events);
    } else {
      var k := Pick(keys);
      SumCountsAt(m, k);
      assert m - {k} == CountsOver(events, keys - {k});
      assert keys - {k} < keys;
      SumOverKeys(events, keys - {k});
      CountInSplit(events, keys, k);
    }
  }

  /** Every event is counted exactly once. */
  lemma BreakdownTotal(events: seq<TripEvent>)
    ensures SumCounts(Breakdown(events)) == |events|
  {
    SumOverKeys(events, TypesPresent(events));
    CountInAll(events, TypesPresent(events));
  }
}
