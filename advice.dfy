/**
 * The recommendations of a trip report (backend/app/api/v1/reports.py,
 * _generate_recommendations): four threshold rules over the event counts,
 * checked in a fixed order, with a single fallback message when none fires.
 */
module Advice {
  import opened Types
  import opened EventCounts

  /** The five advisories a report can give. */
  datatype Advisory = AnticipateStops | AccelerateGradually | WatchSpeed | SlowForCurves | GreatDriving

  /** The message text of each advisory, as the report shows it. */
  function Text(a: Advisory): string {
    match a
    case AnticipateStops => "Try to anticipate stops earlier to reduce hard braking events."
    case AccelerateGradually => "Accelerate more gradually for better fuel efficiency and safety."
    case WatchSpeed => "Pay closer attention to speed limit signs and maintain safe speeds."
    case SlowForCurves => "Reduce speed before entering curves for safer cornering."
    case GreatDriving => "Great driving! Keep up the safe driving habits."
  }

  /** The length of each advisory's text. */
  function TextLength(a: Advisory): nat {
    match a
    case AnticipateStops => 62
    case AccelerateGradually => 64
    case WatchSpeed => 67
    case SlowForCurves => 56
    case GreatDriving => 47
  }

  lemma TextHasLength(a: Advisory)
    ensures |Text(a)| == TextLength(a)
  {
    match a
    case AnticipateStops =>
    case AccelerateGradually =>
    case WatchSpeed =>
    case SlowForCurves =>
    case GreatDriving =>
  }

  /** Different advisories have different texts: the texts differ in length. */
  lemma TextInjective(a: Advisory, b: Advisory)
    ensures Text(a) == Text(b) <==> a == b
  {
    if Text(a) == Text(b) {
      TextHasLength(a);
      TextHasLength(b);
      assert TextLength(a) == TextLength(b);
    }
  }

  /** The texts of a list of advisories, in order. */
  function Texts(advice: seq<Advisory>): (texts: seq<string>)
    ensures |texts| == |advice|
    ensures forall i :: 0 <= i < |advice| ==> texts[i] == Text(advice[i])
  {
    if advice == [] then [] else [Text(advice[0])] + Texts(advice[1..])
  }

  /** Two lists of advisories have the same texts exactly when they are the same list. */
  lemma TextsInjective(a: seq<Advisory>, b: seq<Advisory>)
    ensures Texts(a) == Texts(b) <==> a == b
  {
    if Texts(a) == Texts(b) {
      forall i | 0 <= i < |a| ensures a[i] == b[i] {
        TextInjective(a[i], b[i]);
      }
    }
  }

  /** A rule fires when more than `threshold` events have type `eventType`. */
  datatype Rule = Rule(eventType: string, threshold: nat, advice: Advisory)

  /** The rule table, in the order the rules are checked. */
  const Rules: seq<Rule> := [
    Rule("hard_brake", 3, AnticipateStops),
    Rule("harsh_accel", 3, AccelerateGradually),
    Rule("overspeed", 5, WatchSpeed),
    Rule("unsafe_curve", 2, SlowForCurves)
  ]

  /** The position of an advisory's rule in the table; the fallback comes last. */
  function Rank(a: Advisory): nat {
    match a
    case AnticipateStops => 0
    case AccelerateGradually => 1
    case WatchSpeed => 2
    case SlowForCurves => 3
    case GreatDriving => 4
  }

  predicate Fires(counts: map<string, nat>, rule: Rule) {
    CountOf(counts, rule.eventType) > rule.threshold
  }

  /** The advisories of the first `n` rules of the table that fire, in table order. */
  function FiredAmong(counts: map<string, nat>, n: nat): seq<Advisory>
    requires n <= |Rules|
  {
    if n == 0 then []
    else FiredAmong(counts, n - 1) + (if Fires(counts, Rules[n - 1]) then [Rules[n - 1].advice] else [])
  }

  /** The reference definition of the recommendation list. */
  function Recommendations(counts: map<string, nat>): seq<Advisory> {
    var fired := FiredAmong(counts, |Rules|);
    if fired == [] then [GreatDriving] else fired
  }

  /**
   * The recommendations as the source computes them: recount the events,
   * check the rules, then add the fallback if no rule fired. The list holds
   * advisories; the report carries their texts. The recount is the same
   * loop as EventBreakdown.
   */
  method GenerateRecommendations(events: seq<TripEvent>) returns (recommendations: seq<Advisory>)
    ensures recommendations == Recommendations(Breakdown(events))
  {
    var eventTypes := EventBreakdown(events);
    recommendations := CheckRules(eventTypes);
    if recommendations == [] {
      recommendations := recommendations + [GreatDriving];
    }
  }

  /** The four rule checks, each appending its advisory when it fires. */
  method CheckRules(eventTypes: map<string, nat>) returns (recommendations: seq<Advisory>)
    ensures recommendations == FiredAmong(eventTypes, |Rules|)
  {
    recommendations := [];
    RuleTable();
    if CountOf(eventTypes, "hard_brake") > 3 {
      recommendations := recommendations + [AnticipateStops];
    }
    assert recommendations == FiredAmong(eventTypes, 1);
    if CountOf(eventTypes, "harsh_accel") > 3 {
      recommendations := recommendations + [AccelerateGradually];
    }
    assert recommendations == FiredAmong(eventTypes, 2);
    if CountOf(eventTypes, "overspeed") > 5 {
      recommendations := recommendations + [WatchSpeed];
    }
    assert recommendations == FiredAmong(eventTypes, 3);
    if CountOf(eventTypes, "unsafe_curve") > 2 {
      recommendations := recommendations + [SlowForCurves];
    }
  }

  /** The rule table, entry by entry. */
  lemma RuleTable()
    ensures |Rules| == 4
    ensures Rules[0] == Rule("hard_brake", 3, AnticipateStops)
    ensures Rules[1] == Rule("harsh_accel", 3, AccelerateGradually)
    ensures Rules[2] == Rule("overspeed", 5, WatchSpeed)
    ensures Rules[3] == Rule("unsafe_curve", 2, SlowForCurves)
  {
  }

  /** Each rule's advisory has the rule's position as its rank. */
  lemma RuleRanks()
    ensures |Rules| == 4
    ensures forall j :: 0 <= j < |Rules| ==> Rank(Rules[j].advice) == j
  {
    RuleTable();
  }

  /**
   * Among the first `n` rules, exactly the ones that fire contribute their
   * advisory, in the table's order.
   */
  lemma FiredAmongSpec(counts: map<string, nat>, n: nat)
    requires n <= |Rules|
    ensures var fired := FiredAmong(counts, n);
      |fired| <= n &&
      (forall i :: 0 <= i < |fired| ==> Rank(fired[i]) < n) &&
      (forall i, j :: 0 <= i < j < |fired| ==> Rank(fired[i]) < Rank(fired[j])) &&
      (forall j :: 0 <= j < |Rules| ==> (Rules[j].advice in fired <==> j < n && Fires(counts, Rules[j])))
  {
    FiredAmongRanks(counts, n);
    FiredAmongMembers(counts, n);
  }

  /** Among the first `n` rules, the fired advisories have ranks below `n`, strictly increasing. */
  lemma {:induction false} FiredAmongRanks(counts: map<string, nat>, n: nat)
    requires n <= |Rules|
    ensures var fired := FiredAmong(counts, n);
      |fired| <= n &&
      (forall i :: 0 <= i < |fired| ==> Rank(fired[i]) < n) &&
      (forall i, j :: 0 <= i < j < |fired| ==> Rank(fired[i]) < Rank(fired[j]))
  {
    if n > 0 {
      FiredAmongRanks(counts, n - 1);
      RuleRanks();
      var prev := FiredAmong(counts, n - 1);
      if Fires(counts, Rules[n - 1]) {
        AppendRanked(prev, Rules[n - 1].advice, n - 1);
      }
    }
  }

  /** Appending an advisory ranked above a ranked list keeps it ranked. */
  lemma AppendRanked(prev: seq<Advisory>, a: Advisory, m: nat)
    requires forall i :: 0 <= i < |prev| ==> Rank(prev[i]) < m
    requires forall i, j :: 0 <= i < j < |prev| ==> Rank(prev[i]) < Rank(prev[j])
    requires Rank(a) == m
    ensures forall i :: 0 <= i < |prev + [a]| ==> Rank((prev + [a])[i]) < m + 1
    ensures forall i, j :: 0 <= i < j < |prev + [a]| ==> Rank((prev + [a])[i]) < Rank((prev + [a])[j])
  {
  }

  /** An advisory ranked at or above every entry's bound is not in the list. */
  lemma NotInByRank(prev: seq<Advisory>, a: Advisory, m: nat)
    requires forall i :: 0 <= i < |prev| ==> Rank(prev[i]) < m
    requires Rank(a) == m
    ensures a !in prev
  {
    forall i | 0 <= i < |prev| ensures prev[i] != a {
    }
  }

  /** Among the first `n` rules, a rule's advisory is present exactly when the rule fires. */
  lemma {:induction false} FiredAmongMembers(counts: map<string, nat>, n: nat)
    requires n <= |Rules|
    ensures forall j :: 0 <= j < |Rules| ==>
      (Rules[j].advice in FiredAmong(counts, n) <==> j < n && Fires(counts, Rules[j]))
  {
    if n > 0 {
      FiredAmongMembers(counts, n - 1);
      FiredAmongRanks(counts, n - 1);
      RuleRanks();
      var prev := FiredAmong(counts, n - 1);
      var a := Rules[n - 1].advice;
      NotInByRank(prev, a, n - 1);
      forall j | 0 <= j < |Rules|
        ensures Rules[j].advice in FiredAmong(counts, n) <==> j < n && Fires(counts, Rules[j])
      {
        if j != n - 1 {
          assert Rank(Rules[j].advice) != Rank(a);
        }
      }
    }
  }

  /**
   * Each advisory is present exactly when its count strictly exceeds its
   * threshold (a type with no events counts 0); advisories appear in table
   * order; the fallback appears exactly when no rule fires, and then alone;
   * the list holds between one and four advisories.
   */
  lemma RecommendationRules(counts: map<string, nat>)
    ensures var recs := Recommendations(counts);
      (AnticipateStops in recs <==> CountOf(counts, "hard_brake") > 3) &&
      (AccelerateGradually in recs <==> CountOf(counts, "harsh_accel") > 3) &&
      (WatchSpeed in recs <==> CountOf(counts, "overspeed") > 5) &&
      (SlowForCurves in recs <==> CountOf(counts, "unsafe_curve") > 2) &&
      (GreatDriving in recs <==> forall k :: 0 <= k < |Rules| ==> !Fires(counts, Rules[k])) &&
      (GreatDriving in recs ==> recs == [GreatDriving]) &&
      1 <= |recs| <= |Rules| &&
      (forall i, j :: 0 <= i < j < |recs| ==> Rank(recs[i]) < Rank(recs[j]))
  {
    FiredAmongSpec(counts, |Rules|);
    var fired := FiredAmong(counts, |Rules|);
    assert Rules[0].advice == AnticipateStops && Rules[1].advice == AccelerateGradually;
    assert Rules[2].advice == WatchSpeed && Rules[3].advice == SlowForCurves;
    if fired == [] {
      forall k | 0 <= k < |Rules| ensures !Fires(counts, Rules[k]) {
        assert Rules[k].advice !in fired;
      }
    } else {
      var k := Rank(fired[0]);
      assert Rules[k].advice == fired[0];
      assert Fires(counts, Rules[k]);
      assert GreatDriving !in fired by {
        forall i | 0 <= i < |fired| ensures fired[i] != GreatDriving {
          assert Rank(fired[i]) < 4;
        }
      }
    }
  }

  /** No rule fires exactly when every count is within its threshold. */
  lemma FallbackThresholds(counts: map<string, nat>)
    ensures (forall k :: 0 <= k < |Rules| ==> !Fires(counts, Rules[k])) <==>
      CountOf(counts, "hard_brake") <= 3 && CountOf(counts, "harsh_accel") <= 3 &&
      CountOf(counts, "overspeed") <= 5 && CountOf(counts, "unsafe_curve") <= 2
  {
    assert Fires(counts, Rules[0]) <==> CountOf(counts, "hard_brake") > 3;
    assert Fires(counts, Rules[1]) <==> CountOf(counts, "harsh_accel") > 3;
    assert Fires(counts, Rules[2]) <==> CountOf(counts, "overspeed") > 5;
    assert Fires(counts, Rules[3]) <==> CountOf(counts, "unsafe_curve") > 2;
  }

  /** The recommendations do not depend on the order of the trip's events. */
  lemma RecommendationsPermutation(s: seq<TripEvent>, t: seq<TripEvent>)
    requires multiset(s) == multiset(t)
    ensures Recommendations(Breakdown(s)) == Recommendations(Breakdown(t))
  {
    BreakdownPermutation(s, t);
  }

  /** A trip with exactly four hard brakes and nothing else gets the one braking advisory. */
  lemma FourHardBrakes(events: seq<TripEvent>)
    requires |events| == 4
    requires forall i :: 0 <= i < |events| ==> events[i].eventType == "hard_brake"
    ensures Recommendations(Breakdown(events)) == [AnticipateStops]
  {
    var counts := Breakdown(events);
    forall ty | ty != "hard_brake" ensures CountOf(counts, ty) == 0 {
      BreakdownCountOf(events, ty);
    }
    BreakdownCountOf(events, "hard_brake");
    CountAllOfType(events, "hard_brake");
    assert "hard_brake" != "harsh_accel" && "hard_brake" != "overspeed" && "hard_brake" != "unsafe_curve";
    assert Fires(counts, Rules[0]);
    assert FiredAmong(counts, 1) == [AnticipateStops];
    assert FiredAmong(counts, 2) == [AnticipateStops];
    assert FiredAmong(counts, 3) == [AnticipateStops];
    assert FiredAmong(counts, 4) == [AnticipateStops];
  }
}
