/** The SaaS connectors, and the part of a user's tracked destinations that has one. */
module Connectors {
  import opened Filters

  const CONNECTORS: set<string> := {"hubspot", "salesforce"}

  function Lower(s: string): (r: string)
    ensures |r| == |s|
  {
    if s == [] then []
    else [if 'A' <= s[0] <= 'Z' then (s[0] as int + 32) as char else s[0]] + Lower(s[1..])
  }

  /** Connectors are looked up without regard to case. */
  predicate HasConnector(destination: string) {
    Lower(destination) in CONNECTORS
  }

  /** The tracked destinations a cleanup plan covers. */
  function WithConnector(destinations: seq<string>): seq<string> {
    KeepFirst(destinations, HasConnector, |destinations|)
  }

  /**
   * A plan holds exactly the destinations with a connector, each as often as it is tracked; of a
   * list without repetitions it is one.
   */
  lemma PlanIsTheConnected(destinations: seq<string>, destination: string)
    ensures multiset(WithConnector(destinations))[destination]
      == if HasConnector(destination) then multiset(destinations)[destination] else 0
    ensures Distinct(destinations) ==> Distinct(WithConnector(destinations))
    ensures forall k :: 0 <= k < |WithConnector(destinations)| ==> HasConnector(WithConnector(destinations)[k])
  {
    KeepCounts(destinations, HasConnector, |destinations|, destination);
    assert destinations[..|destinations|] == destinations;
    if Distinct(destinations) {
      KeptStayDistinct(destinations, HasConnector, |destinations|);
    }
    forall k | 0 <= k < |WithConnector(destinations)| ensures HasConnector(WithConnector(destinations)[k]) {
      KeptWereThere(destinations, HasConnector, |destinations|, k);
    }
  }

  /** Lower-casing goes letter by letter. */
  lemma {:induction false} LowerAt(s: string, i: nat)
    requires i < |s|
    ensures Lower(s)[i] == if 'A' <= s[i] <= 'Z' then (s[i] as int - 'A' as int + 'a' as int) as char else s[i]
  {
    if i > 0 {
      LowerAt(s[1..], i - 1);
    }
  }

  /** The two systems that can be wiped, however they are written. */
  lemma HasConnectorExactlyWhen(destination: string)
    ensures HasConnector(destination) <==> Lower(destination) == "hubspot" || Lower(destination) == "salesforce"
  {
  }
}
