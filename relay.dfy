/**
 * The POST handler of app.js, end to end: normalise the batch in place,
 * flatten it, and select the services to call back.
 */
module Relay {
  import opened Wrappers
  import opened Matching
  import opened ChangeSets
  import opened Watchers

  /** Handles one inbound batch of change sets against the configured
      services. Only the change sets' insert/delete fields are written; the
      result is the sequence of outbound requests. */
  method HandlePost(changeSets: seq<ChangeSet>, services: seq<Service>) returns (requests: seq<Callback>)
    modifies changeSets
    ensures Normalised(changeSets)
    ensures forall c :: c in changeSets ==>
      c.insert == Some(OrEmpty(old(c.insert))) && c.delete == Some(OrEmpty(old(c.delete)))
    ensures requests == Notified(services, ChangedTriples(changeSets))
  {
    Normalise(changeSets);
    var allInserts, allDeletes := Flatten(changeSets);
    requests := InformWatchers(services, allInserts + allDeletes);
  }

  // ---------------------------------------------------------------------
  // The shipped configuration (config/rules.js) as an example
  // ---------------------------------------------------------------------

  const IsPartOf: string := "http://www.semanticdesktop.org/ontologies/2007/03/22/nmo#isPartOf"

  const MailDelivery: Callback := Callback("http://maildelivery/send", "PATCH")

  /** The single configured service: any triple whose predicate is the uri
      nmo:isPartOf triggers a PATCH to the mail delivery service. */
  const Rules: seq<Service> :=
    [Service(map["predicate" := Some(map["type" := "uri", "value" := IsPartOf])], MailDelivery)]

  /** A batch that changes one nmo:isPartOf triple yields exactly one PATCH
      to the mail delivery service. */
  lemma IsPartOfTriggersMailDelivery(t: Triple, triples: seq<Triple>)
    requires t in triples
    requires "predicate" in t && "type" in t["predicate"] && "value" in t["predicate"]
    requires t["predicate"]["type"] == "uri" && t["predicate"]["value"] == IsPartOf
    ensures Notified(Rules, triples) == [MailDelivery]
  {
    var i :| 0 <= i < |triples| && triples[i] == t;
    assert Matches(triples[i], Rules[0].matchSpec);
    assert Rules[..0] == [];
  }

  /** A batch none of whose triples has a predicate field yields no request. */
  lemma NoPredicateNoRequest(triples: seq<Triple>)
    requires forall i :: 0 <= i < |triples| ==> "predicate" !in triples[i]
    ensures Notified(Rules, triples) == []
  {
    assert Rules[..0] == [];
    forall i | 0 <= i < |triples| ensures !Matches(triples[i], Rules[0].matchSpec) {
      MissingFieldRejects(triples[i], Rules[0].matchSpec, ["predicate"],
        map["predicate" := ["type", "value"]], "predicate");
    }
  }
}
