/**
 * Subscriber selection (informWatchers in app.js): every configured service,
 * in configuration order, is called back once when any changed triple
 * matches its spec. The outbound request is modelled as the callback record
 * it would carry, appended to the output.
 */
module Watchers {
  import opened Wrappers
  import opened Matching

  /** The outbound request: target uri and HTTP method. */
  datatype Callback = Callback(uri: string, httpMethod: string)

  /** One configured service: its match spec and its callback. */
  datatype Service = Service(matchSpec: MatchSpec, callback: Callback)

  /** Some triple of the list matches the spec. */
  predicate AnyMatches(triples: seq<Triple>, spec: MatchSpec)
  {
    exists i :: 0 <= i < |triples| && Matches(triples[i], spec)
  }

  /** The callbacks the services ask for, in configuration order. */
  function Notified(services: seq<Service>, triples: seq<Triple>): seq<Callback>
  {
    if services == [] then []
    else
      var last := services[|services| - 1];
      Notified(services[..|services| - 1], triples) +
        (if AnyMatches(triples, last.matchSpec) then [last.callback] else [])
  }

  /** The positions, in increasing order, of the services that are called. */
  function Selected(services: seq<Service>, triples: seq<Triple>): seq<nat>
  {
    if services == [] then []
    else
      var n := |services| - 1;
      Selected(services[..n], triples) +
        (if AnyMatches(triples, services[n].matchSpec) then [n] else [])
  }

  /** changedTriples.find(...): the first triple that matches, if any. */
  method Find(triples: seq<Triple>, spec: MatchSpec) returns (found: Option<Triple>)
    ensures found.None? <==> !AnyMatches(triples, spec)
    ensures found.Some? ==>
      exists i :: 0 <= i < |triples| && triples[i] == found.value && Matches(triples[i], spec) &&
        forall j :: 0 <= j < i ==> !Matches(triples[j], spec)
  {
    var i := 0;
    while i < |triples|
      invariant 0 <= i <= |triples|
      invariant forall j :: 0 <= j < i ==> !Matches(triples[j], spec)
    {
      if Matches(triples[i], spec) {
        return Some(triples[i]);
      }
      i := i + 1;
    }
    return None;
  }

  /** The loop over services: a request for each service that some changed
      triple matches. */
  method InformWatchers(services: seq<Service>, changedTriples: seq<Triple>) returns (requests: seq<Callback>)
    ensures requests == Notified(services, changedTriples)
  {
    requests := [];
    for i := 0 to |services|
      invariant requests == Notified(services[..i], changedTriples)
    {
      assert services[..i + 1][..i] == services[..i];
      var entry := services[i];
      var hit := Find(changedTriples, entry.matchSpec);
      if hit.Some? {
        requests := requests + [entry.callback];
      }
    }
    assert services[..|services|] == services;
  }

  // ---------------------------------------------------------------------
  // Properties
  // ---------------------------------------------------------------------

  /** The selected positions are in range, strictly increasing, and are
      exactly the services some changed triple matches. */
  lemma {:induction false} SelectedSpec(services: seq<Service>, triples: seq<Triple>)
    ensures forall j :: 0 <= j < |Selected(services, triples)| ==>
      Selected(services, triples)[j] < |services|
    ensures forall j, k :: 0 <= j < k < |Selected(services, triples)| ==>
      Selected(services, triples)[j] < Selected(services, triples)[k]
    ensures forall i :: 0 <= i < |services| ==>
      (i in Selected(services, triples) <==> AnyMatches(triples, services[i].matchSpec))
  {
    if services != [] {
      var n := |services| - 1;
      SelectedSpec(services[..n], triples);
    }
  }

  /** The requests are the callbacks of the selected services, one each, in
      configuration order. */
  lemma {:induction false} NotifiedIsSelection(services: seq<Service>, triples: seq<Triple>)
    ensures |Notified(services, triples)| == |Selected(services, triples)|
    ensures forall j :: 0 <= j < |Notified(services, triples)| ==>
      Selected(services, triples)[j] < |services| &&
      Notified(services, triples)[j] == services[Selected(services, triples)[j]].callback
  {
    if services != [] {
      var n := |services| - 1;
      NotifiedIsSelection(services[..n], triples);
      SelectedSpec(services[..n], triples);
    }
  }

  /** A service is called back exactly when some changed triple matches its
      spec, and then with its own uri and method, at the place its
      configuration position gives it. */
  lemma NotifiedIff(services: seq<Service>, triples: seq<Triple>, i: nat)
    requires i < |services|
    ensures AnyMatches(triples, services[i].matchSpec) <==>
      exists j :: 0 <= j < |Selected(services, triples)| && Selected(services, triples)[j] == i &&
        j < |Notified(services, triples)| && Notified(services, triples)[j] == services[i].callback
  {
    SelectedSpec(services, triples);
    NotifiedIsSelection(services, triples);
    if AnyMatches(triples, services[i].matchSpec) {
      var j :| 0 <= j < |Selected(services, triples)| && Selected(services, triples)[j] == i;
      assert Notified(services, triples)[j] == services[i].callback;
    }
  }

  /** With no changed triple, no service is called, whatever the specs. */
  lemma {:induction false} NoChangesNoRequests(services: seq<Service>)
    ensures Notified(services, []) == []
  {
    if services != [] {
      NoChangesNoRequests(services[..|services| - 1]);
    }
  }

  /** A service whose spec has only falsy fields (e.g. the empty spec) is
      called back for every non-empty batch. */
  lemma WildcardServiceNotified(services: seq<Service>, triples: seq<Triple>, i: nat)
    requires i < |services| && triples != []
    requires forall k :: k in services[i].matchSpec ==> services[i].matchSpec[k].None?
    ensures services[i].callback in Notified(services, triples)
  {
    WildcardSpecMatches(triples[0], services[i].matchSpec, [], map[]);
    NotifiedIff(services, triples, i);
    var j :| 0 <= j < |Selected(services, triples)| && Selected(services, triples)[j] == i &&
      j < |Notified(services, triples)| && Notified(services, triples)[j] == services[i].callback;
  }
}
