# Delta notifier: a verified model of its dispatch core

The delta notifier is a relay. It receives batches of change sets from a triple
store. Each change set lists inserted and deleted triples. For every configured
service whose match spec is met by some changed triple, it sends one HTTP
request (uri and method from the service's callback). At this revision, all of
that logic is in `app.js`, and this project models it:

- `matching.dfy` (module `Matching`): `tripleMatchesSpec`. `TripleMatchesSpec`
  and `SubKeysMatch` are the two nested loops with their early returns. They
  visit keys in a given enumeration order, because JavaScript's `for ... in`
  order is not part of a Dafny map. `Matches` is the order-free meaning, and
  the lemmas prove that the loops decide exactly `Matches` for every
  enumeration order.
- `changesets.dfy` (module `ChangeSets`): the parsed change sets, as objects
  whose `insert`/`delete` fields the handler defaults in place (`Normalise`).
  Also the loop that gathers `allInserts` and `allDeletes` (`Flatten`), proved
  against the concatenation function `Concat`.
- `watchers.dfy` (module `Watchers`): `informWatchers`. The outbound
  `request(...)` is modelled as appending a `Callback(uri, httpMethod)` record
  to the returned sequence. `changedTriples.find(...)` is the method `Find`.
  `Find` (and so `InformWatchers` and `HandlePost`) tests each triple with
  the order-free `Matches`, not with the loop model `TripleMatchesSpec`.
  This is justified by `MatchesInAnyOrder`: whatever order `for ... in`
  visits the keys in, `tripleMatchesSpec` returns exactly `Matches`.
- `relay.dfy` (module `Relay`): the POST handler end to end, and the shipped
  `config/rules.js` configuration as a worked example.
- `wrappers.dfy`: the `Option` type.

Representation choices:
- A triple is a map from field name to typed value. A typed value is a map
  from sub-field name (`type`, `value`, ...) to string. A field the triple
  lacks is not a key.
- A match spec maps each field name to `Some(pattern)`, or to `None` when the
  field is present but falsy. A falsy pattern passes the guard at app.js:67,
  and the inner loop visits nothing, so it acts as a wildcard. A present
  pattern, even an empty one, requires the triple to have the field.
- A sub-field the triple's value lacks reads as `undefined` in JavaScript.
  That is never strictly equal to a string, so it rejects the match.
- A missing list (or a falsy one, for `||`) is `None` in a `ChangeSet` field.

At this revision `app.js` has no origin filtering, DNS cache, payload
formatting, grace period or authorization header. The request it sends
carries only `uri` and `method`.

## Model

| member | source | states |
|---|---|---|
| `Matching.SubKeysMatch` | app.js:70-73 | the inner loop, stopping at the first unequal sub-field, returns true iff every visited sub-field is present in the triple's value and strictly equal to the pattern's |
| `Matching.SubKeysMatchInAnyOrder` | app.js:70-73 | for any enumeration of the pattern's sub-fields, the inner loop decides exactly that the whole pattern holds |
| `Matching.TripleMatchesSpec` | app.js:60-76 | the outer loop, with its early returns, returns true iff every visited field with a present pattern is in the triple and passes the inner loop; falsy patterns are skipped |
| `Matching.MatchesInAnyOrder` | app.js:60-76 | for every enumeration order of fields and sub-fields, `tripleMatchesSpec` equals the conjunctive meaning `Matches` |
| `Matching.OrderIrrelevant` | app.js:62-75 | two different enumeration orders give the same match result |
| `Matching.WildcardSpecMatches` | app.js:62-75 | a spec whose fields are all falsy, the empty spec included, matches every triple |
| `Matching.MissingFieldRejects` | app.js:67-68 | a field with a present pattern that the triple lacks makes the match fail |
| `Matching.SubFieldMismatchRejects` | app.js:70-73 | a pattern sub-field that is missing or different in the triple makes the match fail |
| `ChangeSets.Normalise` | app.js:22-25 | afterwards every change set has both lists; a list that was present is unchanged; a missing one is empty; only the insert/delete fields of the batch's change sets are written |
| `ChangeSets.Flatten` | app.js:27-33 | `allInserts` is the in-order concatenation of the change sets' insert lists, and `allDeletes` that of their delete lists |
| `ChangeSets.ListsAt` | app.js:30-33 | the i-th list concatenated is exactly the i-th change set's insert (resp. delete) list |
| `ChangeSets.ConcatAppend` | app.js:31-32 | concatenating a batch split in two is concatenating each part, first part first |
| `ChangeSets.ConcatSplit` | app.js:31-32 | each change set's list appears whole, in batch order, between the lists before and after it |
| `ChangeSets.ConcatLength` | app.js:27-33 | the concatenation's length is the sum of the per-change-set lengths |
| `ChangeSets.ConcatMember` | app.js:27-33 | a triple is in the concatenation iff it is in one of the change sets' lists |
| `ChangeSets.ChangedTriplesContents` | app.js:36 | the triples passed on (inserts, then deletes) number the sum of all list lengths, and contain exactly the triples some change set inserts or deletes |
| `ChangeSets.EmptyBatchChangesNothing` | app.js:27-36 | a batch whose change sets all have empty lists passes on no triple |
| `Watchers.Find` | app.js:48 | `find` yields the first matching triple, and nothing iff no triple matches |
| `Watchers.InformWatchers` | app.js:42-58 | the requests sent are exactly `Notified(services, changedTriples)` |
| `Watchers.SelectedSpec` | app.js:43-48 | the called services' positions are in range and strictly increasing (configuration order, at most once each), and a position is called iff some changed triple matches its spec |
| `Watchers.NotifiedIsSelection` | app.js:43-55 | request j carries the uri and method of the j-th called service |
| `Watchers.NotifiedIff` | app.js:43-55 | a service's callback is emitted, in its configuration position, iff some changed triple matches its spec |
| `Watchers.NoChangesNoRequests` | app.js:43-48 | with no changed triple no request is sent, whatever the specs |
| `Watchers.WildcardServiceNotified` | app.js:43-48 | a service whose spec has no present pattern is called for every non-empty batch |
| `Relay.HandlePost` | app.js:14-40 | after a POST the batch is normalised and the requests are those selected for `allInserts ++ allDeletes` |
| `Relay.IsPartOfTriggersMailDelivery` | config/rules.js:1-12 | with the shipped rules, a batch changing an `nmo:isPartOf` triple yields exactly one PATCH to `http://maildelivery/send` |
| `Relay.NoPredicateNoRequest` | config/rules.js:1-12 | with the shipped rules, a batch whose triples lack a predicate field yields no request |

## Left out

- HTTP plumbing: the `mu` app, the JSON body-parser content-type test, the GET health route (app.js:1-12) and the 204 response (app.js:39).
- The network call itself (app.js:52-55). It is modelled only as the emitted `Callback` record; delivery and its failures are not modelled.
- Logging under `LOG_REQUESTS`, `DEBUG_DELTA_MATCH` and `DEBUG_DELTA_SEND` (app.js:15-18, 45-46, 50-51). It is output only.
- Malformed input: a body without `changeSets`, a truthy non-list `insert`/`delete`, and a pattern or triple field that is not an object. These would crash or behave by JavaScript coercion. The model assumes a well-formed, parsed body whose values are strings.
- Other properties of a change set object. The handler neither reads nor writes them, so `ChangeSet` holds only `insert` and `delete`.
- JavaScript's `for ... in` enumeration order, and its inherited enumerable properties. The order is a parameter of `TripleMatchesSpec`, and the lemmas cover every order.
- Origin filtering, a DNS cache, payload formatting, grace periods and authorization-group headers: `app.js` has none of them at this revision.
