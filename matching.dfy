/**
 * Triple pattern matching (tripleMatchesSpec in app.js).
 *
 * A triple is a record of typed values, e.g. the predicate field
 * {type: "uri", value: "http://..."}.  A match spec is a partial record over
 * the same field names whose present fields are partial value patterns.
 */
module Matching {
  import opened Wrappers

  /** A typed value: sub-field name (type, value, ...) to its string. */
  type Value = map<string, string>

  /** A triple: field name to typed value. A name that is not a key stands for
      a field the triple lacks (or holds a falsy value). */
  type Triple = map<string, Value>

  /** A value pattern: every sub-field listed must be strictly equal. */
  type SubSpec = map<string, string>

  /** A match spec: field name to Some(pattern), or to None when the spec has
      the field but its value is falsy (null, undefined, ...). */
  type MatchSpec = map<string, Option<SubSpec>>

  // ---------------------------------------------------------------------
  // The order-free meaning of a match
  // ---------------------------------------------------------------------

  /** Every sub-field of the pattern is present in the value and equal. */
  predicate SubSpecHolds(sub: SubSpec, v: Value)
  {
    forall k :: k in sub ==> k in v && v[k] == sub[k]
  }

  /** A triple matches a spec when every field that carries a pattern is
      present in the triple and satisfies that pattern; fields whose spec
      value is falsy are wildcards. */
  predicate Matches(triple: Triple, spec: MatchSpec)
  {
    forall key :: key in spec && spec[key].Some? ==>
      key in triple && SubSpecHolds(spec[key].value, triple[key])
  }

  // ---------------------------------------------------------------------
  // The loops as written: keys visited in a given enumeration order
  // ---------------------------------------------------------------------

  /** `order` visits only members of `keys`. */
  predicate ListsOnly(order: seq<string>, keys: set<string>)
  {
    forall i :: 0 <= i < |order| ==> order[i] in keys
  }

  /** `order` is an enumeration of `keys`: it visits them all and nothing else. */
  predicate Enumerates(order: seq<string>, keys: set<string>)
  {
    ListsOnly(order, keys) && forall k :: k in keys ==> k in order
  }

  /** The enumeration orders used by the two nested loops fit the spec: the
      outer order visits spec fields, and every present pattern has an order
      over its own sub-fields. */
  predicate OrdersFit(spec: MatchSpec, keys: seq<string>, subKeys: map<string, seq<string>>)
  {
    ListsOnly(keys, spec.Keys) &&
    forall k :: k in spec && spec[k].Some? ==>
      k in subKeys && ListsOnly(subKeys[k], spec[k].value.Keys)
  }

  /** The inner loop (for subKey in subMatchSpec): stop with false at the first
      sub-field that is not strictly equal; a sub-field the value lacks reads
      as undefined, which is never equal to a string. It returns true exactly
      when every visited sub-field is present and equal. */
  function SubKeysMatch(sub: SubSpec, v: Value, subKeys: seq<string>): (r: bool)
    requires ListsOnly(subKeys, sub.Keys)
    ensures r <==> forall i :: 0 <= i < |subKeys| ==> subKeys[i] in v && v[subKeys[i]] == sub[subKeys[i]]
  {
    if subKeys == [] then true
    else
      assert forall i :: 1 <= i < |subKeys| ==> subKeys[i] == subKeys[1..][i - 1];
      if !(subKeys[0] in v && v[subKeys[0]] == sub[subKeys[0]]) then false
      else SubKeysMatch(sub, v, subKeys[1..])
  }

  /** The outer loop (for key in matchSpec) with its early returns. A falsy
      pattern passes the guard and the inner loop visits nothing. It returns
      true exactly when every visited field whose pattern is present is in the
      triple and passes the inner loop. */
  function TripleMatchesSpec(triple: Triple, spec: MatchSpec, keys: seq<string>,
                             subKeys: map<string, seq<string>>): (r: bool)
    requires OrdersFit(spec, keys, subKeys)
    ensures r <==> forall i :: 0 <= i < |keys| && spec[keys[i]].Some? ==>
      keys[i] in triple && SubKeysMatch(spec[keys[i]].value, triple[keys[i]], subKeys[keys[i]])
  {
    if keys == [] then true
    else
      assert forall i :: 1 <= i < |keys| ==> keys[i] == keys[1..][i - 1];
      var key := keys[0];
      match spec[key]
      case None => TripleMatchesSpec(triple, spec, keys[1..], subKeys)
      case Some(sub) =>
        if key !in triple then false
        else if !SubKeysMatch(sub, triple[key], subKeys[key]) then false
        else TripleMatchesSpec(triple, spec, keys[1..], subKeys)
  }

  // ---------------------------------------------------------------------
  // Properties
  // ---------------------------------------------------------------------

  /** Whatever order the sub-fields are enumerated in, the inner loop decides
      exactly SubSpecHolds. */
  lemma SubKeysMatchInAnyOrder(sub: SubSpec, v: Value, subKeys: seq<string>)
    requires Enumerates(subKeys, sub.Keys)
    ensures SubKeysMatch(sub, v, subKeys) == SubSpecHolds(sub, v)
  {
  }

  /** The loops decide exactly Matches, for every enumeration order of the
      spec's fields and of each pattern's sub-fields. */
  lemma MatchesInAnyOrder(triple: Triple, spec: MatchSpec, keys: seq<string>,
                          subKeys: map<string, seq<string>>)
    requires OrdersFit(spec, keys, subKeys)
    requires Enumerates(keys, spec.Keys)
    requires forall k :: k in spec && spec[k].Some? ==> Enumerates(subKeys[k], spec[k].value.Keys)
    ensures TripleMatchesSpec(triple, spec, keys, subKeys) == Matches(triple, spec)
  {
  }

  /** Consequently the order in which fields and sub-fields are checked never
      changes the outcome. */
  lemma OrderIrrelevant(triple: Triple, spec: MatchSpec,
                        keys1: seq<string>, subKeys1: map<string, seq<string>>,
                        keys2: seq<string>, subKeys2: map<string, seq<string>>)
    requires OrdersFit(spec, keys1, subKeys1) && OrdersFit(spec, keys2, subKeys2)
    requires Enumerates(keys1, spec.Keys) && Enumerates(keys2, spec.Keys)
    requires forall k :: k in spec && spec[k].Some? ==> Enumerates(subKeys1[k], spec[k].value.Keys)
    requires forall k :: k in spec && spec[k].Some? ==> Enumerates(subKeys2[k], spec[k].value.Keys)
    ensures TripleMatchesSpec(triple, spec, keys1, subKeys1) == TripleMatchesSpec(triple, spec, keys2, subKeys2)
  {
  }

  /** A spec whose fields are all falsy (in particular the empty spec) matches
      every triple: the loop never returns false. */
  lemma WildcardSpecMatches(triple: Triple, spec: MatchSpec, keys: seq<string>,
                            subKeys: map<string, seq<string>>)
    requires OrdersFit(spec, keys, subKeys)
    requires forall k :: k in spec ==> spec[k].None?
    ensures TripleMatchesSpec(triple, spec, keys, subKeys)
    ensures Matches(triple, spec)
  {
  }

  /** A field with a present pattern that the triple lacks rejects the triple,
      wherever it comes in the enumeration. */
  lemma MissingFieldRejects(triple: Triple, spec: MatchSpec, keys: seq<string>,
                            subKeys: map<string, seq<string>>, key: string)
    requires OrdersFit(spec, keys, subKeys)
    requires key in keys && key in spec && spec[key].Some? && key !in triple
    ensures !TripleMatchesSpec(triple, spec, keys, subKeys)
    ensures !Matches(triple, spec)
  {
  }

  /** A pattern sub-field whose value differs from the triple's rejects the
      triple, wherever it comes in either enumeration. */
  lemma SubFieldMismatchRejects(triple: Triple, spec: MatchSpec, keys: seq<string>,
                                subKeys: map<string, seq<string>>, key: string, subKey: string)
    requires OrdersFit(spec, keys, subKeys)
    requires key in keys && key in spec && spec[key].Some? && key in triple
    requires subKey in subKeys[key]
    requires subKey !in triple[key] || triple[key][subKey] != spec[key].value[subKey]
    ensures !TripleMatchesSpec(triple, spec, keys, subKeys)
    ensures !Matches(triple, spec)
  {
  }
}
