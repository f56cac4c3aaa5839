/**
 * Change sets of an inbound batch and the first part of the POST handler in
 * app.js: defaulting a missing insert/delete list in place, then gathering
 * every insert and every delete across the batch, in order.
 */
module ChangeSets {
  import opened Wrappers
  import opened Matching

  /** One parsed change set. The handler writes back into these very objects,
      so they are heap objects; None stands for a missing (or falsy) list. */
  class ChangeSet {
    var insert: Option<seq<Triple>>
    var delete: Option<seq<Triple>>

    constructor (insert: Option<seq<Triple>>, delete: Option<seq<Triple>>)
      ensures this.insert == insert && this.delete == delete
    {
      this.insert := insert;
      this.delete := delete;
    }
  }

  /** `list || []`: a present list is kept, a missing one becomes empty. */
  function OrEmpty(list: Option<seq<Triple>>): seq<Triple>
  {
    match list
    case Some(l) => l
    case None => []
  }

  /** Every change set of the batch has both lists. */
  predicate Normalised(changeSets: seq<ChangeSet>)
    reads changeSets
  {
    forall c :: c in changeSets ==> c.insert.Some? && c.delete.Some?
  }

  /** Defaults each change set's missing lists to empty, in place. Only the
      insert and delete fields of the batch's own change sets are written; a
      change set listed twice is normalised twice, to the same effect. */
  method Normalise(changeSets: seq<ChangeSet>)
    modifies changeSets
    ensures Normalised(changeSets)
    ensures forall c :: c in changeSets ==>
      c.insert == Some(OrEmpty(old(c.insert))) && c.delete == Some(OrEmpty(old(c.delete)))
  {
    for i := 0 to |changeSets|
      invariant forall c :: c in changeSets[..i] ==>
        c.insert == Some(OrEmpty(old(c.insert))) && c.delete == Some(OrEmpty(old(c.delete)))
      invariant forall c :: c in changeSets && c !in changeSets[..i] ==>
        c.insert == old(c.insert) && c.delete == old(c.delete)
    {
      var change := changeSets[i];
      change.insert := Some(OrEmpty(change.insert));
      change.delete := Some(OrEmpty(change.delete));
      assert changeSets[..i + 1] == changeSets[..i] + [change];
    }
    assert changeSets[..|changeSets|] == changeSets;
  }

  // ---------------------------------------------------------------------
  // Flattening
  // ---------------------------------------------------------------------

  /** The in-order concatenation of a sequence of lists. */
  function Concat(lists: seq<seq<Triple>>): seq<Triple>
  {
    if lists == [] then [] else Concat(lists[..|lists| - 1]) + lists[|lists| - 1]
  }

  /** Total number of elements of a sequence of lists. */
  function SumLengths(lists: seq<seq<Triple>>): nat
  {
    if lists == [] then 0 else SumLengths(lists[..|lists| - 1]) + |lists[|lists| - 1]|
  }

  /** The insert lists of a normalised batch, one per change set. */
  function InsertLists(changeSets: seq<ChangeSet>): seq<seq<Triple>>
    reads changeSets
    requires Normalised(changeSets)
  {
    if changeSets == [] then []
    else InsertLists(changeSets[..|changeSets| - 1]) + [changeSets[|changeSets| - 1].insert.value]
  }

  /** The delete lists of a normalised batch, one per change set. */
  function DeleteLists(changeSets: seq<ChangeSet>): seq<seq<Triple>>
    reads changeSets
    requires Normalised(changeSets)
  {
    if changeSets == [] then []
    else DeleteLists(changeSets[..|changeSets| - 1]) + [changeSets[|changeSets| - 1].delete.value]
  }

  /** Gathers allInserts and allDeletes: each change set's lists are appended
      in batch order. */
  method Flatten(changeSets: seq<ChangeSet>) returns (allInserts: seq<Triple>, allDeletes: seq<Triple>)
    requires Normalised(changeSets)
    ensures allInserts == Concat(InsertLists(changeSets))
    ensures allDeletes == Concat(DeleteLists(changeSets))
  {
    allInserts, allDeletes := [], [];
    for i := 0 to |changeSets|
      invariant allInserts == Concat(InsertLists(changeSets[..i]))
      invariant allDeletes == Concat(DeleteLists(changeSets[..i]))
    {
      assert changeSets[..i + 1][..i] == changeSets[..i];
      allInserts := allInserts + changeSets[i].insert.value;
      allDeletes := allDeletes + changeSets[i].delete.value;
    }
    assert changeSets[..|changeSets|] == changeSets;
  }

  /** The triples the handler passes on: every insert, then every delete. */
  function ChangedTriples(changeSets: seq<ChangeSet>): seq<Triple>
    reads changeSets
    requires Normalised(changeSets)
  {
    Concat(InsertLists(changeSets)) + Concat(DeleteLists(changeSets))
  }

  // ---------------------------------------------------------------------
  // Properties
  // ---------------------------------------------------------------------

  /** The i-th insert list is the i-th change set's insert, and likewise for
      deletes. */
  lemma {:induction false} ListsAt(changeSets: seq<ChangeSet>)
    requires Normalised(changeSets)
    ensures |InsertLists(changeSets)| == |changeSets| == |DeleteLists(changeSets)|
    ensures forall i :: 0 <= i < |changeSets| ==>
      InsertLists(changeSets)[i] == changeSets[i].insert.value &&
      DeleteLists(changeSets)[i] == changeSets[i].delete.value
  {
    if changeSets != [] {
      ListsAt(changeSets[..|changeSets| - 1]);
    }
  }

  /** Concatenation distributes over appending lists. */
  lemma {:induction false} ConcatAppend(a: seq<seq<Triple>>, b: seq<seq<Triple>>)
    ensures Concat(a + b) == Concat(a) + Concat(b)
  {
    if b == [] {
      assert a + b == a;
    } else {
      var last := |b| - 1;
      assert (a + b)[..|a + b| - 1] == a + b[..last];
      assert (a + b)[|a + b| - 1] == b[last];
      ConcatAppend(a, b[..last]);
    }
  }

  /** Each list sits, whole and in place, between the lists before it and the
      lists after it. */
  lemma {:induction false} ConcatSplit(lists: seq<seq<Triple>>, i: nat)
    requires i < |lists|
    ensures Concat(lists) == Concat(lists[..i]) + lists[i] + Concat(lists[i + 1..])
  {
    var upTo, rest := lists[..i + 1], lists[i + 1..];
    assert upTo[..|upTo| - 1] == lists[..i] && upTo[|upTo| - 1] == lists[i];
    assert Concat(upTo) == Concat(lists[..i]) + lists[i];
    assert lists == upTo + rest;
    ConcatAppend(upTo, rest);
  }

  /** The concatenation is as long as all lists together. */
  lemma {:induction false} ConcatLength(lists: seq<seq<Triple>>)
    ensures |Concat(lists)| == SumLengths(lists)
  {
    if lists != [] {
      ConcatLength(lists[..|lists| - 1]);
    }
  }

  /** A triple is in the concatenation exactly when it is in one of the lists. */
  lemma {:induction false} ConcatMember(lists: seq<seq<Triple>>, t: Triple)
    ensures t in Concat(lists) <==> exists i :: 0 <= i < |lists| && t in lists[i]
  {
    if lists != [] {
      var init := lists[..|lists| - 1];
      ConcatMember(init, t);
      if t in Concat(init) {
        var i :| 0 <= i < |init| && t in init[i];
        assert lists[i] == init[i];
      }
      if exists i :: 0 <= i < |lists| && t in lists[i] {
        var i :| 0 <= i < |lists| && t in lists[i];
        if i < |init| { assert init[i] == lists[i]; }
      }
    }
  }

  /** The changed triples are every change set's inserts followed by every
      change set's deletes, and their count is the sum of all list lengths;
      a triple is changed exactly when some change set inserts or deletes it. */
  lemma {:induction false} ChangedTriplesContents(changeSets: seq<ChangeSet>, t: Triple)
    requires Normalised(changeSets)
    ensures |ChangedTriples(changeSets)| ==
      SumLengths(InsertLists(changeSets)) + SumLengths(DeleteLists(changeSets))
    ensures t in ChangedTriples(changeSets) <==>
      exists i :: 0 <= i < |changeSets| &&
        (t in changeSets[i].insert.value || t in changeSets[i].delete.value)
  {
    ConcatLength(InsertLists(changeSets));
    ConcatLength(DeleteLists(changeSets));
    ConcatMember(InsertLists(changeSets), t);
    ConcatMember(DeleteLists(changeSets), t);
    ListsAt(changeSets);
  }

  /** A batch with no inserts and no deletes changes no triple. */
  lemma {:induction false} EmptyBatchChangesNothing(changeSets: seq<ChangeSet>)
    requires Normalised(changeSets)
    requires forall c :: c in changeSets ==> c.insert.value == [] && c.delete.value == []
    ensures ChangedTriples(changeSets) == []
  {
    if changeSets != [] {
      EmptyBatchChangesNothing(changeSets[..|changeSets| - 1]);
    }
  }
}
