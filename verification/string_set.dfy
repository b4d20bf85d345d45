/** The `StringSet` of go-util's collections package: a Go map from strings
    to `true`, modelled as the set of its keys.  Go visits a map in an
    unspecified order; where the order shows, it is a parameter, any
    enumeration of the keys. */
module StringSets {
  import opened GoStrings

  type StringSet = set<String>

  /** `Add`: the entry becomes a member and no other membership changes. */
  function Add(ss: StringSet, entry: String): (r: StringSet)
    ensures entry in r
    ensures forall x :: x != entry ==> (x in r <==> x in ss)
  {
    if entry in ss then ss else ss + {entry}
  }

  predicate Contains(ss: StringSet, entry: String) {
    entry in ss
  }

  /** `Remove`: the set without the entry, and whether it was a member. */
  function Remove(ss: StringSet, entry: String): (r: (StringSet, bool))
    ensures r.1 <==> Contains(ss, entry)
    ensures !Contains(r.0, entry)
    ensures forall x :: x != entry ==> (x in r.0 <==> x in ss)
  {
    if entry in ss then (ss - {entry}, true) else (ss, false)
  }

  function Length(ss: StringSet): nat {
    |ss|
  }

  /** Adding grows the set by one exactly when the entry is new, so a
      repeated `Add` leaves the length as it was. */
  lemma AddLength(ss: StringSet, entry: String)
    ensures Length(Add(ss, entry)) == if Contains(ss, entry) then Length(ss) else Length(ss) + 1
    ensures Add(Add(ss, entry), entry) == Add(ss, entry)
  {
  }

  /** Removing what was just added reports it and leaves the other members. */
  lemma RemoveAfterAdd(ss: StringSet, entry: String)
    ensures Remove(Add(ss, entry), entry) == (ss - {entry}, true)
  {
    assert Add(ss, entry) - {entry} == ss - {entry};
  }

  /** Adding the entries one after the other. */
  function AddAll(ss: StringSet, entries: seq<String>): (r: StringSet)
    ensures forall x :: x in r <==> x in ss || x in entries
    decreases |entries|
  {
    if |entries| == 0 then ss
    else
      var init := entries[..|entries| - 1];
      assert entries == init + [entries[|entries| - 1]];
      Add(AddAll(ss, init), entries[|entries| - 1])
  }

  /** The number of distinct entries: the places holding an entry not seen before. */
  function DistinctCount(entries: seq<String>): nat
    decreases |entries|
  {
    if |entries| == 0 then 0
    else
      var init := entries[..|entries| - 1];
      DistinctCount(init) + if entries[|entries| - 1] in init then 0 else 1
  }

  /** A set filled from a list has one member per distinct entry. */
  lemma {:induction false} LengthCountsDistinct(entries: seq<String>)
    ensures Length(AddAll({}, entries)) == DistinctCount(entries)
    decreases |entries|
  {
    if |entries| > 0 {
      var init := entries[..|entries| - 1];
      LengthCountsDistinct(init);
      AddLength(AddAll({}, init), entries[|entries| - 1]);
    }
  }

  /** An order in which Go may visit the set: each member exactly once. */
  predicate IterationOrder(order: seq<String>, ss: StringSet) {
    (forall x :: x in ss ==> x in order)
    && (forall i :: 0 <= i < |order| ==> order[i] in ss)
    && forall i, j :: 0 <= i < j < |order| ==> order[i] != order[j]
  }

  /** A list without repeats has as many elements as its set of elements. */
  lemma {:induction false} DistinctCardinality(order: seq<String>)
    requires forall i, j :: 0 <= i < j < |order| ==> order[i] != order[j]
    ensures |set x | x in order| == |order|
    decreases |order|
  {
    if |order| > 0 {
      var init := order[..|order| - 1];
      var last := order[|order| - 1];
      DistinctCardinality(init);
      assert (set x | x in order) == (set x | x in init) + {last} by {
        assert order == init + [last];
      }
      assert last !in init by {
        forall i | 0 <= i < |init| ensures init[i] != last { assert init[i] == order[i]; }
      }
    }
  }

  /** `Copy`: the members added, in Go's order, to a new set. */
  function Copy(ss: StringSet, order: seq<String>): (r: StringSet)
    requires IterationOrder(order, ss)
    ensures r == ss
  {
    AddAll({}, order)
  }

  /** `ToArray`: the members appended in Go's order. */
  function ToArray(ss: StringSet, order: seq<String>): (r: seq<String>)
    requires IterationOrder(order, ss)
    ensures |r| == Length(ss)
    ensures forall x :: x in r <==> Contains(ss, x)
  {
    DistinctCardinality(order);
    assert (set x | x in order) == ss;
    AppendAll([], order)
  }

  /** Appending the entries one after the other. */
  function AppendAll(output: seq<String>, entries: seq<String>): (r: seq<String>)
    ensures r == output + entries
    decreases |entries|
  {
    if |entries| == 0 then output else AppendAll(output + [entries[0]], entries[1..])
  }

  /** `String`: the members joined with ", ". */
  function SetString(ss: StringSet, order: seq<String>): (r: String)
    requires IterationOrder(order, ss)
    ensures Length(ss) == 0 ==> r == []
    ensures Length(ss) == 1 ==> r == order[0]
  {
    Join(ToArray(ss, order), ", ")
  }
}
