/** Lookups on the fixed code-point tables of the jamo converters. */
module Tables {
  import opened Wrappers

  /** Bounds-checked indexing, as slice `get` does: `None` past the end. */
  function Get(table: seq<nat>, i: nat): (r: Option<nat>)
    ensures r.Some? <==> i < |table|
    ensures r.Some? ==> r.value == table[i]
  {
    if i < |table| then Some(table[i]) else None
  }

  /** The index of the first entry equal to `x`, as iterator `position` finds it. */
  function Position(table: seq<nat>, x: nat): (r: Option<nat>)
    ensures r.None? <==> x !in table
    ensures r.Some? ==> r.value < |table| && table[r.value] == x
    ensures r.Some? ==> forall j :: 0 <= j < r.value ==> table[j] != x
  {
    if |table| == 0 then None
    else if table[0] == x then Some(0)
    else match Position(table[1..], x)
      case Some(i) => Some(i + 1)
      case None => None
  }

  /** `position(..).map(|i| base + i)`: a found index turned into a code point. */
  function Offset(p: Option<nat>, base: nat): (r: Option<nat>)
    ensures r.Some? <==> p.Some?
    ensures r.Some? ==> r.value == base + p.value
  {
    match p
    case Some(i) => Some(base + i)
    case None => None
  }

  ghost predicate StrictlyIncreasing(table: seq<nat>) {
    forall i, j :: 0 <= i < j < |table| ==> table[i] < table[j]
  }

  /** In a strictly increasing table, searching for an entry finds the index it was read from. */
  lemma PositionOfEntry(table: seq<nat>, i: nat)
    requires StrictlyIncreasing(table)
    requires i < |table|
    ensures Position(table, table[i]) == Some(i)
  {
    var r := Position(table, table[i]);
    assert table[i] in table;
  }
}
