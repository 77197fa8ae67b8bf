/** What the SET list of an UPDATE says, read from its tree, and what it makes of a row. */
module Updates {
  import opened Wrappers
  import opened JsonText
  import opened JsonScan
  import opened Conditions
  import opened Inserts

  /** {"ResTarget":{"name":c,"val":v,...}}: column c is set to v. */
  function SetTarget(j: Json): Option<(string, Json)> {
    var t := Get(j, "ResTarget");
    if t.None? || Get(t.value, "indirection").Some? || Get(t.value, "name").None? || Get(t.value, "val").None? then None
    else
      var name := StringOf(Get(t.value, "name").value);
      if name.Some? then Some((name.value, Get(t.value, "val").value)) else None
  }

  predicate SetList(items: Items, sets: seq<(string, Json)>) {
    if items.NoItems? then sets == []
    else sets != [] && SetTarget(items.value) == Some(sets[0]) && SetList(items.more, sets[1..])
  }

  /** A plain constant is meant as it is; other values are computed from the row. */
  function SetValue(val: Json, row: Row, compute: (Json, Row) -> Value): Value {
    if PlainConst(val).Some? then PlainConst(val).value else compute(val, row)
  }

  /** Values are computed from the row as it was, whatever has been set already. */
  function Assign(sets: seq<(string, Json)>, was: Row, row: Row, compute: (Json, Row) -> Value): Row
    decreases sets
  {
    if sets == [] then row
    else Assign(sets[1..], was, row[sets[0].0 := SetValue(sets[0].1, was, compute)], compute)
  }

  /** What a column is set to. */
  function SetItem(sets: seq<(string, Json)>, column: string): (r: Option<Json>)
    ensures r.Some? ==> (column, r.value) in sets
    ensures r.None? ==> forall i :: 0 <= i < |sets| ==> sets[i].0 != column
  {
    if sets == [] then None
    else
      var later := SetItem(sets[1..], column);
      if later.Some? then later else if sets[0].0 == column then Some(sets[0].1) else None
  }

  /** A column that is set has its new value, and another one what it had. */
  lemma {:induction false} AssignAt(sets: seq<(string, Json)>, was: Row, row: Row, compute: (Json, Row) -> Value, k: string)
    ensures var r, item := Assign(sets, was, row, compute), SetItem(sets, k);
            && (item.Some? ==> Has(r, k, SetValue(item.value, was, compute)))
            && (item.None? ==> (k in r <==> k in row) && (k in row ==> r[k] == row[k]))
    decreases sets
  {
    if sets != [] {
      AssignAt(sets[1..], was, row[sets[0].0 := SetValue(sets[0].1, was, compute)], compute, k);
    }
  }

  /** The values an item may stand for. */
  predicate MaySet(item: Json, v: Value) {
    PlainConst(item).None? || PlainConst(item) == Some(v)
  }
}
