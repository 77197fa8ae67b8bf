/** What an INSERT says, read from its tree, and the key the second pass of the parser finds in it. */
module Inserts {
  import opened Wrappers
  import opened JsonText
  import opened JsonScan
  import opened ParseTree
  import opened Conditions

  /** {"ResTarget":{"name":c,"location":n}}: a plain column in the column list. */
  function ColumnTarget(j: Json): Option<string> {
    if j.Obj? && j.members.Member? && j.members.key == "ResTarget" && j.members.rest.NoMembers? then
      var t := j.members.value;
      if t.Obj? && t.members.Member? && t.members.key == "name" && LocationOnly(t.members.rest)
      then StringOf(t.members.value) else None
    else None
  }

  predicate LocationOnly(ms: Members) {
    ms.Member? ==> ms.key == "location" && ms.value.Atom? && ms.rest.NoMembers?
  }

  predicate ColumnList(items: Items, names: seq<string>) {
    if items.NoItems? then names == []
    else names != [] && ColumnTarget(items.value) == Some(names[0]) && ColumnList(items.more, names[1..])
  }

  /** {"List":{"items":[...]}}: one row of VALUES. */
  function ValuesRow(j: Json): Option<Items> {
    if j.Obj? && j.members.Member? && j.members.key == "List" && j.members.rest.NoMembers? then
      var l := j.members.value;
      if l.Obj? && l.members.Member? && l.members.key == "items" && l.members.value.Arr? && l.members.rest.NoMembers?
      then Some(l.members.value.items) else None
    else None
  }

  predicate ValuesList(items: Items, rows: seq<Items>) {
    if items.NoItems? then rows == []
    else rows != [] && ValuesRow(items.value) == Some(rows[0]) && ValuesList(items.more, rows[1..])
  }

  function ValuesOf(ins: Json): Option<Json> {
    var sel := Get(ins, "selectStmt");
    if sel.None? then None else Get(sel.value, "SelectStmt")
  }

  function ValuesListsOf(ins: Json): Option<Items> {
    var ss := ValuesOf(ins);
    if ss.None? then None
    else
      var lists := Get(ss.value, "valuesLists");
      if lists.Some? && lists.value.Arr? then Some(lists.value.items) else None
  }

  /** INSERT INTO t (names) VALUES (rows) */
  predicate IsInsertOf(ins: Json, names: seq<string>, rows: seq<Items>) {
    && Get(ins, "cols").Some? && Get(ins, "cols").value.Arr?
    && ColumnList(Get(ins, "cols").value.items, names)
    && ValuesListsOf(ins).Some? && ValuesList(ValuesListsOf(ins).value, rows)
  }

  // ---------- The position of the shard column ----------

  function IndexOf(names: seq<string>, c: string): (i: nat)
    requires c in names
    ensures i < |names| && names[i] == c && c !in names[..i]
  {
    if names[0] == c then 0 else
      var i := IndexOf(names[1..], c);
      assert names[..i + 1] == [names[0]] + names[1..][..i];
      i + 1
  }

  lemma {:induction false} NamesFound(items: Items, names: seq<string>, k: string)
    requires WFItems(items) && ColumnList(items, names)
    ensures var s := AllAtItems(items, "name", k);
            |s| == |names| && forall i :: 0 <= i < |s| ==> s[i].v == Str(names[i]) && WF(s[i].v)
    decreases items
  {
    if items.Item? {
      NamesFound(items.more, names[1..], k);
      OneName(At(items.value, EmitMoreItems(items.more, k)), names[0]);
    }
  }

  lemma NoNames(ms: Members, k: string)
    requires LocationOnly(ms)
    ensures AllAtMembers(ms, "name", k) == []
  {
    if ms.Member? {
      var here := At(ms.value, EmitMoreMembers(ms.rest, k));
      assert AllAtMember("location", here, "name") == AllAt(here, "name") == [];
    }
  }

  lemma OneName(a: At, name: string)
    requires WF(a.v) && ColumnTarget(a.v) == Some(name)
    ensures var s := AllAt(a, "name"); |s| == 1 && s[0].v == Str(name) && WF(s[0].v)
  {
    var ms := a.v.members;
    var k := Cons('}', a.after);
    var t := At(ms.value, EmitMoreMembers(ms.rest, k));
    var inner := t.v.members;
    var n := At(inner.value, EmitMoreMembers(inner.rest, Cons('}', t.after)));
    assert WFMembers(ms) && WF(t.v) && WFMembers(inner);
    NoNames(inner.rest, Cons('}', t.after));
    assert AllAtMember("name", n, "name") == [n];
    assert AllAt(t, "name") == [n];
    assert AllAtMember("ResTarget", t, "name") == [n];
    assert AllAtMembers(ms.rest, "name", k) == [];
  }

  lemma {:induction false} TextsOfIndex(s: seq<At>, i: nat)
    requires i < |s|
    ensures TextsOf(s)[i] == s[i].Text()
  {
    if i > 0 {
      TextsOfIndex(s[1..], i - 1);
    }
  }

  /** The linear search for names hits the shard column where the column list has it. */
  lemma PositionExact(ins: At, names: seq<string>, rows: seq<Items>, c: string)
    requires ins.Ok() && IsInsertOf(ins.v, names, rows) && c in names
    ensures NamePosition(ins, c) == Some(IndexOf(names, c))
  {
    var cols := GetAt(ins, "cols").value;
    var k := Cons(']', cols.after);
    var s := AllAtItems(cols.v.items, "name", k);
    assert WFItems(cols.v.items);
    NamesFound(cols.v.items, names, k);
    ScanItems(cols.v.items, k, "name");
    ColsScan(cols);
    FirstOfTexts(s, names, ScanAll(k, "name"), c);
  }

  /** Texts that spell the names, and others behind them. */
  lemma FirstOfTexts(s: seq<At>, names: seq<string>, more: seq<string>, c: string)
    requires |s| == |names| && (forall i :: 0 <= i < |s| ==> s[i].v == Str(names[i]) && WF(s[i].v)) && c in names
    ensures IndexOfName(TextsOf(s) + more, c) == Some(IndexOf(names, c))
  {
    forall j | 0 <= j < |names|
      ensures StringAt((TextsOf(s) + more)[j]) == Some(names[j])
    {
      TextsOfIndex(s, j);
      StringAtValue(s[j]);
    }
    FirstNamed(TextsOf(s) + more, names, c);
  }

  lemma FirstNamed(texts: seq<string>, names: seq<string>, c: string)
    requires |names| <= |texts| && (forall j :: 0 <= j < |names| ==> StringAt(texts[j]) == Some(names[j])) && c in names
    ensures IndexOfName(texts, c) == Some(IndexOf(names, c))
  {
    var i, strings := IndexOf(names, c), StringsAt(texts);
    forall j | 0 <= j < i
      ensures strings[j] != Some(c)
    {
      assert strings[j] == Some(names[j]) && names[j] in names[..i];
    }
    assert strings[i] == Some(names[i]);
    FirstIndexIs(strings, Some(c), i);
  }

  lemma ColsScan(cols: At)
    requires cols.v.Arr?
    ensures ScanAll(cols.Text(), "name") == ScanAll(EmitItems(cols.v.items, Cons(']', cols.after)), "name")
  {
  }

  // ---------- The key of the first row ----------

  /** {"A_Const":...}: a plain constant, as libpg_query prints it. */
  function PlainConst(item: Json): Option<Value> {
    if item.Obj? && item.members.Member? && item.members.key == "A_Const" && item.members.rest.NoMembers?
       && Printed(item.members.value)
    then LiteralIn(item.members.value) else None
  }

  lemma FirstRowFound(ins: Json, names: seq<string>, rows: seq<Items>)
    requires IsInsertOf(ins, names, rows) && rows != []
    ensures FirstValues(ins) == Some(rows[0])
  {
    var lists := ValuesListsOf(ins).value;
    var list := lists.value.members.value;
    assert Get(list, "items") == Some(list.members.value);
    assert Get(lists.value, "items").None?;
    assert Find(list, "items") == Some(list.members.value);
    assert Find(lists.value, "items") == Some(list.members.value);
    assert Find(Arr(lists), "items") == Some(list.members.value);
  }

  function ValueOfKey(k: Key): Option<Value> {
    match k
    case IntKey(n) => Some(IntV(n))
    case StrKey(s) => if s.Some? then Some(StrV(s.value)) else None
  }

  /** A plain constant is read as it is, except that 0 is not seen. */
  lemma {:induction false} ConstExact(values: Items, i: nat)
    requires Nth(values, i).Some? && PlainConst(Nth(values, i).value).Some?
    ensures var v := PlainConst(Nth(values, i).value).value;
            if v == IntV(0) then ValueKey(values, i).None?
            else ValueKey(values, i).Some? && ValueOfKey(ValueKey(values, i).value) == Some(v)
  {
    var item := Nth(values, i).value;
    assert Find(item, "A_Const") == Some(item.members.value);
  }

  /** The second pass on INSERT INTO t (names) VALUES rows: the literal under the shard column in the first row. */
  lemma InsertExact(ins: At, names: seq<string>, rows: seq<Items>, c: string, r: Parsed)
    requires ins.Ok() && IsInsertOf(ins.v, names, rows) && c in names && rows != [] && !r.found
    requires var item := Nth(rows[0], IndexOf(names, c)); item.Some? && PlainConst(item.value).Some?
    ensures var v := PlainConst(Nth(rows[0], IndexOf(names, c)).value).value;
            var p := InsertKey(ins, c, r);
            if v == IntV(0) then !p.found else p.found && Reported(p) == Some((c, v))
  {
    PositionExact(ins, names, rows, c);
    FirstRowFound(ins.v, names, rows);
    ConstExact(rows[0], IndexOf(names, c));
  }

  // ---------- The rows an INSERT adds ----------

  function ItemValue(item: Json, eval: Json -> Value): Value {
    if PlainConst(item).Some? then PlainConst(item).value else eval(item)
  }

  function RowOf(names: seq<string>, values: Items, eval: Json -> Value): Row {
    if names == [] || values.NoItems? then map[]
    else RowOf(names[1..], values.more, eval)[names[0] := ItemValue(values.value, eval)]
  }

  lemma {:induction false} RowKey(names: seq<string>, values: Items, eval: Json -> Value, c: string)
    requires c in names && Nth(values, IndexOf(names, c)).Some?
    ensures Has(RowOf(names, values, eval), c, ItemValue(Nth(values, IndexOf(names, c)).value, eval))
  {
    if names[0] != c {
      RowKey(names[1..], values.more, eval, c);
    }
  }
}
