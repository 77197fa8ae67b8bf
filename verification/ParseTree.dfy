/**
 What src/parser/query_parser.c reports about a statement, as a function of the parse tree
 rather than of its text.
 */
module ParseTree {
  import opened Wrappers
  import opened JsonText
  import opened JsonScan

  datatype StmtType =
    | SELECT | INSERT | UPDATE | DELETE | DDL | TRANSACTION | SET | SHOW | DISCARD | COPY | UNKNOWN

  /** A literal compared with or inserted into a column; None is a string node without a string in it. */
  datatype Key = IntKey(n: int) | StrKey(s: Option<string>)

  datatype Parsed = Parsed(
    stmt: StmtType,
    table: Option<string>,
    schema: Option<string>,
    found: bool,
    column: Option<string>,
    intKey: int,
    strKey: Option<string>,
    isInt: bool,
    tree: Option<string>)
  {
    function WithKey(k: Key): Parsed {
      match k
      case IntKey(n) => this.(intKey := n, isInt := true, found := true)
      case StrKey(s) => this.(strKey := s, isInt := false, found := true)
    }
  }

  const BLANK := Parsed(UNKNOWN, None, None, false, None, 0, None, false, None)

  function StmtTypeOf(stmt: Json): StmtType {
    if stmt.Obj? && stmt.members.Member? then StmtTypeOfKey(stmt.members.key) else UNKNOWN
  }

  function StmtTypeOfKey(k: string): StmtType {
    if k == "SelectStmt" then SELECT
    else if k == "InsertStmt" then INSERT
    else if k == "UpdateStmt" then UPDATE
    else if k == "DeleteStmt" then DELETE
    else if k == "TransactionStmt" then TRANSACTION
    else if k == "VariableSetStmt" then SET
    else if k == "VariableShowStmt" then SHOW
    else if k == "DiscardStmt" then DISCARD
    else if k == "CopyStmt" then COPY
    else if k in DDL_NODES then DDL
    else UNKNOWN
  }

  const DDL_NODES := [
    "CreateStmt", "AlterTableStmt", "DropStmt", "IndexStmt", "CreateSchemaStmt", "ViewStmt",
    "CreateFunctionStmt", "TruncateStmt", "RenameStmt", "CreateSeqStmt", "AlterSeqStmt"]

  // ---------- WHERE ----------

  /** The literal in an A_Const node: an integer node without a value (libpg_query's 0) is not seen. */
  function ReadConst(c: Json): Option<Key> {
    var ival := Get(c, "ival");
    if ival.Some? && Get(ival.value, "ival").Some? then Some(IntKey(IntOf(Get(ival.value, "ival").value)))
    else
      var sval := Get(c, "sval");
      if sval.Some? && Get(sval.value, "sval").Some? then Some(StrKey(StringOf(Get(sval.value, "sval").value)))
      else None
  }

  predicate IsEquality(e: Json) {
    var name := Get(e, "name");
    name.Some? &&
    var op := Find(name.value, "sval");
    op.Some? && StringOf(op.value) == Some("=")
  }

  function FieldsOf(e: Json): Option<Json> {
    var lexpr := Get(e, "lexpr");
    if lexpr.None? then None
    else
      var colref := Get(lexpr.value, "ColumnRef");
      if colref.None? then None else Get(colref.value, "fields")
  }

  function ColumnOf(fields: Json, stale: Option<string>): Option<string> {
    var node := Find(fields, "String");
    if node.Some? && Get(node.value, "sval").Some? then StringOf(Get(node.value, "sval").value) else stale
  }

  function ConstOf(e: Json): Option<Key> {
    var rexpr := Get(e, "rexpr");
    if rexpr.None? then None
    else
      var c := Get(rexpr.value, "A_Const");
      if c.None? then None else ReadConst(c.value)
  }

  function ComparisonKey(e: Json, r: Parsed): (p: Parsed)
    ensures p.stmt == r.stmt && p.tree == r.tree && p.table == r.table
  {
    if !IsEquality(e) || FieldsOf(e).None? then r
    else
      var r := r.(column := ColumnOf(FieldsOf(e).value, r.column));
      if r.column.None? || ConstOf(e).None? then r else r.WithKey(ConstOf(e).value)
  }

  function WhereKey(w: Json, r: Parsed): (p: Parsed)
    ensures p.stmt == r.stmt && p.tree == r.tree && p.table == r.table
    decreases Size(w)
  {
    var e := Get(w, "A_Expr");
    if e.Some? then ComparisonKey(e.value, r)
    else
      var b := Get(w, "BoolExpr");
      if b.None? then r
      else
        var args := Get(b.value, "args");
        if args.None? || !args.value.Arr? then r else ArgsKey(args.value.items, r)
  }

  function ArgsKey(args: Items, r: Parsed): (p: Parsed)
    ensures p.stmt == r.stmt && p.tree == r.tree && p.table == r.table
    decreases SizeItems(args)
  {
    if args.NoItems? then r
    else
      var r := WhereKey(args.value, r);
      if r.found then r else ArgsKey(args.more, r)
  }

  // ---------- Tables ----------

  function RangeVarTable(rv: Json, r: Parsed): (p: Parsed)
    ensures p.stmt == r.stmt && p.tree == r.tree && p.found == r.found && p.column == r.column
  {
    var r := if Get(rv, "relname").Some? then r.(table := StringOf(Get(rv, "relname").value)) else r;
    if Get(rv, "schemaname").Some? then r.(schema := StringOf(Get(rv, "schemaname").value)) else r
  }

  function RelationTable(s: Json, r: Parsed): (p: Parsed)
    ensures p.stmt == r.stmt && p.tree == r.tree && p.found == r.found && p.column == r.column
  {
    if Get(s, "relation").Some? then RangeVarTable(Get(s, "relation").value, r) else r
  }

  function FromTable(s: Json, r: Parsed): (p: Parsed)
    ensures p.stmt == r.stmt && p.tree == r.tree && p.found == r.found && p.column == r.column
  {
    var from := Get(s, "fromClause");
    if from.None? then r
    else if Find(from.value, "RangeVar").Some? then RangeVarTable(Find(from.value, "RangeVar").value, r)
    else if Find(from.value, "relname").Some? then r.(table := StringOf(Find(from.value, "relname").value))
    else r
  }

  function WhereOf(s: Json, r: Parsed): (p: Parsed)
    ensures p.stmt == r.stmt && p.tree == r.tree && p.table == r.table
  {
    if Get(s, "whereClause").Some? then WhereKey(Get(s, "whereClause").value, r) else r
  }

  // ---------- Whole statements ----------

  function StatementOf(doc: Json): Option<Json> {
    var stmts := Get(doc, "stmts");
    if stmts.Some? && stmts.value.Arr? && stmts.value.items.Item? then Get(stmts.value.items.value, "stmt") else None
  }

  function ParseStmt(stmt: Json, r: Parsed): (p: Parsed)
    ensures p.stmt == StmtTypeOf(stmt) && p.tree == r.tree
  {
    var r := r.(stmt := StmtTypeOf(stmt));
    match r.stmt
    case SELECT =>
      var s := Get(stmt, "SelectStmt");
      if s.None? then r else WhereOf(s.value, FromTable(s.value, r))
    case INSERT =>
      var s := Get(stmt, "InsertStmt");
      if s.None? then r else RelationTable(s.value, r)
    case UPDATE =>
      var s := Get(stmt, "UpdateStmt");
      if s.None? then r else WhereOf(s.value, RelationTable(s.value, r))
    case DELETE =>
      var s := Get(stmt, "DeleteStmt");
      if s.None? then r else WhereOf(s.value, RelationTable(s.value, r))
    case DDL =>
      var rel := Find(stmt, "relname");
      if rel.None? then r else r.(table := StringOf(rel.value))
    case _ => r
  }

  /** The result of parse_query; false stands for its return value -1. */
  function ParseDoc(doc: Json): (bool, Parsed) {
    var r := BLANK.(tree := Some(Render(doc)));
    var stmts := Get(doc, "stmts");
    if stmts.None? || !stmts.value.Arr? then (false, r)
    else if stmts.value.items.NoItems? then (true, r)
    else
      var stmt := StatementOf(doc);
      if stmt.None? then (false, r) else (true, ParseStmt(stmt.value, r))
  }

  // ---------- INSERT, once the shard column is known ----------

  function StringsAt(texts: seq<string>): seq<Option<string>> {
    seq(|texts|, i requires 0 <= i < |texts| => StringAt(texts[i]))
  }

  /** The first name in the list that is the shard column. */
  function IndexOfName(names: seq<string>, column: string): (r: Option<nat>)
    ensures r.Some? ==> r.value < |names| && StringAt(names[r.value]) == Some(column)
    ensures r.Some? ==> forall j :: 0 <= j < r.value ==> StringAt(names[j]) != Some(column)
    ensures r.None? ==> forall j :: 0 <= j < |names| ==> StringAt(names[j]) != Some(column)
  {
    var r := FirstIndex(StringsAt(names), Some(column));
    assert forall j :: 0 <= j < |names| ==> StringsAt(names)[j] == StringAt(names[j]);
    r
  }

  function Nth(items: Items, n: nat): Option<Json> {
    if items.NoItems? then None else if n == 0 then Some(items.value) else Nth(items.more, n - 1)
  }

  function FirstValues(ins: Json): Option<Items> {
    var sel := Get(ins, "selectStmt");
    if sel.None? then None
    else
      var ss := Get(sel.value, "SelectStmt");
      if ss.None? then None
      else
        var lists := Get(ss.value, "valuesLists");
        if lists.None? then None
        else
          var first := Find(lists.value, "items");
          if first.Some? && first.value.Arr? then Some(first.value.items) else None
  }

  /** The names are searched from the column list to the end of the document. */
  function NamePosition(ins: At, column: string): Option<nat> {
    var cols := GetAt(ins, "cols");
    if cols.None? || !cols.value.v.Arr? then None
    else IndexOfName(ScanAll(cols.value.Text(), "name"), column)
  }

  function ValueKey(values: Items, n: nat): Option<Key> {
    var value := Nth(values, n);
    if value.None? then None
    else
      var c := Find(value.value, "A_Const");
      if c.None? then None else ReadConst(c.value)
  }

  function InsertKey(ins: At, column: string, r: Parsed): Parsed {
    var pos, values := NamePosition(ins, column), FirstValues(ins.v);
    if pos.None? || values.None? then r
    else
      var key := ValueKey(values.value, pos.value);
      if key.None? then r else r.WithKey(key.value).(column := Some(column))
  }

  function FirstItem(a: At): (r: Option<At>)
    ensures r.Some? && a.Ok() ==> r.value.Ok()
  {
    if a.v.Arr? && a.v.items.Item? then
      var next := EmitMoreItems(a.v.items.more, Cons(']', a.after));
      assert a.Ok() ==> WFItems(a.v.items);
      Some(At(a.v.items.value, next))
    else None
  }

  /** Where the InsertStmt node stands in the document. */
  function InsertAt(doc: Json): (r: Option<At>)
    ensures r.Some? && WF(doc) ==> r.value.Ok()
  {
    var stmts := GetAt(At(doc, ""), "stmts");
    if stmts.None? then None
    else
      var first := FirstItem(stmts.value);
      if first.None? then None
      else
        var stmt := GetAt(first.value, "stmt");
        if stmt.None? then None else GetAt(stmt.value, "InsertStmt")
  }

  function InsertParsed(doc: Json, column: Option<string>, r: Parsed): Parsed {
    if r.stmt != INSERT || r.tree.None? || column.None? || InsertAt(doc).None? then r
    else InsertKey(InsertAt(doc).value, column.value, r)
  }
}
