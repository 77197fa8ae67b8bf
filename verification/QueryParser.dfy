/**
 src/parser/query_parser.c over the text of a parse tree. Every method is proved to report what
 ParseTree reports about the tree itself. The ghost argument `a` says which tree the text shows.
 */
module QueryParser {
  import opened Wrappers
  import opened JsonText
  import opened JsonScan
  import opened JsonUtil
  import opened ParseTree

  class ParseResult {
    var stmt: StmtType
    var table: Option<string>
    var schema: Option<string>
    var found: bool
    var column: Option<string>
    var intKey: int
    var strKey: Option<string>
    var isInt: bool
    var tree: Option<string>

    ghost function View(): Parsed
      reads this
    {
      Parsed(stmt, table, schema, found, column, intKey, strKey, isInt, tree)
    }

    constructor ()
      ensures View() == BLANK
    {
      stmt, table, schema := UNKNOWN, None, None;
      found, column, intKey, strKey, isInt := false, None, 0, None, false;
      tree := None;
    }
  }

  // Shorthands for the searches that follow a chain of keys

  method FindIn(p: Option<string>, key: string, ghost a: Option<At>) returns (r: Option<string>, ghost b: Option<At>)
    requires p == Texts(a) && (a.Some? ==> a.value.Ok()) && CleanKey(key)
    ensures b == if a.Some? then GetAt(a.value, key) else None
    ensures r == Texts(b) && (b.Some? ==> b.value.Ok())
  {
    r, b := None, None;
    if p.Some? {
      r := FindKey(p.value, key, a.value);
      b := GetAt(a.value, key);
    }
  }

  method StringValue(p: string, ghost a: At) returns (r: Option<string>)
    requires a.Ok() && p == a.Text()
    ensures r == StringOf(a.v)
  {
    r := GetString(p);
    StringAtValue(a);
  }

  lemma DdlKeysClean()
    ensures forall i :: 0 <= i < |DDL_NODES| ==> CleanKey(DDL_NODES[i])
  {
  }

  method IsDdl(stmt: string, ghost a: At) returns (b: bool)
    requires a.Ok() && stmt == a.Text()
    ensures b <==> a.v.Obj? && a.v.members.Member? && a.v.members.key in DDL_NODES
  {
    DdlKeysClean();
    for i := 0 to |DDL_NODES|
      invariant forall j :: 0 <= j < i ==>
                  !(a.v.Obj? && a.v.members.Member? && a.v.members.key == DDL_NODES[j])
    {
      b := StartsWithKey(stmt, DDL_NODES[i], a);
      if b { return; }
    }
    return false;
  }

  lemma DmlKeysClean()
    ensures CleanKey("SelectStmt") && CleanKey("InsertStmt") && CleanKey("UpdateStmt") && CleanKey("DeleteStmt")
  {
  }

  lemma PathKeysClean()
    ensures CleanKey("stmts") && CleanKey("stmt")
  {
  }

  lemma ValuesKeysClean()
    ensures CleanKey("selectStmt") && CleanKey("SelectStmt") && CleanKey("valuesLists") && CleanKey("items")
  {
  }

  lemma SessionKeysClean()
    ensures CleanKey("TransactionStmt") && CleanKey("VariableSetStmt") && CleanKey("VariableShowStmt")
  {
  }

  method DetectStmtType(stmt: string, ghost a: At) returns (t: StmtType)
    requires a.Ok() && stmt == a.Text()
    ensures t == StmtTypeOf(a.v)
  {
    DmlKeysClean();
    SessionKeysClean();
    var b := StartsWithKey(stmt, "SelectStmt", a);
    if b { return SELECT; }
    b := StartsWithKey(stmt, "InsertStmt", a);
    if b { return INSERT; }
    b := StartsWithKey(stmt, "UpdateStmt", a);
    if b { return UPDATE; }
    b := StartsWithKey(stmt, "DeleteStmt", a);
    if b { return DELETE; }
    b := StartsWithKey(stmt, "TransactionStmt", a);
    if b { return TRANSACTION; }
    b := StartsWithKey(stmt, "VariableSetStmt", a);
    if b { return SET; }
    b := StartsWithKey(stmt, "VariableShowStmt", a);
    if b { return SHOW; }
    b := StartsWithKey(stmt, "DiscardStmt", a);
    if b { return DISCARD; }
    b := StartsWithKey(stmt, "CopyStmt", a);
    if b { return COPY; }
    b := IsDdl(stmt, a);
    return if b then DDL else UNKNOWN;
  }

  method ReadConstant(aconst: string, ghost a: At) returns (k: Option<Key>)
    requires a.Ok() && aconst == a.Text()
    ensures k == ReadConst(a.v)
  {
    ghost var g;
    var p;
    p, g := FindIn(Some(aconst), "ival", Some(a));
    p, g := FindIn(p, "ival", g);
    if p.Some? {
      var n := GetInt(p.value, g.value);
      return Some(IntKey(n));
    }
    p, g := FindIn(Some(aconst), "sval", Some(a));
    p, g := FindIn(p, "sval", g);
    if p.Some? {
      var s := StringValue(p.value, g.value);
      return Some(StrKey(s));
    }
    return None;
  }

  method SetKey(result: ParseResult, k: Key)
    modifies result
    ensures result.View() == old(result.View()).WithKey(k)
  {
    match k
    case IntKey(n) => result.intKey, result.isInt, result.found := n, true, true;
    case StrKey(s) => result.strKey, result.isInt, result.found := s, false, true;
  }

  method OperatorIsEquals(aexpr: string, ghost a: At) returns (b: bool)
    requires a.Ok() && aexpr == a.Text()
    ensures b == IsEquality(a.v)
  {
    var name := FindKey(aexpr, "name", a);
    if name.None? { return false; }
    ghost var g := GetAt(a, "name").value;
    var sval := FindKeyRecursive(name.value, "sval", g);
    if sval.None? { return false; }
    var op := StringValue(sval.value, FindAt(g, "sval").value);
    return op == Some("=");
  }

  method ReadColumn(fields: string, result: ParseResult, ghost a: At)
    requires a.Ok() && fields == a.Text()
    modifies result`column
    ensures result.column == ColumnOf(a.v, old(result.column))
  {
    var node := FindKeyRecursive(fields, "String", a);
    if node.Some? {
      ghost var g := FindAt(a, "String").value;
      var sval := FindKey(node.value, "sval", g);
      if sval.Some? {
        result.column := StringValue(sval.value, GetAt(g, "sval").value);
      }
    }
  }

  method RightConstant(aexpr: string, ghost a: At) returns (k: Option<Key>)
    requires a.Ok() && aexpr == a.Text()
    ensures k == ConstOf(a.v)
  {
    var p, g := FindIn(Some(aexpr), "rexpr", Some(a));
    p, g := FindIn(p, "A_Const", g);
    if p.None? { return None; }
    k := ReadConstant(p.value, g.value);
  }

  method FindFields(aexpr: string, ghost a: At) returns (p: Option<string>, ghost g: Option<At>)
    requires a.Ok() && aexpr == a.Text()
    ensures p == Texts(g) && (g.Some? ==> g.value.Ok())
    ensures FieldsOf(a.v) == if g.Some? then Some(g.value.v) else None
  {
    p, g := FindIn(Some(aexpr), "lexpr", Some(a));
    p, g := FindIn(p, "ColumnRef", g);
    p, g := FindIn(p, "fields", g);
  }

  method ExtractFromComparison(aexpr: string, result: ParseResult, ghost a: At)
    requires a.Ok() && aexpr == a.Text()
    modifies result
    ensures result.View() == ComparisonKey(a.v, old(result.View()))
  {
    var eq := OperatorIsEquals(aexpr, a);
    if !eq { return; }
    var p, g := FindFields(aexpr, a);
    if p.None? { return; }
    ReadColumn(p.value, result, g.value);
    if result.column.None? { return; }
    var k := RightConstant(aexpr, a);
    if k.Some? {
      SetKey(result, k.value);
    }
  }

  /** The text after the bracket of BoolExpr.args; None when there is no such array. */
  method FindArgs(where: string, ghost a: At) returns (p: Option<string>, ghost args: Items, ghost k: string)
    requires a.Ok() && where == a.Text()
    ensures var b := Get(a.v, "BoolExpr");
            var found := if b.Some? then Get(b.value, "args") else None;
            if p.Some? then found == Some(Arr(args)) else found.None? || !found.value.Arr?
    ensures p.Some? ==> WFItems(args) && Closed(k) && k != "" && k[0] == ']' && p.value == EmitItems(args, k)
    ensures p.Some? ==> SizeItems(args) < Size(a.v)
  {
    ghost var g;
    args, k := NoItems, "";
    p, g := FindIn(Some(where), "BoolExpr", Some(a));
    p, g := FindIn(p, "args", g);
    if p.None? { return; }
    FirstChar(g.value.v, g.value.after);
    if p.value[0] != '[' { return None, args, k; }
    p, args, k := Some(p.value[1..]), g.value.v.items, Cons(']', g.value.after);
  }

  method ExtractFromWhere(where: string, result: ParseResult, ghost a: At)
    requires a.Ok() && where == a.Text()
    modifies result
    ensures result.View() == WhereKey(a.v, old(result.View()))
    decreases Size(a.v), 1
  {
    var p, g := FindIn(Some(where), "A_Expr", Some(a));
    if p.Some? {
      ExtractFromComparison(p.value, result, g.value);
      return;
    }
    var q, args, k := FindArgs(where, a);
    if q.Some? {
      ExtractFromArgs(q.value, result, args, k);
    }
  }

  /** The loop over the arguments of an AND, an OR or a NOT: the operator is not looked at. */
  method ExtractFromArgs(p: string, result: ParseResult, ghost items: Items, ghost k: string)
    requires WFItems(items) && Closed(k) && k != "" && k[0] == ']' && p == EmitItems(items, k)
    modifies result
    ensures result.View() == ArgsKey(items, old(result.View()))
    decreases SizeItems(items), 0
  {
    var q := p;
    ghost var args := items;
    while q != "" && q[0] != ']'
      invariant WFItems(args) && q == EmitItems(args, k) && SizeItems(args) <= SizeItems(items)
      invariant ArgsKey(args, result.View()) == ArgsKey(items, old(result.View()))
      decreases |q|
    {
      q := SkipWhitespace(q);
      if q != "" && q[0] == ']' { break; }
      ghost var next := EmitMoreItems(args.more, k);
      ExtractFromWhere(q, result, At(args.value, next));
      if result.found { return; }
      q := SkipElement(q, args.value, next);
      args := args.more;
    }
  }

  method ExtractTable(rv: string, result: ParseResult, ghost a: At)
    requires a.Ok() && rv == a.Text()
    modifies result
    ensures result.View() == RangeVarTable(a.v, old(result.View()))
  {
    var relname := FindKey(rv, "relname", a);
    if relname.Some? {
      result.table := StringValue(relname.value, GetAt(a, "relname").value);
    }
    var schemaname := FindKey(rv, "schemaname", a);
    if schemaname.Some? {
      result.schema := StringValue(schemaname.value, GetAt(a, "schemaname").value);
    }
  }

  method ExtractRelation(s: string, result: ParseResult, ghost a: At)
    requires a.Ok() && s == a.Text()
    modifies result
    ensures result.View() == RelationTable(a.v, old(result.View()))
  {
    var rel := FindKey(s, "relation", a);
    if rel.Some? {
      ExtractTable(rel.value, result, GetAt(a, "relation").value);
    }
  }

  method ExtractWhereClause(s: string, result: ParseResult, ghost a: At)
    requires a.Ok() && s == a.Text()
    modifies result
    ensures result.View() == WhereOf(a.v, old(result.View()))
  {
    var where := FindKey(s, "whereClause", a);
    if where.Some? {
      ExtractFromWhere(where.value, result, GetAt(a, "whereClause").value);
    }
  }

  method ExtractFrom(s: string, result: ParseResult, ghost a: At)
    requires a.Ok() && s == a.Text()
    modifies result
    ensures result.View() == FromTable(a.v, old(result.View()))
  {
    var from := FindKey(s, "fromClause", a);
    if from.None? { return; }
    ghost var g := GetAt(a, "fromClause").value;
    var rv := FindKeyRecursive(from.value, "RangeVar", g);
    if rv.None? {
      rv := FindKeyRecursive(from.value, "relname", g);
      if rv.Some? {
        result.table := StringValue(rv.value, FindAt(g, "relname").value);
      }
    } else {
      ExtractTable(rv.value, result, FindAt(g, "RangeVar").value);
    }
  }

  method ParseSelect(stmt: string, result: ParseResult, ghost a: At)
    requires a.Ok() && stmt == a.Text()
    modifies result
    ensures var s := Get(a.v, "SelectStmt");
            result.View() == if s.None? then old(result.View()) else WhereOf(s.value, FromTable(s.value, old(result.View())))
  {
    var s := FindKey(stmt, "SelectStmt", a);
    if s.Some? {
      ExtractFrom(s.value, result, GetAt(a, "SelectStmt").value);
      ExtractWhereClause(s.value, result, GetAt(a, "SelectStmt").value);
    }
  }

  /** UPDATE and DELETE name their table and their condition alike. */
  method ParseChange(stmt: string, key: string, result: ParseResult, ghost a: At)
    requires a.Ok() && stmt == a.Text() && CleanKey(key)
    modifies result
    ensures var s := Get(a.v, key);
            result.View()
            == if s.None? then old(result.View()) else WhereOf(s.value, RelationTable(s.value, old(result.View())))
  {
    var s := FindKey(stmt, key, a);
    if s.Some? {
      ExtractRelation(s.value, result, GetAt(a, key).value);
      ExtractWhereClause(s.value, result, GetAt(a, key).value);
    }
  }

  method ParseInsert(stmt: string, result: ParseResult, ghost a: At)
    requires a.Ok() && stmt == a.Text()
    modifies result
    ensures var s := Get(a.v, "InsertStmt");
            result.View() == if s.None? then old(result.View()) else RelationTable(s.value, old(result.View()))
  {
    var s := FindKey(stmt, "InsertStmt", a);
    if s.Some? {
      ExtractRelation(s.value, result, GetAt(a, "InsertStmt").value);
    }
  }

  method ParseDdl(stmt: string, result: ParseResult, ghost a: At)
    requires a.Ok() && stmt == a.Text()
    modifies result
    ensures var rel := Find(a.v, "relname");
            result.View() == if rel.None? then old(result.View()) else old(result.View()).(table := StringOf(rel.value))
  {
    var rel := FindKeyRecursive(stmt, "relname", a);
    if rel.Some? {
      result.table := StringValue(rel.value, FindAt(a, "relname").value);
    }
  }

  method ParseStatement(stmt: string, result: ParseResult, ghost a: At)
    requires a.Ok() && stmt == a.Text()
    modifies result
    ensures result.View() == ParseStmt(a.v, old(result.View()))
  {
    DmlKeysClean();
    result.stmt := DetectStmtType(stmt, a);
    match result.stmt
    case SELECT => ParseSelect(stmt, result, a);
    case INSERT => ParseInsert(stmt, result, a);
    case UPDATE => ParseChange(stmt, "UpdateStmt", result, a);
    case DELETE => ParseChange(stmt, "DeleteStmt", result, a);
    case DDL => ParseDdl(stmt, result, a);
    case _ =>
  }

  /** The first element of the statement list; None when the list is empty. */
  method FirstStatement(stmts: string, ghost a: At) returns (first: Option<string>)
    requires a.Ok() && stmts == a.Text() && a.v.Arr?
    ensures first == Texts(FirstItem(a))
  {
    var p := SkipWhitespace(stmts[1..]);
    assert WFItems(a.v.items) && stmts[1..] == EmitItems(a.v.items, Cons(']', a.after));
    if a.v.items.Item? {
      FirstChar(a.v.items.value, EmitMoreItems(a.v.items.more, Cons(']', a.after)));
    }
    return if p != "" && p[0] == ']' then None else Some(p);
  }

  /** parse_query, given the text libpg_query returned. */
  method ParseQuery(text: string, ghost doc: Json) returns (ok: bool, result: ParseResult)
    requires WF(doc) && text == Render(doc)
    ensures fresh(result)
    ensures (ok, result.View()) == ParseDoc(doc)
  {
    result := new ParseResult();
    result.tree := Some(text);
    ghost var a := At(doc, "");
    var stmts := FindKey(text, "stmts", a);
    if stmts.None? { return false, result; }
    ghost var g := GetAt(a, "stmts").value;
    FirstChar(g.v, g.after);
    if stmts.value[0] != '[' { return false, result; }
    var first := FirstStatement(stmts.value, g);
    if first.None? { return true, result; }
    ghost var w := FirstItem(g).value;
    var stmt := FindKey(first.value, "stmt", w);
    if stmt.None? { return false, result; }
    ParseStatement(stmt.value, result, GetAt(w, "stmt").value);
    ok := true;
  }

  // ---------- The second pass for INSERT ----------

  method FindName(names: seq<string>, column: string) returns (pos: Option<nat>)
    ensures pos == IndexOfName(names, column)
  {
    pos := None;
    for i := 0 to |names|
      invariant forall j :: 0 <= j < i ==> StringAt(names[j]) != Some(column)
    {
      var name := GetString(names[i]);
      if name == Some(column) {
        return Some(i);
      }
    }
  }

  /** Steps over n elements of the array whose text after the bracket is p. */
  method SkipElements(p: string, n: nat, ghost items: Items, ghost k: string) returns (q: string, ghost left: Items)
    requires WFItems(items) && Closed(k) && k != "" && k[0] == ']'
    requires p == EmitItems(items, k)
    ensures WFItems(left) && q == EmitItems(left, k)
    ensures Nth(items, n) == Nth(left, 0)
  {
    q, left := p, items;
    var i := 0;
    while i < n && q != "" && q[0] != ']'
      invariant i <= n
      invariant WFItems(left) && q == EmitItems(left, k)
      invariant Nth(items, n) == Nth(left, n - i)
    {
      FirstChar(left.value, EmitMoreItems(left.more, k));
      q := SkipWhitespace(q);
      q := SkipElement(q, left.value, EmitMoreItems(left.more, k));
      left := left.more;
      i := i + 1;
    }
    if left.Item? {
      FirstChar(left.value, EmitMoreItems(left.more, k));
    }
  }

  method ColumnPosition(ins: string, column: string, ghost a: At) returns (pos: Option<nat>)
    requires a.Ok() && ins == a.Text()
    ensures pos == NamePosition(a, column)
  {
    var cols := FindKey(ins, "cols", a);
    if cols.None? { return None; }
    FirstChar(GetAt(a, "cols").value.v, GetAt(a, "cols").value.after);
    if cols.value[0] != '[' { return None; }
    var names := FindAllValues(cols.value, "name");
    pos := FindName(names, column);
  }

  method FirstValuesList(ins: string, ghost a: At) returns (p: Option<string>, ghost k: string)
    requires a.Ok() && ins == a.Text()
    ensures p.Some? <==> FirstValues(a.v).Some?
    ensures p.Some? ==> WFItems(FirstValues(a.v).value) && p.value == EmitItems(FirstValues(a.v).value, Cons(']', k))
  {
    ValuesKeysClean();
    ghost var g;
    k := "";
    p, g := FindIn(Some(ins), "selectStmt", Some(a));
    p, g := FindIn(p, "SelectStmt", g);
    p, g := FindIn(p, "valuesLists", g);
    if p.None? { return; }
    p := FindKeyRecursive(p.value, "items", g.value);
    if p.None? { return; }
    g := FindAt(g.value, "items");
    FirstChar(g.value.v, g.value.after);
    if p.value[0] != '[' { return None, k; }
    p, k := Some(p.value[1..]), g.value.after;
  }

  method ValueAt(p: string, n: nat, ghost items: Items, ghost k: string) returns (key: Option<Key>)
    requires WFItems(items) && p == EmitItems(items, Cons(']', k))
    ensures key == ValueKey(items, n)
  {
    var q, left := SkipElements(p, n, items, Cons(']', k));
    if left.Item? {
      FirstChar(left.value, EmitMoreItems(left.more, Cons(']', k)));
    }
    q := SkipWhitespace(q);
    if q != "" && q[0] == ']' { return None; }
    ghost var item := At(left.value, EmitMoreItems(left.more, Cons(']', k)));
    var aconst := FindKeyRecursive(q, "A_Const", item);
    if aconst.None? { return None; }
    key := ReadConstant(aconst.value, FindAt(item, "A_Const").value);
  }

  method ExtractFromInsert(ins: string, result: ParseResult, column: string, ghost a: At)
    requires a.Ok() && ins == a.Text()
    modifies result
    ensures result.View() == InsertKey(a, column, old(result.View()))
  {
    var pos := ColumnPosition(ins, column, a);
    if pos.None? { return; }
    var p, k := FirstValuesList(ins, a);
    if p.None? { return; }
    var key := ValueAt(p.value, pos.value, FirstValues(a.v).value, k);
    if key.Some? {
      SetKey(result, key.value);
      result.column := Some(column);
    }
  }

  method FindInsert(tree: string, ghost doc: Json) returns (ins: Option<string>)
    requires WF(doc) && tree == Render(doc) && StatementOf(doc).Some?
    ensures ins == Texts(InsertAt(doc))
  {
    DmlKeysClean();
    PathKeysClean();
    var stmts, g := FindIn(Some(tree), "stmts", Some(At(doc, "")));
    if stmts.None? { return None; }
    var first := FirstStatement(stmts.value, g.value);
    var stmt, w := FindIn(first, "stmt", FirstItem(g.value));
    ins, w := FindIn(stmt, "InsertStmt", w);
  }

  method ParseExtractInsertShardKey(result: ParseResult, column: Option<string>, ghost doc: Json)
    requires WF(doc)
    requires result.tree.Some? ==> result.tree.value == Render(doc)
    requires result.stmt == INSERT ==> StatementOf(doc).Some?
    modifies result
    ensures result.View() == InsertParsed(doc, column, old(result.View()))
  {
    if result.stmt != INSERT || result.tree.None? || column.None? { return; }
    var ins := FindInsert(result.tree.value, doc);
    if ins.None? { return; }
    ExtractFromInsert(ins.value, result, column.value, InsertAt(doc).value);
  }
}
