/**
 Parse trees of small statements, member by member as libpg_query prints them
 (third_party/libpg_query/src/include/pg_query_outfuncs_defs.c and src/pg_query_outfuncs_json.c),
 for the examples of what goes wrong. A `location` is the offset in the query text.
 */
module Trees {
  import opened Wrappers
  import opened JsonText

  // ---------- Objects and lists ----------

  function Fields(ps: seq<(string, Json)>): Members {
    if ps == [] then NoMembers else Member(ps[0].0, ps[0].1, Fields(ps[1..]))
  }

  function Record(ps: seq<(string, Json)>): Json {
    Obj(Fields(ps))
  }

  function Node(key: string, v: Json): Json {
    Obj(Member(key, v, NoMembers))
  }

  function Pair(k1: string, v1: Json, k2: string, v2: Json): Json {
    Obj(Member(k1, v1, Member(k2, v2, NoMembers)))
  }

  function One(v: Json): Json {
    Arr(Item(v, NoItems))
  }

  lemma {:induction false} PlainText(s: string)
    requires CleanKey(s)
    ensures Body(s)
  {
    if s != "" {
      PlainText(s[1..]);
    }
  }

  lemma {:induction false} RecordWF(ps: seq<(string, Json)>)
    requires forall i :: 0 <= i < |ps| ==> CleanKey(ps[i].0) && WF(ps[i].1)
    ensures WFMembers(Fields(ps)) && WF(Record(ps))
  {
    if ps != [] {
      PlainText(ps[0].0);
      RecordWF(ps[1..]);
    }
  }

  lemma TextWF(s: string)
    requires CleanKey(s)
    ensures WF(Str(s))
  {
    PlainText(s);
  }

  lemma ThreeWF(k: seq<string>, a: Json, b: Json, c: Json)
    requires |k| == 3 && CleanKey(k[0]) && CleanKey(k[1]) && CleanKey(k[2]) && WF(a) && WF(b) && WF(c)
    ensures WF(Record([(k[0], a), (k[1], b), (k[2], c)]))
  {
    RecordWF([(k[0], a), (k[1], b), (k[2], c)]);
  }

  lemma FourWF(k: seq<string>, a: Json, b: Json, c: Json, d: Json)
    requires |k| == 4 && CleanKey(k[0]) && CleanKey(k[1]) && CleanKey(k[2]) && CleanKey(k[3])
    requires WF(a) && WF(b) && WF(c) && WF(d)
    ensures WF(Record([(k[0], a), (k[1], b), (k[2], c), (k[3], d)]))
  {
    RecordWF([(k[0], a), (k[1], b), (k[2], c), (k[3], d)]);
  }

  lemma FiveWF(k: seq<string>, a: Json, b: Json, c: Json, d: Json, e: Json)
    requires |k| == 5 && CleanKey(k[0]) && CleanKey(k[1]) && CleanKey(k[2]) && CleanKey(k[3]) && CleanKey(k[4])
    requires WF(a) && WF(b) && WF(c) && WF(d) && WF(e)
    ensures WF(Record([(k[0], a), (k[1], b), (k[2], c), (k[3], d), (k[4], e)]))
  {
    RecordWF([(k[0], a), (k[1], b), (k[2], c), (k[3], d), (k[4], e)]);
  }

  /** The first member with a key. */
  lemma {:induction false} FieldAt(ps: seq<(string, Json)>, i: nat)
    requires i < |ps| && forall j :: 0 <= j < i ==> ps[j].0 != ps[i].0
    ensures GetMember(Fields(ps), ps[i].0) == Some(ps[i].1) && Get(Record(ps), ps[i].0) == Some(ps[i].1)
  {
    if i > 0 {
      assert ps[1..][i - 1] == ps[i];
      FieldAt(ps[1..], i - 1);
    }
  }

  lemma {:induction false} NoField(ps: seq<(string, Json)>, key: string)
    requires forall j :: 0 <= j < |ps| ==> ps[j].0 != key
    ensures GetMember(Fields(ps), key).None? && Get(Record(ps), key).None?
  {
    if ps != [] {
      NoField(ps[1..], key);
    }
  }

  lemma {:induction false} FoundIn(ps: seq<(string, Json)>, i: nat, key: string)
    requires i < |ps| && Find(ps[i].1, key).Some? && forall j :: 0 <= j < i ==> Find(ps[j].1, key).None?
    ensures FindInMembers(Fields(ps), key) == Find(ps[i].1, key)
  {
    if i > 0 {
      assert ps[1..][i - 1] == ps[i];
      FoundIn(ps[1..], i - 1, key);
    }
  }

  lemma {:induction false} NotFoundIn(ps: seq<(string, Json)>, key: string)
    requires forall j :: 0 <= j < |ps| ==> ps[j].0 != key && Find(ps[j].1, key).None?
    ensures FindInMembers(Fields(ps), key).None? && Find(Record(ps), key).None?
  {
    NoField(ps, key);
    if ps != [] {
      NotFoundIn(ps[1..], key);
    }
  }

  lemma NotFoundInNode(k: string, v: Json, key: string)
    requires k != key && Find(v, key).None?
    ensures Find(Node(k, v), key).None? && Find(One(Node(k, v)), key).None?
  {
    var node := Node(k, v);
    assert Get(node, key) == GetMember(NoMembers, key) == None;
    assert FindInMembers(node.members, key) == FindInMembers(NoMembers, key) == None;
    assert FindInItems(Item(node, NoItems), key) == FindInItems(NoItems, key) == None;
  }

  lemma NodeSays(key: string, v: Json)
    requires CleanKey(key) && WF(v)
    ensures WF(Node(key, v)) && WF(One(v)) && Get(Node(key, v), key) == Some(v)
  {
    PlainText(key);
  }

  lemma PairSays(k1: string, v1: Json, k2: string, v2: Json)
    requires CleanKey(k1) && CleanKey(k2) && k1 != k2 && WF(v1) && WF(v2)
    ensures WF(Pair(k1, v1, k2, v2))
    ensures Get(Pair(k1, v1, k2, v2), k1) == Some(v1) && Get(Pair(k1, v1, k2, v2), k2) == Some(v2)
  {
    PlainText(k1);
    PlainText(k2);
    var rest := Member(k2, v2, NoMembers);
    assert GetMember(rest, k2) == Some(v2) && WFMembers(rest);
  }

  // ---------- Keys without quotes or backslashes ----------

  lemma CleanColumnKeys()
    ensures CleanKey("String") && CleanKey("sval") && CleanKey("ColumnRef") && CleanKey("fields") && CleanKey("location")
  {
  }

  lemma CleanConstKeys()
    ensures CleanKey("ival") && CleanKey("fval") && CleanKey("A_Const") && CleanKey("A_Expr") && CleanKey("location")
  {
  }

  lemma CleanBoolKeys()
    ensures CleanKey("BoolExpr") && CleanKey("boolop") && CleanKey("args") && CleanKey("OR_EXPR") && CleanKey("location")
  {
  }

  lemma CleanOperatorKeys()
    ensures CleanKey("kind") && CleanKey("AEXPR_OP") && CleanKey("name") && CleanKey("lexpr") && CleanKey("rexpr")
  {
  }

  lemma CleanSigns()
    ensures CleanKey("=") && CleanKey("+") && CleanKey("p")
  {
  }

  lemma CleanDocumentKeys()
    ensures CleanKey("version") && CleanKey("stmts") && CleanKey("stmt")
  {
  }

  lemma CleanTableKeys()
    ensures CleanKey("RangeVar") && CleanKey("relname") && CleanKey("inh") && CleanKey("relpersistence")
  {
  }

  lemma CleanSelectKeys()
    ensures CleanKey("SelectStmt") && CleanKey("targetList") && CleanKey("fromClause") && CleanKey("whereClause")
  {
  }

  lemma CleanOptionKeys()
    ensures CleanKey("limitOption") && CleanKey("LIMIT_OPTION_DEFAULT") && CleanKey("op") && CleanKey("SETOP_NONE")
  {
  }

  lemma CleanTargetKeys()
    ensures CleanKey("ResTarget") && CleanKey("name") && CleanKey("val") && CleanKey("A_Star") && CleanKey("UpdateStmt")
  {
  }

  lemma CleanInsertKeys()
    ensures CleanKey("InsertStmt") && CleanKey("relation") && CleanKey("cols") && CleanKey("override")
    ensures CleanKey("OVERRIDING_NOT_SET")
  {
  }

  lemma CleanValuesKeys()
    ensures CleanKey("selectStmt") && CleanKey("valuesLists") && CleanKey("List") && CleanKey("items")
  {
  }

  // ---------- Conditions ----------

  function StringTree(s: string): Json {
    One(Node("String", Node("sval", Str(s))))
  }

  function ColumnTree(column: string, at: string): Json {
    Node("ColumnRef", Pair("fields", StringTree(column), "location", Atom(at)))
  }

  function IntTree(digits: string, at: string): Json {
    Pair("ival", Node("ival", Atom(digits)), "location", Atom(at))
  }

  function ConstTree(digits: string, at: string): Json {
    Node("A_Const", IntTree(digits, at))
  }

  /** The value of an integer 0 is not printed. */
  function ZeroTree(at: string): Json {
    Node("A_Const", Pair("ival", Obj(NoMembers), "location", Atom(at)))
  }

  /** An integer that does not fit into 32 bits is printed as a float. */
  function BigTree(digits: string, at: string): Json {
    Node("A_Const", Pair("fval", Node("fval", Str(digits)), "location", Atom(at)))
  }

  /** Two operands and a plain operator between them. */
  function OperatorTree(op: string, left: Json, right: Json, at: string): Json {
    Record(OperatorFields(op, left, right, at))
  }

  function OperatorFields(op: string, left: Json, right: Json, at: string): seq<(string, Json)> {
    [("kind", Str("AEXPR_OP")), ("name", StringTree(op)), ("lexpr", left), ("rexpr", right), ("location", Atom(at))]
  }

  /** column = n, with the locations of its three parts. */
  function EqualityTree(column: string, p: string, q: string, digits: string, r: string): Json {
    OperatorTree("=", ColumnTree(column, p), ConstTree(digits, r), q)
  }

  function ComparisonTree(column: string, p: string, q: string, digits: string, r: string): Json {
    Node("A_Expr", EqualityTree(column, p, q, digits, r))
  }

  function OrFields(a: Json, b: Json, at: string): seq<(string, Json)> {
    [("boolop", Str("OR_EXPR")), ("args", Arr(Item(a, Item(b, NoItems)))), ("location", Atom(at))]
  }

  function OrTree(a: Json, b: Json, at: string): Json {
    Node("BoolExpr", Record(OrFields(a, b, at)))
  }

  /** a + b, with the locations of its three parts. */
  function SumTree(a: string, p: string, q: string, b: string, r: string): Json {
    Node("A_Expr", OperatorTree("+", ConstTree(a, p), ConstTree(b, r), q))
  }

  lemma OperatorTreeGets(op: string, left: Json, right: Json, at: string)
    ensures var e := OperatorTree(op, left, right, at);
            && Get(e, "kind") == Some(Str("AEXPR_OP")) && Get(e, "name") == Some(StringTree(op))
            && Get(e, "lexpr") == Some(left) && Get(e, "rexpr") == Some(right)
  {
    var ps := OperatorFields(op, left, right, at);
    assert "rexpr"[0] != "lexpr"[0] && "lexpr"[0] != "name"[0] && "rexpr"[0] != "name"[0];
    assert "lexpr"[0] != "kind"[0] && "rexpr"[0] != "kind"[0] && "name"[0] != "kind"[0];
    FieldAt(ps, 0);
    FieldAt(ps, 1);
    FieldAt(ps, 2);
    FieldAt(ps, 3);
  }

  lemma StringTreeWF(s: string)
    requires Body(s)
    ensures WF(StringTree(s))
  {
    CleanColumnKeys();
    NodeSays("sval", Str(s));
    NodeSays("String", Node("sval", Str(s)));
  }

  lemma OperatorTreeWF(op: string, left: Json, right: Json, at: string)
    requires Body(op) && WF(left) && WF(right) && AtomText(at)
    ensures WF(OperatorTree(op, left, right, at))
  {
    CleanOperatorKeys();
    CleanColumnKeys();
    StringTreeWF(op);
    TextWF("AEXPR_OP");
    FiveWF(["kind", "name", "lexpr", "rexpr", "location"], Str("AEXPR_OP"), StringTree(op), left, right, Atom(at));
  }

  lemma ConstTreeWF(digits: string, at: string)
    requires AtomText(digits) && AtomText(at)
    ensures WF(ConstTree(digits, at))
  {
    CleanConstKeys();
    NodeSays("ival", Atom(digits));
    assert "ival"[0] != "location"[0];
    PairSays("ival", Node("ival", Atom(digits)), "location", Atom(at));
    NodeSays("A_Const", IntTree(digits, at));
  }

  lemma ZeroTreeWF(at: string)
    requires AtomText(at)
    ensures WF(ZeroTree(at))
  {
    CleanConstKeys();
    assert "ival"[0] != "location"[0];
    PairSays("ival", Obj(NoMembers), "location", Atom(at));
    NodeSays("A_Const", ZeroTree(at).members.value);
  }

  lemma BigTreeWF(digits: string, at: string)
    requires CleanKey(digits) && AtomText(at)
    ensures WF(BigTree(digits, at))
  {
    CleanConstKeys();
    PlainText(digits);
    NodeSays("fval", Str(digits));
    assert "fval"[0] != "location"[0];
    PairSays("fval", Node("fval", Str(digits)), "location", Atom(at));
    NodeSays("A_Const", BigTree(digits, at).members.value);
  }

  lemma ColumnTreeWF(column: string, at: string)
    requires CleanKey(column) && AtomText(at)
    ensures WF(ColumnTree(column, at))
  {
    CleanColumnKeys();
    PlainText(column);
    StringTreeWF(column);
    assert "fields"[0] != "location"[0];
    PairSays("fields", StringTree(column), "location", Atom(at));
    NodeSays("ColumnRef", ColumnTree(column, at).members.value);
  }

  lemma ComparisonTreeWF(column: string, p: string, q: string, digits: string, r: string)
    requires CleanKey(column) && AtomText(digits) && AtomText(p) && AtomText(q) && AtomText(r)
    ensures WF(ComparisonTree(column, p, q, digits, r))
  {
    CleanConstKeys();
    CleanSigns();
    ColumnTreeWF(column, p);
    ConstTreeWF(digits, r);
    PlainText("=");
    OperatorTreeWF("=", ColumnTree(column, p), ConstTree(digits, r), q);
    NodeSays("A_Expr", EqualityTree(column, p, q, digits, r));
  }

  lemma OrTreeSays(a: Json, b: Json, at: string)
    ensures var w, args := OrTree(a, b, at), Arr(Item(a, Item(b, NoItems)));
            && Get(w, "A_Expr").None? && Get(w, "BoolExpr") == Some(Record(OrFields(a, b, at)))
            && Get(Get(w, "BoolExpr").value, "args") == Some(args)
            && Get(Get(w, "BoolExpr").value, "boolop") == Some(Str("OR_EXPR"))
  {
    var w := OrTree(a, b, at);
    assert "A_Expr"[0] != "BoolExpr"[0] && "args"[0] != "boolop"[0];
    assert Get(w, "A_Expr") == GetMember(NoMembers, "A_Expr") == None;
    FieldAt(OrFields(a, b, at), 0);
    FieldAt(OrFields(a, b, at), 1);
  }

  lemma OrTreeWF(a: Json, b: Json, at: string)
    requires WF(a) && WF(b) && AtomText(at)
    ensures WF(OrTree(a, b, at))
  {
    CleanBoolKeys();
    TextWF("OR_EXPR");
    assert WFItems(Item(a, Item(b, NoItems)));
    ThreeWF(["boolop", "args", "location"], Str("OR_EXPR"), Arr(Item(a, Item(b, NoItems))), Atom(at));
    NodeSays("BoolExpr", Record(OrFields(a, b, at)));
  }

  lemma SumTreeWF(a: string, p: string, q: string, b: string, r: string)
    requires AtomText(a) && AtomText(b) && AtomText(p) && AtomText(q) && AtomText(r)
    ensures WF(SumTree(a, p, q, b, r))
  {
    CleanConstKeys();
    CleanSigns();
    ConstTreeWF(a, p);
    ConstTreeWF(b, r);
    PlainText("+");
    OperatorTreeWF("+", ConstTree(a, p), ConstTree(b, r), q);
    NodeSays("A_Expr", OperatorTree("+", ConstTree(a, p), ConstTree(b, r), q));
  }

  lemma NoConstInString(s: string)
    ensures Find(StringTree(s), "A_Const").None?
  {
    assert "sval"[0] != "A_Const"[0] && "String"[0] != "A_Const"[0];
    assert Find(Str(s), "A_Const") == None;
    NotFoundInNode("sval", Str(s), "A_Const");
    NotFoundInNode("String", Node("sval", Str(s)), "A_Const");
  }

  /** The first constant inside a sum is its left operand. */
  lemma FirstConst(a: string, p: string, q: string, b: string, r: string)
    ensures Find(SumTree(a, p, q, b, r), "A_Const") == Some(IntTree(a, p))
  {
    var ps := OperatorFields("+", ConstTree(a, p), ConstTree(b, r), q);
    assert Find(ConstTree(a, p), "A_Const") == Some(IntTree(a, p));
    assert "A_Const"[0] != "kind"[0] && "A_Const"[0] != "name"[0] && "A_Const"[0] != "lexpr"[0];
    assert "A_Const"[0] != "rexpr"[0] && "A_Const"[0] != "location"[0];
    NoConstInString("+");
    assert Find(Str("AEXPR_OP"), "A_Const") == None;
    NoField(ps, "A_Const");
    FoundIn(ps, 2, "A_Const");
    assert Find(Record(ps), "A_Const") == Some(IntTree(a, p));
    assert "A_Expr"[2] != "A_Const"[2];
    assert Get(SumTree(a, p, q, b, r), "A_Const") == GetMember(NoMembers, "A_Const") == None;
  }

  // ---------- Statements ----------

  function TableFields(table: string, at: string): seq<(string, Json)> {
    [("relname", Str(table)), ("inh", Atom("true")), ("relpersistence", Str("p")), ("location", Atom(at))]
  }

  function TableTree(table: string, at: string): Json {
    Record(TableFields(table, at))
  }

  /** SELECT * */
  function StarTree(at: string): Json {
    Node("ResTarget", Pair("val", Node("ColumnRef", Pair("fields", One(Node("A_Star", Obj(NoMembers))), "location", Atom(at))),
                           "location", Atom(at)))
  }

  function SelectFields(star: Json, rv: Json, w: Json): seq<(string, Json)> {
    [("targetList", One(star)), ("fromClause", One(Node("RangeVar", rv))), ("whereClause", w),
     ("limitOption", Str("LIMIT_OPTION_DEFAULT")), ("op", Str("SETOP_NONE"))]
  }

  function ColsTree(column: string, at: string): Json {
    One(Node("ResTarget", Pair("name", Str(column), "location", Atom(at))))
  }

  /** A row of VALUES with one expression. */
  function RowTree(item: Json): Json {
    Node("List", Node("items", One(item)))
  }

  function RowTrees(items: seq<Json>): Items {
    if items == [] then NoItems else Item(RowTree(items[0]), RowTrees(items[1..]))
  }

  function ValuesFields(items: seq<Json>): seq<(string, Json)> {
    [("valuesLists", Arr(RowTrees(items))), ("limitOption", Str("LIMIT_OPTION_DEFAULT")), ("op", Str("SETOP_NONE"))]
  }

  function InsertFields(rv: Json, cols: Json, items: seq<Json>): seq<(string, Json)> {
    [("relation", rv), ("cols", cols), ("selectStmt", Node("SelectStmt", Record(ValuesFields(items)))),
     ("override", Str("OVERRIDING_NOT_SET"))]
  }

  function SetFields(column: string, item: Json, at: string): seq<(string, Json)> {
    [("name", Str(column)), ("val", item), ("location", Atom(at))]
  }

  function SetTree(column: string, item: Json, at: string): Json {
    Node("ResTarget", Record(SetFields(column, item, at)))
  }

  function UpdateFields(rv: Json, target: Json, w: Json): seq<(string, Json)> {
    [("relation", rv), ("targetList", One(target)), ("whereClause", w)]
  }

  function Document(stmt: Json): Json {
    Pair("version", Atom("160001"), "stmts", One(Node("stmt", stmt)))
  }

  /** SELECT * FROM table WHERE w */
  function SelectDoc(table: string, w: Json): Json {
    Document(Node("SelectStmt", Record(SelectFields(StarTree("7"), TableTree(table, "14"), w))))
  }

  /** INSERT INTO t (column) VALUES (item), ..., for a table with a name of one character. */
  function InsertDoc(table: string, column: string, items: seq<Json>): Json {
    Document(Node("InsertStmt", Record(InsertFields(TableTree(table, "12"), ColsTree(column, "15"), items))))
  }

  /** UPDATE t SET column = item WHERE w, for a table with a name of one character. */
  function UpdateDoc(table: string, column: string, item: Json, w: Json): Json {
    Document(Node("UpdateStmt", Record(UpdateFields(TableTree(table, "7"), SetTree(column, item, "13"), w))))
  }

  lemma DocumentSays(stmt: Json)
    requires WF(stmt)
    ensures WF(Document(stmt)) && Get(Document(stmt), "stmts") == Some(One(Node("stmt", stmt)))
    ensures Get(Node("stmt", stmt), "stmt") == Some(stmt)
  {
    CleanDocumentKeys();
    NodeSays("stmt", stmt);
    NodeSays("stmt", Node("stmt", stmt));
    assert "version"[0] != "stmts"[0];
    PairSays("version", Atom("160001"), "stmts", One(Node("stmt", stmt)));
  }

  lemma TableTreeGets(table: string, at: string)
    ensures Get(TableTree(table, at), "relname") == Some(Str(table))
    ensures Get(TableTree(table, at), "schemaname").None? && Get(TableTree(table, at), "catalogname").None?
  {
    var ps := TableFields(table, at);
    FieldAt(ps, 0);
    assert "schemaname"[0] != "relname"[0] && "schemaname"[0] != "inh"[0];
    assert "schemaname"[0] != "relpersistence"[0] && "schemaname"[0] != "location"[0];
    NoField(ps, "schemaname");
    assert "catalogname"[0] != "relname"[0] && "catalogname"[0] != "inh"[0];
    assert "catalogname"[0] != "relpersistence"[0] && "catalogname"[0] != "location"[0];
    NoField(ps, "catalogname");
  }

  lemma TableTreeWF(table: string, at: string)
    requires CleanKey(table) && AtomText(at)
    ensures WF(TableTree(table, at))
  {
    CleanTableKeys();
    CleanColumnKeys();
    CleanSigns();
    TextWF(table);
    TextWF("p");
    FourWF(["relname", "inh", "relpersistence", "location"], Str(table), Atom("true"), Str("p"), Atom(at));
  }

  lemma StarTreeWF(at: string)
    requires AtomText(at)
    ensures WF(StarTree(at))
  {
    CleanTargetKeys();
    CleanColumnKeys();
    NodeSays("A_Star", Obj(NoMembers));
    var fields := One(Node("A_Star", Obj(NoMembers)));
    NodeSays("A_Star", Node("A_Star", Obj(NoMembers)));
    assert "fields"[0] != "location"[0] && "val"[0] != "location"[0];
    PairSays("fields", fields, "location", Atom(at));
    var ref := Node("ColumnRef", Pair("fields", fields, "location", Atom(at)));
    NodeSays("ColumnRef", Pair("fields", fields, "location", Atom(at)));
    PairSays("val", ref, "location", Atom(at));
    NodeSays("ResTarget", Pair("val", ref, "location", Atom(at)));
  }

  lemma SelectTreeGets(star: Json, rv: Json, w: Json)
    ensures var s := Record(SelectFields(star, rv, w));
            Get(s, "fromClause") == Some(One(Node("RangeVar", rv))) && Get(s, "whereClause") == Some(w)
  {
    assert "fromClause"[0] != "targetList"[0] && "whereClause"[0] != "targetList"[0] && "whereClause"[0] != "fromClause"[0];
    FieldAt(SelectFields(star, rv, w), 1);
    FieldAt(SelectFields(star, rv, w), 2);
  }

  lemma OptionsWF()
    ensures WF(Str("LIMIT_OPTION_DEFAULT")) && WF(Str("SETOP_NONE")) && CleanKey("limitOption") && CleanKey("op")
  {
    CleanOptionKeys();
    TextWF("LIMIT_OPTION_DEFAULT");
    TextWF("SETOP_NONE");
  }

  lemma SelectFieldsWF(a: Json, b: Json, c: Json, d: Json, e: Json)
    requires WF(a) && WF(b) && WF(c) && WF(d) && WF(e)
    ensures WF(Record([("targetList", a), ("fromClause", b), ("whereClause", c), ("limitOption", d), ("op", e)]))
  {
    CleanSelectKeys();
    CleanOptionKeys();
    FiveWF(["targetList", "fromClause", "whereClause", "limitOption", "op"], a, b, c, d, e);
  }

  lemma SelectTreeWF(star: Json, rv: Json, w: Json)
    requires WF(star) && WF(rv) && WF(w)
    ensures WF(Node("SelectStmt", Record(SelectFields(star, rv, w))))
  {
    CleanTableKeys();
    CleanSelectKeys();
    NodeSays("RangeVar", rv);
    NodeSays("RangeVar", Node("RangeVar", rv));
    NodeSays("targetList", star);
    OptionsWF();
    SelectFieldsWF(One(star), One(Node("RangeVar", rv)), w, Str("LIMIT_OPTION_DEFAULT"), Str("SETOP_NONE"));
    NodeSays("SelectStmt", Record(SelectFields(star, rv, w)));
  }

  lemma ColsTreeWF(column: string, at: string)
    requires CleanKey(column) && AtomText(at)
    ensures WF(ColsTree(column, at))
  {
    CleanTargetKeys();
    CleanColumnKeys();
    PlainText(column);
    assert "name"[0] != "location"[0];
    PairSays("name", Str(column), "location", Atom(at));
    NodeSays("ResTarget", Pair("name", Str(column), "location", Atom(at)));
    NodeSays("ResTarget", Node("ResTarget", Pair("name", Str(column), "location", Atom(at))));
  }

  lemma RowTreeWF(item: Json)
    requires WF(item)
    ensures WF(RowTree(item))
  {
    CleanValuesKeys();
    NodeSays("items", item);
    NodeSays("items", One(item));
    NodeSays("List", Node("items", One(item)));
  }

  predicate AllWF(items: seq<Json>) {
    items != [] ==> WF(items[0]) && AllWF(items[1..])
  }

  lemma {:induction false} RowTreesWF(items: seq<Json>)
    requires AllWF(items)
    ensures WF(Arr(RowTrees(items)))
  {
    if items != [] {
      RowTreeWF(items[0]);
      RowTreesWF(items[1..]);
    }
  }

  lemma ValuesTreeWF(items: seq<Json>)
    requires AllWF(items)
    ensures WF(Node("SelectStmt", Record(ValuesFields(items))))
  {
    CleanValuesKeys();
    CleanSelectKeys();
    RowTreesWF(items);
    OptionsWF();
    ThreeWF(["valuesLists", "limitOption", "op"],
            Arr(RowTrees(items)), Str("LIMIT_OPTION_DEFAULT"), Str("SETOP_NONE"));
    NodeSays("SelectStmt", Record(ValuesFields(items)));
  }

  lemma InsertTreeGets(rv: Json, cols: Json, items: seq<Json>)
    ensures var s, sel := Record(InsertFields(rv, cols, items)), Node("SelectStmt", Record(ValuesFields(items)));
            && Get(s, "relation") == Some(rv) && Get(s, "cols") == Some(cols) && Get(s, "selectStmt") == Some(sel)
            && Get(sel, "SelectStmt") == Some(Record(ValuesFields(items)))
            && Get(Record(ValuesFields(items)), "valuesLists") == Some(Arr(RowTrees(items)))
  {
    var ps := InsertFields(rv, cols, items);
    assert "cols"[0] != "relation"[0] && "selectStmt"[0] != "relation"[0] && "selectStmt"[0] != "cols"[0];
    FieldAt(ps, 0);
    FieldAt(ps, 1);
    FieldAt(ps, 2);
    FieldAt(ValuesFields(items), 0);
  }

  lemma OverrideWF()
    ensures WF(Str("OVERRIDING_NOT_SET"))
  {
    CleanInsertKeys();
    TextWF("OVERRIDING_NOT_SET");
  }

  lemma InsertFieldsWF(a: Json, b: Json, c: Json, d: Json)
    requires WF(a) && WF(b) && WF(c) && WF(d)
    ensures WF(Node("InsertStmt", Record([("relation", a), ("cols", b), ("selectStmt", c), ("override", d)])))
  {
    CleanInsertKeys();
    CleanValuesKeys();
    FourWF(["relation", "cols", "selectStmt", "override"], a, b, c, d);
    NodeSays("InsertStmt", Record([("relation", a), ("cols", b), ("selectStmt", c), ("override", d)]));
  }

  lemma InsertTreeWF(rv: Json, cols: Json, items: seq<Json>)
    requires WF(rv) && WF(cols) && AllWF(items)
    ensures WF(Node("InsertStmt", Record(InsertFields(rv, cols, items))))
  {
    ValuesTreeWF(items);
    OverrideWF();
    InsertFieldsWF(rv, cols, Node("SelectStmt", Record(ValuesFields(items))), Str("OVERRIDING_NOT_SET"));
  }

  lemma SetTreeGets(column: string, item: Json, at: string)
    ensures var s := Record(SetFields(column, item, at));
            Get(s, "name") == Some(Str(column)) && Get(s, "val") == Some(item) && Get(s, "indirection").None?
  {
    var ps := SetFields(column, item, at);
    assert "name"[0] != "val"[0] && "name"[0] != "indirection"[0];
    assert "val"[0] != "indirection"[0] && "location"[0] != "indirection"[0];
    FieldAt(ps, 0);
    FieldAt(ps, 1);
    NoField(ps, "indirection");
  }

  lemma SetTreeWF(column: string, item: Json, at: string)
    requires CleanKey(column) && WF(item) && AtomText(at)
    ensures WF(SetTree(column, item, at))
  {
    CleanTargetKeys();
    CleanColumnKeys();
    TextWF(column);
    ThreeWF(["name", "val", "location"], Str(column), item, Atom(at));
    NodeSays("ResTarget", Record(SetFields(column, item, at)));
  }

  lemma UpdateTreeGets(rv: Json, target: Json, w: Json)
    ensures var s := Record(UpdateFields(rv, target, w));
            Get(s, "relation") == Some(rv) && Get(s, "targetList") == Some(One(target)) && Get(s, "whereClause") == Some(w)
  {
    var ps := UpdateFields(rv, target, w);
    assert "targetList"[0] != "relation"[0] && "whereClause"[0] != "relation"[0] && "whereClause"[0] != "targetList"[0];
    FieldAt(ps, 0);
    FieldAt(ps, 1);
    FieldAt(ps, 2);
  }

  lemma UpdateTreeWF(rv: Json, target: Json, w: Json)
    requires WF(rv) && WF(target) && WF(w)
    ensures WF(Node("UpdateStmt", Record(UpdateFields(rv, target, w))))
  {
    CleanTargetKeys();
    CleanInsertKeys();
    CleanSelectKeys();
    NodeSays("targetList", target);
    ThreeWF(["relation", "targetList", "whereClause"], rv, One(target), w);
    NodeSays("UpdateStmt", Record(UpdateFields(rv, target, w)));
  }

  /** The locations used in the documents below. */
  lemma PlacesWF()
    ensures AtomText("7") && AtomText("12") && AtomText("13") && AtomText("14") && AtomText("15")
  {
  }

  lemma SelectStmtWF(table: string, w: Json)
    requires CleanKey(table) && WF(w)
    ensures WF(Node("SelectStmt", Record(SelectFields(StarTree("7"), TableTree(table, "14"), w))))
  {
    PlacesWF();
    StarTreeWF("7");
    TableTreeWF(table, "14");
    SelectTreeWF(StarTree("7"), TableTree(table, "14"), w);
  }

  lemma InsertStmtWF(table: string, column: string, items: seq<Json>)
    requires CleanKey(table) && CleanKey(column) && AllWF(items)
    ensures WF(Node("InsertStmt", Record(InsertFields(TableTree(table, "12"), ColsTree(column, "15"), items))))
  {
    PlacesWF();
    TableTreeWF(table, "12");
    ColsTreeWF(column, "15");
    InsertTreeWF(TableTree(table, "12"), ColsTree(column, "15"), items);
  }

  lemma UpdateStmtWF(table: string, column: string, item: Json, w: Json)
    requires CleanKey(table) && CleanKey(column) && WF(item) && WF(w)
    ensures WF(Node("UpdateStmt", Record(UpdateFields(TableTree(table, "7"), SetTree(column, item, "13"), w))))
  {
    PlacesWF();
    TableTreeWF(table, "7");
    SetTreeWF(column, item, "13");
    UpdateTreeWF(TableTree(table, "7"), SetTree(column, item, "13"), w);
  }

  // ---------- Expressions of the examples, at their places ----------

  /** id = 5 */
  const ID_FIVE: Json := ComparisonTree("id", "22", "25", "5", "27")

  /** zip = 7 */
  const ZIP_SEVEN: Json := ComparisonTree("zip", "32", "36", "7", "38")

  /** id = 5 OR zip = 7 */
  const ID_OR_ZIP: Json := OrTree(ID_FIVE, ZIP_SEVEN, "29")

  /** id = 2 */
  const ID_TWO: Json := ComparisonTree("id", "22", "25", "2", "27")

  /** id = 1, behind SET id = 2 WHERE */
  const ID_ONE: Json := ComparisonTree("id", "26", "29", "1", "31")
  const NEW_TWO: Json := ConstTree("2", "18")

  /** (0), (1), (2) as a second row, (1 + 1) and (3000000000), behind VALUES */
  const ZERO: Json := ZeroTree("27")
  const ONE: Json := ConstTree("1", "27")
  const TWO: Json := ConstTree("2", "32")
  const ONE_PLUS_ONE: Json := SumTree("1", "27", "29", "1", "31")
  const BIG: Json := BigTree("3000000000", "27")

  lemma CleanColumns()
    ensures CleanKey("id") && CleanKey("zip")
  {
  }

  lemma CleanNumber()
    ensures CleanKey("3000000000")
  {
  }

  lemma ConditionPlaces()
    ensures AtomText("22") && AtomText("25") && AtomText("27") && AtomText("5") && AtomText("2")
  {
  }

  lemma MorePlaces()
    ensures AtomText("32") && AtomText("36") && AtomText("38") && AtomText("7") && AtomText("29")
  {
  }

  lemma UpdatePlaces()
    ensures AtomText("18") && AtomText("26") && AtomText("29") && AtomText("31") && AtomText("1")
  {
  }

  lemma IdFiveWF()
    ensures WF(ID_FIVE)
  {
    CleanColumns();
    ConditionPlaces();
    ComparisonTreeWF("id", "22", "25", "5", "27");
  }

  lemma ZipSevenWF()
    ensures WF(ZIP_SEVEN)
  {
    CleanColumns();
    MorePlaces();
    ComparisonTreeWF("zip", "32", "36", "7", "38");
  }

  lemma IdOrZipWF()
    ensures WF(ID_OR_ZIP)
  {
    IdFiveWF();
    ZipSevenWF();
    MorePlaces();
    OrTreeWF(ID_FIVE, ZIP_SEVEN, "29");
  }

  lemma IdTwoWF()
    ensures WF(ID_TWO)
  {
    CleanColumns();
    ConditionPlaces();
    ComparisonTreeWF("id", "22", "25", "2", "27");
  }

  lemma IdOneWF()
    ensures WF(ID_ONE)
  {
    CleanColumns();
    UpdatePlaces();
    ComparisonTreeWF("id", "26", "29", "1", "31");
  }

  lemma NewTwoWF()
    ensures WF(NEW_TWO)
  {
    ConditionPlaces();
    UpdatePlaces();
    ConstTreeWF("2", "18");
  }

  lemma ZeroWF()
    ensures WF(ZERO)
  {
    ConditionPlaces();
    ZeroTreeWF("27");
  }

  lemma OneAndTwoWF()
    ensures WF(ONE) && WF(TWO)
  {
    ConditionPlaces();
    MorePlaces();
    UpdatePlaces();
    ConstTreeWF("1", "27");
    ConstTreeWF("2", "32");
  }

  lemma OnePlusOneWF()
    ensures WF(ONE_PLUS_ONE)
  {
    ConditionPlaces();
    UpdatePlaces();
    SumTreeWF("1", "27", "29", "1", "31");
  }

  lemma BigWF()
    ensures WF(BIG)
  {
    CleanNumber();
    ConditionPlaces();
    BigTreeWF("3000000000", "27");
  }
}
