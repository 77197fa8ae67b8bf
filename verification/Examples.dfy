/**
 Statements for which the promise of transparent routing fails, from the printed document to the rows,
 and one for which it holds.
 */
module Examples {
  import opened Wrappers
  import opened JsonText
  import opened JsonScan
  import opened ParseTree
  import opened Trees
  import opened Conditions
  import opened Inserts
  import opened Updates
  import opened ShardMap
  import opened Router
  import opened Config
  import opened Cluster
  import opened Transparency
  import opened Limits

  // ---------- Conditions ----------

  lemma IntTreeSays(digits: string, at: string)
    ensures LiteralIn(IntTree(digits, at)) == Some(IntV(IntOf(Atom(digits))))
    ensures Printed(IntTree(digits, at)) == (IntOf(Atom(digits)) != 0)
  {
    var ival := IntTree(digits, at);
    var inner := ival.members.value;
    assert Get(ival, "ival") == Some(inner) && Get(inner, "ival") == Some(Atom(digits));
    assert "ival"[0] != "sval"[0] && "location"[0] != "sval"[0];
    assert Get(ival, "sval") == GetMember(ival.members.rest, "sval") == GetMember(NoMembers, "sval") == None;
  }

  lemma FieldsFound(column: string, at: string, e: Json)
    requires Get(e, "lexpr") == Some(ColumnTree(column, at))
    ensures FieldsOf(e) == Some(StringTree(column))
  {
    var ref := ColumnTree(column, at).members.value;
    assert Get(ColumnTree(column, at), "ColumnRef") == Some(ref);
    assert Get(ref, "fields") == Some(StringTree(column));
  }

  lemma EqualityTreeSays(column: string, p: string, q: string, digits: string, r: string)
    requires IntOf(Atom(digits)) != 0
    ensures var e := EqualityTree(column, p, q, digits, r);
            Equality(e) == Some((column, IntV(IntOf(Atom(digits))))) && PlainComparison(e)
  {
    var e := EqualityTree(column, p, q, digits, r);
    OperatorTreeGets("=", ColumnTree(column, p), ConstTree(digits, r), q);
    FieldsFound(column, p, e);
    IntTreeSays(digits, r);
    assert Get(ConstTree(digits, r), "A_Const") == Some(IntTree(digits, r));
    assert ConstNode(e) == Some(IntTree(digits, r));
    assert OneString(StringTree(column)) == Some(column);
    assert OneString(StringTree("=")) == Some("=");
  }

  lemma OrTreeParts(a: Json, b: Json, at: string)
    ensures var w := OrTree(a, b, at);
            && Get(w, "A_Expr").None? && Get(w, "BoolExpr").Some?
            && Args(Get(w, "BoolExpr").value) == Some(Item(a, Item(b, NoItems)))
            && Enum(Get(w, "BoolExpr").value, "boolop") == Some("OR_EXPR")
  {
    OrTreeSays(a, b, at);
  }

  /** The condition is one equality, and the parser reports it. */
  ghost predicate Is(w: Json, q: (string, Value)) {
    && Alternatives(w) == {{q}}
    && forall r: Parsed :: !r.found ==> WhereKey(w, r).found && Reported(WhereKey(w, r)) == Some(q)
  }

  lemma ComparisonTreeSays(c: string, p: string, q: string, m: string, r: string)
    requires IntOf(Atom(m)) != 0
    ensures Is(ComparisonTree(c, p, q, m, r), (c, IntV(IntOf(Atom(m)))))
  {
    var x, e := ComparisonTree(c, p, q, m, r), EqualityTree(c, p, q, m, r);
    EqualityTreeSays(c, p, q, m, r);
    assert Get(x, "A_Expr") == Some(e);
    var key := Equality(e).value;
    assert FirstShown([key]) == Some(key);
    forall b: Parsed | !b.found
      ensures WhereKey(x, b).found && Reported(WhereKey(x, b)) == Some(key)
    {
      ComparisonExact(e, b);
    }
  }

  lemma OrReports(x: Json, y: Json, at: string, r: Parsed)
    requires WhereKey(x, r).found
    ensures WhereKey(OrTree(x, y, at), r) == WhereKey(x, r)
  {
    OrTreeParts(x, y, at);
    var args := Item(x, Item(y, NoItems));
    assert WhereKey(OrTree(x, y, at), r) == ArgsKey(args, r);
  }

  /**
   For an OR of two equalities the parser reports the first. The condition implies it exactly when both
   sides are the same.
   */
  lemma OrReportedExactly(x: Json, y: Json, at: string, q: (string, Value), p: (string, Value), r: Parsed)
    requires Is(x, q) && Is(y, p) && !r.found
    ensures var w := OrTree(x, y, at);
            && Reported(WhereKey(w, r)) == Some(q)
            && ((forall row: Row, cond: (Json, Row) -> bool :: Sat(w, row, cond) ==> Has(row, q.0, q.1)) <==> q == p)
  {
    OrReports(x, y, at, r);
    TwoAlternatives(x, y, at, q, p);
    ImpliedByTwo(OrTree(x, y, at), q, p);
  }

  lemma ImpliedByTwo(w: Json, q: (string, Value), p: (string, Value))
    requires Alternatives(w) == {{q}, {p}}
    ensures (forall row: Row, cond: (Json, Row) -> bool :: Sat(w, row, cond) ==> Has(row, q.0, q.1)) <==> q == p
  {
    ImpliedExactly(w, q);
    if forall c :: c in Alternatives(w) ==> q in c || !Consistent(c) {
      assert {p} in Alternatives(w) && Consistent({p});
    }
  }

  lemma TwoAlternatives(x: Json, y: Json, at: string, q: (string, Value), p: (string, Value))
    requires Alternatives(x) == {{q}} && Alternatives(y) == {{p}}
    ensures Alternatives(OrTree(x, y, at)) == {{q}, {p}}
  {
    OrTreeParts(x, y, at);
    var none := NoItems;
    assert AnyAlternative(none) == {};
    assert AnyAlternative(Item(y, none)) == {{p}};
    assert AnyAlternative(Item(x, Item(y, none))) == {{q}} + {{p}};
  }

  lemma OneDigit(c: char)
    requires '0' <= c <= '9'
    ensures IntOf(Atom([c])) == c as int - '0' as int
  {
    assert [c][1..] == [];
    assert Digits([c], 0) == Digits([], c as int - '0' as int) == c as int - '0' as int;
  }

  lemma IdFiveSays()
    ensures Is(ID_FIVE, ("id", IntV(5)))
  {
    OneDigit('5');
    ComparisonTreeSays("id", "22", "25", "5", "27");
  }

  lemma IdOrZipSays(r: Parsed)
    requires !r.found
    ensures Alternatives(ID_OR_ZIP) == {{("id", IntV(5))}, {("zip", IntV(7))}}
    ensures Reported(WhereKey(ID_OR_ZIP, r)) == Some(("id", IntV(5)))
  {
    OneDigit('7');
    IdFiveSays();
    ComparisonTreeSays("zip", "32", "36", "7", "38");
    OrReports(ID_FIVE, ZIP_SEVEN, "29", r);
    TwoAlternatives(ID_FIVE, ZIP_SEVEN, "29", ("id", IntV(5)), ("zip", IntV(7)));
  }

  /** A statement whose key is on the shard column goes to the shard of that key. */
  lemma ReportedRoute(t: Table, doc: Json, st: Stmt, v: Value)
    requires t.Valid() && Says(doc, t.Rule().table, st) && !st.Insert? && st.where.Some?
    requires forall r: Parsed :: !r.found ==> Reported(WhereKey(st.where.value, r)) == Some((t.column, v))
    ensures RouteOf(t, doc) == Decision(SINGLE, [KeyShard(t, v)], Some(t.index))
  {
    ParseSays(doc, t.Rule().table, st);
    var p := ParseDoc(doc).1;
    var r: Parsed :| !r.found && p == WhereKey(st.where.value, r);
    DecisionOfKey(t, doc, p, p);
  }

  lemma OrRoute(t: Table, doc: Json)
    requires t.Valid() && t.column == "id" && Says(doc, t.Rule().table, Select(Some(ID_OR_ZIP)))
    ensures RouteOf(t, doc) == Decision(SINGLE, [KeyShard(t, IntV(5))], Some(t.index))
  {
    forall r: Parsed | !r.found
      ensures Reported(WhereKey(ID_OR_ZIP, r)) == Some(("id", IntV(5)))
    {
      IdOrZipSays(r);
    }
    ReportedRoute(t, doc, Select(Some(ID_OR_ZIP)), IntV(5));
  }

  /** The alternative zip = 7 says nothing about id. */
  lemma FreeOfId(v: Value) returns (c: Clause)
    ensures c in Alternatives(ID_OR_ZIP) && Consistent(c) && Allows(c, "id", v)
  {
    IdOrZipSays(BLANK);
    c := {("zip", IntV(7))};
    assert "id"[0] != "zip"[0];
  }

  /**
   On every table sharded by id with keys on more than one shard, SELECT ... WHERE id = 5 OR zip = 7 goes
   to the shard of 5 alone and misses rows that another shard holds.
   */
  lemma OrMissesRows(t: Table, doc: Json, v: Value)
    requires t.Valid() && t.column == "id" && Says(doc, t.Rule().table, Select(Some(ID_OR_ZIP)))
    requires KeyShard(t, v) != KeyShard(t, IntV(5))
    ensures var s := KeyShard(t, IntV(5));
            && RouteOf(t, doc) == Decision(SINGLE, [s], Some(t.index)) && s < |t.m.shards|
            && exists cl: Rows :: Placed(t, cl) && !AnswersAgree(t, Select(Some(ID_OR_ZIP)), s, ANYTHING, cl)
  {
    OrRoute(t, doc);
    DecisionShape(t, Some((t.column, IntV(5))));
    var c := FreeOfId(v);
    MissedRow(t, ID_OR_ZIP, KeyShard(t, IntV(5)), c, v);
  }

  // ---------- Documents ----------

  lemma StatementFound(stmt: Json)
    requires WF(stmt)
    ensures StatementOf(Document(stmt)) == Some(stmt) && WF(Document(stmt)) && OneStatement(Document(stmt))
  {
    DocumentSays(stmt);
  }

  lemma TableNamed(table: string, at: string)
    ensures Names(TableTree(table, at), table)
  {
    TableTreeGets(table, at);
  }

  lemma {:induction false} FieldsOnly(ps: seq<(string, Json)>, keys: seq<string>)
    requires forall i :: 0 <= i < |ps| ==> ps[i].0 in keys
    ensures OnlyKeys(Fields(ps), keys)
  {
    if ps != [] {
      FieldsOnly(ps[1..], keys);
    }
  }

  lemma SameKeys(ps: seq<(string, Json)>, keys: seq<string>)
    requires |ps| == |keys| && forall i :: 0 <= i < |ps| ==> ps[i].0 == keys[i]
    ensures Clauses(Record(ps), keys)
  {
    FieldsOnly(ps, keys);
  }

  lemma SelectSaid(s: Json, table: string, at: string, w: Json)
    requires WF(Node("SelectStmt", s))
    requires Get(s, "fromClause") == Some(One(Node("RangeVar", TableTree(table, at)))) && Get(s, "whereClause") == Some(w)
    requires Clauses(s, SELECT_KEYS)
    ensures Says(Document(Node("SelectStmt", s)), table, Select(Some(w)))
  {
    StatementFound(Node("SelectStmt", s));
    TableNamed(table, at);
    assert FromIs(s, table);
  }

  lemma SelectClauses(star: Json, rv: Json, w: Json)
    ensures Clauses(Record(SelectFields(star, rv, w)), SELECT_KEYS)
  {
    SameKeys(SelectFields(star, rv, w), SELECT_KEYS);
  }

  /** Every condition on every table has its document. */
  lemma SelectDocSays(table: string, w: Json)
    requires CleanKey(table) && WF(w)
    ensures Says(SelectDoc(table, w), table, Select(Some(w)))
  {
    var star, rv := StarTree("7"), TableTree(table, "14");
    var s := Record(SelectFields(star, rv, w));
    SelectStmtWF(table, w);
    SelectTreeGets(star, rv, w);
    SelectClauses(star, rv, w);
    SelectSaid(s, table, "14", w);
  }

  lemma InsertSaid(s: Json, ss: Json, table: string, names: seq<string>, values: seq<Items>)
    requires WF(Node("InsertStmt", s))
    requires RelationIs(s, table) && IsInsertOf(s, names, values) && ValuesOf(s) == Some(ss)
    requires Clauses(s, INSERT_KEYS) && Clauses(ss, VALUES_KEYS)
    ensures Says(Document(Node("InsertStmt", s)), table, Insert(names, values))
  {
    StatementFound(Node("InsertStmt", s));
  }

  /** Rows of one expression each. */
  function Singles(items: seq<Json>): (rows: seq<Items>)
    ensures |rows| == |items| && forall i :: 0 <= i < |items| ==> rows[i] == Item(items[i], NoItems)
  {
    if items == [] then [] else [Item(items[0], NoItems)] + Singles(items[1..])
  }

  lemma {:induction false} RowsListed(items: seq<Json>)
    ensures ValuesList(RowTrees(items), Singles(items))
  {
    if items != [] {
      assert ValuesRow(RowTree(items[0])) == Some(Item(items[0], NoItems));
      assert Singles(items)[1..] == Singles(items[1..]);
      RowsListed(items[1..]);
    }
  }

  lemma OneColumn(column: string, at: string)
    ensures ColumnList(ColsTree(column, at).items, [column])
  {
    assert [column][1..] == [];
    assert ColumnTarget(ColsTree(column, at).items.value) == Some(column);
  }

  lemma InsertClauses(rv: Json, cols: Json, items: seq<Json>)
    ensures Clauses(Record(InsertFields(rv, cols, items)), INSERT_KEYS)
    ensures Clauses(Record(ValuesFields(items)), VALUES_KEYS)
  {
    SameKeys(InsertFields(rv, cols, items), INSERT_KEYS);
    SameKeys(ValuesFields(items), VALUES_KEYS);
  }

  lemma InsertTreeIs(rv: Json, cols: Json, items: seq<Json>, table: string, column: string)
    requires Names(rv, table) && cols.Arr? && ColumnList(cols.items, [column])
    ensures var s := Record(InsertFields(rv, cols, items));
            RelationIs(s, table) && ValuesOf(s) == Some(Record(ValuesFields(items))) && IsInsertOf(s, [column], Singles(items))
  {
    InsertTreeGets(rv, cols, items);
    RowsListed(items);
  }

  lemma InsertTreeSays(table: string, p: string, column: string, q: string, items: seq<Json>)
    requires WF(Node("InsertStmt", Record(InsertFields(TableTree(table, p), ColsTree(column, q), items))))
    ensures Says(Document(Node("InsertStmt", Record(InsertFields(TableTree(table, p), ColsTree(column, q), items)))), table,
                 Insert([column], Singles(items)))
  {
    var rv, cols := TableTree(table, p), ColsTree(column, q);
    TableNamed(table, p);
    OneColumn(column, q);
    InsertTreeIs(rv, cols, items, table, column);
    InsertClauses(rv, cols, items);
    InsertSaid(Record(InsertFields(rv, cols, items)), Record(ValuesFields(items)), table, [column], Singles(items));
  }

  /** Any expressions can be inserted into any column. */
  lemma InsertDocSays(table: string, column: string, items: seq<Json>)
    requires CleanKey(table) && CleanKey(column) && AllWF(items)
    ensures Says(InsertDoc(table, column, items), table, Insert([column], Singles(items)))
  {
    InsertStmtWF(table, column, items);
    InsertTreeSays(table, "12", column, "15", items);
  }

  lemma UpdateSaid(s: Json, table: string, sets: seq<(string, Json)>, w: Json)
    requires WF(Node("UpdateStmt", s))
    requires RelationIs(s, table) && IsUpdateOf(s, sets) && Get(s, "whereClause") == Some(w)
    requires Clauses(s, UPDATE_KEYS)
    ensures Says(Document(Node("UpdateStmt", s)), table, Update(sets, Some(w)))
  {
    StatementFound(Node("UpdateStmt", s));
  }

  lemma OneSet(column: string, item: Json, at: string)
    ensures SetList(Item(SetTree(column, item, at), NoItems), [(column, item)])
  {
    SetTreeGets(column, item, at);
    var t := SetTree(column, item, at);
    assert Get(t, "ResTarget") == Some(Record(SetFields(column, item, at)));
    assert SetTarget(t) == Some((column, item));
    assert [(column, item)][1..] == [];
  }

  lemma UpdateTreeIs(table: string, at: string, column: string, item: Json, p: string, w: Json)
    ensures var s := Record(UpdateFields(TableTree(table, at), SetTree(column, item, p), w));
            RelationIs(s, table) && IsUpdateOf(s, [(column, item)]) && Get(s, "whereClause") == Some(w)
  {
    UpdateTreeGets(TableTree(table, at), SetTree(column, item, p), w);
    TableNamed(table, at);
    OneSet(column, item, p);
  }

  lemma UpdateClauses(rv: Json, target: Json, w: Json)
    ensures Clauses(Record(UpdateFields(rv, target, w)), UPDATE_KEYS)
  {
    SameKeys(UpdateFields(rv, target, w), UPDATE_KEYS);
  }

  /** Any column can be set to any expression. */
  lemma UpdateDocSays(table: string, column: string, item: Json, w: Json)
    requires CleanKey(table) && CleanKey(column) && WF(item) && WF(w)
    ensures Says(UpdateDoc(table, column, item, w), table, Update([(column, item)], Some(w)))
  {
    var rv, target := TableTree(table, "7"), SetTree(column, item, "13");
    var s := Record(UpdateFields(rv, target, w));
    UpdateStmtWF(table, column, item, w);
    UpdateTreeIs(table, "7", column, item, "13", w);
    UpdateClauses(rv, target, w);
    UpdateSaid(s, table, [(column, item)], w);
  }

  // ---------- Two shards ----------

  const RULE := TableRule("t", Some("id"), RANGE, false, [0, 1])

  /** Keys 0 and 1 on the first shard, 2 to 9 on the second. */
  const TWO_SHARDS := Table(Map([Shard("a", 0, 2), Shard("b", 2, 10)], [RULE]), 0, "id")

  lemma TwoShardsValid()
    ensures TWO_SHARDS.Valid() && TWO_SHARDS.Rule() == RULE
    ensures CleanKey("t") && CleanKey("id")
    ensures forall n :: 0 <= n < 10 ==> KeyShard(TWO_SHARDS, IntV(n)) == if n < 2 then 0 else 1
  {
    var m := TWO_SHARDS.m;
    assert m.rules[0] == RULE && m.TargetsOk(RULE.shards);
    assert FindRuleSpec(m.rules, "t") == Some(0);
    forall n | 0 <= n < 10
      ensures KeyShard(TWO_SHARDS, IntV(n)) == if n < 2 then 0 else 1
    {
      assert RULE.shards[1..] == [1];
      assert n % TWO64 == n;
      assert Owner(m, RULE.shards, n, 0) == if n < 2 then 0 else Owner(m, [1], n, 0);
    }
  }

  lemma OneKeyConfined(t: Table, w: Json, v: Value)
    requires t.Valid() && Alternatives(w) == {{(t.column, v)}}
    ensures Confined(t, w, KeyShard(t, v))
  {
    forall c, u | c in Alternatives(w) && Consistent(c) && Allows(c, t.column, u)
      ensures u == v
    {
      assert (t.column, v) in c;
    }
  }

  /** SELECT * FROM t WHERE id = 5 is sent to the second shard, and rightly so. */
  lemma FiveIsRoutedRight()
    ensures TWO_SHARDS.Valid()
    ensures var doc := SelectDoc("t", ID_FIVE);
            && Says(doc, "t", Select(Some(ID_FIVE)))
            && RouteOf(TWO_SHARDS, doc) == Decision(SINGLE, [1], Some(0)) && Confined(TWO_SHARDS, ID_FIVE, 1)
  {
    TwoShardsValid();
    IdFiveWF();
    SelectDocSays("t", ID_FIVE);
    assert KeyShard(TWO_SHARDS, IntV(5)) == 1;
    IdFiveSays();
    ReportedRoute(TWO_SHARDS, SelectDoc("t", ID_FIVE), Select(Some(ID_FIVE)), IntV(5));
    OneKeyConfined(TWO_SHARDS, ID_FIVE, IntV(5));
  }

  /** SELECT * FROM t WHERE id = 5 OR zip = 7 misses a row of the first shard. */
  lemma OrIsRoutedWrong()
    ensures TWO_SHARDS.Valid()
    ensures var doc := SelectDoc("t", ID_OR_ZIP);
            && Says(doc, "t", Select(Some(ID_OR_ZIP)))
            && RouteOf(TWO_SHARDS, doc) == Decision(SINGLE, [1], Some(0))
            && exists cl: Rows :: Placed(TWO_SHARDS, cl) && !AnswersAgree(TWO_SHARDS, Select(Some(ID_OR_ZIP)), 1, ANYTHING, cl)
  {
    TwoShardsValid();
    IdOrZipWF();
    SelectDocSays("t", ID_OR_ZIP);
    assert KeyShard(TWO_SHARDS, IntV(5)) == 1 && KeyShard(TWO_SHARDS, IntV(0)) == 0;
    OrMissesRows(TWO_SHARDS, SelectDoc("t", ID_OR_ZIP), IntV(0));
  }

  // ---------- Two shards by hash ----------

  const HASH_RULE := TableRule("t", Some("id"), HASH, false, [0, 1])
  const HASH_SHARDS := Table(Map([Shard("a", 0, 0), Shard("b", 0, 0)], [HASH_RULE]), 0, "id")

  lemma HashShardsValid()
    ensures HASH_SHARDS.Valid() && HASH_SHARDS.Rule() == HASH_RULE && CleanKey("t")
    ensures KeyShard(HASH_SHARDS, IntV(2)) == 0 && KeyShard(HASH_SHARDS, IntV(5)) == 1
  {
    var m := HASH_SHARDS.m;
    assert m.rules[0] == HASH_RULE && m.TargetsOk(HASH_RULE.shards);
    assert FindRuleSpec(m.rules, "t") == Some(0);
    HashByInt(m, HASH_RULE, 2, 2, 0, 1);
    HashByInt(m, HASH_RULE, 5, 5, 1, 2);
  }

  /** SELECT * FROM t WHERE id = 2 goes to the first shard, WHERE id = 5 to the second. */
  lemma HashIsRoutedRight()
    ensures HASH_SHARDS.Valid()
    ensures Says(SelectDoc("t", ID_TWO), "t", Select(Some(ID_TWO)))
    ensures RouteOf(HASH_SHARDS, SelectDoc("t", ID_TWO)) == Decision(SINGLE, [0], Some(0))
    ensures Says(SelectDoc("t", ID_FIVE), "t", Select(Some(ID_FIVE)))
    ensures RouteOf(HASH_SHARDS, SelectDoc("t", ID_FIVE)) == Decision(SINGLE, [1], Some(0))
  {
    HashShardsValid();
    HashTwo();
    HashFive();
  }

  lemma HashTwo()
    ensures HASH_SHARDS.Valid()
    ensures var doc := SelectDoc("t", ID_TWO);
            Says(doc, "t", Select(Some(ID_TWO))) && RouteOf(HASH_SHARDS, doc) == Decision(SINGLE, [0], Some(0))
  {
    HashShardsValid();
    IdTwoWF();
    SelectDocSays("t", ID_TWO);
    TwoRoute(HASH_SHARDS, SelectDoc("t", ID_TWO));
  }

  lemma HashFive()
    ensures HASH_SHARDS.Valid()
    ensures var doc := SelectDoc("t", ID_FIVE);
            Says(doc, "t", Select(Some(ID_FIVE))) && RouteOf(HASH_SHARDS, doc) == Decision(SINGLE, [1], Some(0))
  {
    HashShardsValid();
    IdFiveWF();
    SelectDocSays("t", ID_FIVE);
    IdFiveSays();
    ReportedRoute(HASH_SHARDS, SelectDoc("t", ID_FIVE), Select(Some(ID_FIVE)), IntV(5));
  }

  // ---------- INSERT ----------

  lemma AloneWF(a: Json)
    requires WF(a)
    ensures AllWF([a])
  {
    assert [a][1..] == [];
  }

  lemma PairWF(a: Json, b: Json)
    requires WF(a) && WF(b)
    ensures AllWF([a, b])
  {
    assert [a, b][1..] == [b] && [b][1..] == [];
  }

  /** The statement INSERT INTO t (id) VALUES (item), ... */
  function InsertOf(items: seq<Json>): Stmt {
    Insert(["id"], Singles(items))
  }

  lemma FirstOfOne(item: Json)
    ensures IndexOf(["id"], "id") == 0 && Nth(Item(item, NoItems), 0) == Some(item)
  {
  }

  /** INSERT INTO t (id) VALUES (0) stores the row on both shards. */
  lemma ZeroIsStoredTwice(env: Env)
    ensures TWO_SHARDS.Valid() && Placed(TWO_SHARDS, Empty(2))
    ensures var doc := InsertDoc("t", "id", [ZERO]);
            && Says(doc, "t", InsertOf([ZERO]))
            && RouteOf(TWO_SHARDS, doc) == Decision(SCATTER, [0, 1], Some(0))
            && !KeepsPlaced(TWO_SHARDS, InsertOf([ZERO]), env, Empty(2), [0, 1])
  {
    TwoShardsValid();
    ZeroWF();
    AloneWF(ZERO);
    InsertDocSays("t", "id", [ZERO]);
    ZeroStored(TWO_SHARDS, InsertDoc("t", "id", [ZERO]), env, Empty(2));
  }

  lemma ZeroStored(t: Table, doc: Json, env: Env, cl: Rows)
    requires t.Valid() && t.column == "id" && Says(doc, t.Rule().table, InsertOf([ZERO])) && Placed(t, cl)
    requires |t.Rule().shards| > 1
    ensures RouteOf(t, doc) == Decision(SCATTER, t.Rule().shards, Some(t.index))
    ensures !KeepsPlaced(t, InsertOf([ZERO]), env, cl, t.Rule().shards)
  {
    var st := InsertOf([ZERO]);
    ZeroConst("27");
    FirstOfOne(ZERO);
    assert KeyItem(t, st, 0) == Some(IntV(0));
    InsertRoute(t, doc, st, IntV(0));
    InsertPlacedExactly(t, doc, st, env, cl);
  }

  lemma ZeroConst(at: string)
    ensures PlainConst(ZeroTree(at)) == Some(IntV(0))
  {
    var ival := ZeroTree(at).members.value;
    assert Get(ival, "ival") == Some(Obj(NoMembers)) && Get(Obj(NoMembers), "ival") == None;
    assert "ival"[0] != "sval"[0] && "location"[0] != "sval"[0];
    assert Get(ival, "sval") == GetMember(ival.members.rest, "sval") == GetMember(NoMembers, "sval") == None;
  }

  lemma ConstIs(c: char, at: string)
    requires '1' <= c <= '9'
    ensures PlainConst(ConstTree([c], at)) == Some(IntV(c as int - '0' as int))
  {
    OneDigit(c);
    IntTreeSays([c], at);
  }

  /** INSERT INTO t (id) VALUES (1), (2) stores both rows on the shard of 1. */
  lemma SecondRowIsStoredWrong(env: Env)
    ensures TWO_SHARDS.Valid() && Placed(TWO_SHARDS, Empty(2))
    ensures var doc := InsertDoc("t", "id", [ONE, TWO]);
            && Says(doc, "t", InsertOf([ONE, TWO]))
            && RouteOf(TWO_SHARDS, doc) == Decision(SINGLE, [0], Some(0))
            && !KeepsPlaced(TWO_SHARDS, InsertOf([ONE, TWO]), env, Empty(2), [0])
  {
    TwoShardsValid();
    OneAndTwoWF();
    PairWF(ONE, TWO);
    InsertDocSays("t", "id", [ONE, TWO]);
    assert KeyShard(TWO_SHARDS, IntV(1)) == 0 && KeyShard(TWO_SHARDS, IntV(2)) == 1;
    OneAndTwoConst();
    RowsStoredTogether(TWO_SHARDS, InsertDoc("t", "id", [ONE, TWO]), ONE, TWO, IntV(1), IntV(2), env, Empty(2));
  }

  lemma OneAndTwoConst()
    ensures PlainConst(ONE) == Some(IntV(1)) && PlainConst(TWO) == Some(IntV(2))
  {
    ConstIs('1', "27");
    ConstIs('2', "32");
  }

  lemma TwoKeys(t: Table, a: Json, b: Json, u: Value, v: Value)
    requires t.column == "id" && PlainConst(a) == Some(u) && PlainConst(b) == Some(v)
    ensures var st := InsertOf([a, b]);
            KeyItem(t, st, 0) == Some(u) && KeyItem(t, st, 1) == Some(v) && KeyedInsert(t, st)
  {
    FirstOfOne(a);
    FirstOfOne(b);
  }

  /** Two constants that live on different shards, the first of them not 0. */
  lemma RowsStoredTogether(t: Table, doc: Json, a: Json, b: Json, u: Value, v: Value, env: Env, cl: Rows)
    requires t.Valid() && t.column == "id" && Says(doc, t.Rule().table, InsertOf([a, b])) && Placed(t, cl)
    requires PlainConst(a) == Some(u) && PlainConst(b) == Some(v) && u != IntV(0) && KeyShard(t, u) != KeyShard(t, v)
    ensures RouteOf(t, doc) == Decision(SINGLE, [KeyShard(t, u)], Some(t.index))
    ensures !KeepsPlaced(t, InsertOf([a, b]), env, cl, RouteOf(t, doc).targets)
  {
    var st := InsertOf([a, b]);
    TwoKeys(t, a, b, u, v);
    InsertRoute(t, doc, st, u);
    InsertPlacedExactly(t, doc, st, env, cl);
  }

  /** Where 1 + 1 is 2. */
  const ADDING := ANYTHING.(eval := Const(IntV(2)))

  /** INSERT INTO t (id) VALUES (1 + 1) stores the row with key 2 on the shard of 1. */
  lemma SumIsStoredWrong()
    ensures TWO_SHARDS.Valid() && Placed(TWO_SHARDS, Empty(2))
    ensures var doc := InsertDoc("t", "id", [ONE_PLUS_ONE]);
            && Says(doc, "t", InsertOf([ONE_PLUS_ONE]))
            && RouteOf(TWO_SHARDS, doc) == Decision(SINGLE, [0], Some(0))
            && !KeepsPlaced(TWO_SHARDS, InsertOf([ONE_PLUS_ONE]), ADDING, Empty(2), [0])
  {
    TwoShardsValid();
    OnePlusOneWF();
    AloneWF(ONE_PLUS_ONE);
    InsertDocSays("t", "id", [ONE_PLUS_ONE]);
    assert KeyShard(TWO_SHARDS, IntV(1)) == 0 && KeyShard(TWO_SHARDS, IntV(2)) == 1;
    SumRoute(TWO_SHARDS, InsertDoc("t", "id", [ONE_PLUS_ONE]));
    SumStored(TWO_SHARDS, Empty(2), 0);
  }

  lemma SumRoute(t: Table, doc: Json)
    requires t.Valid() && t.column == "id" && Says(doc, t.Rule().table, InsertOf([ONE_PLUS_ONE]))
    ensures RouteOf(t, doc) == Decision(SINGLE, [KeyShard(t, IntV(1))], Some(t.index))
  {
    FirstOfOne(ONE_PLUS_ONE);
    SumSeen();
    assert SeenKey(t, InsertOf([ONE_PLUS_ONE])) == Some(("id", IntV(1)));
    InsertRouteSeen(t, doc, InsertOf([ONE_PLUS_ONE]));
  }

  lemma SumStored(t: Table, cl: Rows, s: nat)
    requires t.Valid() && t.column == "id" && Placed(t, cl) && s < |cl| && KeyShard(t, IntV(2)) != s
    ensures !KeepsPlaced(t, InsertOf([ONE_PLUS_ONE]), ADDING, cl, [s])
  {
    var st := InsertOf([ONE_PLUS_ONE]);
    FirstOfOne(ONE_PLUS_ONE);
    RowKey(["id"], Item(ONE_PLUS_ONE, NoItems), ADDING.eval, "id");
    assert PlainConst(ONE_PLUS_ONE).None? by { assert "A_Expr"[2] != "A_Const"[2]; }
    assert Added(st, ADDING)[0] in Added(st, ADDING);
    assert s in [s] && !AllHome(t, Added(st, ADDING), s);
    InsertPlacedAt(t, st, ADDING, cl, [s]);
  }

  /** The first constant inside 1 + 1. */
  lemma SumSeen()
    ensures ValueKey(Item(ONE_PLUS_ONE, NoItems), 0) == Some(IntKey(1))
  {
    FirstConst("1", "27", "29", "1", "31");
    OneDigit('1');
    IntTreeSays("1", "27");
  }

  /** INSERT INTO t (id) VALUES (3000000000) stores the row on both shards, whatever the number is read as. */
  lemma BigIsStoredTwice(env: Env)
    ensures TWO_SHARDS.Valid() && Placed(TWO_SHARDS, Empty(2))
    ensures var doc := InsertDoc("t", "id", [BIG]);
            && Says(doc, "t", InsertOf([BIG]))
            && RouteOf(TWO_SHARDS, doc) == Decision(SCATTER, [0, 1], Some(0))
            && !KeepsPlaced(TWO_SHARDS, InsertOf([BIG]), env, Empty(2), [0, 1])
  {
    TwoShardsValid();
    BigWF();
    AloneWF(BIG);
    InsertDocSays("t", "id", [BIG]);
    BigRoute(TWO_SHARDS, InsertDoc("t", "id", [BIG]));
    StoredTwice(TWO_SHARDS, BIG, env, Empty(2));
  }

  lemma BigRoute(t: Table, doc: Json)
    requires t.Valid() && t.column == "id" && Says(doc, t.Rule().table, InsertOf([BIG]))
    ensures RouteOf(t, doc) == Decision(SCATTER, t.Rule().shards, Some(t.index))
  {
    FirstOfOne(BIG);
    BigUnseen("3000000000", "27");
    InsertRouteSeen(t, doc, InsertOf([BIG]));
  }

  lemma BigUnseen(digits: string, at: string)
    ensures ValueKey(Item(BigTree(digits, at), NoItems), 0).None?
  {
    var c := BigTree(digits, at).members.value;
    assert Find(BigTree(digits, at), "A_Const") == Some(c);
    assert "fval"[0] != "ival"[0] && "fval"[0] != "sval"[0] && "location"[0] != "ival"[0] && "location"[0] != "sval"[0];
    assert Get(c, "ival") == GetMember(c.members.rest, "ival") == GetMember(NoMembers, "ival") == None;
    assert Get(c, "sval") == GetMember(c.members.rest, "sval") == GetMember(NoMembers, "sval") == None;
  }

  /** A row sent to every shard is at home on one of them at most. */
  lemma StoredTwice(t: Table, item: Json, env: Env, cl: Rows)
    requires t.Valid() && t.column == "id" && Placed(t, cl) && |t.Rule().shards| > 1
    ensures !KeepsPlaced(t, InsertOf([item]), env, cl, t.Rule().shards)
  {
    var st, targets := InsertOf([item]), t.Rule().shards;
    assert t.m.TargetsOk(targets);
    InsertPlacedAt(t, st, env, cl, targets);
    var added, a, b := Added(st, env), targets[0], targets[1];
    assert added[0] in added;
    assert a in targets && b in targets && a != b;
    assert !(Home(t, added[0], a) && Home(t, added[0], b));
  }

  // ---------- UPDATE ----------

  const MOVE := Update([("id", NEW_TWO)], Some(ID_ONE))
  const ROW_ONE: Row := map["id" := IntV(1)]
  const ROW_TWO: Row := map["id" := IntV(2)]

  lemma IdOneSays()
    ensures Is(ID_ONE, ("id", IntV(1)))
  {
    OneDigit('1');
    ComparisonTreeSays("id", "26", "29", "1", "31");
  }

  lemma IdTwoSays()
    ensures Is(ID_TWO, ("id", IntV(2)))
  {
    OneDigit('2');
    ComparisonTreeSays("id", "22", "25", "2", "27");
  }

  /** UPDATE ... SET id = 2 WHERE id = 1 goes to the shard of 1, SELECT ... WHERE id = 2 to that of 2. */
  lemma MoveRoute(t: Table, doc: Json)
    requires t.Valid() && t.column == "id" && Says(doc, t.Rule().table, MOVE)
    ensures RouteOf(t, doc) == Decision(SINGLE, [KeyShard(t, IntV(1))], Some(t.index))
  {
    IdOneSays();
    ReportedRoute(t, doc, MOVE, IntV(1));
  }

  lemma TwoRoute(t: Table, doc: Json)
    requires t.Valid() && t.column == "id" && Says(doc, t.Rule().table, Select(Some(ID_TWO)))
    ensures RouteOf(t, doc) == Decision(SINGLE, [KeyShard(t, IntV(2))], Some(t.index))
  {
    IdTwoSays();
    ReportedRoute(t, doc, Select(Some(ID_TWO)), IntV(2));
  }

  /**
   On every table sharded by id with 1 and 2 on different shards, the UPDATE leaves the row on the
   shard of 1, whatever the model does not interpret.
   */
  lemma MoveMisplaces(t: Table, env: Env)
    requires t.Valid() && t.column == "id" && KeyShard(t, IntV(1)) != KeyShard(t, IntV(2))
    ensures var s, n := KeyShard(t, IntV(1)), |t.m.shards|;
            && s < n && Placed(t, OneRow(n, s, ROW_ONE))
            && ExecOn(MOVE, env, OneRow(n, s, ROW_ONE), [s]) == OneRow(n, s, ROW_TWO)
            && !KeepsPlaced(t, MOVE, env, OneRow(n, s, ROW_ONE), [s])
  {
    var s, n := KeyShard(t, IntV(1)), |t.m.shards|;
    OneRowPlaced(t, ROW_ONE, s);
    RowMoved(env);
    MovedOnly(MOVE, env, n, s, ROW_ONE, ROW_TWO);
    Misplaced(t, ROW_TWO, s);
  }

  lemma MovedOnly(st: Stmt, env: Env, n: nat, s: nat, row: Row, after: Row)
    requires s < n && st.Update? && OnRows(st, env, [row]) == [after]
    ensures ExecOn(st, env, OneRow(n, s, row), [s]) == OneRow(n, s, after)
  {
    ExecOnOne(st, env, OneRow(n, s, row), s);
  }

  lemma Misplaced(t: Table, row: Row, s: nat)
    requires t.Valid() && s < |t.m.shards| && !Home(t, row, s)
    ensures !Placed(t, OneRow(|t.m.shards|, s, row))
  {
    assert row in OneRow(|t.m.shards|, s, row)[s];
  }

  /** The SELECT then does not find the row. */
  lemma MovedRowIsLost(t: Table, env: Env)
    requires t.Valid() && t.column == "id" && KeyShard(t, IntV(1)) != KeyShard(t, IntV(2))
    ensures var a, b, n := KeyShard(t, IntV(1)), KeyShard(t, IntV(2)), |t.m.shards|;
            a < n && b < n && ReplyFrom(Select(Some(ID_TWO)), env, OneRow(n, a, ROW_TWO), [b]) == []
  {
    var a, b := KeyShard(t, IntV(1)), KeyShard(t, IntV(2));
    OneRowPlaced(t, ROW_ONE, a);
    OneRowPlaced(t, ROW_TWO, b);
    TwoChosen(env);
    OneRowReplies(Select(Some(ID_TWO)), env, [b], |t.m.shards|, a, ROW_TWO);
  }

  /** The documents, on the two shards above. */
  lemma MoveDoc()
    ensures TWO_SHARDS.Valid() && KeyShard(TWO_SHARDS, IntV(1)) == 0 && KeyShard(TWO_SHARDS, IntV(2)) == 1
    ensures var doc := UpdateDoc("t", "id", NEW_TWO, ID_ONE);
            Says(doc, "t", MOVE) && RouteOf(TWO_SHARDS, doc) == Decision(SINGLE, [0], Some(0))
  {
    TwoShardsValid();
    IdOneWF();
    NewTwoWF();
    UpdateDocSays("t", "id", NEW_TWO, ID_ONE);
    MoveRoute(TWO_SHARDS, UpdateDoc("t", "id", NEW_TWO, ID_ONE));
  }

  lemma TwoDoc()
    ensures TWO_SHARDS.Valid()
    ensures var doc := SelectDoc("t", ID_TWO);
            Says(doc, "t", Select(Some(ID_TWO))) && RouteOf(TWO_SHARDS, doc) == Decision(SINGLE, [1], Some(0))
  {
    TwoShardsValid();
    IdTwoWF();
    SelectDocSays("t", ID_TWO);
    TwoRoute(TWO_SHARDS, SelectDoc("t", ID_TWO));
  }

  /** An equality holds of a row exactly when the row has that value. */
  lemma EqualityChosen(column: string, p: string, q: string, c: char, r: string, row: Row, env: Env)
    requires '1' <= c <= '9'
    ensures Chosen(Some(ComparisonTree(column, p, q, [c], r)), env, row) <==> Has(row, column, IntV(c as int - '0' as int))
  {
    OneDigit(c);
    EqualityTreeSays(column, p, q, [c], r);
    var x := ComparisonTree(column, p, q, [c], r);
    assert Get(x, "A_Expr") == Some(EqualityTree(column, p, q, [c], r));
  }

  lemma TwoChosen(env: Env)
    ensures Chosen(Some(ID_TWO), env, ROW_TWO)
  {
    EqualityChosen("id", "22", "25", '2', "27", ROW_TWO, env);
  }

  lemma OneChosen(env: Env)
    ensures Chosen(Some(ID_ONE), env, ROW_ONE)
  {
    EqualityChosen("id", "26", "29", '1', "31", ROW_ONE, env);
  }

  lemma OneAssigned(item: Json, w: Option<Json>, env: Env, row: Row, v: Value)
    requires PlainConst(item) == Some(v) && Chosen(w, env, row)
    ensures OnRows(Update([("id", item)], w), env, [row]) == [row["id" := v]]
  {
    assert [("id", item)][1..] == [];
    OneRowUpdated(Update([("id", item)], w), env, row);
  }

  lemma NewTwoConst()
    ensures PlainConst(NEW_TWO) == Some(IntV(2))
  {
    ConstIs('2', "18");
  }

  lemma RowTwo()
    ensures ROW_ONE["id" := IntV(2)] == ROW_TWO
  {
  }

  lemma RowMoved(env: Env)
    ensures OnRows(MOVE, env, [ROW_ONE]) == [ROW_TWO]
  {
    OneChosen(env);
    NewTwoConst();
    OneAssigned(NEW_TWO, Some(ID_ONE), env, ROW_ONE, IntV(2));
    RowTwo();
  }

  /** On one table the moved row is found. */
  lemma OneTableFinds(env: Env)
    ensures Reply(Select(Some(ID_TWO)), env, Exec(MOVE, env, [ROW_ONE])) == [ROW_TWO]
  {
    TwoChosen(env);
    RowMoved(env);
    FoundAlone(Some(ID_TWO), env, ROW_TWO);
    assert Exec(MOVE, env, [ROW_ONE]) == [ROW_TWO];
  }

  lemma FoundAlone(w: Option<Json>, env: Env, row: Row)
    requires Chosen(w, env, row)
    ensures Reply(Select(w), env, [row]) == [row]
  {
    assert [row][1..] == [];
  }

  // ---------- Rules without a shard column ----------

  /** The first rule for its table, and not broadcast. */
  predicate Keyed(m: Map, i: nat)
    requires i < |m.rules|
  {
    FindRuleSpec(m.rules, m.rules[i].table) == Some(i) && !m.rules[i].broadcast
  }

  /**
   A key found in a statement is compared with the rule's column without asking whether there is one.
   No document makes that a null pointer exactly when every such rule has a column.
   */
  lemma ComparableExactly(m: Map)
    requires forall i :: 0 <= i < |m.rules| ==> CleanKey(m.rules[i].table)
    ensures (forall doc :: WF(doc) ==> Comparable(m, ParseDoc(doc).1))
            <==> forall i :: 0 <= i < |m.rules| && Keyed(m, i) ==> m.rules[i].column.Some?
  {
    if forall doc :: WF(doc) ==> Comparable(m, ParseDoc(doc).1) {
      forall i | 0 <= i < |m.rules| && Keyed(m, i)
        ensures m.rules[i].column.Some?
      {
        var doc := SelectDoc(m.rules[i].table, ID_FIVE);
        KeyFound(m.rules[i].table);
        assert Comparable(m, ParseDoc(doc).1);
      }
    }
  }

  lemma KeyFound(table: string)
    requires CleanKey(table)
    ensures var doc := SelectDoc(table, ID_FIVE);
            var p := ParseDoc(doc).1;
            WF(doc) && p.table == Some(table) && p.found && p.column.Some? && p.stmt == SELECT
  {
    IdFiveWF();
    SelectDocSays(table, ID_FIVE);
    ParseSays(SelectDoc(table, ID_FIVE), table, Select(Some(ID_FIVE)));
    IdFiveSays();
  }

  /** A table with a shard list and no shard column. */
  const NO_COLUMN := Map([Shard("a", 0, 2)], [TableRule("t", None, HASH, false, [0])])

  lemma NoColumnLoaded()
    ensures Loaded(NO_COLUMN) && FindRuleSpec(NO_COLUMN.rules, "t") == Some(0) && CleanKey("t")
  {
    assert NO_COLUMN.TargetsOk([0]);
  }

  /** SELECT * FROM t WHERE id = 5 compares the column with a null pointer. */
  lemma NullColumnIsCompared()
    ensures Loaded(NO_COLUMN) && WF(SelectDoc("t", ID_FIVE))
    ensures !Comparable(NO_COLUMN, ParseDoc(SelectDoc("t", ID_FIVE)).1)
  {
    NoColumnLoaded();
    KeyFound("t");
  }
}
