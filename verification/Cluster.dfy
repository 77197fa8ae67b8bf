/**
 A sharded table as the rows on each shard, statements acting on it through the router's decision,
 and the theorem that clients cannot tell it from one unsharded table.
 */
module Cluster {
  import opened Wrappers
  import opened JsonText
  import opened JsonScan
  import opened ParseTree
  import opened Conditions
  import opened Inserts
  import opened Updates
  import opened ShardMap
  import opened Router

  // ---------- Statements ----------

  datatype Stmt =
    | Select(where: Option<Json>)
    | Update(sets: seq<(string, Json)>, where: Option<Json>)
    | Delete(where: Option<Json>)
    | Insert(names: seq<string>, values: seq<Items>)

  /** The parts of SQL the model does not interpret: other conditions, values computed by SET and by VALUES. */
  datatype Env = Env(cond: (Json, Row) -> bool, compute: (Json, Row) -> Value, eval: Json -> Value)

  predicate NodeIs(stmt: Json, key: string) {
    stmt.Obj? && stmt.members.Member? && stmt.members.key == key
  }

  predicate Names(rv: Json, table: string) {
    && Get(rv, "relname").Some? && StringOf(Get(rv, "relname").value) == Some(table)
    && Get(rv, "schemaname").None? && Get(rv, "catalogname").None?
  }

  predicate RelationIs(s: Json, table: string) {
    Get(s, "relation").Some? && Names(Get(s, "relation").value, table)
  }

  /** FROM lists one table and nothing else. */
  predicate FromIs(s: Json, table: string) {
    var from := Get(s, "fromClause");
    from.Some? && from.value.Arr? && from.value.items.Item? && from.value.items.more.NoItems? &&
    var node := from.value.items.value;
    NodeIs(node, "RangeVar") && node.members.rest.NoMembers? && Names(node.members.value, table)
  }

  /** The clauses that are given a meaning here, and the two enumerations that every SELECT prints. */
  const SELECT_KEYS := ["targetList", "fromClause", "whereClause", "limitOption", "op"]
  const UPDATE_KEYS := ["relation", "targetList", "whereClause"]
  const DELETE_KEYS := ["relation", "whereClause"]
  const INSERT_KEYS := ["relation", "cols", "selectStmt", "override"]
  const VALUES_KEYS := ["valuesLists", "limitOption", "op"]

  /** No WITH, no LIMIT, no RETURNING and so on. */
  predicate OnlyKeys(ms: Members, keys: seq<string>) {
    ms.Member? ==> ms.key in keys && OnlyKeys(ms.rest, keys)
  }

  predicate Clauses(s: Json, keys: seq<string>) {
    s.Obj? && OnlyKeys(s.members, keys)
  }

  /** The statement list has one element. */
  predicate OneStatement(doc: Json) {
    var stmts := Get(doc, "stmts");
    StatementOf(doc).Some? && stmts.Some? && stmts.value.Arr? && stmts.value.items.Item? && stmts.value.items.more.NoItems?
  }

  predicate IsUpdateOf(s: Json, sets: seq<(string, Json)>) {
    Get(s, "targetList").Some? && Get(s, "targetList").value.Arr? && SetList(Get(s, "targetList").value.items, sets)
  }

  /** The document is one statement on the table, and this is all it says. */
  predicate Says(doc: Json, table: string, st: Stmt) {
    WF(doc) && OneStatement(doc) &&
    var stmt := StatementOf(doc).value;
    match st
    case Select(w) =>
      NodeIs(stmt, "SelectStmt") && FromIs(stmt.members.value, table) && Get(stmt.members.value, "whereClause") == w
      && Clauses(stmt.members.value, SELECT_KEYS)
    case Update(sets, w) =>
      NodeIs(stmt, "UpdateStmt") && RelationIs(stmt.members.value, table) && Get(stmt.members.value, "whereClause") == w
      && IsUpdateOf(stmt.members.value, sets) && Clauses(stmt.members.value, UPDATE_KEYS)
    case Delete(w) =>
      NodeIs(stmt, "DeleteStmt") && RelationIs(stmt.members.value, table) && Get(stmt.members.value, "whereClause") == w
      && Clauses(stmt.members.value, DELETE_KEYS)
    case Insert(names, values) =>
      NodeIs(stmt, "InsertStmt") && RelationIs(stmt.members.value, table)
      && IsInsertOf(stmt.members.value, names, values) && Clauses(stmt.members.value, INSERT_KEYS)
      && Clauses(ValuesOf(stmt.members.value).value, VALUES_KEYS)
  }

  // ---------- Statements on the rows of one server ----------

  predicate Chosen(w: Option<Json>, env: Env, row: Row) {
    w.None? || Sat(w.value, row, env.cond)
  }

  function OnRow(st: Stmt, env: Env, row: Row): seq<Row> {
    match st
    case Update(sets, w) => if Chosen(w, env, row) then [Assign(sets, row, row, env.compute)] else [row]
    case Delete(w) => if Chosen(w, env, row) then [] else [row]
    case _ => [row]
  }

  function OnRows(st: Stmt, env: Env, rows: seq<Row>): seq<Row> {
    if rows == [] then [] else OnRow(st, env, rows[0]) + OnRows(st, env, rows[1..])
  }

  function RowsOf(names: seq<string>, values: seq<Items>, eval: Json -> Value): (r: seq<Row>)
    ensures |r| == |values| && forall i :: 0 <= i < |r| ==> r[i] == RowOf(names, values[i], eval)
  {
    if values == [] then [] else [RowOf(names, values[0], eval)] + RowsOf(names, values[1..], eval)
  }

  function Added(st: Stmt, env: Env): seq<Row> {
    if st.Insert? then RowsOf(st.names, st.values, env.eval) else []
  }

  /** The rows after the statement. */
  function Exec(st: Stmt, env: Env, rows: seq<Row>): seq<Row> {
    OnRows(st, env, rows) + Added(st, env)
  }

  /** The rows a SELECT returns. */
  function Reply(st: Stmt, env: Env, rows: seq<Row>): seq<Row> {
    if rows == [] then []
    else (if st.Select? && Chosen(st.where, env, rows[0]) then [rows[0]] else []) + Reply(st, env, rows[1..])
  }

  // ---------- Statements on a cluster ----------

  type Rows = seq<seq<Row>>

  predicate InRange(targets: seq<nat>, n: nat) {
    forall i :: 0 <= i < |targets| ==> targets[i] < n
  }

  function ExecOn(st: Stmt, env: Env, cl: Rows, targets: seq<nat>): (r: Rows)
    requires InRange(targets, |cl|)
    ensures |r| == |cl|
    decreases targets
  {
    if targets == [] then cl
    else ExecOn(st, env, cl[targets[0] := Exec(st, env, cl[targets[0]])], targets[1..])
  }

  function ReplyFrom(st: Stmt, env: Env, cl: Rows, targets: seq<nat>): seq<Row>
    requires InRange(targets, |cl|)
  {
    if targets == [] then [] else Reply(st, env, cl[targets[0]]) + ReplyFrom(st, env, cl, targets[1..])
  }

  /** All rows of the shards listed. */
  function Gather(cl: Rows, targets: seq<nat>): seq<Row>
    requires InRange(targets, |cl|)
  {
    if targets == [] then [] else cl[targets[0]] + Gather(cl, targets[1..])
  }

  // ---------- Placement ----------

  /** A sharded table: its rule, shard column included. */
  datatype Table = Table(m: Map, index: nat, column: string) {
    function Rule(): TableRule
      requires index < |m.rules|
    {
      m.rules[index]
    }

    predicate Valid() {
      && m.Valid() && index < |m.rules|
      && FindRuleSpec(m.rules, Rule().table) == Some(index)
      && !Rule().broadcast && Rule().column == Some(column)
      && Rule().shards != [] && Distinct(Rule().shards)
    }
  }

  function KeyShard(t: Table, v: Value): nat
    requires t.Valid()
  {
    match v
    case IntV(n) => ByNumber(t.m, t.Rule(), n % TWO64)
    case StrV(s) => ByNumber(t.m, t.Rule(), Poly(s) % TWO64)
  }

  predicate Home(t: Table, row: Row, s: nat)
    requires t.Valid()
  {
    t.column in row && KeyShard(t, row[t.column]) == s
  }

  predicate AllHome(t: Table, rows: seq<Row>, s: nat)
    requires t.Valid()
  {
    forall row :: row in rows ==> Home(t, row, s)
  }

  /** Every row is on the shard that the lookup gives for its key. */
  predicate Placed(t: Table, cl: Rows)
    requires t.Valid()
  {
    |cl| == |t.m.shards| && forall s :: 0 <= s < |cl| ==> AllHome(t, cl[s], s)
  }

  function RouteOf(t: Table, doc: Json): Decision
    requires t.Valid()
  {
    RouteDoc(t.m, doc)
  }

  // ---------- What the router does with a statement on the table ----------

  lemma StatementKinds()
    ensures StmtTypeOfKey("SelectStmt") == SELECT
    ensures StmtTypeOfKey("InsertStmt") == INSERT
    ensures StmtTypeOfKey("UpdateStmt") == UPDATE
    ensures StmtTypeOfKey("DeleteStmt") == DELETE
  {
    assert "InsertStmt"[0] != "SelectStmt"[0];
    assert "UpdateStmt"[0] != "SelectStmt"[0] && "UpdateStmt"[0] != "InsertStmt"[0];
    assert "DeleteStmt"[0] != "SelectStmt"[0] && "DeleteStmt"[0] != "InsertStmt"[0];
    assert "DeleteStmt"[0] != "UpdateStmt"[0];
  }

  function KindOf(st: Stmt): StmtType {
    match st
    case Select(_) => SELECT
    case Update(_, _) => UPDATE
    case Delete(_) => DELETE
    case Insert(_, _) => INSERT
  }

  lemma FromFound(s: Json, table: string, r: Parsed)
    requires FromIs(s, table)
    ensures FromTable(s, r).table == Some(table)
  {
    var from := Get(s, "fromClause").value;
    var node := from.items.value;
    assert Get(node, "RangeVar") == Some(node.members.value);
    assert Find(node, "RangeVar") == Some(node.members.value);
    assert Find(from, "RangeVar") == Some(node.members.value);
  }

  /** The parser sees the kind and the table; what it knows about the key comes from the WHERE alone. */
  lemma ParseSays(doc: Json, table: string, st: Stmt)
    requires Says(doc, table, st)
    ensures var p := ParseDoc(doc).1;
            && ParseDoc(doc).0 && p.stmt == KindOf(st) && p.table == Some(table)
            && (st.Insert? || st.where.None? ==> !p.found)
            && (!st.Insert? && st.where.Some? ==> exists r: Parsed :: !r.found && p == WhereKey(st.where.value, r))
  {
    StatementKinds();
    var stmt := StatementOf(doc).value;
    var s := stmt.members.value;
    assert Get(stmt, stmt.members.key) == Some(s);
    var r0 := BLANK.(tree := Some(Render(doc)), stmt := KindOf(st));
    if st.Select? {
      FromFound(s, table, r0);
      var r := FromTable(s, r0);
      assert ParseDoc(doc).1 == WhereOf(s, r);
    } else {
      var r := RelationTable(s, r0);
      assert ParseDoc(doc).1 == if st.Insert? then r else WhereOf(s, r);
    }
  }

  lemma TargetOfKey(t: Table, p: Parsed)
    requires t.Valid()
    ensures var q := Reported(p);
            KeyTarget(t.m, t.Rule(), p)
            == if q.Some? && q.value.0 == t.column then Some(KeyShard(t, q.value.1)) else None
  {
  }

  /** The decision about a statement on the table, given what the parser and the second pass report. */
  lemma DecisionOfKey(t: Table, doc: Json, p: Parsed, q: Parsed)
    requires t.Valid() && p.stmt in {SELECT, INSERT, UPDATE, DELETE} && p.table == Some(t.Rule().table)
    requires q == Refine(t.m, doc, p, t.Rule())
    ensures Decide(t.m, doc, p) == DecisionFor(t, Reported(q))
  {
    assert Decide(t.m, doc, p) == DecideBy(t.m, doc, p, t.index) == ByKey(t.m, t.index, q);
    ByKeyDecides(t, q);
  }

  lemma ByKeyDecides(t: Table, q: Parsed)
    requires t.Valid()
    ensures ByKey(t.m, t.index, q) == DecisionFor(t, Reported(q))
  {
    TargetOfKey(t, q);
  }

  function DecisionFor(t: Table, key: Option<(string, Value)>): Decision
    requires t.Valid()
  {
    if key.Some? && key.value.0 == t.column then Decision(SINGLE, [KeyShard(t, key.value.1)], Some(t.index))
    else Decision(SCATTER, t.Rule().shards, Some(t.index))
  }

  lemma DecisionShape(t: Table, key: Option<(string, Value)>)
    requires t.Valid()
    ensures var d := DecisionFor(t, key);
            && InRange(d.targets, |t.m.shards|)
            && ((d.route == SINGLE && |d.targets| == 1 && d.targets[0] in t.Rule().shards)
                || (d.route == SCATTER && d.targets == t.Rule().shards))
  {
    if key.Some? {
      LookupTotal(t.m, t.Rule(), match key.value.1 case IntV(n) => n % TWO64 case StrV(s) => Poly(s) % TWO64);
    }
  }

  lemma RouteShape(t: Table, doc: Json, st: Stmt)
    requires t.Valid() && Says(doc, t.Rule().table, st)
    ensures var d := RouteOf(t, doc);
            && InRange(d.targets, |t.m.shards|)
            && ((d.route == SINGLE && |d.targets| == 1 && d.targets[0] in t.Rule().shards)
                || (d.route == SCATTER && d.targets == t.Rule().shards))
  {
    ParseSays(doc, t.Rule().table, st);
    var p := ParseDoc(doc).1;
    var q := Refine(t.m, doc, p, t.Rule());
    DecisionOfKey(t, doc, p, q);
    DecisionShape(t, Reported(q));
  }

  lemma InsertFound(doc: Json, table: string, st: Stmt)
    requires Says(doc, table, st) && st.Insert?
    ensures InsertAt(doc).Some? && InsertAt(doc).value.Ok()
    ensures IsInsertOf(InsertAt(doc).value.v, st.names, st.values)
  {
    var stmt := StatementOf(doc).value;
    assert Get(stmt, "InsertStmt") == Some(stmt.members.value);
    assert InsertAt(doc).value.v == stmt.members.value;
  }

  lemma SecondPass(doc: Json, table: string, st: Stmt, c: string, p: Parsed, v: Value)
    requires Says(doc, table, st) && st.Insert? && p.stmt == INSERT && p.tree.Some? && !p.found
    requires c in st.names && st.values != []
    requires var item := Nth(st.values[0], IndexOf(st.names, c));
             item.Some? && PlainConst(item.value) == Some(v)
    ensures Reported(InsertParsed(doc, Some(c), p)) == if v == IntV(0) then None else Some((c, v))
  {
    InsertFound(doc, table, st);
    InsertExact(InsertAt(doc).value, st.names, st.values, c, p);
  }

  /** An INSERT whose key is a plain constant goes to the shard of that constant, unless it is 0. */
  lemma InsertRoute(t: Table, doc: Json, st: Stmt, v: Value)
    requires t.Valid() && Says(doc, t.Rule().table, st) && st.Insert?
    requires t.column in st.names && st.values != []
    requires var item := Nth(st.values[0], IndexOf(st.names, t.column));
             item.Some? && PlainConst(item.value) == Some(v)
    ensures RouteOf(t, doc) == if v == IntV(0) then Decision(SCATTER, t.Rule().shards, Some(t.index))
                               else Decision(SINGLE, [KeyShard(t, v)], Some(t.index))
  {
    ParseSays(doc, t.Rule().table, st);
    var p := ParseDoc(doc).1;
    var q := Refine(t.m, doc, p, t.Rule());
    DecisionOfKey(t, doc, p, q);
    SecondPass(doc, t.Rule().table, st, t.column, p, v);
  }

  // ---------- What the choice of one shard rests on ----------

  predicate Allows(c: Clause, column: string, v: Value) {
    forall q :: q in c && q.0 == column ==> q.1 == v
  }

  /** Every alternative of the condition that can be met leaves the shard column only values that live on the shard. */
  ghost predicate Confined(t: Table, w: Json, s: nat)
    requires t.Valid()
  {
    forall c, v :: c in Alternatives(w) && Consistent(c) && Allows(c, t.column, v) ==> KeyShard(t, v) == s
  }

  ghost predicate ConfinedTo(t: Table, st: Stmt, targets: seq<nat>)
    requires t.Valid() && !st.Insert?
  {
    st.where.Some? ==> forall s :: s in targets ==> Confined(t, st.where.value, s)
  }

  lemma ConfinedHome(t: Table, w: Json, s: nat, row: Row, env: Env)
    requires t.Valid() && Confined(t, w, s) && t.column in row && Sat(w, row, env.cond)
    ensures Home(t, row, s)
  {
    SatMeets(w, row, env.cond);
    var c :| c in Alternatives(w) && Meets(row, c);
    assert Consistent(c) && Allows(c, t.column, row[t.column]);
  }

  /** A statement with a condition goes to one shard only for a key that the parser reports. */
  lemma SingleKey(t: Table, doc: Json, st: Stmt) returns (r: Parsed)
    requires t.Valid() && Says(doc, t.Rule().table, st) && !st.Insert?
    requires RouteOf(t, doc).route == SINGLE
    ensures st.where.Some? && !r.found
    ensures var q := Reported(WhereKey(st.where.value, r));
            q.Some? && q.value.0 == t.column && RouteOf(t, doc).targets == [KeyShard(t, q.value.1)]
  {
    ParseSays(doc, t.Rule().table, st);
    var p := ParseDoc(doc).1;
    DecisionOfKey(t, doc, p, p);
    r :| !r.found && p == WhereKey(st.where.value, r);
  }

  lemma PlainKeyConfined(t: Table, w: Json, r: Parsed)
    requires t.Valid() && Plain(w) && !r.found
    requires var q := Reported(WhereKey(w, r)); q.Some? && q.value.0 == t.column
    ensures Confined(t, w, KeyShard(t, Reported(WhereKey(w, r)).value.1))
  {
    var q := Reported(WhereKey(w, r)).value;
    forall c, v | c in Alternatives(w) && Consistent(c) && Allows(c, t.column, v)
      ensures v == q.1
    {
      ReportedInAll(w, r, c);
    }
  }

  /** A nested AND that is sent to one shard is confined to it. */
  lemma PlainConfined(t: Table, doc: Json, st: Stmt)
    requires t.Valid() && Says(doc, t.Rule().table, st) && !st.Insert?
    requires RouteOf(t, doc).route == SINGLE && (st.where.Some? ==> Plain(st.where.value))
    ensures ConfinedTo(t, st, RouteOf(t, doc).targets)
  {
    var r := SingleKey(t, doc, st);
    PlainKeyConfined(t, st.where.value, r);
  }

  // ---------- What an UPDATE may do to the key ----------

  function WhereAlternatives(w: Option<Json>): set<Clause> {
    if w.None? then {{}} else Alternatives(w.value)
  }

  lemma ChosenMeets(w: Option<Json>, row: Row, env: Env)
    ensures Chosen(w, env, row) ==> MeetsOne(row, WhereAlternatives(w))
    ensures MeetsOne(row, WhereAlternatives(w)) && env.cond == Always ==> Chosen(w, env, row)
  {
    if w.Some? {
      SatMeets(w.value, row, env.cond);
    } else {
      assert {} in WhereAlternatives(w) && Meets(row, {});
    }
  }

  /**
   The shard column is not set; or every key that the condition leaves and that lives on one of the
   shards lives together with every value it may be set to.
   */
  ghost predicate SetsHome(t: Table, st: Stmt, targets: seq<nat>)
    requires t.Valid() && st.Update?
  {
    var item := SetItem(st.sets, t.column);
    item.Some? ==>
      forall c, u, v ::
        c in WhereAlternatives(st.where) && Consistent(c) && Allows(c, t.column, u) &&
        KeyShard(t, u) in targets && MaySet(item.value, v) ==>
          KeyShard(t, v) == KeyShard(t, u)
  }

  /** Such an UPDATE leaves every row it applies to where it is. */
  lemma SetRowStays(t: Table, st: Stmt, env: Env, targets: seq<nat>, row: Row, s: nat)
    requires t.Valid() && st.Update? && SetsHome(t, st, targets) && s in targets
    requires Home(t, row, s) && Chosen(st.where, env, row)
    ensures Home(t, Assign(st.sets, row, row, env.compute), s)
  {
    var item := SetItem(st.sets, t.column);
    AssignAt(st.sets, row, row, env.compute, t.column);
    if item.Some? {
      ChosenMeets(st.where, row, env);
      var c :| c in WhereAlternatives(st.where) && Meets(row, c);
      assert Consistent(c) && Allows(c, t.column, row[t.column]);
      assert MaySet(item.value, SetValue(item.value, row, env.compute));
    }
  }
}
