/** Which route a statement gets by its kind, for every document whose root is such a node. */
module Kinds {
  import opened Wrappers
  import opened JsonText
  import opened JsonScan
  import opened ParseTree
  import opened ShardMap
  import opened Router
  import opened Proxy
  import opened Queries
  import opened Trees

  /** The statement of the document is a node with this name. */
  predicate Root(doc: Json, key: string) {
    var stmt := StatementOf(doc);
    stmt.Some? && stmt.value.Obj? && stmt.value.members.Member? && stmt.value.members.key == key
  }

  // ---------- Names of kinds ----------

  lemma LocalKinds()
    ensures StmtTypeOfKey("TransactionStmt") == TRANSACTION
    ensures StmtTypeOfKey("VariableSetStmt") == SET && StmtTypeOfKey("VariableShowStmt") == SHOW
    ensures StmtTypeOfKey("DiscardStmt") == DISCARD && StmtTypeOfKey("CopyStmt") == COPY
  {
    NotDml("TransactionStmt");
    NotDml("VariableSetStmt");
    NotDml("VariableShowStmt");
    NotDml("DiscardStmt");
    NotDml("CopyStmt");
    assert "VariableSetStmt"[0] != "TransactionStmt"[0] && "VariableShowStmt"[0] != "TransactionStmt"[0];
    assert |"VariableSetStmt"| != |"VariableShowStmt"|;
    assert "DiscardStmt"[0] != "TransactionStmt"[0] && "DiscardStmt"[0] != "VariableSetStmt"[0];
    assert "DiscardStmt"[0] != "VariableShowStmt"[0];
    assert "CopyStmt"[0] != "TransactionStmt"[0] && "CopyStmt"[0] != "VariableSetStmt"[0];
    assert "CopyStmt"[0] != "VariableShowStmt"[0] && "CopyStmt"[0] != "DiscardStmt"[0];
  }

  /** Four names of ten characters. */
  lemma NotDml(k: string)
    requires |k| != 10
    ensures k != "SelectStmt" && k != "InsertStmt" && k != "UpdateStmt" && k != "DeleteStmt"
  {
    assert |"SelectStmt"| == 10 && |"InsertStmt"| == 10 && |"UpdateStmt"| == 10 && |"DeleteStmt"| == 10;
  }

  /** A table of eleven kinds of DDL, and nothing else, is DDL. */
  lemma DdlExactly(k: string)
    ensures StmtTypeOfKey(k) == DDL <==>
            k in {"CreateStmt", "AlterTableStmt", "DropStmt", "IndexStmt", "CreateSchemaStmt", "ViewStmt",
                  "CreateFunctionStmt", "TruncateStmt", "RenameStmt", "CreateSeqStmt", "AlterSeqStmt"}
  {
    if k in DDL_NODES {
      DdlNames(k);
    }
    assert DDL_NODES[0] == "CreateStmt" && DDL_NODES[1] == "AlterTableStmt" && DDL_NODES[2] == "DropStmt";
    assert DDL_NODES[3] == "IndexStmt" && DDL_NODES[4] == "CreateSchemaStmt" && DDL_NODES[5] == "ViewStmt";
    assert DDL_NODES[6] == "CreateFunctionStmt" && DDL_NODES[7] == "TruncateStmt" && DDL_NODES[8] == "RenameStmt";
    assert DDL_NODES[9] == "CreateSeqStmt" && DDL_NODES[10] == "AlterSeqStmt";
  }

  /** No kind of DDL has the name of another kind. */
  lemma DdlNames(k: string)
    requires k in DDL_NODES
    ensures k !in {"SelectStmt", "InsertStmt", "UpdateStmt", "DeleteStmt"}
    ensures k !in {"TransactionStmt", "VariableSetStmt", "VariableShowStmt", "DiscardStmt", "CopyStmt"}
  {
    var i :| 0 <= i < |DDL_NODES| && DDL_NODES[i] == k;
    assert |k| == 10 ==> k == "CreateStmt" || k == "RenameStmt";
    assert |k| == 8 ==> k == "DropStmt" || k == "ViewStmt";
    assert "CreateStmt"[0] == 'C' && "RenameStmt"[0] == 'R' && "DropStmt"[0] == 'D' && "ViewStmt"[0] == 'V';
    assert |k| == 15 ==> false;
    assert |k| == 16 ==> k == "CreateSchemaStmt";
    assert |k| == 11 ==> false;
  }

  // ---------- Routes ----------

  lemma RootParsed(doc: Json, key: string)
    requires Root(doc, key)
    ensures ParseDoc(doc).0 && ParseDoc(doc).1.stmt == StmtTypeOfKey(key)
  {
  }

  /** SET, SHOW and DISCARD are answered by the proxy. */
  lemma LocalRoute(m: Map, doc: Json, key: string)
    requires m.Valid() && Root(doc, key) && key in {"VariableSetStmt", "VariableShowStmt", "DiscardStmt"}
    ensures RouteDoc(m, doc) == Decision(LOCAL, [], None)
  {
    LocalKinds();
    RootParsed(doc, key);
  }

  /** BEGIN, COMMIT and ROLLBACK go to the default backend, and so does COPY, whatever its table. */
  lemma DefaultRoute(m: Map, doc: Json, key: string)
    requires m.Valid() && Root(doc, key) && key in {"TransactionStmt", "CopyStmt"}
    ensures RouteDoc(m, doc) == Decision(DEFAULT, [], None)
  {
    LocalKinds();
    RootParsed(doc, key);
  }

  /** DDL goes to all shards of the rule for the first table name in it, and without one to the default backend. */
  lemma DdlRoute(m: Map, doc: Json, key: string)
    requires m.Valid() && Root(doc, key) && StmtTypeOfKey(key) == DDL
    ensures var rel := Find(StatementOf(doc).value, "relname");
            var i := if rel.None? || StringOf(rel.value).None? then None else FindRuleSpec(m.rules, StringOf(rel.value).value);
            RouteDoc(m, doc) == if i.None? then Decision(DEFAULT, [], None)
                                else Decision(SCATTER, m.rules[i.value].shards, i)
  {
  }

  /** Any other statement goes to the default backend. */
  lemma OtherRoute(m: Map, doc: Json, key: string)
    requires m.Valid() && Root(doc, key) && StmtTypeOfKey(key) == UNKNOWN
    ensures RouteDoc(m, doc) == Decision(DEFAULT, [], None)
  {
  }

  // ---------- Plans ----------

  /** What is done with each kind of route: one shard, all of them, an answer at once, the default backend. */
  lemma PlanExactly(m: Map, doc: Json)
    requires m.Valid() && m.shards != [] && ParseDoc(doc).0
    ensures var d, plan := RouteDoc(m, doc), PlanOf(m, Some(doc));
            && (d.route == SINGLE ==> plan == ToShard(d.targets[0])) && (d.route == SCATTER ==> plan == ToAll(d.targets))
            && (d.route == LOCAL ==> plan == Local) && (d.route == DEFAULT ==> plan == ToDefault)
  {
  }

  // ---------- Documents ----------

  /** BEGIN */
  const BEGIN: Json := Document(Node("TransactionStmt", Node("kind", Str("TRANS_STMT_BEGIN"))))

  /** A document of one node. */
  lemma NodeIsRoot(key: string, v: Json)
    requires CleanKey(key) && WF(v)
    ensures WF(Document(Node(key, v))) && Root(Document(Node(key, v)), key)
    ensures StatementOf(Document(Node(key, v))) == Some(Node(key, v))
  {
    NodeSays(key, v);
    DocumentSays(Node(key, v));
  }

  lemma BeginClean()
    ensures CleanKey("TransactionStmt") && CleanKey("kind") && CleanKey("TRANS_STMT_BEGIN")
  {
  }

  /** It goes to the default backend, with any shards. */
  lemma BeginGoesToDefault(m: Map)
    requires m.Valid() && m.shards != []
    ensures WF(BEGIN) && PlanOf(m, Some(BEGIN)) == ToDefault
  {
    BeginClean();
    TextWF("TRANS_STMT_BEGIN");
    NodeSays("kind", Str("TRANS_STMT_BEGIN"));
    NodeIsRoot("TransactionStmt", Node("kind", Str("TRANS_STMT_BEGIN")));
    DefaultRoute(m, BEGIN, "TransactionStmt");
    RootParsed(BEGIN, "TransactionStmt");
    PlanExactly(m, BEGIN);
  }

  /** DROP TABLE names its table without a relname. */
  function DropFields(table: string): seq<(string, Json)> {
    [("objects", One(Node("List", Node("items", StringTree(table))))), ("removeType", Str("OBJECT_TABLE")),
     ("behavior", Str("DROP_RESTRICT"))]
  }

  lemma NoRelname(table: string)
    ensures Find(Node("DropStmt", Record(DropFields(table))), "relname").None?
  {
    NoRelnameInside(table);
    assert "objects"[0] != "relname"[0] && "removeType"[2] != "relname"[2] && "behavior"[0] != "relname"[0];
    assert Find(Str("OBJECT_TABLE"), "relname") == None && Find(Str("DROP_RESTRICT"), "relname") == None;
    NotFoundIn(DropFields(table), "relname");
    assert "DropStmt"[0] != "relname"[0];
    NotFoundInNode("DropStmt", Record(DropFields(table)), "relname");
  }

  lemma NoRelnameInside(table: string)
    ensures Find(One(Node("List", Node("items", StringTree(table)))), "relname").None?
  {
    assert "sval"[0] != "relname"[0] && "String"[0] != "relname"[0] && "items"[0] != "relname"[0] && "List"[0] != "relname"[0];
    assert Find(Str(table), "relname") == None;
    NotFoundInNode("sval", Str(table), "relname");
    NotFoundInNode("String", Node("sval", Str(table)), "relname");
    NotFoundInNode("items", StringTree(table), "relname");
    NotFoundInNode("List", Node("items", StringTree(table)), "relname");
  }

  lemma DropClean()
    ensures CleanKey("DropStmt") && CleanKey("objects") && CleanKey("removeType") && CleanKey("behavior")
  {
  }

  lemma DropWords()
    ensures CleanKey("OBJECT_TABLE") && CleanKey("DROP_RESTRICT") && CleanKey("List") && CleanKey("items")
  {
  }

  lemma DropWF(table: string)
    requires CleanKey(table)
    ensures WF(Record(DropFields(table)))
  {
    DropClean();
    DropWords();
    PlainText(table);
    StringTreeWF(table);
    NodeSays("items", StringTree(table));
    NodeSays("List", Node("items", StringTree(table)));
    NodeSays("List", Node("List", Node("items", StringTree(table))));
    TextWF("OBJECT_TABLE");
    TextWF("DROP_RESTRICT");
    ThreeWF(["objects", "removeType", "behavior"], One(Node("List", Node("items", StringTree(table)))),
            Str("OBJECT_TABLE"), Str("DROP_RESTRICT"));
  }

  /** DROP TABLE of any table reaches no shard: it goes to the default backend, with any rules. */
  lemma DropReachesNoShard(m: Map, table: string)
    requires m.Valid() && CleanKey(table)
    ensures var doc := Document(Node("DropStmt", Record(DropFields(table))));
            WF(doc) && RouteDoc(m, doc) == Decision(DEFAULT, [], None)
  {
    var v := Record(DropFields(table));
    DropClean();
    DropWF(table);
    NodeIsRoot("DropStmt", v);
    NoRelname(table);
    DdlExactly("DropStmt");
    DdlRoute(m, Document(Node("DropStmt", v)), "DropStmt");
  }
}
