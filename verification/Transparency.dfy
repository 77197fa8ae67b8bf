/**
 The promise of README.md: queries are routed to the correct shard transparently. One statement on
 one shard does what it would do on all of them, placement is kept over every run, and every run
 on the cluster matches the same run on one unsharded table.
 */
module Transparency {
  import opened Wrappers
  import opened JsonText
  import opened ParseTree
  import opened Conditions
  import opened Inserts
  import opened Updates
  import opened ShardMap
  import opened Router
  import opened Cluster

  // ---------- Statements act row by row ----------

  lemma {:induction false} ReplyConcat(st: Stmt, env: Env, a: seq<Row>, b: seq<Row>)
    ensures Reply(st, env, a + b) == Reply(st, env, a) + Reply(st, env, b)
  {
    if a == [] {
      assert a + b == b;
    } else {
      assert (a + b)[1..] == a[1..] + b;
      ReplyConcat(st, env, a[1..], b);
      var first := if st.Select? && Chosen(st.where, env, a[0]) then [a[0]] else [];
      Assoc(first, Reply(st, env, a[1..]), Reply(st, env, b));
    }
  }

  lemma {:induction false} OnRowsConcat(st: Stmt, env: Env, a: seq<Row>, b: seq<Row>)
    ensures OnRows(st, env, a + b) == OnRows(st, env, a) + OnRows(st, env, b)
  {
    if a == [] {
      assert a + b == b;
    } else {
      assert (a + b)[1..] == a[1..] + b;
      OnRowsConcat(st, env, a[1..], b);
      Assoc(OnRow(st, env, a[0]), OnRows(st, env, a[1..]), OnRows(st, env, b));
    }
  }

  lemma Shuffle(f: seq<Row>, x: seq<Row>, b: seq<Row>)
    ensures multiset(f + (x + b)) == multiset(x) + multiset(f + b)
  {
  }

  /** Where a row stands does not matter. */
  lemma MoveToFront(st: Stmt, env: Env, front: seq<Row>, x: Row, back: seq<Row>)
    ensures multiset(OnRows(st, env, front + ([x] + back)))
         == multiset(OnRows(st, env, [x])) + multiset(OnRows(st, env, front + back))
    ensures multiset(Reply(st, env, front + ([x] + back)))
         == multiset(Reply(st, env, [x])) + multiset(Reply(st, env, front + back))
  {
    OnRowsConcat(st, env, front, back);
    OnRowsConcat(st, env, front, [x] + back);
    OnRowsConcat(st, env, [x], back);
    ReplyConcat(st, env, front, back);
    ReplyConcat(st, env, front, [x] + back);
    ReplyConcat(st, env, [x], back);
    Shuffle(OnRows(st, env, front), OnRows(st, env, [x]), OnRows(st, env, back));
    Shuffle(Reply(st, env, front), Reply(st, env, [x]), Reply(st, env, back));
  }

  lemma TakeOut(a: seq<Row>, b: seq<Row>) returns (front: seq<Row>, back: seq<Row>)
    requires a != [] && multiset(a) == multiset(b)
    ensures b == front + ([a[0]] + back)
    ensures multiset(a[1..]) == multiset(front + back)
  {
    assert a[0] in multiset(a);
    var i :| 0 <= i < |b| && b[i] == a[0];
    front, back := b[..i], b[i + 1..];
    Without(b, i);
    Without(a, 0);
    assert a[..0] + a[1..] == a[1..];
    assert multiset(a[1..]) == multiset(a) - multiset{a[0]};
    assert multiset(front + back) == multiset(b) - multiset{a[0]};
  }

  /** The effect of a statement on a table does not depend on the order of its rows. */
  lemma {:induction false} OrderFree(st: Stmt, env: Env, a: seq<Row>, b: seq<Row>)
    requires multiset(a) == multiset(b)
    ensures multiset(OnRows(st, env, a)) == multiset(OnRows(st, env, b))
    ensures multiset(Reply(st, env, a)) == multiset(Reply(st, env, b))
    decreases |a|
  {
    if a == [] {
      assert |multiset(b)| == 0;
    } else {
      var front, back := TakeOut(a, b);
      OrderFree(st, env, a[1..], front + back);
      MoveToFront(st, env, front, a[0], back);
      FirstApart(st, env, a);
    }
  }

  lemma FirstApart(st: Stmt, env: Env, a: seq<Row>)
    requires a != []
    ensures multiset(OnRows(st, env, a)) == multiset(OnRows(st, env, [a[0]])) + multiset(OnRows(st, env, a[1..]))
    ensures multiset(Reply(st, env, a)) == multiset(Reply(st, env, [a[0]])) + multiset(Reply(st, env, a[1..]))
  {
    assert a == [a[0]] + a[1..];
    OnRowsConcat(st, env, [a[0]], a[1..]);
    ReplyConcat(st, env, [a[0]], a[1..]);
  }

  lemma {:induction false} Untouched(st: Stmt, env: Env, rows: seq<Row>)
    requires !st.Insert? && forall row :: row in rows ==> !Chosen(st.where, env, row)
    ensures OnRows(st, env, rows) == rows && Reply(st, env, rows) == []
  {
    if rows != [] {
      assert rows[0] in rows;
      Untouched(st, env, rows[1..]);
    }
  }

  // ---------- One shard is as good as all of them ----------

  /** The statement run on every shard. */
  function OnAll(st: Stmt, env: Env, cl: Rows): (r: Rows)
    ensures |r| == |cl|
    ensures forall s :: 0 <= s < |cl| ==> r[s] == OnRows(st, env, cl[s])
  {
    seq(|cl|, s requires 0 <= s < |cl| => OnRows(st, env, cl[s]))
  }

  lemma {:induction false} ExecOnAt(st: Stmt, env: Env, cl: Rows, targets: seq<nat>, s: nat)
    requires InRange(targets, |cl|) && Distinct(targets) && s < |cl|
    ensures ExecOn(st, env, cl, targets)[s] == if s in targets then Exec(st, env, cl[s]) else cl[s]
    decreases targets
  {
    if targets != [] {
      ExecOnAt(st, env, cl[targets[0] := Exec(st, env, cl[targets[0]])], targets[1..], s);
    }
  }

  lemma HomeInRule(t: Table, row: Row, s: nat)
    requires t.Valid() && Home(t, row, s)
    ensures s in t.Rule().shards
  {
    var v := row[t.column];
    LookupTotal(t.m, t.Rule(), match v case IntV(n) => n % TWO64 case StrV(x) => Poly(x) % TWO64);
  }

  lemma OutsideEmpty(t: Table, cl: Rows, s: nat)
    requires t.Valid() && Placed(t, cl) && s < |cl| && s !in t.Rule().shards
    ensures cl[s] == []
  {
    if cl[s] != [] {
      assert cl[s][0] in cl[s];
      HomeInRule(t, cl[s][0], s);
    }
  }

  lemma ScatterIsAll(t: Table, st: Stmt, env: Env, cl: Rows)
    requires t.Valid() && Placed(t, cl) && !st.Insert?
    ensures InRange(t.Rule().shards, |cl|)
    ensures ExecOn(st, env, cl, t.Rule().shards) == OnAll(st, env, cl)
  {
    var targets := t.Rule().shards;
    assert t.m.TargetsOk(targets);
    forall s | 0 <= s < |cl|
      ensures ExecOn(st, env, cl, targets)[s] == OnRows(st, env, cl[s])
    {
      ExecOnAt(st, env, cl, targets, s);
      if s !in targets {
        OutsideEmpty(t, cl, s);
      }
    }
  }

  /** On a shard other than the one a SINGLE statement goes to, no row satisfies its condition. */
  lemma OthersUntouched(t: Table, doc: Json, st: Stmt, env: Env, cl: Rows, s: nat)
    requires t.Valid() && Placed(t, cl) && Says(doc, t.Rule().table, st) && !st.Insert?
    requires RouteOf(t, doc).route == SINGLE && ConfinedTo(t, st, RouteOf(t, doc).targets)
    requires s < |cl| && RouteOf(t, doc).targets != [s]
    ensures OnRows(st, env, cl[s]) == cl[s] && Reply(st, env, cl[s]) == []
  {
    RouteShape(t, doc, st);
    var _ := SingleKey(t, doc, st);
    var target := RouteOf(t, doc).targets[0];
    assert target in RouteOf(t, doc).targets && RouteOf(t, doc).targets == [target];
    forall row | row in cl[s]
      ensures !Chosen(st.where, env, row)
    {
      assert Home(t, row, s);
      if Chosen(st.where, env, row) {
        ConfinedHome(t, st.where.value, target, row, env);
      }
    }
    Untouched(st, env, cl[s]);
  }

  lemma SingleIsAll(t: Table, doc: Json, st: Stmt, env: Env, cl: Rows)
    requires t.Valid() && Placed(t, cl) && Says(doc, t.Rule().table, st) && !st.Insert?
    requires RouteOf(t, doc).route == SINGLE && ConfinedTo(t, st, RouteOf(t, doc).targets)
    ensures InRange(RouteOf(t, doc).targets, |cl|)
    ensures ExecOn(st, env, cl, RouteOf(t, doc).targets) == OnAll(st, env, cl)
  {
    RouteShape(t, doc, st);
    var targets := RouteOf(t, doc).targets;
    forall s | 0 <= s < |cl|
      ensures ExecOn(st, env, cl, targets)[s] == OnRows(st, env, cl[s])
    {
      ExecOnAt(st, env, cl, targets, s);
      if s != targets[0] {
        OthersUntouched(t, doc, st, env, cl, s);
      }
    }
  }

  // ---------- Answers ----------

  lemma {:induction false} ReplyGather(st: Stmt, env: Env, cl: Rows, targets: seq<nat>)
    requires InRange(targets, |cl|)
    ensures ReplyFrom(st, env, cl, targets) == Reply(st, env, Gather(cl, targets))
  {
    if targets != [] {
      ReplyGather(st, env, cl, targets[1..]);
      ReplyConcat(st, env, cl[targets[0]], Gather(cl, targets[1..]));
    }
  }

  lemma {:induction false} ReplyOne(st: Stmt, env: Env, cl: Rows, targets: seq<nat>, s: nat)
    requires InRange(targets, |cl|) && Distinct(targets) && s < |cl|
    requires forall i :: 0 <= i < |targets| && targets[i] != s ==> Reply(st, env, cl[targets[i]]) == []
    ensures ReplyFrom(st, env, cl, targets) == if s in targets then Reply(st, env, cl[s]) else []
  {
    if targets != [] {
      var rest := targets[1..];
      forall i | 0 <= i < |rest| && rest[i] != s
        ensures Reply(st, env, cl[rest[i]]) == []
      {
        assert targets[i + 1] == rest[i];
      }
      ReplyOne(st, env, cl, rest, s);
      var first := Reply(st, env, cl[targets[0]]);
      assert first + [] == first && [] + ReplyFrom(st, env, cl, rest) == ReplyFrom(st, env, cl, rest);
      assert targets[0] == s ==> s !in rest;
    }
  }

  /** The main equivalence: a statement routed to one shard changes and returns what it would on all shards. */
  lemma SingleEqualsScatter(t: Table, doc: Json, st: Stmt, env: Env, cl: Rows)
    requires t.Valid() && Placed(t, cl) && Says(doc, t.Rule().table, st) && !st.Insert?
    requires RouteOf(t, doc).route == SINGLE && ConfinedTo(t, st, RouteOf(t, doc).targets)
    ensures InRange(RouteOf(t, doc).targets, |cl|) && InRange(t.Rule().shards, |cl|)
    ensures ExecOn(st, env, cl, RouteOf(t, doc).targets) == ExecOn(st, env, cl, t.Rule().shards)
    ensures ReplyFrom(st, env, cl, RouteOf(t, doc).targets) == ReplyFrom(st, env, cl, t.Rule().shards)
  {
    ScatterIsAll(t, st, env, cl);
    SingleIsAll(t, doc, st, env, cl);
    RepliesAgree(t, doc, st, env, cl);
  }

  lemma RepliesAgree(t: Table, doc: Json, st: Stmt, env: Env, cl: Rows)
    requires t.Valid() && Placed(t, cl) && Says(doc, t.Rule().table, st) && !st.Insert?
    requires RouteOf(t, doc).route == SINGLE && ConfinedTo(t, st, RouteOf(t, doc).targets)
    requires InRange(RouteOf(t, doc).targets, |cl|) && InRange(t.Rule().shards, |cl|)
    ensures ReplyFrom(st, env, cl, RouteOf(t, doc).targets) == ReplyFrom(st, env, cl, t.Rule().shards)
  {
    RouteShape(t, doc, st);
    var targets, s := t.Rule().shards, RouteOf(t, doc).targets[0];
    forall i | 0 <= i < |targets| && targets[i] != s
      ensures Reply(st, env, cl[targets[i]]) == []
    {
      OthersUntouched(t, doc, st, env, cl, targets[i]);
    }
    OneReplies(st, env, cl, targets, s);
    assert RouteOf(t, doc).targets == [s];
  }

  lemma OneReplies(st: Stmt, env: Env, cl: Rows, targets: seq<nat>, s: nat)
    requires InRange(targets, |cl|) && Distinct(targets) && s in targets
    requires forall i :: 0 <= i < |targets| && targets[i] != s ==> Reply(st, env, cl[targets[i]]) == []
    ensures ReplyFrom(st, env, cl, [s]) == ReplyFrom(st, env, cl, targets)
  {
    ReplyOne(st, env, cl, targets, s);
    ReplyOne(st, env, cl, [s], s);
  }

  // ---------- Placement is kept ----------

  lemma {:induction false} RowsStayHome(t: Table, st: Stmt, env: Env, rows: seq<Row>, targets: seq<nat>, s: nat)
    requires t.Valid() && AllHome(t, rows, s) && s in targets
    requires st.Update? ==> SetsHome(t, st, targets)
    ensures AllHome(t, OnRows(st, env, rows), s)
  {
    if rows != [] {
      assert rows[0] in rows;
      if st.Update? && Chosen(st.where, env, rows[0]) {
        SetRowStays(t, st, env, targets, rows[0], s);
      }
      RowsStayHome(t, st, env, rows[1..], targets, s);
    }
  }

  /** Sent to any shards, a statement that adds no rows and moves none keeps every row on its own shard. */
  lemma ExecPlaced(t: Table, st: Stmt, env: Env, cl: Rows, targets: seq<nat>)
    requires t.Valid() && Placed(t, cl) && !st.Insert? && InRange(targets, |cl|) && Distinct(targets)
    requires st.Update? ==> SetsHome(t, st, targets)
    ensures Placed(t, ExecOn(st, env, cl, targets))
  {
    forall s | 0 <= s < |cl|
      ensures AllHome(t, ExecOn(st, env, cl, targets)[s], s)
    {
      ExecOnAt(st, env, cl, targets, s);
      if s in targets {
        RowsStayHome(t, st, env, cl[s], targets, s);
        assert Exec(st, env, cl[s]) == OnRows(st, env, cl[s]);
      }
    }
  }

  // ---------- INSERT ----------

  /** INSERT names the shard column and every row holds a plain constant there. */
  predicate KeyedInsert(t: Table, st: Stmt) {
    && st.Insert? && t.column in st.names && st.values != []
    && forall i :: 0 <= i < |st.values| ==> KeyItem(t, st, i).Some?
  }

  function KeyItem(t: Table, st: Stmt, i: nat): Option<Value>
    requires st.Insert? && t.column in st.names && i < |st.values|
  {
    var item := Nth(st.values[i], IndexOf(st.names, t.column));
    if item.Some? then PlainConst(item.value) else None
  }

  lemma AddedKey(t: Table, st: Stmt, env: Env, i: nat)
    requires KeyedInsert(t, st) && i < |st.values|
    ensures Has(Added(st, env)[i], t.column, KeyItem(t, st, i).value)
  {
    assert KeyItem(t, st, i).Some?;
    RowKey(st.names, st.values[i], env.eval, t.column);
  }

  lemma {:induction false} OnRowsInsert(st: Stmt, env: Env, rows: seq<Row>)
    requires st.Insert? || st.Select?
    ensures OnRows(st, env, rows) == rows
  {
    if rows != [] {
      OnRowsInsert(st, env, rows[1..]);
    }
  }

  /** All rows belong where the first one does. */
  predicate SameShard(t: Table, st: Stmt)
    requires t.Valid() && KeyedInsert(t, st)
  {
    forall i :: 0 <= i < |st.values| ==>
      KeyItem(t, st, i).Some? && KeyShard(t, KeyItem(t, st, i).value) == KeyShard(t, KeyItem(t, st, 0).value)
  }

  lemma AddedHome(t: Table, st: Stmt, env: Env, s: nat)
    requires t.Valid() && KeyedInsert(t, st)
    ensures AllHome(t, Added(st, env), s) <==>
            forall i :: 0 <= i < |st.values| ==> KeyItem(t, st, i).Some? && KeyShard(t, KeyItem(t, st, i).value) == s
  {
    var added := Added(st, env);
    forall i | 0 <= i < |st.values|
      ensures added[i] in added && Has(added[i], t.column, KeyItem(t, st, i).value)
    {
      AddedKey(t, st, env, i);
    }
    forall row | row in added
      ensures exists i :: 0 <= i < |st.values| && row == added[i]
    {
      var i :| 0 <= i < |added| && added[i] == row;
    }
  }

  lemma InsertAtHome(t: Table, st: Stmt, env: Env, cl: Rows, s: nat)
    requires t.Valid() && Placed(t, cl) && st.Insert? && s < |cl|
    ensures AllHome(t, Exec(st, env, cl[s]), s) <==> AllHome(t, Added(st, env), s)
  {
    OnRowsInsert(st, env, cl[s]);
    var after := Exec(st, env, cl[s]);
    assert after == cl[s] + Added(st, env);
  }

  ghost predicate KeepsPlaced(t: Table, st: Stmt, env: Env, cl: Rows, targets: seq<nat>)
    requires t.Valid()
  {
    InRange(targets, |cl|) && Placed(t, ExecOn(st, env, cl, targets))
  }

  lemma InsertPlacedAt(t: Table, st: Stmt, env: Env, cl: Rows, targets: seq<nat>)
    requires t.Valid() && Placed(t, cl) && st.Insert? && InRange(targets, |cl|) && Distinct(targets)
    ensures KeepsPlaced(t, st, env, cl, targets) <==> forall s :: s in targets ==> AllHome(t, Added(st, env), s)
  {
    var after := ExecOn(st, env, cl, targets);
    forall s | 0 <= s < |cl|
      ensures AllHome(t, after[s], s) <==> (s in targets ==> AllHome(t, Added(st, env), s))
    {
      ExecOnAt(st, env, cl, targets, s);
      InsertAtHome(t, st, env, cl, s);
    }
  }

  /**
   When an INSERT keeps placement. The first row's literal decides where all rows go, and a literal 0
   is not seen, which sends the rows to every shard of the rule.
   */
  lemma InsertPlacedExactly(t: Table, doc: Json, st: Stmt, env: Env, cl: Rows)
    requires t.Valid() && Placed(t, cl) && Says(doc, t.Rule().table, st) && KeyedInsert(t, st)
    ensures KeepsPlaced(t, st, env, cl, RouteOf(t, doc).targets)
            <==> (if KeyItem(t, st, 0).value == IntV(0) then |t.Rule().shards| == 1 else SameShard(t, st))
  {
    var v := KeyItem(t, st, 0).value;
    InsertRoute(t, doc, st, v);
    RouteShape(t, doc, st);
    var targets := RouteOf(t, doc).targets;
    InsertPlacedAt(t, st, env, cl, targets);
    if v != IntV(0) {
      AddedHome(t, st, env, targets[0]);
    } else {
      ZeroInsert(t, st, env, cl);
    }
  }

  lemma ZeroInsert(t: Table, st: Stmt, env: Env, cl: Rows)
    requires t.Valid() && Placed(t, cl) && KeyedInsert(t, st)
    ensures (forall s :: s in t.Rule().shards ==> AllHome(t, Added(st, env), s))
            <==> |t.Rule().shards| == 1
  {
    var targets := t.Rule().shards;
    if |targets| == 1 {
      forall s | s in targets
        ensures AllHome(t, Added(st, env), s)
      {
        OnlyHome(t, st, env, s);
      }
    } else {
      var added, a, b := Added(st, env), targets[0], targets[1];
      AddedKey(t, st, env, 0);
      assert added[0] in added;
      assert a in targets && b in targets && a != b;
      assert !(Home(t, added[0], a) && Home(t, added[0], b));
    }
  }

  lemma OnlyHome(t: Table, st: Stmt, env: Env, s: nat)
    requires t.Valid() && KeyedInsert(t, st) && t.Rule().shards == [s]
    ensures AllHome(t, Added(st, env), s)
  {
    var added := Added(st, env);
    forall row | row in added
      ensures Home(t, row, s)
    {
      var i :| 0 <= i < |added| && added[i] == row;
      AddedKey(t, st, env, i);
      HomeInRule(t, row, KeyShard(t, row[t.column]));
    }
  }

  // ---------- Whole runs ----------

  datatype Query = Query(doc: Json, st: Stmt, env: Env)

  /**
   What a client may send: a condition that keeps to the one shard chosen, rows that belong together,
   and keys set to nothing that lives elsewhere.
   */
  ghost predicate Admissible(t: Table, q: Query)
    requires t.Valid()
  {
    && Says(q.doc, t.Rule().table, q.st)
    && (q.st.Insert? ==> KeyedInsert(t, q.st) && KeyItem(t, q.st, 0).value != IntV(0) && SameShard(t, q.st))
    && (!q.st.Insert? && RouteOf(t, q.doc).route == SINGLE ==> ConfinedTo(t, q.st, RouteOf(t, q.doc).targets))
    && (q.st.Update? ==> SetsHome(t, q.st, RouteOf(t, q.doc).targets))
  }

  ghost predicate AllAdmissible(t: Table, qs: seq<Query>)
    requires t.Valid()
  {
    forall i :: 0 <= i < |qs| ==> Admissible(t, qs[i])
  }

  /** Sending the statement to the shards the router chose. */
  ghost function Step(t: Table, cl: Rows, q: Query): (r: Rows)
    requires t.Valid() && |cl| == |t.m.shards| && Admissible(t, q)
    ensures |r| == |cl|
  {
    RouteShape(t, q.doc, q.st);
    ExecOn(q.st, q.env, cl, RouteOf(t, q.doc).targets)
  }

  ghost function Answer(t: Table, cl: Rows, q: Query): seq<Row>
    requires t.Valid() && |cl| == |t.m.shards| && Admissible(t, q)
  {
    RouteShape(t, q.doc, q.st);
    ReplyFrom(q.st, q.env, cl, RouteOf(t, q.doc).targets)
  }

  ghost function Run(t: Table, cl: Rows, qs: seq<Query>): (r: Rows)
    requires t.Valid() && |cl| == |t.m.shards| && AllAdmissible(t, qs)
    ensures |r| == |cl|
    decreases qs
  {
    if qs == [] then cl else Run(t, Step(t, cl, qs[0]), qs[1..])
  }

  ghost function Answers(t: Table, cl: Rows, qs: seq<Query>): seq<multiset<Row>>
    requires t.Valid() && |cl| == |t.m.shards| && AllAdmissible(t, qs)
    decreases qs
  {
    if qs == [] then []
    else [multiset(Answer(t, cl, qs[0]))] + Answers(t, Step(t, cl, qs[0]), qs[1..])
  }

  /** The same run on one table. */
  function RunTable(rows: seq<Row>, qs: seq<Query>): seq<Row>
    decreases qs
  {
    if qs == [] then rows else RunTable(Exec(qs[0].st, qs[0].env, rows), qs[1..])
  }

  function TableAnswers(rows: seq<Row>, qs: seq<Query>): seq<multiset<Row>>
    decreases qs
  {
    if qs == [] then []
    else [multiset(Reply(qs[0].st, qs[0].env, rows))] + TableAnswers(Exec(qs[0].st, qs[0].env, rows), qs[1..])
  }

  /** The rows of the cluster are the rows of the table. */
  predicate Holds(t: Table, cl: Rows, rows: seq<Row>)
    requires t.Valid() && |cl| == |t.m.shards|
  {
    t.m.TargetsOk(t.Rule().shards) && multiset(Gather(cl, t.Rule().shards)) == multiset(rows)
  }

  lemma {:induction false} GatherOnAll(st: Stmt, env: Env, cl: Rows, targets: seq<nat>)
    requires InRange(targets, |cl|)
    ensures Gather(OnAll(st, env, cl), targets) == OnRows(st, env, Gather(cl, targets))
  {
    if targets != [] {
      GatherOnAll(st, env, cl, targets[1..]);
      OnRowsConcat(st, env, cl[targets[0]], Gather(cl, targets[1..]));
    }
  }

  lemma {:induction false} GatherUpdate(cl: Rows, targets: seq<nat>, s: nat, rows: seq<Row>)
    requires InRange(targets, |cl|) && Distinct(targets) && s < |cl|
    ensures var after := Gather(cl[s := cl[s] + rows], targets);
            multiset(after) == multiset(Gather(cl, targets)) + (if s in targets then multiset(rows) else multiset{})
  {
    if targets != [] {
      GatherUpdate(cl, targets[1..], s, rows);
    }
  }

  lemma StepWhere(t: Table, cl: Rows, q: Query)
    requires t.Valid() && Placed(t, cl) && Admissible(t, q) && !q.st.Insert?
    ensures Step(t, cl, q) == OnAll(q.st, q.env, cl) && Placed(t, Step(t, cl, q))
    ensures InRange(t.Rule().shards, |cl|)
    ensures Answer(t, cl, q) == Reply(q.st, q.env, Gather(cl, t.Rule().shards))
  {
    RouteShape(t, q.doc, q.st);
    ScatterIsAll(t, q.st, q.env, cl);
    ExecPlaced(t, q.st, q.env, cl, RouteOf(t, q.doc).targets);
    ReplyGather(q.st, q.env, cl, t.Rule().shards);
    if RouteOf(t, q.doc).route == SINGLE {
      SingleEqualsScatter(t, q.doc, q.st, q.env, cl);
    }
  }

  lemma OneTarget(st: Stmt, env: Env, cl: Rows, s: nat)
    requires st.Insert? && s < |cl|
    ensures ExecOn(st, env, cl, [s]) == cl[s := cl[s] + Added(st, env)]
    ensures ReplyFrom(st, env, cl, [s]) == []
  {
    OnRowsInsert(st, env, cl[s]);
    NoReply(st, env, cl[s]);
    assert [s][1..] == [];
  }

  lemma InsertStepIs(t: Table, cl: Rows, q: Query)
    requires t.Valid() && |cl| == |t.m.shards| && Admissible(t, q) && q.st.Insert?
    ensures var s := KeyShard(t, KeyItem(t, q.st, 0).value);
            && s < |cl| && s in t.Rule().shards
            && Step(t, cl, q) == cl[s := cl[s] + Added(q.st, q.env)]
            && Answer(t, cl, q) == []
  {
    var v := KeyItem(t, q.st, 0).value;
    RouteShape(t, q.doc, q.st);
    InsertRoute(t, q.doc, q.st, v);
    OneTarget(q.st, q.env, cl, KeyShard(t, v));
  }

  lemma StepInsert(t: Table, cl: Rows, q: Query)
    requires t.Valid() && Placed(t, cl) && Admissible(t, q) && q.st.Insert?
    ensures Placed(t, Step(t, cl, q)) && t.m.TargetsOk(t.Rule().shards)
    ensures multiset(Gather(Step(t, cl, q), t.Rule().shards))
         == multiset(Gather(cl, t.Rule().shards)) + multiset(Added(q.st, q.env))
    ensures Answer(t, cl, q) == []
  {
    InsertStepIs(t, cl, q);
    InsertPlacedExactly(t, q.doc, q.st, q.env, cl);
    assert t.m.TargetsOk(t.Rule().shards);
    GatherUpdate(cl, t.Rule().shards, KeyShard(t, KeyItem(t, q.st, 0).value), Added(q.st, q.env));
  }

  lemma {:induction false} NoReply(st: Stmt, env: Env, rows: seq<Row>)
    requires !st.Select?
    ensures Reply(st, env, rows) == []
  {
    if rows != [] {
      NoReply(st, env, rows[1..]);
    }
  }

  lemma StepRefinesInsert(t: Table, cl: Rows, rows: seq<Row>, q: Query)
    requires t.Valid() && Placed(t, cl) && Holds(t, cl, rows) && Admissible(t, q) && q.st.Insert?
    ensures Placed(t, Step(t, cl, q)) && Holds(t, Step(t, cl, q), Exec(q.st, q.env, rows))
    ensures multiset(Answer(t, cl, q)) == multiset(Reply(q.st, q.env, rows))
  {
    StepInsert(t, cl, q);
    OnRowsInsert(q.st, q.env, rows);
    NoReply(q.st, q.env, rows);
    assert Exec(q.st, q.env, rows) == rows + Added(q.st, q.env);
  }

  lemma StepRefinesWhere(t: Table, cl: Rows, rows: seq<Row>, q: Query)
    requires t.Valid() && Placed(t, cl) && Holds(t, cl, rows) && Admissible(t, q) && !q.st.Insert?
    ensures Placed(t, Step(t, cl, q)) && Holds(t, Step(t, cl, q), Exec(q.st, q.env, rows))
    ensures multiset(Answer(t, cl, q)) == multiset(Reply(q.st, q.env, rows))
  {
    StepWhere(t, cl, q);
    OrderFree(q.st, q.env, Gather(cl, t.Rule().shards), rows);
    GatherOnAll(q.st, q.env, cl, t.Rule().shards);
    assert Exec(q.st, q.env, rows) == OnRows(q.st, q.env, rows);
  }

  /** One statement on the cluster is the same statement on one table that holds the same rows. */
  lemma StepRefines(t: Table, cl: Rows, rows: seq<Row>, q: Query)
    requires t.Valid() && Placed(t, cl) && Holds(t, cl, rows) && Admissible(t, q)
    ensures Placed(t, Step(t, cl, q)) && Holds(t, Step(t, cl, q), Exec(q.st, q.env, rows))
    ensures multiset(Answer(t, cl, q)) == multiset(Reply(q.st, q.env, rows))
  {
    if q.st.Insert? {
      StepRefinesInsert(t, cl, rows, q);
    } else {
      StepRefinesWhere(t, cl, rows, q);
    }
  }

  /** Every run on the cluster is a run on one table: same rows, same answers, every row on its own shard. */
  lemma {:induction false} RunRefines(t: Table, cl: Rows, rows: seq<Row>, qs: seq<Query>)
    requires t.Valid() && Placed(t, cl) && Holds(t, cl, rows) && AllAdmissible(t, qs)
    ensures Placed(t, Run(t, cl, qs))
    ensures Holds(t, Run(t, cl, qs), RunTable(rows, qs))
    ensures Answers(t, cl, qs) == TableAnswers(rows, qs)
    decreases qs
  {
    if qs != [] {
      StepRefines(t, cl, rows, qs[0]);
      RunRefines(t, Step(t, cl, qs[0]), Exec(qs[0].st, qs[0].env, rows), qs[1..]);
    }
  }
}
