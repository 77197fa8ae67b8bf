/**
 Where the promise of transparent routing ends. The router trusts a key that the condition need not
 imply and an INSERT literal that need not be the value stored; here is exactly when that is harmless,
 with inputs for which it is not.
 */
module Limits {
  import opened Wrappers
  import opened JsonText
  import opened JsonScan
  import opened ParseTree
  import opened Conditions
  import opened Inserts
  import opened Updates
  import opened ShardMap
  import opened Router
  import opened Cluster
  import opened Transparency

  // ---------- Conditions ----------

  function Empty(n: nat): (cl: Rows)
    ensures |cl| == n && forall s :: 0 <= s < n ==> cl[s] == []
  {
    if n == 0 then [] else Empty(n - 1) + [[]]
  }

  /** A cluster whose only row is on the given shard. */
  function OneRow(n: nat, s: nat, row: Row): (cl: Rows)
    requires s < n
    ensures |cl| == n && cl[s] == [row] && forall i :: 0 <= i < n && i != s ==> cl[i] == []
  {
    Empty(n)[s := [row]]
  }

  function Zero(j: Json): Value { IntV(0) }

  function ZeroFor(j: Json, row: Row): Value { IntV(0) }

  const ANYTHING := Env(Always, ZeroFor, Zero)

  ghost predicate AnswersAgree(t: Table, st: Stmt, s: nat, env: Env, cl: Rows)
    requires t.Valid() && |cl| == |t.m.shards| && s < |cl|
  {
    t.m.TargetsOk(t.Rule().shards) && ReplyFrom(st, env, cl, [s]) == ReplyFrom(st, env, cl, t.Rule().shards)
  }

  lemma OneRowPlaced(t: Table, row: Row, s: nat)
    requires t.Valid() && Home(t, row, s)
    ensures s in t.Rule().shards && s < |t.m.shards| && Placed(t, OneRow(|t.m.shards|, s, row))
  {
    HomeInRule(t, row, s);
    assert t.m.TargetsOk(t.Rule().shards);
  }

  lemma OneRowReplies(st: Stmt, env: Env, targets: seq<nat>, n: nat, s: nat, row: Row)
    requires InRange(targets, n) && Distinct(targets) && s < n && st.Select? && Chosen(st.where, env, row)
    ensures ReplyFrom(st, env, OneRow(n, s, row), targets) == if s in targets then [row] else []
  {
    var cl := OneRow(n, s, row);
    ReplyOne(st, env, cl, targets, s);
    assert Reply(st, env, cl[s]) == [row];
  }

  lemma MissedOneRow(t: Table, st: Stmt, s: nat, row: Row)
    requires t.Valid() && s < |t.m.shards| && st.Select? && Chosen(st.where, ANYTHING, row)
    requires t.column in row && KeyShard(t, row[t.column]) != s
    ensures exists cl: Rows :: Placed(t, cl) && !AnswersAgree(t, st, s, ANYTHING, cl)
  {
    var home, n := KeyShard(t, row[t.column]), |t.m.shards|;
    OneRowPlaced(t, row, home);
    assert t.m.TargetsOk(t.Rule().shards);
    OneRowReplies(st, ANYTHING, t.Rule().shards, n, home, row);
    OneRowReplies(st, ANYTHING, [s], n, home, row);
    assert !AnswersAgree(t, st, s, ANYTHING, OneRow(n, home, row));
  }

  /** A row that the condition selects but that lives elsewhere is missed. */
  lemma MissedRow(t: Table, w: Json, s: nat, c: Clause, v: Value)
    requires t.Valid() && s < |t.m.shards|
    requires c in Alternatives(w) && Consistent(c) && Allows(c, t.column, v) && KeyShard(t, v) != s
    ensures exists cl: Rows :: Placed(t, cl) && !AnswersAgree(t, Select(Some(w)), s, ANYTHING, cl)
  {
    var row := RowFor(c)[t.column := v];
    StillMeets(c, t.column, v);
    assert MeetsOne(row, Alternatives(w));
    SatMeets(w, row, Always);
    MissedOneRow(t, Select(Some(w)), s, row);
  }

  lemma StillMeets(c: Clause, column: string, v: Value)
    requires Consistent(c) && Allows(c, column, v)
    ensures Meets(RowFor(c)[column := v], c)
  {
  }

  /**
   A SELECT sent to one shard gets the answer of all shards, whatever the rows and whatever its other
   conditions mean, if and only if its condition is confined to that shard.
   */
  lemma SelectTransparentExactly(t: Table, doc: Json, w: Json, s: nat)
    requires t.Valid() && Says(doc, t.Rule().table, Select(Some(w)))
    requires RouteOf(t, doc).route == SINGLE && RouteOf(t, doc).targets == [s]
    ensures s < |t.m.shards|
    ensures (forall env, cl :: Placed(t, cl) ==> AnswersAgree(t, Select(Some(w)), s, env, cl)) <==> Confined(t, w, s)
  {
    var st := Select(Some(w));
    RouteShape(t, doc, st);
    if Confined(t, w, s) {
      forall env, cl | Placed(t, cl)
        ensures AnswersAgree(t, st, s, env, cl)
      {
        SingleEqualsScatter(t, doc, st, env, cl);
      }
    } else {
      var c, v :| c in Alternatives(w) && Consistent(c) && Allows(c, t.column, v) && KeyShard(t, v) != s;
      MissedRow(t, w, s, c, v);
    }
  }

  // ---------- INSERT ----------

  /** Whatever the row stores under the shard column lives on the shard; a computed value may be anything. */
  ghost predicate RowConfined(t: Table, st: Stmt, i: nat, s: nat)
    requires t.Valid() && st.Insert? && t.column in st.names && i < |st.values|
  {
    var item := Nth(st.values[i], IndexOf(st.names, t.column));
    item.Some? && forall v :: (PlainConst(item.value).None? || PlainConst(item.value) == Some(v)) ==> KeyShard(t, v) == s
  }

  /** The constant the second pass finds, possibly inside an expression. */
  function SeenKey(t: Table, st: Stmt): Option<(string, Value)>
    requires st.Insert? && t.column in st.names && st.values != []
  {
    var k := ValueKey(st.values[0], IndexOf(st.names, t.column));
    if k.Some? && ValueOfKey(k.value).Some? then Some((t.column, ValueOfKey(k.value).value)) else None
  }

  lemma InsertSees(ins: At, names: seq<string>, rows: seq<Items>, c: string, r: Parsed)
    requires ins.Ok() && IsInsertOf(ins.v, names, rows) && c in names && rows != [] && !r.found && r.column.None?
    ensures var k := ValueKey(rows[0], IndexOf(names, c));
            Reported(InsertKey(ins, c, r))
            == if k.Some? && ValueOfKey(k.value).Some? then Some((c, ValueOfKey(k.value).value)) else None
  {
    PositionExact(ins, names, rows, c);
    FirstRowFound(ins.v, names, rows);
  }

  lemma InsertRouteSeen(t: Table, doc: Json, st: Stmt)
    requires t.Valid() && Says(doc, t.Rule().table, st) && st.Insert? && t.column in st.names && st.values != []
    ensures RouteOf(t, doc) == DecisionFor(t, SeenKey(t, st))
  {
    ParseSays(doc, t.Rule().table, st);
    InsertBlank(doc, t.Rule().table, st);
    var p := ParseDoc(doc).1;
    DecisionOfKey(t, doc, p, Refine(t.m, doc, p, t.Rule()));
    SecondPassSees(doc, t, st, p);
  }

  lemma SecondPassSees(doc: Json, t: Table, st: Stmt, p: Parsed)
    requires t.Valid() && Says(doc, t.Rule().table, st) && st.Insert? && t.column in st.names && st.values != []
    requires p.stmt == INSERT && p.tree.Some? && !p.found && p.column.None?
    ensures Reported(InsertParsed(doc, Some(t.column), p)) == SeenKey(t, st)
  {
    InsertFound(doc, t.Rule().table, st);
    InsertSees(InsertAt(doc).value, st.names, st.values, t.column, p);
  }

  lemma InsertBlank(doc: Json, table: string, st: Stmt)
    requires Says(doc, table, st) && st.Insert?
    ensures ParseDoc(doc).1.column.None? && ParseDoc(doc).1.tree.Some?
  {
    StatementKinds();
  }

  function Const(v: Value): Json -> Value {
    j => v
  }

  lemma RowsConfined(t: Table, st: Stmt, s: nat)
    requires t.Valid() && st.Insert? && t.column in st.names
    ensures (forall env :: AllHome(t, Added(st, env), s)) <==>
            (forall i :: 0 <= i < |st.values| ==> RowConfined(t, st, i, s))
  {
    if forall i :: 0 <= i < |st.values| ==> RowConfined(t, st, i, s) {
      forall env, row | row in Added(st, env)
        ensures Home(t, row, s)
      {
        var i :| 0 <= i < |st.values| && Added(st, env)[i] == row;
        assert RowConfined(t, st, i, s);
        RowKey(st.names, st.values[i], env.eval, t.column);
      }
    }
    if forall env :: AllHome(t, Added(st, env), s) {
      forall i | 0 <= i < |st.values|
        ensures RowConfined(t, st, i, s)
      {
        RowMustBeConfined(t, st, i, s);
      }
    }
  }

  lemma {:induction false} NoKey(names: seq<string>, values: Items, eval: Json -> Value, c: string)
    requires c in names && Nth(values, IndexOf(names, c)).None?
    ensures c !in RowOf(names, values, eval)
  {
    if names[0] != c && values.Item? {
      NoKey(names[1..], values.more, eval, c);
    }
  }

  lemma RowMustBeConfined(t: Table, st: Stmt, i: nat, s: nat)
    requires t.Valid() && st.Insert? && t.column in st.names && i < |st.values|
    requires forall env :: AllHome(t, Added(st, env), s)
    ensures RowConfined(t, st, i, s)
  {
    var item := Nth(st.values[i], IndexOf(st.names, t.column));
    if item.None? {
      assert AllHome(t, Added(st, ANYTHING), s);
      assert Home(t, Added(st, ANYTHING)[i], s);
      NoKey(st.names, st.values[i], ANYTHING.eval, t.column);
    } else {
      forall v | PlainConst(item.value).None? || PlainConst(item.value) == Some(v)
        ensures KeyShard(t, v) == s
      {
        var env := ANYTHING.(eval := Const(v));
        assert AllHome(t, Added(st, env), s);
        assert Home(t, Added(st, env)[i], s);
        RowKey(st.names, st.values[i], env.eval, t.column);
      }
    }
  }

  /**
   An INSERT that names the shard column keeps every row on its own shard, whatever its expressions
   evaluate to, if and only if each row is confined to each shard it is sent to. The shards are those
   of the first constant found under the column in the first row, so `VALUES (1 + 1)` goes where 1 lives.
   */
  lemma InsertAlwaysPlacedExactly(t: Table, doc: Json, st: Stmt)
    requires t.Valid() && Says(doc, t.Rule().table, st) && st.Insert? && t.column in st.names && st.values != []
    ensures var targets := DecisionFor(t, SeenKey(t, st)).targets;
            && RouteOf(t, doc).targets == targets
            && ((forall env, cl :: Placed(t, cl) ==> KeepsPlaced(t, st, env, cl, targets))
                <==> forall s, i :: s in targets && 0 <= i < |st.values| ==> RowConfined(t, st, i, s))
  {
    InsertRouteSeen(t, doc, st);
    DecisionShape(t, SeenKey(t, st));
    KeptWhenConfined(t, st, DecisionFor(t, SeenKey(t, st)).targets);
  }

  lemma KeptWhenConfined(t: Table, st: Stmt, targets: seq<nat>)
    requires t.Valid() && st.Insert? && t.column in st.names && InRange(targets, |t.m.shards|) && Distinct(targets)
    ensures (forall env, cl :: Placed(t, cl) ==> KeepsPlaced(t, st, env, cl, targets))
            <==> forall s, i :: s in targets && 0 <= i < |st.values| ==> RowConfined(t, st, i, s)
  {
    KeptExactly(t, st, targets);
    forall s | s in targets
      ensures (forall env :: AllHome(t, Added(st, env), s)) <==>
              (forall i :: 0 <= i < |st.values| ==> RowConfined(t, st, i, s))
    {
      RowsConfined(t, st, s);
    }
  }

  lemma KeptExactly(t: Table, st: Stmt, targets: seq<nat>)
    requires t.Valid() && st.Insert? && InRange(targets, |t.m.shards|) && Distinct(targets)
    ensures (forall env, cl :: Placed(t, cl) ==> KeepsPlaced(t, st, env, cl, targets))
            <==> forall s, env :: s in targets ==> AllHome(t, Added(st, env), s)
  {
    var empty := Empty(|t.m.shards|);
    assert Placed(t, empty);
    forall env, cl | Placed(t, cl)
      ensures KeepsPlaced(t, st, env, cl, targets) <==> forall s :: s in targets ==> AllHome(t, Added(st, env), s)
    {
      InsertPlacedAt(t, st, env, cl, targets);
    }
    if forall env, cl :: Placed(t, cl) ==> KeepsPlaced(t, st, env, cl, targets) {
      forall s, env | s in targets
        ensures AllHome(t, Added(st, env), s)
      {
        assert KeepsPlaced(t, st, env, empty, targets);
      }
    }
  }

  // ---------- UPDATE ----------

  function Setting(v: Value): (Json, Row) -> Value {
    (j, row) => v
  }

  lemma OneRowUpdated(st: Stmt, env: Env, row: Row)
    requires st.Update? && Chosen(st.where, env, row)
    ensures OnRows(st, env, [row]) == [Assign(st.sets, row, row, env.compute)]
  {
    assert [row][1..] == [];
  }

  /** What a kept placement says about one row. */
  lemma KeptRow(t: Table, st: Stmt, env: Env, row: Row, s: nat, targets: seq<nat>)
    requires t.Valid() && st.Update? && InRange(targets, |t.m.shards|) && Distinct(targets) && s in targets
    requires Home(t, row, s) && Chosen(st.where, env, row)
    requires forall cl :: Placed(t, cl) ==> KeepsPlaced(t, st, env, cl, targets)
    ensures Home(t, Assign(st.sets, row, row, env.compute), s)
  {
    OneRowPlaced(t, row, s);
    var cl := OneRow(|t.m.shards|, s, row);
    assert KeepsPlaced(t, st, env, cl, targets);
    ExecOnAt(st, env, cl, targets, s);
    OneRowUpdated(st, env, row);
    assert AllHome(t, ExecOn(st, env, cl, targets)[s], s);
    assert Assign(st.sets, row, row, env.compute) in ExecOn(st, env, cl, targets)[s];
  }

  lemma KeptKey(t: Table, st: Stmt, targets: seq<nat>, c: Clause, u: Value, v: Value)
    requires t.Valid() && st.Update? && InRange(targets, |t.m.shards|) && Distinct(targets)
    requires forall env, cl :: Placed(t, cl) ==> KeepsPlaced(t, st, env, cl, targets)
    requires c in WhereAlternatives(st.where) && Consistent(c) && Allows(c, t.column, u) && KeyShard(t, u) in targets
    requires SetItem(st.sets, t.column).Some? && MaySet(SetItem(st.sets, t.column).value, v)
    ensures KeyShard(t, v) == KeyShard(t, u)
  {
    var row, env := RowFor(c)[t.column := u], ANYTHING.(compute := Setting(v));
    StillMeets(c, t.column, u);
    assert MeetsOne(row, WhereAlternatives(st.where));
    ChosenMeets(st.where, row, env);
    KeptRow(t, st, env, row, KeyShard(t, u), targets);
    AssignAt(st.sets, row, row, env.compute, t.column);
  }

  /**
   An UPDATE sent to some shards keeps every row on its own one, whatever the rows, its other
   conditions and its computed values, if and only if it sets the shard column to nothing that lives elsewhere.
   */
  lemma UpdateKeptExactly(t: Table, st: Stmt, targets: seq<nat>)
    requires t.Valid() && st.Update? && InRange(targets, |t.m.shards|) && Distinct(targets)
    ensures (forall env, cl :: Placed(t, cl) ==> KeepsPlaced(t, st, env, cl, targets)) <==> SetsHome(t, st, targets)
  {
    if SetsHome(t, st, targets) {
      forall env, cl | Placed(t, cl)
        ensures KeepsPlaced(t, st, env, cl, targets)
      {
        ExecPlaced(t, st, env, cl, targets);
      }
    }
    if forall env, cl :: Placed(t, cl) ==> KeepsPlaced(t, st, env, cl, targets) {
      var item := SetItem(st.sets, t.column);
      forall c, u, v |
        item.Some? && c in WhereAlternatives(st.where) && Consistent(c) && Allows(c, t.column, u) &&
        KeyShard(t, u) in targets && MaySet(item.value, v)
        ensures KeyShard(t, v) == KeyShard(t, u)
      {
        KeptKey(t, st, targets, c, u, v);
      }
    }
  }

  /** An UPDATE run on every shard. */
  lemma UpdateOnAllExactly(t: Table, st: Stmt)
    requires t.Valid() && st.Update?
    ensures (forall env, cl :: Placed(t, cl) ==> Placed(t, OnAll(st, env, cl))) <==> SetsHome(t, st, t.Rule().shards)
  {
    var targets := t.Rule().shards;
    assert t.m.TargetsOk(targets);
    UpdateKeptExactly(t, st, targets);
    forall env, cl | Placed(t, cl)
      ensures KeepsPlaced(t, st, env, cl, targets) <==> Placed(t, OnAll(st, env, cl))
    {
      ScatterIsAll(t, st, env, cl);
    }
  }

  /** An UPDATE sent where the router says. */
  lemma UpdatePlacedExactly(t: Table, doc: Json, st: Stmt)
    requires t.Valid() && Says(doc, t.Rule().table, st) && st.Update?
    ensures var targets := RouteOf(t, doc).targets;
            (forall env, cl :: Placed(t, cl) ==> KeepsPlaced(t, st, env, cl, targets)) <==> SetsHome(t, st, targets)
  {
    RouteShape(t, doc, st);
    UpdateKeptExactly(t, st, RouteOf(t, doc).targets);
  }

  // ---------- DELETE and UPDATE on one shard ----------

  ghost predicate EffectsAgree(t: Table, st: Stmt, s: nat, env: Env, cl: Rows)
    requires t.Valid() && |cl| == |t.m.shards| && s < |cl|
  {
    t.m.TargetsOk(t.Rule().shards) && ExecOn(st, env, cl, [s]) == ExecOn(st, env, cl, t.Rule().shards)
  }

  /** One shard does what all shards would do when the others would do nothing. */
  lemma EffectsAgreeAt(t: Table, st: Stmt, s: nat, env: Env, cl: Rows)
    requires t.Valid() && Placed(t, cl) && !st.Insert? && s < |cl|
    ensures EffectsAgree(t, st, s, env, cl) <==> forall x :: 0 <= x < |cl| && x != s ==> OnRows(st, env, cl[x]) == cl[x]
  {
    ScatterIsAll(t, st, env, cl);
    ExecOnOne(st, env, cl, s);
    ChangedAt(cl, s, OnAll(st, env, cl));
  }

  lemma ExecOnOne(st: Stmt, env: Env, cl: Rows, s: nat)
    requires !st.Insert? && s < |cl|
    ensures ExecOn(st, env, cl, [s]) == cl[s := OnRows(st, env, cl[s])]
  {
    forall x | 0 <= x < |cl|
      ensures ExecOn(st, env, cl, [s])[x] == cl[s := OnRows(st, env, cl[s])][x]
    {
      ExecOnAt(st, env, cl, [s], x);
    }
  }

  lemma ChangedAt(cl: Rows, s: nat, all: Rows)
    requires s < |cl| == |all|
    ensures cl[s := all[s]] == all <==> forall x :: 0 <= x < |cl| && x != s ==> all[x] == cl[x]
  {
    if cl[s := all[s]] == all {
      forall x | 0 <= x < |cl| && x != s
        ensures all[x] == cl[x]
      {
        assert cl[s := all[s]][x] == cl[x];
      }
    }
  }

  lemma {:induction false} OnRowsSame(st: Stmt, env: Env, rows: seq<Row>)
    requires forall row :: row in rows ==> OnRow(st, env, row) == [row]
    ensures OnRows(st, env, rows) == rows
  {
    if rows != [] {
      assert rows[0] in rows;
      OnRowsSame(st, env, rows[1..]);
    }
  }

  /** A row elsewhere that the statement would change. */
  lemma OneRowAgrees(t: Table, st: Stmt, s: nat, env: Env, row: Row)
    requires t.Valid() && !st.Insert? && s < |t.m.shards|
    requires t.column in row && KeyShard(t, row[t.column]) != s
    requires forall cl :: Placed(t, cl) ==> EffectsAgree(t, st, s, env, cl)
    ensures OnRow(st, env, row) == [row]
  {
    var home, n := KeyShard(t, row[t.column]), |t.m.shards|;
    OneRowPlaced(t, row, home);
    EffectsAgreeAt(t, st, s, env, OneRow(n, home, row));
    assert OnRows(st, env, [row]) == [row];
    assert [row][1..] == [];
  }

  /**
   A DELETE sent to one shard does what it would do on all, whatever the rows and whatever its other
   conditions mean, if and only if its condition is confined to that shard.
   */
  lemma DeleteTransparentExactly(t: Table, w: Json, s: nat)
    requires t.Valid() && s < |t.m.shards|
    ensures (forall env, cl :: Placed(t, cl) ==> EffectsAgree(t, Delete(Some(w)), s, env, cl)) <==> Confined(t, w, s)
  {
    var st := Delete(Some(w));
    if Confined(t, w, s) {
      forall env, cl | Placed(t, cl)
        ensures EffectsAgree(t, st, s, env, cl)
      {
        DeletesHere(t, w, s, env, cl);
      }
    }
    if forall env, cl :: Placed(t, cl) ==> EffectsAgree(t, st, s, env, cl) {
      forall c, v | c in Alternatives(w) && Consistent(c) && Allows(c, t.column, v)
        ensures KeyShard(t, v) == s
      {
        var row := RowFor(c)[t.column := v];
        StillMeets(c, t.column, v);
        ChosenMeets(Some(w), row, ANYTHING);
        if KeyShard(t, v) != s {
          OneRowAgrees(t, st, s, ANYTHING, row);
        }
      }
    }
  }

  lemma DeletesHere(t: Table, w: Json, s: nat, env: Env, cl: Rows)
    requires t.Valid() && Placed(t, cl) && s < |cl| && Confined(t, w, s)
    ensures EffectsAgree(t, Delete(Some(w)), s, env, cl)
  {
    var st := Delete(Some(w));
    forall x | 0 <= x < |cl| && x != s
      ensures OnRows(st, env, cl[x]) == cl[x]
    {
      forall row | row in cl[x]
        ensures OnRow(st, env, row) == [row]
      {
        assert Home(t, row, x);
        if Sat(w, row, env.cond) {
          ConfinedHome(t, w, s, row, env);
        }
      }
      OnRowsSame(st, env, cl[x]);
    }
    EffectsAgreeAt(t, st, s, env, cl);
  }

  /** The rows that meet the clause already have every value that is set. */
  ghost predicate Idle(sets: seq<(string, Json)>, d: Clause) {
    forall k :: SetItem(sets, k).Some? ==>
      var v := PlainConst(SetItem(sets, k).value);
      v.Some? && (k, v.value) in d
  }

  lemma IdleSame(sets: seq<(string, Json)>, d: Clause, row: Row, compute: (Json, Row) -> Value)
    requires Idle(sets, d) && Meets(row, d)
    ensures Assign(sets, row, row, compute) == row
  {
    var r := Assign(sets, row, row, compute);
    forall k
      ensures (k in r <==> k in row) && (k in row ==> r[k] == row[k])
    {
      AssignAt(sets, row, row, compute, k);
    }
  }

  lemma NotIdle(sets: seq<(string, Json)>, d: Clause) returns (env: Env)
    requires !Idle(sets, d) && Consistent(d)
    ensures env.cond == Always && Assign(sets, RowFor(d), RowFor(d), env.compute) != RowFor(d)
  {
    var row := RowFor(d);
    var k :| SetItem(sets, k).Some? && (PlainConst(SetItem(sets, k).value).None?
                                        || (k, PlainConst(SetItem(sets, k).value).value) !in d);
    env := ANYTHING.(compute := Setting(if Has(row, k, IntV(0)) then IntV(1) else IntV(0)));
    AssignAt(sets, row, row, env.compute, k);
  }

  /** Where the condition leaves a key that lives elsewhere, there is nothing to do. */
  ghost predicate ConfinedOrIdle(t: Table, st: Stmt, s: nat)
    requires t.Valid() && st.Update?
  {
    forall c, u ::
      c in WhereAlternatives(st.where) && Consistent(c) && Allows(c, t.column, u) ==>
        KeyShard(t, u) == s || Idle(st.sets, c + {(t.column, u)})
  }

  /** The same for an UPDATE, which may also choose rows elsewhere that it leaves as they are. */
  lemma UpdateTransparentExactly(t: Table, st: Stmt, s: nat)
    requires t.Valid() && st.Update? && s < |t.m.shards|
    ensures (forall env, cl :: Placed(t, cl) ==> EffectsAgree(t, st, s, env, cl)) <==> ConfinedOrIdle(t, st, s)
  {
    if ConfinedOrIdle(t, st, s) {
      forall env, cl | Placed(t, cl)
        ensures EffectsAgree(t, st, s, env, cl)
      {
        UpdatesHere(t, st, s, env, cl);
      }
    }
    if forall env, cl :: Placed(t, cl) ==> EffectsAgree(t, st, s, env, cl) {
      forall c, u | c in WhereAlternatives(st.where) && Consistent(c) && Allows(c, t.column, u)
        ensures KeyShard(t, u) == s || Idle(st.sets, c + {(t.column, u)})
      {
        MustBeIdle(t, st, s, c, u);
      }
    }
  }

  lemma UpdatesHere(t: Table, st: Stmt, s: nat, env: Env, cl: Rows)
    requires t.Valid() && Placed(t, cl) && s < |cl| && st.Update? && ConfinedOrIdle(t, st, s)
    ensures EffectsAgree(t, st, s, env, cl)
  {
    forall x | 0 <= x < |cl| && x != s
      ensures OnRows(st, env, cl[x]) == cl[x]
    {
      forall row | row in cl[x]
        ensures OnRow(st, env, row) == [row]
      {
        assert Home(t, row, x);
        if Chosen(st.where, env, row) {
          ChosenMeets(st.where, row, env);
          var c :| c in WhereAlternatives(st.where) && Meets(row, c);
          assert Consistent(c) && Allows(c, t.column, row[t.column]);
          IdleSame(st.sets, c + {(t.column, row[t.column])}, row, env.compute);
        }
      }
      OnRowsSame(st, env, cl[x]);
    }
    EffectsAgreeAt(t, st, s, env, cl);
  }

  lemma MustBeIdle(t: Table, st: Stmt, s: nat, c: Clause, u: Value)
    requires t.Valid() && st.Update? && s < |t.m.shards|
    requires forall env, cl :: Placed(t, cl) ==> EffectsAgree(t, st, s, env, cl)
    requires c in WhereAlternatives(st.where) && Consistent(c) && Allows(c, t.column, u)
    ensures KeyShard(t, u) == s || Idle(st.sets, c + {(t.column, u)})
  {
    var d := c + {(t.column, u)};
    if KeyShard(t, u) != s && !Idle(st.sets, d) {
      var env := NotIdle(st.sets, d);
      var row := RowFor(d);
      assert (t.column, u) in d && Meets(row, c);
      ChosenMeets(st.where, row, env);
      OneRowAgrees(t, st, s, env, row);
    }
  }

  // ---------- Rules ----------

  lemma {:induction false} GatherCount(targets: seq<nat>, n: nat, s: nat, row: Row)
    requires s < n && InRange(targets, n)
    ensures |Gather(OneRow(n, s, row), targets)| == multiset(targets)[s]
  {
    if targets != [] {
      GatherCount(targets[1..], n, s, row);
      assert targets == [targets[0]] + targets[1..];
    }
  }

  /** A rule may list a shard twice. A scatter then sees every row once exactly when it does not. */
  lemma EveryRowOnceExactly(targets: seq<nat>, n: nat)
    requires InRange(targets, n)
    ensures (forall s, row: Row :: s in targets ==> |Gather(OneRow(n, s, row), targets)| == 1) <==> Distinct(targets)
  {
    forall s, row: Row | s in targets
      ensures |Gather(OneRow(n, s, row), targets)| == multiset(targets)[s]
    {
      GatherCount(targets, n, s, row);
    }
    if Distinct(targets) {
      forall s | s in targets
        ensures multiset(targets)[s] == 1
      {
        DistinctCount(targets, s);
      }
    } else {
      var i, j :| 0 <= i < j < |targets| && targets[i] == targets[j];
      var s := targets[i];
      assert targets == targets[..j] + targets[j..];
      assert targets[..j][i] == s && targets[j..][0] == s;
      assert multiset(targets[..j])[s] >= 1 && multiset(targets[j..])[s] >= 1;
      var row: Row := map[];
      assert |Gather(OneRow(n, s, row), targets)| >= 2;
    }
  }
}
