/** Broadcast tables: every shard of the rule holds a copy, and every statement goes to all of them. */
module Broadcast {
  import opened Wrappers
  import opened JsonText
  import opened ParseTree
  import opened Conditions
  import opened ShardMap
  import opened Router
  import opened Cluster
  import opened Transparency
  import opened Limits

  datatype Mirror = Mirror(m: Map, index: nat) {
    function Rule(): TableRule
      requires index < |m.rules|
    {
      m.rules[index]
    }

    predicate Valid() {
      && m.Valid() && index < |m.rules|
      && FindRuleSpec(m.rules, Rule().table) == Some(index)
      && Rule().broadcast && Rule().shards != [] && Distinct(Rule().shards)
    }
  }

  lemma DecidedForAll(b: Mirror, doc: Json, p: Parsed)
    requires b.Valid() && p.stmt in {SELECT, INSERT, UPDATE, DELETE} && p.table == Some(b.Rule().table)
    ensures Decide(b.m, doc, p) == Decision(SCATTER, b.Rule().shards, Some(b.index))
    ensures InRange(b.Rule().shards, |b.m.shards|)
  {
    assert b.m.TargetsOk(b.Rule().shards);
    assert Decide(b.m, doc, p) == DecideBy(b.m, doc, p, b.index);
  }

  /** Every statement on the table goes to every shard of its rule, whatever keys it mentions. */
  lemma GoesToAll(b: Mirror, doc: Json, st: Stmt)
    requires b.Valid() && Says(doc, b.Rule().table, st)
    ensures RouteDoc(b.m, doc) == Decision(SCATTER, b.Rule().shards, Some(b.index))
    ensures InRange(b.Rule().shards, |b.m.shards|)
  {
    ParseSays(doc, b.Rule().table, st);
    DecidedForAll(b, doc, ParseDoc(doc).1);
  }

  /** The shards hold the same rows. */
  predicate Copies(b: Mirror, cl: Rows, rows: seq<Row>)
    requires b.Valid()
  {
    |cl| == |b.m.shards| && forall s :: s in b.Rule().shards && s < |cl| ==> cl[s] == rows
  }

  function Times(n: nat, rows: seq<Row>): seq<Row> {
    if n == 0 then [] else rows + Times(n - 1, rows)
  }

  lemma {:induction false} RepliesRepeat(st: Stmt, env: Env, cl: Rows, targets: seq<nat>, rows: seq<Row>)
    requires InRange(targets, |cl|) && forall i :: 0 <= i < |targets| ==> cl[targets[i]] == rows
    ensures ReplyFrom(st, env, cl, targets) == Times(|targets|, Reply(st, env, rows))
  {
    if targets != [] {
      RepliesRepeat(st, env, cl, targets[1..], rows);
    }
  }

  predicate AllSay(b: Mirror, qs: seq<Query>)
    requires b.Valid()
  {
    forall i :: 0 <= i < |qs| ==> Says(qs[i].doc, b.Rule().table, qs[i].st)
  }

  ghost function StepCopies(b: Mirror, cl: Rows, q: Query): (r: Rows)
    requires b.Valid() && |cl| == |b.m.shards| && Says(q.doc, b.Rule().table, q.st)
    ensures |r| == |cl|
  {
    GoesToAll(b, q.doc, q.st);
    ExecOn(q.st, q.env, cl, RouteDoc(b.m, q.doc).targets)
  }

  ghost function AnswerOf(b: Mirror, cl: Rows, q: Query): seq<Row>
    requires b.Valid() && |cl| == |b.m.shards| && Says(q.doc, b.Rule().table, q.st)
  {
    GoesToAll(b, q.doc, q.st);
    ReplyFrom(q.st, q.env, cl, RouteDoc(b.m, q.doc).targets)
  }

  /** A statement through the router: the copies stay one table, and each copy answers. */
  lemma StepKeepsCopies(b: Mirror, cl: Rows, rows: seq<Row>, q: Query)
    requires b.Valid() && Copies(b, cl, rows) && Says(q.doc, b.Rule().table, q.st)
    ensures Copies(b, StepCopies(b, cl, q), Exec(q.st, q.env, rows))
    ensures AnswerOf(b, cl, q) == Times(|b.Rule().shards|, Reply(q.st, q.env, rows))
  {
    GoesToAll(b, q.doc, q.st);
    var targets := b.Rule().shards;
    forall s | s in targets && s < |cl|
      ensures ExecOn(q.st, q.env, cl, targets)[s] == Exec(q.st, q.env, rows)
    {
      ExecOnAt(q.st, q.env, cl, targets, s);
    }
    RepliesRepeat(q.st, q.env, cl, targets, rows);
  }

  ghost function RunCopies(b: Mirror, cl: Rows, qs: seq<Query>): (r: Rows)
    requires b.Valid() && |cl| == |b.m.shards| && AllSay(b, qs)
    ensures |r| == |cl|
    decreases qs
  {
    if qs == [] then cl else RunCopies(b, StepCopies(b, cl, qs[0]), qs[1..])
  }

  ghost function AnswersOf(b: Mirror, cl: Rows, qs: seq<Query>): seq<seq<Row>>
    requires b.Valid() && |cl| == |b.m.shards| && AllSay(b, qs)
    decreases qs
  {
    if qs == [] then [] else [AnswerOf(b, cl, qs[0])] + AnswersOf(b, StepCopies(b, cl, qs[0]), qs[1..])
  }

  /** The answers of one table, each n times. */
  function AnswersTimes(n: nat, rows: seq<Row>, qs: seq<Query>): seq<seq<Row>>
    decreases qs
  {
    if qs == [] then []
    else [Times(n, Reply(qs[0].st, qs[0].env, rows))] + AnswersTimes(n, Exec(qs[0].st, qs[0].env, rows), qs[1..])
  }

  /** Over every run the copies are those of one table, and every answer is that table's, once per shard. */
  lemma {:induction false} RunKeepsCopies(b: Mirror, cl: Rows, rows: seq<Row>, qs: seq<Query>)
    requires b.Valid() && Copies(b, cl, rows) && AllSay(b, qs)
    ensures Copies(b, RunCopies(b, cl, qs), RunTable(rows, qs))
    ensures AnswersOf(b, cl, qs) == AnswersTimes(|b.Rule().shards|, rows, qs)
    decreases qs
  {
    if qs != [] {
      StepKeepsCopies(b, cl, rows, qs[0]);
      RunKeepsCopies(b, StepCopies(b, cl, qs[0]), Exec(qs[0].st, qs[0].env, rows), qs[1..]);
    }
  }

  ghost predicate AnswersLikeOne(b: Mirror, st: Stmt, env: Env, rows: seq<Row>, cl: Rows)
    requires b.Valid()
  {
    InRange(b.Rule().shards, |cl|) && ReplyFrom(st, env, cl, b.Rule().shards) == Reply(st, env, rows)
  }

  lemma {:induction false} TimesSize(n: nat, rows: seq<Row>)
    ensures |Times(n, rows)| == n * |rows|
  {
    if n > 0 {
      TimesSize(n - 1, rows);
    }
  }

  lemma OneRowAnswered(env: Env)
    ensures var rows: seq<Row> := [map[]]; Reply(Select(None), env, rows) == rows
  {
    var rows: seq<Row> := [map[]];
    assert rows[1..] == [];
  }

  /** The client gets the answer of one table, for all contents and statements, exactly when there is one copy. */
  lemma AnswersExactly(b: Mirror)
    requires b.Valid()
    ensures (forall st, env, rows, cl :: Copies(b, cl, rows) ==> AnswersLikeOne(b, st, env, rows, cl))
            <==> |b.Rule().shards| == 1
  {
    var targets, n := b.Rule().shards, |b.m.shards|;
    assert b.m.TargetsOk(targets);
    forall st, env, rows, cl | Copies(b, cl, rows)
      ensures InRange(targets, |cl|) && ReplyFrom(st, env, cl, targets) == Times(|targets|, Reply(st, env, rows))
    {
      RepliesRepeat(st, env, cl, targets, rows);
    }
    if |targets| != 1 {
      var rows: seq<Row> := [map[]];
      var cl := seq(n, s => rows);
      assert Copies(b, cl, rows);
      OneRowAnswered(ANYTHING);
      TimesSize(|targets|, rows);
      assert !AnswersLikeOne(b, Select(None), ANYTHING, rows, cl);
    } else {
      forall st, env, rows, cl | Copies(b, cl, rows)
        ensures AnswersLikeOne(b, st, env, rows, cl)
      {
        assert Times(1, Reply(st, env, rows)) == Reply(st, env, rows) + Times(0, Reply(st, env, rows));
      }
    }
  }
}
