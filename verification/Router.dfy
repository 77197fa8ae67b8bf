/** src/router/router.c: from a parsed statement to the shards it is sent to. */
module Router {
  import opened Wrappers
  import opened JsonText
  import opened ParseTree
  import opened QueryParser
  import opened ShardMap

  datatype Route = SINGLE | SCATTER | LOCAL | DEFAULT

  datatype Decision = Decision(route: Route, targets: seq<nat>, rule: Option<nat>)

  function KeyTarget(m: Map, rule: TableRule, p: Parsed): Option<nat>
    requires m.TargetsOk(rule.shards)
  {
    if !p.found || p.column.None? || p.column != rule.column then None
    else if p.isInt then ByInt(m, rule, p.intKey)
    else if p.strKey.Some? then ByStr(m, rule, p.strKey.value)
    else None
  }

  lemma KeyTargetFits(m: Map, rule: TableRule, p: Parsed)
    requires m.TargetsOk(rule.shards)
    ensures var t := KeyTarget(m, rule, p); t.Some? ==> t.value in rule.shards
  {
    if rule.shards != [] {
      LookupTotal(m, rule, p.intKey % TWO64);
      if p.strKey.Some? {
        LookupTotal(m, rule, Poly(p.strKey.value) % TWO64);
      }
    }
  }

  /** What the router needs to know once more about an INSERT, now that the shard column is known. */
  function Refine(m: Map, doc: Json, p: Parsed, rule: TableRule): Parsed {
    if p.stmt == INSERT && !p.found then InsertParsed(doc, rule.column, p) else p
  }

  /** One shard of the rule, all of them, or none because there is no rule. */
  predicate Fits(m: Map, d: Decision) {
    match d.route
    case SINGLE => |d.targets| == 1 && d.rule.Some? && d.rule.value < |m.rules| && d.targets[0] in m.rules[d.rule.value].shards
    case SCATTER => d.rule.Some? && d.rule.value < |m.rules| && d.targets == m.rules[d.rule.value].shards
    case _ => d.targets == [] && d.rule.None?
  }

  function Decide(m: Map, doc: Json, p: Parsed): (d: Decision)
    requires m.Valid()
    ensures Fits(m, d)
  {
    if p.stmt in {SET, SHOW, DISCARD} then Decision(LOCAL, [], None)
    else if p.stmt in {TRANSACTION, UNKNOWN} || p.table.None? then Decision(DEFAULT, [], None)
    else
      var i := FindRuleSpec(m.rules, p.table.value);
      if i.None? then Decision(DEFAULT, [], None) else DecideBy(m, doc, p, i.value)
  }

  function DecideBy(m: Map, doc: Json, p: Parsed, i: nat): (d: Decision)
    requires m.Valid() && i < |m.rules|
    ensures Fits(m, d)
  {
    var rule := m.rules[i];
    if rule.broadcast || p.stmt == DDL then Decision(SCATTER, rule.shards, Some(i))
    else ByKey(m, i, Refine(m, doc, p, rule))
  }

  function ByKey(m: Map, i: nat, p: Parsed): (d: Decision)
    requires m.Valid() && i < |m.rules|
    ensures Fits(m, d)
  {
    var rule := m.rules[i];
    KeyTargetFits(m, rule, p);
    var target := KeyTarget(m, rule, p);
    if target.Some? then Decision(SINGLE, [target.value], Some(i)) else Decision(SCATTER, rule.shards, Some(i))
  }

  /** The parse result afterwards: the key of an INSERT on a sharded table has been looked for. */
  function Completed(m: Map, doc: Json, p: Parsed): Parsed {
    if p.stmt != INSERT || p.table.None? then p
    else
      var i := FindRuleSpec(m.rules, p.table.value);
      if i.None? || m.rules[i.value].broadcast then p else Refine(m, doc, p, m.rules[i.value])
  }

  /** A column found in the statement is compared with the rule's by strcmp, so the rule must have one then. */
  predicate Comparable(m: Map, p: Parsed) {
    p.table.Some? && p.found && p.column.Some? && p.stmt != DDL ==>
      var i := FindRuleSpec(m.rules, p.table.value);
      i.Some? && !m.rules[i.value].broadcast ==> m.rules[i.value].column.Some?
  }

  /** The last part: one shard if the key found is on the rule's column, all of them otherwise. */
  method DecideByKey(m: Map, i: nat, parsed: ParseResult) returns (d: Decision)
    requires m.Valid() && i < |m.rules|
    requires parsed.found && parsed.column.Some? ==> m.rules[i].column.Some?
    ensures d == ByKey(m, i, parsed.View())
  {
    var rule := m.rules[i];
    if parsed.found && parsed.column.Some? && parsed.column.value == rule.column.value {
      var target: Option<nat> := None;
      if parsed.isInt {
        target := FindByInt(m, rule, parsed.intKey);
      } else if parsed.strKey.Some? {
        target := FindByStr(m, rule, parsed.strKey.value);
      }
      if target.Some? {
        return Decision(SINGLE, [target.value], Some(i));
      }
    }
    d := Decision(SCATTER, rule.shards, Some(i));
  }

  lemma InsertNeedsColumn(doc: Json, p: Parsed)
    ensures InsertParsed(doc, None, p) == p
  {
  }

  method DecideByRule(m: Map, i: nat, parsed: ParseResult, ghost doc: Json) returns (d: Decision)
    requires m.Valid() && i < |m.rules| && WF(doc)
    requires parsed.tree.Some? ==> parsed.tree.value == Render(doc)
    requires parsed.stmt == INSERT ==> StatementOf(doc).Some?
    requires !m.rules[i].broadcast && parsed.stmt != DDL
    requires parsed.found && parsed.column.Some? ==> m.rules[i].column.Some?
    modifies parsed
    ensures d == DecideBy(m, doc, old(parsed.View()), i)
    ensures parsed.View() == Refine(m, doc, old(parsed.View()), m.rules[i])
  {
    if parsed.stmt == INSERT && !parsed.found {
      InsertNeedsColumn(doc, parsed.View());
      ParseExtractInsertShardKey(parsed, m.rules[i].column, doc);
    }
    d := DecideByKey(m, i, parsed);
  }

  method RouterDecide(m: Map, parsed: ParseResult, ghost doc: Json) returns (d: Decision)
    requires m.Valid() && WF(doc) && Comparable(m, parsed.View())
    requires parsed.tree.Some? ==> parsed.tree.value == Render(doc)
    requires parsed.stmt == INSERT ==> StatementOf(doc).Some?
    modifies parsed
    ensures d == Decide(m, doc, old(parsed.View()))
    ensures parsed.View() == Completed(m, doc, old(parsed.View()))
  {
    if parsed.stmt == SET || parsed.stmt == SHOW || parsed.stmt == DISCARD {
      return Decision(LOCAL, [], None);
    }
    if parsed.stmt == TRANSACTION {
      return Decision(DEFAULT, [], None);
    }
    if parsed.stmt == UNKNOWN || parsed.table.None? {
      return Decision(DEFAULT, [], None);
    }
    var i := FindRule(m, parsed.table.value);
    if i.None? {
      return Decision(DEFAULT, [], None);
    }
    var rule := m.rules[i.value];
    if rule.broadcast {
      return Decision(SCATTER, rule.shards, i);
    }
    if parsed.stmt == DDL {
      return Decision(SCATTER, rule.shards, i);
    }
    d := DecideByRule(m, i.value, parsed, doc);
  }

  /** The decision for a document, from its parse tree. */
  function RouteDoc(m: Map, doc: Json): Decision
    requires m.Valid()
  {
    Decide(m, doc, ParseDoc(doc).1)
  }

  /** From the text of a parse tree to the decision, as handle_query goes; None is the syntax-error reply. */
  method RouteText(m: Map, text: string, ghost doc: Json) returns (d: Option<Decision>)
    requires m.Valid() && WF(doc) && text == Render(doc) && Comparable(m, ParseDoc(doc).1)
    ensures d == if ParseDoc(doc).0 then Some(RouteDoc(m, doc)) else None
  {
    var ok, parsed := ParseQuery(text, doc);
    if !ok {
      return None;
    }
    var decision := RouterDecide(m, parsed, doc);
    d := Some(decision);
  }
}
