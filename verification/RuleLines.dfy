/** Which lines of a configuration file hold in the rule of a table. */
module RuleLines {
  import opened Wrappers
  import opened ShardMap
  import opened Config

  // ---------- The last line of a kind ----------

  function ColumnIn(f: TableField): Option<string> {
    if f.ShardColumn? then Some(f.column) else None
  }

  function MethodIn(f: TableField): Option<string> {
    if f.MethodName? then Some(f.name) else None
  }

  function ListIn(f: TableField): Option<Option<seq<string>>> {
    if f.ShardList? then Some(f.names) else None
  }

  function BroadcastIn(f: TableField): Option<bool> {
    if f.Broadcast? then Some(f.value == "true") else None
  }

  /** What the last line of this kind for the table says, or else the given value. */
  function LastOf<T>(ls: seq<TableLine>, table: string, pick: TableField -> Option<T>, none: T): T {
    if ls == [] then none
    else
      var l := ls[|ls| - 1];
      if l.table == table && pick(l.field).Some? then pick(l.field).value
      else LastOf(ls[..|ls| - 1], table, pick, none)
  }

  /** The rule that the last lines for a table describe. */
  function Described(ls: seq<TableLine>, table: string): TmpRule {
    TmpRule(table, LastOf(ls, table, ColumnIn, ""), LastOf(ls, table, MethodIn, ""),
            LastOf(ls, table, ListIn, None), LastOf(ls, table, BroadcastIn, false))
  }

  lemma DescribedAppend(ls: seq<TableLine>, l: TableLine, table: string)
    ensures Described(ls + [l], table)
            == if l.table == table then SetTableField(Described(ls, table), l.field) else Described(ls, table)
  {
    assert (ls + [l])[..|ls|] == ls;
  }

  // ---------- Which lines are read ----------

  /** How many lines are read before the table of rules is full; all of them if it never is. */
  function RulesFillAt(rules: seq<TmpRule>, ls: seq<TableLine>): (n: nat)
    ensures n <= |ls|
    decreases ls
  {
    if ls == [] || |rules| >= MAX_TABLES then 0 else 1 + RulesFillAt(ApplyRule(rules, ls[0]), ls[1..])
  }

  lemma {:induction false} FullRulesFrozen(rules: seq<TmpRule>, ls: seq<TableLine>)
    requires |rules| >= MAX_TABLES
    ensures ApplyRules(rules, ls) == rules
    decreases ls
  {
    if ls != [] {
      FullRulesFrozen(rules, ls[1..]);
    }
  }

  /** The lines after the one that fills the table might as well not be there. */
  lemma {:induction false} RulesFrozenAfter(rules: seq<TmpRule>, ls: seq<TableLine>)
    ensures ApplyRules(rules, ls) == ApplyRules(rules, ls[..RulesFillAt(rules, ls)])
    decreases ls
  {
    if |rules| >= MAX_TABLES {
      FullRulesFrozen(rules, ls);
    } else if ls != [] {
      var n := RulesFillAt(rules, ls);
      RulesFrozenAfter(ApplyRule(rules, ls[0]), ls[1..]);
      assert ls[..n][1..] == ls[1..][..n - 1];
    }
  }

  lemma {:induction false} ApplyRulesAppend(rules: seq<TmpRule>, ls: seq<TableLine>, l: TableLine)
    ensures ApplyRules(rules, ls + [l]) == ApplyRule(ApplyRules(rules, ls), l)
    decreases ls
  {
    if ls == [] {
      assert (ls + [l])[1..] == [];
    } else {
      assert (ls + [l])[1..] == ls[1..] + [l];
      ApplyRulesAppend(ApplyRule(rules, ls[0]), ls[1..], l);
    }
  }

  lemma {:induction false} RoomBefore(rules: seq<TmpRule>, ls: seq<TableLine>, k: nat)
    requires k < RulesFillAt(rules, ls)
    ensures |ApplyRules(rules, ls[..k])| < MAX_TABLES
    decreases k
  {
    if k > 0 {
      assert ls[..k][1..] == ls[1..][..k - 1];
      RoomBefore(ApplyRule(rules, ls[0]), ls[1..], k - 1);
    }
  }

  lemma {:induction false} RulesDistinct(rules: seq<TmpRule>, ls: seq<TableLine>)
    requires DistinctTables(rules) && |rules| <= MAX_TABLES
    ensures DistinctTables(ApplyRules(rules, ls)) && |ApplyRules(rules, ls)| <= MAX_TABLES
    decreases ls
  {
    if ls != [] {
      RuleKeepsDistinct(rules, ls[0]);
      RulesDistinct(ApplyRule(rules, ls[0]), ls[1..]);
    }
  }

  // ---------- The rule of a table ----------

  /** The rule of a table, or the one it would start with. */
  function KnownRule(rules: seq<TmpRule>, table: string): TmpRule {
    var i := IndexOfTable(rules, table);
    if i.Some? then rules[i.value] else NewRule(table)
  }

  lemma KnownRuleAt(rules: seq<TmpRule>, i: nat)
    requires i < |rules| && DistinctTables(rules)
    ensures KnownRule(rules, rules[i].table) == rules[i]
  {
  }

  lemma NoRuleAfter(rules: seq<TmpRule>, l: TableLine, table: string)
    requires IndexOfTable(rules, table).None? && l.table != table
    ensures IndexOfTable(ApplyRule(rules, l), table).None?
  {
    var after := ApplyRule(rules, l);
    forall i | 0 <= i < |after|
      ensures after[i].table != table
    {
      assert i < |rules| ==> after[i].table == rules[i].table;
    }
  }

  lemma KnownRuleAfter(rules: seq<TmpRule>, l: TableLine, table: string)
    requires |rules| < MAX_TABLES && DistinctTables(rules)
    ensures KnownRule(ApplyRule(rules, l), table)
            == if l.table == table then SetTableField(KnownRule(rules, table), l.field) else KnownRule(rules, table)
  {
    var after, i := ApplyRule(rules, l), IndexOfTable(rules, table);
    RuleKeepsDistinct(rules, l);
    if i.Some? {
      assert after[i.value].table == table;
      KnownRuleAt(after, i.value);
    } else if l.table == table {
      KnownRuleAt(after, |rules|);
    } else {
      NoRuleAfter(rules, l, table);
    }
  }

  lemma {:induction false} ReadRule(ls: seq<TableLine>, k: nat, table: string)
    requires k <= RulesFillAt([], ls)
    ensures KnownRule(ApplyRules([], ls[..k]), table) == Described(ls[..k], table)
  {
    if k > 0 {
      var front, l := ls[..k - 1], ls[k - 1];
      ReadRule(ls, k - 1, table);
      assert ls[..k] == front + [l];
      ApplyRulesAppend([], front, l);
      RoomBefore([], ls, k - 1);
      RulesDistinct([], front);
      KnownRuleAfter(ApplyRules([], front), l, table);
      DescribedAppend(front, l, table);
    }
  }

  /** Among the lines read before the table of rules is full, the last of each kind for a table hold in its rule. */
  lemma LastRuleLineHolds(ls: seq<TableLine>, table: string)
    ensures KnownRule(ApplyRules([], ls), table) == Described(ls[..RulesFillAt([], ls)], table)
  {
    RulesFrozenAfter([], ls);
    ReadRule(ls, RulesFillAt([], ls), table);
  }

  /** Some line of these gives the rule another column, method, list or broadcast than it has. */
  predicate RuleOverruled(ls: seq<TableLine>, r: TmpRule) {
    || LastOf(ls, r.table, ColumnIn, r.column) != r.column
    || LastOf(ls, r.table, MethodIn, r.strategy) != r.strategy
    || LastOf(ls, r.table, ListIn, r.list) != r.list
    || LastOf(ls, r.table, BroadcastIn, r.broadcast) != r.broadcast
  }

  /**
   The last lines of the file hold for a table exactly when the lines after the one that fills the table of
   rules do not overrule what the lines up to it say.
   */
  lemma LastRuleLineExactly(ls: seq<TableLine>, table: string)
    ensures var n := RulesFillAt([], ls);
            KnownRule(ApplyRules([], ls), table) == Described(ls, table)
            <==> !RuleOverruled(ls[n..], Described(ls[..n], table))
  {
    var n := RulesFillAt([], ls);
    LastRuleLineHolds(ls, table);
    assert ls == ls[..n] + ls[n..];
    LastBehind(ls[..n], ls[n..], table, ColumnIn, "");
    LastBehind(ls[..n], ls[n..], table, MethodIn, "");
    LastBehind(ls[..n], ls[n..], table, ListIn, None);
    LastBehind(ls[..n], ls[n..], table, BroadcastIn, false);
  }

  lemma {:induction false} LastBehind<T>(a: seq<TableLine>, b: seq<TableLine>, table: string, pick: TableField -> Option<T>, none: T)
    ensures LastOf(a + b, table, pick, none) == LastOf(b, table, pick, LastOf(a, table, pick, none))
    decreases |b|
  {
    if b == [] {
      assert a + b == a;
    } else {
      var front := b[..|b| - 1];
      assert (a + b)[..|a + b| - 1] == a + front;
      LastBehind(a, front, table, pick, none);
    }
  }

  // ---------- The rule that is built ----------

  /** Hash exactly when the last method line says so, no column exactly for an empty one, broadcast and targets as said. */
  lemma BuiltRule(shards: seq<Shard>, ls: seq<TableLine>, table: string)
    ensures var r, read := RuleOf(shards, KnownRule(ApplyRules([], ls), table)), ls[..RulesFillAt([], ls)];
            && r.table == table
            && (r.strategy == HASH <==> LastOf(read, table, MethodIn, "") == "hash")
            && (r.column == None <==> LastOf(read, table, ColumnIn, "") == "")
            && (r.column.Some? ==> r.column.value == LastOf(read, table, ColumnIn, ""))
            && r.broadcast == LastOf(read, table, BroadcastIn, false)
            && var list := LastOf(read, table, ListIn, None);
               && (list.Some? ==> r.shards == Take(Resolve(shards, list.value), |shards|))
               && (list.None? ==> r.shards == if r.broadcast then UpTo(|shards|) else [])
  {
    LastRuleLineHolds(ls, table);
  }

  /** Known names become their places in the table of shards, in order; unknown ones are passed over. */
  lemma {:induction false} ResolveConcat(shards: seq<Shard>, a: seq<string>, b: seq<string>)
    ensures Resolve(shards, a + b) == Resolve(shards, a) + Resolve(shards, b)
  {
    if a == [] {
      assert a + b == b;
    } else {
      assert (a + b)[1..] == a[1..] + b;
      ResolveConcat(shards, a[1..], b);
    }
  }

  lemma {:induction false} ResolvedInOrder(shards: seq<Shard>, names: seq<string>)
    requires forall i :: 0 <= i < |names| ==> IndexOfShard(shards, names[i]).Some?
    ensures |Resolve(shards, names)| == |names|
    ensures forall i :: 0 <= i < |names| ==> shards[Resolve(shards, names)[i]].name == names[i]
  {
    if names != [] {
      ResolvedInOrder(shards, names[1..]);
      var rest := Resolve(shards, names[1..]);
      forall i | 0 <= i < |names|
        ensures shards[Resolve(shards, names)[i]].name == names[i]
      {
        assert i > 0 ==> Resolve(shards, names)[i] == rest[i - 1] && names[i] == names[1..][i - 1];
      }
    }
  }

  // ---------- The sixty-fourth table ----------

  function TableSections(n: nat): seq<TableLine> {
    if n == 0 then [] else TableSections(n - 1) + [TableLine(Name(n - 1), OtherTableField)]
  }

  lemma {:induction false} TableSectionsLoaded(n: nat)
    requires n <= MAX_TABLES
    ensures var rules := ApplyRules([], TableSections(n));
            |rules| == n && forall i :: 0 <= i < n ==> rules[i] == NewRule(Name(i))
  {
    if n > 0 {
      TableSectionsLoaded(n - 1);
      ApplyRulesAppend([], TableSections(n - 1), TableLine(Name(n - 1), OtherTableField));
      forall i | 0 <= i < n - 1
        ensures Name(i) != Name(n - 1)
      {
        assert |Name(i)| != |Name(n - 1)|;
      }
    }
  }

  /** Sixty-four sections: the last table never gets its shard column. */
  lemma LastTableWithoutColumn(column: string)
    requires column != ""
    ensures var ls := TableSections(MAX_TABLES) + [TableLine(Name(63), ShardColumn(column))];
            && KnownRule(ApplyRules([], ls), Name(63)).column == ""
            && LastOf(ls, Name(63), ColumnIn, "") == column
  {
    var l := TableLine(Name(63), ShardColumn(column));
    TableSectionsLoaded(MAX_TABLES);
    ApplyRulesAppend([], TableSections(MAX_TABLES), l);
    var rules := ApplyRules([], TableSections(MAX_TABLES));
    assert rules[63].table == Name(63);
    forall i | 0 <= i < 63
      ensures rules[i].table != Name(63)
    {
      assert |Name(i)| != |Name(63)|;
    }
  }
}
