/** src/config.c: the find-or-create tables of shards and rules, and the shard map built from them. */
module Config {
  import opened Wrappers
  import opened JsonText
  import opened ParseTree
  import opened ShardMap
  import opened Router

  const MAX_SHARDS := 64
  const MAX_TABLES := 64

  datatype ShardField = RangeStart(n: nat) | RangeEnd(n: nat) | OtherField

  /** One `key = value` line of a [shard:name] section. */
  datatype ShardLine = ShardLine(name: string, field: ShardField)

  /** A shard list is None when its text is empty, and may be Some([]) when it holds only commas. */
  datatype TableField =
    | ShardColumn(column: string)
    | MethodName(name: string)
    | ShardList(names: Option<seq<string>>)
    | Broadcast(value: string)
    | OtherTableField

  datatype TableLine = TableLine(table: string, field: TableField)

  datatype TmpRule = TmpRule(table: string, column: string, strategy: string, list: Option<seq<string>>, broadcast: bool)

  // ---------- Shards ----------

  function ShardNames(shards: seq<Shard>): seq<string> {
    seq(|shards|, i requires 0 <= i < |shards| => shards[i].name)
  }

  function IndexOfShard(shards: seq<Shard>, name: string): (r: Option<nat>)
    ensures r.Some? ==> r.value < |shards| && shards[r.value].name == name
    ensures r.Some? ==> forall i :: 0 <= i < r.value ==> shards[i].name != name
    ensures r.None? ==> forall i :: 0 <= i < |shards| ==> shards[i].name != name
  {
    var r := FirstIndex(ShardNames(shards), name);
    assert forall i :: 0 <= i < |shards| ==> ShardNames(shards)[i] == shards[i].name;
    r
  }

  method FindShardIndex(shards: seq<Shard>, name: string) returns (r: Option<nat>)
    ensures r == IndexOfShard(shards, name)
  {
    for i := 0 to |shards|
      invariant forall j :: 0 <= j < i ==> shards[j].name != name
    {
      if shards[i].name == name {
        return Some(i);
      }
    }
    return None;
  }

  predicate DistinctNames(shards: seq<Shard>) {
    forall i, j :: 0 <= i < j < |shards| ==> shards[i].name != shards[j].name
  }

  function SetField(s: Shard, f: ShardField): (r: Shard)
    ensures r.name == s.name
  {
    match f
    case RangeStart(n) => s.(lo := n)
    case RangeEnd(n) => s.(hi := n)
    case OtherField => s
  }

  /** A line for a shard: ignored when the table is full, even if the shard is already in it. */
  function ApplyShard(shards: seq<Shard>, l: ShardLine): seq<Shard> {
    if |shards| >= MAX_SHARDS then shards
    else
      var i := IndexOfShard(shards, l.name);
      if i.Some? then shards[i.value := SetField(shards[i.value], l.field)]
      else shards + [SetField(Shard(l.name, 0, 0), l.field)]
  }

  function ApplyShards(shards: seq<Shard>, ls: seq<ShardLine>): seq<Shard>
    decreases ls
  {
    if ls == [] then shards else ApplyShards(ApplyShard(shards, ls[0]), ls[1..])
  }

  lemma ShardKeepsDistinct(shards: seq<Shard>, l: ShardLine)
    requires DistinctNames(shards) && |shards| <= MAX_SHARDS
    ensures DistinctNames(ApplyShard(shards, l)) && |ApplyShard(shards, l)| <= MAX_SHARDS
  {
    var after := ApplyShard(shards, l);
    forall i, j | 0 <= i < j < |after|
      ensures after[i].name != after[j].name
    {
      assert i < |shards| && after[i].name == shards[i].name;
      assert j < |shards| ==> after[j].name == shards[j].name;
    }
  }

  method ApplyShardLine(shards: seq<Shard>, l: ShardLine) returns (r: seq<Shard>)
    ensures r == ApplyShard(shards, l)
  {
    if |shards| >= MAX_SHARDS {
      return shards;
    }
    var i := FindShardIndex(shards, l.name);
    if i.None? {
      return shards + [SetField(Shard(l.name, 0, 0), l.field)];
    }
    return shards[i.value := SetField(shards[i.value], l.field)];
  }

  method LoadShards(ls: seq<ShardLine>) returns (shards: seq<Shard>)
    ensures shards == ApplyShards([], ls)
    ensures DistinctNames(shards) && |shards| <= MAX_SHARDS
  {
    shards := [];
    for n := 0 to |ls|
      invariant ApplyShards(shards, ls[n..]) == ApplyShards([], ls)
      invariant DistinctNames(shards) && |shards| <= MAX_SHARDS
    {
      assert ls[n..][1..] == ls[n + 1..];
      ShardKeepsDistinct(shards, ls[n]);
      shards := ApplyShardLine(shards, ls[n]);
    }
  }

  // ---------- Which line for a shard holds ----------

  /** How many lines are read before the table is full; all of them if it never is. */
  function FillsAt(shards: seq<Shard>, ls: seq<ShardLine>): (n: nat)
    ensures n <= |ls|
    decreases ls
  {
    if ls == [] || |shards| >= MAX_SHARDS then 0 else 1 + FillsAt(ApplyShard(shards, ls[0]), ls[1..])
  }

  function NamesIn(shards: seq<Shard>): set<string> {
    set i | 0 <= i < |shards| :: shards[i].name
  }

  function NamesOf(ls: seq<ShardLine>): set<string> {
    set i | 0 <= i < |ls| :: ls[i].name
  }

  lemma {:induction false} NamesCount(shards: seq<Shard>)
    requires DistinctNames(shards)
    ensures |NamesIn(shards)| == |shards|
  {
    if shards != [] {
      var n := |shards| - 1;
      NamesCount(shards[..n]);
      assert NamesIn(shards) == NamesIn(shards[..n]) + {shards[n].name};
    }
  }

  lemma NamesAfter(shards: seq<Shard>, l: ShardLine)
    requires |shards| < MAX_SHARDS
    ensures NamesIn(ApplyShard(shards, l)) == NamesIn(shards) + {l.name}
  {
    var after, i := ApplyShard(shards, l), IndexOfShard(shards, l.name);
    if i.Some? {
      assert |after| == |shards| && forall j :: 0 <= j < |after| ==> after[j].name == shards[j].name;
      assert shards[i.value].name in NamesIn(shards);
    } else {
      assert after[|shards|].name in NamesIn(after);
      assert forall j :: 0 <= j < |shards| ==> after[j] == shards[j];
    }
  }

  lemma NamesCons(l: ShardLine, ls: seq<ShardLine>)
    ensures NamesOf([l] + ls) == {l.name} + NamesOf(ls)
  {
    forall x | x in NamesOf(ls)
      ensures x in NamesOf([l] + ls)
    {
      var i :| 0 <= i < |ls| && ls[i].name == x;
      assert ([l] + ls)[i + 1].name == x;
    }
    assert ([l] + ls)[0].name in NamesOf([l] + ls);
  }

  /** Up to the line that fills the table, every name is entered. */
  lemma {:induction false} NamesLoaded(shards: seq<Shard>, ls: seq<ShardLine>)
    requires FillsAt(shards, ls) == |ls|
    ensures NamesIn(ApplyShards(shards, ls)) == NamesIn(shards) + NamesOf(ls)
    decreases ls
  {
    if ls != [] {
      NamesAfter(shards, ls[0]);
      NamesLoaded(ApplyShard(shards, ls[0]), ls[1..]);
      assert ls == [ls[0]] + ls[1..];
      NamesCons(ls[0], ls[1..]);
    }
  }

  lemma {:induction false} DistinctLoaded(shards: seq<Shard>, ls: seq<ShardLine>)
    requires DistinctNames(shards) && |shards| <= MAX_SHARDS
    ensures DistinctNames(ApplyShards(shards, ls))
    decreases ls
  {
    if ls != [] {
      ShardKeepsDistinct(shards, ls[0]);
      DistinctLoaded(ApplyShard(shards, ls[0]), ls[1..]);
    }
  }

  lemma {:induction false} SizeBefore(shards: seq<Shard>, ls: seq<ShardLine>, k: nat)
    requires k <= FillsAt(shards, ls) && DistinctNames(shards) && |shards| <= MAX_SHARDS
    ensures FillsAt(shards, ls[..k]) == k
    ensures k < FillsAt(shards, ls) ==> |ApplyShards(shards, ls[..k])| < MAX_SHARDS
    ensures k == FillsAt(shards, ls) < |ls| ==> |ApplyShards(shards, ls[..k])| == MAX_SHARDS
    decreases k
  {
    if k > 0 {
      ShardKeepsDistinct(shards, ls[0]);
      assert ls[..k][1..] == ls[1..][..k - 1];
      SizeBefore(ApplyShard(shards, ls[0]), ls[1..], k - 1);
    }
  }

  /** The line that fills the table is the one with the sixty-fourth name. */
  lemma {:induction false} FillsExactly(ls: seq<ShardLine>, k: nat)
    requires k <= FillsAt([], ls)
    ensures k < FillsAt([], ls) ==> |NamesOf(ls[..k])| < MAX_SHARDS
    ensures k == FillsAt([], ls) < |ls| ==> |NamesOf(ls[..k])| == MAX_SHARDS
  {
    SizeBefore([], ls, k);
    NamesLoaded([], ls[..k]);
    DistinctLoaded([], ls[..k]);
    NamesCount(ApplyShards([], ls[..k]));
    assert NamesIn([]) + NamesOf(ls[..k]) == NamesOf(ls[..k]);
  }

  lemma {:induction false} FullTableFrozen(shards: seq<Shard>, ls: seq<ShardLine>)
    requires |shards| >= MAX_SHARDS
    ensures ApplyShards(shards, ls) == shards
    decreases ls
  {
    if ls != [] {
      FullTableFrozen(shards, ls[1..]);
    }
  }

  /** The lines after the one that fills the table might as well not be there. */
  lemma {:induction false} FrozenAfter(shards: seq<Shard>, ls: seq<ShardLine>)
    ensures ApplyShards(shards, ls) == ApplyShards(shards, ls[..FillsAt(shards, ls)])
    decreases ls
  {
    if |shards| >= MAX_SHARDS {
      FullTableFrozen(shards, ls);
    } else if ls != [] {
      var n := FillsAt(shards, ls);
      FrozenAfter(ApplyShard(shards, ls[0]), ls[1..]);
      assert ls[..n][1..] == ls[1..][..n - 1];
    }
  }

  /** The last key_range_start line for a shard, or the value it had. */
  function LastStart(ls: seq<ShardLine>, name: string, lo: nat): nat
    decreases ls
  {
    if ls == [] then lo
    else LastStart(ls[1..], name, if ls[0].name == name && ls[0].field.RangeStart? then ls[0].field.n else lo)
  }

  function LastEnd(ls: seq<ShardLine>, name: string, hi: nat): nat
    decreases ls
  {
    if ls == [] then hi
    else LastEnd(ls[1..], name, if ls[0].name == name && ls[0].field.RangeEnd? then ls[0].field.n else hi)
  }

  lemma {:induction false} LastConcat(a: seq<ShardLine>, b: seq<ShardLine>, name: string, lo: nat, hi: nat)
    ensures LastStart(a + b, name, lo) == LastStart(b, name, LastStart(a, name, lo))
    ensures LastEnd(a + b, name, hi) == LastEnd(b, name, LastEnd(a, name, hi))
    decreases a
  {
    if a == [] {
      assert a + b == b;
    } else {
      assert (a + b)[1..] == a[1..] + b;
      LastConcat(a[1..], b, name,
                 if a[0].name == name && a[0].field.RangeStart? then a[0].field.n else lo,
                 if a[0].name == name && a[0].field.RangeEnd? then a[0].field.n else hi);
    }
  }

  function Known(shards: seq<Shard>, name: string): (s: Shard)
    ensures s.name == name
  {
    var i := IndexOfShard(shards, name);
    if i.Some? then shards[i.value] else Shard(name, 0, 0)
  }

  lemma KnownAt(shards: seq<Shard>, i: nat)
    requires i < |shards| && DistinctNames(shards)
    ensures Known(shards, shards[i].name) == shards[i]
  {
  }

  lemma KnownAfter(shards: seq<Shard>, l: ShardLine, name: string)
    requires |shards| < MAX_SHARDS && DistinctNames(shards)
    ensures Known(ApplyShard(shards, l), name)
         == if l.name == name then SetField(Known(shards, name), l.field) else Known(shards, name)
  {
    var after, i := ApplyShard(shards, l), IndexOfShard(shards, name);
    ShardKeepsDistinct(shards, l);
    if i.Some? {
      assert after[i.value].name == name;
      KnownAt(after, i.value);
    } else if l.name == name {
      KnownAt(after, |shards|);
    } else {
      UnknownAfter(shards, l, name);
    }
  }

  lemma UnknownAfter(shards: seq<Shard>, l: ShardLine, name: string)
    requires IndexOfShard(shards, name).None? && l.name != name
    ensures IndexOfShard(ApplyShard(shards, l), name).None?
  {
    var after := ApplyShard(shards, l);
    forall i | 0 <= i < |after|
      ensures after[i].name != name
    {
      assert i < |shards| ==> after[i].name == shards[i].name;
    }
  }

  /** Among the lines read before the table is full, the last one for each bound of each shard holds. */
  lemma {:induction false} LastLineHolds(shards: seq<Shard>, ls: seq<ShardLine>, name: string)
    requires DistinctNames(shards)
    ensures var s, read := Known(shards, name), ls[..FillsAt(shards, ls)];
            Known(ApplyShards(shards, ls), name) == Shard(name, LastStart(read, name, s.lo), LastEnd(read, name, s.hi))
    decreases ls
  {
    var n := FillsAt(shards, ls);
    if n == 0 {
      FrozenAfter(shards, ls);
    } else {
      assert |shards| < MAX_SHARDS;
      ShardKeepsDistinct(shards, ls[0]);
      KnownAfter(shards, ls[0], name);
      LastLineHolds(ApplyShard(shards, ls[0]), ls[1..], name);
      assert ls[..n][1..] == ls[1..][..n - 1];
    }
  }

  /** Some line after the table was full gives the shard other bounds than it has. */
  predicate Overruled(ls: seq<ShardLine>, s: Shard) {
    LastStart(ls, s.name, s.lo) != s.lo || LastEnd(ls, s.name, s.hi) != s.hi
  }

  /**
   The last lines of the file hold for a shard exactly when the lines after the one that fills the table
   do not overrule what the lines up to it say.
   */
  lemma LastLineExactly(ls: seq<ShardLine>, name: string)
    ensures var n := FillsAt([], ls);
            Known(ApplyShards([], ls), name) == Shard(name, LastStart(ls, name, 0), LastEnd(ls, name, 0))
            <==> !Overruled(ls[n..], Shard(name, LastStart(ls[..n], name, 0), LastEnd(ls[..n], name, 0)))
  {
    var n := FillsAt([], ls);
    var read, rest := ls[..n], ls[n..];
    assert Known(ApplyShards([], ls), name) == Shard(name, LastStart(read, name, 0), LastEnd(read, name, 0)) by {
      LastLineHolds([], ls, name);
    }
    assert LastStart(ls, name, 0) == LastStart(rest, name, LastStart(read, name, 0))
        && LastEnd(ls, name, 0) == LastEnd(rest, name, LastEnd(read, name, 0)) by {
      assert ls == read + rest;
      LastConcat(read, rest, name, 0, 0);
    }
  }

  function Name(i: nat): string {
    seq(i, _ => 'x')
  }

  function Sections(n: nat): seq<ShardLine> {
    if n == 0 then [] else Sections(n - 1) + [ShardLine(Name(n - 1), OtherField)]
  }

  lemma {:induction false} ApplyAppend(shards: seq<Shard>, ls: seq<ShardLine>, l: ShardLine)
    ensures ApplyShards(shards, ls + [l]) == ApplyShard(ApplyShards(shards, ls), l)
    decreases ls
  {
    if ls == [] {
      assert (ls + [l])[1..] == [];
    } else {
      assert (ls + [l])[1..] == ls[1..] + [l];
      ApplyAppend(ApplyShard(shards, ls[0]), ls[1..], l);
    }
  }

  lemma {:induction false} SectionsLoaded(n: nat)
    requires n <= MAX_SHARDS
    ensures var shards := ApplyShards([], Sections(n));
            |shards| == n && forall i :: 0 <= i < n ==> shards[i] == Shard(Name(i), 0, 0)
  {
    if n > 0 {
      SectionsLoaded(n - 1);
      ApplyAppend([], Sections(n - 1), ShardLine(Name(n - 1), OtherField));
      forall i | 0 <= i < n - 1
        ensures Name(i) != Name(n - 1)
      {
        assert |Name(i)| != |Name(n - 1)|;
      }
    }
  }

  /** Sixty-four sections whose first line is a connection string: the last one never gets its range. */
  lemma LastShardWithoutRange(hi: nat)
    requires hi > 0
    ensures var ls := Sections(MAX_SHARDS) + [ShardLine(Name(63), RangeEnd(hi))];
            && Known(ApplyShards([], ls), Name(63)).hi == 0
            && LastEnd(ls, Name(63), 0) == hi
  {
    var l := ShardLine(Name(63), RangeEnd(hi));
    SectionsLoaded(MAX_SHARDS);
    ApplyAppend([], Sections(MAX_SHARDS), l);
    var shards := ApplyShards([], Sections(MAX_SHARDS));
    assert shards[63].name == Name(63);
    forall i | 0 <= i < 63
      ensures shards[i].name != Name(63)
    {
      assert |Name(i)| != |Name(63)|;
    }
    LastConcat(Sections(MAX_SHARDS), [l], Name(63), 0, 0);
    assert [l][1..] == [];
  }

  // ---------- Rules ----------

  predicate DistinctTables(rules: seq<TmpRule>) {
    forall i, j :: 0 <= i < j < |rules| ==> rules[i].table != rules[j].table
  }

  function SetTableField(r: TmpRule, f: TableField): (s: TmpRule)
    ensures s.table == r.table
  {
    match f
    case ShardColumn(c) => r.(column := c)
    case MethodName(name) => r.(strategy := name)
    case ShardList(names) => r.(list := names)
    case Broadcast(value) => r.(broadcast := value == "true")
    case OtherTableField => r
  }

  function TmpTables(rules: seq<TmpRule>): seq<string> {
    seq(|rules|, i requires 0 <= i < |rules| => rules[i].table)
  }

  function IndexOfTable(rules: seq<TmpRule>, table: string): (r: Option<nat>)
    ensures r.Some? ==> r.value < |rules| && rules[r.value].table == table
    ensures r.Some? ==> forall i :: 0 <= i < r.value ==> rules[i].table != table
    ensures r.None? ==> forall i :: 0 <= i < |rules| ==> rules[i].table != table
  {
    var r := FirstIndex(TmpTables(rules), table);
    assert forall i :: 0 <= i < |rules| ==> TmpTables(rules)[i] == rules[i].table;
    r
  }

  function NewRule(table: string): TmpRule {
    TmpRule(table, "", "", None, false)
  }

  function ApplyRule(rules: seq<TmpRule>, l: TableLine): seq<TmpRule> {
    if |rules| >= MAX_TABLES then rules
    else
      var i := IndexOfTable(rules, l.table);
      if i.Some? then rules[i.value := SetTableField(rules[i.value], l.field)]
      else rules + [SetTableField(NewRule(l.table), l.field)]
  }

  function ApplyRules(rules: seq<TmpRule>, ls: seq<TableLine>): seq<TmpRule>
    decreases ls
  {
    if ls == [] then rules else ApplyRules(ApplyRule(rules, ls[0]), ls[1..])
  }

  lemma RuleKeepsDistinct(rules: seq<TmpRule>, l: TableLine)
    requires DistinctTables(rules) && |rules| <= MAX_TABLES
    ensures DistinctTables(ApplyRule(rules, l)) && |ApplyRule(rules, l)| <= MAX_TABLES
  {
    var after := ApplyRule(rules, l);
    forall i, j | 0 <= i < j < |after|
      ensures after[i].table != after[j].table
    {
      assert i < |rules| && after[i].table == rules[i].table;
      assert j < |rules| ==> after[j].table == rules[j].table;
    }
  }

  method ApplyTableLine(rules: seq<TmpRule>, l: TableLine) returns (r: seq<TmpRule>)
    ensures r == ApplyRule(rules, l)
  {
    if |rules| >= MAX_TABLES {
      return rules;
    }
    for i := 0 to |rules|
      invariant forall j :: 0 <= j < i ==> rules[j].table != l.table
    {
      if rules[i].table == l.table {
        return rules[i := SetTableField(rules[i], l.field)];
      }
    }
    return rules + [SetTableField(NewRule(l.table), l.field)];
  }

  method LoadRules(ls: seq<TableLine>) returns (rules: seq<TmpRule>)
    ensures rules == ApplyRules([], ls)
    ensures DistinctTables(rules) && |rules| <= MAX_TABLES
  {
    rules := [];
    for n := 0 to |ls|
      invariant ApplyRules(rules, ls[n..]) == ApplyRules([], ls)
      invariant DistinctTables(rules) && |rules| <= MAX_TABLES
    {
      assert ls[n..][1..] == ls[n + 1..];
      RuleKeepsDistinct(rules, ls[n]);
      rules := ApplyTableLine(rules, ls[n]);
    }
  }

  // ---------- The shard map ----------

  /** Names that are not known shards are skipped. */
  function Resolve(shards: seq<Shard>, names: seq<string>): (r: seq<nat>)
    ensures forall i :: 0 <= i < |r| ==> r[i] < |shards|
  {
    if names == [] then []
    else
      var i := IndexOfShard(shards, names[0]);
      (if i.Some? then [i.value] else []) + Resolve(shards, names[1..])
  }

  function Take(s: seq<nat>, n: nat): (r: seq<nat>)
    ensures r <= s && |r| == if |s| <= n then |s| else n
  {
    if |s| <= n then s else s[..n]
  }

  function UpTo(n: nat): (r: seq<nat>)
    ensures |r| == n && forall i :: 0 <= i < n ==> r[i] == i
  {
    seq(n, i => i)
  }

  lemma ResolveStep(shards: seq<Shard>, names: seq<string>, n: nat, targets: seq<nat>)
    requires n < |names| && targets + Resolve(shards, names[n..]) == Resolve(shards, names)
    ensures var i := IndexOfShard(shards, names[n]);
            (targets + if i.Some? then [i.value] else []) + Resolve(shards, names[n + 1..]) == Resolve(shards, names)
  {
    assert names[n..][1..] == names[n + 1..];
  }

  /** Only shards that the list names, each as often as it is named. */
  lemma {:induction false} ResolvedExactly(shards: seq<Shard>, names: seq<string>, s: nat)
    requires DistinctNames(shards) && s < |shards|
    ensures multiset(Resolve(shards, names))[s] == multiset(names)[shards[s].name]
  {
    if names != [] {
      assert names == [names[0]] + names[1..];
      ResolvedExactly(shards, names[1..], s);
      assert IndexOfShard(shards, names[0]) == Some(s) <==> names[0] == shards[s].name;
    }
  }

  method ResolveList(shards: seq<Shard>, names: seq<string>) returns (targets: seq<nat>)
    ensures targets == Take(Resolve(shards, names), |shards|)
  {
    targets := [];
    var n := 0;
    while n < |names| && |targets| < |shards|
      invariant n <= |names| && |targets| <= |shards|
      invariant targets + Resolve(shards, names[n..]) == Resolve(shards, names)
    {
      var i := FindShardIndex(shards, names[n]);
      ResolveStep(shards, names, n, targets);
      if i.Some? {
        targets := targets + [i.value];
      }
      n := n + 1;
    }
    assert n == |names| ==> targets + [] == targets;
  }

  /** The shard list, or for a broadcast without one all shards, or nothing. */
  function TargetsOf(shards: seq<Shard>, t: TmpRule): seq<nat> {
    if t.list.Some? then Take(Resolve(shards, t.list.value), |shards|)
    else if t.broadcast then UpTo(|shards|)
    else []
  }

  function RuleOf(shards: seq<Shard>, t: TmpRule): TableRule {
    TableRule(t.table, if t.column == "" then None else Some(t.column), if t.strategy == "hash" then HASH else RANGE,
              t.broadcast, TargetsOf(shards, t))
  }

  method BuildRule(shards: seq<Shard>, t: TmpRule) returns (r: TableRule)
    ensures r == RuleOf(shards, t)
  {
    var targets: seq<nat> := [];
    if t.list.Some? && |shards| > 0 {
      targets := ResolveList(shards, t.list.value);
    } else if t.list.None? && t.broadcast && |shards| > 0 {
      for j := 0 to |shards|
        invariant targets == UpTo(j)
      {
        targets := targets + [j];
        assert targets == UpTo(j + 1);
      }
    }
    assert |shards| == 0 ==> targets == TargetsOf(shards, t);
    r := TableRule(t.table, if t.column == "" then None else Some(t.column), if t.strategy == "hash" then HASH else RANGE,
                   t.broadcast, targets);
  }

  /** What every loaded configuration gives the router. */
  predicate Loaded(m: Map) {
    && DistinctNames(m.shards) && |m.shards| <= MAX_SHARDS && m.Valid()
    && (forall i :: 0 <= i < |m.rules| ==> |m.rules[i].shards| <= |m.shards|)
    && (forall i, j :: 0 <= i < j < |m.rules| ==> m.rules[i].table != m.rules[j].table)
  }

  lemma TargetsKnown(shards: seq<Shard>, t: TmpRule)
    ensures var r := RuleOf(shards, t);
            |r.shards| <= |shards| && r.table == t.table && forall i :: 0 <= i < |r.shards| ==> r.shards[i] < |shards|
  {
  }

  method LoadConfig(ss: seq<ShardLine>, ts: seq<TableLine>) returns (m: Map)
    ensures Loaded(m)
    ensures m.shards == ApplyShards([], ss)
    ensures var rules := ApplyRules([], ts);
            |m.rules| == |rules| && forall i :: 0 <= i < |rules| ==> m.rules[i] == RuleOf(m.shards, rules[i])
  {
    var shards := LoadShards(ss);
    var tmp := LoadRules(ts);
    var rules: seq<TableRule> := [];
    for i := 0 to |tmp|
      invariant |rules| == i
      invariant forall j :: 0 <= j < i ==> rules[j] == RuleOf(shards, tmp[j])
    {
      var r := BuildRule(shards, tmp[i]);
      rules := rules + [r];
    }
    m := Map(shards, rules);
    forall i | 0 <= i < |rules|
      ensures m.TargetsOk(rules[i].shards) && |rules[i].shards| <= |shards|
    {
      TargetsKnown(shards, tmp[i]);
    }
  }
}
