/** src/router/shard_map.c: which shard owns a key. A shard is named by its index in the shard table. */
module ShardMap {
  import opened Wrappers

  const TWO64: int := 0x1_0000_0000_0000_0000

  datatype Shard = Shard(name: string, lo: nat, hi: nat)

  datatype Method = RANGE | HASH

  datatype TableRule = TableRule(
    table: string,
    column: Option<string>,
    strategy: Method,
    broadcast: bool,
    shards: seq<nat>)

  datatype Map = Map(shards: seq<Shard>, rules: seq<TableRule>) {
    predicate Covers(s: nat, key: nat)
      requires s < |shards|
    {
      shards[s].lo <= key < shards[s].hi
    }

    predicate TargetsOk(targets: seq<nat>) {
      forall i :: 0 <= i < |targets| ==> targets[i] < |shards|
    }

    predicate Valid() {
      forall i :: 0 <= i < |rules| ==> TargetsOk(rules[i].shards)
    }
  }

  // ---------- Specification ----------

  function TablesOf(rules: seq<TableRule>): seq<string> {
    seq(|rules|, i requires 0 <= i < |rules| => rules[i].table)
  }

  function FindRuleSpec(rules: seq<TableRule>, table: string): (r: Option<nat>)
    ensures r.Some? ==> r.value < |rules| && rules[r.value].table == table
    ensures r.Some? ==> forall j :: 0 <= j < r.value ==> rules[j].table != table
    ensures r.None? ==> forall j :: 0 <= j < |rules| ==> rules[j].table != table
  {
    var r := FirstIndex(TablesOf(rules), table);
    assert forall j :: 0 <= j < |rules| ==> TablesOf(rules)[j] == rules[j].table;
    r
  }

  /** The first target whose range holds the key, or else the given shard. */
  function Owner(m: Map, targets: seq<nat>, key: nat, fallback: nat): nat
    requires m.TargetsOk(targets)
  {
    if targets == [] then fallback
    else if m.Covers(targets[0], key) then targets[0]
    else Owner(m, targets[1..], key, fallback)
  }

  function ByNumber(m: Map, r: TableRule, key: nat): nat
    requires m.TargetsOk(r.shards) && r.shards != []
  {
    match r.strategy
    case RANGE => Owner(m, r.shards, key, r.shards[0])
    case HASH => r.shards[key % |r.shards|]
  }

  function ByInt(m: Map, r: TableRule, key: int): Option<nat>
    requires m.TargetsOk(r.shards)
  {
    if r.shards == [] then None else Some(ByNumber(m, r, key % TWO64))
  }

  /** (uint64_t)*p for a signed char. */
  function CharValue(c: char): int {
    var b := c as int % 256;
    if b >= 128 then b - 256 else b
  }

  function Pow33(n: nat): nat {
    if n == 0 then 1 else 33 * Pow33(n - 1)
  }

  function Weighted(s: string): int {
    if s == "" then 0 else CharValue(s[0]) * Pow33(|s| - 1) + Weighted(s[1..])
  }

  /** The base-33 polynomial of the bytes, over the integers. */
  function Poly(s: string): int {
    5381 * Pow33(|s|) + Weighted(s)
  }

  function ByStr(m: Map, r: TableRule, key: string): Option<nat>
    requires m.TargetsOk(r.shards)
  {
    if r.shards == [] then None else Some(ByNumber(m, r, Poly(key) % TWO64))
  }

  // ---------- The lookups ----------

  method FindRule(m: Map, table: string) returns (r: Option<nat>)
    ensures r == FindRuleSpec(m.rules, table)
  {
    for i := 0 to |m.rules|
      invariant forall j :: 0 <= j < i ==> m.rules[j].table != table
    {
      if m.rules[i].table == table {
        return Some(i);
      }
    }
    return None;
  }

  method FindOwner(m: Map, targets: seq<nat>, key: nat) returns (s: nat)
    requires m.TargetsOk(targets) && targets != []
    ensures s == Owner(m, targets, key, targets[0])
  {
    for i := 0 to |targets|
      invariant Owner(m, targets[i..], key, targets[0]) == Owner(m, targets, key, targets[0])
    {
      if m.Covers(targets[i], key) {
        return targets[i];
      }
    }
    return targets[0];
  }

  method FindByInt(m: Map, r: TableRule, key: int) returns (s: Option<nat>)
    requires m.TargetsOk(r.shards)
    ensures s == ByInt(m, r, key)
  {
    if r.shards == [] {
      return None;
    }
    var ukey := key % TWO64;
    match r.strategy
    case RANGE =>
      var o := FindOwner(m, r.shards, ukey);
      return Some(o);
    case HASH =>
      return Some(r.shards[ukey % |r.shards|]);
  }

  method HashOf(key: string) returns (hash: nat)
    ensures hash == Poly(key) % TWO64
  {
    hash := 5381;
    for i := 0 to |key|
      invariant hash == Poly(key[..i]) % TWO64
    {
      ghost var before := Poly(key[..i]);
      var shifted := (hash * 32) % TWO64;
      var sum := (shifted + hash) % TWO64;
      hash := (sum + CharValue(key[i]) % TWO64) % TWO64;
      HashStep(before, CharValue(key[i]));
      PolyAppend(key[..i], key[i]);
      assert key[..i + 1] == key[..i] + [key[i]];
    }
    assert key[..|key|] == key;
  }

  method FindByStr(m: Map, r: TableRule, key: string) returns (s: Option<nat>)
    requires m.TargetsOk(r.shards)
    ensures s == ByStr(m, r, key)
  {
    if r.shards == [] {
      return None;
    }
    var hash := HashOf(key);
    match r.strategy
    case RANGE =>
      var o := FindOwner(m, r.shards, hash);
      return Some(o);
    case HASH =>
      return Some(r.shards[hash % |r.shards|]);
  }

  // ---------- The hash ----------

  lemma ModAdd(a: int, b: int, c: int, d: int)
    requires a % TWO64 == b % TWO64 && c % TWO64 == d % TWO64
    ensures (a + c) % TWO64 == (b + d) % TWO64
  {
  }

  lemma ModMul(k: int, a: int)
    requires k == 32
    ensures (k * (a % TWO64)) % TWO64 == (k * a) % TWO64
  {
    assert a == TWO64 * (a / TWO64) + a % TWO64;
    assert k * a == TWO64 * (k * (a / TWO64)) + k * (a % TWO64);
  }

  /** One round of shift and add, in 64-bit arithmetic. */
  lemma HashStep(x: int, c: int)
    ensures var h := x % TWO64;
            (((h * 32) % TWO64 + h) % TWO64 + c % TWO64) % TWO64 == (33 * x + c) % TWO64
  {
    var h := x % TWO64;
    ModMul(32, x);
    ModAdd((h * 32) % TWO64, 32 * x, h, x);
    ModAdd(((h * 32) % TWO64 + h) % TWO64, 33 * x, c % TWO64, c);
  }

  lemma {:induction false} WeightedAppend(s: string, c: char)
    ensures Weighted(s + [c]) == 33 * Weighted(s) + CharValue(c)
  {
    if s == "" {
      assert (s + [c])[1..] == "";
    } else {
      WeightedAppend(s[1..], c);
      assert (s + [c])[1..] == s[1..] + [c];
      var p, v := Pow33(|s| - 1), CharValue(s[0]);
      assert Pow33(|s|) == 33 * p;
      assert v * (33 * p) == 33 * (v * p);
    }
  }

  lemma PolyAppend(s: string, c: char)
    ensures Poly(s + [c]) == 33 * Poly(s) + CharValue(c)
  {
    WeightedAppend(s, c);
  }

  // ---------- Hash lookup ----------

  /** Division with remainder has one answer. */
  lemma OneRemainder(u: nat, n: nat, i: nat, q: int)
    requires i < n && u == i + q * n
    ensures u % n == i && u / n == q
  {
    assert u == u % n + (u / n) * n;
    SamePlace(n, i, q, u % n, u / n);
  }

  lemma SamePlace(n: nat, i: nat, q: int, j: nat, p: int)
    requires i < n && j < n && i + q * n == j + p * n
    ensures i == j && q == p
  {
    if q > p {
      AtLeastOnce(q - p, n);
    } else if q < p {
      AtLeastOnce(p - q, n);
    }
  }

  lemma AtLeastOnce(k: int, n: nat)
    requires k >= 1
    ensures k * n >= n
  {
    assert k * n == (k - 1) * n + n;
  }

  /**
   An integer goes to the shard whose place in the rule is the rest of its 64-bit value by the number of
   shards: the one i below n for which the value is i plus a multiple of n.
   */
  lemma HashByInt(m: Map, r: TableRule, key: int, u: nat, i: nat, q: int)
    requires m.TargetsOk(r.shards) && r.strategy == HASH && i < |r.shards|
    requires u < TWO64 && (u == key || u == key + TWO64) && u == i + q * |r.shards|
    ensures ByInt(m, r, key) == Some(r.shards[i])
  {
    assert key % TWO64 == u;
    OneRemainder(u, |r.shards|, i, q);
  }

  /** A text goes where the 64-bit value of its base-33 polynomial goes. */
  lemma HashByStr(m: Map, r: TableRule, key: string, h: nat, wraps: int, i: nat, q: int)
    requires m.TargetsOk(r.shards) && r.strategy == HASH && i < |r.shards|
    requires h < TWO64 && Poly(key) == h + wraps * TWO64 && h == i + q * |r.shards|
    ensures ByStr(m, r, key) == Some(r.shards[i])
  {
    OneRemainder(h, |r.shards|, i, q);
    assert Poly(key) % TWO64 == h by {
      assert (h + wraps * TWO64) % TWO64 == h % TWO64;
    }
  }

  /** Every key has such a place. */
  lemma HashPlace(u: nat, n: nat) returns (i: nat, q: nat)
    requires n > 0
    ensures i < n && u == i + q * n
  {
    i, q := u % n, u / n;
  }

  /** A byte is a signed character. */
  lemma CharExactly(c: char)
    requires c as int < 256
    ensures -128 <= CharValue(c) < 128 && (CharValue(c) == c as int || CharValue(c) == c as int - 256)
  {
  }

  /** The text a has the hash 177670. */
  lemma HashOfA()
    ensures Poly("a") == 177670
  {
    assert Pow33(1) == 33 * Pow33(0) == 33;
    assert "a"[1..] == "";
    assert Weighted("a") == CharValue('a') * Pow33(0) + Weighted("") == 97;
  }

  // ---------- Range lookup ----------

  predicate NoOverlap(a: Shard, b: Shard) {
    a.hi <= b.lo || b.hi <= a.lo || a.hi <= a.lo || b.hi <= b.lo
  }

  /** Two different targets never hold the same key. */
  predicate Disjoint(m: Map, targets: seq<nat>)
    requires m.TargetsOk(targets)
  {
    forall i, j :: 0 <= i < |targets| && 0 <= j < |targets| && targets[i] != targets[j]
                   ==> NoOverlap(m.shards[targets[i]], m.shards[targets[j]])
  }

  lemma {:induction false} OwnerFound(m: Map, targets: seq<nat>, key: nat, fallback: nat)
    requires m.TargetsOk(targets)
    ensures var o := Owner(m, targets, key, fallback);
            if exists i :: 0 <= i < |targets| && m.Covers(targets[i], key)
            then o in targets && m.Covers(o, key)
            else o == fallback
  {
    if targets != [] && !m.Covers(targets[0], key) {
      var rest := targets[1..];
      OwnerFound(m, rest, key, fallback);
      if i :| 0 <= i < |targets| && m.Covers(targets[i], key) {
        assert rest[i - 1] == targets[i];
      }
    }
  }

  /** Overlapping ranges: the shard that the rule lists first. */
  lemma {:induction false} OwnerFirst(m: Map, targets: seq<nat>, key: nat, fallback: nat, i: nat)
    requires m.TargetsOk(targets) && i < |targets| && m.Covers(targets[i], key)
    requires forall j :: 0 <= j < i ==> !m.Covers(targets[j], key)
    ensures Owner(m, targets, key, fallback) == targets[i]
  {
    if i > 0 {
      assert targets[1..][i - 1] == targets[i];
      OwnerFirst(m, targets[1..], key, fallback, i - 1);
    }
  }

  /** The design's promise for disjoint ranges: the owner of a covered key is the one shard that covers it. */
  lemma OwnerUnique(m: Map, targets: seq<nat>, key: nat, s: nat, fallback: nat)
    requires m.TargetsOk(targets) && Disjoint(m, targets)
    requires s in targets && m.Covers(s, key)
    ensures Owner(m, targets, key, fallback) == s
  {
    OwnerFound(m, targets, key, fallback);
    var i :| 0 <= i < |targets| && targets[i] == s;
    assert m.Covers(targets[i], key);
    var o := Owner(m, targets, key, fallback);
    var j :| 0 <= j < |targets| && targets[j] == o;
  }

  /** So the order in which a rule lists its shards does not matter for covered keys. */
  lemma OwnerOrderFree(m: Map, r: TableRule, r': TableRule, key: nat)
    requires m.TargetsOk(r.shards) && m.TargetsOk(r'.shards)
    requires r.strategy == RANGE && r'.strategy == RANGE
    requires multiset(r.shards) == multiset(r'.shards) && Disjoint(m, r.shards)
    requires exists i :: 0 <= i < |r.shards| && m.Covers(r.shards[i], key)
    ensures r'.shards != [] && ByNumber(m, r, key) == ByNumber(m, r', key)
  {
    var i :| 0 <= i < |r.shards| && m.Covers(r.shards[i], key);
    var s := r.shards[i];
    assert s in multiset(r.shards);
    assert s in r'.shards;
    forall a, b | 0 <= a < |r'.shards| && 0 <= b < |r'.shards|
      ensures r'.shards[a] in r.shards && r'.shards[b] in r.shards
    {
      assert r'.shards[a] in multiset(r'.shards) && r'.shards[b] in multiset(r'.shards);
    }
    assert Disjoint(m, r'.shards);
    OwnerUnique(m, r.shards, key, s, r.shards[0]);
    OwnerUnique(m, r'.shards, key, s, r'.shards[0]);
  }

  /** Every lookup lands on one of the rule's own shards, covered or not. */
  lemma LookupTotal(m: Map, r: TableRule, key: nat)
    requires m.TargetsOk(r.shards) && r.shards != []
    ensures ByNumber(m, r, key) in r.shards
  {
    OwnerFound(m, r.shards, key, r.shards[0]);
  }
}
