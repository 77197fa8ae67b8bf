/**
 The same key written as a number and as text. An integer literal is looked up by its value and a
 quoted one by the hash of its characters, so the two need not meet on one shard.
 */
module QuotedKeys {
  import opened Wrappers
  import opened JsonScan
  import opened ShardMap

  predicate AgreeAt(m: Map, r: TableRule, n: int)
    requires m.TargetsOk(r.shards)
  {
    ByInt(m, r, n) == ByStr(m, r, Decimal(n))
  }

  function NumberOf(n: int): nat {
    n % TWO64
  }

  function TextHash(n: int): nat {
    Poly(Decimal(n)) % TWO64
  }

  // ---------- Hash rules ----------

  lemma SameRemainder(a: int, b: int, k: int)
    requires k > 0
    ensures a % k == b % k <==> (a - b) % k == 0
  {
    var qa, qb := a / k, b / k;
    assert a == k * qa + a % k && b == k * qb + b % k;
    assert a - b == k * (qa - qb) + (a % k - b % k);
    if a % k == b % k {
      Multiple(qa - qb, k);
    }
    if (a - b) % k == 0 {
      var q := (a - b) / k;
      assert a - b == k * q;
      assert k * (q - (qa - qb)) == a % k - b % k;
      SmallMultiple(q - (qa - qb), k, a % k - b % k);
    }
  }

  lemma Multiple(q: int, k: int)
    requires k > 0
    ensures (k * q) % k == 0
  {
    var d, r := (k * q) / k, (k * q) % k;
    assert k * q == k * d + r;
    assert k * (q - d) == r;
    SmallMultiple(q - d, k, r);
  }

  lemma SmallMultiple(q: int, k: int, r: int)
    requires k > 0 && k * q == r && -k < r < k
    ensures r == 0
  {
    AtLeast(q, k);
  }

  lemma AtLeast(q: int, k: int)
    requires k > 0
    ensures q >= 1 ==> k * q >= k
    ensures q <= -1 ==> k * q <= -k
  {
  }

  /** One key under a hash rule: both spellings meet exactly when the numbers differ by a multiple of the shard count. */
  lemma HashAgreesExactly(m: Map, r: TableRule, n: int)
    requires m.TargetsOk(r.shards) && r.strategy == HASH && r.shards != [] && Distinct(r.shards)
    ensures AgreeAt(m, r, n) <==> (NumberOf(n) - TextHash(n)) % |r.shards| == 0
  {
    SameRemainder(NumberOf(n), TextHash(n), |r.shards|);
  }

  lemma HashOfZeroAndTen()
    ensures TextHash(0) == 177621 && TextHash(10) == 5861574
  {
    assert Decimal(0) == "0" && "0"[1..] == "";
    assert Weighted("0") == 48;
    assert Pow33(1) == 33 * Pow33(0);
    assert DecimalNat(1) == "1" && Decimal(10) == "1" + "0" == "10";
    PolyAppend("1", '0');
    assert "1"[1..] == "" && Weighted("1") == 49;
    assert Poly("1") == 177622;
  }

  /** 177621 and 5861564 have no common factor. */
  lemma NoCommonFactor(k: int)
    requires k > 0 && (0 - 177621) % k == 0 && (10 - 5861574) % k == 0
    ensures k == 1
  {
    var a, b := (0 - 177621) / k, (10 - 5861574) / k;
    assert 0 - 177621 == k * a && 10 - 5861574 == k * b;
    var c := 67546 * b - 2229045 * a;
    assert k * c == 67546 * (k * b) - 2229045 * (k * a) == 1;
    if k > 1 {
      SmallMultiple(c, k, 1);
    }
  }

  /** Under a hash rule all keys may be quoted or not as one likes exactly when there is but one shard. */
  lemma HashAlwaysAgreesExactly(m: Map, r: TableRule)
    requires m.TargetsOk(r.shards) && r.strategy == HASH && r.shards != [] && Distinct(r.shards)
    ensures (forall n :: INT64_MIN <= n <= INT64_MAX ==> AgreeAt(m, r, n)) <==> |r.shards| == 1
  {
    if forall n :: INT64_MIN <= n <= INT64_MAX ==> AgreeAt(m, r, n) {
      assert AgreeAt(m, r, 0) && AgreeAt(m, r, 10);
      HashAgreesExactly(m, r, 0);
      HashAgreesExactly(m, r, 10);
      HashOfZeroAndTen();
      NoCommonFactor(|r.shards|);
    }
  }

  // ---------- Range rules ----------

  predicate Uncovered(m: Map, targets: seq<nat>, key: nat)
    requires m.TargetsOk(targets)
  {
    forall i :: 0 <= i < |targets| ==> !m.Covers(targets[i], key)
  }

  /**
   The first shard that covers one of the numbers covers both, or it is the fallback and nothing covers
   the other; or nothing covers either.
   */
  predicate Together(m: Map, targets: seq<nat>, a: nat, b: nat, fallback: nat)
    requires m.TargetsOk(targets)
  {
    if targets == [] then true
    else if m.Covers(targets[0], a) && m.Covers(targets[0], b) then true
    else if m.Covers(targets[0], a) then targets[0] == fallback && Uncovered(m, targets, b)
    else if m.Covers(targets[0], b) then targets[0] == fallback && Uncovered(m, targets, a)
    else Together(m, targets[1..], a, b, fallback)
  }

  /** A shard that does not cover a key owns it only as the fallback of a key that nothing covers. */
  lemma OwnedWithoutCover(m: Map, targets: seq<nat>, s: nat, key: nat, fallback: nat)
    requires m.TargetsOk(targets) && s in targets && !m.Covers(s, key)
    ensures Owner(m, targets, key, fallback) == s <==> s == fallback && Uncovered(m, targets, key)
  {
    OwnerFound(m, targets, key, fallback);
  }

  lemma {:induction false} SameOwnerExactly(m: Map, targets: seq<nat>, a: nat, b: nat, fallback: nat)
    requires m.TargetsOk(targets)
    ensures Owner(m, targets, a, fallback) == Owner(m, targets, b, fallback) <==> Together(m, targets, a, b, fallback)
  {
    if targets != [] {
      var s := targets[0];
      if m.Covers(s, a) && !m.Covers(s, b) {
        OwnedWithoutCover(m, targets, s, b, fallback);
      } else if m.Covers(s, b) && !m.Covers(s, a) {
        OwnedWithoutCover(m, targets, s, a, fallback);
      } else if !m.Covers(s, a) {
        SameOwnerExactly(m, targets[1..], a, b, fallback);
      }
    }
  }

  /** One key under a range rule. */
  lemma RangeAgreesExactly(m: Map, r: TableRule, n: int)
    requires m.TargetsOk(r.shards) && r.strategy == RANGE && r.shards != []
    ensures AgreeAt(m, r, n) <==> Together(m, r.shards, NumberOf(n), TextHash(n), r.shards[0])
  {
    SameOwnerExactly(m, r.shards, NumberOf(n), TextHash(n), r.shards[0]);
  }

  /** With ranges [100, 200) and [0, 100), the key 0 is on the second shard and '0' on the first. */
  lemma RangeDisagrees(m: Map, r: TableRule)
    requires m.shards == [Shard("a", 100, 200), Shard("b", 0, 100)] && r.strategy == RANGE && r.shards == [0, 1]
    ensures !AgreeAt(m, r, 0)
  {
    HashOfZeroAndTen();
    RangeAgreesExactly(m, r, 0);
    assert r.shards[1..] == [1];
    assert m.Covers(r.shards[1], NumberOf(0)) && !m.Covers(1, TextHash(0));
  }
}
