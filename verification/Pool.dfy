/**
 src/pool/conn_pool.c: one shard's pool. `alive` and `quiet` stand for what libpq reports about a
 connection at the moment of the call: PQstatus is CONNECTION_OK, PQtransactionStatus is PQTRANS_IDLE.
 */
module Pool {
  import opened Wrappers

  type Conn = nat

  datatype Pool = Pool(idle: seq<Conn>, active: int, max: nat)

  predicate Ok(p: Pool) {
    p.active >= 0 && |p.idle| + p.active <= p.max
  }

  // ---------- Specification ----------

  datatype Popped = Popped(conn: Option<Conn>, rest: seq<Conn>, dead: seq<Conn>)

  /** Takes connections off the end until one is alive. */
  function PopLive(idle: seq<Conn>, alive: Conn -> bool): (r: Popped)
    ensures r.rest <= idle
    ensures r.conn.None? ==> r.rest == []
    decreases |idle|
  {
    if idle == [] then Popped(None, [], [])
    else
      var last, front := idle[|idle| - 1], idle[..|idle| - 1];
      if alive(last) then Popped(Some(last), front, [])
      else
        var r := PopLive(front, alive);
        r.(dead := [last] + r.dead)
  }

  /** `dialled` says that PQconnectdb was called, which made the connection `newConn`. */
  datatype Acquired = Acquired(conn: Option<Conn>, pool: Pool, finished: seq<Conn>, dialled: bool)

  function Acquire(p: Pool, alive: Conn -> bool, newConn: Conn, connects: bool): Acquired {
    var r := PopLive(p.idle, alive);
    var p' := p.(idle := r.rest);
    if r.conn.Some? then Acquired(r.conn, p'.(active := p.active + 1), r.dead, false)
    else if p.active >= p.max then Acquired(None, p', r.dead, false)
    else if !connects then Acquired(None, p', r.dead + [newConn], true)
    else Acquired(Some(newConn), p'.(active := p.active + 1), r.dead, true)
  }

  datatype Released = Released(pool: Pool, finished: seq<Conn>)

  function Release(p: Pool, c: Conn, alive: bool, quiet: bool): Released {
    var p' := p.(active := p.active - 1);
    if !alive || !quiet || |p.idle| >= p.max then Released(p', [c])
    else Released(p'.(idle := p.idle + [c]), [])
  }

  function Living(idle: seq<Conn>, alive: Conn -> bool): (r: seq<Conn>)
    ensures |r| <= |idle|
  {
    if idle == [] then []
    else (if alive(idle[0]) then [idle[0]] else []) + Living(idle[1..], alive)
  }

  function Dead(idle: seq<Conn>, alive: Conn -> bool): seq<Conn> {
    if idle == [] then []
    else (if alive(idle[0]) then [] else [idle[0]]) + Dead(idle[1..], alive)
  }

  // ---------- What every operation keeps ----------

  /** The limit holds although reusing an idle connection checks no limit. */
  lemma AcquireOk(p: Pool, alive: Conn -> bool, newConn: Conn, connects: bool)
    requires Ok(p)
    ensures Ok(Acquire(p, alive, newConn, connects).pool)
  {
    var r := PopLive(p.idle, alive);
    PopLiveParts(p.idle, alive);
  }

  /** A pool that is within its limit and lent the connection always has room for it. */
  lemma ReleaseHasRoom(p: Pool, c: Conn, alive: bool, quiet: bool)
    requires Ok(p) && p.active > 0
    ensures Ok(Release(p, c, alive, quiet).pool)
    ensures Release(p, c, alive, quiet).finished == [] <==> alive && quiet
  {
  }

  lemma {:induction false} PopLiveParts(idle: seq<Conn>, alive: Conn -> bool)
    ensures var r := PopLive(idle, alive);
            && multiset(idle) == multiset(r.rest) + multiset(r.dead)
                                 + (if r.conn.Some? then multiset{r.conn.value} else multiset{})
            && (forall c :: c in r.dead ==> !alive(c))
            && (r.conn.Some? ==> alive(r.conn.value) && |r.rest| + 1 <= |idle|)
    decreases |idle|
  {
    if idle != [] {
      var last, front := idle[|idle| - 1], idle[..|idle| - 1];
      assert idle == front + [last];
      if !alive(last) {
        PopLiveParts(front, alive);
      }
    }
  }

  /** The newest connection that is alive is taken; the newer ones are dead and the older ones stay. */
  lemma {:induction false} PopsNewest(idle: seq<Conn>, alive: Conn -> bool, j: nat)
    requires j < |idle| && alive(idle[j]) && forall i :: j < i < |idle| ==> !alive(idle[i])
    ensures var r := PopLive(idle, alive);
            r.conn == Some(idle[j]) && r.rest == idle[..j] && multiset(r.dead) == multiset(idle[j + 1..])
    decreases |idle|
  {
    var last, front := idle[|idle| - 1], idle[..|idle| - 1];
    if j == |idle| - 1 {
      assert idle[j + 1..] == [];
    } else {
      PopsNewest(front, alive, j);
      assert front[..j] == idle[..j];
      assert idle[j + 1..] == front[j + 1..] + [last];
    }
  }

  lemma {:induction false} PopsNone(idle: seq<Conn>, alive: Conn -> bool)
    requires forall i :: 0 <= i < |idle| ==> !alive(idle[i])
    ensures PopLive(idle, alive).conn.None? && PopLive(idle, alive).rest == []
    decreases |idle|
  {
    if idle != [] {
      PopsNone(idle[..|idle| - 1], alive);
    }
  }

  /** With a live idle connection the newest one is lent, without dialling and without asking for the limit. */
  lemma AcquireReuses(p: Pool, alive: Conn -> bool, newConn: Conn, connects: bool, j: nat)
    requires j < |p.idle| && alive(p.idle[j]) && forall i :: j < i < |p.idle| ==> !alive(p.idle[i])
    ensures var r := Acquire(p, alive, newConn, connects);
            && r.conn == Some(p.idle[j]) && !r.dialled && r.pool == Pool(p.idle[..j], p.active + 1, p.max)
            && multiset(r.finished) == multiset(p.idle[j + 1..])
  {
    PopsNewest(p.idle, alive, j);
  }

  /** Without one a connection is dialled exactly below the limit, and lent exactly if that works. */
  lemma AcquireDials(p: Pool, alive: Conn -> bool, newConn: Conn, connects: bool)
    requires forall i :: 0 <= i < |p.idle| ==> !alive(p.idle[i])
    ensures var r := Acquire(p, alive, newConn, connects);
            && (r.dialled <==> p.active < p.max) && r.pool.idle == []
            && r.conn == (if r.dialled && connects then Some(newConn) else None)
            && r.pool.active == p.active + if r.conn.Some? then 1 else 0
  {
    PopsNone(p.idle, alive);
  }

  /** A health check keeps the live connections and no other, each as often as it was there. */
  lemma {:induction false} LivingExactly(idle: seq<Conn>, alive: Conn -> bool, c: Conn)
    ensures multiset(Living(idle, alive))[c] == if alive(c) then multiset(idle)[c] else 0
    ensures multiset(Dead(idle, alive))[c] == if alive(c) then 0 else multiset(idle)[c]
  {
    if idle != [] {
      assert idle == [idle[0]] + idle[1..];
      LivingExactly(idle[1..], alive, c);
    }
  }

  /** In their order. */
  lemma {:induction false} LivingInOrder(a: seq<Conn>, b: seq<Conn>, alive: Conn -> bool)
    ensures Living(a + b, alive) == Living(a, alive) + Living(b, alive)
  {
    if a == [] {
      assert a + b == b;
    } else {
      assert (a + b)[0] == a[0] && (a + b)[1..] == a[1..] + b;
      LivingInOrder(a[1..], b, alive);
      Assoc(Kept(a[0], alive), Living(a[1..], alive), Living(b, alive));
    }
  }

  lemma PopNext(here: seq<Conn>, closed: seq<Conn>, alive: Conn -> bool)
    requires here != []
    ensures var last, front := here[|here| - 1], here[..|here| - 1];
            PopLive(here, alive).(dead := closed + PopLive(here, alive).dead)
            == if alive(last) then Popped(Some(last), front, closed)
               else PopLive(front, alive).(dead := closed + [last] + PopLive(front, alive).dead)
  {
    var last, front := here[|here| - 1], here[..|here| - 1];
    if alive(last) {
      assert closed + [] == closed;
    } else {
      var d := PopLive(front, alive).dead;
      assert closed + ([last] + d) == closed + [last] + d;
    }
  }

  lemma LivingNext(all: seq<Conn>, i: nat, alive: Conn -> bool)
    requires i < |all|
    ensures Living(all[i..], alive) == Kept(all[i], alive) + Living(all[i + 1..], alive)
    ensures multiset(Dead(all[i..], alive))
         == (if alive(all[i]) then multiset{} else multiset{all[i]}) + multiset(Dead(all[i + 1..], alive))
  {
    assert all[i..][1..] == all[i + 1..];
  }

  // ---------- The pool as it is stored ----------

  class ConnPool {
    var idleConns: array<Conn>
    var idleCount: nat
    var activeCount: int
    const maxSize: nat
    ghost var finished: seq<Conn>

    ghost predicate Valid()
      reads this
    {
      idleCount <= idleConns.Length == maxSize
    }

    ghost function View(): Pool
      requires Valid()
      reads this, idleConns
    {
      Pool(idleConns[..idleCount], activeCount, maxSize)
    }

    constructor (max: nat)
      ensures Valid() && fresh(idleConns) && View() == Pool([], 0, max) && finished == []
    {
      idleConns := new Conn[max](_ => 0);
      idleCount, activeCount, maxSize := 0, 0, max;
      finished := [];
    }

    /** Reuses an idle connection, closing the dead ones on the way. */
    method PopIdle(alive: Conn -> bool) returns (conn: Option<Conn>, ghost closed: seq<Conn>)
      requires Valid()
      modifies this`idleCount, this`finished
      ensures Valid() && Popped(conn, idleConns[..idleCount], closed) == PopLive(old(idleConns[..idleCount]), alive)
      ensures finished == old(finished) + closed
    {
      ghost var all := idleConns[..idleCount];
      closed := [];
      assert all[..idleCount] == all && finished == finished + [];
      while idleCount > 0
        invariant Valid()
        invariant idleCount <= |all| && idleConns[..idleCount] == all[..idleCount]
        invariant finished == old(finished) + closed
        invariant PopLive(all, alive)
               == PopLive(all[..idleCount], alive).(dead := closed + PopLive(all[..idleCount], alive).dead)
        decreases idleCount
      {
        PopNext(all[..idleCount], closed, alive);
        ghost var here := all[..idleCount];
        idleCount := idleCount - 1;
        var c := idleConns[idleCount];
        assert here[..|here| - 1] == all[..idleCount] == idleConns[..idleCount];
        if alive(c) {
          return Some(c), closed;
        }
        finished := finished + [c];
        closed := closed + [c];
      }
      conn := None;
      assert closed + [] == closed;
    }

    method AcquireConn(alive: Conn -> bool, newConn: Conn, connects: bool)
      returns (conn: Option<Conn>, dialled: bool, ghost closed: seq<Conn>)
      requires Valid()
      modifies this
      ensures Valid() && idleConns == old(idleConns)
      ensures Acquired(conn, View(), closed, dialled) == Acquire(old(View()), alive, newConn, connects)
      ensures finished == old(finished) + closed
    {
      conn, closed := PopIdle(alive);
      if conn.Some? {
        activeCount := activeCount + 1;
        return conn, false, closed;
      }
      if activeCount >= maxSize {
        return None, false, closed;
      }
      if !connects {
        finished := finished + [newConn];
        return None, true, closed + [newConn];
      }
      activeCount := activeCount + 1;
      return Some(newConn), true, closed;
    }

    method ReleaseConn(c: Conn, alive: bool, quiet: bool)
      requires Valid()
      modifies this, idleConns
      ensures Valid() && idleConns == old(idleConns)
      ensures var r := Release(old(View()), c, alive, quiet);
              View() == r.pool && finished == old(finished) + r.finished
    {
      activeCount := activeCount - 1;
      if !alive {
        finished := finished + [c];
        return;
      }
      if !quiet {
        finished := finished + [c];
        return;
      }
      if idleCount < maxSize {
        idleConns[idleCount] := c;
        idleCount := idleCount + 1;
      } else {
        finished := finished + [c];
      }
    }

    /** Shifts the entries after i one place to the left. */
    method RemoveAt(i: nat)
      requires Valid() && i < idleCount
      modifies this`idleCount, idleConns
      ensures Valid() && idleCount == old(idleCount) - 1
      ensures idleConns[..idleCount] == old(idleConns[..i] + idleConns[i + 1..idleCount])
    {
      ghost var all := idleConns[..];
      var j := i;
      while j < idleCount - 1
        invariant Valid() && idleCount == old(idleCount) && i <= j <= idleCount - 1
        invariant idleConns[..j] == all[..i] + all[i + 1..j + 1]
        invariant idleConns[j + 1..] == all[j + 1..]
      {
        ghost var tail := idleConns[j + 1..];
        assert idleConns[j + 1] == tail[0];
        idleConns[j] := idleConns[j + 1];
        assert all[i + 1..j + 2] == all[i + 1..j + 1] + [all[j + 1]];
        j := j + 1;
      }
      idleCount := idleCount - 1;
    }

    method CheckAt(i: nat, alive: Conn -> bool)
      requires Valid() && i < idleCount
      modifies this, idleConns
      ensures Valid() && idleConns == old(idleConns) && activeCount == old(activeCount) && i <= idleCount
      ensures var was := old(idleConns[..idleCount]);
              && idleConns[..idleCount] == was[..i] + Kept(was[i], alive) + was[i + 1..]
              && finished == old(finished) + if alive(was[i]) then [] else [was[i]]
    {
      ghost var was := idleConns[..idleCount];
      assert was == was[..i] + [was[i]] + was[i + 1..];
      if !alive(idleConns[i]) {
        finished := finished + [idleConns[i]];
        assert idleConns[..i] == was[..i] && idleConns[i + 1..idleCount] == was[i + 1..];
        assert was[..i] + [] + was[i + 1..] == was[..i] + was[i + 1..];
        RemoveAt(i);
      }
    }

    /** Leaves exactly the live connections, in their order, and closes each of the others once. */
    method HealthCheck(alive: Conn -> bool)
      requires Valid()
      modifies this, idleConns
      ensures Valid() && idleConns == old(idleConns) && activeCount == old(activeCount)
      ensures idleConns[..idleCount] == Living(old(idleConns[..idleCount]), alive)
      ensures multiset(finished) == multiset(old(finished)) + multiset(Dead(old(idleConns[..idleCount]), alive))
    {
      ghost var all := idleConns[..idleCount];
      var i := idleCount;
      assert all[i..] == [] && all == all[..i] + [];
      while i > 0
        invariant Valid() && idleConns == old(idleConns) && activeCount == old(activeCount)
        invariant i <= |all| && i <= idleCount
        invariant idleConns[..idleCount] == all[..i] + Living(all[i..], alive)
        invariant multiset(finished) == multiset(old(finished)) + multiset(Dead(all[i..], alive))
      {
        i := i - 1;
        LivingNext(all, i, alive);
        CutAt(all, i, Living(all[i + 1..], alive), alive);
        CheckAt(i, alive);
      }
      assert all[..0] + Living(all[0..], alive) == Living(all, alive) by {
        assert all[0..] == all;
      }
      assert all[0..] == all;
    }
  }

  function Kept(c: Conn, alive: Conn -> bool): seq<Conn> {
    if alive(c) then [c] else []
  }

  lemma CutAt(all: seq<Conn>, i: nat, rest: seq<Conn>, alive: Conn -> bool)
    requires i < |all|
    ensures var now := all[..i + 1] + rest;
            && now[i] == all[i]
            && now[..i] + Kept(now[i], alive) + now[i + 1..] == all[..i] + (Kept(all[i], alive) + rest)
  {
    var now := all[..i + 1] + rest;
    assert now[..i] == all[..i] && now[i + 1..] == rest;
  }
}
