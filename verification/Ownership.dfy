/**
 Who holds which backend connection: the pools, the sessions' backend and scatter slots, and the
 event registrations, as one state on which any number of sessions take turns.
 */
module Ownership {
  import opened Wrappers
  import opened Wire
  import opened Framing
  import opened Pool

  type Sid = nat

  /** The two kinds of places in a session that can hold a connection: backend_conn and scatter[i].conn. */
  datatype Pos = Main | Part(i: nat)

  datatype Holding = Holding(conn: Conn, pool: Option<nat>)

  datatype Slot = Slot(shard: nat, conn: Option<Conn>, done: bool)

  datatype Session = Session(
    state: State,
    backend: Option<Conn>,
    shard: Option<nat>,
    slots: seq<Slot>,
    scatterDone: nat,
    header: bool,
    log: seq<Msg>,
    queries: nat,
    rejected: nat)
  {
    function HeldAt(pos: Pos): Option<Holding> {
      match pos
      case Main => if backend.Some? then Some(Holding(backend.value, shard)) else None
      case Part(i) =>
        if i < |slots| && slots[i].conn.Some? then Some(Holding(slots[i].conn.value, Some(slots[i].shard))) else None
    }

    predicate HasRoomAt(pos: Pos, pool: Option<nat>) {
      HeldAt(pos).None? && (pos.Part? ==> pos.i < |slots| && pool == Some(slots[pos.i].shard))
    }

    function Put(pos: Pos, h: Holding): (s: Session)
      requires HasRoomAt(pos, h.pool)
      ensures forall p :: s.HeldAt(p) == if p == pos then Some(h) else HeldAt(p)
      ensures s.state == state && s.log == log && s.queries == queries && s.rejected == rejected
      ensures |s.slots| == |slots|
    {
      match pos
      case Main => this.(backend := Some(h.conn), shard := h.pool)
      case Part(i) => this.(slots := slots[i := slots[i].(conn := Some(h.conn))])
    }

    function Take(pos: Pos): (s: Session)
      requires HeldAt(pos).Some?
      ensures forall p :: s.HeldAt(p) == if p == pos then None else HeldAt(p)
      ensures s.state == state && s.log == log && s.queries == queries && s.rejected == rejected
      ensures |s.slots| == |slots|
    {
      match pos
      case Main => this.(backend := None, shard := None)
      case Part(i) => this.(slots := slots[i := slots[i].(conn := None)])
    }

    predicate NoSlotHolds() {
      forall i :: 0 <= i < |slots| ==> slots[i].conn.None?
    }
  }

  datatype Place = Idle(k: nat) | Held(sid: Sid, pos: Pos) | Gone

  /**
   The proxy. `finished` is the history of PQfinish calls and `home` says where each connection is;
   `dead` and `busy` are what libpq would report: the status is bad, a transaction or query is open.
   */
  datatype World = World(
    pools: seq<Pool>,
    sessions: map<Sid, Session>,
    registered: set<(Sid, Pos)>,
    finished: seq<Conn>,
    next: Conn,
    dead: set<Conn>,
    busy: set<Conn>,
    home: map<Conn, Place>)
  {
    function HeldIn(sid: Sid, pos: Pos): Option<Holding> {
      if sid in sessions then sessions[sid].HeldAt(pos) else None
    }

    /** The places holding a connection of pool k. */
    function Lenders(k: nat): set<(Sid, Pos)> {
      set p | p in registered && HeldIn(p.0, p.1).Some? && HeldIn(p.0, p.1).value.pool == Some(k)
    }

    predicate SitsAt(c: Conn, p: Place) {
      match p
      case Idle(k) => k < |pools| && c in pools[k].idle
      case Held(sid, pos) => HeldIn(sid, pos).Some? && HeldIn(sid, pos).value.conn == c
      case Gone => c in finished
    }
  }

  // ---------- The invariant ----------

  /** Every connection ever made has exactly one place, given by home. */
  ghost predicate HomesOk(w: World) {
    forall c: Conn :: HomeOk(w, c)
  }

  ghost predicate HomeOk(w: World, c: Conn) {
    && (c in w.home <==> c < w.next)
    && (c in w.home ==> w.SitsAt(c, w.home[c]))
    && (forall p :: w.SitsAt(c, p) ==> c in w.home && w.home[c] == p)
  }

  /** No list holds a connection twice, so PQfinish is called once. */
  ghost predicate ListsOk(w: World) {
    && Distinct(w.finished)
    && forall k :: 0 <= k < |w.pools| ==> Distinct(w.pools[k].idle)
  }

  ghost predicate PoolsOk(w: World) {
    && (forall k :: 0 <= k < |w.pools| ==> Ok(w.pools[k]) && w.pools[k].active == |w.Lenders(k)|)
    && (forall k, c :: 0 <= k < |w.pools| && c in w.pools[k].idle ==> c !in w.busy)
    && (forall c :: c in w.busy ==> c < w.next)
  }

  ghost predicate RegistrationsOk(w: World) {
    && (forall sid: Sid, pos :: (sid, pos) in w.registered <==> w.HeldIn(sid, pos).Some?)
    && (forall sid: Sid, pos :: w.HeldIn(sid, pos).Some? && w.HeldIn(sid, pos).value.pool.Some?
                           ==> w.HeldIn(sid, pos).value.pool.value < |w.pools|)
  }

  ghost predicate Inv(w: World) {
    HomesOk(w) && ListsOk(w) && PoolsOk(w) && RegistrationsOk(w)
  }

  // ---------- The operations ----------

  function SendTo(home: map<Conn, Place>, cs: seq<Conn>, p: Place): map<Conn, Place> {
    map c | c in home.Keys + (set x | x in cs) :: if c in cs then p else home[c]
  }

  function Opt<T>(o: Option<T>): seq<T> {
    if o.Some? then [o.value] else []
  }

  function Alive(dead: set<Conn>): Conn -> bool {
    c => c !in dead
  }

  /** conn_pool_acquire into a place of a session, and event_loop_add. */
  function AcquireAt(w: World, sid: Sid, pos: Pos, k: nat, connects: bool): World
    requires sid in w.sessions && k < |w.pools| && w.sessions[sid].HasRoomAt(pos, Some(k))
  {
    Taken(w, sid, pos, k, Acquire(w.pools[k], Alive(w.dead), w.next, connects))
  }

  function Taken(w: World, sid: Sid, pos: Pos, k: nat, r: Acquired): World
    requires sid in w.sessions && k < |w.pools| && w.sessions[sid].HasRoomAt(pos, Some(k))
  {
    var w' := w.(
      pools := w.pools[k := r.pool],
      finished := w.finished + r.finished,
      next := if r.dialled then w.next + 1 else w.next,
      home := SendTo(SendTo(w.home, r.finished, Gone), Opt(r.conn), Held(sid, pos)));
    if r.conn.None? then w'
    else w'.(sessions := w.sessions[sid := w.sessions[sid].Put(pos, Holding(r.conn.value, Some(k)))],
             registered := w.registered + {(sid, pos)})
  }

  /** connect_to_default's PQconnectdb, and event_loop_add if it worked. */
  function DialDefault(w: World, sid: Sid, connects: bool): World
    requires sid in w.sessions && w.sessions[sid].HasRoomAt(Main, None)
  {
    if connects then
      w.(next := w.next + 1,
         home := SendTo(w.home, [w.next], Held(sid, Main)),
         sessions := w.sessions[sid := w.sessions[sid].Put(Main, Holding(w.next, None))],
         registered := w.registered + {(sid, Main)})
    else
      w.(next := w.next + 1, finished := w.finished + [w.next], home := SendTo(w.home, [w.next], Gone))
  }

  /** event_loop_del, then conn_pool_release or PQfinish. */
  function ReleaseAt(w: World, sid: Sid, pos: Pos): World
    requires w.HeldIn(sid, pos).Some?
    requires var h := w.HeldIn(sid, pos).value; h.pool.Some? ==> h.pool.value < |w.pools|
  {
    var h := w.HeldIn(sid, pos).value;
    var w' := w.(sessions := w.sessions[sid := w.sessions[sid].Take(pos)],
                 registered := w.registered - {(sid, pos)});
    if h.pool.None? then
      w'.(finished := w.finished + [h.conn], home := SendTo(w.home, [h.conn], Gone))
    else
      var r := Release(w.pools[h.pool.value], h.conn, h.conn !in w.dead, h.conn !in w.busy);
      w'.(pools := w.pools[h.pool.value := r.pool],
          finished := w.finished + r.finished,
          home := SendTo(w.home, [h.conn], if r.finished == [] then Idle(h.pool.value) else Gone))
  }

  function CheckPool(w: World, k: nat): World
    requires k < |w.pools|
  {
    var idle, alive := w.pools[k].idle, Alive(w.dead);
    w.(pools := w.pools[k := w.pools[k].(idle := Living(idle, alive))],
       finished := w.finished + Dead(idle, alive),
       home := SendTo(w.home, Dead(idle, alive), Gone))
  }

  // ---------- Lists without repetition ----------

  lemma {:induction false} PopLiveSets(idle: seq<Conn>, alive: Conn -> bool)
    requires Distinct(idle)
    ensures var r := PopLive(idle, alive);
            && Distinct(r.rest) && Distinct(r.dead)
            && (forall c :: c in idle <==> c in r.rest || c in r.dead || r.conn == Some(c))
            && (forall c :: c in r.rest ==> c !in r.dead && r.conn != Some(c))
            && (forall c :: c in r.dead ==> r.conn != Some(c))
    decreases |idle|
  {
    if idle != [] {
      var last, front := idle[|idle| - 1], idle[..|idle| - 1];
      assert idle == front + [last];
      assert last !in front;
      if !alive(last) {
        PopLiveSets(front, alive);
        var r := PopLive(front, alive);
        assert forall c :: c in r.dead ==> c in front;
      }
    }
  }

  lemma {:induction false} LivingSets(idle: seq<Conn>, alive: Conn -> bool)
    requires Distinct(idle)
    ensures Distinct(Living(idle, alive)) && Distinct(Dead(idle, alive))
    ensures forall c :: c in Living(idle, alive) <==> c in idle && alive(c)
    ensures forall c :: c in Dead(idle, alive) <==> c in idle && !alive(c)
  {
    if idle != [] {
      LivingSets(idle[1..], alive);
      assert idle[0] !in idle[1..];
    }
  }

  lemma AppendDistinct(a: seq<Conn>, b: seq<Conn>)
    requires Distinct(a) && Distinct(b) && forall c :: c in a ==> c !in b
    ensures Distinct(a + b)
  {
    forall i, j | 0 <= i < j < |a + b|
      ensures (a + b)[i] != (a + b)[j]
    {
      if i < |a| <= j {
        assert a[i] in a && b[j - |a|] in b;
      }
    }
  }

  // ---------- Every operation keeps the invariant ----------

  /** What acquiring does to the pool's own lists. */
  lemma AcquireFacts(p: Pool, alive: Conn -> bool, next: Conn, connects: bool)
    requires Ok(p) && Distinct(p.idle) && forall c :: c in p.idle ==> c < next
    ensures var r := Acquire(p, alive, next, connects);
            && Ok(r.pool) && Distinct(r.pool.idle) && Distinct(r.finished)
            && (forall c :: c in r.pool.idle ==> c in p.idle && c !in r.finished && r.conn != Some(c))
            && (forall c :: c in r.finished ==> c in p.idle || (r.dialled && c == next))
            && (forall c :: c in p.idle ==> c in r.pool.idle || c in r.finished || r.conn == Some(c))
            && (r.dialled ==> next in r.finished || r.conn == Some(next))
            && (r.conn.Some? ==> r.conn.value !in r.finished)
            && (r.conn.Some? ==> r.conn.value in p.idle || (r.dialled && r.conn.value == next))
            && r.pool.active == p.active + |Opt(r.conn)|
  {
    AcquireOk(p, alive, next, connects);
    PopLiveSets(p.idle, alive);
    var dead := PopLive(p.idle, alive).dead;
    assert forall c :: c in dead ==> c in p.idle;
    AppendDistinct(dead, [next]);
  }

  /** Where a connection is after the call, compared with before. */
  lemma AcquireSits(w: World, sid: Sid, pos: Pos, k: nat, connects: bool, c: Conn, p: Place)
    requires sid in w.sessions && k < |w.pools| && w.sessions[sid].HasRoomAt(pos, Some(k))
    requires Ok(w.pools[k]) && Distinct(w.pools[k].idle) && forall c :: c in w.pools[k].idle ==> c < w.next
    ensures var r := Acquire(w.pools[k], Alive(w.dead), w.next, connects);
            AcquireAt(w, sid, pos, k, connects).SitsAt(c, p) <==>
            (w.SitsAt(c, p) && !(p == Idle(k) && (c in r.finished || r.conn == Some(c))))
            || (p == Gone && c in r.finished) || (p == Held(sid, pos) && r.conn == Some(c))
  {
    match p
    case Idle(j) => AcquireIdle(w, sid, pos, k, connects, c, j);
    case Held(s, q) => AcquireHolds(w, sid, pos, k, connects, c, s, q);
    case Gone =>
  }

  lemma AcquireIdle(w: World, sid: Sid, pos: Pos, k: nat, connects: bool, c: Conn, j: nat)
    requires sid in w.sessions && k < |w.pools| && w.sessions[sid].HasRoomAt(pos, Some(k))
    requires Ok(w.pools[k]) && Distinct(w.pools[k].idle) && forall c :: c in w.pools[k].idle ==> c < w.next
    ensures var r := Acquire(w.pools[k], Alive(w.dead), w.next, connects);
            AcquireAt(w, sid, pos, k, connects).SitsAt(c, Idle(j)) <==>
            w.SitsAt(c, Idle(j)) && !(j == k && (c in r.finished || r.conn == Some(c)))
  {
    AcquireFacts(w.pools[k], Alive(w.dead), w.next, connects);
    var r := Acquire(w.pools[k], Alive(w.dead), w.next, connects);
    assert AcquireAt(w, sid, pos, k, connects).pools == w.pools[k := r.pool];
  }

  lemma AcquireHolds(w: World, sid: Sid, pos: Pos, k: nat, connects: bool, c: Conn, s: Sid, q: Pos)
    requires sid in w.sessions && k < |w.pools| && w.sessions[sid].HasRoomAt(pos, Some(k))
    ensures var r := Acquire(w.pools[k], Alive(w.dead), w.next, connects);
            AcquireAt(w, sid, pos, k, connects).SitsAt(c, Held(s, q)) <==>
            w.SitsAt(c, Held(s, q)) || ((s, q) == (sid, pos) && r.conn == Some(c))
  {
    AcquireHeld(w, sid, pos, k, connects, s, q);
    assert w.HeldIn(sid, pos).None?;
  }

  lemma AcquireHome(w: World, sid: Sid, pos: Pos, k: nat, connects: bool, c: Conn)
    requires HomeOk(w, c) && sid in w.sessions && k < |w.pools| && w.sessions[sid].HasRoomAt(pos, Some(k))
    requires Ok(w.pools[k]) && Distinct(w.pools[k].idle) && forall c :: c in w.pools[k].idle ==> c < w.next
    requires c in w.pools[k].idle ==> w.home[c] == Idle(k)
    ensures HomeOk(AcquireAt(w, sid, pos, k, connects), c)
  {
    var w' := AcquireAt(w, sid, pos, k, connects);
    var r := Acquire(w.pools[k], Alive(w.dead), w.next, connects);
    forall p
      ensures w'.SitsAt(c, p) <==>
            (w.SitsAt(c, p) && !(p == Idle(k) && (c in r.finished || r.conn == Some(c))))
            || (p == Gone && c in r.finished) || (p == Held(sid, pos) && r.conn == Some(c))
    {
      AcquireSits(w, sid, pos, k, connects, c, p);
    }
    AcquireFacts(w.pools[k], Alive(w.dead), w.next, connects);
    assert w'.home == SendTo(SendTo(w.home, r.finished, Gone), Opt(r.conn), Held(sid, pos));
  }

  lemma AcquireHomes(w: World, sid: Sid, pos: Pos, k: nat, connects: bool)
    requires Inv(w) && sid in w.sessions && k < |w.pools| && w.sessions[sid].HasRoomAt(pos, Some(k))
    ensures HomesOk(AcquireAt(w, sid, pos, k, connects)) && ListsOk(AcquireAt(w, sid, pos, k, connects))
  {
    IdleHome(w, k);
    forall c: Conn
      ensures HomeOk(AcquireAt(w, sid, pos, k, connects), c)
    {
      assert HomeOk(w, c);
      AcquireHome(w, sid, pos, k, connects, c);
    }
    GoneHome(w);
    AcquireFacts(w.pools[k], Alive(w.dead), w.next, connects);
    AppendDistinct(w.finished, Acquire(w.pools[k], Alive(w.dead), w.next, connects).finished);
  }

  /** HeldIn changes only at the place in question. */
  lemma AcquireHeld(w: World, sid: Sid, pos: Pos, k: nat, connects: bool, s: Sid, q: Pos)
    requires sid in w.sessions && k < |w.pools| && w.sessions[sid].HasRoomAt(pos, Some(k))
    ensures var r := Acquire(w.pools[k], Alive(w.dead), w.next, connects);
            AcquireAt(w, sid, pos, k, connects).HeldIn(s, q)
            == if (s, q) == (sid, pos) && r.conn.Some? then Some(Holding(r.conn.value, Some(k))) else w.HeldIn(s, q)
  {
  }

  lemma LendersSame(w: World, w': World, j: nat)
    requires w'.registered == w.registered
    requires forall s: Sid, q: Pos :: w'.HeldIn(s, q) == w.HeldIn(s, q)
    ensures w'.Lenders(j) == w.Lenders(j)
  {
  }

  lemma LendersPlus(w: World, w': World, sid: Sid, pos: Pos, h: Holding, j: nat)
    requires (sid, pos) !in w.registered && w'.registered == w.registered + {(sid, pos)}
    requires forall s: Sid, q: Pos :: w'.HeldIn(s, q) == if (s, q) == (sid, pos) then Some(h) else w.HeldIn(s, q)
    ensures |w'.Lenders(j)| == |w.Lenders(j)| + if h.pool == Some(j) then 1 else 0
  {
    if h.pool == Some(j) {
      assert w'.Lenders(j) == w.Lenders(j) + {(sid, pos)};
    } else {
      assert w'.Lenders(j) == w.Lenders(j);
    }
  }

  lemma AcquireLenders(w: World, sid: Sid, pos: Pos, k: nat, connects: bool, j: nat)
    requires RegistrationsOk(w) && sid in w.sessions && k < |w.pools| && w.sessions[sid].HasRoomAt(pos, Some(k))
    ensures var r := Acquire(w.pools[k], Alive(w.dead), w.next, connects);
            |AcquireAt(w, sid, pos, k, connects).Lenders(j)|
            == |w.Lenders(j)| + if j == k then |Opt(r.conn)| else 0
  {
    var w' := AcquireAt(w, sid, pos, k, connects);
    var r := Acquire(w.pools[k], Alive(w.dead), w.next, connects);
    assert w.HeldIn(sid, pos).None?;
    forall s: Sid, q: Pos
      ensures w'.HeldIn(s, q)
           == if (s, q) == (sid, pos) && r.conn.Some? then Some(Holding(r.conn.value, Some(k))) else w.HeldIn(s, q)
    {
      AcquireHeld(w, sid, pos, k, connects, s, q);
    }
    if r.conn.Some? {
      LendersPlus(w, w', sid, pos, Holding(r.conn.value, Some(k)), j);
    } else {
      LendersSame(w, w', j);
    }
  }

  lemma AcquireRegistrations(w: World, sid: Sid, pos: Pos, k: nat, connects: bool)
    requires RegistrationsOk(w) && sid in w.sessions && k < |w.pools| && w.sessions[sid].HasRoomAt(pos, Some(k))
    ensures RegistrationsOk(AcquireAt(w, sid, pos, k, connects))
  {
    var w' := AcquireAt(w, sid, pos, k, connects);
    forall s: Sid, q: Pos
      ensures (s, q) in w'.registered <==> w'.HeldIn(s, q).Some?
      ensures w'.HeldIn(s, q).Some? && w'.HeldIn(s, q).value.pool.Some? ==>
                w'.HeldIn(s, q).value.pool.value < |w'.pools|
    {
      AcquireHeld(w, sid, pos, k, connects, s, q);
      assert (s, q) in w.registered <==> w.HeldIn(s, q).Some?;
    }
  }

  /** Acquiring keeps the invariant, and hands out only connections without an open transaction. */
  lemma AcquireInv(w: World, sid: Sid, pos: Pos, k: nat, connects: bool)
    requires Inv(w) && sid in w.sessions && k < |w.pools| && w.sessions[sid].HasRoomAt(pos, Some(k))
    ensures var w' := AcquireAt(w, sid, pos, k, connects);
            && Inv(w')
            && (w'.HeldIn(sid, pos).Some? ==> w'.HeldIn(sid, pos).value.conn !in w'.busy)
  {
    var w' := AcquireAt(w, sid, pos, k, connects);
    AcquireHomes(w, sid, pos, k, connects);
    AcquireRegistrations(w, sid, pos, k, connects);
    AcquireHeld(w, sid, pos, k, connects, sid, pos);
    IdleHome(w, k);
    AcquireFacts(w.pools[k], Alive(w.dead), w.next, connects);
    forall j | 0 <= j < |w'.pools|
      ensures Ok(w'.pools[j]) && w'.pools[j].active == |w'.Lenders(j)|
    {
      AcquireLenders(w, sid, pos, k, connects, j);
    }
  }

  /** A connection that is acquired was idle in the pool or is new, so no place held it. */
  lemma AcquiredFresh(w: World, sid: Sid, pos: Pos, k: nat, connects: bool)
    requires Inv(w) && sid in w.sessions && k < |w.pools| && w.sessions[sid].HasRoomAt(pos, Some(k))
    ensures var c := Acquire(w.pools[k], Alive(w.dead), w.next, connects).conn;
            c.Some? ==> c.value == w.next || c.value in w.pools[k].idle
  {
    PopLiveParts(w.pools[k].idle, Alive(w.dead));
    var r := PopLive(w.pools[k].idle, Alive(w.dead));
    if r.conn.Some? {
      assert r.conn.value in multiset(w.pools[k].idle);
    }
  }

  lemma HeldIsNotFresh(w: World, sid: Sid, pos: Pos, k: nat, c: Conn)
    requires Inv(w) && w.HeldIn(sid, pos).Some?
    requires c == w.next || (k < |w.pools| && c in w.pools[k].idle)
    ensures c != w.HeldIn(sid, pos).value.conn
  {
    var d := w.HeldIn(sid, pos).value.conn;
    assert HomeOk(w, d) && HomeOk(w, c);
    assert w.SitsAt(d, Held(sid, pos));
    if c != w.next {
      assert w.SitsAt(c, Idle(k));
    }
  }

  // Releasing

  /** A default connection is closed, and so is one with an open transaction. */
  lemma ReleaseCloses(w: World, sid: Sid, pos: Pos)
    requires w.HeldIn(sid, pos).Some?
    requires var h := w.HeldIn(sid, pos).value; h.pool.Some? ==> h.pool.value < |w.pools|
    ensures var w', h := ReleaseAt(w, sid, pos), w.HeldIn(sid, pos).value;
            && w.finished <= w'.finished && w'.busy == w.busy
            && (h.pool.None? || h.conn in w.busy ==> h.conn in w'.finished)
  {
  }

  lemma ReleaseHeld(w: World, sid: Sid, pos: Pos, s: Sid, q: Pos)
    requires w.HeldIn(sid, pos).Some?
    requires var h := w.HeldIn(sid, pos).value; h.pool.Some? ==> h.pool.value < |w.pools|
    ensures ReleaseAt(w, sid, pos).HeldIn(s, q) == if (s, q) == (sid, pos) then None else w.HeldIn(s, q)
  {
  }

  lemma ReleaseSits(w: World, sid: Sid, pos: Pos, c: Conn, p: Place)
    requires w.HeldIn(sid, pos).Some?
    requires var h := w.HeldIn(sid, pos).value; h.pool.Some? ==> h.pool.value < |w.pools|
    requires var h := w.HeldIn(sid, pos).value; h.pool.Some? ==> Ok(w.pools[h.pool.value]) && w.pools[h.pool.value].active > 0
    ensures var w', h := ReleaseAt(w, sid, pos), w.HeldIn(sid, pos).value;
            w'.SitsAt(c, p) <==> (w.SitsAt(c, p) && p != Held(sid, pos)) || (c == h.conn && p == w'.home[c])
  {
    ReleaseHeld(w, sid, pos, if p.Held? then p.sid else sid, if p.Held? then p.pos else pos);
    var h := w.HeldIn(sid, pos).value;
    if h.pool.Some? {
      ReleaseHasRoom(w.pools[h.pool.value], h.conn, h.conn !in w.dead, h.conn !in w.busy);
    }
    match p
    case Idle(j) =>
    case Held(s, q) =>
    case Gone =>
  }

  lemma LenderCounted(w: World, sid: Sid, pos: Pos)
    requires PoolsOk(w) && RegistrationsOk(w) && w.HeldIn(sid, pos).Some?
    ensures var h := w.HeldIn(sid, pos).value;
            h.pool.Some? ==> h.pool.value < |w.pools| && Ok(w.pools[h.pool.value]) && w.pools[h.pool.value].active > 0
  {
    var h := w.HeldIn(sid, pos).value;
    if h.pool.Some? {
      assert (sid, pos) in w.registered;
      assert (sid, pos) in w.Lenders(h.pool.value);
      assert w.Lenders(h.pool.value) != {};
    }
  }

  lemma ReleaseHomes(w: World, sid: Sid, pos: Pos)
    requires Inv(w) && w.HeldIn(sid, pos).Some?
    ensures HomesOk(ReleaseAt(w, sid, pos)) && ListsOk(ReleaseAt(w, sid, pos))
  {
    LenderCounted(w, sid, pos);
    var w', h := ReleaseAt(w, sid, pos), w.HeldIn(sid, pos).value;
    assert HomeOk(w, h.conn) && w.SitsAt(h.conn, Held(sid, pos));
    forall c: Conn
      ensures HomeOk(w', c)
    {
      assert HomeOk(w, c);
      forall p
        ensures w'.SitsAt(c, p) <==> (w.SitsAt(c, p) && p != Held(sid, pos)) || (c == h.conn && p == w'.home[c])
      {
        ReleaseSits(w, sid, pos, c, p);
      }
    }
    GoneHome(w);
    assert h.conn !in w.finished;
    AppendDistinct(w.finished, [h.conn]);
    AppendDistinct(w.finished, []);
    if h.pool.Some? {
      IdleHome(w, h.pool.value);
      AppendDistinct(w.pools[h.pool.value].idle, [h.conn]);
    }
  }

  lemma ReleaseLender(w: World, sid: Sid, pos: Pos, j: nat, p: (Sid, Pos))
    requires RegistrationsOk(w) && w.HeldIn(sid, pos).Some?
    requires var h := w.HeldIn(sid, pos).value; h.pool.Some? ==> h.pool.value < |w.pools|
    ensures p in ReleaseAt(w, sid, pos).Lenders(j) <==> p in w.Lenders(j) && p != (sid, pos)
  {
    ReleaseHeld(w, sid, pos, p.0, p.1);
  }

  lemma ReleaseLenders(w: World, sid: Sid, pos: Pos, j: nat)
    requires RegistrationsOk(w) && w.HeldIn(sid, pos).Some?
    requires var h := w.HeldIn(sid, pos).value; h.pool.Some? ==> h.pool.value < |w.pools|
    ensures |ReleaseAt(w, sid, pos).Lenders(j)|
         == |w.Lenders(j)| - if w.HeldIn(sid, pos).value.pool == Some(j) then 1 else 0
  {
    var before, after := w.Lenders(j), ReleaseAt(w, sid, pos).Lenders(j);
    forall p: (Sid, Pos)
      ensures p in after <==> p in before && p != (sid, pos)
    {
      ReleaseLender(w, sid, pos, j, p);
    }
    assert after == before - {(sid, pos)};
    assert (sid, pos) in w.registered;
    assert (sid, pos) in before <==> w.HeldIn(sid, pos).value.pool == Some(j);
  }

  /** Releasing keeps the invariant; a connection goes back to its pool only if it is alive and quiet. */
  lemma ReleaseInv(w: World, sid: Sid, pos: Pos)
    requires Inv(w) && w.HeldIn(sid, pos).Some?
    ensures Inv(ReleaseAt(w, sid, pos))
    ensures var c := w.HeldIn(sid, pos).value.conn;
            ReleaseAt(w, sid, pos).home[c].Idle? <==>
            w.HeldIn(sid, pos).value.pool.Some? && c !in w.dead && c !in w.busy
  {
    LenderCounted(w, sid, pos);
    ReleaseHomes(w, sid, pos);
    var w', h := ReleaseAt(w, sid, pos), w.HeldIn(sid, pos).value;
    forall s: Sid, q: Pos
      ensures (s, q) in w'.registered <==> w'.HeldIn(s, q).Some?
      ensures w'.HeldIn(s, q).Some? && w'.HeldIn(s, q).value.pool.Some? ==>
                w'.HeldIn(s, q).value.pool.value < |w'.pools|
    {
      ReleaseHeld(w, sid, pos, s, q);
      assert (s, q) in w.registered <==> w.HeldIn(s, q).Some?;
    }
    if h.pool.Some? {
      ReleaseHasRoom(w.pools[h.pool.value], h.conn, h.conn !in w.dead, h.conn !in w.busy);
    }
    forall j | 0 <= j < |w'.pools|
      ensures Ok(w'.pools[j]) && w'.pools[j].active == |w'.Lenders(j)|
    {
      ReleaseLenders(w, sid, pos, j);
    }
  }

  // Connecting to the default backend

  lemma DialHeld(w: World, sid: Sid, connects: bool, s: Sid, q: Pos)
    requires sid in w.sessions && w.sessions[sid].HasRoomAt(Main, None)
    ensures DialDefault(w, sid, connects).HeldIn(s, q)
         == if (s, q) == (sid, Main) && connects then Some(Holding(w.next, None)) else w.HeldIn(s, q)
  {
  }

  lemma DialSits(w: World, sid: Sid, connects: bool, c: Conn, p: Place)
    requires sid in w.sessions && w.sessions[sid].HasRoomAt(Main, None)
    ensures DialDefault(w, sid, connects).SitsAt(c, p) <==>
            w.SitsAt(c, p) || (c == w.next && p == if connects then Held(sid, Main) else Gone)
  {
    DialHeld(w, sid, connects, if p.Held? then p.sid else sid, if p.Held? then p.pos else Main);
    match p
    case Idle(j) =>
    case Held(s, q) =>
    case Gone =>
  }

  lemma DialInv(w: World, sid: Sid, connects: bool)
    requires Inv(w) && sid in w.sessions && w.sessions[sid].HasRoomAt(Main, None)
    ensures Inv(DialDefault(w, sid, connects))
    ensures DialDefault(w, sid, connects).HeldIn(sid, Main).Some? <==> connects
  {
    var w' := DialDefault(w, sid, connects);
    forall c: Conn
      ensures HomeOk(w', c)
    {
      assert HomeOk(w, c);
      forall p
        ensures w'.SitsAt(c, p) <==> w.SitsAt(c, p) || (c == w.next && p == if connects then Held(sid, Main) else Gone)
      {
        DialSits(w, sid, connects, c, p);
      }
    }
    forall s: Sid, q: Pos
      ensures w'.HeldIn(s, q)
           == if (s, q) == (sid, Main) && connects then Some(Holding(w.next, None)) else w.HeldIn(s, q)
      ensures (s, q) in w'.registered <==> w'.HeldIn(s, q).Some?
    {
      DialHeld(w, sid, connects, s, q);
      assert (s, q) in w.registered <==> w.HeldIn(s, q).Some?;
    }
    GoneHome(w);
    AppendDistinct(w.finished, [w.next]);
    forall j | 0 <= j < |w'.pools|
      ensures w'.Lenders(j) == w.Lenders(j)
    {
      if !connects {
        LendersSame(w, w', j);
      }
    }
  }

  // The health check

  lemma CheckInv(w: World, k: nat)
    requires Inv(w) && k < |w.pools|
    ensures Inv(CheckPool(w, k))
    ensures forall c :: c in CheckPool(w, k).pools[k].idle <==> c in w.pools[k].idle && c !in w.dead
  {
    var w' := CheckPool(w, k);
    var alive := Alive(w.dead);
    IdleHome(w, k);
    GoneHome(w);
    LivingSets(w.pools[k].idle, alive);
    AppendDistinct(w.finished, Dead(w.pools[k].idle, alive));
    forall c: Conn
      ensures HomeOk(w', c)
    {
      assert HomeOk(w, c);
      forall p
        ensures w'.SitsAt(c, p) <==>
                (w.SitsAt(c, p) && !(p == Idle(k) && c in w.dead)) || (p == Gone && c in w.pools[k].idle && c in w.dead)
      {
        CheckSits(w, k, c, p);
      }
    }
    forall s: Sid, q: Pos
      ensures w'.HeldIn(s, q) == w.HeldIn(s, q)
    {
    }
    forall j | 0 <= j < |w'.pools|
      ensures w'.Lenders(j) == w.Lenders(j)
    {
      LendersSame(w, w', j);
    }
  }

  lemma CheckSits(w: World, k: nat, c: Conn, p: Place)
    requires k < |w.pools| && Distinct(w.pools[k].idle)
    ensures CheckPool(w, k).SitsAt(c, p) <==>
            (w.SitsAt(c, p) && !(p == Idle(k) && c in w.dead)) || (p == Gone && c in w.pools[k].idle && c in w.dead)
  {
    LivingSets(w.pools[k].idle, Alive(w.dead));
    match p
    case Idle(j) =>
    case Held(s, q) =>
    case Gone =>
  }

  // Steps that move no connection

  /** Nothing the invariant is about changes. */
  predicate SameLists(w: World, w': World) {
    && w'.pools == w.pools && w'.registered == w.registered && w'.finished == w.finished
    && w'.next == w.next && w'.home == w.home
  }

  lemma SameInv(w: World, w': World)
    requires Inv(w) && SameLists(w, w')
    requires forall s: Sid, q: Pos :: w'.HeldIn(s, q) == w.HeldIn(s, q)
    requires forall c :: c in w'.busy && c !in w.busy ==> c in w.home && w.home[c].Held?
    ensures Inv(w')
  {
    forall c: Conn
      ensures HomeOk(w', c)
    {
      assert HomeOk(w, c);
      forall p
        ensures w'.SitsAt(c, p) <==> w.SitsAt(c, p)
      {
        match p
        case Idle(j) =>
        case Held(s, q) =>
        case Gone =>
      }
    }
    forall k, c | 0 <= k < |w.pools| && c in w.pools[k].idle
      ensures c !in w'.busy
    {
      assert HomeOk(w, c) && w.SitsAt(c, Idle(k));
    }
    forall c | c in w'.busy
      ensures c < w'.next
    {
      assert HomeOk(w, c);
    }
    forall j | 0 <= j < |w'.pools|
      ensures w'.Lenders(j) == w.Lenders(j)
    {
      LendersSame(w, w', j);
    }
  }

  // Steps that move no connection

  lemma UpdatedInv(w: World, sid: Sid, s: Session)
    requires Inv(w) && sid in w.sessions && forall p :: s.HeldAt(p) == w.sessions[sid].HeldAt(p)
    ensures Inv(w.(sessions := w.sessions[sid := s]))
  {
    SameInv(w, w.(sessions := w.sessions[sid := s]));
  }

  lemma RemovedInv(w: World, sid: Sid)
    requires Inv(w) && sid in w.sessions && forall p :: w.sessions[sid].HeldAt(p).None?
    ensures Inv(w.(sessions := w.sessions - {sid}))
  {
    SameInv(w, w.(sessions := w.sessions - {sid}));
  }

  lemma AddedInv(w: World, sid: Sid, s: Session)
    requires Inv(w) && sid !in w.sessions && forall p :: s.HeldAt(p).None?
    ensures Inv(w.(sessions := w.sessions[sid := s]))
  {
    SameInv(w, w.(sessions := w.sessions[sid := s]));
  }

  lemma BusyInv(w: World, sid: Sid, pos: Pos, busy: set<Conn>)
    requires Inv(w) && w.HeldIn(sid, pos).Some? && busy <= w.busy + {w.HeldIn(sid, pos).value.conn}
    ensures Inv(w.(busy := busy))
  {
    var c := w.HeldIn(sid, pos).value.conn;
    assert HomeOk(w, c) && w.SitsAt(c, Held(sid, pos));
    SameInv(w, w.(busy := busy));
  }

  lemma DeadInv(w: World, dead: set<Conn>)
    requires Inv(w)
    ensures Inv(w.(dead := dead))
  {
    SameInv(w, w.(dead := dead));
  }

  function InitialWorld(limits: seq<nat>): World {
    World(seq(|limits|, k requires 0 <= k < |limits| => Pool([], 0, limits[k])), map[], {}, [], 0, {}, {}, map[])
  }

  lemma InitInv(limits: seq<nat>)
    ensures Inv(InitialWorld(limits))
  {
    var w := InitialWorld(limits);
    forall j | 0 <= j < |w.pools|
      ensures w.Lenders(j) == {}
    {
    }
  }

  // ---------- What the invariant says ----------

  /** A connection is in one place and one place only, and was closed at most once. */
  lemma OnePlace(w: World, c: Conn)
    requires Inv(w) && c < w.next
    ensures exists p :: w.SitsAt(c, p) && forall q :: w.SitsAt(c, q) ==> q == p
    ensures |multiset(w.finished)| == |w.finished| && multiset(w.finished)[c] <= 1
  {
    assert HomeOk(w, c);
    assert w.SitsAt(c, w.home[c]);
    DistinctCount(w.finished, c);
  }

  /** Two places never hold the same connection. */
  lemma NoSharing(w: World, a: (Sid, Pos), b: (Sid, Pos))
    requires Inv(w) && w.HeldIn(a.0, a.1).Some? && w.HeldIn(b.0, b.1).Some?
    requires w.HeldIn(a.0, a.1).value.conn == w.HeldIn(b.0, b.1).value.conn
    ensures a == b
  {
    var c := w.HeldIn(a.0, a.1).value.conn;
    assert HomeOk(w, c);
    assert w.SitsAt(c, Held(a.0, a.1)) && w.SitsAt(c, Held(b.0, b.1));
  }

  /**
   execute_scatter clears the slots without looking: no connection is lost exactly when none was there.
   A backend event that ends a request while a scatter is running would let that happen.
   */
  lemma ClearedSlotsExactly(w: World, sid: Sid, slots: seq<Slot>)
    requires Inv(w) && sid in w.sessions && forall i :: 0 <= i < |slots| ==> slots[i].conn.None?
    ensures Inv(w.(sessions := w.sessions[sid := w.sessions[sid].(slots := slots)])) <==> w.sessions[sid].NoSlotHolds()
  {
    var s := w.sessions[sid];
    var w' := w.(sessions := w.sessions[sid := s.(slots := slots)]);
    if s.NoSlotHolds() {
      forall t: Sid, q: Pos
        ensures w'.HeldIn(t, q) == w.HeldIn(t, q)
      {
      }
      SameInv(w, w');
    } else {
      var i :| 0 <= i < |s.slots| && s.slots[i].conn.Some?;
      var c := s.slots[i].conn.value;
      assert HomeOk(w, c) && w.SitsAt(c, Held(sid, Part(i)));
      assert !w'.SitsAt(c, Held(sid, Part(i)));
      assert !HomeOk(w', c);
    }
  }

  lemma IdleHome(w: World, k: nat)
    requires HomesOk(w) && k < |w.pools|
    ensures forall c :: c in w.pools[k].idle ==> c in w.home && w.home[c] == Idle(k) && c < w.next
  {
    forall c | c in w.pools[k].idle
      ensures c in w.home && w.home[c] == Idle(k) && c < w.next
    {
      assert HomeOk(w, c) && w.SitsAt(c, Idle(k));
    }
  }

  lemma GoneHome(w: World)
    requires HomesOk(w)
    ensures forall c :: c in w.finished ==> c in w.home && w.home[c] == Gone && c < w.next
  {
    forall c | c in w.finished
      ensures c in w.home && w.home[c] == Gone && c < w.next
    {
      assert HomeOk(w, c) && w.SitsAt(c, Gone);
    }
  }
}
