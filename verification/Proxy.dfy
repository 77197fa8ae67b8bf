/**
 The event callbacks of src/session/session.c and the query execution of src/protocol/fe_protocol.c
 on the shared state: any number of sessions, one pool per shard, one set of registrations. Every
 callback keeps the ownership invariant and every session's ledger, so every run does.
 */
module Proxy {
  import opened Wrappers
  import opened Wire
  import opened Results
  import opened Framing
  import opened Pool
  import opened Ownership
  import opened Sessions
  import opened Gather

  /** Where handle_query sends a query; NoMap is a proxy without shards. */
  datatype Plan = SyntaxError | Local | NoMap | ToDefault | ToShard(k: nat) | ToAll(targets: seq<nat>)

  /** What libpq answers while a query is sent: does connecting work, does sending work. */
  datatype Luck = Luck(connects: nat -> bool, sends: nat -> bool)

  /** A readable backend: an error, an incomplete result, or results and the transaction state after them. */
  datatype BackendEvent = HangUp | Incomplete | Finished(results: seq<Result>, txn: Txn, copied: seq<Bytes>, copyEnd: CopyEnd)

  datatype SlotReadable = SlotIncomplete | SlotEnds(ev: SlotEvent, quiet: bool)

  datatype Event =
    | Accept(sid: Sid)
    | Startup(sid: Sid)
    | Extended(sid: Sid)
    | Query(sid: Sid, plan: Plan, luck: Luck)
    | CopyInput(sid: Sid, last: bool, accepted: bool)
    | BackendReadable(sid: Sid, be: BackendEvent)
    | SlotAnswers(sid: Sid, i: nat, sr: SlotReadable)
    | Disconnect(sid: Sid)
    | HealthCheck
    | Dies(c: Conn)

  ghost predicate AllOk(w: World) {
    Inv(w) && forall sid :: sid in w.sessions ==> SessionOk(w.sessions[sid])
  }

  /** The slots of a scatter in the making: the first n have been tried. */
  predicate Filling(s: Session, targets: seq<nat>, n: nat) {
    && n <= |targets| == |s.slots|
    && s.scatterDone == |DoneSlots(s)|
    && (forall j :: 0 <= j < |targets| ==> s.slots[j].shard == targets[j])
    && (forall j :: 0 <= j < n ==> (s.slots[j].done <==> s.slots[j].conn.None?))
    && (forall j :: n <= j < |targets| ==> !s.slots[j].done && s.slots[j].conn.None?)
  }

  function WithConn(s: Session, i: nat, conn: Option<Conn>): Session
    requires i < |s.slots|
  {
    s.(slots := s.slots[i := s.slots[i].(conn := conn)])
  }

  function MarkFailed(s: Session, i: nat): Session
    requires i < |s.slots|
  {
    s.(slots := s.slots[i := s.slots[i].(done := true)], scatterDone := s.scatterDone + 1)
  }

  lemma FillStep(s: Session, targets: seq<nat>, i: nat, conn: Option<Conn>)
    requires Filling(s, targets, i) && i < |targets|
    ensures Filling(if conn.Some? then WithConn(s, i, conn) else MarkFailed(WithConn(s, i, conn), i), targets, i + 1)
  {
    var s' := if conn.Some? then WithConn(s, i, conn) else MarkFailed(WithConn(s, i, conn), i);
    if conn.Some? {
      assert DoneSlots(s') == DoneSlots(s);
    } else {
      assert DoneSlots(s') == DoneSlots(s) + {i};
    }
  }

  /** The counter is full exactly when no slot holds a connection. */
  lemma FullExactly(s: Session, targets: seq<nat>)
    requires Filling(s, targets, |targets|)
    ensures s.scatterDone <= |targets|
    ensures s.scatterDone == |targets| <==> s.NoSlotHolds()
  {
    var all := UpTo(|targets|);
    assert DoneSlots(s) <= all;
    SubsetSize(DoneSlots(s), all);
    if s.NoSlotHolds() {
      assert all <= DoneSlots(s);
    }
    if DoneSlots(s) == all {
      forall j | 0 <= j < |targets|
        ensures s.slots[j].conn.None?
      {
        assert j in all;
      }
    }
  }

  predicate SentOrRefused(s: Session, s': Session) {
    && s'.queries == s.queries + 1 && s'.rejected == s.rejected
    && ((s'.state == QUERY && s'.backend.Some? && s'.log == s.log) || (s'.state == READY && s'.log == s.log + REFUSAL))
  }

  /** A scatter on its way: no header yet, and the slots that could not be sent to are counted as ended. */
  predicate Started(s: Session) {
    && !s.header && s.scatterDone == |DoneSlots(s)|
    && forall i :: 0 <= i < |s.slots| ==> (s.slots[i].done <==> s.slots[i].conn.None?)
  }

  /** Sent to one shard at least, or refused. */
  predicate Sent(s: Session, s': Session, targets: seq<nat>) {
    && |s'.slots| == |targets| && (forall i :: 0 <= i < |targets| ==> s'.slots[i].shard == targets[i])
    && ((s'.state == SCATTER && s'.log == s.log && s'.scatterDone < |s'.slots| && !s'.NoSlotHolds() && Started(s'))
        || (s'.state == READY && s'.log == s.log + REFUSAL && s'.NoSlotHolds()))
  }

  predicate ScatteredOrRefused(s: Session, s': Session, targets: seq<nat>) {
    s'.queries == s.queries + 1 && s'.rejected == s.rejected && Sent(s, s', targets)
  }

  lemma ScatterCounted(s: Session, s': Session, targets: seq<nat>)
    requires SessionOk(s) && s.state == READY && Sent(s, s', targets) && |targets| <= MAX_SCATTER_SHARDS
    requires s' == s.(slots := s'.slots, scatterDone := s'.scatterDone, header := false, state := s'.state, log := s'.log)
    ensures var r := s'.(queries := s'.queries + 1); SessionOk(r) && ScatteredOrRefused(s, r, targets)
  {
    ReplyCounts();
    AnsweredAtOnce(s, REFUSAL);
    var r := s'.(queries := s'.queries + 1);
    assert DoneSlots(r) == DoneSlots(s');
  }

  /** A query is answered at once, or it waits on connections to just the shards it was routed to. */
  predicate Handled(s: Session, s': Session, plan: Plan) {
    match plan
    case SyntaxError => s' == Say(s, REFUSAL).(queries := s.queries + 1)
    case Local => s' == Say(s, LOCAL_MSGS).(queries := s.queries + 1)
    case NoMap => SentOrRefused(s, s')
    case ToDefault => SentOrRefused(s, s') && (s'.state == QUERY ==> s'.shard == None)
    case ToShard(k) => SentOrRefused(s, s') && (s'.state == QUERY ==> s'.shard == Some(k))
    case ToAll(targets) => ScatteredOrRefused(s, s', targets)
  }

  /** Which events can happen: a callback runs only while it is registered. */
  predicate Possible(e: Event, sessions: map<Sid, Session>, registered: set<(Sid, Pos)>, n: nat) {
    match e
    case Accept(sid) => sid !in sessions
    case Startup(sid) => sid in sessions && sessions[sid].state == INIT
    case Extended(sid) => sid in sessions && sessions[sid].state == READY
    case Query(sid, plan, _) => sid in sessions && sessions[sid].state == READY && PlanInRange(plan, n)
    case CopyInput(sid, _, _) => sid in sessions && sessions[sid].state == COPY_IN
    case BackendReadable(sid, be) =>
      (sid, Main) in registered && (be.Finished? ==> sid in sessions && sessions[sid].state in {QUERY, COPY_IN, COPY_OUT})
    case SlotAnswers(sid, i, _) => (sid, Part(i)) in registered
    case Disconnect(sid) => sid in sessions
    case HealthCheck => true
    case Dies(_) => true
  }

  predicate PlanInRange(plan: Plan, n: nat) {
    && (plan.ToShard? ==> plan.k < n)
    && (plan.ToAll? ==> forall i :: 0 <= i < |plan.targets| ==> plan.targets[i] < n)
  }

  // ---------- What a query does to the connection at hand ----------

  /** The connection that a session had is closed, if it was the default one or had a transaction open. */
  predicate Dropped(w: World, sid: Sid, finished: seq<Conn>)
    requires sid in w.sessions
  {
    var s := w.sessions[sid];
    s.backend.Some? && (s.shard.None? || s.backend.value in w.busy) ==> s.backend.value in finished
  }

  predicate SameBackend(s: Session, s': Session) {
    s'.backend == s.backend && s'.shard == s.shard
  }

  /** A query for one backend can use the connection at hand; the others leave it alone. */
  predicate Suits(s: Session, plan: Plan, dead: set<Conn>) {
    match plan
    case NoMap => s.backend.Some? && s.backend.value !in dead
    case ToDefault => s.shard == None
    case ToShard(k) => s.shard == Some(k)
    case _ => true
  }

  /** The session goes on with the connection it had exactly when that fits; one that does not fit is let go. */
  predicate Passed(w: World, sid: Sid, s': Session, fits: bool, finished: seq<Conn>)
    requires sid in w.sessions
  {
    var s := w.sessions[sid];
    s.backend.Some? ==>
      if fits then s'.backend == s.backend && s'.shard == s.shard
      else s'.backend != s.backend && Dropped(w, sid, finished)
  }

  /** A connection from another pool, or a new one, is not the one the session had. */
  lemma Changed(w: World, sid: Sid, target: Option<nat>, c: Option<Conn>)
    requires Inv(w) && sid in w.sessions && (target.Some? ==> target.value < |w.pools|)
    requires c.Some? ==> c.value == w.next || (target.Some? && c.value in w.pools[target.value].idle)
    ensures w.sessions[sid].backend.Some? ==> c != w.sessions[sid].backend
  {
    if w.sessions[sid].backend.Some? && c.Some? {
      assert w.HeldIn(sid, Main).Some?;
      HeldIsNotFresh(w, sid, Main, if target.Some? then target.value else 0, c.value);
    }
  }

  // ---------- What an event does ----------

  /** The slots are given up when the scatter is over. */
  function Cleared(s: Session): Session {
    if s.state == READY then s.(slots := [], scatterDone := 0, header := false) else s
  }

  predicate Checked(before: seq<Pool>, after: seq<Pool>, dead: set<Conn>) {
    |after| == |before| &&
    forall k :: 0 <= k < |before| ==> after[k] == before[k].(idle := Living(before[k].idle, Alive(dead)))
  }

  predicate QueryEffect(w: World, sid: Sid, plan: Plan, w': World)
    requires sid in w.sessions
  {
    if plan.ToAll? && |plan.targets| > MAX_SCATTER_SHARDS then w'.sessions == w.sessions - {sid}
    else
      && sid in w'.sessions && w'.sessions == w.sessions[sid := w'.sessions[sid]]
      && Handled(w.sessions[sid], w'.sessions[sid], plan)
      && Passed(w, sid, w'.sessions[sid], Suits(w.sessions[sid], plan, w.dead), w'.finished)
      && (plan.ToAll? ==> SameBackend(w.sessions[sid], w'.sessions[sid]))
  }

  /**
   A request is over: the client is told so with the state of the transaction, and a connection from a pool
   goes back when no transaction is open. Otherwise the session keeps its connection.
   */
  function Ended(s: Session, ms: seq<Msg>, txn: Txn): Session {
    var r := Say(s, ms + [ReadyForQuery(TxnByte(txn))]).(state := READY);
    if txn == TxnIdle && s.shard.Some? then r.(backend := None, shard := None) else r
  }

  /** A connection with a transaction open is one that no pool takes back. */
  function BusyAfter(busy: set<Conn>, c: Conn, txn: Txn): set<Conn> {
    if txn == TxnIdle then busy - {c} else busy + {c}
  }

  predicate BackendEffect(w: World, sid: Sid, be: BackendEvent, w': World)
    requires sid in w.sessions
  {
    match be
    case HangUp => w'.sessions == w.sessions - {sid}
    case Incomplete => w' == w
    case Finished(results, txn, copied, copyEnd) =>
      var (ms, st) := ReplyOf(results, copied, copyEnd);
      var s := w.sessions[sid];
      && s.backend.Some?
      && w'.sessions == w.sessions[sid := if st == READY then Ended(s, ms, txn) else Say(s, ms).(state := st)]
      && w'.busy == if st == READY then BusyAfter(w.busy, s.backend.value, txn) else w.busy
  }

  predicate SlotEffect(w: World, sid: Sid, i: nat, sr: SlotReadable, w': World)
    requires sid in w.sessions && i < |w.sessions[sid].slots|
  {
    match sr
    case SlotIncomplete => w' == w
    case SlotEnds(ev, _) => w'.sessions == w.sessions[sid := Cleared(Arrive(w.sessions[sid], Arrival(i, ev)))]
  }

  /** The sessions after an event, and the pools after a health check. */
  predicate Effect(w: World, e: Event, w': World) {
    match e
    case Accept(sid) => w'.sessions == w.sessions[sid := NEW_SESSION]
    case Startup(sid) =>
      sid in w.sessions && w'.sessions == w.sessions[sid := Say(w.sessions[sid], STARTUP_MSGS).(state := READY)]
    case Extended(sid) =>
      sid in w.sessions &&
      w'.sessions == w.sessions[sid := Say(w.sessions[sid], REFUSAL).(rejected := w.sessions[sid].rejected + 1)]
    case Query(sid, plan, _) => sid in w.sessions && QueryEffect(w, sid, plan, w')
    case CopyInput(sid, last, accepted) =>
      sid in w.sessions &&
      w'.sessions == if !accepted then w.sessions - {sid}
                     else if last then w.sessions[sid := w.sessions[sid].(state := QUERY)]
                     else w.sessions
    case BackendReadable(sid, be) => sid in w.sessions && BackendEffect(w, sid, be, w')
    case SlotAnswers(sid, i, sr) =>
      sid in w.sessions && i < |w.sessions[sid].slots| && SlotEffect(w, sid, i, sr, w')
    case Disconnect(sid) => w'.sessions == w.sessions - {sid}
    case HealthCheck => w'.sessions == w.sessions && Checked(w.pools, w'.pools, w.dead)
    case Dies(c) => w' == w.(dead := w.dead + {c})
  }

  /** An event that cannot happen is passed over. */
  predicate Stepped(w: World, e: Event, w': World) {
    if Possible(e, w.sessions, w.registered, |w.pools|) then Effect(w, e, w') else w' == w
  }

  ghost predicate IsTrace(trace: seq<World>, events: seq<Event>) {
    && |trace| == |events| + 1
    && (forall i :: 0 <= i <= |events| ==> AllOk(trace[i]))
    && (forall i :: 0 <= i < |events| ==> Stepped(trace[i], events[i], trace[i + 1]))
  }

  class Proxy {
    var pools: seq<Pool>
    var sessions: map<Sid, Session>
    var registered: set<(Sid, Pos)>
    var finished: seq<Conn>
    var next: Conn
    var dead: set<Conn>
    var busy: set<Conn>
    ghost var home: map<Conn, Place>

    ghost function View(): World
      reads this
    {
      World(pools, sessions, registered, finished, next, dead, busy, home)
    }

    ghost predicate Valid()
      reads this
    {
      AllOk(View())
    }

    constructor (limits: seq<nat>)
      ensures Valid() && sessions == map[] && |pools| == |limits|
    {
      pools := seq(|limits|, k requires 0 <= k < |limits| => Pool([], 0, limits[k]));
      sessions, registered, finished, next := map[], {}, [], 0;
      dead, busy, home := {}, {}, map[];
      new;
      InitInv(limits);
      assert View() == InitialWorld(limits);
    }

    // ---------- Moving connections ----------

    /** conn_pool_acquire for a place of a session, and event_loop_add. */
    method AcquireFor(sid: Sid, pos: Pos, k: nat, connects: bool) returns (got: bool)
      requires Inv(View()) && sid in sessions && k < |pools| && sessions[sid].HasRoomAt(pos, Some(k))
      modifies this
      ensures Inv(View()) && View() == old(AcquireAt(View(), sid, pos, k, connects))
      ensures got <==> old(Acquire(pools[k], Alive(dead), next, connects)).conn.Some?
      ensures got <==> View().HeldIn(sid, pos).Some?
      ensures got ==> sessions[sid].HeldAt(pos).value.conn !in busy
      ensures var c := sessions[sid].HeldAt(pos); got ==> c.value.conn == old(next) || c.value.conn in old(pools)[k].idle
      ensures old(finished) <= finished && busy == old(busy)
      ensures |pools| == |old(pools)| && sessions.Keys == old(sessions).Keys
      ensures got ==> sessions == old(sessions)[sid := sessions[sid]]
      ensures got ==> sessions[sid] == old(sessions[sid]).Put(pos, Holding(sessions[sid].HeldAt(pos).value.conn, Some(k)))
      ensures !got ==> sessions == old(sessions)
    {
      AcquireInv(View(), sid, pos, k, connects);
      AcquiredFresh(View(), sid, pos, k, connects);
      AcquireHeld(View(), sid, pos, k, connects, sid, pos);
      got := TakeFromPool(sid, pos, k, connects);
    }

    method TakeFromPool(sid: Sid, pos: Pos, k: nat, connects: bool) returns (got: bool)
      requires sid in sessions && k < |pools| && sessions[sid].HasRoomAt(pos, Some(k))
      modifies this
      ensures View() == old(AcquireAt(View(), sid, pos, k, connects))
      ensures got <==> old(Acquire(pools[k], Alive(dead), next, connects)).conn.Some?
    {
      var r := Acquire(pools[k], Alive(dead), next, connects);
      got := r.conn.Some?;
      Put(sid, pos, k, r);
    }

    method Put(sid: Sid, pos: Pos, k: nat, r: Acquired)
      requires sid in sessions && k < |pools| && sessions[sid].HasRoomAt(pos, Some(k))
      modifies this
      ensures View() == Taken(old(View()), sid, pos, k, r)
    {
      finished := finished + r.finished;
      home := SendTo(SendTo(home, r.finished, Gone), Opt(r.conn), Held(sid, pos));
      next := if r.dialled then next + 1 else next;
      pools := pools[k := r.pool];
      if r.conn.Some? {
        sessions := sessions[sid := sessions[sid].Put(pos, Holding(r.conn.value, Some(k)))];
        registered := registered + {(sid, pos)};
      }
    }

    /** event_loop_del, then conn_pool_release or PQfinish. */
    method ReleaseFrom(sid: Sid, pos: Pos)
      requires Inv(View()) && View().HeldIn(sid, pos).Some?
      modifies this
      ensures Inv(View()) && View() == old(ReleaseAt(View(), sid, pos)) && |pools| == |old(pools)|
      ensures sessions == old(sessions)[sid := old(sessions[sid]).Take(pos)]
      ensures next == old(next) && dead == old(dead) && busy == old(busy) && old(finished) <= finished
      ensures forall k :: 0 <= k < |pools| && old(sessions[sid].HeldAt(pos)).value.pool != Some(k) ==> pools[k] == old(pools)[k]
      ensures var h := old(sessions[sid].HeldAt(pos)).value; h.pool.None? || h.conn in busy ==> h.conn in finished
    {
      ReleaseInv(View(), sid, pos);
      ReleaseCloses(View(), sid, pos);
      LenderCounted(View(), sid, pos);
      GiveBack(sid, pos);
    }

    method GiveBack(sid: Sid, pos: Pos)
      requires View().HeldIn(sid, pos).Some?
      requires var h := sessions[sid].HeldAt(pos).value; h.pool.Some? ==> h.pool.value < |pools| && pools[h.pool.value].active > 0
      modifies this
      ensures View() == old(ReleaseAt(View(), sid, pos))
    {
      var h := sessions[sid].HeldAt(pos).value;
      registered := registered - {(sid, pos)};
      sessions := sessions[sid := sessions[sid].Take(pos)];
      if h.pool.None? {
        finished := finished + [h.conn];
        home := SendTo(home, [h.conn], Gone);
      } else {
        var r := Release(pools[h.pool.value], h.conn, h.conn !in dead, h.conn !in busy);
        pools := pools[h.pool.value := r.pool];
        finished := finished + r.finished;
        home := SendTo(home, [h.conn], if r.finished == [] then Idle(h.pool.value) else Gone);
      }
    }

    /** PQconnectdb to the default backend. */
    method Dial(sid: Sid, connects: bool)
      requires Inv(View()) && sid in sessions && sessions[sid].HasRoomAt(Main, None)
      modifies this
      ensures Inv(View()) && View() == old(DialDefault(View(), sid, connects)) && |pools| == |old(pools)|
      ensures sessions == old(if connects then sessions[sid := sessions[sid].Put(Main, Holding(next, None))] else sessions)
      ensures old(finished) <= finished && busy == old(busy)
    {
      DialInv(View(), sid, connects);
      ghost var target := DialDefault(View(), sid, connects);
      if connects {
        home := SendTo(home, [next], Held(sid, Main));
        sessions := sessions[sid := sessions[sid].Put(Main, Holding(next, None))];
        registered := registered + {(sid, Main)};
      } else {
        finished := finished + [next];
        home := SendTo(home, [next], Gone);
      }
      next := next + 1;
      assert View() == target;
    }

    /** Changes to a session that move no connection. */
    method Update(sid: Sid, s: Session)
      requires Inv(View()) && sid in sessions && forall p :: s.HeldAt(p) == sessions[sid].HeldAt(p)
      modifies this`sessions
      ensures Inv(View()) && sessions == old(sessions)[sid := s]
    {
      ghost var w := View();
      UpdatedInv(w, sid, s);
      sessions := sessions[sid := s];
      assert View() == w.(sessions := w.sessions[sid := s]);
    }

    /** A query was sent on a held connection, or its results were read. */
    method SetBusy(sid: Sid, pos: Pos, quiet: bool)
      requires Inv(View()) && View().HeldIn(sid, pos).Some?
      modifies this`busy
      ensures Inv(View())
      ensures var c := sessions[sid].HeldAt(pos).value.conn; busy == if quiet then old(busy) - {c} else old(busy) + {c}
    {
      ghost var w := View();
      var c := sessions[sid].HeldAt(pos).value.conn;
      busy := if quiet then busy - {c} else busy + {c};
      BusyInv(w, sid, pos, busy);
      assert View() == w.(busy := busy);
    }

    method ReleaseMain(sid: Sid)
      requires Inv(View()) && sid in sessions && (sessions[sid].backend.None? ==> sessions[sid].shard.None?)
      modifies this
      ensures Inv(View()) && |pools| == |old(pools)|
      ensures sessions == old(sessions)[sid := old(sessions[sid]).(backend := None, shard := None)]
      ensures next == old(next) && dead == old(dead) && busy == old(busy) && old(finished) <= finished
      ensures forall k :: 0 <= k < |pools| && old(sessions[sid].shard) != Some(k) ==> pools[k] == old(pools)[k]
      ensures old(sessions[sid].backend.Some? && (sessions[sid].shard.None? || sessions[sid].backend.value in busy))
              ==> old(sessions[sid].backend).value in finished
    {
      if sessions[sid].backend.Some? {
        ReleaseFrom(sid, Main);
      }
    }

    /** session_release_scatter. */
    method ReleaseScatter(sid: Sid)
      requires Inv(View()) && sid in sessions
      modifies this
      ensures Inv(View()) && |pools| == |old(pools)|
      ensures sessions == old(sessions)[sid := old(sessions[sid]).(slots := [], scatterDone := 0, header := false)]
    {
      ghost var s0 := sessions[sid];
      var count := |sessions[sid].slots|;
      for i := 0 to count
        invariant Inv(View()) && |pools| == |old(pools)| && sid in sessions
        invariant count == |s0.slots| == |sessions[sid].slots|
        invariant forall j :: 0 <= j < i ==> sessions[sid].slots[j].conn.None?
        invariant sessions == old(sessions)[sid := s0.(slots := sessions[sid].slots)]
      {
        if sessions[sid].slots[i].conn.Some? {
          assert sessions[sid].HeldAt(Part(i)).Some?;
          ReleaseFrom(sid, Part(i));
        }
      }
      var s := sessions[sid].(slots := [], scatterDone := 0, header := false);
      forall p
        ensures s.HeldAt(p) == sessions[sid].HeldAt(p)
      {
        if p.Part? && p.i < count {
          assert sessions[sid].slots[p.i].conn.None?;
        }
      }
      Update(sid, s);
    }

    /** session_destroy. */
    method Destroy(sid: Sid)
      requires Inv(View()) && sid in sessions && (sessions[sid].backend.None? ==> sessions[sid].shard.None?)
      modifies this
      ensures Inv(View()) && |pools| == |old(pools)|
      ensures sessions == old(sessions) - {sid}
    {
      ghost var s0, all := sessions[sid], sessions;
      ReleaseMain(sid);
      Overwritten(all, sid, sessions[sid], sessions[sid].(slots := [], scatterDone := 0, header := false));
      ReleaseScatter(sid);
      Overwritten(all, sid, sessions[sid], s0);
      Remove(sid);
    }

    method Remove(sid: Sid)
      requires Inv(View()) && sid in sessions && sessions[sid].slots == [] && sessions[sid].backend.None?
      modifies this`sessions
      ensures Inv(View()) && sessions == old(sessions) - {sid}
    {
      ghost var w := View();
      RemovedInv(w, sid);
      sessions := sessions - {sid};
      assert View() == w.(sessions := w.sessions - {sid});
    }

    // ---------- Queries ----------

    /** connect_to_default. */
    method ConnectDefault(sid: Sid, connects: bool) returns (ok: bool)
      requires Inv(View()) && sid in sessions && (sessions[sid].backend.None? ==> sessions[sid].shard.None?)
      modifies this
      ensures Inv(View()) && |pools| == |old(pools)| && sid in sessions
      ensures sessions == old(sessions)[sid := old(sessions[sid]).(backend := sessions[sid].backend, shard := sessions[sid].shard)]
      ensures ok <==> sessions[sid].backend.Some?
      ensures !ok || old(sessions[sid].backend).None? ==> sessions[sid].shard.None?
      // a live backend is kept, a dead one is dropped and dialled anew
      ensures var live := old(sessions[sid].backend.Some? && sessions[sid].backend.value !in dead);
              && (ok <==> live || connects)
              && (live ==> sessions == old(sessions))
              && (!live && ok ==> sessions[sid].backend == Some(old(next)) && sessions[sid].shard.None?)
      ensures old(finished) <= finished && busy == old(busy)
      ensures Dropped(old(View()), sid, finished) || sessions[sid].backend == old(sessions[sid].backend)
    {
      if sessions[sid].backend.Some? && sessions[sid].backend.value !in dead {
        return true;
      }
      Redial(sid, connects);
      return connects;
    }

    /** The connection at hand, if there is one, is let go and the default backend is dialled. */
    method Redial(sid: Sid, connects: bool)
      requires Inv(View()) && sid in sessions && (sessions[sid].backend.None? ==> sessions[sid].shard.None?)
      modifies this
      ensures Inv(View()) && |pools| == |old(pools)|
      ensures sessions == old(sessions)[sid := old(sessions[sid]).(
                backend := if connects then Some(old(next)) else None, shard := None)]
      ensures old(finished) <= finished && busy == old(busy) && Dropped(old(View()), sid, finished)
    {
      ReleaseMain(sid);
      ghost var s := sessions[sid];
      assert s == old(sessions[sid]).(backend := None, shard := None);
      Dial(sid, connects);
      Overwritten(old(sessions), sid, s, sessions[sid]);
    }

    /** connect_to_shard or connect_to_default for a session that has let go of its connection. */
    method ConnectTo(sid: Sid, target: Option<nat>, connects: bool) returns (ok: bool)
      requires Inv(View()) && sid in sessions && sessions[sid].backend.None? && sessions[sid].shard.None?
      requires target.Some? ==> target.value < |pools|
      modifies this
      ensures Inv(View()) && |pools| == |old(pools)| && sid in sessions
      ensures sessions == old(sessions)[sid := old(sessions[sid]).(backend := sessions[sid].backend, shard := sessions[sid].shard)]
      ensures ok <==> sessions[sid].backend.Some?
      ensures sessions[sid].shard == if ok then target else None
      ensures ok <==> if target.None? then connects
                      else old(Acquire(pools[target.value], Alive(dead), next, connects)).conn.Some?
      ensures old(finished) <= finished && busy == old(busy)
      ensures ok ==> var c := sessions[sid].backend.value;
                     c == old(next) || (target.Some? && c in old(pools)[target.value].idle)
    {
      if target.Some? {
        ok := AcquireFor(sid, Main, target.value, connects);
      } else {
        ok := ConnectDefault(sid, connects);
      }
    }

    /** The first half of execute_single: a connection to the target, reusing the one at hand if it fits. */
    method SwitchBackend(sid: Sid, target: Option<nat>, connects: bool) returns (ok: bool)
      requires Inv(View()) && sid in sessions && (sessions[sid].backend.None? ==> sessions[sid].shard.None?)
      requires target.Some? ==> target.value < |pools|
      modifies this
      ensures Inv(View()) && |pools| == |old(pools)| && sid in sessions
      ensures sessions == old(sessions)[sid := old(sessions[sid]).(backend := sessions[sid].backend, shard := sessions[sid].shard)]
      ensures ok <==> sessions[sid].backend.Some?
      ensures sessions[sid].shard == if ok then target else None
      // reused if it fits, and otherwise got from the target
      ensures if old(sessions[sid].backend.Some? && sessions[sid].shard == target) then ok && sessions == old(sessions)
              else ok <==> if target.None? then connects
                           else old(Acquire(pools[target.value], Alive(dead), next, connects)).conn.Some?
      // one that does not fit is let go
      ensures old(sessions[sid].backend.Some? && sessions[sid].shard != target) ==>
                sessions[sid].backend != old(sessions[sid].backend) && Dropped(old(View()), sid, finished)
      ensures old(finished) <= finished && busy == old(busy)
    {
      ghost var w := View();
      if sessions[sid].backend.Some? {
        if sessions[sid].shard == target {
          return true;
        }
        ReleaseMain(sid);
      }
      ghost var s := sessions[sid];
      ok := ConnectTo(sid, target, connects);
      Overwritten(old(sessions), sid, s, sessions[sid]);
      Changed(w, sid, target, sessions[sid].backend);
    }

    /** PQsendQuery on the backend; when it fails the connection stays with the session. */
    method SendMain(sid: Sid, sends: bool)
      requires Inv(View()) && sid in sessions && sessions[sid].backend.Some?
      modifies this`busy, this`sessions
      ensures Inv(View())
      ensures sessions == old(sessions)[sid := if sends then old(sessions[sid]).(state := QUERY) else old(sessions[sid])]
    {
      if sends {
        assert View().HeldIn(sid, Main).Some?;
        SetBusy(sid, Main, false);
        Update(sid, sessions[sid].(state := QUERY));
      } else {
        assert sessions == sessions[sid := sessions[sid]];
      }
    }

    /** execute_single: None is the default backend. On failure a connection may stay with the session. */
    method ExecuteSingle(sid: Sid, target: Option<nat>, luck: Luck) returns (ok: bool)
      requires Inv(View()) && sid in sessions && (sessions[sid].backend.None? ==> sessions[sid].shard.None?)
      requires target.Some? ==> target.value < |pools|
      modifies this
      ensures Inv(View()) && |pools| == |old(pools)| && sid in sessions
      ensures sessions == old(sessions)[sid := old(sessions[sid]).(
                backend := sessions[sid].backend, shard := sessions[sid].shard,
                state := if ok then QUERY else old(sessions[sid]).state)]
      ensures ok <==> sessions[sid].backend.Some? && luck.sends(0)
      ensures ok ==> sessions[sid].shard == target
      ensures sessions[sid].backend.None? ==> sessions[sid].shard.None?
      ensures Passed(old(View()), sid, sessions[sid], old(sessions[sid].shard) == target, finished)
    {
      ok := SwitchBackend(sid, target, luck.connects(0));
      if ok {
        ghost var s := sessions[sid];
        SendMain(sid, luck.sends(0));
        Overwritten(old(sessions), sid, s, sessions[sid]);
        ok := luck.sends(0);
      }
    }

    /** Acquires a connection for the slot and sends the query on it; false leaves the slot empty. */
    method SendOnSlot(sid: Sid, i: nat, k: nat, connects: bool, sends: bool) returns (ok: bool)
      requires Inv(View()) && sid in sessions && k < |pools| && sessions[sid].HasRoomAt(Part(i), Some(k))
      modifies this
      ensures Inv(View()) && |pools| == |old(pools)| && sid in sessions && i < |sessions[sid].slots|
      ensures sessions == old(sessions)[sid := WithConn(old(sessions[sid]), i, sessions[sid].slots[i].conn)]
      ensures ok <==> sessions[sid].slots[i].conn.Some?
      ensures ok <==> sends && old(Acquire(pools[k], Alive(dead), next, connects)).conn.Some?
    {
      ghost var s0 := sessions[sid];
      assert WithConn(s0, i, None) == s0;
      ok := AcquireFor(sid, Part(i), k, connects);
      if ok {
        ghost var s1 := sessions[sid];
        if sends {
          SetBusy(sid, Part(i), false);
        } else {
          assert s1.Take(Part(i)) == s0;
          ReleaseFrom(sid, Part(i));
          ok := false;
        }
      }
    }

    method StartSlot(sid: Sid, targets: seq<nat>, i: nat, luck: Luck)
      requires Inv(View()) && sid in sessions
      requires Filling(sessions[sid], targets, i) && i < |targets| && targets[i] < |pools|
      modifies this
      ensures Inv(View()) && |pools| == |old(pools)| && sid in sessions
      ensures Filling(sessions[sid], targets, i + 1)
      ensures sessions == old(sessions)[sid := old(sessions[sid]).(
                slots := sessions[sid].slots, scatterDone := sessions[sid].scatterDone)]
    {
      ghost var s0 := sessions[sid];
      var ok := SendOnSlot(sid, i, targets[i], luck.connects(i), luck.sends(i));
      FillStep(s0, targets, i, sessions[sid].slots[i].conn);
      if !ok {
        Update(sid, MarkFailed(sessions[sid], i));
      }
    }

    method StartSlots(sid: Sid, targets: seq<nat>, luck: Luck)
      requires Inv(View()) && sid in sessions && sessions[sid].NoSlotHolds()
      requires forall i :: 0 <= i < |targets| ==> targets[i] < |pools|
      modifies this
      ensures Inv(View()) && |pools| == |old(pools)| && sid in sessions
      ensures Filling(sessions[sid], targets, |targets|)
      ensures sessions == old(sessions)[sid := old(sessions[sid]).(
                slots := sessions[sid].slots, scatterDone := sessions[sid].scatterDone, header := false)]
    {
      var slots := seq(|targets|, i requires 0 <= i < |targets| => Slot(targets[i], None, false));
      Update(sid, sessions[sid].(slots := slots, scatterDone := 0, header := false));
      assert DoneSlots(sessions[sid]) == {};
      for i := 0 to |targets|
        invariant Inv(View()) && |pools| == |old(pools)| && sid in sessions && Filling(sessions[sid], targets, i)
        invariant sessions == old(sessions)[sid := old(sessions[sid]).(
                    slots := sessions[sid].slots, scatterDone := sessions[sid].scatterDone, header := false)]
      {
        StartSlot(sid, targets, i, luck);
      }
    }

    /** execute_scatter: false closes the session. */
    method ExecuteScatter(sid: Sid, targets: seq<nat>, luck: Luck) returns (ok: bool)
      requires Inv(View()) && sid in sessions && sessions[sid].NoSlotHolds()
      requires forall i :: 0 <= i < |targets| ==> targets[i] < |pools|
      modifies this
      ensures Inv(View()) && |pools| == |old(pools)| && sid in sessions
      ensures ok <==> |targets| <= MAX_SCATTER_SHARDS
      ensures !ok ==> sessions == old(sessions)
      ensures ok ==>
                var s := sessions[sid];
                && sessions == old(sessions)[sid := old(sessions[sid]).(
                     slots := s.slots, scatterDone := s.scatterDone, header := false, state := s.state, log := s.log)]
                && Sent(old(sessions[sid]), s, targets)
                && (s.state == SCATTER ==>
                      forall i :: 0 <= i < |s.slots| ==> (s.slots[i].done <==> (sid, Part(i)) !in registered))
    {
      if |targets| > MAX_SCATTER_SHARDS {
        return false;
      }
      StartSlots(sid, targets, luck);
      var s := sessions[sid];
      FullExactly(s, targets);
      if s.scatterDone >= |targets| {
        Update(sid, Say(s, REFUSAL).(state := READY));
      } else {
        Update(sid, s.(state := SCATTER));
      }
      return true;
    }

    // ---------- Callbacks ----------

    /** Replies at once to the query that is being handled. */
    method ReplyNow(sid: Sid, ms: seq<Msg>)
      requires Inv(View()) && sid in sessions
      modifies this
      ensures Inv(View()) && |pools| == |old(pools)| && finished == old(finished)
      ensures sessions == old(sessions)[sid := Say(old(sessions[sid]), ms).(queries := old(sessions[sid]).queries + 1)]
    {
      Update(sid, Say(sessions[sid], ms).(queries := sessions[sid].queries + 1));
    }

    /** The query of a proxy without a shard map. */
    method ExecuteUnmapped(sid: Sid, luck: Luck) returns (ok: bool)
      requires Inv(View()) && sid in sessions && (sessions[sid].backend.None? ==> sessions[sid].shard.None?)
      modifies this
      ensures Inv(View()) && |pools| == |old(pools)| && sid in sessions
      ensures sessions == old(sessions)[sid := old(sessions[sid]).(
                backend := sessions[sid].backend, shard := sessions[sid].shard,
                state := if ok then QUERY else old(sessions[sid]).state)]
      ensures ok <==> sessions[sid].backend.Some? && luck.sends(0)
      ensures sessions[sid].backend.None? ==> sessions[sid].shard.None?
      ensures Passed(old(View()), sid, sessions[sid],
                     old(sessions[sid].backend.Some? && sessions[sid].backend.value !in dead), finished)
    {
      ghost var w := View();
      Changed(w, sid, None, Some(next));
      ok := ConnectDefault(sid, luck.connects(0));
      if ok {
        ghost var s := sessions[sid];
        SendMain(sid, luck.sends(0));
        Overwritten(old(sessions), sid, s, sessions[sid]);
        ok := luck.sends(0);
      }
    }

    /** A query for one backend, with or without a shard map. */
    method QuerySingle(sid: Sid, target: Option<nat>, mapped: bool, luck: Luck)
      requires Valid() && sid in sessions && sessions[sid].state == READY
      requires target.Some? ==> target.value < |pools|
      modifies this
      ensures Valid() && |pools| == |old(pools)| && sid in sessions && sessions == old(sessions)[sid := sessions[sid]]
      ensures SentOrRefused(old(sessions[sid]), sessions[sid])
      ensures mapped && sessions[sid].state == QUERY ==> sessions[sid].shard == target
      ensures Passed(old(View()), sid, sessions[sid],
                     old(if mapped then sessions[sid].shard == target
                         else sessions[sid].backend.Some? && sessions[sid].backend.value !in dead), finished)
    {
      ghost var s0 := sessions[sid];
      var ok;
      if mapped {
        ok := ExecuteSingle(sid, target, luck);
      } else {
        ok := ExecuteUnmapped(sid, luck);
      }
      CloseBooks(sid, ok, s0);
    }

    /** Counts the query, and refuses it if it could not be sent. */
    method CloseBooks(sid: Sid, sent: bool, ghost s0: Session)
      requires Inv(View()) && sid in sessions
      requires SessionOk(s0) && s0.state == READY
      requires var s := sessions[sid];
               && s == s0.(backend := s.backend, shard := s.shard, state := if sent then QUERY else READY)
               && (sent ==> s.backend.Some?) && (s.backend.None? ==> s.shard.None?)
      requires forall t :: t in sessions && t != sid ==> SessionOk(sessions[t])
      modifies this
      ensures Valid() && |pools| == |old(pools)| && sid in sessions && sessions == old(sessions)[sid := sessions[sid]]
      ensures SentOrRefused(s0, sessions[sid]) && sessions[sid].shard == old(sessions[sid].shard)
      ensures sessions[sid].state == QUERY <==> sent
      ensures sessions[sid].backend == old(sessions[sid].backend) && finished == old(finished)
    {
      ReplyCounts();
      AnsweredAtOnce(s0, REFUSAL);
      if sent {
        Update(sid, sessions[sid].(queries := sessions[sid].queries + 1));
      } else {
        ReplyNow(sid, REFUSAL);
      }
    }

    method QueryScatter(sid: Sid, targets: seq<nat>, luck: Luck)
      requires Valid() && sid in sessions && sessions[sid].state == READY
      requires forall i :: 0 <= i < |targets| ==> targets[i] < |pools|
      modifies this
      ensures Valid() && |pools| == |old(pools)|
      ensures sid !in sessions <==> |targets| > MAX_SCATTER_SHARDS
      ensures sessions == if sid in sessions then old(sessions)[sid := sessions[sid]] else old(sessions) - {sid}
      ensures sid in sessions ==> ScatteredOrRefused(old(sessions[sid]), sessions[sid], targets)
      ensures sid in sessions ==> SameBackend(old(sessions[sid]), sessions[sid])
    {
      ghost var s0 := sessions[sid];
      var ok := ExecuteScatter(sid, targets, luck);
      if !ok {
        Destroy(sid);
        return;
      }
      CountScatter(sid, targets, s0);
    }

    method CountScatter(sid: Sid, ghost targets: seq<nat>, ghost s0: Session)
      requires Inv(View()) && sid in sessions
      requires SessionOk(s0) && s0.state == READY && |targets| <= MAX_SCATTER_SHARDS
      requires var s := sessions[sid];
               && Sent(s0, s, targets)
               && s == s0.(slots := s.slots, scatterDone := s.scatterDone, header := false, state := s.state, log := s.log)
      requires forall t :: t in sessions && t != sid ==> SessionOk(sessions[t])
      modifies this
      ensures Valid() && |pools| == |old(pools)| && sid in sessions && sessions == old(sessions)[sid := sessions[sid]]
      ensures ScatteredOrRefused(s0, sessions[sid], targets) && SameBackend(s0, sessions[sid])
    {
      ScatterCounted(s0, sessions[sid], targets);
      Update(sid, sessions[sid].(queries := sessions[sid].queries + 1));
    }

    /** handle_query. */
    method OnQuery(sid: Sid, plan: Plan, luck: Luck)
      requires Valid() && sid in sessions && sessions[sid].state == READY && PlanInRange(plan, |pools|)
      modifies this
      ensures Valid() && |pools| == |old(pools)|
      ensures sid !in sessions <==> plan.ToAll? && |plan.targets| > MAX_SCATTER_SHARDS
      ensures sessions == if sid in sessions then old(sessions)[sid := sessions[sid]] else old(sessions) - {sid}
      ensures sid in sessions ==> Handled(old(sessions[sid]), sessions[sid], plan)
      ensures sid in sessions ==> Passed(old(View()), sid, sessions[sid], old(Suits(sessions[sid], plan, dead)), finished)
      ensures plan.ToAll? && sid in sessions ==> SameBackend(old(sessions[sid]), sessions[sid])
    {
      ReplyCounts();
      match plan
      case SyntaxError =>
        AnsweredAtOnce(sessions[sid], REFUSAL);
        ReplyNow(sid, REFUSAL);
      case Local =>
        AnsweredAtOnce(sessions[sid], LOCAL_MSGS);
        ReplyNow(sid, LOCAL_MSGS);
      case NoMap => QuerySingle(sid, None, false, luck);
      case ToDefault => QuerySingle(sid, None, true, luck);
      case ToShard(k) => QuerySingle(sid, Some(k), true, luck);
      case ToAll(targets) => QueryScatter(sid, targets, luck);
    }

    method OnStartup(sid: Sid)
      requires Valid() && sid in sessions && sessions[sid].state == INIT
      modifies this
      ensures Valid() && |pools| == |old(pools)|
      ensures sessions == old(sessions)[sid := Say(old(sessions[sid]), STARTUP_MSGS).(state := READY)]
    {
      StartupCount();
      ReadyConcat(sessions[sid].log, STARTUP_MSGS);
      Update(sid, Say(sessions[sid], STARTUP_MSGS).(state := READY));
    }

    method OnExtended(sid: Sid)
      requires Valid() && sid in sessions && sessions[sid].state == READY
      modifies this
      ensures Valid() && |pools| == |old(pools)|
      ensures sessions == old(sessions)[sid := Say(old(sessions[sid]), REFUSAL).(rejected := old(sessions[sid]).rejected + 1)]
    {
      ReplyCounts();
      AnsweredAtOnce(sessions[sid], REFUSAL);
      Update(sid, Say(sessions[sid], REFUSAL).(rejected := sessions[sid].rejected + 1));
    }

    /** COPY data from the client; a refusal by libpq closes the session. */
    method OnCopyInput(sid: Sid, last: bool, accepted: bool)
      requires Valid() && sid in sessions && sessions[sid].state == COPY_IN
      modifies this
      ensures Valid() && |pools| == |old(pools)|
      ensures sessions == if !accepted then old(sessions) - {sid}
                          else if last then old(sessions)[sid := old(sessions[sid]).(state := QUERY)]
                          else old(sessions)
    {
      if !accepted {
        Destroy(sid);
      } else if last {
        Update(sid, sessions[sid].(state := QUERY));
      }
    }

    /** ReadyForQuery, and the pooled connection goes back when no transaction is open. */
    method FinishRequest(sid: Sid, ms: seq<Msg>, txn: Txn)
      requires Valid() && sid in sessions && sessions[sid].state in {QUERY, COPY_IN, COPY_OUT} && Ready(ms) == 0
      modifies this
      ensures Valid() && |pools| == |old(pools)| && sid in sessions && sessions == old(sessions)[sid := sessions[sid]]
      ensures sessions[sid].state == READY
      ensures sessions[sid].log == old(sessions[sid].log) + (ms + [ReadyForQuery(TxnByte(txn))])
      // the connection is given up only without a transaction and to a pool, and is kept otherwise
      ensures var gone := txn == TxnIdle && old(sessions[sid].shard).Some?;
              && sessions[sid].backend == (if gone then None else old(sessions[sid].backend))
              && sessions[sid].shard == (if gone then None else old(sessions[sid].shard))
      ensures sessions[sid] == Ended(old(sessions[sid]), ms, txn)
      ensures old(sessions[sid].backend).Some? && busy == BusyAfter(old(busy), old(sessions[sid].backend).value, txn)
    {
      SayReady(sid, ms + [ReadyForQuery(TxnByte(txn))], txn, ms);
      if txn == TxnIdle && sessions[sid].shard.Some? {
        ghost var all, s := sessions, sessions[sid];
        Overwritten(old(sessions), sid, s, s.(backend := None, shard := None));
        assert forall t :: t in all ==> SessionOk(all[t]);
        ReleaseMain(sid);
      }
    }

    method SayReady(sid: Sid, all: seq<Msg>, txn: Txn, ghost ms: seq<Msg>)
      requires Valid() && sid in sessions && sessions[sid].state in {QUERY, COPY_IN, COPY_OUT}
      requires Ready(ms) == 0 && all == ms + [ReadyForQuery(TxnByte(txn))]
      modifies this
      ensures Valid() && |pools| == |old(pools)|
      ensures sessions == old(sessions)[sid := Say(old(sessions[sid]), all).(state := READY)]
      ensures old(sessions[sid].backend).Some? && busy == BusyAfter(old(busy), old(sessions[sid].backend).value, txn)
    {
      ReplyCounts();
      ReadyConcat(ms, [ReadyForQuery(TxnByte(txn))]);
      AnsweredLater(sessions[sid], all);
      SetBusy(sid, Main, txn == TxnIdle);
      Update(sid, Say(sessions[sid], all).(state := READY));
    }

    /** session_on_backend_readable past the busy check, with a request outstanding. */
    method OnBackendResults(sid: Sid, results: seq<Result>, txn: Txn, copied: seq<Bytes>, copyEnd: CopyEnd)
      requires Valid() && sid in sessions && sessions[sid].state in {QUERY, COPY_IN, COPY_OUT}
      modifies this
      ensures Valid() && |pools| == |old(pools)| && sid in sessions && sessions == old(sessions)[sid := sessions[sid]]
      ensures BackendEffect(old(View()), sid, Finished(results, txn, copied, copyEnd), View())
    {
      var (ms, st) := ReplyOf(results, copied, copyEnd);
      ReplyNotReady(results, copied, copyEnd);
      if st == READY {
        FinishRequest(sid, ms, txn);
      } else {
        StillOutstanding(sessions[sid], ms, st);
        Update(sid, Say(sessions[sid], ms).(state := st));
      }
    }

    /** An error destroys the session, an unfinished result changes nothing. */
    method OnBackendReadable(sid: Sid, be: BackendEvent)
      requires Valid() && (sid, Main) in registered
      requires be.Finished? ==> sid in sessions && sessions[sid].state in {QUERY, COPY_IN, COPY_OUT}
      modifies this
      ensures Valid() && |pools| == |old(pools)|
      ensures old(sid in sessions) && BackendEffect(old(View()), sid, be, View())
    {
      assert View().HeldIn(sid, Main).Some?;
      match be
      case HangUp => Destroy(sid);
      case Incomplete =>
      case Finished(results, txn, copied, copyEnd) => OnBackendResults(sid, results, txn, copied, copyEnd);
    }

    /** All shards are counted: the final messages, and every slot gives its connection back. */
    method FinishScatter(sid: Sid, s: Session)
      requires Valid() && sid in sessions && sessions[sid].state == SCATTER
      requires Ledger(s) && s.state == READY && s.backend == sessions[sid].backend && s.shard == sessions[sid].shard
      requires forall p :: s.HeldAt(p) == sessions[sid].HeldAt(p)
      modifies this
      ensures Valid() && |pools| == |old(pools)|
      ensures sessions == old(sessions)[sid := s.(slots := [], scatterDone := 0, header := false)]
    {
      Update(sid, s);
      ReleaseScatter(sid);
    }

    /** session_on_scatter_readable. The output is that of Gather.Arrive. */
    method OnSlotEnds(sid: Sid, i: nat, ev: SlotEvent, quiet: bool)
      requires Valid() && sid in sessions && i < |sessions[sid].slots| && sessions[sid].slots[i].conn.Some?
      modifies this
      ensures Valid() && |pools| == |old(pools)|
      ensures sessions == old(sessions)[sid := Cleared(Arrive(old(sessions[sid]), Arrival(i, ev)))]
    {
      assert sessions[sid].HeldAt(Part(i)).Some?;
      if ev.Got? {
        SetBusy(sid, Part(i), quiet);
      }
      var s := sessions[sid];
      var s' := SlotEnded(s, i, ev);
      ArriveLedger(s, i, ev);
      if AllCounted(s') {
        FinishScatter(sid, s'.(log := s'.log + FinalMsgs(s'.header), state := READY));
      } else {
        Update(sid, s');
      }
    }

    method OnSlotReadable(sid: Sid, i: nat, sr: SlotReadable)
      requires Valid() && (sid, Part(i)) in registered
      modifies this
      ensures Valid() && |pools| == |old(pools)|
      ensures old(sid in sessions && i < |sessions[sid].slots|) && SlotEffect(old(View()), sid, i, sr, View())
    {
      assert View().HeldIn(sid, Part(i)).Some?;
      if sr.SlotEnds? {
        OnSlotEnds(sid, i, sr.ev, sr.quiet);
      }
    }

    method OnAccept(sid: Sid)
      requires Valid() && sid !in sessions
      modifies this
      ensures Valid() && |pools| == |old(pools)| && sessions == old(sessions)[sid := NEW_SESSION]
    {
      ghost var w := View();
      AddedInv(w, sid, NEW_SESSION);
      sessions := sessions[sid := NEW_SESSION];
      assert View() == w.(sessions := w.sessions[sid := NEW_SESSION]);
    }

    /** The timer: every pool drops the idle connections that died. */
    method OnHealthCheck()
      requires Valid()
      modifies this
      ensures Valid() && sessions == old(sessions) && dead == old(dead) && Checked(old(pools), pools, dead)
    {
      for k := 0 to |pools|
        invariant Valid() && |pools| == |old(pools)| && sessions == old(sessions) && dead == old(dead)
        invariant forall j :: 0 <= j < k ==> pools[j] == old(pools)[j].(idle := Living(old(pools)[j].idle, Alive(dead)))
        invariant forall j :: k <= j < |pools| ==> pools[j] == old(pools)[j]
      {
        CheckInv(View(), k);
        ghost var target := CheckPool(View(), k);
        var idle := pools[k].idle;
        pools := pools[k := pools[k].(idle := Living(idle, Alive(dead)))];
        finished := finished + Dead(idle, Alive(dead));
        home := SendTo(home, Dead(idle, Alive(dead)), Gone);
        assert View() == target;
      }
    }

    /** A connection can break at any time. */
    method OnDeath(c: Conn)
      requires Valid()
      modifies this
      ensures Valid() && View() == old(View()).(dead := old(dead) + {c})
    {
      ghost var w := View();
      DeadInv(w, dead + {c});
      dead := dead + {c};
      assert View() == w.(dead := dead);
    }

    // ---------- Runs ----------

    predicate Enabled(e: Event)
      reads this
    {
      Possible(e, sessions, registered, |pools|)
    }

    method Handle(e: Event)
      requires Valid() && Enabled(e)
      modifies this
      ensures Valid() && |pools| == |old(pools)|
      ensures Effect(old(View()), e, View())
    {
      match e
      case Accept(sid) => OnAccept(sid);
      case Startup(sid) => OnStartup(sid);
      case Extended(sid) => OnExtended(sid);
      case Query(sid, plan, luck) => OnQuery(sid, plan, luck);
      case CopyInput(sid, last, accepted) => OnCopyInput(sid, last, accepted);
      case BackendReadable(sid, be) => OnBackendReadable(sid, be);
      case SlotAnswers(sid, i, sr) => OnSlotReadable(sid, i, sr);
      case Disconnect(sid) => Destroy(sid);
      case HealthCheck => OnHealthCheck();
      case Dies(c) => OnDeath(c);
    }

    /** Any events of any sessions in any order: every state on the way is valid, and every step has its effect. */
    method Run(events: seq<Event>) returns (ghost trace: seq<World>)
      requires Valid()
      modifies this
      ensures Valid() && IsTrace(trace, events) && trace[0] == old(View()) && trace[|events|] == View()
    {
      trace := [View()];
      for n := 0 to |events|
        invariant Valid() && |trace| == n + 1 && trace[0] == old(View()) && trace[n] == View()
        invariant forall i :: 0 <= i <= n ==> AllOk(trace[i])
        invariant forall i :: 0 <= i < n ==> Stepped(trace[i], events[i], trace[i + 1])
      {
        if Enabled(events[n]) {
          Handle(events[n]);
        }
        trace := trace + [View()];
      }
    }
  }

  lemma EventNotReady(ev: SlotEvent, header: bool)
    ensures Ready(EventMsgs(ev, header).0) == 0
  {
    if ev.Got? {
      GatherNotReady(ev.results, header);
    }
  }

  lemma ArriveLedger(s: Session, i: nat, ev: SlotEvent)
    requires Ledger(s) && s.state == SCATTER && i < |s.slots|
    ensures Ledger(Arrive(s, Arrival(i, ev)))
    ensures forall p :: Arrive(s, Arrival(i, ev)).HeldAt(p) == s.HeldAt(p)
  {
    var ms, s' := EventMsgs(ev, s.header).0, SlotEnded(s, i, ev);
    EventNotReady(ev, s.header);
    ReplyCounts();
    ReadyConcat(s.log, ms);
    ReadyConcat(s.log + ms, FinalMsgs(s'.header));
  }
}
