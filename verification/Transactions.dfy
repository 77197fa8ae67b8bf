/** Which connection a session's statements run on, over whole runs, and what its backend's results make of its log. */
module Transactions {
  import opened Wrappers
  import opened Wire
  import opened Results
  import opened Framing
  import opened Ownership
  import opened Sessions
  import opened Gather
  import opened Forwarding
  import opened Proxy
  import opened Traces

  // ---------- What the client is told ----------

  /** T exactly in a transaction, E exactly in a failed one, I otherwise. */
  lemma StatusExactly(txn: Txn)
    ensures TxnByte(txn) == 'T' as int <==> txn == InTransaction
    ensures TxnByte(txn) == 'E' as int <==> txn == InError
    ensures TxnByte(txn) == 'I' as int <==> txn == TxnIdle || txn == Txn.Active
  {
  }

  /** The results of a request that can be finished now. */
  predicate IsReply(w: World, e: Event, sid: Sid) {
    && e.BackendReadable? && e.sid == sid && e.be.Finished?
    && Possible(e, w.sessions, w.registered, |w.pools|)
  }

  /** That ends the request. */
  predicate IsLast(e: Event)
    requires e.BackendReadable? && e.be.Finished?
  {
    ReplyOf(e.be.results, e.be.copied, e.be.copyEnd).1 == READY
  }

  /**
   In every run, results of a backend add to the client's log the rows of the results up to the first COPY
   and the COPY data read, each in order, and at the end of the request one ReadyForQuery with the state of
   the transaction.
   */
  lemma RepliesInLog(w: World, e: Event, w': World, sid: Sid)
    requires Stepped(w, e, w') && IsReply(w, e, sid) && sid in w.sessions
    ensures sid in w'.sessions && w.sessions[sid].log <= w'.sessions[sid].log
    ensures var said := w'.sessions[sid].log[|w.sessions[sid].log|..];
            var rs := e.be.results;
            && Pick(said, CellsIn) == RowsOf(Before(rs))
            && Pick(said, DataIn) == (if CopyAt(rs) < |rs| && rs[CopyAt(rs)].CopyOut? then e.be.copied else [])
            && Ready(said) == (if IsLast(e) then 1 else 0)
            && (IsLast(e) ==> said != [] && said[|said| - 1] == ReadyForQuery(TxnByte(e.be.txn)))
  {
    var ms := ReplyOf(e.be.results, e.be.copied, e.be.copyEnd).0;
    var end := if IsLast(e) then [ReadyForQuery(TxnByte(e.be.txn))] else [];
    var said := w'.sessions[sid].log[|w.sessions[sid].log|..];
    assert said == ms + end;
    ReplyRows(e.be.results, e.be.copied, e.be.copyEnd);
    ReplyData(e.be.results, e.be.copied, e.be.copyEnd);
    ReplyNotReady(e.be.results, e.be.copied, e.be.copyEnd);
    EndReads(ms, end, TxnByte(e.be.txn));
  }

  lemma EndReads(ms: seq<Msg>, end: seq<Msg>, b: byte)
    requires end == [] || end == [ReadyForQuery(b)]
    ensures Pick(ms + end, CellsIn) == Pick(ms, CellsIn) && Pick(ms + end, DataIn) == Pick(ms, DataIn)
    ensures Ready(ms + end) == Ready(ms) + |end|
  {
    PickConcat(ms, end, CellsIn);
    PickConcat(ms, end, DataIn);
    PickNone(end, CellsIn);
    PickNone(end, DataIn);
    ReadyConcat(ms, end);
    ReplyCounts();
  }

  // ---------- When a session changes its connection ----------

  /**
   The event makes the session let go of its connection: a query for another backend, or the end of a request
   without a transaction on a connection from a pool.
   */
  predicate Parts(w: World, e: Event, sid: Sid)
    requires sid in w.sessions
  {
    && Possible(e, w.sessions, w.registered, |w.pools|)
    && match e
       case Query(i, plan, _) => i == sid && !Suits(w.sessions[sid], plan, w.dead)
       case BackendReadable(i, be) =>
         i == sid && be.Finished? && IsLast(e) && be.txn == TxnIdle && w.sessions[sid].shard.Some?
       case _ => false
  }

  lemma QueryKeepsExactly(w: World, sid: Sid, plan: Plan, w': World)
    requires sid in w.sessions && sid in w'.sessions && QueryEffect(w, sid, plan, w') && w.sessions[sid].backend.Some?
    ensures w'.sessions[sid].backend == w.sessions[sid].backend <==> Suits(w.sessions[sid], plan, w.dead)
    ensures Suits(w.sessions[sid], plan, w.dead) ==> w'.sessions[sid].shard == w.sessions[sid].shard
  {
  }

  /** A session has its connection after an event exactly when the event does not part them. */
  lemma StepKeepsExactly(w: World, e: Event, w': World, sid: Sid)
    requires Stepped(w, e, w') && sid in w.sessions && sid in w'.sessions && w.sessions[sid].backend.Some?
    ensures w'.sessions[sid].backend == w.sessions[sid].backend <==> !Parts(w, e, sid)
    ensures !Parts(w, e, sid) ==> w'.sessions[sid].shard == w.sessions[sid].shard
  {
    if SidOf(e) != Some(sid) {
      OthersUnchanged(w, e, w', sid);
    } else if Possible(e, w.sessions, w.registered, |w.pools|) {
      match e
      case Query(_, plan, _) => QueryKeepsExactly(w, sid, plan, w');
      case _ =>
    }
  }

  // ---------- Over whole runs ----------

  predicate NeverParts(trace: seq<World>, events: seq<Event>, sid: Sid, i: nat, j: nat)
    requires i <= j <= |events| && |trace| == |events| + 1 && Lives(trace, sid, i, j)
  {
    forall n :: i <= n < j ==> !Parts(trace[n], events[n], sid)
  }

  predicate Keeps(w: World, w': World, sid: Sid) {
    && sid in w.sessions && sid in w'.sessions
    && (w.sessions[sid].backend.Some? ==> SameBackend(w.sessions[sid], w'.sessions[sid]))
  }

  lemma {:induction false} Keeping(trace: seq<World>, sid: Sid, i: nat, j: nat)
    requires i <= j < |trace| && sid in trace[i].sessions && trace[i].sessions[sid].backend.Some?
    requires forall n :: i <= n < j ==> Keeps(trace[n], trace[n + 1], sid)
    ensures sid in trace[j].sessions && SameBackend(trace[i].sessions[sid], trace[j].sessions[sid])
    decreases j - i
  {
    if i < j {
      assert Keeps(trace[i], trace[i + 1], sid);
      Keeping(trace, sid, i + 1, j);
    }
  }

  /** From state i to state j the session has the same connection. */
  lemma SameConnection(trace: seq<World>, events: seq<Event>, sid: Sid, i: nat, j: nat)
    requires IsTrace(trace, events) && i <= j <= |events| && Lives(trace, sid, i, j)
    requires trace[i].sessions[sid].backend.Some? && NeverParts(trace, events, sid, i, j)
    ensures SameBackend(trace[i].sessions[sid], trace[j].sessions[sid])
  {
    forall n | i <= n < j
      ensures Keeps(trace[n], trace[n + 1], sid)
    {
      assert sid in trace[n].sessions && sid in trace[n + 1].sessions;
      assert Stepped(trace[n], events[n], trace[n + 1]) && !Parts(trace[n], events[n], sid);
      if trace[n].sessions[sid].backend.Some? {
        StepKeepsExactly(trace[n], events[n], trace[n + 1], sid);
      }
    }
    Keeping(trace, sid, i, j);
  }

  /** A request that ends in a transaction leaves the session its connection, marked as busy. */
  lemma TransactionBegins(w: World, e: Event, w': World, sid: Sid)
    requires Stepped(w, e, w') && IsReply(w, e, sid) && IsLast(e) && sid in w.sessions
    ensures sid in w'.sessions && w.sessions[sid].backend.Some?
    ensures var c := w.sessions[sid].backend.value; c in w'.busy <==> e.be.txn != TxnIdle
    ensures e.be.txn != TxnIdle ==> SameBackend(w.sessions[sid], w'.sessions[sid])
  {
  }

  /**
   In every run, a client that was told T or E goes on with the same connection, whatever all other sessions
   do, until it sends a query for another backend, its transaction ends, or its session does.
   */
  lemma TransactionStays(trace: seq<World>, events: seq<Event>, sid: Sid, i: nat, j: nat)
    requires IsTrace(trace, events) && i < j <= |events| && Lives(trace, sid, i, j)
    requires IsReply(trace[i], events[i], sid) && IsLast(events[i])
    requires TxnByte(events[i].be.txn) in {'T' as int, 'E' as int}
    requires NeverParts(trace, events, sid, i + 1, j)
    ensures var c := trace[i].sessions[sid].backend;
            c.Some? && c.value in trace[i + 1].busy && trace[j].sessions[sid].backend == c
  {
    assert sid in trace[i].sessions && sid in trace[i + 1].sessions;
    assert Stepped(trace[i], events[i], trace[i + 1]);
    TransactionBegins(trace[i], events[i], trace[i + 1], sid);
    SameConnection(trace, events, sid, i + 1, j);
  }

  // ---------- Where transactions are lost ----------

  /**
   A query for another backend closes the connection of a transaction, and with it the transaction. The
   query runs on the transaction's connection exactly when it is for the backend that has it.
   */
  lemma SwitchLoses(w: World, e: Event, w': World, sid: Sid)
    requires Stepped(w, e, w') && e.Query? && e.sid == sid && sid in w.sessions && sid in w'.sessions
    requires Possible(e, w.sessions, w.registered, |w.pools|)
    requires w.sessions[sid].backend.Some? && w.sessions[sid].backend.value in w.busy
    ensures var c := w.sessions[sid].backend;
            && (w'.sessions[sid].backend == c <==> Suits(w.sessions[sid], e.plan, w.dead))
            && (!Suits(w.sessions[sid], e.plan, w.dead) ==> c.value in w'.finished)
  {
    QueryKeepsExactly(w, sid, e.plan, w');
  }

  /** BEGIN is answered by the default backend; the first statement for a shard then closes that connection. */
  lemma BeginIsLost(w: World, sid: Sid, k: nat, luck: Luck, w': World)
    requires sid in w.sessions && w.sessions[sid].state == READY && k < |w.pools|
    requires w.sessions[sid].backend.Some? && w.sessions[sid].shard.None?
    requires Stepped(w, Query(sid, ToShard(k), luck), w')
    ensures sid in w'.sessions && w'.sessions[sid].backend != w.sessions[sid].backend
    ensures w.sessions[sid].backend.value in w'.finished
  {
  }
}
