/** What clients see over whole runs, however the events of many sessions are interleaved. */
module Traces {
  import opened Wrappers
  import opened Wire
  import opened Results
  import opened Framing
  import opened Ownership
  import opened Sessions
  import opened Gather
  import opened Proxy

  /** The session is there from state i to state j. */
  predicate Lives(trace: seq<World>, sid: Sid, i: nat, j: nat)
    requires i <= j < |trace|
  {
    forall n :: i <= n <= j ==> sid in trace[n].sessions
  }

  // ---------- Sessions do not touch each other ----------

  /** The session whose callback runs. */
  function SidOf(e: Event): Option<Sid> {
    match e
    case HealthCheck => None
    case Dies(_) => None
    case _ => Some(e.sid)
  }

  lemma OthersUnchanged(w: World, e: Event, w': World, sid: Sid)
    requires Stepped(w, e, w') && SidOf(e) != Some(sid)
    ensures sid in w'.sessions <==> sid in w.sessions
    ensures sid in w.sessions ==> w'.sessions[sid] == w.sessions[sid]
  {
  }

  // ---------- Nothing said is taken back ----------

  predicate Grows(w: World, w': World, sid: Sid) {
    sid in w.sessions && sid in w'.sessions && w.sessions[sid].log <= w'.sessions[sid].log
  }

  lemma QueryGrows(w: World, sid: Sid, plan: Plan, w': World)
    requires sid in w.sessions && QueryEffect(w, sid, plan, w') && sid in w'.sessions
    ensures Grows(w, w', sid)
  {
  }

  lemma SlotGrows(w: World, sid: Sid, i: nat, sr: SlotReadable, w': World)
    requires sid in w.sessions && i < |w.sessions[sid].slots| && SlotEffect(w, sid, i, sr, w')
    ensures Grows(w, w', sid)
  {
  }

  lemma StepGrows(w: World, e: Event, w': World, sid: Sid)
    requires Stepped(w, e, w') && sid in w.sessions && sid in w'.sessions
    ensures Grows(w, w', sid)
  {
    if SidOf(e) != Some(sid) {
      OthersUnchanged(w, e, w', sid);
    } else if Possible(e, w.sessions, w.registered, |w.pools|) {
      match e
      case Query(_, plan, _) => QueryGrows(w, sid, plan, w');
      case SlotAnswers(_, i, sr) => SlotGrows(w, sid, i, sr, w');
      case _ =>
    }
  }

  /** The messages queued for a client only grow while its session lives. */
  lemma LogsGrow(trace: seq<World>, events: seq<Event>, sid: Sid, i: nat, j: nat)
    requires IsTrace(trace, events) && i <= j <= |events| && Lives(trace, sid, i, j)
    ensures Grows(trace[i], trace[j], sid)
  {
    forall n | i <= n < j
      ensures Grows(trace[n], trace[n + 1], sid)
    {
      assert Stepped(trace[n], events[n], trace[n + 1]);
      StepGrows(trace[n], events[n], trace[n + 1], sid);
    }
    Growing(trace, sid, i, j);
  }

  lemma {:induction false} Growing(trace: seq<World>, sid: Sid, i: nat, j: nat)
    requires i <= j < |trace| && sid in trace[i].sessions
    requires forall n :: i <= n < j ==> Grows(trace[n], trace[n + 1], sid)
    ensures Grows(trace[i], trace[j], sid)
    decreases j - i
  {
    if i < j {
      assert Grows(trace[i], trace[i + 1], sid);
      Growing(trace, sid, i + 1, j);
    }
  }

  // ---------- A scatter among other sessions' events ----------

  predicate IsArrival(w: World, e: Event, sid: Sid) {
    e.SlotAnswers? && e.sid == sid && e.sr.SlotEnds? && (sid, Part(e.i)) in w.registered
  }

  /** The ends of the session's slots from state i to state j, in the order they came. */
  function Arrivals(trace: seq<World>, events: seq<Event>, sid: Sid, i: nat, j: nat): seq<Arrival>
    requires |trace| == |events| + 1 && i <= j <= |events|
    decreases j - i
  {
    if i == j then []
    else
      (if IsArrival(trace[i], events[i], sid) then [Arrival(events[i].i, events[i].sr.ev)] else [])
      + Arrivals(trace, events, sid, i + 1, j)
  }

  predicate ArrivesOrStays(w: World, e: Event, w': World, sid: Sid) {
    sid in w.sessions && sid in w'.sessions && SessionOk(w.sessions[sid]) &&
    if IsArrival(w, e, sid) then
      && e.i < |w.sessions[sid].slots| && w.sessions[sid].slots[e.i].conn.Some?
      && w'.sessions[sid] == Cleared(Arrive(w.sessions[sid], Arrival(e.i, e.sr.ev)))
    else w'.sessions[sid] == w.sessions[sid]
  }

  /** While a session is scattering, only the ends of its own slots change it. */
  lemma ScatterStep(w: World, e: Event, w': World, sid: Sid)
    requires AllOk(w) && Stepped(w, e, w') && sid in w.sessions && sid in w'.sessions
    requires w.sessions[sid].state == SCATTER
    ensures ArrivesOrStays(w, e, w', sid)
  {
    if SidOf(e) != Some(sid) {
      OthersUnchanged(w, e, w', sid);
    } else if e.SlotAnswers? && (sid, Part(e.i)) in w.registered {
      assert w.HeldIn(sid, Part(e.i)).Some?;
    }
  }

  /** From state i to state j the session is scattering, state j excepted. */
  predicate Scattering(trace: seq<World>, sid: Sid, i: nat, j: nat)
    requires i <= j < |trace|
  {
    forall n :: i <= n < j ==> sid in trace[n].sessions && trace[n].sessions[sid].state == SCATTER
  }

  predicate ScatterPath(trace: seq<World>, events: seq<Event>, sid: Sid, i: nat, j: nat) {
    && |trace| == |events| + 1 && i < j <= |events| && Scattering(trace, sid, i, j)
    && forall n :: i <= n < j ==> ArrivesOrStays(trace[n], events[n], trace[n + 1], sid)
  }

  lemma TraceToPath(trace: seq<World>, events: seq<Event>, sid: Sid, i: nat, j: nat)
    requires IsTrace(trace, events) && i < j <= |events| && Lives(trace, sid, i, j) && Scattering(trace, sid, i, j)
    ensures ScatterPath(trace, events, sid, i, j)
  {
    forall n | i <= n < j
      ensures ArrivesOrStays(trace[n], events[n], trace[n + 1], sid)
    {
      assert AllOk(trace[n]) && Stepped(trace[n], events[n], trace[n + 1]);
      ScatterStep(trace[n], events[n], trace[n + 1], sid);
    }
  }

  /** One arrival, or none, in front of others. */
  lemma ArriveNext(w: World, e: Event, w': World, sid: Sid, rest: seq<Arrival>)
    requires ArrivesOrStays(w, e, w', sid) && w.sessions[sid].state == SCATTER
    requires w'.sessions[sid].state == SCATTER || rest == []
    requires SlotsOk(w'.sessions[sid], rest)
    ensures var a := (if IsArrival(w, e, sid) then [Arrival(e.i, e.sr.ev)] else []) + rest;
            && (w'.sessions[sid].state == SCATTER ==>
                  SlotsOk(w.sessions[sid], a) && ArriveAll(w.sessions[sid], a) == ArriveAll(w'.sessions[sid], rest))
            && (rest == [] ==> SlotsOk(w.sessions[sid], a) && w'.sessions[sid] == Cleared(ArriveAll(w.sessions[sid], a)))
  {
    if IsArrival(w, e, sid) {
      var a := Arrival(e.i, e.sr.ev);
      assert ([a] + rest)[1..] == rest;
      assert forall k :: 0 < k < |[a] + rest| ==> ([a] + rest)[k] == rest[k - 1];
    } else {
      assert [] + rest == rest;
    }
  }

  /** The session at the end is the one that the arrivals alone would have made of it. */
  lemma {:induction false} ScatterInterleaved(trace: seq<World>, events: seq<Event>, sid: Sid, i: nat, j: nat)
    requires ScatterPath(trace, events, sid, i, j)
    ensures var s, a := trace[i].sessions[sid], Arrivals(trace, events, sid, i, j);
            sid in trace[j].sessions && SlotsOk(s, a) && trace[j].sessions[sid] == Cleared(ArriveAll(s, a))
    decreases j - i
  {
    assert ArrivesOrStays(trace[i], events[i], trace[i + 1], sid);
    if i + 1 == j {
      ArriveNext(trace[i], events[i], trace[j], sid, []);
    } else {
      assert trace[i + 1].sessions[sid].state == SCATTER;
      ScatterInterleaved(trace, events, sid, i + 1, j);
      ArriveNext(trace[i], events[i], trace[i + 1], sid, Arrivals(trace, events, sid, i + 1, j));
    }
  }

  /** The counter has counted the arrivals. */
  lemma {:induction false} Counting(trace: seq<World>, events: seq<Event>, sid: Sid, i: nat, j: nat)
    requires ScatterPath(trace, events, sid, i, j)
    ensures sid in trace[j].sessions
    ensures var s, s' := trace[i].sessions[sid], trace[j].sessions[sid];
            var n := s.scatterDone + |Arrivals(trace, events, sid, i, j)|;
            && (s'.state == SCATTER ==> |s'.slots| == |s.slots| && s'.scatterDone == n)
            && (s'.state != SCATTER && trace[j - 1].sessions[sid].scatterDone < |s.slots| ==> n == |s.slots|)
            && |trace[j - 1].sessions[sid].slots| == |s.slots|
    decreases j - i
  {
    assert ArrivesOrStays(trace[i], events[i], trace[i + 1], sid);
    if i + 1 == j {
      assert Arrivals(trace, events, sid, j, j) == [];
    } else {
      assert trace[i + 1].sessions[sid].state == SCATTER;
      Counting(trace, events, sid, i + 1, j);
    }
  }

  /** The ends come from slots that hold a connection. */
  predicate FromReached(s: Session, a: seq<Arrival>) {
    forall k :: 0 <= k < |a| ==> a[k].slot < |s.slots| && s.slots[a[k].slot].conn.Some?
  }

  lemma ReachedNext(w: World, e: Event, w': World, sid: Sid, rest: seq<Arrival>)
    requires ArrivesOrStays(w, e, w', sid) && w.sessions[sid].state == SCATTER
    requires rest == [] || (w'.sessions[sid].state == SCATTER && FromReached(w'.sessions[sid], rest))
    ensures FromReached(w.sessions[sid], (if IsArrival(w, e, sid) then [Arrival(e.i, e.sr.ev)] else []) + rest)
  {
  }

  lemma {:induction false} ArrivalsReached(trace: seq<World>, events: seq<Event>, sid: Sid, i: nat, j: nat)
    requires ScatterPath(trace, events, sid, i, j)
    ensures FromReached(trace[i].sessions[sid], Arrivals(trace, events, sid, i, j))
    decreases j - i
  {
    assert ArrivesOrStays(trace[i], events[i], trace[i + 1], sid);
    if i + 1 == j {
      ReachedNext(trace[i], events[i], trace[j], sid, []);
    } else {
      assert trace[i + 1].sessions[sid].state == SCATTER;
      ArrivalsReached(trace, events, sid, i + 1, j);
      ReachedNext(trace[i], events[i], trace[i + 1], sid, Arrivals(trace, events, sid, i + 1, j));
    }
  }

  /** What the client is told: one header, all rows in order of arrival, one CommandComplete, one ReadyForQuery. */
  function Answer(arrivals: seq<Arrival>): seq<Msg> {
    var rs := ResultsOf(arrivals);
    HeaderOf(rs) + DataRows(RowsOf(rs)) + FinalMsgs(AnyTuples(rs))
  }

  lemma PathAnswered(trace: seq<World>, events: seq<Event>, sid: Sid, i: nat, j: nat)
    requires ScatterPath(trace, events, sid, i, j) && sid in trace[j].sessions
    requires !trace[i].sessions[sid].header && trace[j].sessions[sid].state == READY
    ensures var s, a := trace[i].sessions[sid], Arrivals(trace, events, sid, i, j);
            && SlotsOk(s, a) && s.scatterDone + |a| == |s.slots|
            && trace[j].sessions[sid].log == s.log + Answer(a) && trace[j].sessions[sid].slots == []
  {
    var s, a := trace[i].sessions[sid], Arrivals(trace, events, sid, i, j);
    ScatterInterleaved(trace, events, sid, i, j);
    Counting(trace, events, sid, i, j);
    assert s.scatterDone < |s.slots| && trace[j - 1].sessions[sid].scatterDone < |trace[j - 1].sessions[sid].slots| by {
      assert ArrivesOrStays(trace[i], events[i], trace[i + 1], sid);
      assert ArrivesOrStays(trace[j - 1], events[j - 1], trace[j], sid);
    }
    GatherOutput(s, a);
    var rs := ResultsOf(a);
    Assoc(s.log, HeaderOf(rs) + DataRows(RowsOf(rs)), FinalMsgs(AnyTuples(rs)));
  }

  /** The slots that the query was sent on. */
  function Reached(s: Session): set<nat> {
    set i | 0 <= i < |s.slots| && s.slots[i].conn.Some?
  }

  /**
   The rows are those of slots that the query was sent on, in whatever order, and of every one of them
   exactly when none reported its end twice; then each slot gives the rows of its one end.
   */
  predicate Accounted(s: Session, a: seq<Arrival>) {
    && multiset(RowsOf(ResultsOf(a))) == multiset(RowsBySlot(a, |s.slots|))
    && SlotsHit(a) <= Reached(s) && (SlotsHit(a) == Reached(s) <==> OncePerSlot(a))
    && (OncePerSlot(a) ==> forall k :: 0 <= k < |a| ==> RowsOfSlot(a, a[k].slot) == GotRows(a[k].ev))
  }

  lemma Apart(s: Session, r: Session, hit: set<nat>)
    requires Started(s) && |r.slots| == |s.slots| && hit <= Reached(s) && DoneSlots(r) == DoneSlots(s) + hit
    ensures hit == Reached(s) <==> forall i :: 0 <= i < |s.slots| ==> r.slots[i].done
  {
    assert forall i :: 0 <= i < |s.slots| ==> (r.slots[i].done <==> i in DoneSlots(r));
    assert forall i :: 0 <= i < |s.slots| ==> (i in DoneSlots(s) <==> i !in Reached(s));
  }

  lemma AllEndedExactly(s: Session, a: seq<Arrival>)
    requires s.state == SCATTER && Started(s) && FromReached(s, a) && s.scatterDone + |a| == |s.slots|
    ensures SlotsHit(a) <= Reached(s) && (SlotsHit(a) == Reached(s) <==> OncePerSlot(a))
  {
    EveryShardEndedExactly(s, a);
    DoneAfter(s, a);
    var r := ArriveAll(s, a);
    Apart(s, r, SlotsHit(a));
  }

  lemma RowsAccounted(s: Session, a: seq<Arrival>)
    requires s.state == SCATTER && Started(s) && FromReached(s, a) && s.scatterDone + |a| == |s.slots|
    ensures Accounted(s, a)
  {
    AllEndedExactly(s, a);
    SameRows(a, |s.slots|);
    if OncePerSlot(a) {
      forall k | 0 <= k < |a|
        ensures RowsOfSlot(a, a[k].slot) == GotRows(a[k].ev)
      {
        RowsOfOneEnd(a, k);
      }
    }
  }

  lemma PathAccounted(trace: seq<World>, events: seq<Event>, sid: Sid, i: nat, j: nat)
    requires ScatterPath(trace, events, sid, i, j) && Started(trace[i].sessions[sid])
    requires trace[i].sessions[sid].scatterDone + |Arrivals(trace, events, sid, i, j)| == |trace[i].sessions[sid].slots|
    ensures Accounted(trace[i].sessions[sid], Arrivals(trace, events, sid, i, j))
  {
    ArrivalsReached(trace, events, sid, i, j);
    RowsAccounted(trace[i].sessions[sid], Arrivals(trace, events, sid, i, j));
  }

  /** A session before a scattered query, while it runs and after it, with the ends of its slots. */
  predicate Answered(before: Session, s: Session, after: Session, targets: seq<nat>, a: seq<Arrival>) {
    && after.log == before.log + Answer(a) && after.slots == []
    && |s.slots| == |targets| && (forall k :: 0 <= k < |targets| ==> s.slots[k].shard == targets[k])
    && Accounted(s, a)
  }

  predicate Begun(before: Session, s: Session, targets: seq<nat>) {
    && s.state == SCATTER && s.log == before.log && Started(s)
    && |s.slots| == |targets| && forall k :: 0 <= k < |targets| ==> s.slots[k].shard == targets[k]
  }

  predicate Runs(trace: seq<World>, events: seq<Event>, sid: Sid, before: Session, targets: seq<nat>, i: nat, j: nat) {
    && ScatterPath(trace, events, sid, i, j) && Begun(before, trace[i].sessions[sid], targets)
    && sid in trace[j].sessions && trace[j].sessions[sid].state == READY
  }

  lemma RunAnswered(trace: seq<World>, events: seq<Event>, sid: Sid, before: Session, targets: seq<nat>, i: nat, j: nat)
    requires Runs(trace, events, sid, before, targets, i, j)
    ensures Answered(before, trace[i].sessions[sid], trace[j].sessions[sid], targets, Arrivals(trace, events, sid, i, j))
  {
    PathAnswered(trace, events, sid, i, j);
    PathAccounted(trace, events, sid, i, j);
  }

  ghost predicate IsScatter(trace: seq<World>, events: seq<Event>, sid: Sid, targets: seq<nat>, i: nat, j: nat) {
    && IsTrace(trace, events) && i + 1 < j <= |events| && Lives(trace, sid, i, j)
    && events[i].Query? && events[i].sid == sid && events[i].plan == ToAll(targets)
    && Possible(events[i], trace[i].sessions, trace[i].registered, |trace[i].pools|)
    && Scattering(trace, sid, i + 1, j) && trace[j].sessions[sid].state == READY
  }

  lemma ScatterBegun(trace: seq<World>, events: seq<Event>, sid: Sid, targets: seq<nat>, i: nat, j: nat)
    requires IsScatter(trace, events, sid, targets, i, j)
    ensures Begun(trace[i].sessions[sid], trace[i + 1].sessions[sid], targets)
  {
    assert Stepped(trace[i], events[i], trace[i + 1]);
    assert trace[i + 1].sessions[sid].state == SCATTER;
  }

  lemma ScatterRuns(trace: seq<World>, events: seq<Event>, sid: Sid, targets: seq<nat>, i: nat, j: nat)
    requires IsScatter(trace, events, sid, targets, i, j)
    ensures Runs(trace, events, sid, trace[i].sessions[sid], targets, i + 1, j)
  {
    ScatterBegun(trace, events, sid, targets, i, j);
    TraceToPath(trace, events, sid, i + 1, j);
  }

  /**
   A query that is scattered to `targets` in the middle of a run, with any events of other sessions
   between its own. When the session is ready again, the client has got one header, all rows in order
   of arrival, one CommandComplete and one ReadyForQuery, and the rows are accounted for.
   */
  lemma ScatterAnswered(trace: seq<World>, events: seq<Event>, sid: Sid, targets: seq<nat>, i: nat, j: nat)
    requires IsScatter(trace, events, sid, targets, i, j)
    ensures Answered(trace[i].sessions[sid], trace[i + 1].sessions[sid], trace[j].sessions[sid], targets,
                     Arrivals(trace, events, sid, i + 1, j))
  {
    ScatterRuns(trace, events, sid, targets, i, j);
    RunAnswered(trace, events, sid, trace[i].sessions[sid], targets, i + 1, j);
  }
}
