/**
 The framing loop and the event callbacks speak of the same session: the packets that the loop takes out
 of a client's bytes are the session's events, and what it queues is what the session's log says.
 */
module Dispatch {
  import opened Wrappers
  import opened Wire
  import opened Framing
  import opened Ownership
  import opened Sessions
  import opened Outbox
  import opened Replies
  import opened Proxy

  // ---------- Packets as events ----------

  function StartupEvents(buf: Bytes, len: nat, sid: Sid): seq<Event>
    requires StartupOf(buf) == Whole(len)
  {
    if len < 8 then [Disconnect(sid)]
    else
      var version := U32(buf[4..]);
      if version == SSL_REQUEST then [] else if version / 0x1_0000 == 3 then [Startup(sid)] else [Disconnect(sid)]
  }

  /** A Query is an event only after the loop has handed it over. */
  function ReadyEvents(t: byte, sid: Sid): seq<Event> {
    if t in EXTENDED then [Extended(sid)] else if t == TERMINATE then [Disconnect(sid)] else []
  }

  function CopyEvents(buf: Bytes, total: nat, accepted: bool, sid: Sid): seq<Event>
    requires HeadOf(buf) == Whole(total)
  {
    var cmd := CopyCommand(buf[0], if total == 0 then [] else buf[5..total]);
    if cmd.None? then [] else [CopyInput(sid, !cmd.value.Put?, accepted)]
  }

  function TurnEvents(f: Front, ok: nat -> bool, sid: Sid): (es: seq<Event>)
    requires Framing.Active(f) && HeadFor(f).Whole?
    ensures |es| <= 1
  {
    var total := HeadFor(f).total;
    if f.state == INIT then StartupEvents(f.recv, total, sid)
    else if f.state == READY then ReadyEvents(f.recv[0], sid)
    else CopyEvents(f.recv, total, ok(|f.forwarded|), sid)
  }

  /** The events of one call of the loop; a bad length closes the session. */
  function LoopEvents(f: Front, ok: nat -> bool, sid: Sid): seq<Event>
    decreases |f.recv|, Framing.Active(f)
  {
    if !Framing.Active(f) || HeadFor(f).Short? then []
    else if HeadFor(f).Bad? then [Disconnect(sid)]
    else
      var f' := Turn(f, ok);
      TurnEvents(f, ok, sid) + if Framing.Active(f') then LoopEvents(f', ok, sid) else []
  }

  // ---------- What such events do to a session ----------

  predicate Takes(s: Session, e: Event, sid: Sid) {
    match e
    case Startup(i) => i == sid && s.state == INIT
    case Extended(i) => i == sid && s.state == READY
    case CopyInput(i, _, _) => i == sid && s.state == COPY_IN
    case Disconnect(i) => i == sid
    case _ => false
  }

  /** The session afterwards; None when it is closed. */
  function After(s: Session, e: Event): Option<Session> {
    match e
    case Startup(_) => Some(Say(s, STARTUP_MSGS).(state := READY))
    case Extended(_) => Some(Say(s, REFUSAL).(rejected := s.rejected + 1))
    case CopyInput(_, last, accepted) =>
      if !accepted then None else if last then Some(s.(state := QUERY)) else Some(s)
    case _ => None
  }

  function AfterAll(s: Session, es: seq<Event>): Option<Session>
    decreases es
  {
    if es == [] then Some(s)
    else
      var s' := After(s, es[0]);
      if s'.None? then None else AfterAll(s'.value, es[1..])
  }

  /** Every event finds the session in the state it needs, and none comes after the last. */
  predicate TakesAll(s: Session, es: seq<Event>, sid: Sid)
    decreases es
  {
    es == [] ||
    (&& Takes(s, es[0], sid)
     && if After(s, es[0]).None? then |es| == 1 else TakesAll(After(s, es[0]).value, es[1..], sid))
  }

  lemma TakesNext(s: Session, first: seq<Event>, rest: seq<Event>, sid: Sid)
    requires |first| <= 1 && TakesAll(s, first, sid)
    requires if AfterAll(s, first).None? then rest == [] else TakesAll(AfterAll(s, first).value, rest, sid)
    ensures TakesAll(s, first + rest, sid)
    ensures AfterAll(s, first + rest)
            == if AfterAll(s, first).None? then None else AfterAll(AfterAll(s, first).value, rest)
  {
    if first == [] {
      assert first + rest == rest;
    } else {
      var es, s' := first + rest, After(s, first[0]);
      assert es[0] == first[0] && es[1..] == rest && first[1..] == [];
      assert AfterAll(s, first) == if s'.None? then None else AfterAll(s'.value, []);
    }
  }

  // ---------- The loop and the events agree ----------

  function Refused(rs: seq<Reply>): nat {
    if rs == [] then 0 else (if rs[0] == ExtendedRejected then 1 else 0) + Refused(rs[1..])
  }

  /** The session after the loop has said rs and reached a state. */
  function Told(s: Session, rs: seq<Reply>, st: State): Session {
    s.(state := st, log := s.log + AllMsgs(rs), rejected := s.rejected + Refused(rs))
  }

  lemma {:induction false} ToldTwice(s: Session, a: seq<Reply>, st: State, b: seq<Reply>, st': State)
    ensures Told(Told(s, a, st), b, st') == Told(s, a + b, st')
    decreases a
  {
    if a == [] {
      assert a + b == b;
    } else {
      assert (a + b)[1..] == a[1..] + b;
      ToldTwice(s.(log := s.log + MsgsOf(a[0])), a[1..], st, b, st');
      Assoc(s.log, MsgsOf(a[0]), AllMsgs(a[1..]));
      Assoc(s.log, MsgsOf(a[0]), AllMsgs(a[1..] + b));
    }
  }

  /** From f to r the session s went through the events es. */
  predicate Matches(f: Front, r: Front, s: Session, es: seq<Event>, sid: Sid) {
    && f.replies <= r.replies && TakesAll(s, es, sid)
    && (AfterAll(s, es).None? <==> r.status == Closed)
    && (r.status != Closed ==> AfterAll(s, es) == Some(Told(s, r.replies[|f.replies|..], r.state)))
  }

  lemma OneReply(s: Session, r: Reply, st: State)
    ensures Told(s, [r], st)
            == s.(state := st, log := s.log + MsgsOf(r), rejected := s.rejected + if r == ExtendedRejected then 1 else 0)
    ensures Told(s, [], st) == s.(state := st)
  {
    assert [r][1..] == [];
    assert AllMsgs([r]) == MsgsOf(r) + AllMsgs([]) == MsgsOf(r);
    assert Refused([r]) == (if r == ExtendedRejected then 1 else 0) + Refused([]);
    assert s.log + AllMsgs([]) == s.log;
  }

  lemma StartupMatches(f: Front, s: Session, len: nat, sid: Sid)
    requires f.status == Open && f.state == INIT == s.state && StartupOf(f.recv) == Whole(len)
    ensures Matches(f, StartupTurn(f, len), s, StartupEvents(f.recv, len, sid), sid)
  {
    StartupTurnExactly(f, len);
    OneReply(s, StartupComplete, READY);
    OneReply(s, SslRefused, INIT);
    assert (f.replies + [StartupComplete])[|f.replies|..] == [StartupComplete];
    assert (f.replies + [SslRefused])[|f.replies|..] == [SslRefused];
  }

  lemma ReadyMatches(f: Front, s: Session, total: nat, sid: Sid)
    requires f.status == Open && f.state == READY == s.state && HeadOf(f.recv) == Whole(total)
    ensures Matches(f, ReadyTurn(f, total), s, ReadyEvents(f.recv[0], sid), sid)
  {
    ReadyTurnExactly(f, total);
    OneReply(s, ExtendedRejected, READY);
    assert TERMINATE !in EXTENDED && QUERY_MSG !in EXTENDED;
    assert (f.replies + [ExtendedRejected])[|f.replies|..] == [ExtendedRejected];
    assert f.replies[|f.replies|..] == [];
  }

  lemma CopyMatches(f: Front, s: Session, total: nat, ok: nat -> bool, sid: Sid)
    requires f.status == Open && f.state == COPY_IN == s.state && HeadOf(f.recv) == Whole(total)
    ensures Matches(f, CopyTurn(f, total, ok), s, CopyEvents(f.recv, total, ok(|f.forwarded|), sid), sid)
  {
    CopyTurnExactly(f, total, ok);
    assert f.replies[|f.replies|..] == [];
    OneReply(s, SslRefused, COPY_IN);
    OneReply(s, SslRefused, QUERY);
  }

  lemma TurnMatches(f: Front, s: Session, ok: nat -> bool, sid: Sid)
    requires Framing.Active(f) && HeadFor(f).Whole? && s.state == f.state
    ensures Matches(f, Turn(f, ok), s, TurnEvents(f, ok, sid), sid)
  {
    var total := HeadFor(f).total;
    if f.state == INIT {
      StartupMatches(f, s, total, sid);
    } else if f.state == READY {
      ReadyMatches(f, s, total, sid);
    } else {
      CopyMatches(f, s, total, ok, sid);
    }
  }

  lemma MatchesNext(f: Front, f': Front, r: Front, s: Session, first: seq<Event>, rest: seq<Event>, sid: Sid)
    requires Matches(f, f', s, first, sid) && |first| <= 1 && f'.status != Closed
    requires Matches(f', r, Told(s, f'.replies[|f.replies|..], f'.state), rest, sid)
    ensures Matches(f, r, s, first + rest, sid)
  {
    var a, b := f'.replies[|f.replies|..], r.replies[|f'.replies|..];
    assert r.replies[|f.replies|..] == a + b;
    TakesNext(s, first, rest, sid);
    ToldTwice(s, a, f'.state, b, r.state);
  }

  /**
   For every buffer in every state: the loop's packets are events that the session can take one after
   the other, they close it exactly when the loop does, and otherwise leave it in the loop's state with
   the loop's replies in its log and one rejection for each refused message.
   */
  lemma {:induction false} LoopMatches(f: Front, s: Session, ok: nat -> bool, sid: Sid)
    requires f.status == Open && s.state == f.state
    ensures Matches(f, Loop(f, ok), s, LoopEvents(f, ok, sid), sid)
    decreases |f.recv|, Framing.Active(f)
  {
    if !Framing.Active(f) || !HeadFor(f).Whole? {
      assert f.replies[|f.replies|..] == [];
      OneReply(s, SslRefused, f.state);
    } else {
      var f', first := Turn(f, ok), TurnEvents(f, ok, sid);
      TurnMatches(f, s, ok, sid);
      if Framing.Active(f') {
        var s' := Told(s, f'.replies[|f.replies|..], f'.state);
        LoopMatches(f', s', ok, sid);
        MatchesNext(f, f', Loop(f', ok), s, first, LoopEvents(f', ok, sid), sid);
      } else {
        assert first + [] == first;
      }
    }
  }

  // ---------- The same events on the shared state ----------

  lemma StepTakes(w: World, e: Event, w': World, sid: Sid)
    requires sid in w.sessions && Takes(w.sessions[sid], e, sid) && Stepped(w, e, w')
    ensures After(w.sessions[sid], e).None? <==> sid !in w'.sessions
    ensures sid in w'.sessions ==> After(w.sessions[sid], e) == Some(w'.sessions[sid])
  {
  }

  lemma {:induction false} TraceTakes(trace: seq<World>, es: seq<Event>, sid: Sid)
    requires IsTrace(trace, es) && sid in trace[0].sessions && TakesAll(trace[0].sessions[sid], es, sid)
    ensures var s := AfterAll(trace[0].sessions[sid], es);
            && (s.None? <==> sid !in trace[|es|].sessions)
            && (s.Some? ==> s == Some(trace[|es|].sessions[sid]))
    decreases es
  {
    if es != [] {
      assert Stepped(trace[0], es[0], trace[1]);
      StepTakes(trace[0], es[0], trace[1], sid);
      if sid in trace[1].sessions {
        assert IsTrace(trace[1..], es[1..]);
        TraceTakes(trace[1..], es[1..], sid);
      } else {
        assert |es| == 1;
      }
    }
  }

  /**
   When the proxy handles the events of one call of the loop, the session is closed exactly when the
   loop closes it, and otherwise its state, log and count of rejections are the loop's.
   */
  lemma LoopIsEvents(trace: seq<World>, f: Front, ok: nat -> bool, sid: Sid)
    requires f.status == Open && IsTrace(trace, LoopEvents(f, ok, sid))
    requires sid in trace[0].sessions && trace[0].sessions[sid].state == f.state
    ensures var r, w := Loop(f, ok), trace[|trace| - 1];
            && f.replies <= r.replies
            && (sid in w.sessions <==> r.status != Closed)
            && (r.status != Closed ==> w.sessions[sid] == Told(trace[0].sessions[sid], r.replies[|f.replies|..], r.state))
  {
    LoopMatches(f, trace[0].sessions[sid], ok, sid);
    TraceTakes(trace, LoopEvents(f, ok, sid), sid);
  }

  /** A Query that the loop hands over finds its session ready. */
  lemma {:induction false} AskedReady(f: Front, ok: nat -> bool)
    requires f.status == Open && Loop(f, ok).status.Asked?
    ensures Loop(f, ok).state == READY
    decreases |f.recv|, Framing.Active(f)
  {
    if Framing.Active(f) && HeadFor(f).Whole? {
      if f.state == COPY_IN {
        CopyTurnExactly(f, HeadFor(f).total, ok);
      }
      if Framing.Active(Turn(f, ok)) {
        AskedReady(Turn(f, ok), ok);
      }
    }
  }

  // ---------- The ledger counts packets ----------

  lemma {:induction false} AllRefused(ps: seq<Bytes>)
    ensures Refused(Rejections(ps)) == |Rejections(ps)|
  {
    if ps != [] {
      AllRefused(ps[1..]);
      assert Rejection(ps[0]) != [] ==> Rejections(ps)[1..] == Rejections(ps[1..]);
      assert Rejection(ps[0]) == [] ==> Rejections(ps) == Rejections(ps[1..]);
    }
  }

  /** An idle session is charged one rejection for each packet of the extended protocol that was taken out. */
  lemma RejectionsArePackets(trace: seq<World>, f: Front, ok: nat -> bool, sid: Sid)
    requires f.status == Open && f.state == READY && IsTrace(trace, LoopEvents(f, ok, sid))
    requires sid in trace[0].sessions && trace[0].sessions[sid].state == READY
    requires Loop(f, ok).status !in {Closed, Hung}
    ensures var r, w := Loop(f, ok), trace[|trace| - 1];
            && f.consumed <= r.consumed && sid in w.sessions
            && w.sessions[sid].rejected == trace[0].sessions[sid].rejected + |Rejections(r.consumed[|f.consumed|..])|
  {
    LoopIsEvents(trace, f, ok, sid);
    LoopRefuses(f, ok);
    AllRefused(Loop(f, ok).consumed[|f.consumed|..]);
  }

  // ---------- The log is what is sent ----------

  const NEW_FRONT := Front(INIT, [], [], [], [], Open)

  /**
   From the first byte a client sends up to its first Query, in whatever pieces its bytes arrive: the
   bytes queued for it are an N for each refusal of SSL and then its session's log.
   */
  lemma FirstWords(chunks: seq<Bytes>, s: Session, ok: nat -> bool, sid: Sid) returns (k: nat)
    requires chunks != [] && s == NEW_SESSION
    ensures var r, es := ReceiveAll(NEW_FRONT, chunks, ok), LoopEvents(Receive(NEW_FRONT, Concat(chunks)), ok, sid);
            && (AfterAll(s, es).None? <==> r.status == Closed)
            && (r.status != Closed ==> AfterAll(s, es).Some? && AllBytes(r.replies) == Framed(k, AfterAll(s, es).value.log))
  {
    var f := Receive(NEW_FRONT, Concat(chunks));
    IndependentOfChunks(NEW_FRONT, chunks, ok);
    LoopMatches(f, s, ok, sid);
    LoopSslFirst(f, ok);
    var r := Loop(f, ok);
    k := RepliesFramed(r.replies);
    assert r.replies[0..] == r.replies;
    assert s.log + AllMsgs(r.replies) == AllMsgs(r.replies);
  }
}
