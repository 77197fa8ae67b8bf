/**
 The framing loop of src/protocol/fe_protocol.c and the COPY IN forwarding of
 src/executor/copy_handler.c: bytes arrive in arbitrary pieces and are cut into packets.
 */
module Framing {
  import opened Wrappers
  import opened Wire

  datatype State = INIT | READY | QUERY | SCATTER | COPY_IN | COPY_OUT

  const MAX_MESSAGE := 16 * 1024 * 1024
  const SSL_REQUEST := 80877103
  const CANCEL_REQUEST := 80877102
  const COPY_FAIL: byte := 'f' as int
  const QUERY_MSG: byte := 'Q' as int
  const TERMINATE: byte := 'X' as int

  /** Parse, Bind, Describe, Execute, Sync, Close. */
  const EXTENDED: set<byte> := {'P' as int, 'B' as int, 'D' as int, 'E' as int, 'S' as int, 'C' as int}

  // ---------- Packet boundaries ----------

  datatype Head = Short | Bad | Whole(total: nat)

  /** The length is computed in 32 bits, so a length field of 2^32 - 1 gives a total of 0. */
  function HeadOf(buf: Bytes): Head {
    if |buf| < 5 then Short
    else
      var len := U32(buf[1..]);
      var total := (1 + len) % TWO32;
      if len < 4 || total > MAX_MESSAGE then Bad
      else if |buf| < total then Short
      else Whole(total)
  }

  function StartupOf(buf: Bytes): Head {
    if |buf| < 4 then Short
    else
      var len := U32(buf);
      if len < 4 || len > 65535 then Bad
      else if |buf| < len then Short
      else Whole(len)
  }

  lemma HeadAppend(buf: Bytes, more: Bytes)
    ensures !HeadOf(buf).Short? ==> HeadOf(buf + more) == HeadOf(buf)
  {
    if |buf| >= 5 {
      assert (buf + more)[1..][..4] == buf[1..][..4];
      assert U32((buf + more)[1..]) == U32(buf[1..]);
    }
  }

  /** A frame: its length field counts everything but the type byte. */
  predicate IsFrame(p: Bytes) {
    |p| >= 5 && U32(p[1..]) + 1 == |p|
  }

  predicate IsStartup(p: Bytes) {
    |p| >= 4 && U32(p) == |p|
  }

  lemma {:induction false} WholeIsFrame(buf: Bytes)
    requires HeadOf(buf).Whole? && HeadOf(buf).total > 0
    ensures IsFrame(buf[..HeadOf(buf).total])
    ensures HeadOf(buf).total >= 5
  {
    var total := HeadOf(buf).total;
    assert buf[..total][1..][..4] == buf[1..][..4];
    assert U32(buf[..total][1..]) == U32(buf[1..]);
  }

  // ---------- One turn of the loop ----------

  /** What is handed to libpq. The text of a failure is None when it is not terminated inside its message. */
  datatype CopyCmd = Put(data: Bytes) | PutEnd | PutFail(text: Option<Bytes>)

  /** What the loop itself queues for the client. */
  datatype Reply = SslRefused | StartupComplete | ExtendedRejected

  /** The loop goes on or waits, closed the session, spins forever, or took out a Query packet. */
  datatype Status = Open | Closed | Hung | Asked(packet: Bytes)

  datatype Front = Front(
    state: State,
    recv: Bytes,
    consumed: seq<Bytes>,
    forwarded: seq<CopyCmd>,
    replies: seq<Reply>,
    status: Status)

  const CLIENT_CANCEL: Bytes :=
    ['c' as int, 'l' as int, 'i' as int, 'e' as int, 'n' as int, 't' as int, ' ' as int,
     'c' as int, 'a' as int, 'n' as int, 'c' as int, 'e' as int, 'l' as int]

  function CopyCommand(t: byte, payload: Bytes): Option<CopyCmd> {
    if t == MSG_COPY_DATA then Some(Put(payload))
    else if t == MSG_COPY_DONE then Some(PutEnd)
    else if t == COPY_FAIL then
      if payload == [] then Some(PutFail(Some(CLIENT_CANCEL)))
      else
        var s := TakeString(payload);
        Some(PutFail(if s.Some? then Some(s.value.0) else None))
    else None
  }

  /** memmove: takes the first n bytes out; n is 0 for the one length that wraps. */
  function Drop(f: Front, n: nat): Front
    requires n <= |f.recv|
  {
    if n == 0 then f else f.(recv := f.recv[n..], consumed := f.consumed + [f.recv[..n]])
  }

  /** handle_startup_message. */
  function StartupTurn(f: Front, len: nat): Front
    requires StartupOf(f.recv) == Whole(len)
  {
    if len < 8 then f.(status := Closed)
    else
      var version := U32(f.recv[4..]);
      if version == SSL_REQUEST then Drop(f, len).(replies := f.replies + [SslRefused])
      else if version == CANCEL_REQUEST then Drop(f, len).(status := Closed)
      else if version / 0x1_0000 != 3 then f.(status := Closed)
      else Drop(f, len).(replies := f.replies + [StartupComplete], state := READY)
  }

  /** One message in COPY IN mode; the backend's answer depends on how many commands it was given before. */
  function CopyTurn(f: Front, total: nat, ok: nat -> bool): Front
    requires HeadOf(f.recv) == Whole(total)
  {
    var cmd := CopyCommand(f.recv[0], if total == 0 then [] else f.recv[5..total]);
    if cmd.None? then (if total == 0 then f.(status := Hung) else Drop(f, total))
    else if !ok(|f.forwarded|) then Drop(f, total).(status := Closed)
    else
      var f' := Drop(f, total).(forwarded := f.forwarded + [cmd.value]);
      if !cmd.value.Put? then f'.(state := QUERY) else if total == 0 then f'.(status := Hung) else f'
  }

  /** One message of a client that has no request outstanding. */
  function ReadyTurn(f: Front, total: nat): Front
    requires HeadOf(f.recv) == Whole(total)
  {
    var t := f.recv[0];
    if t == QUERY_MSG then Drop(f, total).(status := Asked(f.recv[..total]))
    else if t == TERMINATE then f.(status := Closed)
    else
      var f' := if t in EXTENDED then f.(replies := f.replies + [ExtendedRejected]) else f;
      if total == 0 then f'.(status := Hung) else Drop(f', total)
  }

  // ---------- The loop ----------

  /** The loop takes packets out; in the other states it waits for the backend. */
  predicate Active(f: Front) {
    f.status == Open && f.state in {INIT, READY, COPY_IN}
  }

  function HeadFor(f: Front): Head {
    if f.state == INIT then StartupOf(f.recv) else HeadOf(f.recv)
  }

  function Turn(f: Front, ok: nat -> bool): (r: Front)
    requires Active(f) && HeadFor(f).Whole?
    ensures Active(r) ==> |r.recv| < |f.recv|
  {
    var total := HeadFor(f).total;
    if f.state == INIT then StartupTurn(f, total)
    else if f.state == READY then ReadyTurn(f, total)
    else CopyTurn(f, total, ok)
  }

  function Loop(f: Front, ok: nat -> bool): Front
    decreases |f.recv|, Active(f)
  {
    if !Active(f) || HeadFor(f).Short? then f
    else if HeadFor(f).Bad? then f.(status := Closed)
    else
      var f' := Turn(f, ok);
      if Active(f') then Loop(f', ok) else f'
  }

  // ---------- Bytes arrive in pieces ----------

  function Receive(f: Front, chunk: Bytes): Front {
    f.(recv := f.recv + chunk)
  }

  lemma StartupAppend(buf: Bytes, more: Bytes)
    ensures !StartupOf(buf).Short? ==> StartupOf(buf + more) == StartupOf(buf)
    ensures |buf| >= 8 ==> U32((buf + more)[4..]) == U32(buf[4..])
  {
    if |buf| >= 4 {
      assert (buf + more)[..4] == buf[..4];
      assert U32(buf + more) == U32(buf);
    }
    if |buf| >= 8 {
      assert (buf + more)[4..][..4] == buf[4..][..4];
    }
  }

  lemma DropAppend(f: Front, more: Bytes, n: nat)
    requires n <= |f.recv|
    ensures Drop(Receive(f, more), n) == Receive(Drop(f, n), more)
    ensures (f.recv + more)[..n] == f.recv[..n]
    ensures n >= 5 ==> (f.recv + more)[5..n] == f.recv[5..n]
  {
    assert (f.recv + more)[..n] == f.recv[..n];
    assert (f.recv + more)[n..] == f.recv[n..] + more;
  }

  lemma TurnAppend(f: Front, more: Bytes, ok: nat -> bool)
    requires Active(f) && HeadFor(f).Whole?
    ensures HeadFor(Receive(f, more)) == HeadFor(f)
    ensures Turn(Receive(f, more), ok) == Receive(Turn(f, ok), more)
  {
    HeadAppend(f.recv, more);
    StartupAppend(f.recv, more);
    DropAppend(f, more, HeadFor(f).total);
  }

  /** Processing what has arrived and then the rest is the same as processing everything at once. */
  lemma {:induction false} LoopAppend(f: Front, more: Bytes, ok: nat -> bool)
    ensures Loop(Receive(Loop(f, ok), more), ok) == Loop(Receive(f, more), ok)
    decreases |f.recv|, Active(f)
  {
    HeadAppend(f.recv, more);
    StartupAppend(f.recv, more);
    if Active(f) && HeadFor(f).Whole? {
      TurnAppend(f, more, ok);
      var f' := Turn(f, ok);
      if Active(f') {
        LoopAppend(f', more, ok);
      }
    }
  }

  /** A sequence of receives, each followed by processing. */
  function ReceiveAll(f: Front, chunks: seq<Bytes>, ok: nat -> bool): Front
    decreases |chunks|
  {
    if chunks == [] then f else ReceiveAll(Loop(Receive(f, chunks[0]), ok), chunks[1..], ok)
  }

  function Concat(chunks: seq<Bytes>): Bytes {
    if chunks == [] then [] else chunks[0] + Concat(chunks[1..])
  }

  /**
   From every state and however the client's bytes are split into receives: the packets cut out, the
   commands forwarded to the backend, the replies, the bytes left over, the state and the outcome are
   those of one big receive, up to the first Query, end of COPY or close.
   */
  lemma {:induction false} IndependentOfChunks(f: Front, chunks: seq<Bytes>, ok: nat -> bool)
    requires chunks != []
    ensures ReceiveAll(f, chunks, ok) == Loop(Receive(f, Concat(chunks)), ok)
    decreases |chunks|
  {
    var first := Loop(Receive(f, chunks[0]), ok);
    if |chunks| == 1 {
      assert chunks[1..] == [];
      assert Concat(chunks) == chunks[0];
    } else {
      var rest := Concat(chunks[1..]);
      IndependentOfChunks(first, chunks[1..], ok);
      LoopAppend(Receive(f, chunks[0]), rest, ok);
      assert Receive(Receive(f, chunks[0]), rest) == Receive(f, Concat(chunks)) by {
        Assoc(f.recv, chunks[0], rest);
      }
    }
  }

  // ---------- What the loop keeps ----------

  predicate IsPacket(p: Bytes) {
    IsFrame(p) || IsStartup(p)
  }

  predicate Cut(ps: seq<Bytes>) {
    forall i :: 0 <= i < |ps| ==> IsPacket(ps[i])
  }

  function Stream(f: Front): Bytes {
    Concat(f.consumed) + f.recv
  }

  lemma {:induction false} ConcatAppend(chunks: seq<Bytes>, c: Bytes)
    ensures Concat(chunks + [c]) == Concat(chunks) + c
  {
    if chunks == [] {
      assert (chunks + [c])[1..] == [];
    } else {
      assert (chunks + [c])[1..] == chunks[1..] + [c];
      ConcatAppend(chunks[1..], c);
      Assoc(chunks[0], Concat(chunks[1..]), c);
    }
  }

  lemma StartupIsPacket(buf: Bytes)
    requires StartupOf(buf).Whole?
    ensures IsStartup(buf[..StartupOf(buf).total])
  {
    var n := StartupOf(buf).total;
    assert buf[..n][..4] == buf[..4];
    assert U32(buf[..n]) == U32(buf);
  }

  lemma DropConserves(f: Front, n: nat)
    requires n <= |f.recv| && Cut(f.consumed) && (n > 0 ==> IsPacket(f.recv[..n]))
    ensures Stream(Drop(f, n)) == Stream(f) && Cut(Drop(f, n).consumed)
  {
    if n > 0 {
      ConcatAppend(f.consumed, f.recv[..n]);
      SplitAt(f.recv, n);
      Assoc(Concat(f.consumed), f.recv[..n], f.recv[n..]);
    }
  }

  lemma TurnConserves(f: Front, ok: nat -> bool)
    requires Active(f) && HeadFor(f).Whole? && Cut(f.consumed)
    ensures Stream(Turn(f, ok)) == Stream(f) && Cut(Turn(f, ok).consumed)
  {
    var n := HeadFor(f).total;
    if f.state == INIT {
      StartupIsPacket(f.recv);
    } else if n > 0 {
      WholeIsFrame(f.recv);
    }
    DropConserves(f, n);
  }

  /** Every byte received is in a whole packet that was taken out or still in the buffer. */
  lemma {:induction false} LoopConserves(f: Front, ok: nat -> bool)
    requires Cut(f.consumed)
    ensures Stream(Loop(f, ok)) == Stream(f) && Cut(Loop(f, ok).consumed)
    decreases |f.recv|, Active(f)
  {
    if Active(f) && HeadFor(f).Whole? {
      TurnConserves(f, ok);
      if Active(Turn(f, ok)) {
        LoopConserves(Turn(f, ok), ok);
      }
    }
  }

  /** While it is open the loop stops only for want of bytes or for a request that is outstanding. */
  lemma {:induction false} LoopParks(f: Front, ok: nat -> bool)
    ensures var r := Loop(f, ok); r.status == Open ==> r.state in {QUERY, SCATTER, COPY_OUT} || HeadFor(r).Short?
    decreases |f.recv|, Active(f)
  {
    if Active(f) && HeadFor(f).Whole? && Active(Turn(f, ok)) {
      LoopParks(Turn(f, ok), ok);
    }
  }

  // ---------- How a turn ends ----------

  /** The type byte alone decides what a client without a request gets. */
  lemma {:induction false} ReadyTurnExactly(f: Front, total: nat)
    requires f.status == Open && HeadOf(f.recv) == Whole(total)
    ensures var r := ReadyTurn(f, total);
            && (r.status == Closed <==> f.recv[0] == TERMINATE)
            && (r.status.Asked? <==> f.recv[0] == QUERY_MSG)
            && (r.status == Hung <==> total == 0 && f.recv[0] !in {QUERY_MSG, TERMINATE})
            && (r.replies != f.replies <==> f.recv[0] in EXTENDED)
  {
    assert QUERY_MSG !in EXTENDED && TERMINATE !in EXTENDED && QUERY_MSG != TERMINATE;
  }

  /** A startup packet is refused exactly when it is short, a cancel request, or of another major version. */
  lemma {:induction false} StartupTurnExactly(f: Front, len: nat)
    requires f.status == Open && f.state == INIT && StartupOf(f.recv) == Whole(len)
    ensures var r := StartupTurn(f, len);
            && (r.status == Closed <==> len < 8 || (U32(f.recv[4..]) != SSL_REQUEST && U32(f.recv[4..]) / 0x1_0000 != 3))
            && (r.state == READY <==> len >= 8 && U32(f.recv[4..]) / 0x1_0000 == 3)
            && (SslRefused in r.replies[|f.replies|..] <==> len >= 8 && U32(f.recv[4..]) == SSL_REQUEST)
  {
    assert SSL_REQUEST / 0x1_0000 == 1234 && CANCEL_REQUEST / 0x1_0000 == 1234;
  }

  /** A COPY message closes the session exactly when the backend refuses it. */
  lemma CopyTurnExactly(f: Front, total: nat, ok: nat -> bool)
    requires f.status == Open && f.state == COPY_IN && HeadOf(f.recv) == Whole(total)
    ensures var r, t := CopyTurn(f, total, ok), f.recv[0];
            var isCopy := t in {MSG_COPY_DATA, MSG_COPY_DONE, COPY_FAIL};
            && (r.status == Closed <==> isCopy && !ok(|f.forwarded|))
            && (r.state == QUERY <==> t in {MSG_COPY_DONE, COPY_FAIL} && ok(|f.forwarded|))
            && (r.status == Hung <==> total == 0 && !(isCopy && !ok(|f.forwarded|)) && t !in {MSG_COPY_DONE, COPY_FAIL})
            && !r.status.Asked?
  {
  }

  // ---------- The length that wraps ----------

  /** Among the packets up to the first Query or Terminate there is one whose length wraps to 0. */
  predicate Spins(buf: Bytes)
    decreases |buf|
  {
    HeadOf(buf).Whole? && buf[0] !in {QUERY_MSG, TERMINATE}
    && (HeadOf(buf).total == 0 || Spins(buf[HeadOf(buf).total..]))
  }

  /** The loop spins for an idle client exactly on such a buffer. */
  lemma {:induction false} SpinsExactly(f: Front, ok: nat -> bool)
    requires f.status == Open && f.state == READY
    ensures Loop(f, ok).status == Hung <==> Spins(f.recv)
    decreases |f.recv|
  {
    if HeadOf(f.recv).Whole? {
      ReadyTurnExactly(f, HeadOf(f.recv).total);
      if Active(Turn(f, ok)) {
        SpinsExactly(Turn(f, ok), ok);
      }
    }
  }

  lemma WrapsExactly(buf: Bytes)
    ensures HeadOf(buf) == Whole(0) <==> |buf| >= 5 && U32(buf[1..]) == TWO32 - 1
  {
  }

  /** A Parse message with that length: the client that sends these five bytes is never answered. */
  lemma {:induction false} SpinsOnFiveBytes(f: Front, ok: nat -> bool)
    requires f.status == Open && f.state == READY && f.recv == ['P' as int, 255, 255, 255, 255]
    ensures Loop(f, ok).status == Hung
  {
    assert f.recv[1..] == [255, 255, 255, 255];
    assert U32(f.recv[1..]) == TWO32 - 1;
    WrapsExactly(f.recv);
    SpinsExactly(f, ok);
  }

  // ---------- Replies ----------

  /** Refusals of SSL come before everything else. */
  predicate SslFirst(replies: seq<Reply>) {
    forall i, j :: 0 <= i < j < |replies| && replies[j] == SslRefused ==> replies[i] == SslRefused
  }

  predicate OnlySsl(replies: seq<Reply>) {
    forall i :: 0 <= i < |replies| ==> replies[i] == SslRefused
  }

  lemma TurnSslFirst(f: Front, ok: nat -> bool)
    requires Active(f) && HeadFor(f).Whole?
    requires SslFirst(f.replies) && (f.state == INIT ==> OnlySsl(f.replies))
    ensures var r := Turn(f, ok); SslFirst(r.replies) && (r.state == INIT ==> OnlySsl(r.replies))
  {
  }

  /** From the first byte on: N for every SSL request, and only then the messages of the session. */
  lemma {:induction false} LoopSslFirst(f: Front, ok: nat -> bool)
    requires SslFirst(f.replies) && (f.state == INIT ==> OnlySsl(f.replies))
    ensures var r := Loop(f, ok); SslFirst(r.replies) && (r.state == INIT ==> OnlySsl(r.replies))
    decreases |f.recv|, Active(f)
  {
    if Active(f) && HeadFor(f).Whole? {
      TurnSslFirst(f, ok);
      if Active(Turn(f, ok)) {
        LoopSslFirst(Turn(f, ok), ok);
      }
    }
  }

  function Rejection(p: Bytes): seq<Reply> {
    if p != [] && p[0] in EXTENDED then [ExtendedRejected] else []
  }

  function Rejections(ps: seq<Bytes>): seq<Reply> {
    if ps == [] then [] else Rejection(ps[0]) + Rejections(ps[1..])
  }

  lemma RejectionsNext(was: seq<Bytes>, p: Bytes, later: seq<Bytes>)
    requires was + [p] <= later
    ensures was <= later
    ensures Rejections(later[|was|..]) == Rejection(p) + Rejections(later[|was| + 1..])
  {
    assert later[|was|] == (was + [p])[|was|];
    assert later[|was|..][1..] == later[|was| + 1..];
  }

  /** Every message of the extended protocol that an idle client sends is refused once, and nothing else is. */
  lemma {:induction false} LoopRefuses(f: Front, ok: nat -> bool)
    requires f.status == Open && f.state == READY
    ensures var r := Loop(f, ok);
            && r.state == READY && f.consumed <= r.consumed
            && (r.status != Hung ==> r.replies == f.replies + Rejections(r.consumed[|f.consumed|..]))
    decreases |f.recv|
  {
    assert f.consumed[|f.consumed|..] == [];
    if HeadOf(f.recv).Whole? {
      ReadyTurnExactly(f, HeadOf(f.recv).total);
      ReadyTurnCuts(f, HeadOf(f.recv).total);
      var t := Turn(f, ok);
      if Active(t) {
        var p := f.recv[..HeadOf(f.recv).total];
        LoopRefuses(t, ok);
        RejectionsNext(f.consumed, p, Loop(t, ok).consumed);
        Assoc(f.replies, Rejection(p), Rejections(Loop(t, ok).consumed[|t.consumed|..]));
      }
    }
  }

  lemma ReadyTurnCuts(f: Front, total: nat)
    requires f.status == Open && HeadOf(f.recv) == Whole(total)
    ensures var r, p := ReadyTurn(f, total), f.recv[..total];
            && r.state == f.state
            && (r.status == Open ==> r.consumed == f.consumed + [p] && r.replies == f.replies + Rejection(p))
            && (r.status.Asked? || r.status == Closed ==>
                  f.consumed <= r.consumed && r.replies == f.replies + Rejections(r.consumed[|f.consumed|..]))
  {
    assert f.consumed[|f.consumed|..] == [];
    assert (f.consumed + [f.recv[..total]])[|f.consumed|..] == [f.recv[..total]];
    assert [f.recv[..total]][1..] == [];
    assert QUERY_MSG !in EXTENDED;
  }

  // ---------- The text of a Query ----------

  /** memmove(data, data + total, len - total): the bytes of the buffer afterwards, stale ones included. */
  function Shifted(buf: Bytes, total: nat): Bytes
    requires total <= |buf|
  {
    buf[total..] + buf[|buf| - total..]
  }

  /** The query text is read from the buffer after the shift. */
  function TextSeen(buf: Bytes, total: nat): Option<Bytes>
    requires 5 <= total <= |buf|
  {
    var s := TakeString(Shifted(buf, total)[5..]);
    if s.Some? then Some(s.value.0) else None
  }

  lemma {:induction false} TakeStringAgrees(a: Bytes, b: Bytes, text: Bytes)
    requires |a| > |text| && |b| > |text| && TakeString(a).Some? && TakeString(a).value.0 == text
    ensures TakeString(b).Some? && TakeString(b).value.0 == text <==> b[..|text| + 1] == a[..|text| + 1]
  {
    if text == [] {
      assert a[..1] == [a[0]] && b[..1] == [b[0]];
    } else {
      assert a[..|text| + 1] == [a[0]] + a[1..][..|text|];
      assert b[..|text| + 1] == [b[0]] + b[1..][..|text|];
      TakeStringAgrees(a[1..], b[1..], text[1..]);
    }
  }

  lemma {:induction false} TakeStringPrefix(a: Bytes, rest: Bytes)
    requires TakeString(a).Some?
    ensures TakeString(a + rest).Some? && TakeString(a + rest).value.0 == TakeString(a).value.0
  {
    if a[0] != 0 {
      assert (a + rest)[1..] == a[1..] + rest;
      TakeStringPrefix(a[1..], rest);
    }
  }

  /**
   The handler sees the text the client sent exactly when the bytes that follow the Query repeat it, as
   far as they reach into its place. With at most five bytes behind the Query that is always so.
   */
  lemma QueryTextExactly(buf: Bytes, total: nat)
    requires 5 <= total <= |buf| && TakeString(buf[5..total]).Some?
    ensures var text := TakeString(buf[5..total]).value.0;
            TextSeen(buf, total) == Some(text)
            <==> forall i :: 5 <= i < |buf| - total && i <= 5 + |text| ==> buf[total + i] == buf[i]
  {
    var text := TakeString(buf[5..total]).value.0;
    var after := Shifted(buf, total)[5..];
    TakeStringPrefix(buf[5..total], buf[total..]);
    assert buf[5..] == buf[5..total] + buf[total..];
    TakeStringAgrees(buf[5..], after, text);
    ShiftedAgrees(buf, total, |text| + 1);
  }

  lemma ShiftedAt(buf: Bytes, total: nat, i: nat)
    requires i < total <= |buf|
    ensures |Shifted(buf, total)| == |buf|
    ensures Shifted(buf, total)[i] == if i < |buf| - total then buf[total + i] else buf[i]
  {
    var rest := |buf| - total;
    if i >= rest {
      assert buf[rest..][i - rest] == buf[i];
    }
  }

  lemma ShiftedAgrees(buf: Bytes, total: nat, n: nat)
    requires 5 <= total && 5 + n <= total <= |buf|
    ensures Shifted(buf, total)[5..][..n] == buf[5..][..n]
            <==> forall i :: 5 <= i < |buf| - total && i < 5 + n ==> buf[total + i] == buf[i]
  {
    var s := Shifted(buf, total);
    assert |s| == |buf|;
    if s[5..][..n] == buf[5..][..n] {
      forall i | 5 <= i < |buf| - total && i < 5 + n
        ensures buf[total + i] == buf[i]
      {
        ShiftedAt(buf, total, i);
        assert s[5..][..n][i - 5] == buf[5..][..n][i - 5];
      }
    }
    if forall i :: 5 <= i < |buf| - total && i < 5 + n ==> buf[total + i] == buf[i] {
      forall k | 0 <= k < n
        ensures s[5..][..n][k] == buf[5..][..n][k]
      {
        ShiftedAt(buf, total, 5 + k);
      }
    }
  }

  /** The Query packet with a one-letter text. */
  function OneLetterQuery(c: byte): Bytes {
    [QUERY_MSG, 0, 0, 0, 6, c, 0]
  }

  /** Of two Queries that arrive together the first is run with the text of the second. */
  lemma PipelinedQueryLost(a: byte, b: byte)
    requires a != 0 && b != 0 && a != b
    ensures var buf := OneLetterQuery(a) + OneLetterQuery(b);
            && HeadOf(buf) == Whole(7) && TakeString(buf[5..7]).Some? && TakeString(buf[5..7]).value.0 == [a]
            && TextSeen(buf, 7) == Some([b])
  {
    var buf := OneLetterQuery(a) + OneLetterQuery(b);
    assert buf[1..][..4] == [0, 0, 0, 6];
    assert U32(buf[1..]) == 6;
    assert buf[5..7] == [a, 0] && [a, 0][1..] == [0];
    assert TakeString([0]) == Some(([], []));
    var after := Shifted(buf, 7)[5..];
    assert after[0] == b && after[1] == 0;
    assert TakeString(after[1..]) == Some(([], after[1..][1..]));
    assert [b] + [] == [b];
  }
}
