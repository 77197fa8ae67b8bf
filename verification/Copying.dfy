/** COPY IN: which of a client's packets reach the backend, with which bytes, and in which order. */
module Copying {
  import opened Wrappers
  import opened Wire
  import opened Formats
  import opened Framing

  const COPY_TYPES: set<byte> := {'d' as int, 'c' as int, 'f' as int}

  // ---------- Frames in the buffer ----------

  /** A packet that was cut out is the frame of its type byte and of the bytes behind its length. */
  lemma FrameOf(p: Bytes)
    requires IsFrame(p)
    ensures p == Frame(p[0], p[5..])
  {
    Be32U32(p[1..]);
    assert |p[5..]| + 4 == U32(p[1..]);
    assert p == [p[0]] + p[1..][..4] + p[5..];
  }

  /** A frame of at most sixteen megabytes is taken out whole, whatever follows it. */
  lemma FrameIsWhole(t: byte, payload: Bytes, rest: Bytes)
    requires |payload| + 5 <= MAX_MESSAGE
    ensures HeadOf(Frame(t, payload) + rest) == Whole(|payload| + 5)
  {
    var b := Frame(t, payload) + rest;
    LengthRead(t, payload, rest);
    assert |b| >= |payload| + 5;
  }

  lemma LengthRead(t: byte, payload: Bytes, rest: Bytes)
    requires |payload| + 5 <= MAX_MESSAGE
    ensures var b := Frame(t, payload) + rest;
            |b| >= 5 && U32(b[1..]) == |payload| + 4 && (1 + U32(b[1..])) % TWO32 == |payload| + 5
  {
    var b := Frame(t, payload) + rest;
    U32Be32(|payload| + 4, payload + rest);
    assert b[1..] == Be32(|payload| + 4) + (payload + rest);
    SmallMod(|payload| + 4);
    SmallMod(|payload| + 5);
  }

  lemma SmallMod(n: nat)
    requires n < TWO32
    ensures n % TWO32 == n
  {
  }

  /** A longer one closes the session. */
  lemma LongFrameIsBad(t: byte, payload: Bytes, rest: Bytes)
    requires MAX_MESSAGE < |payload| + 5 < TWO32
    ensures HeadOf(Frame(t, payload) + rest) == Bad
  {
    var b := Frame(t, payload) + rest;
    U32Be32(|payload| + 4, payload + rest);
    assert b[1..] == Be32(|payload| + 4) + (payload + rest);
    SmallMod(|payload| + 4);
    SmallMod(|payload| + 5);
  }

  /** A startup packet: its length, which counts itself, and the rest. */
  function StartupPacket(rest: Bytes): Bytes {
    Be32(|rest| + 4) + rest
  }

  /** It is taken out whole up to 65535 bytes, and is bad beyond. */
  lemma StartupIsWhole(body: Bytes, rest: Bytes)
    requires |body| + 4 < TWO32
    ensures StartupOf(StartupPacket(body) + rest) == if |body| + 4 <= 65535 then Whole(|body| + 4) else Bad
  {
    var b := StartupPacket(body) + rest;
    U32Be32(|body| + 4, body + rest);
    assert b == Be32(|body| + 4) + (body + rest);
    SmallMod(|body| + 4);
  }

  /** And no part of it is. */
  lemma PartIsShort(t: byte, payload: Bytes, b: Bytes)
    requires |payload| + 5 <= MAX_MESSAGE && b < Frame(t, payload)
    ensures HeadOf(b) == Short
  {
    var p := Frame(t, payload);
    if |b| >= 5 {
      LengthRead(t, payload, []);
      assert p + [] == p;
      assert b[1..][..4] == p[1..][..4];
      assert U32(b[1..]) == U32(p[1..]);
    }
  }

  // ---------- One packet ----------

  /** The packet tells the backend this. The text of a failure ends at its NUL; without a text there is a stock one. */
  predicate Carries(p: Bytes, c: CopyCmd) {
    |p| >= 5 && p == Frame(p[0], p[5..]) &&
    match c
    case Put(data) => p[0] == 'd' as int && p[5..] == data
    case PutEnd => p[0] == 'c' as int
    case PutFail(text) =>
      p[0] == 'f' as int &&
      match text {
        case Some(s) => (CString(s) && Terminated(s) <= p[5..]) || (p[5..] == [] && s == CLIENT_CANCEL)
        case None => p[5..] != [] && CString(p[5..])
      }
  }

  lemma {:induction false} StringPrefix(b: Bytes)
    ensures TakeString(b).Some? ==> CString(TakeString(b).value.0) && Terminated(TakeString(b).value.0) <= b
    ensures TakeString(b).None? ==> CString(b)
  {
    if TakeString(b).Some? {
      StringRead(b);
    } else if b != [] {
      StringPrefix(b[1..]);
    }
  }

  /** One turn in COPY IN: the packet goes, and it is told to the backend if it is of COPY and accepted. */
  lemma CopyTurnCarries(f: Front, total: nat, ok: nat -> bool)
    requires f.status == Open && f.state == COPY_IN && HeadOf(f.recv) == Whole(total) && total > 0
    ensures var r, p := CopyTurn(f, total, ok), f.recv[..total];
            && IsFrame(p) && r.consumed == f.consumed + [p] && r.recv == f.recv[total..]
            && if p[0] in COPY_TYPES && ok(|f.forwarded|)
               then |r.forwarded| == |f.forwarded| + 1 && f.forwarded < r.forwarded && Carries(p, r.forwarded[|f.forwarded|])
               else r.forwarded == f.forwarded
  {
    WholeIsFrame(f.recv);
    var p := f.recv[..total];
    FrameOf(p);
    assert p[5..] == f.recv[5..total];
    StringPrefix(p[5..]);
  }

  // ---------- The loop ----------

  function CopyPackets(ps: seq<Bytes>): seq<Bytes> {
    if ps == [] then []
    else (if ps[0] != [] && ps[0][0] in COPY_TYPES then [ps[0]] else []) + CopyPackets(ps[1..])
  }

  /** Each command is that of its packet. */
  predicate CarriesAll(ps: seq<Bytes>, cs: seq<CopyCmd>) {
    |ps| == |cs| && forall i :: 0 <= i < |ps| ==> Carries(ps[i], cs[i])
  }

  lemma CarriesMore(p: Bytes, ps: seq<Bytes>, c: CopyCmd, cs: seq<CopyCmd>)
    requires Carries(p, c) && CarriesAll(ps, cs)
    ensures CarriesAll([p] + ps, [c] + cs)
  {
  }

  /** From f to r the packets of COPY that were taken out have been told to the backend, in order. */
  predicate Forwarded(f: Front, r: Front) {
    && f.consumed <= r.consumed && f.forwarded <= r.forwarded
    && CarriesAll(CopyPackets(r.consumed[|f.consumed|..]), r.forwarded[|f.forwarded|..])
  }

  lemma ForwardedNext(f: Front, t: Front, r: Front, p: Bytes)
    requires t.consumed == f.consumed + [p] && p != [] && Forwarded(t, r) && f.forwarded <= t.forwarded
    requires if p[0] in COPY_TYPES then |t.forwarded| == |f.forwarded| + 1 && Carries(p, t.forwarded[|f.forwarded|])
             else t.forwarded == f.forwarded
    ensures Forwarded(f, r)
  {
    var n := |f.consumed|;
    assert r.consumed[n] == t.consumed[n] == p;
    assert r.consumed[n..] == [p] + r.consumed[n + 1..];
    assert CopyPackets(r.consumed[n..]) == (if p[0] in COPY_TYPES then [p] else []) + CopyPackets(r.consumed[n + 1..]);
    var k := |f.forwarded|;
    if p[0] in COPY_TYPES {
      assert r.forwarded[k] == t.forwarded[k];
      assert r.forwarded[k..] == [r.forwarded[k]] + r.forwarded[k + 1..];
      CarriesMore(p, CopyPackets(r.consumed[n + 1..]), r.forwarded[k], r.forwarded[k + 1..]);
    } else {
      assert CopyPackets(r.consumed[n..]) == CopyPackets(r.consumed[n + 1..]);
    }
  }

  lemma ForwardedSame(f: Front, r: Front)
    requires r.consumed == f.consumed && r.forwarded == f.forwarded
    ensures Forwarded(f, r)
  {
    assert f.consumed[|f.consumed|..] == [] && f.forwarded[|f.forwarded|..] == [];
  }

  // ---------- The length that wraps ----------

  /** Up to the end of the COPY every length is good, and the packet that ends it has the one that wraps to 0. */
  predicate EndsWrapped(buf: Bytes)
    decreases |buf|
  {
    HeadOf(buf).Whole? &&
    if HeadOf(buf).total == 0 then buf[0] in {'c' as int, 'f' as int}
    else buf[0] !in {'c' as int, 'f' as int} && EndsWrapped(buf[HeadOf(buf).total..])
  }

  /** One command more than there are packets. */
  predicate OneTooMany(f: Front, r: Front) {
    && f.consumed <= r.consumed && f.forwarded <= r.forwarded
    && |r.forwarded| - |f.forwarded| == |CopyPackets(r.consumed[|f.consumed|..])| + 1
  }

  lemma OneTooManyNext(f: Front, t: Front, r: Front, p: Bytes)
    requires t.consumed == f.consumed + [p] && p != [] && OneTooMany(t, r) && f.forwarded <= t.forwarded
    requires |t.forwarded| == |f.forwarded| + if p[0] in COPY_TYPES then 1 else 0
    ensures OneTooMany(f, r)
  {
    var n := |f.consumed|;
    assert r.consumed[n] == t.consumed[n] == p;
    assert r.consumed[n..] == [p] + r.consumed[n + 1..];
  }

  lemma WrappedTurn(f: Front, ok: nat -> bool)
    requires f.status == Open && f.state == COPY_IN && HeadOf(f.recv) == Whole(0)
    ensures var r := Loop(f, ok);
            r.status !in {Closed, Hung} ==> f.recv[0] in {'c' as int, 'f' as int} && OneTooMany(f, r)
  {
    assert f.consumed[|f.consumed|..] == [];
  }

  // ---------- What the backend is told ----------

  lemma {:induction false} LoopTells(f: Front, ok: nat -> bool)
    requires f.status == Open && f.state == COPY_IN
    ensures var r := Loop(f, ok);
            r.status !in {Closed, Hung} ==> if EndsWrapped(f.recv) then OneTooMany(f, r) else Forwarded(f, r)
    decreases |f.recv|
  {
    if !HeadOf(f.recv).Whole? {
      ForwardedSame(f, Loop(f, ok));
    } else if HeadOf(f.recv).total == 0 {
      WrappedTurn(f, ok);
    } else {
      var total := HeadOf(f.recv).total;
      var t, p, r := Turn(f, ok), f.recv[..total], Loop(f, ok);
      CopyTurnExactly(f, total, ok);
      CopyTurnCarries(f, total, ok);
      if t.status == Open {
        if t.state == COPY_IN {
          LoopTells(t, ok);
        } else {
          ForwardedSame(t, t);
        }
        if r.status !in {Closed, Hung} {
          if EndsWrapped(f.recv) {
            OneTooManyNext(f, t, r, p);
          } else {
            ForwardedNext(f, t, r, p);
          }
        }
      }
    }
  }

  /**
   In COPY IN, whatever has arrived and as long as the backend accepts: it is told just what the packets
   of type d, c and f that were taken out say, one command for each and in their order, if and only if
   the COPY is not ended by a packet whose length wraps.
   */
  lemma LoopForwardsExactly(f: Front, ok: nat -> bool)
    requires f.status == Open && f.state == COPY_IN && Loop(f, ok).status !in {Closed, Hung}
    ensures Forwarded(f, Loop(f, ok)) <==> !EndsWrapped(f.recv)
  {
    LoopTells(f, ok);
  }

  /** The five bytes that end a COPY and stay in the buffer. */
  lemma WrappedEnd(f: Front, ok: nat -> bool)
    requires f.status == Open && f.state == COPY_IN && f.recv == ['c' as int, 255, 255, 255, 255] && ok(|f.forwarded|)
    ensures var r := Loop(f, ok); r.state == QUERY && r.recv == f.recv && r.forwarded == f.forwarded + [PutEnd]
  {
    assert f.recv[1..] == [255, 255, 255, 255];
    WrapsExactly(f.recv);
  }

  // ---------- The data ----------

  /** The bytes of the data forwarded. */
  function DataOf(cs: seq<CopyCmd>): Bytes {
    if cs == [] then [] else (if cs[0].Put? then cs[0].data else []) + DataOf(cs[1..])
  }

  /** The bytes that the CopyData packets carry. */
  function DataIn(ps: seq<Bytes>): Bytes {
    if ps == [] then []
    else (if |ps[0]| >= 5 && ps[0][0] == 'd' as int then ps[0][5..] else []) + DataIn(ps[1..])
  }

  lemma {:induction false} SameData(ps: seq<Bytes>, cs: seq<CopyCmd>)
    requires CarriesAll(ps, cs)
    ensures DataOf(cs) == DataIn(ps)
  {
    if ps != [] {
      assert Carries(ps[0], cs[0]);
      assert forall i :: 0 <= i < |ps| - 1 ==> Carries(ps[1..][i], cs[1..][i]) by {
        assert forall i :: 0 <= i < |ps| - 1 ==> ps[1..][i] == ps[i + 1] && cs[1..][i] == cs[i + 1];
      }
      SameData(ps[1..], cs[1..]);
    }
  }

  lemma {:induction false} OthersCarryNoData(ps: seq<Bytes>)
    ensures DataIn(CopyPackets(ps)) == DataIn(ps)
  {
    if ps != [] {
      OthersCarryNoData(ps[1..]);
      var rest := CopyPackets(ps[1..]);
      if ps[0] != [] && ps[0][0] in COPY_TYPES {
        assert ([ps[0]] + rest)[1..] == rest;
      } else {
        assert [] + rest == rest;
        assert DataIn(ps) == [] + DataIn(ps[1..]);
      }
    }
  }

  /** The data that reaches the backend is the data received. */
  lemma DataArrives(f: Front, ok: nat -> bool)
    requires f.status == Open && f.state == COPY_IN && Loop(f, ok).status !in {Closed, Hung} && !EndsWrapped(f.recv)
    ensures var r := Loop(f, ok);
            && f.consumed <= r.consumed && f.forwarded <= r.forwarded
            && DataOf(r.forwarded[|f.forwarded|..]) == DataIn(r.consumed[|f.consumed|..])
  {
    LoopTells(f, ok);
    var r := Loop(f, ok);
    SameData(CopyPackets(r.consumed[|f.consumed|..]), r.forwarded[|f.forwarded|..]);
    OthersCarryNoData(r.consumed[|f.consumed|..]);
  }

  // ---------- A whole COPY ----------

  function DataFrames(ds: seq<Bytes>): Bytes {
    if ds == [] then [] else Frame('d' as int, ds[0]) + DataFrames(ds[1..])
  }

  function Puts(ds: seq<Bytes>): seq<CopyCmd> {
    if ds == [] then [] else [Put(ds[0])] + Puts(ds[1..])
  }

  /** A frame at the front of the buffer. */
  lemma FrameTurn(f: Front, t: byte, payload: Bytes, rest: Bytes, ok: nat -> bool) returns (r: Front)
    requires f.status == Open && f.state == COPY_IN && |payload| + 5 <= MAX_MESSAGE && ok(|f.forwarded|)
    requires f.recv == Frame(t, payload) + rest
    ensures Loop(f, ok) == if Active(r) then Loop(r, ok) else r
    ensures r.recv == rest && r.status == Open
    ensures t == 'd' as int ==> r.forwarded == f.forwarded + [Put(payload)] && r.state == COPY_IN
    ensures t == 'c' as int ==> r.forwarded == f.forwarded + [PutEnd] && r.state == QUERY
  {
    FrameIsWhole(t, payload, rest);
    var total := |payload| + 5;
    r := Turn(f, ok);
    CopyTurnExactly(f, total, ok);
    assert f.recv[..total] == Frame(t, payload) && f.recv[total..] == rest && f.recv[5..total] == payload;
  }

  lemma {:induction false} AllPut(f: Front, ds: seq<Bytes>, ok: nat -> bool)
    requires f.status == Open && f.state == COPY_IN && (forall i :: 0 <= i < |ds| ==> |ds[i]| + 5 <= MAX_MESSAGE)
    requires (forall n: nat :: ok(n)) && f.recv == DataFrames(ds) + Frame('c' as int, [])
    ensures var r := Loop(f, ok);
            r.forwarded == f.forwarded + (Puts(ds) + [PutEnd]) && r.state == QUERY && r.recv == [] && r.status == Open
    decreases |ds|
  {
    if ds == [] {
      assert f.recv == Frame('c' as int, []) + [];
      var _ := FrameTurn(f, 'c' as int, [], [], ok);
    } else {
      var rest := DataFrames(ds[1..]) + Frame('c' as int, []);
      Assoc(Frame('d' as int, ds[0]), DataFrames(ds[1..]), Frame('c' as int, []));
      var r := FrameTurn(f, 'd' as int, ds[0], rest, ok);
      AllPut(r, ds[1..], ok);
      Assoc(f.forwarded, [Put(ds[0])], Puts(ds[1..]) + [PutEnd]);
    }
  }

  /**
   A COPY in any number of CopyData messages, in whatever pieces its bytes arrive: the backend gets each
   message's data and then the end.
   */
  lemma CopyArrives(f: Front, ds: seq<Bytes>, chunks: seq<Bytes>, ok: nat -> bool)
    requires f.status == Open && f.state == COPY_IN && f.recv == [] && (forall n: nat :: ok(n))
    requires chunks != [] && Concat(chunks) == DataFrames(ds) + Frame('c' as int, [])
    requires forall i :: 0 <= i < |ds| ==> |ds[i]| + 5 <= MAX_MESSAGE
    ensures var r := ReceiveAll(f, chunks, ok);
            r.forwarded == f.forwarded + (Puts(ds) + [PutEnd]) && r.state == QUERY && r.recv == [] && r.status == Open
  {
    IndependentOfChunks(f, chunks, ok);
    assert f.recv + Concat(chunks) == Concat(chunks);
    AllPut(Receive(f, Concat(chunks)), ds, ok);
  }

  /** A COPY that the client gives up: the backend gets its reason. */
  lemma FailArrives(f: Front, s: Bytes, ok: nat -> bool)
    requires f.status == Open && f.state == COPY_IN && ok(|f.forwarded|) && CString(s) && |s| + 6 <= MAX_MESSAGE
    requires f.recv == Frame('f' as int, Terminated(s))
    ensures var r := Loop(f, ok); r.forwarded == f.forwarded + [PutFail(Some(s))] && r.state == QUERY
  {
    assert f.recv == Frame('f' as int, Terminated(s)) + [];
    FrameIsWhole('f' as int, Terminated(s), []);
    TakeTerminated(s, []);
    assert Terminated(s) + [] == Terminated(s);
    assert f.recv[5..|s| + 6] == Terminated(s);
  }
}
