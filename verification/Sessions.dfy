/** What a session owes its client: the messages of src/session/session.c and the response ledger. */
module Sessions {
  import opened Wrappers
  import opened Wire
  import opened Results
  import opened Framing
  import opened Ownership

  function Text(s: string): Bytes {
    seq(|s|, i requires 0 <= i < |s| => s[i] as int % 256)
  }

  const TXN_IDLE: byte := 'I' as int
  const TXN_IN_TRANSACTION: byte := 'T' as int
  const TXN_FAILED: byte := 'E' as int

  // ---------- The ledger ----------

  function Ready(log: seq<Msg>): nat {
    if log == [] then 0 else (if log[0].ReadyForQuery? then 1 else 0) + Ready(log[1..])
  }

  lemma {:induction false} ReadyConcat(a: seq<Msg>, b: seq<Msg>)
    ensures Ready(a + b) == Ready(a) + Ready(b)
  {
    if a == [] {
      assert a + b == b;
    } else {
      assert (a + b)[1..] == a[1..] + b;
      ReadyConcat(a[1..], b);
    }
  }

  predicate Outstanding(st: State) {
    st in {QUERY, SCATTER, COPY_IN, COPY_OUT}
  }

  /** ReadyForQuery messages queued: one for startup and one per answered request. */
  predicate Ledger(s: Session) {
    Ready(s.log) + (if Outstanding(s.state) then 1 else 0)
    == (if s.state == INIT then 0 else 1) + s.queries + s.rejected
  }

  const MAX_SCATTER_SHARDS := 64

  predicate SessionOk(s: Session) {
    && Ledger(s)
    && (s.state != SCATTER ==> s.NoSlotHolds())
    && (s.state == SCATTER ==> s.scatterDone < |s.slots|)
    && (s.state in {QUERY, COPY_IN, COPY_OUT} ==> s.backend.Some?)
    && (s.backend.None? ==> s.shard.None?)
    && |s.slots| <= MAX_SCATTER_SHARDS
  }

  const NEW_SESSION := Session(INIT, None, None, [], 0, false, [], 0, 0)

  function Say(s: Session, ms: seq<Msg>): Session {
    s.(log := s.log + ms)
  }

  /** One error message and one ReadyForQuery. */
  const REFUSAL: seq<Msg> := [ErrorResponse([]), ReadyForQuery(TXN_IDLE)]

  const STARTUP_MSGS: seq<Msg> := [
    AuthOk,
    ParameterStatus(Text("server_version"), Text("16.0 (Sharegres)")),
    ParameterStatus(Text("server_encoding"), Text("UTF8")),
    ParameterStatus(Text("client_encoding"), Text("UTF8")),
    ParameterStatus(Text("is_superuser"), Text("off")),
    ParameterStatus(Text("DateStyle"), Text("ISO, MDY")),
    ParameterStatus(Text("integer_datetimes"), Text("on")),
    ParameterStatus(Text("standard_conforming_strings"), Text("on")),
    BackendKey(0, 0),
    ReadyForQuery(TXN_IDLE)]

  const LOCAL_MSGS: seq<Msg> := [CommandComplete(Text("SET")), ReadyForQuery(TXN_IDLE)]

  // ---------- Results of a single backend ----------

  datatype Ending = Drained | ToCopyIn | ToCopyOut

  /** The messages for a list of results, up to the first COPY. */
  function SingleMsgs(rs: seq<Result>, header: bool): (seq<Msg>, Ending) {
    if rs == [] then ([], Drained)
    else
      match rs[0]
      case CopyIn(n) => ([CopyInResponse(n)], ToCopyIn)
      case CopyOut(n) => ([CopyOutResponse(n)], ToCopyOut)
      case Tuples(fields, rows, tag) =>
        var (ms, e) := SingleMsgs(rs[1..], true);
        (Forward(fields, rows, !header) + [CommandComplete(tag)] + ms, e)
      case Command(tag) =>
        var (ms, e) := SingleMsgs(rs[1..], header);
        ([CommandComplete(tag)] + ms, e)
      case Fatal(parts) =>
        var (ms, e) := SingleMsgs(rs[1..], header);
        ([ErrorResponse(parts)] + ms, e)
      case Ignored => SingleMsgs(rs[1..], header)
  }

  lemma {:induction false} RowsNotReady(rows: seq<Cells>)
    ensures Ready(DataRows(rows)) == 0
  {
    if rows != [] {
      RowsNotReady(rows[1..]);
      ReadyConcat([DataRow(rows[0])], DataRows(rows[1..]));
    }
  }

  lemma ForwardNotReady(fields: seq<Field>, rows: seq<Cells>, header: bool)
    ensures Ready(Forward(fields, rows, header)) == 0
  {
    RowsNotReady(rows);
    ReadyConcat(if header && fields != [] then [RowDescription(fields)] else [], DataRows(rows));
  }

  lemma {:induction false} SingleNotReady(rs: seq<Result>, header: bool)
    ensures Ready(SingleMsgs(rs, header).0) == 0
  {
    if rs != [] {
      match rs[0]
      case Tuples(fields, rows, tag) =>
        SingleNotReady(rs[1..], true);
        ForwardNotReady(fields, rows, !header);
        ReadyConcat(Forward(fields, rows, !header), [CommandComplete(tag)]);
        ReadyConcat(Forward(fields, rows, !header) + [CommandComplete(tag)], SingleMsgs(rs[1..], true).0);
      case Command(tag) =>
        SingleNotReady(rs[1..], header);
        ReadyConcat([CommandComplete(tag)], SingleMsgs(rs[1..], header).0);
      case Fatal(parts) =>
        SingleNotReady(rs[1..], header);
        ReadyConcat([ErrorResponse(parts)], SingleMsgs(rs[1..], header).0);
      case Ignored => SingleNotReady(rs[1..], header);
      case _ =>
    }
  }

  datatype Txn = TxnIdle | InTransaction | InError | Active

  function TxnByte(t: Txn): byte {
    match t
    case InTransaction => TXN_IN_TRANSACTION
    case InError => TXN_FAILED
    case _ => TXN_IDLE
  }

  /** COPY OUT: more data to come, or the end with the final result's tag, if it was a success. */
  datatype CopyEnd = NotYet | AtEnd(tag: Option<Bytes>)

  function CopyMsgs(copied: seq<Bytes>): seq<Msg> {
    if copied == [] then [] else [CopyData(copied[0])] + CopyMsgs(copied[1..])
  }

  lemma {:induction false} CopyNotReady(copied: seq<Bytes>)
    ensures Ready(CopyMsgs(copied)) == 0
  {
    if copied != [] {
      CopyNotReady(copied[1..]);
      ReadyConcat([CopyData(copied[0])], CopyMsgs(copied[1..]));
    }
  }

  /** What the results of a backend make of a request: the messages before ReadyForQuery, and the next state. */
  function ReplyOf(rs: seq<Result>, copied: seq<Bytes>, copyEnd: CopyEnd): (seq<Msg>, State) {
    var (ms, e) := SingleMsgs(rs, false);
    match e
    case Drained => (ms, READY)
    case ToCopyIn => (ms, COPY_IN)
    case ToCopyOut =>
      match copyEnd {
        case NotYet => (ms + CopyMsgs(copied), COPY_OUT)
        case AtEnd(tag) =>
          (ms + CopyMsgs(copied) + ([CopyDone] + if tag.Some? then [CommandComplete(tag.value)] else []), READY)
      }
  }

  lemma ReplyNotReady(rs: seq<Result>, copied: seq<Bytes>, copyEnd: CopyEnd)
    ensures Ready(ReplyOf(rs, copied, copyEnd).0) == 0
  {
    var (ms, e) := SingleMsgs(rs, false);
    SingleNotReady(rs, false);
    CopyNotReady(copied);
    ReadyConcat(ms, CopyMsgs(copied));
    if copyEnd.AtEnd? {
      var end := [CopyDone] + if copyEnd.tag.Some? then [CommandComplete(copyEnd.tag.value)] else [];
      NoneReady(end);
      ReadyConcat(ms + CopyMsgs(copied), end);
    }
  }

  // ---------- Scatter and gather ----------

  /** The end of one shard's part: the connection was lost, or its results were read. */
  datatype SlotEvent = Lost | Got(results: seq<Result>)

  /** Rows are forwarded, other results are not; the header goes out with the first rows. */
  function GatherMsgs(rs: seq<Result>, header: bool): (seq<Msg>, bool) {
    if rs == [] then ([], header)
    else if rs[0].Tuples? then
      var (ms, h) := GatherMsgs(rs[1..], true);
      (Forward(rs[0].fields, rs[0].rows, !header) + ms, h)
    else GatherMsgs(rs[1..], header)
  }

  lemma {:induction false} GatherNotReady(rs: seq<Result>, header: bool)
    ensures Ready(GatherMsgs(rs, header).0) == 0
  {
    if rs != [] {
      if rs[0].Tuples? {
        GatherNotReady(rs[1..], true);
        ForwardNotReady(rs[0].fields, rs[0].rows, !header);
        ReadyConcat(Forward(rs[0].fields, rs[0].rows, !header), GatherMsgs(rs[1..], true).0);
      } else {
        GatherNotReady(rs[1..], header);
      }
    }
  }

  function EventMsgs(ev: SlotEvent, header: bool): (seq<Msg>, bool) {
    if ev.Lost? then ([], header) else GatherMsgs(ev.results, header)
  }

  /** The slot is done and the counter goes up, whether or not the slot was done before. */
  function SlotEnded(s: Session, i: nat, ev: SlotEvent): Session
    requires i < |s.slots|
  {
    var (ms, h) := EventMsgs(ev, s.header);
    s.(slots := s.slots[i := s.slots[i].(done := true)],
       scatterDone := s.scatterDone + 1,
       header := h,
       log := s.log + ms)
  }

  predicate AllCounted(s: Session) {
    s.scatterDone >= |s.slots|
  }

  function FinalMsgs(header: bool): seq<Msg> {
    [CommandComplete(if header then Text("SELECT") else Text("SELECT 0")), ReadyForQuery(TXN_IDLE)]
  }

  // ---------- Steps of the ledger ----------

  /** A request that is answered at once. */
  lemma AnsweredAtOnce(s: Session, ms: seq<Msg>)
    requires Ledger(s) && s.state == READY && Ready(ms) == 1
    ensures Ledger(Say(s, ms).(queries := s.queries + 1))
    ensures Ledger(Say(s, ms).(rejected := s.rejected + 1))
  {
    ReadyConcat(s.log, ms);
  }

  /** Output that does not end the request. */
  lemma StillOutstanding(s: Session, ms: seq<Msg>, st: State)
    requires Ledger(s) && Outstanding(s.state) && Outstanding(st) && Ready(ms) == 0
    ensures Ledger(Say(s, ms).(state := st))
  {
    ReadyConcat(s.log, ms);
  }

  /** The end of a request that was outstanding. */
  lemma AnsweredLater(s: Session, ms: seq<Msg>)
    requires Ledger(s) && Outstanding(s.state) && Ready(ms) == 1
    ensures Ledger(Say(s, ms).(state := READY))
  {
    ReadyConcat(s.log, ms);
  }

  /** A result that ends nothing breaks the ledger: the one ReadyForQuery too many is never paid back. */
  lemma SpuriousAnswer(s: Session, ms: seq<Msg>)
    requires Ledger(s) && Ready(ms) == 1 && s.state != INIT
    ensures Ledger(Say(s, ms).(state := READY)) <==> Outstanding(s.state)
  {
    ReadyConcat(s.log, ms);
  }

  lemma TwoMessages(m: Msg, b: byte)
    ensures Ready([ReadyForQuery(b)]) == 1
    ensures !m.ReadyForQuery? ==> Ready([m, ReadyForQuery(b)]) == 1
  {
    assert [ReadyForQuery(b)][1..] == [] && [m][1..] == [];
    assert [m, ReadyForQuery(b)] == [m] + [ReadyForQuery(b)];
    ReadyConcat([m], [ReadyForQuery(b)]);
  }

  lemma ReplyCounts()
    ensures Ready(REFUSAL) == 1 && Ready(LOCAL_MSGS) == 1
    ensures forall h :: Ready(FinalMsgs(h)) == 1
    ensures forall b: byte :: Ready([ReadyForQuery(b)]) == 1
  {
    TwoMessages(ErrorResponse([]), TXN_IDLE);
    TwoMessages(CommandComplete(Text("SET")), TXN_IDLE);
    TwoMessages(CommandComplete(Text("SELECT")), TXN_IDLE);
    TwoMessages(CommandComplete(Text("SELECT 0")), TXN_IDLE);
    forall b: byte
      ensures Ready([ReadyForQuery(b)]) == 1
    {
      TwoMessages(CopyDone, b);
    }
  }

  lemma StartupCount()
    ensures Ready(STARTUP_MSGS) == 1
  {
    var n := |STARTUP_MSGS| - 1;
    assert STARTUP_MSGS == STARTUP_MSGS[..n] + [ReadyForQuery(TXN_IDLE)];
    ReadyConcat(STARTUP_MSGS[..n], [ReadyForQuery(TXN_IDLE)]);
    NoneReady(STARTUP_MSGS[..n]);
    ReplyCounts();
  }

  lemma {:induction false} NoneReady(ms: seq<Msg>)
    requires forall i :: 0 <= i < |ms| ==> !ms[i].ReadyForQuery?
    ensures Ready(ms) == 0
  {
    if ms != [] {
      NoneReady(ms[1..]);
    }
  }
}
