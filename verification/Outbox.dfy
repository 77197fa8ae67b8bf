/**
 The sending half of src/session/session.c: messages are queued in a buffer and sent in pieces.
 `queued` and `sent` are the histories of both; they are compared with the buffer after every step.
 */
module Outbox {
  import opened Wrappers
  import opened Wire
  import opened Results
  import opened MsgBuf

  datatype Sent = Flushed | Blocked | Failed

  datatype Op = Queue(data: Bytes) | Send(accept: (nat, nat) -> int)

  /** send(): a negative value is an error (-1: try again later), otherwise 1 to n bytes were taken. */
  ghost predicate Kernel(accept: (nat, nat) -> int) {
    forall i: nat, n: nat :: n > 0 ==> accept(i, n) != 0 && accept(i, n) <= n
  }

  class Outbox {
    var buf: MsgBuf
    var sendPos: nat
    ghost var queued: Bytes
    ghost var sent: Bytes

    /** Bytes sent, then the unsent part of the buffer: together everything ever queued. */
    ghost predicate Valid()
      reads this, buf, buf.data
    {
      && buf.Valid() && sendPos <= buf.len
      && sent + buf.Contents()[sendPos..] == queued
    }

    constructor ()
      ensures Valid() && queued == [] && sent == [] && fresh(buf) && fresh(buf.data)
    {
      buf := new MsgBuf(8192);
      sendPos := 0;
      queued, sent := [], [];
    }

    method QueueSend(data: Bytes)
      requires Valid()
      modifies this, buf, buf.data
      ensures Valid() && buf == old(buf) && (buf.data == old(buf.data) || fresh(buf.data))
      ensures queued == old(queued) + data && sent == old(sent)
    {
      ghost var before := buf.Contents();
      buf.PutBytes(data);
      queued := queued + data;
      assert buf.Contents()[sendPos..] == before[sendPos..] + data;
    }

    method SendAll(accept: (nat, nat) -> int) returns (r: Sent)
      requires Valid() && Kernel(accept)
      modifies this, buf
      ensures Valid() && buf == old(buf) && buf.data == old(buf.data)
      ensures queued == old(queued) && old(sent) <= sent <= queued
      ensures r == Flushed <==> sent == queued && sendPos == buf.len == 0
    {
      var calls := 0;
      ghost var all := buf.Contents();
      while sendPos < buf.len
        invariant Valid() && buf == old(buf) && buf.data == old(buf.data) && buf.Contents() == all
        invariant queued == old(queued) && old(sent) <= sent
        decreases buf.len - sendPos
      {
        var n := accept(calls, buf.len - sendPos);
        calls := calls + 1;
        if n < 0 {
          return if n == -1 then Blocked else Failed;
        }
        ghost var piece := all[sendPos..sendPos + n];
        assert all[sendPos..] == piece + all[sendPos + n..];
        sent := sent + piece;
        sendPos := sendPos + n;
      }
      assert all[sendPos..] == [];
      buf.Reset();
      sendPos := 0;
      r := Flushed;
    }

    /** Any interleaving of queueing and sending loses, repeats and reorders nothing. */
    method Drive(ops: seq<Op>)
      requires Valid()
      requires forall i :: 0 <= i < |ops| && ops[i].Send? ==> Kernel(ops[i].accept)
      modifies this, buf, buf.data
      ensures Valid()
      ensures queued == old(queued) + AllQueued(ops)
      ensures sent + buf.Contents()[sendPos..] == old(queued) + AllQueued(ops)
      // the client can read the stream back, and what has been sent is a beginning of it
      ensures forall k: nat, ms :: old(queued) + AllQueued(ops) == Framed(k, ms) && AllFit(ms) ==>
                && DecodeAll((sent + buf.Contents()[sendPos..])[k..]) == Some(ms)
                && (|sent| >= k ==> IsPrefixOf(sent[k..], ms))
    {
      var i := 0;
      assert ops[..0] == [];
      while i < |ops|
        invariant i <= |ops| && Valid() && buf == old(buf) && (buf.data == old(buf.data) || fresh(buf.data))
        invariant queued == old(queued) + AllQueued(ops[..i])
      {
        assert ops[..i + 1] == ops[..i] + [ops[i]];
        AllQueuedAppend(ops[..i], ops[i]);
        match ops[i] {
          case Queue(data) => QueueSend(data);
          case Send(accept) => var _ := SendAll(accept);
        }
        i := i + 1;
      }
      assert ops[..|ops|] == ops;
      forall k: nat, ms | queued == Framed(k, ms) && AllFit(ms)
        ensures DecodeAll(queued[k..]) == Some(ms) && (|sent| >= k ==> IsPrefixOf(sent[k..], ms))
      {
        FramedDecodes(k, ms, sent);
      }
    }

    method QueueRows(rows: seq<Cells>)
      requires Valid()
      modifies this, buf, buf.data
      ensures Valid() && buf == old(buf) && (buf.data == old(buf.data) || fresh(buf.data)) && sent == old(sent)
      ensures queued == old(queued) + EncodeAll(DataRows(rows))
    {
      ghost var acc: Bytes := [];
      RowsStart(rows);
      for r := 0 to |rows|
        invariant Valid() && buf == old(buf) && (buf.data == old(buf.data) || fresh(buf.data)) && sent == old(sent)
        invariant acc == EncodeAll(DataRows(rows[..r])) && queued == old(queued) + acc
      {
        var msg := DataRowBytes(rows[r]);
        QueueSend(msg);
        RowsNext(rows, r);
        Assoc(old(queued), acc, msg);
        acc := acc + msg;
      }
      RowsEnd(rows);
    }

    /** Forwards a tuple result as RowDescription and DataRow messages. */
    method ForwardResult(fields: seq<Field>, rows: seq<Cells>, header: bool)
      requires Valid()
      requires forall i :: 0 <= i < |fields| ==> CString(fields[i].name)
      requires forall i :: 0 <= i < |rows| ==> |rows[i]| == |fields|
      modifies this, buf, buf.data
      ensures Valid() && buf == old(buf) && (buf.data == old(buf.data) || fresh(buf.data)) && sent == old(sent)
      ensures queued == old(queued) + EncodeAll(Forward(fields, rows, header))
    {
      ghost var before, head: Bytes := queued, [];
      if header && |fields| > 0 {
        var msg := RowDescriptionBytes(fields);
        QueueSend(msg);
        head := msg;
      }
      assert queued == before + head;
      QueueRows(rows);
      ForwardBytes(before, head, fields, rows, header);
    }
  }

  const SSL_REFUSED: byte := 'N' as int

  /** Refusals of SSL are single bytes without a frame; they come before all messages. */
  function Refusals(k: nat): (b: Bytes)
    ensures |b| == k
  {
    if k == 0 then [] else [SSL_REFUSED] + Refusals(k - 1)
  }

  function Framed(k: nat, ms: seq<Msg>): Bytes {
    Refusals(k) + EncodeAll(ms)
  }

  lemma FramedDecodes(k: nat, ms: seq<Msg>, sent: Bytes)
    requires AllFit(ms) && sent <= Framed(k, ms)
    ensures DecodeAll(Framed(k, ms)[k..]) == Some(ms)
    ensures |sent| >= k ==> IsPrefixOf(sent[k..], ms)
  {
    assert Framed(k, ms)[k..] == EncodeAll(ms);
    StreamRoundTrip(ms);
    if |sent| >= k {
      SplitPrefix(Refusals(k), EncodeAll(ms), sent);
      PrefixDecodes(ms, sent[k..]);
    }
  }

  function AllQueued(ops: seq<Op>): Bytes {
    if ops == [] then [] else (if ops[0].Queue? then ops[0].data else []) + AllQueued(ops[1..])
  }

  lemma {:induction false} AllQueuedAppend(ops: seq<Op>, op: Op)
    ensures AllQueued(ops + [op]) == AllQueued(ops) + (if op.Queue? then op.data else [])
  {
    if ops == [] {
      assert (ops + [op])[1..] == [];
    } else {
      assert (ops + [op])[1..] == ops[1..] + [op];
      AllQueuedAppend(ops[1..], op);
      Assoc(if ops[0].Queue? then ops[0].data else [], AllQueued(ops[1..]), if op.Queue? then op.data else []);
    }
  }

  lemma SingleMessage(ms: seq<Msg>)
    requires |ms| <= 1
    ensures EncodeAll(ms) == if ms == [] then [] else Encode(ms[0])
  {
    if ms != [] {
      assert ms[1..] == [];
    }
  }

  lemma RowsStart(rows: seq<Cells>)
    ensures EncodeAll(DataRows(rows[..0])) == []
  {
    assert rows[..0] == [];
  }

  lemma RowsNext(rows: seq<Cells>, r: nat)
    requires r < |rows|
    ensures EncodeAll(DataRows(rows[..r + 1])) == EncodeAll(DataRows(rows[..r])) + Encode(DataRow(rows[r]))
  {
    var done: seq<Cells>, row: Cells := rows[..r], rows[r];
    assert rows[..r + 1] == done + [row];
    DataRowsConcat(done, [row]);
    assert [row][1..] == [];
    assert DataRows([row]) == [DataRow(row)];
    EncodeAllConcat(DataRows(done), [DataRow(row)]);
    SingleMessage([DataRow(row)]);
  }

  lemma RowsEnd(rows: seq<Cells>)
    ensures EncodeAll(DataRows(rows[..|rows|])) == EncodeAll(DataRows(rows))
  {
    assert rows[..|rows|] == rows;
  }

  lemma ForwardBytes(before: Bytes, head: Bytes, fields: seq<Field>, rows: seq<Cells>, header: bool)
    requires head == if header && fields != [] then Encode(RowDescription(fields)) else []
    ensures before + head + EncodeAll(DataRows(rows)) == before + EncodeAll(Forward(fields, rows, header))
  {
    var first := if header && fields != [] then [RowDescription(fields)] else [];
    SingleMessage(first);
    EncodeAllConcat(first, DataRows(rows));
    Assoc(before, head, EncodeAll(DataRows(rows)));
  }

  method PutField(msg: MsgBuf, f: Field)
    requires msg.Valid() && CString(f.name)
    modifies msg, msg.data
    ensures msg.Valid() && msg.Contents() == old(msg.Contents()) + FieldBytes(f)
    ensures msg.data == old(msg.data) || fresh(msg.data)
  {
    ghost var before := msg.Contents();
    msg.PutString(f.name);
    msg.PutInt32(0);
    msg.PutInt16(0);
    msg.PutInt32(f.typeOid);
    Regroup(before, Terminated(f.name), Be32(0), Be16(0), Be32(f.typeOid));
    ghost var half := Terminated(f.name) + Be32(0) + Be16(0) + Be32(f.typeOid);
    msg.PutInt16(f.size);
    msg.PutInt32(f.modifier);
    msg.PutInt16(0);
    Regroup(before, half, Be16(f.size), Be32(f.modifier), Be16(0));
  }

  lemma {:induction false} FieldsAppend(fs: seq<Field>, f: Field)
    ensures FieldsBytes(fs + [f]) == FieldsBytes(fs) + FieldBytes(f)
  {
    if fs == [] {
      assert (fs + [f])[1..] == [];
    } else {
      assert (fs + [f])[1..] == fs[1..] + [f];
      FieldsAppend(fs[1..], f);
    }
  }

  method PutFields(msg: MsgBuf, fields: seq<Field>)
    requires msg.Valid() && forall i :: 0 <= i < |fields| ==> CString(fields[i].name)
    modifies msg, msg.data
    ensures msg.Valid() && msg.Contents() == old(msg.Contents()) + FieldsBytes(fields)
    ensures msg.data == old(msg.data) || fresh(msg.data)
  {
    ghost var start := msg.Contents();
    assert fields[..0] == [];
    for c := 0 to |fields|
      invariant msg.Valid() && (msg.data == old(msg.data) || fresh(msg.data))
      invariant msg.Contents() == start + FieldsBytes(fields[..c])
    {
      PutField(msg, fields[c]);
      assert fields[..c + 1] == fields[..c] + [fields[c]];
      FieldsAppend(fields[..c], fields[c]);
      Assoc(start, FieldsBytes(fields[..c]), FieldBytes(fields[c]));
    }
    assert fields[..|fields|] == fields;
  }

  method WriteRowDescription(msg: MsgBuf, fields: seq<Field>)
    requires msg.Valid() && forall i :: 0 <= i < |fields| ==> CString(fields[i].name)
    modifies msg, msg.data
    ensures msg.Valid() && msg.Contents() == old(msg.Contents()) + Encode(RowDescription(fields))
    ensures msg.data == old(msg.data) || fresh(msg.data)
  {
    ghost var before := msg.Contents();
    var off := msg.Begin(MSG_ROW_DESCRIPTION);
    msg.PutInt16(|fields|);
    PutFields(msg, fields);
    Assoc(before + [MSG_ROW_DESCRIPTION] + Be32(0), Be16(|fields|), FieldsBytes(fields));
    msg.End(off, before, MSG_ROW_DESCRIPTION, Payload(RowDescription(fields)));
  }

  lemma {:induction false} CellsAppend(cs: Cells, c: Option<Bytes>)
    ensures CellsBytes(cs + [c]) == CellsBytes(cs) + CellBytes(c)
  {
    if cs == [] {
      assert (cs + [c])[1..] == [];
    } else {
      assert (cs + [c])[1..] == cs[1..] + [c];
      CellsAppend(cs[1..], c);
    }
  }

  method PutCell(msg: MsgBuf, cell: Option<Bytes>)
    requires msg.Valid()
    modifies msg, msg.data
    ensures msg.Valid() && msg.Contents() == old(msg.Contents()) + CellBytes(cell)
    ensures msg.data == old(msg.data) || fresh(msg.data)
  {
    if cell.None? {
      msg.PutInt32(-1);
    } else {
      msg.PutInt32(|cell.value|);
      msg.PutBytes(cell.value);
    }
  }

  method PutCells(msg: MsgBuf, cells: Cells)
    requires msg.Valid()
    modifies msg, msg.data
    ensures msg.Valid() && msg.Contents() == old(msg.Contents()) + CellsBytes(cells)
    ensures msg.data == old(msg.data) || fresh(msg.data)
  {
    ghost var start := msg.Contents();
    assert cells[..0] == [];
    for c := 0 to |cells|
      invariant msg.Valid() && (msg.data == old(msg.data) || fresh(msg.data))
      invariant msg.Contents() == start + CellsBytes(cells[..c])
    {
      PutCell(msg, cells[c]);
      assert cells[..c + 1] == cells[..c] + [cells[c]];
      CellsAppend(cells[..c], cells[c]);
      Assoc(start, CellsBytes(cells[..c]), CellBytes(cells[c]));
    }
    assert cells[..|cells|] == cells;
  }

  method WriteDataRow(msg: MsgBuf, cells: Cells)
    requires msg.Valid()
    modifies msg, msg.data
    ensures msg.Valid() && msg.Contents() == old(msg.Contents()) + Encode(DataRow(cells))
    ensures msg.data == old(msg.data) || fresh(msg.data)
  {
    ghost var before := msg.Contents();
    var off := msg.Begin(MSG_DATA_ROW);
    msg.PutInt16(|cells|);
    PutCells(msg, cells);
    Assoc(before + [MSG_DATA_ROW] + Be32(0), Be16(|cells|), CellsBytes(cells));
    msg.End(off, before, MSG_DATA_ROW, Payload(DataRow(cells)));
  }

  method RowDescriptionBytes(fields: seq<Field>) returns (b: Bytes)
    requires forall i :: 0 <= i < |fields| ==> CString(fields[i].name)
    ensures b == Encode(RowDescription(fields))
  {
    var msg := new MsgBuf(256);
    WriteRowDescription(msg, fields);
    b := msg.data[..msg.len];
  }

  method DataRowBytes(cells: Cells) returns (b: Bytes)
    ensures b == Encode(DataRow(cells))
  {
    var msg := new MsgBuf(256);
    WriteDataRow(msg, cells);
    b := msg.data[..msg.len];
  }
}
