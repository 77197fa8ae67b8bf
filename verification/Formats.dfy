/**
 The bytes themselves: numbers in network order, one message of each kind as section 55.7 of the
 PostgreSQL 16 documentation has it, and the converse of the round trips: what can be read was so written.
 */
module Formats {
  import opened Wrappers
  import opened Wire

  // ---------- Numbers ----------

  lemma Be16Exactly(v: int)
    ensures var b := Be16(v); b[0] as int * 256 + b[1] as int == v % 65536
  {
  }

  lemma Be32Exactly(v: int)
    ensures var b := Be32(v);
            b[0] as int * 16777216 + b[1] as int * 65536 + b[2] as int * 256 + b[3] as int == v % 4294967296
  {
    U32Be32(v, []);
    assert Be32(v) + [] == Be32(v);
  }

  lemma Int16Exactly(hi: byte, lo: byte, rest: Bytes)
    ensures Int16([hi, lo] + rest) == hi as int * 256 + lo as int - if hi >= 128 then 65536 else 0
  {
  }

  lemma Int32Exactly(a: byte, b: byte, c: byte, d: byte, rest: Bytes)
    ensures Int32([a, b, c, d] + rest)
            == a as int * 16777216 + b as int * 65536 + c as int * 256 + d as int - if a >= 128 then 4294967296 else 0
  {
    var s := [a, b, c, d] + rest;
    assert s[0] == a && s[1] == b && s[2] == c && s[3] == d;
  }

  // ---------- One message of each kind ----------

  lemma SmallNumbers()
    ensures Be16(0) == [0, 0] && Be16(1) == [0, 1] && Be16(2) == [0, 2] && Be16(4) == [0, 4]
    ensures Be32(0) == [0, 0, 0, 0] && Be32(1) == [0, 0, 0, 1] && Be32(2) == [0, 0, 0, 2]
    ensures Be32(-1) == [255, 255, 255, 255]
  {
  }

  lemma Framed(t: byte, payload: Bytes)
    requires |payload| < 252
    ensures Frame(t, payload) == [t, 0, 0, 0, |payload| + 4] + payload
  {
    assert Be32(|payload| + 4) == [0, 0, 0, |payload| + 4];
  }

  lemma SessionBytes()
    ensures Encode(AuthOk) == [82, 0, 0, 0, 8, 0, 0, 0, 0]
    ensures Encode(ParameterStatus([97], [98])) == [83, 0, 0, 0, 8, 97, 0, 98, 0]
    ensures Encode(BackendKey(1, 2)) == [75, 0, 0, 0, 12, 0, 0, 0, 1, 0, 0, 0, 2]
    ensures Encode(ReadyForQuery(73)) == [90, 0, 0, 0, 5, 73]
  {
    SmallNumbers();
    Framed(82, Payload(AuthOk));
    Framed(83, Payload(ParameterStatus([97], [98])));
    Framed(75, Payload(BackendKey(1, 2)));
    Framed(90, Payload(ReadyForQuery(73)));
  }

  /** A NULL and an empty value. */
  lemma RowBytes()
    ensures Encode(DataRow([None, Some([])])) == [68, 0, 0, 0, 14, 0, 2, 255, 255, 255, 255, 0, 0, 0, 0]
  {
    SmallNumbers();
    var cells: seq<Option<Bytes>> := [None, Some([])];
    assert cells[1..] == [Some([])] && cells[1..][1..] == [];
    assert CellsBytes(cells[1..]) == [0, 0, 0, 0];
    assert CellsBytes(cells) == [255, 255, 255, 255, 0, 0, 0, 0];
    Framed(68, Payload(DataRow(cells)));
  }

  lemma EndBytes()
    ensures Encode(CommandComplete([83, 69, 84])) == [67, 0, 0, 0, 8, 83, 69, 84, 0]
    ensures Encode(ErrorResponse([(83, [69])])) == [69, 0, 0, 0, 8, 83, 69, 0, 0]
  {
    Framed(67, Payload(CommandComplete([83, 69, 84])));
    var parts: seq<(byte, Bytes)> := [(83, [69])];
    assert parts[1..] == [];
    assert PartsBytes(parts) == [83, 69, 0];
    Framed(69, Payload(ErrorResponse(parts)));
  }

  /** One column: its name, no table, no attribute, int4, four bytes, no modifier, text. */
  lemma DescriptionBytes()
    ensures Encode(RowDescription([Field([97], 23, 4, -1)]))
            == [84, 0, 0, 0, 26, 0, 1, 97, 0, 0, 0, 0, 0, 0, 0, 0, 0, 0, 23, 0, 4, 255, 255, 255, 255, 0, 0]
  {
    SmallNumbers();
    var f := Field([97], 23, 4, -1);
    OneFieldBytes(f);
    assert [f][1..] == [];
    assert FieldsBytes([f]) == FieldBytes(f);
    Framed(84, Be16(1) + FieldBytes(f));
  }

  lemma OneFieldBytes(f: Field)
    requires f == Field([97], 23, 4, -1)
    ensures FieldBytes(f) == [97, 0, 0, 0, 0, 0, 0, 0, 0, 0, 0, 23, 0, 4, 255, 255, 255, 255, 0, 0]
  {
    SmallNumbers();
    var a := Terminated(f.name) + Be32(0) + Be16(0);
    assert a == [97, 0, 0, 0, 0, 0, 0, 0];
    var b := a + Be32(23) + Be16(4);
    assert Be32(23) == [0, 0, 0, 23];
    assert b == [97, 0, 0, 0, 0, 0, 0, 0, 0, 0, 0, 23, 0, 4];
    assert FieldBytes(f) == b + Be32(-1) + Be16(0);
  }

  lemma CopyBytes()
    ensures Encode(CopyInResponse(1)) == [71, 0, 0, 0, 9, 0, 0, 1, 0, 0]
    ensures Encode(CopyOutResponse(1)) == [72, 0, 0, 0, 9, 0, 0, 1, 0, 0]
    ensures Encode(CopyData([49])) == [100, 0, 0, 0, 5, 49]
    ensures Encode(CopyDone) == [99, 0, 0, 0, 4]
  {
    SmallNumbers();
    assert Zeros16(1) == Be16(0) + Zeros16(0) == [0, 0];
    Framed(71, Payload(CopyInResponse(1)));
    Framed(72, Payload(CopyOutResponse(1)));
    Framed(100, Payload(CopyData([49])));
    Framed(99, Payload(CopyDone));
  }

  // ---------- What can be read was so written ----------

  lemma Be32U32(b: Bytes)
    requires |b| >= 4
    ensures Be32(U32(b)) == b[..4]
  {
    var u := U32(b);
    var high := b[0] as int * 256 + b[1] as int;
    Digit(high * 256 + b[2] as int, b[3]);
    Digit(high, b[2]);
    Digit(b[0] as int, b[1]);
    assert u == (high * 256 + b[2] as int) * 256 + b[3] as int;
    Twice(u);
    assert u < TWO32 && u % TWO32 == u;
    assert Be32(u) == [b[0], b[1], b[2], b[3]];
  }

  lemma Digit(x: nat, y: nat)
    requires y < 256
    ensures (x * 256 + y) / 256 == x && (x * 256 + y) % 256 == y
  {
  }

  lemma Twice(u: nat)
    ensures u / 0x1_0000 == u / 256 / 256 && u / 0x100_0000 == u / 256 / 256 / 256
  {
  }

  lemma SameBytes(v: int, u: int)
    requires v % TWO32 == u % TWO32
    ensures Be32(v) == Be32(u)
  {
  }

  lemma Be32Int32(b: Bytes)
    requires |b| >= 4
    ensures Be32(Int32(b)) == b[..4] && Fits32(Int32(b)) && b == Be32(Int32(b)) + b[4..]
  {
    Be32U32(b);
    SameBytes(Int32(b), U32(b));
  }

  lemma Be16Int16(b: Bytes)
    requires |b| >= 2
    ensures Be16(Int16(b)) == b[..2] && -0x8000 <= Int16(b) < 0x8000 && b == Be16(Int16(b)) + b[2..]
  {
    var u := b[0] as int * 256 + b[1] as int;
    assert Int16(b) % TWO16 == u && u / 256 == b[0] && u % 256 == b[1];
    assert Be16(Int16(b)) == [b[0], b[1]];
  }

  lemma {:induction false} StringRead(b: Bytes)
    requires TakeString(b).Some?
    ensures b == Terminated(TakeString(b).value.0) + TakeString(b).value.1 && CString(TakeString(b).value.0)
  {
    if b[0] == 0 {
      assert b == [0] + b[1..];
    } else {
      StringRead(b[1..]);
      var (s, r) := TakeString(b[1..]).value;
      assert b == [b[0]] + b[1..];
      assert [b[0]] + (Terminated(s) + r) == Terminated([b[0]] + s) + r;
    }
  }

  /** The eighteen bytes behind the name of a field. */
  lemma FieldRead(d: Bytes)
    requires |d| >= 18 && PlainField(d)
    ensures d == FieldTail(Field([], Int32(d[6..]), Int16(d[10..]), Int32(d[12..])), d[18..])
    ensures Fits32(Int32(d[6..])) && -0x8000 <= Int16(d[10..]) < 0x8000 && Fits32(Int32(d[12..]))
  {
    Be32Int32(d);
    Be16Int16(d[4..]);
    assert d[4..][2..] == d[6..];
    Be32Int32(d[6..]);
    assert d[6..][4..] == d[10..];
    Be16Int16(d[10..]);
    assert d[10..][2..] == d[12..];
    Be32Int32(d[12..]);
    assert d[12..][4..] == d[16..];
    Be16Int16(d[16..]);
    assert d[16..][2..] == d[18..];
  }

  lemma FieldWritten(b: Bytes, f: Field, rest: Bytes)
    requires TakeString(b).Some? && TakeString(b).value.0 == f.name
    requires var d := TakeString(b).value.1; d == FieldTail(f.(name := []), rest)
    ensures b == FieldBytes(f) + rest
  {
    StringRead(b);
    FieldGroup(f, rest);
  }

  /** The first field, and where the others begin. */
  lemma FirstFieldRead(n: nat, b: Bytes) returns (f: Field, after: Bytes)
    requires n > 0 && TakeFields(n, b).Some?
    ensures FieldFits(f) && b == FieldBytes(f) + after && TakeFields(n - 1, after).Some?
    ensures TakeFields(n, b).value == ([f] + TakeFields(n - 1, after).value.0, TakeFields(n - 1, after).value.1)
  {
    var d := TakeString(b).value.1;
    f, after := Field(TakeString(b).value.0, Int32(d[6..]), Int16(d[10..]), Int32(d[12..])), d[18..];
    StringRead(b);
    FieldRead(d);
    FieldWritten(b, f, after);
  }

  lemma {:induction false} FieldsRead(n: nat, b: Bytes)
    requires TakeFields(n, b).Some?
    ensures var (fs, rest) := TakeFields(n, b).value;
            |fs| == n && b == FieldsBytes(fs) + rest && forall i :: 0 <= i < |fs| ==> FieldFits(fs[i])
  {
    if n == 0 {
      assert FieldsBytes([]) + b == b;
    } else {
      var f, after := FirstFieldRead(n, b);
      FieldsRead(n - 1, after);
      var (more, rest) := TakeFields(n - 1, after).value;
      assert ([f] + more)[1..] == more;
      Assoc(FieldBytes(f), FieldsBytes(more), rest);
    }
  }

  lemma CellRead(b: Bytes)
    requires TakeCell(b).Some?
    ensures b == CellBytes(TakeCell(b).value.0) + TakeCell(b).value.1
  {
    Be32Int32(b);
    var len := Int32(b);
    if len != -1 {
      assert b[4..] == b[4..4 + len] + b[4 + len..];
      Assoc(Be32(len), b[4..4 + len], b[4 + len..]);
    }
  }

  lemma {:induction false} CellsRead(n: nat, b: Bytes)
    requires TakeCells(n, b).Some?
    ensures var (cs, rest) := TakeCells(n, b).value; |cs| == n && b == CellsBytes(cs) + rest
  {
    if n == 0 {
      assert CellsBytes([]) + b == b;
    } else {
      var (c, after) := TakeCell(b).value;
      CellRead(b);
      CellsRead(n - 1, after);
      var (more, rest) := TakeCells(n - 1, after).value;
      assert ([c] + more)[1..] == more;
      Assoc(CellBytes(c), CellsBytes(more), rest);
    }
  }

  predicate PartsFit(ps: seq<(byte, Bytes)>) {
    forall i :: 0 <= i < |ps| ==> ps[i].0 != 0 && CString(ps[i].1)
  }

  lemma {:induction false} PartsRead(b: Bytes)
    requires TakeParts(b).Some?
    ensures b == PartsBytes(TakeParts(b).value) + [0] && PartsFit(TakeParts(b).value)
    decreases |b|
  {
    if b[0] == 0 {
      assert b == [0];
    } else {
      var (s, after) := TakeString(b[1..]).value;
      StringRead(b[1..]);
      PartsRead(after);
      var more := TakeParts(after).value;
      assert b == [b[0]] + b[1..];
      assert ([(b[0], s)] + more)[1..] == more;
      assert [b[0]] + (Terminated(s) + after) == Part((b[0], s)) + after;
      Assoc(Part((b[0], s)), PartsBytes(more), [0]);
    }
  }

  lemma CopyRead(b: Bytes)
    requires PlainCopy(b)
    ensures var n := Int16(b[1..]); 0 <= n < 0x8000 && b == [0] + Be16(n) + Zeros16(n)
  {
    var n := Int16(b[1..]);
    Be16Int16(b[1..]);
    ZerosAre(n);
    assert b[1..][2..] == b[3..] == Zeros16(n);
    assert b == [b[0]] + b[1..];
  }

  lemma TextsRead(t: byte, b: Bytes)
    requires t in {MSG_PARAM_STATUS, MSG_CMD_COMPLETE, MSG_ERROR_RESPONSE} && Decode(t, b).Some? && |b| + 4 < TWO31
    ensures var m := Decode(t, b).value; TypeByte(m) == t && Payload(m) == b && Fits(m)
  {
    if t == MSG_ERROR_RESPONSE {
      PartsRead(b);
    } else {
      StringRead(b);
      if t == MSG_PARAM_STATUS {
        StringRead(TakeString(b).value.1);
      }
    }
  }

  lemma RowsRead(t: byte, b: Bytes)
    requires t in {MSG_ROW_DESCRIPTION, MSG_DATA_ROW} && Decode(t, b).Some? && |b| + 4 < TWO31
    ensures var m := Decode(t, b).value; TypeByte(m) == t && Payload(m) == b && Fits(m)
  {
    Be16Int16(b);
    var n := Int16(b);
    if t == MSG_ROW_DESCRIPTION {
      FieldsRead(n, b[2..]);
    } else {
      CellsRead(n, b[2..]);
    }
  }

  /** A message that can be read has just the bytes the proxy writes for it. */
  lemma ReadAsWritten(t: byte, b: Bytes)
    requires Decode(t, b).Some? && |b| + 4 < TWO31
    ensures var m := Decode(t, b).value; TypeByte(m) == t && Payload(m) == b && Fits(m)
  {
    if t in {MSG_PARAM_STATUS, MSG_CMD_COMPLETE, MSG_ERROR_RESPONSE} {
      TextsRead(t, b);
    } else if t in {MSG_ROW_DESCRIPTION, MSG_DATA_ROW} {
      RowsRead(t, b);
    } else if t in {MSG_COPY_IN_RESP, MSG_COPY_OUT_RESP} {
      CopyRead(b);
    } else if t == MSG_AUTH_REQUEST {
      Be32Int32(b);
    } else if t == MSG_BACKEND_KEY {
      Be32Int32(b);
      Be32Int32(b[4..]);
    }
  }

  lemma FrameRead(b: Bytes)
    requires TakeFrame(b).Some?
    ensures var (t, payload, rest) := TakeFrame(b).value; |payload| + 4 < TWO31 && b == Frame(t, payload) + rest
  {
    Be32Int32(b[1..]);
    var len := Int32(b[1..]);
    assert b == [b[0]] + b[1..] && b[1..][4..] == b[5..] == b[5..1 + len] + b[1 + len..];
  }

  /** So a stream that can be read is the stream of the messages read: reading and writing undo each other. */
  lemma {:induction false} StreamRead(b: Bytes)
    requires DecodeAll(b).Some?
    ensures EncodeAll(DecodeAll(b).value) == b && AllFit(DecodeAll(b).value)
    decreases |b|
  {
    if b != [] {
      var (t, payload, rest) := TakeFrame(b).value;
      FrameRead(b);
      ReadAsWritten(t, payload);
      StreamRead(rest);
      var m, more := Decode(t, payload).value, DecodeAll(rest).value;
      assert ([m] + more)[1..] == more;
    }
  }
}
