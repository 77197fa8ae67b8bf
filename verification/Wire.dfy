/**
 The messages the proxy sends to a client and their bytes, following section 55.7 (Message Formats)
 of the PostgreSQL 16 documentation, with a reader that undoes the writing.
 */
module Wire {
  import opened Wrappers

  type byte = b: nat | b < 256

  type Bytes = seq<byte>

  const TWO16: int := 0x1_0000
  const TWO31: int := 0x8000_0000
  const TWO32: int := 0x1_0000_0000

  // ---------- Numbers in network order ----------

  /** htons and htonl: the two's complement bytes, high byte first. */
  function Be16(v: int): (r: Bytes)
    ensures |r| == 2
  {
    var u := v % TWO16;
    [u / 256, u % 256]
  }

  function Be32(v: int): (r: Bytes)
    ensures |r| == 4
  {
    var u := v % TWO32;
    [u / 0x100_0000, u / 0x1_0000 % 256, u / 256 % 256, u % 256]
  }

  function U32(b: Bytes): (r: nat)
    requires |b| >= 4
    ensures r < TWO32
  {
    b[0] as int * 0x100_0000 + b[1] as int * 0x1_0000 + b[2] as int * 256 + b[3] as int
  }

  function Int32(b: Bytes): int
    requires |b| >= 4
  {
    if U32(b) >= TWO31 then U32(b) - TWO32 else U32(b)
  }

  function Int16(b: Bytes): int
    requires |b| >= 2
  {
    var u := b[0] as int * 256 + b[1] as int;
    if u >= 0x8000 then u - TWO16 else u
  }

  lemma U32Be32(v: int, rest: Bytes)
    ensures U32(Be32(v) + rest) == v % TWO32
  {
    var u := v % TWO32;
    var b := Be32(v) + rest;
    assert b[0] == u / 0x100_0000 && b[1] == u / 0x1_0000 % 256 && b[2] == u / 256 % 256 && b[3] == u % 256;
    assert u / 0x1_0000 == 256 * (u / 0x100_0000) + u / 0x1_0000 % 256;
    assert u / 256 == 256 * (u / 0x1_0000) + u / 256 % 256;
  }

  lemma Int32Be32(v: int, rest: Bytes)
    requires -TWO31 <= v < TWO31
    ensures Int32(Be32(v) + rest) == v && (Be32(v) + rest)[4..] == rest
  {
    U32Be32(v, rest);
  }

  lemma Int16Be16(v: int, rest: Bytes)
    requires -0x8000 <= v < 0x8000
    ensures Int16(Be16(v) + rest) == v && (Be16(v) + rest)[2..] == rest
  {
    var u := v % TWO16;
    var b := Be16(v) + rest;
    assert b[0] == u / 256 && b[1] == u % 256;
  }

  // ---------- Strings ----------

  predicate CString(s: Bytes) {
    0 !in s
  }

  function Terminated(s: Bytes): Bytes {
    s + [0]
  }

  /** Up to the terminating zero; None when there is none. */
  function TakeString(b: Bytes): (r: Option<(Bytes, Bytes)>)
    ensures r.Some? ==> |b| == |r.value.0| + 1 + |r.value.1|
  {
    if b == [] then None
    else if b[0] == 0 then Some(([], b[1..]))
    else
      var t := TakeString(b[1..]);
      if t.None? then None else Some(([b[0]] + t.value.0, t.value.1))
  }

  lemma {:induction false} TakeTerminated(s: Bytes, rest: Bytes)
    requires CString(s)
    ensures TakeString(Terminated(s) + rest) == Some((s, rest))
  {
    if s == [] {
      assert (Terminated(s) + rest)[1..] == rest;
    } else {
      assert (Terminated(s) + rest)[1..] == Terminated(s[1..]) + rest;
      TakeTerminated(s[1..], rest);
      assert s == [s[0]] + s[1..];
    }
  }

  // ---------- Messages ----------

  datatype Field = Field(name: Bytes, typeOid: int, size: int, modifier: int)

  datatype Msg =
    | AuthOk
    | ParameterStatus(name: Bytes, value: Bytes)
    | BackendKey(pid: int, key: int)
    | ReadyForQuery(status: byte)
    | RowDescription(fields: seq<Field>)
    | DataRow(cells: seq<Option<Bytes>>)
    | CommandComplete(tag: Bytes)
    | ErrorResponse(parts: seq<(byte, Bytes)>)
    | CopyInResponse(columns: nat)
    | CopyOutResponse(columns: nat)
    | CopyData(data: Bytes)
    | CopyDone

  const MSG_AUTH_REQUEST: byte := 'R' as int
  const MSG_PARAM_STATUS: byte := 'S' as int
  const MSG_BACKEND_KEY: byte := 'K' as int
  const MSG_READY_FOR_QUERY: byte := 'Z' as int
  const MSG_ROW_DESCRIPTION: byte := 'T' as int
  const MSG_DATA_ROW: byte := 'D' as int
  const MSG_CMD_COMPLETE: byte := 'C' as int
  const MSG_ERROR_RESPONSE: byte := 'E' as int
  const MSG_COPY_IN_RESP: byte := 'G' as int
  const MSG_COPY_OUT_RESP: byte := 'H' as int
  const MSG_COPY_DATA: byte := 'd' as int
  const MSG_COPY_DONE: byte := 'c' as int

  function TypeByte(m: Msg): byte {
    match m
    case AuthOk => MSG_AUTH_REQUEST
    case ParameterStatus(_, _) => MSG_PARAM_STATUS
    case BackendKey(_, _) => MSG_BACKEND_KEY
    case ReadyForQuery(_) => MSG_READY_FOR_QUERY
    case RowDescription(_) => MSG_ROW_DESCRIPTION
    case DataRow(_) => MSG_DATA_ROW
    case CommandComplete(_) => MSG_CMD_COMPLETE
    case ErrorResponse(_) => MSG_ERROR_RESPONSE
    case CopyInResponse(_) => MSG_COPY_IN_RESP
    case CopyOutResponse(_) => MSG_COPY_OUT_RESP
    case CopyData(_) => MSG_COPY_DATA
    case CopyDone => MSG_COPY_DONE
  }

  function FieldBytes(f: Field): Bytes {
    Terminated(f.name) + Be32(0) + Be16(0) + Be32(f.typeOid) + Be16(f.size) + Be32(f.modifier) + Be16(0)
  }

  function FieldsBytes(fs: seq<Field>): Bytes {
    if fs == [] then [] else FieldBytes(fs[0]) + FieldsBytes(fs[1..])
  }

  /** NULL has length -1 and no bytes; an empty value has length 0. */
  function CellBytes(c: Option<Bytes>): Bytes {
    match c
    case None => Be32(-1)
    case Some(v) => Be32(|v|) + v
  }

  function CellsBytes(cs: seq<Option<Bytes>>): Bytes {
    if cs == [] then [] else CellBytes(cs[0]) + CellsBytes(cs[1..])
  }

  /** The fields of an error: a tag byte and a string each. */
  function PartsBytes(ps: seq<(byte, Bytes)>): Bytes {
    if ps == [] then [] else Part(ps[0]) + PartsBytes(ps[1..])
  }

  function Part(p: (byte, Bytes)): Bytes {
    [p.0] + Terminated(p.1)
  }

  lemma ThreeParts(a: (byte, Bytes), b: (byte, Bytes), c: (byte, Bytes))
    ensures PartsBytes([a, b, c]) == Part(a) + Part(b) + Part(c)
  {
    assert [a, b, c][1..] == [b, c] && [b, c][1..] == [c] && [c][1..] == [];
    assert PartsBytes([c]) == Part(c);
    assert PartsBytes([b, c]) == Part(b) + Part(c);
  }

  function Zeros16(n: nat): Bytes {
    if n == 0 then [] else Be16(0) + Zeros16(n - 1)
  }

  function Payload(m: Msg): Bytes {
    match m
    case AuthOk => Be32(0)
    case ParameterStatus(name, value) => Terminated(name) + Terminated(value)
    case BackendKey(pid, key) => Be32(pid) + Be32(key)
    case ReadyForQuery(status) => [status]
    case RowDescription(fields) => Be16(|fields|) + FieldsBytes(fields)
    case DataRow(cells) => Be16(|cells|) + CellsBytes(cells)
    case CommandComplete(tag) => Terminated(tag)
    case ErrorResponse(parts) => PartsBytes(parts) + [0]
    case CopyInResponse(n) => [0] + Be16(n) + Zeros16(n)
    case CopyOutResponse(n) => [0] + Be16(n) + Zeros16(n)
    case CopyData(data) => data
    case CopyDone => []
  }

  /** Type byte, a length that counts itself but not the type byte, payload. */
  function Frame(t: byte, payload: Bytes): Bytes {
    [t] + Be32(|payload| + 4) + payload
  }

  function Encode(m: Msg): Bytes {
    Frame(TypeByte(m), Payload(m))
  }

  function EncodeAll(ms: seq<Msg>): Bytes {
    if ms == [] then [] else Encode(ms[0]) + EncodeAll(ms[1..])
  }

  lemma {:induction false} EncodeAllConcat(a: seq<Msg>, b: seq<Msg>)
    ensures EncodeAll(a + b) == EncodeAll(a) + EncodeAll(b)
  {
    if a == [] {
      assert a + b == b;
    } else {
      assert (a + b)[1..] == a[1..] + b;
      EncodeAllConcat(a[1..], b);
    }
  }

  // ---------- Reading a stream back ----------

  function TakeFrame(b: Bytes): Option<(byte, Bytes, Bytes)> {
    if |b| < 5 then None
    else
      var len := Int32(b[1..]);
      if len < 4 || |b| < 1 + len then None else Some((b[0], b[5..1 + len], b[1 + len..]))
  }

  /** No table, no attribute number, text format. */
  predicate PlainField(d: Bytes)
    requires |d| >= 18
  {
    Int32(d) == 0 && Int16(d[4..]) == 0 && Int16(d[16..]) == 0
  }

  function TakeFields(n: nat, b: Bytes): Option<(seq<Field>, Bytes)> {
    if n == 0 then Some(([], b))
    else
      var name := TakeString(b);
      if name.None? || |name.value.1| < 18 || !PlainField(name.value.1) then None
      else
        var d := name.value.1;
        var f := Field(name.value.0, Int32(d[6..]), Int16(d[10..]), Int32(d[12..]));
        var more := TakeFields(n - 1, d[18..]);
        if more.None? then None else Some(([f] + more.value.0, more.value.1))
  }

  function TakeCell(b: Bytes): Option<(Option<Bytes>, Bytes)> {
    if |b| < 4 then None
    else
      var len := Int32(b);
      if len == -1 then Some((None, b[4..]))
      else if len < 0 || |b| < 4 + len then None
      else Some((Some(b[4..4 + len]), b[4 + len..]))
  }

  function TakeCells(n: nat, b: Bytes): Option<(seq<Option<Bytes>>, Bytes)> {
    if n == 0 then Some(([], b))
    else
      var c := TakeCell(b);
      if c.None? then None
      else
        var more := TakeCells(n - 1, c.value.1);
        if more.None? then None else Some(([c.value.0] + more.value.0, more.value.1))
  }

  function TakeTwoStrings(b: Bytes): Option<(Bytes, Bytes)> {
    var s := TakeString(b);
    if s.None? then None
    else
      var t := TakeString(s.value.1);
      if t.None? || t.value.1 != [] then None else Some((s.value.0, t.value.0))
  }

  function TakeParts(b: Bytes): Option<seq<(byte, Bytes)>>
    decreases |b|
  {
    if b == [] then None
    else if b[0] == 0 then (if |b| == 1 then Some([]) else None)
    else
      var s := TakeString(b[1..]);
      if s.None? || |s.value.1| >= |b| then None
      else
        var more := TakeParts(s.value.1);
        if more.None? then None else Some([(b[0], s.value.0)] + more.value)
  }

  function DecodeDescription(b: Bytes): Option<Msg> {
    if |b| < 2 || Int16(b) < 0 then None
    else
      var fs := TakeFields(Int16(b), b[2..]);
      if fs.None? || fs.value.1 != [] then None else Some(RowDescription(fs.value.0))
  }

  function DecodeRow(b: Bytes): Option<Msg> {
    if |b| < 2 || Int16(b) < 0 then None
    else
      var cs := TakeCells(Int16(b), b[2..]);
      if cs.None? || cs.value.1 != [] then None else Some(DataRow(cs.value.0))
  }

  /** Text format for the whole and for each column. */
  predicate PlainCopy(b: Bytes) {
    && |b| >= 3 && b[0] == 0 && Int16(b[1..]) >= 0 && |b| == 3 + 2 * Int16(b[1..])
    && forall i :: 3 <= i < |b| ==> b[i] == 0
  }

  /** A message, if these are all its bytes and just those that the proxy would write. */
  function Decode(t: byte, b: Bytes): Option<Msg> {
    if t == MSG_AUTH_REQUEST then (if |b| == 4 && Int32(b) == 0 then Some(AuthOk) else None)
    else if t == MSG_PARAM_STATUS then
      var s := TakeTwoStrings(b);
      if s.None? then None else Some(ParameterStatus(s.value.0, s.value.1))
    else if t == MSG_BACKEND_KEY then (if |b| != 8 then None else Some(BackendKey(Int32(b), Int32(b[4..]))))
    else if t == MSG_READY_FOR_QUERY then (if |b| != 1 then None else Some(ReadyForQuery(b[0])))
    else if t == MSG_ROW_DESCRIPTION then DecodeDescription(b)
    else if t == MSG_DATA_ROW then DecodeRow(b)
    else if t == MSG_CMD_COMPLETE then
      var s := TakeString(b);
      if s.None? || s.value.1 != [] then None else Some(CommandComplete(s.value.0))
    else if t == MSG_ERROR_RESPONSE then
      var ps := TakeParts(b);
      if ps.None? then None else Some(ErrorResponse(ps.value))
    else if t == MSG_COPY_IN_RESP then
      if PlainCopy(b) then Some(CopyInResponse(Int16(b[1..]))) else None
    else if t == MSG_COPY_OUT_RESP then
      if PlainCopy(b) then Some(CopyOutResponse(Int16(b[1..]))) else None
    else if t == MSG_COPY_DATA then Some(CopyData(b))
    else if t == MSG_COPY_DONE then (if b == [] then Some(CopyDone) else None)
    else None
  }

  function DecodeAll(b: Bytes): Option<seq<Msg>>
    decreases |b|
  {
    if b == [] then Some([])
    else
      var f := TakeFrame(b);
      if f.None? then None
      else
        var m, rest := Decode(f.value.0, f.value.1), DecodeAll(f.value.2);
        if m.None? || rest.None? then None else Some([m.value] + rest.value)
  }

  // ---------- Which messages fit their fields ----------

  predicate Fits32(v: int) {
    -TWO31 <= v < TWO31
  }

  predicate FieldFits(f: Field) {
    CString(f.name) && Fits32(f.typeOid) && -0x8000 <= f.size < 0x8000 && Fits32(f.modifier)
  }

  predicate Fits(m: Msg) {
    && |Payload(m)| + 4 < TWO31
    && match m
       case ParameterStatus(name, value) => CString(name) && CString(value)
       case BackendKey(pid, key) => Fits32(pid) && Fits32(key)
       case RowDescription(fields) => |fields| < 0x8000 && forall i :: 0 <= i < |fields| ==> FieldFits(fields[i])
       case DataRow(cells) => |cells| < 0x8000
       case CommandComplete(tag) => CString(tag)
       case ErrorResponse(parts) => forall i :: 0 <= i < |parts| ==> parts[i].0 != 0 && CString(parts[i].1)
       case CopyInResponse(n) => n < 0x8000
       case CopyOutResponse(n) => n < 0x8000
       case _ => true
  }

  // ---------- Round trips ----------

  /** The length field of a frame is the size of the frame less its type byte. */
  lemma FrameRoundTrip(t: byte, payload: Bytes, rest: Bytes)
    requires |payload| + 4 < TWO31
    ensures TakeFrame(Frame(t, payload) + rest) == Some((t, payload, rest))
    ensures Int32(Frame(t, payload)[1..]) == |Frame(t, payload)| - 1
  {
    var b := Frame(t, payload) + rest;
    Int32Be32(|payload| + 4, payload + rest);
    Int32Be32(|payload| + 4, payload);
    assert b[1..] == Be32(|payload| + 4) + (payload + rest);
    assert Frame(t, payload)[1..] == Be32(|payload| + 4) + payload;
    assert b[5..5 + |payload|] == payload;
  }

  /** The fixed part of a field description, in front of what follows it. */
  function FieldTail(f: Field, rest: Bytes): Bytes {
    Be32(0) + (Be16(0) + (Be32(f.typeOid) + (Be16(f.size) + (Be32(f.modifier) + (Be16(0) + rest)))))
  }

  lemma FieldGroup(f: Field, rest: Bytes)
    ensures FieldBytes(f) + rest == Terminated(f.name) + FieldTail(f, rest)
  {
    var n, t, s, m := Terminated(f.name), Be32(f.typeOid), Be16(f.size), Be32(f.modifier);
    var c5 := Be16(0) + rest;
    var c4 := m + c5;
    var c3 := s + c4;
    var c2 := t + c3;
    var c1 := Be16(0) + c2;
    Assoc(n + Be32(0) + Be16(0) + t + s + m, Be16(0), rest);
    Assoc(n + Be32(0) + Be16(0) + t + s, m, c5);
    Assoc(n + Be32(0) + Be16(0) + t, s, c4);
    Assoc(n + Be32(0) + Be16(0), t, c3);
    Assoc(n + Be32(0), Be16(0), c2);
    Assoc(n, Be32(0), c1);
  }

  lemma FieldLayout(f: Field, rest: Bytes)
    requires FieldFits(f)
    ensures var d := FieldTail(f, rest);
            && |d| >= 18
            && PlainField(d)
            && Int32(d[6..]) == f.typeOid && Int16(d[10..]) == f.size && Int32(d[12..]) == f.modifier
            && d[18..] == rest
  {
    var c5 := Be16(0) + rest;
    var c4 := Be32(f.modifier) + c5;
    var c3 := Be16(f.size) + c4;
    var c2 := Be32(f.typeOid) + c3;
    var d := FieldTail(f, rest);
    Int32Be32(0, Be16(0) + c2);
    Int16Be16(0, c2);
    assert d[6..] == d[4..][2..] == c2;
    Int32Be32(f.typeOid, c3);
    assert d[10..] == d[6..][4..] == c3;
    Int16Be16(f.size, c4);
    assert d[12..] == d[10..][2..] == c4;
    Int32Be32(f.modifier, c5);
    assert d[16..] == d[12..][4..] == c5;
    Int16Be16(0, rest);
    assert d[18..] == d[16..][2..] == rest;
  }

  lemma TakeFieldsStep(n: nat, f: Field, more: Bytes, fs: seq<Field>, rest: Bytes)
    requires FieldFits(f) && TakeFields(n, more) == Some((fs, rest))
    ensures TakeFields(n + 1, Terminated(f.name) + FieldTail(f, more)) == Some(([f] + fs, rest))
  {
    TakeTerminated(f.name, FieldTail(f, more));
    FieldLayout(f, more);
  }

  lemma {:induction false} FieldsRoundTrip(fs: seq<Field>, rest: Bytes)
    requires forall i :: 0 <= i < |fs| ==> FieldFits(fs[i])
    ensures TakeFields(|fs|, FieldsBytes(fs) + rest) == Some((fs, rest))
  {
    if fs == [] {
      assert FieldsBytes(fs) + rest == rest;
    } else {
      var f, more := fs[0], FieldsBytes(fs[1..]) + rest;
      FieldsRoundTrip(fs[1..], rest);
      Assoc(FieldBytes(f), FieldsBytes(fs[1..]), rest);
      FieldGroup(f, more);
      TakeFieldsStep(|fs| - 1, f, more, fs[1..], rest);
      assert fs == [f] + fs[1..];
    }
  }

  lemma CellRoundTrip(c: Option<Bytes>, rest: Bytes)
    requires c.Some? ==> |c.value| < TWO31
    ensures TakeCell(CellBytes(c) + rest) == Some((c, rest))
  {
    match c
    case None => Int32Be32(-1, rest);
    case Some(v) =>
      var b := CellBytes(c) + rest;
      Int32Be32(|v|, v + rest);
      assert b == Be32(|v|) + (v + rest);
      assert b[4..4 + |v|] == v && b[4 + |v|..] == rest;
  }

  lemma CellsSplit(cs: seq<Option<Bytes>>)
    requires cs != []
    ensures CellsBytes(cs) == CellBytes(cs[0]) + CellsBytes(cs[1..])
    ensures cs[0].Some? ==> |cs[0].value| <= |CellBytes(cs[0])|
  {
  }

  lemma TakeCellsStep(n: nat, b: Bytes, c: Option<Bytes>, more: Bytes, cs: seq<Option<Bytes>>, rest: Bytes)
    requires TakeCell(b) == Some((c, more)) && TakeCells(n, more) == Some((cs, rest))
    ensures TakeCells(n + 1, b) == Some(([c] + cs, rest))
  {
  }

  lemma {:induction false} CellsRoundTrip(cs: seq<Option<Bytes>>, rest: Bytes)
    requires |CellsBytes(cs)| < TWO31
    ensures TakeCells(|cs|, CellsBytes(cs) + rest) == Some((cs, rest))
  {
    if cs == [] {
      assert CellsBytes(cs) + rest == rest;
    } else {
      CellsSplit(cs);
      var more := CellsBytes(cs[1..]) + rest;
      Assoc(CellBytes(cs[0]), CellsBytes(cs[1..]), rest);
      CellRoundTrip(cs[0], more);
      CellsRoundTrip(cs[1..], rest);
      TakeCellsStep(|cs| - 1, CellsBytes(cs) + rest, cs[0], more, cs[1..], rest);
      Uncons(cs);
    }
  }

  lemma {:induction false} PartsRoundTrip(ps: seq<(byte, Bytes)>)
    requires forall i :: 0 <= i < |ps| ==> ps[i].0 != 0 && CString(ps[i].1)
    ensures TakeParts(PartsBytes(ps) + [0]) == Some(ps)
  {
    var b := PartsBytes(ps) + [0];
    if ps == [] {
      assert b == [0];
    } else {
      var more := PartsBytes(ps[1..]) + [0];
      assert b[0] == ps[0].0 && b[1..] == Terminated(ps[0].1) + more;
      TakeTerminated(ps[0].1, more);
      PartsRoundTrip(ps[1..]);
      assert ps == [ps[0]] + ps[1..];
    }
  }

  lemma DescriptionRoundTrip(fields: seq<Field>)
    requires |fields| < 0x8000 && forall i :: 0 <= i < |fields| ==> FieldFits(fields[i])
    ensures DecodeDescription(Be16(|fields|) + FieldsBytes(fields)) == Some(RowDescription(fields))
  {
    Int16Be16(|fields|, FieldsBytes(fields));
    FieldsRoundTrip(fields, []);
    assert FieldsBytes(fields) + [] == FieldsBytes(fields);
  }

  lemma RowRoundTrip(cells: seq<Option<Bytes>>)
    requires |cells| < 0x8000 && |CellsBytes(cells)| < TWO31
    ensures DecodeRow(Be16(|cells|) + CellsBytes(cells)) == Some(DataRow(cells))
  {
    Int16Be16(|cells|, CellsBytes(cells));
    CellsRoundTrip(cells, []);
    assert CellsBytes(cells) + [] == CellsBytes(cells);
  }

  lemma StringMessages(m: Msg)
    requires Fits(m) && (m.ParameterStatus? || m.CommandComplete? || m.ErrorResponse?)
    ensures Decode(TypeByte(m), Payload(m)) == Some(m)
  {
    match m
    case ParameterStatus(name, value) =>
      TakeTerminated(name, Terminated(value));
      TakeTerminated(value, []);
      assert Terminated(value) + [] == Terminated(value);
    case CommandComplete(tag) =>
      TakeTerminated(tag, []);
      assert Terminated(tag) + [] == Terminated(tag);
    case ErrorResponse(parts) =>
      PartsRoundTrip(parts);
  }

  /** Reading a written message gives it back; NULL and the empty value stay apart. */
  lemma MessageRoundTrip(m: Msg)
    requires Fits(m)
    ensures Decode(TypeByte(m), Payload(m)) == Some(m)
  {
    match m
    case BackendKey(pid, key) =>
      Int32Be32(pid, Be32(key));
      Int32Be32(key, []);
      assert Be32(key) + [] == Be32(key);
    case AuthOk =>
      Int32Be32(0, []);
      assert Be32(0) + [] == Be32(0);
    case RowDescription(fields) => DescriptionRoundTrip(fields);
    case DataRow(cells) => RowRoundTrip(cells);
    case ParameterStatus(_, _) => StringMessages(m);
    case CommandComplete(_) => StringMessages(m);
    case ErrorResponse(_) => StringMessages(m);
    case CopyInResponse(n) => CopyHeader(n);
    case CopyOutResponse(n) => CopyHeader(n);
    case _ =>
  }

  lemma {:induction false} ZerosAre(n: nat)
    ensures |Zeros16(n)| == 2 * n && forall i :: 0 <= i < 2 * n ==> Zeros16(n)[i] == 0
  {
    if n > 0 {
      ZerosAre(n - 1);
    }
  }

  lemma CopyHeader(n: nat)
    requires n < 0x8000
    ensures var b := [0] + Be16(n) + Zeros16(n); PlainCopy(b) && Int16(b[1..]) == n
  {
    ZerosAre(n);
    Int16Be16(n, Zeros16(n));
    assert ([0] + Be16(n) + Zeros16(n))[1..] == Be16(n) + Zeros16(n);
  }

  /** The stream of messages is read back message by message, so it has only one reading. */
  lemma {:induction false} StreamRoundTrip(ms: seq<Msg>)
    requires forall i :: 0 <= i < |ms| ==> Fits(ms[i])
    ensures DecodeAll(EncodeAll(ms)) == Some(ms)
  {
    if ms != [] {
      DecodeFirst(ms[0], EncodeAll(ms[1..]));
      StreamRoundTrip(ms[1..]);
      Uncons(ms);
    }
  }

  lemma DecodeFirst(m: Msg, rest: Bytes)
    requires Fits(m)
    ensures var all := DecodeAll(rest);
            DecodeAll(Encode(m) + rest) == if all.None? then None else Some([m] + all.value)
  {
    FrameRoundTrip(TypeByte(m), Payload(m), rest);
    MessageRoundTrip(m);
  }

  // ---------- A stream that was cut off ----------

  predicate AllFit(ms: seq<Msg>) {
    forall i :: 0 <= i < |ms| ==> Fits(ms[i])
  }

  /** The whole messages at the front, and the bytes behind them. */
  function DecodeSome(b: Bytes): (seq<Msg>, Bytes)
    decreases |b|
  {
    var f := TakeFrame(b);
    if f.None? || Decode(f.value.0, f.value.1).None? then ([], b)
    else
      var (ms, rest) := DecodeSome(f.value.2);
      ([Decode(f.value.0, f.value.1).value] + ms, rest)
  }

  /** What arrives is the first messages and then a part of the next. */
  predicate IsPrefixOf(b: Bytes, ms: seq<Msg>) {
    var (got, rest) := DecodeSome(b);
    && got <= ms && b == EncodeAll(got) + rest && TakeFrame(rest).None?
    && if |got| < |ms| then rest < Encode(ms[|got|]) else rest == []
  }

  lemma PartOfFrame(m: Msg, b: Bytes)
    requires Fits(m) && b < Encode(m)
    ensures TakeFrame(b).None?
  {
    if |b| >= 5 {
      FrameRoundTrip(TypeByte(m), Payload(m), []);
      assert b[1..][..4] == Encode(m)[1..][..4];
      assert Int32(b[1..]) == Int32(Encode(m)[1..]);
    }
  }

  lemma SplitPrefix(e: Bytes, more: Bytes, b: Bytes)
    requires b <= e + more && |b| >= |e|
    ensures b == e + b[|e|..] && b[|e|..] <= more
  {
    assert e == (e + more)[..|e|] == b[..|e|];
    assert b[|e|..] == (e + more)[|e|..|b|] == more[..|b| - |e|];
  }

  lemma {:induction false} PrefixDecodes(ms: seq<Msg>, b: Bytes)
    requires AllFit(ms) && b <= EncodeAll(ms)
    ensures IsPrefixOf(b, ms)
  {
    if ms != [] {
      var e, more := Encode(ms[0]), EncodeAll(ms[1..]);
      if |b| < |e| {
        assert b <= e by { assert e == (e + more)[..|e|]; }
        PartOfFrame(ms[0], b);
        assert EncodeAll([]) + b == b;
      } else {
        var after := b[|e|..];
        SplitPrefix(e, more, b);
        PrefixDecodes(ms[1..], after);
        DecodeNext(ms[0], after);
        var (got, rest) := DecodeSome(after);
        assert ms == [ms[0]] + ms[1..] && ([ms[0]] + got)[1..] == got;
        Assoc(e, EncodeAll(got), rest);
      }
    }
  }

  lemma DecodeNext(m: Msg, after: Bytes)
    requires Fits(m)
    ensures DecodeSome(Encode(m) + after) == ([m] + DecodeSome(after).0, DecodeSome(after).1)
  {
    FrameRoundTrip(TypeByte(m), Payload(m), after);
    MessageRoundTrip(m);
  }
}
