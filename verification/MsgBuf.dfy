/** src/protocol/message.c: the growable message buffer, its primitives and the message writers. */
module MsgBuf {
  import opened Wrappers
  import opened Wire

  class MsgBuf {
    var data: array<byte>
    var len: nat
    var pos: nat

    ghost predicate Valid()
      reads this
    {
      0 < data.Length && len <= data.Length && pos <= len
    }

    ghost function Contents(): Bytes
      requires Valid()
      reads this, data
    {
      data[..len]
    }

    constructor (capacity: nat)
      requires capacity > 0
      ensures Valid() && fresh(data) && Contents() == [] && pos == 0
    {
      data := new byte[capacity](_ => 0);
      len, pos := 0, 0;
    }

    method Reset()
      requires Valid()
      modifies this
      ensures Valid() && Contents() == [] && pos == 0 && data == old(data)
    {
      len, pos := 0, 0;
    }

    /** Doubles the capacity until the additional bytes fit; the contents stay. */
    method Ensure(additional: nat)
      requires Valid()
      modifies this
      ensures Valid() && len + additional <= data.Length
      ensures len == old(len) && pos == old(pos) && Contents() == old(Contents())
      ensures data == old(data) || fresh(data)
    {
      if len + additional <= data.Length {
        return;
      }
      var cap := data.Length * 2;
      while cap < len + additional
        invariant cap > data.Length
        decreases len + additional - cap
      {
        cap := cap * 2;
      }
      var bigger := new byte[cap](_ => 0);
      forall i | 0 <= i < len {
        bigger[i] := data[i];
      }
      data := bigger;
    }

    method PutByte(v: byte)
      requires Valid()
      modifies this, data
      ensures Valid() && Contents() == old(Contents()) + [v] && pos == old(pos)
      ensures data == old(data) || fresh(data)
    {
      Ensure(1);
      data[len] := v;
      len := len + 1;
    }

    method PutBytes(s: Bytes)
      requires Valid()
      modifies this, data
      ensures Valid() && Contents() == old(Contents()) + s && pos == old(pos)
      ensures data == old(data) || fresh(data)
    {
      Ensure(|s|);
      var at := len;
      forall i | 0 <= i < |s| {
        data[at + i] := s[i];
      }
      len := len + |s|;
      assert data[..at] == old(Contents());
      assert data[..len] == data[..at] + s;
    }

    method PutInt16(v: int)
      requires Valid()
      modifies this, data
      ensures Valid() && Contents() == old(Contents()) + Be16(v) && pos == old(pos)
      ensures data == old(data) || fresh(data)
      // high byte first
      ensures var n := |old(Contents())|; Contents()[n] as int * 256 + Contents()[n + 1] as int == v % 65536
    {
      PutBytes(Be16(v));
    }

    method PutInt32(v: int)
      requires Valid()
      modifies this, data
      ensures Valid() && Contents() == old(Contents()) + Be32(v) && pos == old(pos)
      ensures data == old(data) || fresh(data)
    {
      PutBytes(Be32(v));
    }

    method PutString(s: Bytes)
      requires Valid() && CString(s)
      modifies this, data
      ensures Valid() && Contents() == old(Contents()) + Terminated(s) && pos == old(pos)
      ensures data == old(data) || fresh(data)
    {
      PutBytes(Terminated(s));
    }

    // ---------- Reading ----------

    method GetInt32() returns (v: int)
      requires Valid() && pos + 4 <= len
      modifies this`pos
      ensures Valid() && pos == old(pos) + 4
      ensures v == Int32(Contents()[old(pos)..])
    {
      v := Int32(data[pos..pos + 4]);
      pos := pos + 4;
    }

    method GetInt16() returns (v: int)
      requires Valid() && pos + 2 <= len
      modifies this`pos
      ensures Valid() && pos == old(pos) + 2
      ensures v == Int16(Contents()[old(pos)..])
      // high byte first
      ensures var hi, lo := Contents()[old(pos)] as int, Contents()[old(pos) + 1] as int;
              v == hi * 256 + lo - if hi >= 128 then 65536 else 0
    {
      v := Int16(data[pos..pos + 2]);
      pos := pos + 2;
    }

    method GetString() returns (s: Bytes)
      requires Valid() && 0 in Contents()[pos..]
      modifies this`pos
      ensures Valid() && TakeString(Contents()[old(pos)..]) == Some((s, Contents()[pos..]))
    {
      ghost var all := Contents();
      var i := pos;
      s := [];
      ZeroEnds(all[i..]);
      assert [] + TakeString(all[i..]).value.0 == TakeString(all[i..]).value.0;
      while data[i] != 0
        invariant pos == old(pos) && pos <= i < len && Contents() == all && TakeString(all[i..]).Some?
        invariant var t := TakeString(all[i..]).value; TakeString(all[pos..]) == Some((s + t.0, t.1))
        decreases len - i
      {
        NextByte(all, i, s);
        s := s + [data[i]];
        i := i + 1;
      }
      assert TakeString(all[i..]) == Some(([], all[i..][1..])) && all[i..][1..] == all[i + 1..];
      assert s + [] == s;
      pos := i + 1;
    }

    // ---------- Framed messages ----------

    method Begin(t: byte) returns (off: nat)
      requires Valid()
      modifies this, data
      ensures Valid() && Contents() == old(Contents()) + [t] + Be32(0)
      ensures off == old(len) + 1 && pos == old(pos)
      ensures data == old(data) || fresh(data)
    {
      PutByte(t);
      off := len;
      PutInt32(0);
    }

    /** Writes the length over the placeholder. */
    method End(off: nat, ghost before: Bytes, ghost t: byte, ghost payload: Bytes)
      requires Valid()
      requires Contents() == before + [t] + Be32(0) + payload && off == |before| + 1
      modifies data
      ensures Valid() && Contents() == before + Frame(t, payload) && pos == old(pos) && data == old(data)
    {
      ghost var was := Contents();
      Placeholder(before, t, Be32(0), payload);
      var n := Be32(len - off);
      forall i | 0 <= i < 4 {
        data[off + i] := n[i];
      }
      assert |payload| + 4 == len - off;
      ghost var after := before + Frame(t, payload);
      assert data[..off] == was[..off];
      assert data[off..off + 4] == n;
      assert data[off + 4..len] == was[off + 4..];
      assert data[..len] == data[..off] + data[off..off + 4] + data[off + 4..len];
    }

    method WriteAuthOk()
      requires Valid()
      modifies this, data
      ensures Valid() && Contents() == old(Contents()) + Encode(AuthOk)
      ensures data == old(data) || fresh(data)
    {
      ghost var before := Contents();
      var off := Begin(MSG_AUTH_REQUEST);
      PutInt32(0);
      End(off, before, MSG_AUTH_REQUEST, Payload(AuthOk));
    }

    method WriteParamStatus(name: Bytes, value: Bytes)
      requires Valid() && CString(name) && CString(value)
      modifies this, data
      ensures Valid() && Contents() == old(Contents()) + Encode(ParameterStatus(name, value))
      ensures data == old(data) || fresh(data)
    {
      ghost var before := Contents();
      var off := Begin(MSG_PARAM_STATUS);
      PutString(name);
      PutString(value);
      Assoc(before + [MSG_PARAM_STATUS] + Be32(0), Terminated(name), Terminated(value));
      End(off, before, MSG_PARAM_STATUS, Payload(ParameterStatus(name, value)));
    }

    method WriteBackendKey(pid: int, key: int)
      requires Valid()
      modifies this, data
      ensures Valid() && Contents() == old(Contents()) + Encode(BackendKey(pid, key))
      ensures data == old(data) || fresh(data)
    {
      ghost var before := Contents();
      var off := Begin(MSG_BACKEND_KEY);
      PutInt32(pid);
      PutInt32(key);
      Assoc(before + [MSG_BACKEND_KEY] + Be32(0), Be32(pid), Be32(key));
      End(off, before, MSG_BACKEND_KEY, Payload(BackendKey(pid, key)));
    }

    method WriteReadyForQuery(status: byte)
      requires Valid()
      modifies this, data
      ensures Valid() && Contents() == old(Contents()) + Encode(ReadyForQuery(status))
      ensures data == old(data) || fresh(data)
    {
      ghost var before := Contents();
      var off := Begin(MSG_READY_FOR_QUERY);
      PutByte(status);
      End(off, before, MSG_READY_FOR_QUERY, Payload(ReadyForQuery(status)));
    }

    method PutPart(tag: byte, s: Bytes)
      requires Valid() && CString(s)
      modifies this, data
      ensures Valid() && Contents() == old(Contents()) + Part((tag, s)) && pos == old(pos)
      ensures data == old(data) || fresh(data)
    {
      PutByte(tag);
      PutString(s);
    }

    method PutErrorParts(severity: Bytes, code: Bytes, message: Bytes)
      requires Valid() && CString(severity) && CString(code) && CString(message)
      modifies this, data
      ensures Valid() && pos == old(pos)
      ensures Contents() == old(Contents())
              + (Part(('S' as int, severity)) + Part(('C' as int, code)) + Part(('M' as int, message)) + [0])
      ensures data == old(data) || fresh(data)
    {
      ghost var before := Contents();
      PutPart('S' as int, severity);
      PutPart('C' as int, code);
      PutPart('M' as int, message);
      PutByte(0);
      Regroup(before, Part(('S' as int, severity)), Part(('C' as int, code)), Part(('M' as int, message)), [0]);
    }

    method WriteError(severity: Bytes, code: Bytes, message: Bytes)
      requires Valid() && CString(severity) && CString(code) && CString(message)
      modifies this, data
      ensures Valid()
      ensures Contents() == old(Contents())
              + Encode(ErrorResponse([('S' as int, severity), ('C' as int, code), ('M' as int, message)]))
      ensures data == old(data) || fresh(data)
    {
      ghost var before := Contents();
      var off := Begin(MSG_ERROR_RESPONSE);
      PutErrorParts(severity, code, message);
      ghost var s, c, m := ('S' as int, severity), ('C' as int, code), ('M' as int, message);
      ThreeParts(s, c, m);
      End(off, before, MSG_ERROR_RESPONSE, Part(s) + Part(c) + Part(m) + [0]);
    }

    method WriteCommandComplete(tag: Bytes)
      requires Valid() && CString(tag)
      modifies this, data
      ensures Valid() && Contents() == old(Contents()) + Encode(CommandComplete(tag))
      ensures data == old(data) || fresh(data)
    {
      ghost var before := Contents();
      var off := Begin(MSG_CMD_COMPLETE);
      PutString(tag);
      End(off, before, MSG_CMD_COMPLETE, Payload(CommandComplete(tag)));
    }
  }

  lemma Regroup(h: Bytes, a: Bytes, b: Bytes, c: Bytes, d: Bytes)
    ensures h + a + b + c + d == h + (a + b + c + d)
  {
  }

  lemma {:induction false} ZeroEnds(b: Bytes)
    requires 0 in b
    ensures TakeString(b).Some?
  {
    if b[0] != 0 {
      assert 0 in b[1..];
      ZeroEnds(b[1..]);
    }
  }

  lemma NextByte(all: Bytes, i: nat, s: Bytes)
    requires i < |all| && all[i] != 0 && TakeString(all[i..]).Some?
    ensures i + 1 < |all| && TakeString(all[i + 1..]).Some?
    ensures var t, u := TakeString(all[i..]).value, TakeString(all[i + 1..]).value;
            s + t.0 == (s + [all[i]]) + u.0 && t.1 == u.1
  {
    assert all[i..][1..] == all[i + 1..];
    var u := TakeString(all[i + 1..]).value;
    Assoc(s, [all[i]], u.0);
  }

  lemma Placeholder(before: Bytes, t: byte, zero: Bytes, payload: Bytes)
    requires |zero| == 4
    ensures var s := before + [t] + zero + payload;
            && |s| == |before| + 5 + |payload|
            && s[..|before| + 1] == before + [t] && s[|before| + 5..] == payload
  {
  }
}
