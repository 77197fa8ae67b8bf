/** What a client gets for the results of one backend, read off the messages themselves. */
module Forwarding {
  import opened Wrappers
  import opened Wire
  import opened Results
  import opened Framing
  import opened Ownership
  import opened Sessions
  import opened Gather

  // ---------- Reading messages and results ----------

  function Pick<T>(ms: seq<Msg>, f: Msg -> Option<T>): seq<T> {
    if ms == [] then [] else Opt(f(ms[0])) + Pick(ms[1..], f)
  }

  function Each<T>(rs: seq<Result>, f: Result -> Option<T>): seq<T> {
    if rs == [] then [] else Opt(f(rs[0])) + Each(rs[1..], f)
  }

  function CellsIn(m: Msg): Option<Cells> {
    if m.DataRow? then Some(m.cells) else None
  }

  function FieldsIn(m: Msg): Option<seq<Field>> {
    if m.RowDescription? then Some(m.fields) else None
  }

  function TagIn(m: Msg): Option<Bytes> {
    if m.CommandComplete? then Some(m.tag) else None
  }

  function PartsIn(m: Msg): Option<seq<(byte, Bytes)>> {
    if m.ErrorResponse? then Some(m.parts) else None
  }

  function DataIn(m: Msg): Option<Bytes> {
    if m.CopyData? then Some(m.data) else None
  }

  /** A result that ends with a command tag. */
  function TagOf(r: Result): Option<Bytes> {
    if r.Tuples? || r.Command? then Some(r.tag) else None
  }

  function PartsOf(r: Result): Option<seq<(byte, Bytes)>> {
    if r.Fatal? then Some(r.parts) else None
  }

  /** A result set with columns. */
  function ColumnsOf(r: Result): Option<seq<Field>> {
    if r.Tuples? && r.fields != [] then Some(r.fields) else None
  }

  lemma {:induction false} PickConcat<T>(a: seq<Msg>, b: seq<Msg>, f: Msg -> Option<T>)
    ensures Pick(a + b, f) == Pick(a, f) + Pick(b, f)
  {
    if a == [] {
      assert a + b == b;
    } else {
      assert (a + b)[1..] == a[1..] + b;
      PickConcat(a[1..], b, f);
      Assoc(Opt(f(a[0])), Pick(a[1..], f), Pick(b, f));
    }
  }

  lemma {:induction false} PickNone<T>(ms: seq<Msg>, f: Msg -> Option<T>)
    requires forall i :: 0 <= i < |ms| ==> f(ms[i]).None?
    ensures Pick(ms, f) == []
  {
    if ms != [] {
      PickNone(ms[1..], f);
    }
  }

  lemma PickOne<T>(m: Msg, f: Msg -> Option<T>)
    ensures Pick([m], f) == Opt(f(m))
  {
    assert [m][1..] == [];
    assert Opt(f(m)) + [] == Opt(f(m));
  }

  lemma {:induction false} EachAppend<T>(rs: seq<Result>, r: Result, f: Result -> Option<T>)
    ensures Each(rs + [r], f) == Each(rs, f) + Opt(f(r))
  {
    if rs == [] {
      assert (rs + [r])[1..] == [];
    } else {
      assert (rs + [r])[1..] == rs[1..] + [r];
      EachAppend(rs[1..], r, f);
      Assoc(Opt(f(rs[0])), Each(rs[1..], f), Opt(f(r)));
    }
  }

  lemma {:induction false} DataRowsAre(rows: seq<Cells>)
    ensures |DataRows(rows)| == |rows| && forall i :: 0 <= i < |rows| ==> DataRows(rows)[i] == DataRow(rows[i])
  {
    if rows != [] {
      DataRowsAre(rows[1..]);
    }
  }

  lemma {:induction false} RowsPicked(rows: seq<Cells>)
    ensures Pick(DataRows(rows), CellsIn) == rows
  {
    if rows != [] {
      RowsPicked(rows[1..]);
      assert DataRows(rows)[1..] == DataRows(rows[1..]);
    }
  }

  lemma {:induction false} CopyMsgsAre(copied: seq<Bytes>)
    ensures |CopyMsgs(copied)| == |copied| && forall i :: 0 <= i < |copied| ==> CopyMsgs(copied)[i] == CopyData(copied[i])
  {
    if copied != [] {
      CopyMsgsAre(copied[1..]);
    }
  }

  // ---------- The reply, result by result ----------

  /** How many results come before a COPY starts. */
  function CopyAt(rs: seq<Result>): (n: nat)
    ensures n <= |rs| && (n < |rs| ==> rs[n].CopyIn? || rs[n].CopyOut?)
    ensures forall i :: 0 <= i < n ==> !rs[i].CopyIn? && !rs[i].CopyOut?
  {
    if rs == [] || rs[0].CopyIn? || rs[0].CopyOut? then 0
    else
      var n := CopyAt(rs[1..]);
      assert forall i :: 0 < i < n + 1 ==> rs[i] == rs[1..][i - 1];
      n + 1
  }

  function Before(rs: seq<Result>): seq<Result> {
    rs[..CopyAt(rs)]
  }

  /** The description that is due, or none. */
  function Head(fields: seq<Field>, due: bool): seq<Msg> {
    if due && fields != [] then [RowDescription(fields)] else []
  }

  /** A result set is its rows between its description, if that is due, and its tag. */
  function Block(r: Result, due: bool): seq<Msg> {
    match r
    case Tuples(fields, rows, tag) =>
      Head(fields, due) + DataRows(rows) + [CommandComplete(tag)]
    case Command(tag) => [CommandComplete(tag)]
    case Fatal(parts) => [ErrorResponse(parts)]
    case _ => []
  }

  /** There is a result set among the results. */
  predicate HasTuples(rs: seq<Result>) {
    rs != [] && (rs[0].Tuples? || HasTuples(rs[1..]))
  }

  /** Result by result: a description is due for the first result set alone. */
  function Blocks(rs: seq<Result>, due: bool): seq<Msg> {
    if rs == [] then []
    else
      var front := rs[..|rs| - 1];
      Blocks(front, due) + Block(rs[|rs| - 1], due && !HasTuples(front))
  }

  lemma BlocksAppend(rs: seq<Result>, r: Result, due: bool)
    ensures Blocks(rs + [r], due) == Blocks(rs, due) + Block(r, due && !HasTuples(rs))
  {
    assert (rs + [r])[..|rs|] == rs;
  }

  lemma {:induction false} FirstBlock(r: Result, rs: seq<Result>, due: bool)
    ensures Blocks([r] + rs, due) == Block(r, due) + Blocks(rs, due && !r.Tuples?)
  {
    if rs == [] {
      assert [r] + rs == [] + [r];
      BlocksAppend([], r, due);
      assert [] + Block(r, due) == Block(r, due) + [];
    } else {
      var front, last := rs[..|rs| - 1], rs[|rs| - 1];
      assert rs == front + [last] && [r] + rs == ([r] + front) + [last];
      FirstBlock(r, front, due);
      BlocksAppend([r] + front, last, due);
      BlocksAppend(front, last, due && !r.Tuples?);
      assert ([r] + front)[1..] == front;
      Assoc(Block(r, due), Blocks(front, due && !r.Tuples?), Block(last, due && !r.Tuples? && !HasTuples(front)));
    }
  }

  /** What a COPY starts with. */
  function CopyStart(rs: seq<Result>): seq<Msg> {
    if CopyAt(rs) == |rs| then []
    else match rs[CopyAt(rs)]
      case CopyIn(n) => [CopyInResponse(n)]
      case CopyOut(n) => [CopyOutResponse(n)]
      case _ => []
  }

  /** One result in front of the others. */
  lemma SingleNext(rs: seq<Result>, header: bool)
    requires rs != [] && !rs[0].CopyIn? && !rs[0].CopyOut?
    ensures var next := SingleMsgs(rs[1..], header || rs[0].Tuples?);
            SingleMsgs(rs, header) == (Block(rs[0], !header) + next.0, next.1)
  {
    var next := SingleMsgs(rs[1..], header || rs[0].Tuples?).0;
    assert [] + next == next;
  }

  /** The reply is the blocks of the results up to the first COPY, in order, and the start of that COPY. */
  lemma {:induction false} SingleBlocks(rs: seq<Result>, header: bool)
    ensures SingleMsgs(rs, header).0 == Blocks(Before(rs), !header) + CopyStart(rs)
    ensures SingleMsgs(rs, header).1 == if CopyAt(rs) == |rs| then Drained
                                        else if rs[CopyAt(rs)].CopyIn? then ToCopyIn else ToCopyOut
  {
    if rs != [] && !rs[0].CopyIn? && !rs[0].CopyOut? {
      var rest, h := rs[1..], header || rs[0].Tuples?;
      SingleNext(rs, header);
      SingleBlocks(rest, h);
      assert Before(rs) == [rs[0]] + Before(rest);
      FirstBlock(rs[0], Before(rest), !header);
      Assoc(Block(rs[0], !header), Blocks(Before(rest), !h), CopyStart(rest));
    }
  }

  // ---------- What is in it ----------

  lemma BlockReads(r: Result, due: bool)
    requires !r.CopyIn? && !r.CopyOut?
    ensures var b := Block(r, due);
            && Pick(b, CellsIn) == (if r.Tuples? then r.rows else [])
            && Pick(b, FieldsIn) == (if due then Opt(ColumnsOf(r)) else [])
            && Pick(b, TagIn) == Opt(TagOf(r)) && Pick(b, PartsIn) == Opt(PartsOf(r))
  {
    match r
    case Tuples(fields, rows, tag) => TuplesRead(fields, rows, tag, due);
    case Command(tag) => CommandReads(CommandComplete(tag));
    case Fatal(parts) => CommandReads(ErrorResponse(parts));
    case _ =>
  }

  lemma CommandReads(m: Msg)
    ensures Pick([m], CellsIn) == Opt(CellsIn(m)) && Pick([m], FieldsIn) == Opt(FieldsIn(m))
    ensures Pick([m], TagIn) == Opt(TagIn(m)) && Pick([m], PartsIn) == Opt(PartsIn(m))
  {
    PickOne(m, CellsIn);
    PickOne(m, FieldsIn);
    PickOne(m, TagIn);
    PickOne(m, PartsIn);
  }

  lemma PickThree<T>(a: seq<Msg>, b: seq<Msg>, m: Msg, f: Msg -> Option<T>)
    ensures Pick(a + b + [m], f) == Pick(a, f) + Pick(b, f) + Opt(f(m))
  {
    PickConcat(a + b, [m], f);
    PickConcat(a, b, f);
    PickOne(m, f);
  }

  lemma NothingInRows<T>(rows: seq<Cells>, f: Msg -> Option<T>)
    requires forall m: Msg :: m.DataRow? ==> f(m).None?
    ensures Pick(DataRows(rows), f) == []
  {
    DataRowsAre(rows);
    PickNone(DataRows(rows), f);
  }

  lemma HeadReads<T>(fields: seq<Field>, due: bool, f: Msg -> Option<T>)
    ensures Pick(Head(fields, due), f) == if due && fields != [] then Opt(f(RowDescription(fields))) else []
  {
    PickOne(RowDescription(fields), f);
  }

  lemma TuplesCells(fields: seq<Field>, rows: seq<Cells>, tag: Bytes, due: bool)
    ensures Pick(Head(fields, due) + DataRows(rows) + [CommandComplete(tag)], CellsIn) == rows
  {
    RowsPicked(rows);
    HeadReads(fields, due, CellsIn);
    PickThree(Head(fields, due), DataRows(rows), CommandComplete(tag), CellsIn);
    assert [] + rows + [] == rows;
  }

  lemma TuplesRest<T>(fields: seq<Field>, rows: seq<Cells>, tag: Bytes, due: bool, f: Msg -> Option<T>)
    requires forall m: Msg :: m.DataRow? ==> f(m).None?
    ensures Pick(Head(fields, due) + DataRows(rows) + [CommandComplete(tag)], f)
            == (if due && fields != [] then Opt(f(RowDescription(fields))) else []) + Opt(f(CommandComplete(tag)))
  {
    NothingInRows(rows, f);
    HeadReads(fields, due, f);
    PickThree(Head(fields, due), DataRows(rows), CommandComplete(tag), f);
    var h := Pick(Head(fields, due), f);
    assert h + [] == h;
  }

  lemma TuplesRead(fields: seq<Field>, rows: seq<Cells>, tag: Bytes, due: bool)
    ensures var b := Block(Tuples(fields, rows, tag), due);
            && Pick(b, CellsIn) == rows && Pick(b, FieldsIn) == (if due && fields != [] then [fields] else [])
            && Pick(b, TagIn) == [tag] && Pick(b, PartsIn) == []
  {
    TuplesCells(fields, rows, tag, due);
    TuplesRest(fields, rows, tag, due, FieldsIn);
    TuplesRest(fields, rows, tag, due, TagIn);
    TuplesRest(fields, rows, tag, due, PartsIn);
  }

  /** The columns of the first result set, if it has any. */
  function FirstColumns(rs: seq<Result>): seq<seq<Field>> {
    if rs == [] then [] else if rs[0].Tuples? then Opt(ColumnsOf(rs[0])) else FirstColumns(rs[1..])
  }

  lemma {:induction false} FirstColumnsAppend(rs: seq<Result>, r: Result)
    ensures FirstColumns(rs + [r]) == FirstColumns(rs) + if HasTuples(rs) then [] else Opt(ColumnsOf(r))
  {
    if rs == [] {
      assert (rs + [r])[1..] == [];
    } else {
      assert (rs + [r])[1..] == rs[1..] + [r];
      if !rs[0].Tuples? {
        FirstColumnsAppend(rs[1..], r);
      }
    }
  }

  lemma {:induction false} RowsAppend(rs: seq<Result>, r: Result)
    ensures RowsOf(rs + [r]) == RowsOf(rs) + if r.Tuples? then r.rows else []
  {
    RowsOfConcat(rs, [r]);
    assert [r][1..] == [];
  }

  lemma NoDataInBlock(r: Result, due: bool)
    ensures Pick(Block(r, due), DataIn) == []
  {
    match r
    case Tuples(fields, rows, tag) => TuplesRest(fields, rows, tag, due, DataIn);
    case Command(tag) => PickOne(CommandComplete(tag), DataIn);
    case Fatal(parts) => PickOne(ErrorResponse(parts), DataIn);
    case _ =>
  }

  /** Rows, description, tags and errors of the results, each in order and none other, and no COPY data. */
  predicate Reads(ms: seq<Msg>, rs: seq<Result>) {
    && Pick(ms, CellsIn) == RowsOf(rs) && Pick(ms, FieldsIn) == FirstColumns(rs)
    && Pick(ms, TagIn) == Each(rs, TagOf) && Pick(ms, PartsIn) == Each(rs, PartsOf)
    && Pick(ms, DataIn) == []
  }

  lemma ReadsAppend(ms: seq<Msg>, rs: seq<Result>, r: Result)
    requires Reads(ms, rs) && !r.CopyIn? && !r.CopyOut?
    ensures Reads(ms + Block(r, !HasTuples(rs)), rs + [r])
  {
    var b := Block(r, !HasTuples(rs));
    BlockReads(r, !HasTuples(rs));
    PickConcat(ms, b, CellsIn);
    PickConcat(ms, b, FieldsIn);
    PickConcat(ms, b, TagIn);
    PickConcat(ms, b, PartsIn);
    NoDataInBlock(r, !HasTuples(rs));
    PickConcat(ms, b, DataIn);
    RowsAppend(rs, r);
    FirstColumnsAppend(rs, r);
    EachAppend(rs, r, TagOf);
    EachAppend(rs, r, PartsOf);
  }

  lemma {:induction false} BlocksRead(rs: seq<Result>)
    requires forall i :: 0 <= i < |rs| ==> !rs[i].CopyIn? && !rs[i].CopyOut?
    ensures Reads(Blocks(rs, true), rs)
  {
    if rs != [] {
      var front, last := rs[..|rs| - 1], rs[|rs| - 1];
      BlocksRead(front);
      assert rs == front + [last];
      ReadsAppend(Blocks(front, true), front, last);
    }
  }

  lemma ReadsBehind(ms: seq<Msg>, more: seq<Msg>, rs: seq<Result>)
    requires Reads(ms, rs)
    requires forall i :: 0 <= i < |more| ==> more[i].CopyInResponse? || more[i].CopyOutResponse?
    ensures Reads(ms + more, rs)
  {
    PickConcat(ms, more, CellsIn);
    PickConcat(ms, more, FieldsIn);
    PickConcat(ms, more, TagIn);
    PickConcat(ms, more, PartsIn);
    PickNone(more, CellsIn);
    PickNone(more, FieldsIn);
    PickNone(more, TagIn);
    PickNone(more, PartsIn);
    PickConcat(ms, more, DataIn);
    PickNone(more, DataIn);
  }

  /**
   A reply without COPY OUT data: the rows of the results up to the first COPY, the one description, a tag
   for each result set and command and an error for each failure, each in the order of the results.
   */
  lemma SingleReads(rs: seq<Result>)
    ensures Reads(SingleMsgs(rs, false).0, Before(rs))
  {
    SingleBlocks(rs, false);
    BlocksRead(Before(rs));
    ReadsBehind(Blocks(Before(rs), true), CopyStart(rs), Before(rs));
  }

  // ---------- The whole reply ----------

  /** At the end of a COPY OUT, CopyDone and the tag of its result, if that was a success. */
  function EndOf(copyEnd: CopyEnd): seq<Msg> {
    match copyEnd
    case NotYet => []
    case AtEnd(tag) => [CopyDone] + if tag.Some? then [CommandComplete(tag.value)] else []
  }

  /** What follows the start of a COPY OUT. */
  function CopyTail(copied: seq<Bytes>, copyEnd: CopyEnd): seq<Msg> {
    CopyMsgs(copied) + EndOf(copyEnd)
  }

  /** The blocks of the results, the start of a COPY, and for COPY OUT its data and its end; and what happens next. */
  lemma ReplyExactly(rs: seq<Result>, copied: seq<Bytes>, copyEnd: CopyEnd)
    ensures var n := CopyAt(rs);
            var out := n < |rs| && rs[n].CopyOut?;
            && ReplyOf(rs, copied, copyEnd).0
               == Blocks(Before(rs), true) + CopyStart(rs) + (if out then CopyTail(copied, copyEnd) else [])
            && ReplyOf(rs, copied, copyEnd).1
               == if n < |rs| && rs[n].CopyIn? then COPY_IN else if out && copyEnd.NotYet? then COPY_OUT else READY
  {
    SingleBlocks(rs, false);
    var ms := SingleMsgs(rs, false).0;
    assert ms + [] == ms;
    if copyEnd.AtEnd? {
      Assoc(ms, CopyMsgs(copied), [CopyDone] + if copyEnd.tag.Some? then [CommandComplete(copyEnd.tag.value)] else []);
    } else {
      assert CopyMsgs(copied) + [] == CopyMsgs(copied);
    }
  }

  lemma {:induction false} CopiedPicked(copied: seq<Bytes>)
    ensures Pick(CopyMsgs(copied), DataIn) == copied
  {
    if copied != [] {
      CopiedPicked(copied[1..]);
      assert CopyMsgs(copied)[1..] == CopyMsgs(copied[1..]);
    }
  }

  lemma CopyTailReads(copied: seq<Bytes>, copyEnd: CopyEnd)
    ensures Pick(CopyTail(copied, copyEnd), DataIn) == copied && Pick(CopyTail(copied, copyEnd), CellsIn) == []
  {
    NothingAtEnd(copyEnd);
    CopiedPicked(copied);
    PickConcat(CopyMsgs(copied), EndOf(copyEnd), DataIn);
    assert copied + [] == copied;
    NoCellsInCopies(copied);
    PickConcat(CopyMsgs(copied), EndOf(copyEnd), CellsIn);
  }

  lemma NothingAtEnd(copyEnd: CopyEnd)
    ensures Pick(EndOf(copyEnd), DataIn) == [] && Pick(EndOf(copyEnd), CellsIn) == []
  {
    PickNone(EndOf(copyEnd), DataIn);
    PickNone(EndOf(copyEnd), CellsIn);
  }

  lemma {:induction false} NoCellsInCopies(copied: seq<Bytes>)
    ensures Pick(CopyMsgs(copied), CellsIn) == []
  {
    if copied != [] {
      NoCellsInCopies(copied[1..]);
      assert CopyMsgs(copied)[1..] == CopyMsgs(copied[1..]);
    }
  }

  /** The rows of a reply are those of its results, in order. */
  lemma ReplyRows(rs: seq<Result>, copied: seq<Bytes>, copyEnd: CopyEnd)
    ensures Pick(ReplyOf(rs, copied, copyEnd).0, CellsIn) == RowsOf(Before(rs))
  {
    var front := Blocks(Before(rs), true) + CopyStart(rs);
    var tail := if CopyAt(rs) < |rs| && rs[CopyAt(rs)].CopyOut? then CopyTail(copied, copyEnd) else [];
    ReplyExactly(rs, copied, copyEnd);
    SingleReads(rs);
    SingleBlocks(rs, false);
    CopyTailReads(copied, copyEnd);
    PickConcat(front, tail, CellsIn);
  }

  /** Its COPY data is the data read, in order. */
  lemma ReplyData(rs: seq<Result>, copied: seq<Bytes>, copyEnd: CopyEnd)
    ensures Pick(ReplyOf(rs, copied, copyEnd).0, DataIn)
            == if CopyAt(rs) < |rs| && rs[CopyAt(rs)].CopyOut? then copied else []
  {
    var front := Blocks(Before(rs), true) + CopyStart(rs);
    var tail := if CopyAt(rs) < |rs| && rs[CopyAt(rs)].CopyOut? then CopyTail(copied, copyEnd) else [];
    ReplyExactly(rs, copied, copyEnd);
    CopyTailReads(copied, copyEnd);
    PickConcat(front, tail, DataIn);
    SingleReads(rs);
    SingleBlocks(rs, false);
  }

  // ---------- One description for several result sets ----------

  lemma {:induction false} LaterColumns(rs: seq<Result>)
    ensures |FirstColumns(rs)| <= |Each(rs, ColumnsOf)|
    ensures FirstColumns(rs) == Each(rs, ColumnsOf) <==> OneDescribed(rs)
  {
    if rs != [] {
      var rest := rs[1..];
      LaterColumns(rest);
      if rs[0].Tuples? {
        NoneDescribed(rest);
        assert |Each(rs, ColumnsOf)| == |Opt(ColumnsOf(rs[0]))| + |Each(rest, ColumnsOf)|;
        if Each(rest, ColumnsOf) == [] {
          assert Each(rs, ColumnsOf) == Opt(ColumnsOf(rs[0])) + [] == FirstColumns(rs);
        }
      } else {
        assert Each(rs, ColumnsOf) == [] + Each(rest, ColumnsOf) == Each(rest, ColumnsOf);
      }
    }
  }

  /** No result set behind the first one has columns. */
  predicate OneDescribed(rs: seq<Result>) {
    if rs == [] then true
    else if rs[0].Tuples? then NoColumns(rs[1..])
    else OneDescribed(rs[1..])
  }

  predicate NoColumns(rs: seq<Result>) {
    forall i :: 0 <= i < |rs| ==> ColumnsOf(rs[i]).None?
  }

  lemma {:induction false} NoneDescribed(rs: seq<Result>)
    ensures Each(rs, ColumnsOf) == [] <==> NoColumns(rs)
  {
    if rs != [] {
      NoneDescribed(rs[1..]);
      assert NoColumns(rs) <==> ColumnsOf(rs[0]).None? && NoColumns(rs[1..]) by {
        assert forall i :: 0 < i < |rs| ==> rs[i] == rs[1..][i - 1];
        assert forall i :: 0 <= i < |rs| - 1 ==> rs[1..][i] == rs[i + 1];
      }
    }
  }

  /** Every result set with columns is described exactly when there is none behind the first result set. */
  lemma AllDescribedExactly(rs: seq<Result>)
    ensures Pick(SingleMsgs(rs, false).0, FieldsIn) == Each(Before(rs), ColumnsOf) <==> OneDescribed(Before(rs))
  {
    SingleReads(rs);
    LaterColumns(Before(rs));
  }

  lemma OneSet(f: Field, row: Cells, tag: Bytes, header: bool)
    ensures SingleMsgs([Tuples([f], [row], tag)], header).0
            == (if header then [] else [RowDescription([f])]) + [DataRow(row), CommandComplete(tag)]
    ensures SingleMsgs([Tuples([f], [row], tag)], header).1 == Drained
  {
    var r := Tuples([f], [row], tag);
    assert [r][1..] == [] && [row][1..] == [];
    assert DataRows([row]) == [DataRow(row)];
    assert SingleMsgs([r], header).0 == Forward([f], [row], !header) + [CommandComplete(tag)] + [];
  }

  /** A SELECT routed to one shard. */
  lemma OneRowReply(f: Field, row: Cells, tag: Bytes)
    ensures var (ms, st) := ReplyOf([Tuples([f], [row], tag)], [], NotYet);
            ms == [RowDescription([f]), DataRow(row), CommandComplete(tag)] && st == READY
  {
    OneSet(f, row, tag, false);
  }

  /** Two result sets of one query: the rows of the second come under the description of the first. */
  lemma SecondUndescribed(f: Field, g: Field, a: Cells, b: Cells, t: Bytes)
    ensures var (ms, st) := ReplyOf([Tuples([f], [a], t), Tuples([g], [b], t)], [], NotYet);
            ms == [RowDescription([f]), DataRow(a), CommandComplete(t), DataRow(b), CommandComplete(t)] && st == READY
  {
    var r, q := Tuples([f], [a], t), Tuples([g], [b], t);
    assert [r, q][1..] == [q] && [a][1..] == [];
    OneSet(g, b, t, true);
    assert DataRows([a]) == [DataRow(a)];
    assert SingleMsgs([r, q], false).0
        == Forward([f], [a], true) + [CommandComplete(t)] + ([] + [DataRow(b), CommandComplete(t)]);
  }
}
