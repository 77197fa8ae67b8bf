/** Query results as libpq hands them over, and the messages that forward them. */
module Results {
  import opened Wrappers
  import opened Wire

  type Cells = seq<Option<Bytes>>

  datatype Result =
    | Tuples(fields: seq<Field>, rows: seq<Cells>, tag: Bytes)
    | Command(tag: Bytes)
    | Fatal(parts: seq<(byte, Bytes)>)
    | CopyIn(columns: nat)
    | CopyOut(columns: nat)
    | Ignored

  function DataRows(rows: seq<Cells>): seq<Msg> {
    if rows == [] then [] else [DataRow(rows[0])] + DataRows(rows[1..])
  }

  /** session_forward_result: a RowDescription if asked for and there are columns, then the rows. */
  function Forward(fields: seq<Field>, rows: seq<Cells>, header: bool): seq<Msg> {
    (if header && fields != [] then [RowDescription(fields)] else []) + DataRows(rows)
  }

  lemma {:induction false} DataRowsConcat(a: seq<Cells>, b: seq<Cells>)
    ensures DataRows(a + b) == DataRows(a) + DataRows(b)
  {
    if a == [] {
      assert a + b == b;
    } else {
      assert (a + b)[1..] == a[1..] + b;
      DataRowsConcat(a[1..], b);
    }
  }
}
