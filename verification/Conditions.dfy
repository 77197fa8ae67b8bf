/**
 What a WHERE tree means for a row, read from the tree by libpg_query's own node layout
 (third_party/libpg_query/src/include/pg_query_outfuncs_defs.c), and how the key that the parser
 reports relates to that meaning. Conditions other than AND, OR and `column = literal` are left
 to an arbitrary interpretation `cond`. Strings are identified by their JSON spelling.
 */
module Conditions {
  import opened Wrappers
  import opened JsonText
  import opened JsonScan
  import opened ParseTree

  datatype Value = IntV(n: int) | StrV(s: string)

  type Row = map<string, Value>

  // ---------- Reading comparisons ----------

  /** {"String":{"sval":s}} */
  function StringNode(j: Json): Option<string> {
    if j.Obj? && j.members.Member? && j.members.key == "String" && j.members.rest.NoMembers? then
      var s := j.members.value;
      if s.Obj? && s.members.Member? && s.members.key == "sval" && s.members.rest.NoMembers?
      then StringOf(s.members.value) else None
    else None
  }

  function OneString(j: Json): Option<string> {
    if j.Arr? && j.items.Item? && j.items.more.NoItems? then StringNode(j.items.value) else None
  }

  function OneStringAt(e: Json, key: string): Option<string> {
    if Get(e, key).Some? then OneString(Get(e, key).value) else None
  }

  function Enum(e: Json, key: string): Option<string> {
    if Get(e, key).Some? then StringOf(Get(e, key).value) else None
  }

  /** The literal in an A_Const node; an integer node prints its value unless it is 0. */
  function LiteralIn(c: Json): Option<Value> {
    var i, s := Get(c, "ival"), Get(c, "sval");
    if i.Some? then Some(IntV(if Get(i.value, "ival").Some? then IntOf(Get(i.value, "ival").value) else 0))
    else if s.Some? && Get(s.value, "sval").Some? && Get(s.value, "sval").value.Str?
    then Some(StrV(Get(s.value, "sval").value.body))
    else None
  }

  function ConstNode(e: Json): Option<Json> {
    if Get(e, "rexpr").Some? then Get(Get(e, "rexpr").value, "A_Const") else None
  }

  function ColumnName(e: Json): Option<string> {
    if FieldsOf(e).Some? then OneString(FieldsOf(e).value) else None
  }

  /** An A_Expr node that says `column = literal`. */
  function Equality(e: Json): Option<(string, Value)> {
    if Enum(e, "kind") == Some("AEXPR_OP") && OneStringAt(e, "name") == Some("=")
       && ColumnName(e).Some? && ConstNode(e).Some? && LiteralIn(ConstNode(e).value).Some?
    then Some((ColumnName(e).value, LiteralIn(ConstNode(e).value).value))
    else None
  }

  // ---------- The meaning of a condition ----------

  predicate Has(row: Row, c: string, v: Value) {
    c in row && row[c] == v
  }

  predicate Sat(w: Json, row: Row, cond: (Json, Row) -> bool)
    decreases Size(w)
  {
    var e, b := Get(w, "A_Expr"), Get(w, "BoolExpr");
    if e.Some? then
      (if Equality(e.value).Some? then Has(row, Equality(e.value).value.0, Equality(e.value).value.1)
       else cond(w, row))
    else if b.Some? && Args(b.value).Some? && Enum(b.value, "boolop") == Some("AND_EXPR") then
      SatAll(Args(b.value).value, row, cond)
    else if b.Some? && Args(b.value).Some? && Enum(b.value, "boolop") == Some("OR_EXPR") then
      SatAny(Args(b.value).value, row, cond)
    else cond(w, row)
  }

  function Args(b: Json): (r: Option<Items>)
    ensures r.Some? ==> SizeItems(r.value) < Size(b)
  {
    if Get(b, "args").Some? && Get(b, "args").value.Arr? then Some(Get(b, "args").value.items) else None
  }

  predicate SatAll(args: Items, row: Row, cond: (Json, Row) -> bool)
    decreases SizeItems(args)
  {
    args.Item? ==> Sat(args.value, row, cond) && SatAll(args.more, row, cond)
  }

  predicate SatAny(args: Items, row: Row, cond: (Json, Row) -> bool)
    decreases SizeItems(args)
  {
    args.Item? && (Sat(args.value, row, cond) || SatAny(args.more, row, cond))
  }

  // ---------- The equalities of a nested AND ----------

  function Conjuncts(w: Json): seq<(string, Value)>
    decreases Size(w)
  {
    var e, b := Get(w, "A_Expr"), Get(w, "BoolExpr");
    if e.Some? then (if Equality(e.value).Some? then [Equality(e.value).value] else [])
    else if b.Some? && Args(b.value).Some? && Enum(b.value, "boolop") == Some("AND_EXPR")
    then ConjunctsOf(Args(b.value).value)
    else []
  }

  function ConjunctsOf(args: Items): seq<(string, Value)>
    decreases SizeItems(args)
  {
    if args.NoItems? then [] else Conjuncts(args.value) + ConjunctsOf(args.more)
  }

  /** A row satisfies a nested AND only if it satisfies each of its equalities. */
  lemma {:induction false} SatConjuncts(w: Json, row: Row, cond: (Json, Row) -> bool)
    requires Sat(w, row, cond)
    ensures forall q :: q in Conjuncts(w) ==> Has(row, q.0, q.1)
    decreases Size(w)
  {
    var b := Get(w, "BoolExpr");
    if Get(w, "A_Expr").None? && b.Some? && Args(b.value).Some? && Enum(b.value, "boolop") == Some("AND_EXPR") {
      SatConjunctsOf(Args(b.value).value, row, cond);
    }
  }

  lemma {:induction false} SatConjunctsOf(args: Items, row: Row, cond: (Json, Row) -> bool)
    requires SatAll(args, row, cond)
    ensures forall q :: q in ConjunctsOf(args) ==> Has(row, q.0, q.1)
    decreases SizeItems(args)
  {
    if args.Item? {
      SatConjuncts(args.value, row, cond);
      SatConjunctsOf(args.more, row, cond);
    }
  }

  // ---------- The alternatives of a condition ----------

  type Clause = set<(string, Value)>

  function Join(a: set<Clause>, b: set<Clause>): set<Clause> {
    set x, y | x in a && y in b :: x + y
  }

  /** The equalities of each way to satisfy the condition: its disjunctive normal form, other conditions dropped. */
  function Alternatives(w: Json): set<Clause>
    decreases Size(w)
  {
    var e, b := Get(w, "A_Expr"), Get(w, "BoolExpr");
    if e.Some? then (if Equality(e.value).Some? then {{Equality(e.value).value}} else {{}})
    else if b.Some? && Args(b.value).Some? && Enum(b.value, "boolop") == Some("AND_EXPR") then
      AllAlternatives(Args(b.value).value)
    else if b.Some? && Args(b.value).Some? && Enum(b.value, "boolop") == Some("OR_EXPR") then
      AnyAlternative(Args(b.value).value)
    else {{}}
  }

  function AllAlternatives(args: Items): set<Clause>
    decreases SizeItems(args)
  {
    if args.NoItems? then {{}} else Join(Alternatives(args.value), AllAlternatives(args.more))
  }

  function AnyAlternative(args: Items): set<Clause>
    decreases SizeItems(args)
  {
    if args.NoItems? then {} else Alternatives(args.value) + AnyAlternative(args.more)
  }

  predicate Meets(row: Row, c: Clause) {
    forall q :: q in c ==> Has(row, q.0, q.1)
  }

  predicate MeetsOne(row: Row, cs: set<Clause>) {
    exists c :: c in cs && Meets(row, c)
  }

  lemma MeetsJoin(row: Row, a: set<Clause>, b: set<Clause>)
    ensures MeetsOne(row, Join(a, b)) <==> MeetsOne(row, a) && MeetsOne(row, b)
  {
    if MeetsOne(row, a) && MeetsOne(row, b) {
      var x :| x in a && Meets(row, x);
      var y :| y in b && Meets(row, y);
      assert x + y in Join(a, b) && Meets(row, x + y);
    }
    if MeetsOne(row, Join(a, b)) {
      var c :| c in Join(a, b) && Meets(row, c);
      var x, y :| x in a && y in b && c == x + y;
      assert Meets(row, x) && Meets(row, y);
    }
  }

  /** Taking every other condition to hold. */
  predicate Always(j: Json, row: Row) {
    true
  }

  /** A row that satisfies the condition meets one of its alternatives. */
  lemma {:induction false} SatMeets(w: Json, row: Row, cond: (Json, Row) -> bool)
    ensures Sat(w, row, cond) ==> MeetsOne(row, Alternatives(w))
    ensures Sat(w, row, Always) <==> MeetsOne(row, Alternatives(w))
    decreases Size(w)
  {
    var e, b := Get(w, "A_Expr"), Get(w, "BoolExpr");
    if e.None? && b.Some? && Args(b.value).Some? && Enum(b.value, "boolop") == Some("AND_EXPR") {
      SatMeetsAll(Args(b.value).value, row, cond);
    } else if e.None? && b.Some? && Args(b.value).Some? && Enum(b.value, "boolop") == Some("OR_EXPR") {
      SatMeetsAny(Args(b.value).value, row, cond);
    } else if e.Some? && Equality(e.value).Some? {
      var q := Equality(e.value).value;
      assert Alternatives(w) == {{q}};
      assert Meets(row, {q}) <==> Has(row, q.0, q.1);
    } else {
      assert {} in Alternatives(w) && Meets(row, {});
    }
  }

  lemma {:induction false} SatMeetsAll(args: Items, row: Row, cond: (Json, Row) -> bool)
    ensures SatAll(args, row, cond) ==> MeetsOne(row, AllAlternatives(args))
    ensures SatAll(args, row, Always) <==> MeetsOne(row, AllAlternatives(args))
    decreases SizeItems(args)
  {
    if args.NoItems? {
      assert {} in AllAlternatives(args) && Meets(row, {});
    } else {
      SatMeets(args.value, row, cond);
      SatMeetsAll(args.more, row, cond);
      MeetsJoin(row, Alternatives(args.value), AllAlternatives(args.more));
    }
  }

  lemma {:induction false} SatMeetsAny(args: Items, row: Row, cond: (Json, Row) -> bool)
    ensures SatAny(args, row, cond) ==> MeetsOne(row, AnyAlternative(args))
    ensures SatAny(args, row, Always) <==> MeetsOne(row, AnyAlternative(args))
    decreases SizeItems(args)
  {
    if args.Item? {
      SatMeets(args.value, row, cond);
      SatMeetsAny(args.more, row, cond);
      MeetsUnion(row, Alternatives(args.value), AnyAlternative(args.more));
    }
  }

  lemma MeetsUnion(row: Row, a: set<Clause>, b: set<Clause>)
    ensures MeetsOne(row, a + b) <==> MeetsOne(row, a) || MeetsOne(row, b)
  {
    if c :| c in a && Meets(row, c) {
      assert c in a + b;
    }
    if c :| c in b && Meets(row, c) {
      assert c in a + b;
    }
  }

  /** No column is asked to have two values. */
  predicate Consistent(c: Clause) {
    forall p, q :: p in c && q in c && p.0 == q.0 ==> p.1 == q.1
  }

  function RowFor(c: Clause): (row: Row)
    requires Consistent(c)
    ensures Meets(row, c)
    ensures forall k :: k in row ==> (k, row[k]) in c
  {
    map q | q in c :: q.0 := q.1
  }

  // ---------- When the parser reads the tree as it is meant ----------

  /** Literals as libpg_query prints them: a zero integer has no value member. */
  predicate Printed(c: Json) {
    var i, s := Get(c, "ival"), Get(c, "sval");
    && (i.Some? && Get(i.value, "ival").Some? ==> IntOf(Get(i.value, "ival").value) != 0)
    && (i.Some? ==> s.None?)
    && (s.Some? && Get(s.value, "sval").Some? ==> Get(s.value, "sval").value.Str?)
  }

  /** An `=` on a column is a plain operator on an unqualified column; the parser checks neither. */
  predicate PlainComparison(e: Json) {
    && (IsEquality(e) && FieldsOf(e).Some? ==>
          Enum(e, "kind") == Some("AEXPR_OP") && OneStringAt(e, "name") == Some("=") && ColumnName(e).Some?)
    && (ConstNode(e).Some? ==> Printed(ConstNode(e).value))
  }

  /** Every connective is AND, which the parser does not check either. */
  predicate Plain(w: Json)
    decreases Size(w)
  {
    var e, b := Get(w, "A_Expr"), Get(w, "BoolExpr");
    if e.Some? then PlainComparison(e.value)
    else b.Some? && Args(b.value).Some? ==> Enum(b.value, "boolop") == Some("AND_EXPR") && PlainArgs(Args(b.value).value)
  }

  predicate PlainArgs(args: Items)
    decreases SizeItems(args)
  {
    args.Item? ==> Plain(args.value) && PlainArgs(args.more)
  }

  /** The first equality whose literal the parser can see. */
  function FirstShown(cs: seq<(string, Value)>): Option<(string, Value)> {
    if cs == [] then None else if cs[0].1 != IntV(0) then Some(cs[0]) else FirstShown(cs[1..])
  }

  lemma {:induction false} FirstShownConcat(a: seq<(string, Value)>, b: seq<(string, Value)>)
    ensures FirstShown(a + b) == if FirstShown(a).Some? then FirstShown(a) else FirstShown(b)
  {
    if a == [] {
      assert a + b == b;
    } else {
      FirstShownConcat(a[1..], b);
      assert (a + b)[1..] == a[1..] + b;
    }
  }

  lemma {:induction false} FirstShownIn(cs: seq<(string, Value)>)
    ensures FirstShown(cs).Some? ==> FirstShown(cs).value in cs
  {
    if cs != [] {
      FirstShownIn(cs[1..]);
    }
  }

  /** The key in a parse result. */
  function Reported(p: Parsed): Option<(string, Value)> {
    if !p.found || p.column.None? then None
    else if p.isInt then Some((p.column.value, IntV(p.intKey)))
    else if p.strKey.Some? then Some((p.column.value, StrV(p.strKey.value)))
    else None
  }

  lemma OneStringFound(j: Json)
    requires OneString(j).Some?
    ensures Find(j, "sval").Some? && StringOf(Find(j, "sval").value) == OneString(j)
    ensures Find(j, "String").Some?
    ensures Get(Find(j, "String").value, "sval").Some?
    ensures StringOf(Get(Find(j, "String").value, "sval").value) == OneString(j)
  {
    var node := j.items.value;
    var s := node.members.value;
    assert Get(node, "String") == Some(s);
    assert Get(s, "sval") == Some(s.members.value);
    assert Get(node, "sval").None?;
    assert Find(s, "sval") == Some(s.members.value);
    assert Find(node, "sval") == Some(s.members.value);
    assert Find(node, "String") == Some(s);
  }

  lemma ComparisonExact(e: Json, r: Parsed)
    requires PlainComparison(e) && !r.found
    ensures ComparisonKey(e, r).found ==> Reported(ComparisonKey(e, r)).Some?
    ensures Reported(ComparisonKey(e, r)) == FirstShown(if Equality(e).Some? then [Equality(e).value] else [])
  {
    EqualityRead(e);
    if IsEquality(e) && FieldsOf(e).Some? {
      OneStringFound(FieldsOf(e).value);
      KeyRead(e, r.(column := ColumnName(e)));
    }
  }

  lemma KeyRead(e: Json, r: Parsed)
    requires !r.found && r.column.Some? && (ConstNode(e).Some? ==> Printed(ConstNode(e).value))
    ensures var p := if ConstOf(e).None? then r else r.WithKey(ConstOf(e).value);
            var lit := if ConstNode(e).Some? then LiteralIn(ConstNode(e).value) else None;
            && (p.found ==> Reported(p).Some?)
            && Reported(p) == FirstShown(if lit.Some? then [(r.column.value, lit.value)] else [])
  {
    if ConstNode(e).Some? {
      ConstRead(ConstNode(e).value);
    }
  }

  lemma EqualityRead(e: Json)
    requires PlainComparison(e)
    ensures Equality(e).Some? ==> IsEquality(e) && FieldsOf(e).Some?
    ensures IsEquality(e) && FieldsOf(e).Some? ==>
              Equality(e) == if ConstNode(e).Some? && LiteralIn(ConstNode(e).value).Some?
                             then Some((ColumnName(e).value, LiteralIn(ConstNode(e).value).value)) else None
  {
    if OneStringAt(e, "name") == Some("=") {
      OneStringFound(Get(e, "name").value);
    }
  }

  /** The literal that is read is the one that is meant, unless it is 0. */
  lemma ConstRead(c: Json)
    requires Printed(c)
    ensures ReadConst(c) == match LiteralIn(c)
                            case None => None
                            case Some(IntV(n)) => if n == 0 then None else Some(IntKey(n))
                            case Some(StrV(s)) => Some(StrKey(Some(s)))
  {
  }

  /** On a nested AND the parser reports exactly the first equality whose literal is not 0, or nothing. */
  lemma {:induction false} WhereExact(w: Json, r: Parsed)
    requires Plain(w) && !r.found
    ensures WhereKey(w, r).found ==> Reported(WhereKey(w, r)).Some?
    ensures Reported(WhereKey(w, r)) == FirstShown(Conjuncts(w))
    decreases Size(w)
  {
    var e, b := Get(w, "A_Expr"), Get(w, "BoolExpr");
    if e.Some? {
      ComparisonExact(e.value, r);
    } else if b.Some? && Args(b.value).Some? {
      ArgsExact(Args(b.value).value, r);
    }
  }

  lemma {:induction false} ArgsExact(args: Items, r: Parsed)
    requires PlainArgs(args) && !r.found
    ensures ArgsKey(args, r).found ==> Reported(ArgsKey(args, r)).Some?
    ensures Reported(ArgsKey(args, r)) == FirstShown(ConjunctsOf(args))
    decreases SizeItems(args)
  {
    if args.Item? {
      var p := WhereKey(args.value, r);
      WhereExact(args.value, r);
      FirstShownConcat(Conjuncts(args.value), ConjunctsOf(args.more));
      if !p.found {
        ArgsExact(args.more, p);
      }
    }
  }

  /** A reported key is implied by the condition: every row that satisfies it has that value in that column. */
  lemma WhereSound(w: Json, r: Parsed, row: Row, cond: (Json, Row) -> bool)
    requires Plain(w) && !r.found
    requires WhereKey(w, r).found && Sat(w, row, cond)
    ensures var q := Reported(WhereKey(w, r)); q.Some? && Has(row, q.value.0, q.value.1)
  {
    WhereExact(w, r);
    SatConjuncts(w, row, cond);
    FirstShownIn(Conjuncts(w));
  }

  lemma {:induction false} ConjunctsInAll(w: Json, c: Clause)
    requires c in Alternatives(w)
    ensures forall q :: q in Conjuncts(w) ==> q in c
    decreases Size(w)
  {
    var e, b := Get(w, "A_Expr"), Get(w, "BoolExpr");
    if e.None? && b.Some? && Args(b.value).Some? && Enum(b.value, "boolop") == Some("AND_EXPR") {
      ConjunctsInAllOf(Args(b.value).value, c);
    }
  }

  lemma {:induction false} ConjunctsInAllOf(args: Items, c: Clause)
    requires c in AllAlternatives(args)
    ensures forall q :: q in ConjunctsOf(args) ==> q in c
    decreases SizeItems(args)
  {
    if args.Item? {
      var x, y :| x in Alternatives(args.value) && y in AllAlternatives(args.more) && c == x + y;
      ConjunctsInAll(args.value, x);
      ConjunctsInAllOf(args.more, y);
    }
  }

  /** The key reported for a nested AND is in every alternative. */
  lemma ReportedInAll(w: Json, r: Parsed, c: Clause)
    requires Plain(w) && !r.found && WhereKey(w, r).found && c in Alternatives(w)
    ensures var q := Reported(WhereKey(w, r)); q.Some? && q.value in c
  {
    WhereExact(w, r);
    FirstShownIn(Conjuncts(w));
    ConjunctsInAll(w, c);
  }

  /**
   Exactly when a condition implies a key, whatever its other conditions mean: every alternative asks
   for that key or contradicts itself. The parser does not check this when it reports a key.
   */
  lemma ImpliedExactly(w: Json, q: (string, Value))
    ensures (forall row: Row, cond: (Json, Row) -> bool :: Sat(w, row, cond) ==> Has(row, q.0, q.1))
            <==> (forall c :: c in Alternatives(w) ==> q in c || !Consistent(c))
  {
    if forall c :: c in Alternatives(w) ==> q in c || !Consistent(c) {
      forall row: Row, cond: (Json, Row) -> bool | Sat(w, row, cond)
        ensures Has(row, q.0, q.1)
      {
        SatMeets(w, row, cond);
        var c :| c in Alternatives(w) && Meets(row, c);
        assert Consistent(c);
      }
    } else {
      var c :| c in Alternatives(w) && q !in c && Consistent(c);
      var row := RowFor(c);
      SatMeets(w, row, Always);
      assert Sat(w, row, Always) && !Has(row, q.0, q.1);
    }
  }
}
