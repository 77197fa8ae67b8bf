/**
 What the skipping loops of the navigator do on an arbitrary text, and the theorems that on
 the text of a tree they stop exactly where the tree says.
 */
module JsonScan {
  import opened Wrappers
  import opened JsonText

  // ---------- The scanners ----------

  function PastSpace(p: string): (q: string)
    ensures |q| <= |p|
  {
    if p != "" && IsSpace(p[0]) then PastSpace(p[1..]) else p
  }

  /** From inside a string to its closing quote. */
  function PastBody(p: string): (q: string)
    ensures |q| <= |p|
  {
    if p == "" || p[0] == '"' then p
    else if p[0] == '\\' then (if |p| == 1 then "" else PastBody(p[2..]))
    else PastBody(p[1..])
  }

  function PastString(p: string): (q: string)
    ensures |q| <= |p|
    ensures p != "" && p[0] == '"' ==> |q| < |p|
  {
    if p == "" || p[0] != '"' then p
    else
      var q := PastBody(p[1..]);
      if q == "" then q else q[1..]
  }

  /** The depth counter: one kind of bracket is counted, strings are stepped over. */
  function PastNest(p: string, open: char, close: char, depth: nat): (q: string)
    ensures |q| <= |p|
    decreases |p|
  {
    if p == "" || depth == 0 then p
    else if p[0] == open then PastNest(p[1..], open, close, depth + 1)
    else if p[0] == close then PastNest(p[1..], open, close, depth - 1)
    else if p[0] == '"' then PastNest(PastString(p), open, close, depth)
    else PastNest(p[1..], open, close, depth)
  }

  function PastAtom(p: string): (q: string)
    ensures |q| <= |p|
  {
    if p == "" || p[0] in {',', '}', ']'} || IsSpace(p[0]) then p else PastAtom(p[1..])
  }

  function PastValue(p: string): (q: string)
    ensures |q| <= |p|
  {
    var p := PastSpace(p);
    if p == "" then p
    else if p[0] == '"' then PastString(p)
    else if p[0] == '{' then PastNest(p[1..], '{', '}', 1)
    else if p[0] == '[' then PastNest(p[1..], '[', ']', 1)
    else PastAtom(p)
  }

  /** strncmp(p, key, strlen(key)) == 0 followed by a closing quote. */
  predicate Matches(p: string, key: string)
    decreases key
  {
    if key == "" then p != "" && p[0] == '"'
    else p != "" && p[0] == key[0] && Matches(p[1..], key[1..])
  }

  /** All values whose key matches, found by one linear scan of the text. */
  function ScanAll(p: string, key: string): seq<string>
    decreases |p|
  {
    if p == "" then []
    else if p[0] != '"' then ScanAll(p[1..], key)
    else if KeyHere(p, key).Some? then
      var val := KeyHere(p, key).value;
      [val] + ScanAll(PastValue(val), key)
    else ScanAll(PastString(p), key)
  }

  /** At a quote: the value that follows, when this is the key and a colon comes next. */
  function KeyHere(p: string, key: string): (val: Option<string>)
    requires p != ""
    ensures val.Some? ==> |val.value| < |p|
  {
    if Matches(p[1..], key) then
      MatchLength(p[1..], key);
      var after := PastSpace(p[2 + |key|..]);
      if after != "" && after[0] == ':' then Some(PastSpace(after[1..])) else None
    else None
  }

  lemma {:induction false} MatchLength(p: string, key: string)
    requires Matches(p, key)
    ensures |p| >= |key| + 1
  {
    if key != "" {
      MatchLength(p[1..], key[1..]);
    }
  }

  // ---------- Skipping a value ----------

  lemma {:induction false} BodyEnds(b: string, k: string)
    requires Body(b)
    ensures PastBody(Spell(b, Cons('"', k))) == Cons('"', k)
  {
    if b == "" {
    } else if b[0] == '\\' {
      var s := Spell(b, Cons('"', k));
      assert s[1..] == Spell(b[1..], Cons('"', k));
      assert b[1..][1..] == b[2..];
      assert s[2..] == s[1..][1..];
      BodyEnds(b[2..], k);
    } else {
      BodyEnds(b[1..], k);
    }
  }

  lemma StringEnds(b: string, k: string)
    requires Body(b)
    ensures PastString(Quote(b, k)) == k
  {
    BodyEnds(b, k);
  }

  predicate Brackets(open: char, close: char) {
    (open == '{' && close == '}') || (open == '[' && close == ']')
  }

  lemma {:induction false} NestAtom(t: string, k: string, open: char, close: char, d: nat)
    requires d > 0 && Brackets(open, close)
    requires forall i :: 0 <= i < |t| ==> AtomChar(t[i])
    ensures PastNest(Spell(t, k), open, close, d) == PastNest(k, open, close, d)
  {
    if t != "" {
      assert AtomChar(t[0]);
      NestAtom(t[1..], k, open, close, d);
    }
  }

  lemma NestString(b: string, k: string, open: char, close: char, d: nat)
    requires Body(b) && d > 0 && Brackets(open, close)
    ensures PastNest(Quote(b, k), open, close, d) == PastNest(k, open, close, d)
  {
    StringEnds(b, k);
  }

  lemma NestOpens(c: char, k: string, open: char, close: char, d: nat)
    requires c in {'[', '{'} && d > 0 && Brackets(open, close)
    ensures PastNest(Cons(c, k), open, close, d) == PastNest(k, open, close, if open == c then d + 1 else d)
  {
  }

  lemma NestCloses(c: char, k: string, open: char, close: char, d: nat)
    requires c in {']', '}'} && d > 0 && Brackets(open, close)
    ensures PastNest(Cons(c, k), open, close, if close == c then d + 1 else d) == PastNest(k, open, close, d)
  {
  }

  /** The balance lemma: a whole value leaves the depth counter where it was, whichever bracket is counted. */
  lemma {:induction false} NestValue(v: Json, k: string, open: char, close: char, d: nat)
    requires WF(v) && d > 0 && Brackets(open, close)
    ensures PastNest(Emit(v, k), open, close, d) == PastNest(k, open, close, d)
    decreases v
  {
    match v
    case Atom(t) => NestAtom(t, k, open, close, d);
    case Str(b) => NestString(b, k, open, close, d);
    case Arr(items) =>
      var d', rest := if open == '[' then d + 1 else d, Cons(']', k);
      NestOpens('[', EmitItems(items, rest), open, close, d);
      NestItems(items, rest, open, close, d');
      NestCloses(']', k, open, close, d);
    case Obj(ms) =>
      var d', rest := if open == '{' then d + 1 else d, Cons('}', k);
      NestOpens('{', EmitMembers(ms, rest), open, close, d);
      NestMembers(ms, rest, open, close, d');
      NestCloses('}', k, open, close, d);
  }

  lemma {:induction false} NestItems(items: Items, k: string, open: char, close: char, d: nat)
    requires WFItems(items) && d > 0 && Brackets(open, close)
    ensures PastNest(EmitItems(items, k), open, close, d) == PastNest(k, open, close, d)
    ensures PastNest(EmitMoreItems(items, k), open, close, d) == PastNest(k, open, close, d)
    decreases items
  {
    match items
    case NoItems =>
    case Item(v, more) =>
      NestItems(more, k, open, close, d);
      NestValue(v, EmitMoreItems(more, k), open, close, d);
  }

  lemma {:induction false} NestMembers(ms: Members, k: string, open: char, close: char, d: nat)
    requires WFMembers(ms) && d > 0 && Brackets(open, close)
    ensures PastNest(EmitMembers(ms, k), open, close, d) == PastNest(k, open, close, d)
    ensures PastNest(EmitMoreMembers(ms, k), open, close, d) == PastNest(k, open, close, d)
    decreases ms
  {
    match ms
    case NoMembers =>
    case Member(key, v, rest) =>
      var value := Emit(v, EmitMoreMembers(rest, k));
      NestMembers(rest, k, open, close, d);
      NestValue(v, EmitMoreMembers(rest, k), open, close, d);
      NestString(key, Cons(':', value), open, close, d);
  }

  lemma {:induction false} AtomEnds(t: string, k: string)
    requires forall i :: 0 <= i < |t| ==> AtomChar(t[i])
    requires Delimited(k)
    ensures PastAtom(Spell(t, k)) == k
  {
    if t != "" {
      assert AtomChar(t[0]);
      AtomEnds(t[1..], k);
    }
  }

  lemma FirstChar(v: Json, k: string)
    requires WF(v)
    ensures Emit(v, k) != ""
    ensures !IsSpace(Emit(v, k)[0]) && Emit(v, k)[0] !in {',', '}', ']'}
    ensures Emit(v, k)[0] == '"' <==> v.Str?
    ensures Emit(v, k)[0] == '{' <==> v.Obj?
    ensures Emit(v, k)[0] == '[' <==> v.Arr?
  {
    if v.Atom? {
      assert AtomChar(v.text[0]);
    }
  }

  lemma EmitLonger(v: Json, k: string)
    requires WF(v)
    ensures |Emit(v, k)| > |k|
  {
  }

  /** json_skip_value on the text of a value stops exactly at the end of that value. */
  lemma ValueEnds(v: Json, k: string)
    requires WF(v)
    requires v.Atom? ==> Delimited(k)
    ensures PastValue(Emit(v, k)) == k
  {
    FirstChar(v, k);
    match v
    case Atom(t) => AtomEnds(t, k);
    case Str(b) => StringEnds(b, k);
    case Arr(items) => NestItems(items, Cons(']', k), '[', ']', 1);
    case Obj(ms) => NestMembers(ms, Cons('}', k), '{', '}', 1);
  }

  // ---------- Recognising a key ----------

  /** A key without quotes or backslashes is recognised exactly when the member has that key. */
  lemma {:induction false} MatchesIsEqual(b: string, key: string, k: string)
    requires Body(b) && CleanKey(key)
    ensures Matches(Spell(b, Cons('"', k)), key) <==> b == key
    decreases key
  {
    if key == "" {
    } else if b == "" {
      assert key[0] in key;
    } else {
      assert key[0] in key;
      if b[0] == key[0] {
        assert b[0] != '\\';
        assert CleanKey(key[1..]);
        MatchesIsEqual(b[1..], key[1..], k);
        assert b == [b[0]] + b[1..] && key == [key[0]] + key[1..];
      }
    }
  }

  lemma {:induction false} SpellLength(t: string, k: string)
    ensures Spell(t, k)[|t|..] == k
  {
    if t != "" {
      SpellLength(t[1..], k);
      assert Spell(t, k)[|t|..] == Spell(t, k)[1..][|t| - 1..];
    }
  }

  lemma PastKey(key: string, k: string)
    ensures |Quote(key, k)| == |key| + 2 + |k|
    ensures Quote(key, k)[2 + |key|..] == k
  {
    SpellLength(key, Cons('"', k));
    var q := Quote(key, k);
    assert q[1..][|key|..] == Cons('"', k);
    assert q[2 + |key|..] == q[1..][|key|..][1..];
  }

  /** On the text of a member, the scan sees the key exactly when it is the member's key. */
  lemma KeyOfMember(key: string, v: Json, k: string, wanted: string)
    requires Body(key) && CleanKey(wanted) && WF(v)
    ensures var p := Quote(key, Cons(':', Emit(v, k)));
            KeyHere(p, wanted) == if key == wanted then Some(Emit(v, k)) else None
  {
    var value := Cons(':', Emit(v, k));
    MatchesIsEqual(key, wanted, value);
    PastKey(key, value);
    FirstChar(v, k);
  }

  /** A string that is a value is not taken for a key. */
  lemma KeyOfValue(b: string, k: string, wanted: string)
    requires Body(b) && CleanKey(wanted) && Delimited(PastSpace(k))
    ensures KeyHere(Quote(b, k), wanted) == None
  {
    MatchesIsEqual(b, wanted, k);
    PastKey(b, k);
  }

  // ---------- The linear scan collects what the tree holds ----------

  function TextsOf(s: seq<At>): (r: seq<string>)
    ensures |r| == |s|
  {
    if s == [] then [] else [s[0].Text()] + TextsOf(s[1..])
  }

  lemma {:induction false} TextsOfConcat(s: seq<At>, t: seq<At>)
    ensures TextsOf(s + t) == TextsOf(s) + TextsOf(t)
  {
    if s == [] {
      assert s + t == t;
    } else {
      TextsOfConcat(s[1..], t);
      assert (s + t)[1..] == s[1..] + t;
      Assoc([s[0].Text()], TextsOf(s[1..]), TextsOf(t));
    }
  }

  lemma {:induction false} ScanAtom(t: string, k: string, key: string)
    requires forall i :: 0 <= i < |t| ==> AtomChar(t[i])
    ensures ScanAll(Spell(t, k), key) == ScanAll(k, key)
  {
    if t != "" {
      assert AtomChar(t[0]);
      ScanAtom(t[1..], k, key);
    }
  }

  /** What may follow a value inside a tree that ends before k. */
  predicate Closed(k: string) {
    k == "" || k[0] in {',', '}', ']'}
  }

  lemma {:induction false} ScanValue(a: At, key: string)
    requires WF(a.v) && Closed(a.after) && CleanKey(key)
    ensures ScanAll(a.Text(), key) == TextsOf(AllAt(a, key)) + ScanAll(a.after, key)
    decreases a.v
  {
    match a.v
    case Atom(t) => ScanAtom(t, a.after, key);
    case Str(b) =>
      KeyOfValue(b, a.after, key);
      StringEnds(b, a.after);
    case Arr(items) => ScanItems(items, Cons(']', a.after), key);
    case Obj(ms) => ScanMembers(ms, Cons('}', a.after), key);
  }

  lemma ScanComma(p: string, key: string)
    ensures ScanAll(Cons(',', p), key) == ScanAll(p, key)
  {
  }

  lemma {:induction false} ScanItems(items: Items, k: string, key: string)
    requires WFItems(items) && Closed(k) && CleanKey(key)
    ensures ScanAll(EmitItems(items, k), key) == TextsOf(AllAtItems(items, key, k)) + ScanAll(k, key)
    ensures ScanAll(EmitMoreItems(items, k), key) == TextsOf(AllAtItems(items, key, k)) + ScanAll(k, key)
    decreases items
  {
    match items
    case NoItems =>
    case Item(v, more) =>
      var here := At(v, EmitMoreItems(more, k));
      var first, others := AllAt(here, key), AllAtItems(more, key, k);
      calc {
        ScanAll(EmitItems(items, k), key);
      == { ScanValue(here, key); }
        TextsOf(first) + ScanAll(here.after, key);
      == { ScanItems(more, k, key); }
        TextsOf(first) + (TextsOf(others) + ScanAll(k, key));
      ==
        (TextsOf(first) + TextsOf(others)) + ScanAll(k, key);
      == { TextsOfConcat(first, others); }
        TextsOf(AllAtItems(items, key, k)) + ScanAll(k, key);
      }
      ScanComma(EmitItems(items, k), key);
  }

  lemma ScanHit(here: At, key: string)
    requires Body(key) && WF(here.v) && Closed(here.after) && CleanKey(key)
    ensures ScanAll(Quote(key, Cons(':', here.Text())), key) == [here.Text()] + ScanAll(here.after, key)
  {
    KeyOfMember(key, here.v, here.after, key);
    ValueEnds(here.v, here.after);
  }

  lemma ScanMiss(key': string, here: At, key: string)
    requires Body(key') && WF(here.v) && Closed(here.after) && CleanKey(key) && key' != key
    ensures ScanAll(Quote(key', Cons(':', here.Text())), key) == ScanAll(here.Text(), key)
  {
    KeyOfMember(key', here.v, here.after, key);
    StringEnds(key', Cons(':', here.Text()));
  }

  lemma ScanMember(key': string, here: At, key: string)
    requires Body(key') && WF(here.v) && Closed(here.after) && CleanKey(key)
    requires ScanAll(here.Text(), key) == TextsOf(AllAt(here, key)) + ScanAll(here.after, key)
    ensures ScanAll(Quote(key', Cons(':', here.Text())), key)
         == TextsOf(AllAtMember(key', here, key)) + ScanAll(here.after, key)
  {
    if key' == key {
      ScanHit(here, key);
      assert TextsOf([here]) == [here.Text()];
    } else {
      ScanMiss(key', here, key);
    }
  }

  lemma {:induction false} ScanMembers(ms: Members, k: string, key: string)
    requires WFMembers(ms) && Closed(k) && CleanKey(key)
    ensures ScanAll(EmitMembers(ms, k), key) == TextsOf(AllAtMembers(ms, key, k)) + ScanAll(k, key)
    ensures ScanAll(EmitMoreMembers(ms, k), key) == TextsOf(AllAtMembers(ms, key, k)) + ScanAll(k, key)
    decreases ms
  {
    match ms
    case NoMembers =>
    case Member(key', v, rest) =>
      var here := At(v, EmitMoreMembers(rest, k));
      var first, others := AllAtMember(key', here, key), AllAtMembers(rest, key, k);
      calc {
        ScanAll(EmitMembers(ms, k), key);
      ==
        ScanAll(Quote(key', Cons(':', here.Text())), key);
      == { ScanValue(here, key); ScanMember(key', here, key); }
        TextsOf(first) + ScanAll(here.after, key);
      == { ScanMembers(rest, k, key); }
        TextsOf(first) + (TextsOf(others) + ScanAll(k, key));
      ==
        (TextsOf(first) + TextsOf(others)) + ScanAll(k, key);
      == { TextsOfConcat(first, others); }
        TextsOf(AllAtMembers(ms, key, k)) + ScanAll(k, key);
      }
      ScanComma(EmitMembers(ms, k), key);
  }

  // ---------- Reading a string and an integer ----------

  /** The text of a string value as it is stored, escapes not resolved. */
  function StringOf(v: Json): Option<string> {
    if v.Str? then Some(v.body) else None
  }

  function StringAt(p: string): Option<string> {
    var p := PastSpace(p);
    if p == "" || p[0] != '"' then None
    else Some(p[1..][..|p| - 1 - |PastBody(p[1..])|])
  }

  lemma StringAtValue(a: At)
    requires WF(a.v)
    ensures StringAt(a.Text()) == StringOf(a.v)
  {
    FirstChar(a.v, a.after);
    if a.v.Str? {
      BodyEnds(a.v.body, a.after);
      SpellPrefix(a.v.body, Cons('"', a.after));
    }
  }

  lemma {:induction false} SpellPrefix(t: string, k: string)
    ensures Spell(t, k)[..|t|] == t
  {
    if t != "" {
      SpellPrefix(t[1..], k);
      assert Spell(t, k)[..|t|] == [t[0]] + Spell(t[1..], k)[..|t| - 1];
    }
  }

  const INT64_MAX := 0x7FFF_FFFF_FFFF_FFFF
  const INT64_MIN := -0x8000_0000_0000_0000

  predicate IsDigit(c: char) {
    '0' <= c <= '9'
  }

  function Digits(p: string, value: nat): nat
    decreases |p|
  {
    if p != "" && IsDigit(p[0]) then Digits(p[1..], 10 * value + (p[0] as int - '0' as int)) else value
  }

  function Clamp(n: int): int {
    if n > INT64_MAX then INT64_MAX else if n < INT64_MIN then INT64_MIN else n
  }

  /** strtoll(p, NULL, 10) of the C library. */
  function Strtoll(p: string): int {
    var p := PastSpace(p);
    if p != "" && p[0] == '-' then Clamp(0 - Digits(p[1..], 0) as int)
    else if p != "" && p[0] == '+' then Clamp(Digits(p[1..], 0))
    else Clamp(Digits(p, 0))
  }

  function IntOf(v: Json): int {
    if v.Atom? then Strtoll(v.text) else 0
  }

  lemma {:induction false} DigitsEnd(t: string, k: string, value: nat)
    requires Delimited(k)
    ensures Digits(Spell(t, k), value) == Digits(t, value)
    decreases |t|
  {
    if t != "" && IsDigit(t[0]) {
      DigitsEnd(t[1..], k, 10 * value + (t[0] as int - '0' as int));
    }
  }

  lemma IntAt(a: At)
    requires a.Ok()
    ensures Strtoll(a.Text()) == IntOf(a.v)
  {
    FirstChar(a.v, a.after);
    if a.v.Atom? {
      var t := a.v.text;
      assert AtomChar(t[0]);
      DigitsEnd(t, a.after, 0);
      DigitsEnd(t[1..], a.after, 0);
    }
  }

  /** The decimal text libpg_query prints for an integer. */
  function Decimal(n: int): string {
    if n < 0 then "-" + DecimalNat(-n) else DecimalNat(n)
  }

  function DecimalNat(n: nat): (r: string)
    ensures r != "" && IsDigit(r[0])
  {
    if n < 10 then [('0' as int + n) as char] else DecimalNat(n / 10) + [('0' as int + n % 10) as char]
  }

  lemma {:induction false} DigitsAppend(t: string, c: char, value: nat)
    requires IsDigit(c) && forall i :: 0 <= i < |t| ==> IsDigit(t[i])
    ensures Digits(t + [c], value) == 10 * Digits(t, value) + (c as int - '0' as int)
    decreases |t|
  {
    if t == "" {
      assert (t + [c])[1..] == "";
    } else {
      assert (t + [c])[1..] == t[1..] + [c];
      DigitsAppend(t[1..], c, 10 * value + (t[0] as int - '0' as int));
    }
  }

  lemma {:induction false} DecimalDigits(n: nat)
    ensures forall i :: 0 <= i < |DecimalNat(n)| ==> IsDigit(DecimalNat(n)[i])
    ensures Digits(DecimalNat(n), 0) == n
  {
    if n >= 10 {
      DecimalDigits(n / 10);
      DigitsAppend(DecimalNat(n / 10), ('0' as int + n % 10) as char, 0);
    } else {
      assert DecimalNat(n)[1..] == "";
    }
  }

  /** An int64 survives being printed into the tree and read back. */
  lemma DecimalRoundTrip(n: int)
    requires INT64_MIN <= n <= INT64_MAX
    ensures AtomText(Decimal(n)) && IntOf(Atom(Decimal(n))) == n
  {
    DecimalDigits(if n < 0 then -n else n);
    if n < 0 {
      assert Decimal(n)[1..] == DecimalNat(-n);
      forall i | 0 <= i < |Decimal(n)|
        ensures AtomChar(Decimal(n)[i])
      {
        assert i > 0 ==> IsDigit(DecimalNat(-n)[i - 1]);
      }
    }
  }
}
