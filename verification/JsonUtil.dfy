/**
 The text navigator of src/parser/json_util.c, loop by loop. The ghost argument `a` of a
 search is the value whose text is being searched; it only says what the text is.
 */
module JsonUtil {
  import opened Wrappers
  import opened JsonText
  import opened JsonScan

  method SkipWhitespace(p: string) returns (q: string)
    ensures q == PastSpace(p)
    ensures q == "" || !IsSpace(q[0])
  {
    q := p;
    while q != "" && IsSpace(q[0])
      invariant PastSpace(q) == PastSpace(p)
      decreases |q|
    {
      q := q[1..];
    }
  }

  method SkipString(p: string) returns (q: string)
    ensures q == PastString(p)
    ensures forall b, k {:trigger Quote(b, k)} :: Body(b) && p == Quote(b, k) ==> q == k
  {
    q := p;
    if q != "" && q[0] == '"' {
      q := q[1..];
      while q != "" && q[0] != '"'
        invariant PastBody(q) == PastBody(p[1..])
        decreases |q|
      {
        if q[0] == '\\' {
          q := q[1..];
        }
        q := if q == "" then "" else q[1..];
      }
      if q != "" {
        q := q[1..];
      }
    }
    forall b, k | Body(b) && p == Quote(b, k)
      ensures q == k
    {
      StringEnds(b, k);
    }
  }

  method SkipNested(p: string, open: char, close: char) returns (q: string)
    requires Brackets(open, close)
    ensures q == PastNest(p, open, close, 1)
  {
    var depth: nat := 1;
    q := p;
    while q != "" && depth > 0
      invariant PastNest(q, open, close, depth) == PastNest(p, open, close, 1)
      decreases |q|
    {
      if q[0] == open {
        depth := depth + 1;
        q := q[1..];
      } else if q[0] == close {
        depth := depth - 1;
        q := q[1..];
      } else if q[0] == '"' {
        q := SkipString(q);
      } else {
        q := q[1..];
      }
    }
  }

  method SkipValue(p: string) returns (q: string)
    ensures q == PastValue(p)
    ensures forall v, k {:trigger Emit(v, k)} ::
              WF(v) && (v.Atom? ==> Delimited(k)) && p == Emit(v, k) ==> q == k
  {
    q := SkipWhitespace(p);
    if q != "" {
      match q[0]
      case '"' => q := SkipString(q);
      case '{' => q := SkipNested(q[1..], '{', '}');
      case '[' => q := SkipNested(q[1..], '[', ']');
      case _ =>
        ghost var start := q;
        while q != "" && q[0] != ',' && q[0] != '}' && q[0] != ']' && !IsSpace(q[0])
          invariant PastAtom(q) == PastAtom(start)
          decreases |q|
        {
          q := q[1..];
        }
    }
    forall v, k {:trigger Emit(v, k)} | WF(v) && (v.Atom? ==> Delimited(k)) && p == Emit(v, k)
      ensures q == k
    {
      ValueEnds(v, k);
    }
  }

  /** From a member's key to its value. */
  method SkipMemberKey(p: string, ghost key: string, ghost v: Json, ghost k: string) returns (q: string)
    requires Body(key) && WF(v)
    requires p == Quote(key, Cons(':', Emit(v, k)))
    ensures q == Emit(v, k) && |q| < |p|
  {
    FirstChar(v, k);
    StringEnds(key, Cons(':', Emit(v, k)));
    q := SkipString(p);
    q := SkipColon(q, v, k);
  }

  method SkipColon(p: string, ghost v: Json, ghost k: string) returns (q: string)
    requires WF(v) && p == Cons(':', Emit(v, k))
    ensures q == Emit(v, k)
  {
    FirstChar(v, k);
    q := SkipWhitespace(p);
    if q != "" && q[0] == ':' {
      q := q[1..];
    }
    q := SkipWhitespace(q);
  }

  /** Over a value and the comma after it, if there is one. */
  method SkipElement(p: string, ghost v: Json, ghost k: string) returns (q: string)
    requires WF(v) && Closed(k) && p == Emit(v, k)
    ensures q == if k != "" && k[0] == ',' then k[1..] else k
    ensures |q| < |p|
  {
    ValueEnds(v, k);
    EmitLonger(v, k);
    q := SkipValue(p);
    q := SkipWhitespace(q);
    if q != "" && q[0] == ',' {
      q := q[1..];
    }
  }

  method FindKey(json: string, key: string, ghost a: At) returns (r: Option<string>)
    requires a.Ok() && json == a.Text() && CleanKey(key)
    ensures r == Texts(GetAt(a, key))
  {
    FirstChar(a.v, a.after);
    var p := SkipWhitespace(json);
    if p == "" || p[0] != '{' {
      return None;
    }
    p := p[1..];
    ghost var ms, k := a.v.members, Cons('}', a.after);
    while p != "" && p[0] != '}'
      invariant WFMembers(ms)
      invariant p == EmitMembers(ms, k)
      invariant MemberAt(ms, key, k) == GetAt(a, key)
      decreases |p|
    {
      p := SkipWhitespace(p);
      if p == "" || p[0] != '"' {
        break;
      }
      ghost var next := EmitMoreMembers(ms.rest, k);
      MatchesIsEqual(ms.key, key, Cons(':', Emit(ms.value, next)));
      if Matches(p[1..], key) {
        PastKey(ms.key, Cons(':', Emit(ms.value, next)));
        p := p[2 + |key|..];
        p := SkipColon(p, ms.value, next);
        return Some(p);
      }
      p := SkipMemberKey(p, ms.key, ms.value, next);
      p := SkipElement(p, ms.value, next);
      ms := ms.rest;
    }
    return None;
  }

  method FindKeyRecursive(json: string, key: string, ghost a: At) returns (r: Option<string>)
    requires a.Ok() && json == a.Text() && CleanKey(key)
    ensures r == Texts(FindAt(a, key))
    decreases |json|
  {
    FirstChar(a.v, a.after);
    var start := SkipWhitespace(json);
    if start != "" && start[0] == '{' {
      r := FindKey(start, key, a);
      if r.Some? {
        return;
      }
      var p := start[1..];
      ghost var ms, k := a.v.members, Cons('}', a.after);
      while p != "" && p[0] != '}'
        invariant WFMembers(ms) && p == EmitMembers(ms, k) && |p| < |json|
        invariant FindAtMembers(ms, key, k) == FindAt(a, key)
        decreases |p|
      {
        p := SkipWhitespace(p);
        if p != "" && p[0] == '"' {
          ghost var next := EmitMoreMembers(ms.rest, k);
          p := SkipMemberKey(p, ms.key, ms.value, next);
          r := FindKeyRecursive(p, key, At(ms.value, next));
          if r.Some? {
            return;
          }
          p := SkipElement(p, ms.value, next);
          ms := ms.rest;
        } else {
          assert false; // only white space inside an empty object leads here; libpg_query prints none
        }
      }
    } else if start != "" && start[0] == '[' {
      var p := start[1..];
      ghost var items, k := a.v.items, Cons(']', a.after);
      while p != "" && p[0] != ']'
        invariant WFItems(items) && p == EmitItems(items, k) && |p| < |json|
        invariant FindAtItems(items, key, k) == FindAt(a, key)
        decreases |p|
      {
        p := SkipWhitespace(p);
        if p != "" && p[0] == ']' {
          break;
        }
        ghost var next := EmitMoreItems(items.more, k);
        r := FindKeyRecursive(p, key, At(items.value, next));
        if r.Some? {
          return;
        }
        p := SkipElement(p, items.value, next);
        items := items.more;
      }
    }
    r := None;
  }

  method FindAllValues(json: string, key: string) returns (r: seq<string>)
    requires CleanKey(key)
    ensures r == ScanAll(json, key)
    ensures forall a: At {:trigger a.Text()} :: WF(a.v) && Closed(a.after) && json == a.Text()
              ==> r == TextsOf(AllAt(a, key)) + ScanAll(a.after, key)
  {
    r := [];
    var p := json;
    while p != ""
      invariant r + ScanAll(p, key) == ScanAll(json, key)
      decreases |p|
    {
      if p[0] == '"' {
        if Matches(p[1..], key) {
          MatchLength(p[1..], key);
          var after := SkipWhitespace(p[2 + |key|..]);
          if after != "" && after[0] == ':' {
            var val := SkipWhitespace(after[1..]);
            r := r + [val];
            p := SkipValue(val);
            continue;
          }
        }
        p := SkipString(p);
      } else {
        p := p[1..];
      }
    }
    forall a: At {:trigger a.Text()} | WF(a.v) && Closed(a.after) && json == a.Text()
      ensures r == TextsOf(AllAt(a, key)) + ScanAll(a.after, key)
    {
      ScanValue(a, key);
    }
  }

  method StartsWithKey(json: string, key: string, ghost a: At) returns (r: bool)
    requires a.Ok() && json == a.Text() && CleanKey(key)
    ensures r <==> a.v.Obj? && a.v.members.Member? && a.v.members.key == key
  {
    FirstChar(a.v, a.after);
    var p := SkipWhitespace(json);
    if p == "" || p[0] != '{' {
      return false;
    }
    p := SkipWhitespace(p[1..]);
    if p == "" || p[0] != '"' {
      return false;
    }
    ghost var ms := a.v.members;
    assert WFMembers(ms);
    MatchesIsEqual(ms.key, key, Cons(':', Emit(ms.value, EmitMoreMembers(ms.rest, Cons('}', a.after)))));
    return Matches(p[1..], key);
  }

  method GetString(json: string) returns (r: Option<string>)
    ensures r == StringAt(json)
  {
    var p := SkipWhitespace(json);
    if p == "" || p[0] != '"' {
      return None;
    }
    p := p[1..];
    var start := p;
    while p != "" && p[0] != '"'
      invariant PastBody(p) == PastBody(start) && |p| <= |start|
      decreases |p|
    {
      if p[0] == '\\' {
        p := p[1..];
      }
      p := if p == "" then "" else p[1..];
    }
    var len := |start| - |p|;
    r := Some(start[..len]);
  }

  /** The number in the value at hand, whatever text follows it; 0 for a value that is not a number. */
  method GetInt(json: string, ghost a: At) returns (r: int)
    requires a.Ok() && json == a.Text()
    ensures r == IntOf(a.v)
  {
    var p := SkipWhitespace(json);
    r := Strtoll(p);
    IntAt(a);
  }
}
