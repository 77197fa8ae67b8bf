/**
 JSON parse trees, the compact text libpg_query prints for them, and the tree searches
 that the text navigator is compared with.

 A C pointer into a text is modelled by the text from that position up to the
 terminating NUL, so `p++` is `p[1..]` and a pointer at the terminator is "".
 */
module JsonText {
  import opened Wrappers

  datatype Json =
    | Atom(text: string)   // a number, true, false or null
    | Str(body: string)    // the characters between the quotes, escapes not resolved
    | Arr(items: Items)
    | Obj(members: Members)

  datatype Items = NoItems | Item(value: Json, more: Items)

  datatype Members = NoMembers | Member(key: string, value: Json, rest: Members)

  // ---------- The text of a tree, written in front of the text that follows it ----------

  function Cons(c: char, k: string): (r: string)
    ensures |r| == |k| + 1 && r[0] == c && r[1..] == k
  {
    [c] + k
  }

  function Spell(t: string, k: string): (r: string)
    ensures |r| == |t| + |k|
  {
    if t == "" then k else Cons(t[0], Spell(t[1..], k))
  }

  function Quote(body: string, k: string): string {
    Cons('"', Spell(body, Cons('"', k)))
  }

  function Emit(v: Json, k: string): (r: string)
    ensures |r| >= |k|
    decreases v
  {
    match v
    case Atom(t) => Spell(t, k)
    case Str(b) => Quote(b, k)
    case Arr(items) => Cons('[', EmitItems(items, Cons(']', k)))
    case Obj(ms) => Cons('{', EmitMembers(ms, Cons('}', k)))
  }

  function EmitItems(items: Items, k: string): (r: string)
    ensures |r| >= |k|
    decreases items
  {
    match items
    case NoItems => k
    case Item(v, more) => Emit(v, EmitMoreItems(more, k))
  }

  function EmitMoreItems(items: Items, k: string): (r: string)
    ensures |r| >= |k|
    decreases items
  {
    match items
    case NoItems => k
    case Item(v, more) => Cons(',', Emit(v, EmitMoreItems(more, k)))
  }

  function EmitMembers(ms: Members, k: string): (r: string)
    ensures |r| >= |k|
    decreases ms
  {
    match ms
    case NoMembers => k
    case Member(key, v, rest) => Quote(key, Cons(':', Emit(v, EmitMoreMembers(rest, k))))
  }

  function EmitMoreMembers(ms: Members, k: string): (r: string)
    ensures |r| >= |k|
    decreases ms
  {
    match ms
    case NoMembers => k
    case Member(key, v, rest) => Cons(',', Quote(key, Cons(':', Emit(v, EmitMoreMembers(rest, k)))))
  }

  function Render(v: Json): string {
    Emit(v, "")
  }

  // ---------- Well-formed trees (sections 2 to 7 of RFC 8259, numbers not restricted further) ----------

  /** isspace in the C locale. */
  predicate IsSpace(c: char) {
    c == ' ' || '\t' <= c <= '\r'
  }

  predicate AtomChar(c: char) {
    !IsSpace(c) && c !in {',', '{', '}', '[', ']', '"'}
  }

  predicate AtomText(t: string) {
    t != "" && forall i :: 0 <= i < |t| ==> AtomChar(t[i])
  }

  /** The inside of a string: every quote and every backslash is part of an escape. */
  predicate Body(b: string) {
    b == "" ||
    (b[0] == '\\' && |b| >= 2 && Body(b[2..])) ||
    (b[0] != '\\' && b[0] != '"' && Body(b[1..]))
  }

  predicate WF(v: Json)
    decreases v
  {
    match v
    case Atom(t) => AtomText(t)
    case Str(b) => Body(b)
    case Arr(items) => WFItems(items)
    case Obj(ms) => WFMembers(ms)
  }

  predicate WFItems(items: Items)
    decreases items
  {
    items.Item? ==> WF(items.value) && WFItems(items.more)
  }

  predicate WFMembers(ms: Members)
    decreases ms
  {
    ms.Member? ==> Body(ms.key) && WF(ms.value) && WFMembers(ms.rest)
  }

  /** What may follow a value: the end of the text, a closing bracket, a comma or white space. */
  predicate Delimited(k: string) {
    k == "" || k[0] in {',', '}', ']'} || IsSpace(k[0])
  }

  /** The keys the parser searches for. */
  predicate CleanKey(key: string) {
    '"' !in key && '\\' !in key
  }

  // ---------- Tree searches ----------

  function Size(v: Json): nat
    decreases v
  {
    match v
    case Arr(items) => 1 + SizeItems(items)
    case Obj(ms) => 1 + SizeMembers(ms)
    case _ => 1
  }

  function SizeItems(items: Items): nat
    decreases items
  {
    if items.NoItems? then 0 else 1 + Size(items.value) + SizeItems(items.more)
  }

  function SizeMembers(ms: Members): nat
    decreases ms
  {
    if ms.NoMembers? then 0 else 1 + Size(ms.value) + SizeMembers(ms.rest)
  }

  /** A value in its place: the text from its first character on is Emit(v, after). */
  datatype At = At(v: Json, after: string) {
    function Text(): string { Emit(v, after) }

    predicate Ok() { WF(v) && Delimited(after) }
  }

  function Texts(o: Option<At>): Option<string> {
    if o.Some? then Some(o.value.Text()) else None
  }

  function Get(v: Json, key: string): (r: Option<Json>)
    ensures r.Some? ==> Size(r.value) < Size(v)
  {
    if v.Obj? then GetMember(v.members, key) else None
  }

  function GetMember(ms: Members, key: string): (r: Option<Json>)
    ensures r.Some? ==> Size(r.value) <= SizeMembers(ms)
  {
    match ms
    case NoMembers => None
    case Member(k, v, rest) => if k == key then Some(v) else GetMember(rest, key)
  }

  /** The first member of an object with the given key. */
  function GetAt(a: At, key: string): (r: Option<At>)
    ensures r.Some? <==> Get(a.v, key).Some?
    ensures r.Some? ==> r.value.v == Get(a.v, key).value
    ensures r.Some? && a.Ok() ==> r.value.Ok()
  {
    if a.v.Obj? then MemberAt(a.v.members, key, Cons('}', a.after)) else None
  }

  function MemberAt(ms: Members, key: string, k: string): (r: Option<At>)
    ensures r.Some? <==> GetMember(ms, key).Some?
    ensures r.Some? ==> r.value.v == GetMember(ms, key).value
    ensures r.Some? && WFMembers(ms) && Delimited(k) ==> r.value.Ok()
  {
    match ms
    case NoMembers => None
    case Member(key', v, rest) =>
      if key' == key then Some(At(v, EmitMoreMembers(rest, k))) else MemberAt(rest, key, k)
  }

  /** Search of a whole tree: this level first, then the children from left to right. */
  function Find(v: Json, key: string): Option<Json>
    decreases v
  {
    match v
    case Obj(ms) => if Get(v, key).Some? then Get(v, key) else FindInMembers(ms, key)
    case Arr(items) => FindInItems(items, key)
    case _ => None
  }

  function FindInItems(items: Items, key: string): Option<Json>
    decreases items
  {
    match items
    case NoItems => None
    case Item(v, more) =>
      var f := Find(v, key);
      if f.Some? then f else FindInItems(more, key)
  }

  function FindInMembers(ms: Members, key: string): Option<Json>
    decreases ms
  {
    match ms
    case NoMembers => None
    case Member(_, v, rest) =>
      var f := Find(v, key);
      if f.Some? then f else FindInMembers(rest, key)
  }

  function FindAt(a: At, key: string): (r: Option<At>)
    ensures r.Some? <==> Find(a.v, key).Some?
    ensures r.Some? ==> r.value.v == Find(a.v, key).value
    ensures r.Some? && a.Ok() ==> r.value.Ok()
    decreases a.v
  {
    match a.v
    case Obj(ms) =>
      var f := GetAt(a, key);
      if f.Some? then f else FindAtMembers(ms, key, Cons('}', a.after))
    case Arr(items) => FindAtItems(items, key, Cons(']', a.after))
    case _ => None
  }

  function FindAtItems(items: Items, key: string, k: string): (r: Option<At>)
    ensures r.Some? <==> FindInItems(items, key).Some?
    ensures r.Some? ==> r.value.v == FindInItems(items, key).value
    ensures r.Some? && WFItems(items) && Delimited(k) ==> r.value.Ok()
    decreases items
  {
    match items
    case NoItems => None
    case Item(v, more) =>
      var f := FindAt(At(v, EmitMoreItems(more, k)), key);
      if f.Some? then f else FindAtItems(more, key, k)
  }

  function FindAtMembers(ms: Members, key: string, k: string): (r: Option<At>)
    ensures r.Some? <==> FindInMembers(ms, key).Some?
    ensures r.Some? ==> r.value.v == FindInMembers(ms, key).value
    ensures r.Some? && WFMembers(ms) && Delimited(k) ==> r.value.Ok()
    decreases ms
  {
    match ms
    case NoMembers => None
    case Member(_, v, rest) =>
      var f := FindAt(At(v, EmitMoreMembers(rest, k)), key);
      if f.Some? then f else FindAtMembers(rest, key, k)
  }

  /** Every value stored under the key, in text order, not looking inside the values found. */
  function AllAt(a: At, key: string): seq<At>
    decreases a.v, 0
  {
    match a.v
    case Obj(ms) => AllAtMembers(ms, key, Cons('}', a.after))
    case Arr(items) => AllAtItems(items, key, Cons(']', a.after))
    case _ => []
  }

  function AllAtItems(items: Items, key: string, k: string): seq<At>
    decreases items
  {
    match items
    case NoItems => []
    case Item(v, more) => AllAt(At(v, EmitMoreItems(more, k)), key) + AllAtItems(more, key, k)
  }

  function AllAtMembers(ms: Members, key: string, k: string): seq<At>
    decreases ms
  {
    match ms
    case NoMembers => []
    case Member(key', v, rest) =>
      AllAtMember(key', At(v, EmitMoreMembers(rest, k)), key) + AllAtMembers(rest, key, k)
  }

  function AllAtMember(key': string, here: At, key: string): seq<At>
    decreases here.v, 1
  {
    if key' == key then [here] else AllAt(here, key)
  }
}
