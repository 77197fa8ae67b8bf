/** The recursive search of src/parser/json_util.c never leaves the value it was given. */
module JsonInside {
  import opened JsonText

  /** A pointer into the text: the text from there to its end. */
  predicate EndOf(t: string, whole: string) {
    |t| <= |whole| && whole[|whole| - |t|..] == t
  }

  lemma EndTrans(a: string, b: string, c: string)
    requires EndOf(a, b) && EndOf(b, c)
    ensures EndOf(a, c)
  {
    assert b[|b| - |a|..] == c[|c| - |b|..][|b| - |a|..];
  }

  lemma EndCons(t: string, c: char, k: string)
    requires EndOf(t, k)
    ensures EndOf(t, Cons(c, k))
  {
    EndTrans(t, k, Cons(c, k));
  }

  lemma {:induction false} EndSpell(s: string, k: string)
    ensures EndOf(k, Spell(s, k))
  {
    if s != "" {
      EndSpell(s[1..], k);
      EndCons(k, s[0], Spell(s[1..], k));
    }
  }

  lemma EndQuote(b: string, k: string)
    ensures EndOf(k, Quote(b, k))
  {
    var closing := Cons('"', k);
    EndSpell(b, closing);
    EndCons(closing, '"', Spell(b, closing));
    EndTrans(k, closing, Quote(b, k));
  }

  lemma {:induction false} EndEmit(v: Json, k: string)
    ensures EndOf(k, Emit(v, k))
    decreases v
  {
    match v
    case Atom(t) => EndSpell(t, k);
    case Str(b) => EndQuote(b, k);
    case Arr(items) =>
      EndItems(items, Cons(']', k));
      EndTrans(k, Cons(']', k), EmitItems(items, Cons(']', k)));
      EndCons(k, '[', EmitItems(items, Cons(']', k)));
    case Obj(ms) =>
      EndMembers(ms, Cons('}', k));
      EndTrans(k, Cons('}', k), EmitMembers(ms, Cons('}', k)));
      EndCons(k, '{', EmitMembers(ms, Cons('}', k)));
  }

  lemma {:induction false} EndItems(items: Items, k: string)
    ensures EndOf(k, EmitItems(items, k)) && EndOf(k, EmitMoreItems(items, k))
    decreases items
  {
    match items
    case NoItems =>
    case Item(v, more) =>
      EndItems(more, k);
      EndEmit(v, EmitMoreItems(more, k));
      EndTrans(k, EmitMoreItems(more, k), EmitItems(items, k));
      EndCons(k, ',', EmitItems(items, k));
  }

  /** The value of the first member stands inside the text of the members. */
  lemma FirstMember(ms: Members, k: string)
    requires ms.Member?
    ensures var here := At(ms.value, EmitMoreMembers(ms.rest, k));
            EndOf(here.Text(), EmitMembers(ms, k)) && EndOf(here.Text(), EmitMoreMembers(ms, k))
  {
    var here := At(ms.value, EmitMoreMembers(ms.rest, k));
    EndQuote(ms.key, Cons(':', here.Text()));
    EndCons(here.Text(), ':', here.Text());
    EndTrans(here.Text(), Cons(':', here.Text()), EmitMembers(ms, k));
    EndCons(here.Text(), ',', EmitMembers(ms, k));
  }

  lemma {:induction false} EndMembers(ms: Members, k: string)
    ensures EndOf(k, EmitMembers(ms, k)) && EndOf(k, EmitMoreMembers(ms, k))
    decreases ms
  {
    if ms.Member? {
      var rest := EmitMoreMembers(ms.rest, k);
      EndMembers(ms.rest, k);
      EndEmit(ms.value, rest);
      EndTrans(k, rest, Emit(ms.value, rest));
      FirstMember(ms, k);
      EndTrans(k, Emit(ms.value, rest), EmitMembers(ms, k));
      EndTrans(k, Emit(ms.value, rest), EmitMoreMembers(ms, k));
    }
  }

  /** The rest of the members stands inside their text. */
  lemma RestMembers(ms: Members, k: string, t: string)
    requires ms.Member? && EndOf(t, EmitMoreMembers(ms.rest, k))
    ensures EndOf(t, EmitMembers(ms, k)) && EndOf(t, EmitMoreMembers(ms, k))
  {
    var rest := EmitMoreMembers(ms.rest, k);
    EndEmit(ms.value, rest);
    EndTrans(t, rest, Emit(ms.value, rest));
    FirstMember(ms, k);
    EndTrans(t, Emit(ms.value, rest), EmitMembers(ms, k));
    EndTrans(t, Emit(ms.value, rest), EmitMoreMembers(ms, k));
  }

  /** What was found begins in the text and ends before the text that follows. */
  predicate Within(r: At, text: string, after: string) {
    EndOf(r.Text(), text) && EndOf(after, r.after)
  }

  lemma {:induction false} MemberInside(ms: Members, key: string, k: string)
    ensures var r := MemberAt(ms, key, k);
            r.Some? ==> Within(r.value, EmitMembers(ms, k), k) && Within(r.value, EmitMoreMembers(ms, k), k)
    decreases ms
  {
    if ms.Member? {
      FirstMember(ms, k);
      EndMembers(ms.rest, k);
      MemberInside(ms.rest, key, k);
      if ms.key != key && MemberAt(ms.rest, key, k).Some? {
        RestMembers(ms, k, MemberAt(ms.rest, key, k).value.Text());
      }
    }
  }

  lemma {:induction false} ItemsInside(items: Items, key: string, k: string)
    ensures var r := FindAtItems(items, key, k);
            r.Some? ==> Within(r.value, EmitItems(items, k), k) && Within(r.value, EmitMoreItems(items, k), k)
    decreases items, 1
  {
    var r := FindAtItems(items, key, k);
    if items.Item? && r.Some? {
      var next := EmitMoreItems(items.more, k);
      var here := At(items.value, next);
      if FindAt(here, key).Some? {
        FoundInside(here, key);
        EndItems(items.more, k);
        EndTrans(k, next, r.value.after);
      } else {
        ItemsInside(items.more, key, k);
        EndEmit(items.value, next);
        EndTrans(r.value.Text(), next, here.Text());
      }
      EndCons(r.value.Text(), ',', here.Text());
    }
  }

  lemma {:induction false} MembersInside(ms: Members, key: string, k: string)
    ensures var r := FindAtMembers(ms, key, k);
            r.Some? ==> Within(r.value, EmitMembers(ms, k), k) && Within(r.value, EmitMoreMembers(ms, k), k)
    decreases ms, 1
  {
    var r := FindAtMembers(ms, key, k);
    if ms.Member? && r.Some? {
      var next := EmitMoreMembers(ms.rest, k);
      var here := At(ms.value, next);
      if FindAt(here, key).Some? {
        FoundInside(here, key);
        EndMembers(ms.rest, k);
        EndTrans(k, next, r.value.after);
        FirstMember(ms, k);
        EndTrans(r.value.Text(), here.Text(), EmitMembers(ms, k));
        EndTrans(r.value.Text(), here.Text(), EmitMoreMembers(ms, k));
      } else {
        MembersInside(ms.rest, key, k);
        RestMembers(ms, k, r.value.Text());
      }
    }
  }

  /** The value found lies strictly between the ends of the value searched. */
  lemma {:induction false} FoundInside(a: At, key: string)
    ensures var r := FindAt(a, key);
            r.Some? ==> Within(r.value, a.Text(), a.after)
                        && |r.value.Text()| < |a.Text()| && |a.after| < |r.value.after|
    decreases a.v, 0
  {
    var r := FindAt(a, key);
    if r.Some? {
      match a.v
      case Arr(items) =>
        var k := Cons(']', a.after);
        ItemsInside(items, key, k);
        EndCons(r.value.Text(), '[', EmitItems(items, k));
        EndTrans(a.after, k, r.value.after);
      case Obj(ms) =>
        var k := Cons('}', a.after);
        MemberInside(ms, key, k);
        if GetAt(a, key).None? {
          MembersInside(ms, key, k);
        }
        EndCons(r.value.Text(), '{', EmitMembers(ms, k));
        EndTrans(a.after, k, r.value.after);
    }
  }
}
