/** handle_query of src/protocol/fe_protocol.c: from the parse tree of a query to the connections it waits on. */
module Queries {
  import opened Wrappers
  import opened JsonText
  import opened ParseTree
  import opened ShardMap
  import opened Router
  import opened Config
  import opened Framing
  import opened Pool
  import opened Ownership
  import opened Sessions
  import opened Proxy

  function PlanFor(d: Decision): Plan
    requires d.route == SINGLE ==> d.targets != []
  {
    match d.route
    case SINGLE => ToShard(d.targets[0])
    case SCATTER => ToAll(d.targets)
    case LOCAL => Local
    case DEFAULT => ToDefault
  }

  /** What is done with a query; None is a query that libpg_query rejects. */
  function PlanOf(m: Map, doc: Option<Json>): Plan
    requires m.Valid()
  {
    if m.shards == [] then NoMap
    else if doc.None? || !ParseDoc(doc.value).0 then SyntaxError
    else PlanFor(RouteDoc(m, doc.value))
  }

  /** Under a loaded configuration every target has a pool, and no query is too wide for a scatter. */
  lemma {:induction false} PlanFits(m: Map, doc: Option<Json>)
    requires Loaded(m)
    ensures var plan := PlanOf(m, doc);
            PlanInRange(plan, |m.shards|) && (plan.ToAll? ==> |plan.targets| <= MAX_SCATTER_SHARDS)
  {
    if doc.Some? {
      PlanForFits(m, RouteDoc(m, doc.value));
    }
  }

  lemma PlanForFits(m: Map, d: Decision)
    requires Loaded(m) && Fits(m, d)
    ensures var plan := PlanFor(d);
            PlanInRange(plan, |m.shards|) && (plan.ToAll? ==> |plan.targets| <= MAX_SCATTER_SHARDS)
  {
    if d.rule.Some? {
      assert m.TargetsOk(m.rules[d.rule.value].shards);
    }
  }

  /** So the session is never closed for it: it is answered at once or waits on the shards of the route. */
  method HandleQuery(p: Proxy, sid: Sid, m: Map, text: Option<string>, ghost doc: Option<Json>, luck: Luck)
    requires p.Valid() && sid in p.sessions && p.sessions[sid].state == READY
    requires Loaded(m) && |p.pools| == |m.shards|
    requires text.Some? <==> doc.Some?
    requires doc.Some? ==> WF(doc.value) && text.value == Render(doc.value) && Comparable(m, ParseDoc(doc.value).1)
    modifies p
    ensures p.Valid() && sid in p.sessions && p.sessions == old(p.sessions)[sid := p.sessions[sid]]
    ensures Handled(old(p.sessions[sid]), p.sessions[sid], PlanOf(m, doc))
  {
    PlanFits(m, doc);
    var plan := NoMap;
    if |m.shards| > 0 {
      plan := SyntaxError;
      if text.Some? {
        var d := RouteText(m, text.value, doc.value);
        if d.Some? {
          plan := PlanFor(d.value);
        }
      }
    }
    p.OnQuery(sid, plan, luck);
  }
}
