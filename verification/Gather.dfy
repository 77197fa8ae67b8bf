/** Scatter-gather as the client sees it, for every order in which the shards answer. */
module Gather {
  import opened Wrappers
  import opened Wire
  import opened Results
  import opened Framing
  import opened Ownership
  import opened Sessions

  datatype Arrival = Arrival(slot: nat, ev: SlotEvent)

  /** One event, and the end of the query when the counter is full. Releasing the slots is left to Proxy. */
  function Arrive(s: Session, a: Arrival): Session
    requires a.slot < |s.slots|
  {
    var s' := SlotEnded(s, a.slot, a.ev);
    if AllCounted(s') then s'.(log := s'.log + FinalMsgs(s'.header), state := READY) else s'
  }

  predicate SlotsOk(s: Session, arrivals: seq<Arrival>) {
    forall k :: 0 <= k < |arrivals| ==> arrivals[k].slot < |s.slots|
  }

  /** Events are delivered while the query is running. */
  function ArriveAll(s: Session, arrivals: seq<Arrival>): (r: Session)
    requires SlotsOk(s, arrivals)
    ensures |r.slots| == |s.slots|
    decreases arrivals
  {
    if arrivals == [] || s.state != SCATTER then s else ArriveAll(Arrive(s, arrivals[0]), arrivals[1..])
  }

  // ---------- What comes out ----------

  function ResultsOf(arrivals: seq<Arrival>): seq<Result> {
    if arrivals == [] then []
    else (if arrivals[0].ev.Got? then arrivals[0].ev.results else []) + ResultsOf(arrivals[1..])
  }

  function RowsOf(rs: seq<Result>): seq<Cells> {
    if rs == [] then [] else (if rs[0].Tuples? then rs[0].rows else []) + RowsOf(rs[1..])
  }

  function HeaderOf(rs: seq<Result>): seq<Msg> {
    if rs == [] then []
    else if rs[0].Tuples? then (if rs[0].fields != [] then [RowDescription(rs[0].fields)] else [])
    else HeaderOf(rs[1..])
  }

  predicate AnyTuples(rs: seq<Result>) {
    exists k :: 0 <= k < |rs| && rs[k].Tuples?
  }

  lemma {:induction false} GatherMsgsAre(rs: seq<Result>, header: bool)
    ensures GatherMsgs(rs, header).0 == (if header then [] else HeaderOf(rs)) + DataRows(RowsOf(rs))
    ensures GatherMsgs(rs, header).1 == (header || AnyTuples(rs))
  {
    if rs != [] {
      GatherMsgsAre(rs[1..], header || rs[0].Tuples?);
      if rs[0].Tuples? {
        var rows, more := DataRows(rs[0].rows), DataRows(RowsOf(rs[1..]));
        DataRowsConcat(rs[0].rows, RowsOf(rs[1..]));
        assert [] + more == more;
        Assoc(if !header && rs[0].fields != [] then [RowDescription(rs[0].fields)] else [], rows, more);
      } else {
        assert RowsOf(rs) == RowsOf(rs[1..]);
        if k :| 0 <= k < |rs| && rs[k].Tuples? {
          assert rs[1..][k - 1].Tuples?;
        }
      }
    }
  }

  lemma {:induction false} GatherConcat(a: seq<Result>, b: seq<Result>, header: bool)
    ensures GatherMsgs(a + b, header)
         == (GatherMsgs(a, header).0 + GatherMsgs(b, GatherMsgs(a, header).1).0,
             GatherMsgs(b, GatherMsgs(a, header).1).1)
  {
    if a == [] {
      assert a + b == b && [] + GatherMsgs(b, header).0 == GatherMsgs(b, header).0;
    } else {
      assert (a + b)[1..] == a[1..] + b;
      var h := header || a[0].Tuples?;
      GatherConcat(a[1..], b, h);
      if a[0].Tuples? {
        var f, x, y := Forward(a[0].fields, a[0].rows, !header), GatherMsgs(a[1..], h).0, GatherMsgs(b, GatherMsgs(a[1..], h).1).0;
        Assoc(f, x, y);
      }
    }
  }

  /** While fewer than `left` events have come, the log holds just their rows and the query goes on. */
  lemma {:induction false} Unfinished(s: Session, arrivals: seq<Arrival>)
    requires SlotsOk(s, arrivals) && s.state == SCATTER && s.scatterDone + |arrivals| < |s.slots|
    ensures var r := ArriveAll(s, arrivals);
            && r.state == SCATTER && r.scatterDone == s.scatterDone + |arrivals|
            && r.log == s.log + GatherMsgs(ResultsOf(arrivals), s.header).0
            && r.header == GatherMsgs(ResultsOf(arrivals), s.header).1
    decreases arrivals
  {
    if arrivals != [] {
      var s' := Arrive(s, arrivals[0]);
      var first := if arrivals[0].ev.Got? then arrivals[0].ev.results else [];
      var rest := ResultsOf(arrivals[1..]);
      Unfinished(s', arrivals[1..]);
      GatherConcat(first, rest, s.header);
      var x, h := GatherMsgs(first, s.header).0, GatherMsgs(first, s.header).1;
      assert s'.log == s.log + x && s'.header == h;
      Assoc(s.log, x, GatherMsgs(rest, h).0);
    }
  }

  lemma {:induction false} ArriveLast(s: Session, arrivals: seq<Arrival>, a: Arrival)
    requires SlotsOk(s, arrivals) && a.slot < |s.slots| && s.state == SCATTER
    requires s.scatterDone + |arrivals| < |s.slots|
    ensures ArriveAll(s, arrivals + [a]) == Arrive(ArriveAll(s, arrivals), a)
    decreases arrivals
  {
    if arrivals == [] {
      assert (arrivals + [a])[1..] == [];
    } else {
      assert (arrivals + [a])[1..] == arrivals[1..] + [a];
      ArriveLast(Arrive(s, arrivals[0]), arrivals[1..], a);
    }
  }

  lemma {:induction false} ResultsAppend(arrivals: seq<Arrival>, a: Arrival)
    ensures ResultsOf(arrivals + [a]) == ResultsOf(arrivals) + (if a.ev.Got? then a.ev.results else [])
  {
    if arrivals == [] {
      assert (arrivals + [a])[1..] == [];
    } else {
      assert (arrivals + [a])[1..] == arrivals[1..] + [a];
      ResultsAppend(arrivals[1..], a);
    }
  }

  /** Nothing final is said before the counter is full. */
  lemma {:induction false} NotBefore(s: Session, arrivals: seq<Arrival>)
    requires s.state == SCATTER && SlotsOk(s, arrivals) && s.scatterDone + |arrivals| < |s.slots|
    ensures ArriveAll(s, arrivals).state == SCATTER && Ready(ArriveAll(s, arrivals).log) == Ready(s.log)
  {
    Unfinished(s, arrivals);
    GatherNotReady(ResultsOf(arrivals), s.header);
    ReadyConcat(s.log, GatherMsgs(ResultsOf(arrivals), s.header).0);
  }

  lemma Finish(s: Session, front: seq<Arrival>, last: Arrival)
    requires s.state == SCATTER && SlotsOk(s, front) && last.slot < |s.slots|
    requires s.scatterDone + |front| + 1 == |s.slots|
    ensures var rs := ResultsOf(front + [last]);
            && ArriveAll(s, front + [last]).state == READY
            && ArriveAll(s, front + [last]).log
               == s.log + GatherMsgs(rs, s.header).0 + FinalMsgs(GatherMsgs(rs, s.header).1)
  {
    var a, b := ResultsOf(front), if last.ev.Got? then last.ev.results else [];
    Unfinished(s, front);
    ArriveLast(s, front, last);
    ResultsAppend(front, last);
    GatherConcat(a, b, s.header);
    var x, y := GatherMsgs(a, s.header).0, GatherMsgs(b, GatherMsgs(a, s.header).1).0;
    Assoc(s.log, x, y);
  }

  /**
   The answer to a scattered query: the header of the first shard that has rows, the rows of every
   shard in order of arrival, one CommandComplete and one ReadyForQuery, and those two only with the
   event that fills the counter.
   */
  lemma GatherOutput(s: Session, arrivals: seq<Arrival>)
    requires s.state == SCATTER && !s.header && s.scatterDone < |s.slots|
    requires SlotsOk(s, arrivals) && s.scatterDone + |arrivals| == |s.slots|
    ensures var rs := ResultsOf(arrivals);
            && ArriveAll(s, arrivals).state == READY
            && ArriveAll(s, arrivals).log
               == s.log + (HeaderOf(rs) + DataRows(RowsOf(rs))) + FinalMsgs(AnyTuples(rs))
    ensures forall k :: 0 <= k < |arrivals| ==>
              ArriveAll(s, arrivals[..k]).state == SCATTER && Ready(ArriveAll(s, arrivals[..k]).log) == Ready(s.log)
  {
    var n := |arrivals| - 1;
    assert arrivals == arrivals[..n] + [arrivals[n]];
    Finish(s, arrivals[..n], arrivals[n]);
    GatherMsgsAre(ResultsOf(arrivals), false);
    forall k | 0 <= k < |arrivals|
      ensures ArriveAll(s, arrivals[..k]).state == SCATTER && Ready(ArriveAll(s, arrivals[..k]).log) == Ready(s.log)
    {
      NotBefore(s, arrivals[..k]);
    }
  }

  /** The tag of a scatter is SELECT 0 exactly when no shard returned a result set, and SELECT otherwise. */
  lemma FinalExactly(rs: seq<Result>)
    ensures var final := FinalMsgs(AnyTuples(rs));
            && |final| == 2 && final[1] == ReadyForQuery('I' as int) && final[0].CommandComplete?
            && (final[0].tag == [83, 69, 76, 69, 67, 84, 32, 48] <==> forall k :: 0 <= k < |rs| ==> !rs[k].Tuples?)
            && (final[0].tag == [83, 69, 76, 69, 67, 84] <==> exists k :: 0 <= k < |rs| && rs[k].Tuples?)
  {
    assert Text("SELECT 0") == [83, 69, 76, 69, 67, 84, 32, 48];
    assert Text("SELECT") == [83, 69, 76, 69, 67, 84];
    assert |Text("SELECT 0")| != |Text("SELECT")|;
  }

  // ---------- The counter counts events, not shards ----------

  function DoneSlots(s: Session): set<nat> {
    set i | 0 <= i < |s.slots| && s.slots[i].done
  }

  function SlotsHit(arrivals: seq<Arrival>): set<nat> {
    set k | 0 <= k < |arrivals| :: arrivals[k].slot
  }

  predicate OncePerSlot(arrivals: seq<Arrival>) {
    forall j, k :: 0 <= j < k < |arrivals| ==> arrivals[j].slot != arrivals[k].slot
  }

  lemma {:induction false} DoneAfter(s: Session, arrivals: seq<Arrival>)
    requires SlotsOk(s, arrivals) && s.state == SCATTER && s.scatterDone + |arrivals| <= |s.slots|
    ensures DoneSlots(ArriveAll(s, arrivals)) == DoneSlots(s) + SlotsHit(arrivals)
    decreases arrivals
  {
    if arrivals != [] {
      var s', rest := Arrive(s, arrivals[0]), arrivals[1..];
      assert DoneSlots(s') == DoneSlots(s) + {arrivals[0].slot};
      assert SlotsHit(arrivals) == {arrivals[0].slot} + SlotsHit(rest) by {
        forall i | i in SlotsHit(arrivals)
          ensures i == arrivals[0].slot || i in SlotsHit(rest)
        {
          var k :| 0 <= k < |arrivals| && arrivals[k].slot == i;
          assert k > 0 ==> rest[k - 1].slot == i;
        }
        forall i | i in SlotsHit(rest)
          ensures i in SlotsHit(arrivals)
        {
          var k :| 0 <= k < |rest| && rest[k].slot == i;
          assert arrivals[k + 1].slot == i;
        }
      }
      if rest == [] {
        assert ArriveAll(s', rest) == s' && SlotsHit(rest) == {};
      } else {
        DoneAfter(s', rest);
      }
    }
  }

  lemma {:induction false} HitCount(arrivals: seq<Arrival>)
    ensures |SlotsHit(arrivals)| <= |arrivals|
    ensures |SlotsHit(arrivals)| == |arrivals| <==> OncePerSlot(arrivals)
  {
    if arrivals != [] {
      var n := |arrivals| - 1;
      var front, last := arrivals[..n], arrivals[n].slot;
      HitCount(front);
      assert SlotsHit(arrivals) == SlotsHit(front) + {last};
      if last in SlotsHit(front) {
        assert SlotsHit(arrivals) == SlotsHit(front);
        var k :| 0 <= k < |front| && front[k].slot == last;
        assert arrivals[k].slot == arrivals[n].slot;
      } else {
        assert |SlotsHit(arrivals)| == |SlotsHit(front)| + 1;
        forall k | 0 <= k < n
          ensures arrivals[k].slot != last
        {
          assert front[k].slot in SlotsHit(front);
        }
        assert OncePerSlot(arrivals) <==> OncePerSlot(front);
      }
    }
  }

  function UpTo(n: nat): (r: set<nat>)
    ensures |r| == n && forall i: nat :: i in r <==> i < n
  {
    if n == 0 then {} else UpTo(n - 1) + {n - 1}
  }

  lemma SubsetSize(a: set<nat>, b: set<nat>)
    requires a <= b
    ensures |a| <= |b| && (|a| == |b| <==> a == b)
  {
    assert b == a + (b - a);
  }

  /**
   The reply goes out when every shard has ended exactly when no shard's end was counted twice: a
   connection that reports an error stays registered and can report again.
   */
  lemma EveryShardEndedExactly(s: Session, arrivals: seq<Arrival>)
    requires s.state == SCATTER && SlotsOk(s, arrivals) && s.scatterDone + |arrivals| == |s.slots|
    requires |DoneSlots(s)| == s.scatterDone
    requires forall k :: 0 <= k < |arrivals| ==> arrivals[k].slot !in DoneSlots(s)
    ensures (forall i :: 0 <= i < |s.slots| ==> ArriveAll(s, arrivals).slots[i].done) <==> OncePerSlot(arrivals)
  {
    var r, n := ArriveAll(s, arrivals), |s.slots|;
    var all := UpTo(n);
    DoneAfter(s, arrivals);
    HitCount(arrivals);
    assert DoneSlots(s) !! SlotsHit(arrivals);
    assert |DoneSlots(r)| == s.scatterDone + |SlotsHit(arrivals)|;
    assert DoneSlots(r) <= all;
    SubsetSize(DoneSlots(r), all);
    assert DoneSlots(r) == all <==> forall i :: 0 <= i < n ==> r.slots[i].done by {
      if DoneSlots(r) == all {
        forall i | 0 <= i < n
          ensures r.slots[i].done
        {
          assert i in all;
        }
      }
    }
  }

  // ---------- Whose rows they are ----------

  function GotRows(ev: SlotEvent): seq<Cells> {
    if ev.Got? then RowsOf(ev.results) else []
  }

  /** The rows of all ends of one slot. */
  function RowsOfSlot(arrivals: seq<Arrival>, i: nat): seq<Cells> {
    if arrivals == [] then [] else Here(arrivals[0], i) + RowsOfSlot(arrivals[1..], i)
  }

  /** The rows in the order of the slots. */
  function RowsBySlot(arrivals: seq<Arrival>, n: nat): seq<Cells> {
    if n == 0 then [] else RowsBySlot(arrivals, n - 1) + RowsOfSlot(arrivals, n - 1)
  }

  lemma {:induction false} RowsOfConcat(a: seq<Result>, b: seq<Result>)
    ensures RowsOf(a + b) == RowsOf(a) + RowsOf(b)
  {
    if a == [] {
      assert a + b == b;
    } else {
      assert (a + b)[1..] == a[1..] + b;
      RowsOfConcat(a[1..], b);
    }
  }

  lemma Regroup(m: multiset<Cells>, p: multiset<Cells>, q: multiset<Cells>, x: multiset<Cells>, y: multiset<Cells>,
                z: multiset<Cells>, m': multiset<Cells>, p': multiset<Cells>, q': multiset<Cells>)
    requires m == p + q && p == x + p' && q == y + q' && z == x + y && m' == p' + q'
    ensures m == z + m'
  {
  }

  /** The rows of an end, if its slot is i. */
  function Here(a: Arrival, i: nat): seq<Cells> {
    if a.slot == i then GotRows(a.ev) else []
  }

  /** The rows of an end, if its slot is below n. */
  function Below(a: Arrival, n: nat): seq<Cells> {
    if a.slot < n then GotRows(a.ev) else []
  }

  lemma BelowNext(a: Arrival, n: nat)
    ensures multiset(Below(a, n + 1)) == multiset(Below(a, n)) + multiset(Here(a, n))
  {
  }

  lemma NextSlot(arrivals: seq<Arrival>, n: nat)
    ensures multiset(RowsBySlot(arrivals, n + 1)) == multiset(RowsBySlot(arrivals, n)) + multiset(RowsOfSlot(arrivals, n))
  {
    assert RowsBySlot(arrivals, n + 1) == RowsBySlot(arrivals, n) + RowsOfSlot(arrivals, n);
  }

  lemma NextEnd(arrivals: seq<Arrival>, i: nat)
    requires arrivals != []
    ensures multiset(RowsOfSlot(arrivals, i)) == multiset(Here(arrivals[0], i)) + multiset(RowsOfSlot(arrivals[1..], i))
  {
    assert RowsOfSlot(arrivals, i) == Here(arrivals[0], i) + RowsOfSlot(arrivals[1..], i);
  }

  lemma {:induction false} OneMore(arrivals: seq<Arrival>, n: nat)
    requires arrivals != []
    ensures multiset(RowsBySlot(arrivals, n)) == multiset(Below(arrivals[0], n)) + multiset(RowsBySlot(arrivals[1..], n))
    decreases n
  {
    if n > 0 {
      var a, rest, k := arrivals[0], arrivals[1..], n - 1;
      OneMore(arrivals, k);
      BelowNext(a, k);
      NextSlot(arrivals, k);
      NextSlot(rest, k);
      NextEnd(arrivals, k);
      Regroup(multiset(RowsBySlot(arrivals, n)), multiset(RowsBySlot(arrivals, k)), multiset(RowsOfSlot(arrivals, k)),
              multiset(Below(a, k)), multiset(Here(a, k)), multiset(Below(a, n)),
              multiset(RowsBySlot(rest, n)), multiset(RowsBySlot(rest, k)), multiset(RowsOfSlot(rest, k)));
    }
  }

  lemma {:induction false} NoRows(n: nat)
    ensures RowsBySlot([], n) == []
  {
    if n > 0 {
      NoRows(n - 1);
    }
  }

  /** In whatever order the shards answer, the client gets the rows they would give in slot order. */
  lemma {:induction false} SameRows(arrivals: seq<Arrival>, n: nat)
    requires forall k :: 0 <= k < |arrivals| ==> arrivals[k].slot < n
    ensures multiset(RowsOf(ResultsOf(arrivals))) == multiset(RowsBySlot(arrivals, n))
  {
    if arrivals == [] {
      NoRows(n);
    } else {
      SameRows(arrivals[1..], n);
      OneMore(arrivals, n);
      RowsOfConcat(if arrivals[0].ev.Got? then arrivals[0].ev.results else [], ResultsOf(arrivals[1..]));
    }
  }

  /** A slot that ended once gives the rows of that end. */
  lemma {:induction false} RowsOfOneEnd(arrivals: seq<Arrival>, k: nat)
    requires k < |arrivals| && OncePerSlot(arrivals)
    ensures RowsOfSlot(arrivals, arrivals[k].slot) == GotRows(arrivals[k].ev)
  {
    if k == 0 {
      NotHit(arrivals[1..], arrivals[0].slot);
    } else {
      assert arrivals[0].slot != arrivals[k].slot;
      RowsOfOneEnd(arrivals[1..], k - 1);
    }
  }

  lemma {:induction false} NotHit(arrivals: seq<Arrival>, i: nat)
    requires forall k :: 0 <= k < |arrivals| ==> arrivals[k].slot != i
    ensures RowsOfSlot(arrivals, i) == []
  {
    if arrivals != [] {
      NotHit(arrivals[1..], i);
    }
  }

  /** Two shards: the first one's connection reports its error twice, and the client is told the query is over. */
  lemma {:induction false} LostTwice(s: Session)
    requires s.state == SCATTER && s.scatterDone == 0
    requires |s.slots| == 2 && !s.slots[0].done && !s.slots[1].done
    ensures var r := ArriveAll(s, [Arrival(0, Lost), Arrival(0, Lost)]);
            r.state == READY && !r.slots[1].done && r.log == s.log + FinalMsgs(s.header)
  {
    var a := Arrival(0, Lost);
    assert [a, a][1..] == [a] && [a][1..] == [];
    var s' := Arrive(s, a);
    assert s'.state == SCATTER && s'.log == s.log + [] == s.log;
    assert Arrive(s', a).log == (s.log + []) + FinalMsgs(s.header);
  }
}
