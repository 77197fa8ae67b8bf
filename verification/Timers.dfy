/** src/event/timer.c: millisecond arithmetic on timespecs, and which timers fire. */
module Timers {
  const NS_PER_SEC := 1_000_000_000
  const NS_PER_MS := 1_000_000

  datatype Time = Time(sec: int, nsec: int)

  predicate Normal(t: Time) {
    0 <= t.nsec < NS_PER_SEC
  }

  function Nanos(t: Time): int {
    t.sec * NS_PER_SEC + t.nsec
  }

  /** Division in C rounds toward zero. */
  function TruncDiv(a: int, b: int): int
    requires b > 0
  {
    if a >= 0 then a / b else -((-a) / b)
  }

  function DiffMs(a: Time, b: Time): int {
    (a.sec - b.sec) * 1000 + TruncDiv(a.nsec - b.nsec, NS_PER_MS)
  }

  /** The truncated difference is less than a millisecond off the exact one. */
  lemma DiffWithinOneMs(a: Time, b: Time)
    ensures var exact := Nanos(a) - Nanos(b);
            -NS_PER_MS < exact - DiffMs(a, b) * NS_PER_MS < NS_PER_MS
  {
    var d := a.nsec - b.nsec;
    assert d >= 0 ==> d == (d / NS_PER_MS) * NS_PER_MS + d % NS_PER_MS;
    assert d < 0 ==> -d == ((-d) / NS_PER_MS) * NS_PER_MS + (-d) % NS_PER_MS;
  }

  /** Carries nanoseconds into seconds; only a negative delay can leave the result unnormalised. */
  method AddMs(t: Time, ms: int) returns (r: Time)
    requires Normal(t)
    ensures Nanos(r) == Nanos(t) + ms * NS_PER_MS
    ensures Normal(r) <==> t.nsec + ms * NS_PER_MS >= 0
  {
    r := t.(nsec := t.nsec + ms * NS_PER_MS);
    while r.nsec >= NS_PER_SEC
      invariant Nanos(r) == Nanos(t) + ms * NS_PER_MS
      invariant r.nsec >= 0 <==> t.nsec + ms * NS_PER_MS >= 0
      decreases r.nsec
    {
      r := Time(r.sec + 1, r.nsec - NS_PER_SEC);
    }
  }

  datatype Timer = Timer(interval: int, next: Time, active: bool)

  predicate Due(t: Timer, now: Time) {
    t.active && DiffMs(t.next, now) <= 0
  }

  /**
   A timer is due exactly when its time has come or, if the nanosecond fields are in order, when less than
   a millisecond is missing. So every timer whose time has come is due and none is a millisecond early.
   */
  lemma DueExactly(t: Timer, now: Time)
    requires t.active
    ensures Due(t, now) <==> Nanos(t.next) - Nanos(now) < if t.next.nsec >= now.nsec then NS_PER_MS else 1
  {
    var d := t.next.nsec - now.nsec;
    assert d >= 0 ==> d == (d / NS_PER_MS) * NS_PER_MS + d % NS_PER_MS;
    assert d < 0 ==> -d == ((-d) / NS_PER_MS) * NS_PER_MS + (-d) % NS_PER_MS;
  }

  /** A timer set at one clock reading is not due before its interval, less one millisecond, has passed. */
  lemma FiresAfterInterval(t: Timer, start: Time, now: Time)
    requires t.active && Nanos(t.next) == Nanos(start) + t.interval * NS_PER_MS && Due(t, now)
    ensures Nanos(now) - Nanos(start) > (t.interval - 1) * NS_PER_MS
  {
    DueExactly(t, now);
  }

  function DueFrom(ts: seq<Timer>, now: Time, i: nat): seq<nat>
    requires i <= |ts|
    decreases |ts| - i
  {
    if i == |ts| then [] else (if Due(ts[i], now) then [i] else []) + DueFrom(ts, now, i + 1)
  }

  const MAX_TIMERS := 32

  class TimerQueue {
    var timers: seq<Timer>

    method Add(interval: int, now: Time) returns (id: int)
      requires Normal(now)
      modifies this
      ensures if |old(timers)| >= MAX_TIMERS then id == -1 && timers == old(timers)
              else id == |old(timers)| && |timers| == id + 1 && timers[..id] == old(timers)
                   && timers[id].active && timers[id].interval == interval
                   && Nanos(timers[id].next) == Nanos(now) + interval * NS_PER_MS
    {
      if |timers| >= MAX_TIMERS {
        return -1;
      }
      id := |timers|;
      var next := AddMs(now, interval);
      timers := timers + [Timer(interval, next, true)];
    }

    /** How long epoll may sleep, in milliseconds. */
    method NextTimeout(now: Time) returns (ms: int)
      ensures 0 <= ms <= 1000
      ensures ms == 0 <==> exists i :: 0 <= i < |timers| && Due(timers[i], now)
      ensures ms > 0 ==> forall i :: 0 <= i < |timers| && timers[i].active ==> ms <= DiffMs(timers[i].next, now)
      ensures 0 < ms < 1000 ==> exists i :: 0 <= i < |timers| && timers[i].active && ms == DiffMs(timers[i].next, now)
    {
      ms := 1000;
      for i := 0 to |timers|
        invariant 0 < ms <= 1000
        invariant forall j :: 0 <= j < i ==> !Due(timers[j], now)
        invariant forall j :: 0 <= j < i && timers[j].active ==> ms <= DiffMs(timers[j].next, now)
        invariant ms < 1000 ==> exists j :: 0 <= j < i && timers[j].active && ms == DiffMs(timers[j].next, now)
      {
        if timers[i].active {
          var diff := DiffMs(timers[i].next, now);
          if diff <= 0 {
            return 0;
          }
          if diff < ms {
            ms := diff;
          }
        }
      }
    }

    /** Fires the timers that are due at `now` and sets each again from the clock reading after its callback. */
    method ProcessExpired(now: Time, clock: nat -> Time) returns (fired: seq<nat>)
      requires forall i :: Normal(clock(i))
      modifies this
      ensures fired == DueFrom(old(timers), now, 0)
      ensures |timers| == |old(timers)|
      ensures forall i :: 0 <= i < |timers| ==> SetAgain(old(timers)[i], timers[i], now, clock(i))
    {
      ghost var before := timers;
      fired := [];
      for i := 0 to |timers|
        invariant |timers| == |before| && before == old(timers)
        invariant fired + DueFrom(before, now, i) == DueFrom(before, now, 0)
        invariant forall j :: i <= j < |timers| ==> timers[j] == before[j]
        invariant forall j :: 0 <= j < i ==> SetAgain(before[j], timers[j], now, clock(j))
      {
        DueNext(before, now, i);
        if timers[i].active && DiffMs(timers[i].next, now) <= 0 {
          fired := fired + [i];
          var next := AddMs(clock(i), timers[i].interval);
          timers := timers[i := timers[i].(next := next)];
        }
      }
    }
  }

  /** A due timer is set again one interval after the clock reading; another one stays as it is. */
  predicate SetAgain(t: Timer, t': Timer, now: Time, clock: Time) {
    if Due(t, now) then t' == t.(next := t'.next) && Nanos(t'.next) == Nanos(clock) + t.interval * NS_PER_MS
    else t' == t
  }

  lemma DueNext(ts: seq<Timer>, now: Time, i: nat)
    requires i < |ts|
    ensures forall fired: seq<nat> ::
              fired + DueFrom(ts, now, i) == (if Due(ts[i], now) then fired + [i] else fired) + DueFrom(ts, now, i + 1)
  {
    forall fired: seq<nat>
      ensures fired + DueFrom(ts, now, i) == (if Due(ts[i], now) then fired + [i] else fired) + DueFrom(ts, now, i + 1)
    {
      assert fired + [] == fired;
    }
  }

  lemma {:induction false} DueFromMember(ts: seq<Timer>, now: Time, from: nat, i: nat)
    requires from <= |ts|
    ensures i in DueFrom(ts, now, from) <==> from <= i < |ts| && Due(ts[i], now)
    decreases |ts| - from
  {
    if from < |ts| {
      DueFromMember(ts, now, from + 1, i);
    }
  }

  /** A zero timeout is asked for exactly when processing at that instant would fire something. */
  lemma ZeroTimeoutExactly(ts: seq<Timer>, now: Time)
    ensures (exists i :: 0 <= i < |ts| && Due(ts[i], now)) <==> DueFrom(ts, now, 0) != []
  {
    if i :| 0 <= i < |ts| && Due(ts[i], now) {
      DueFromMember(ts, now, 0, i);
    }
    if DueFrom(ts, now, 0) != [] {
      DueFromMember(ts, now, 0, DueFrom(ts, now, 0)[0]);
    }
  }
}
