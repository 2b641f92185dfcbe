/**
 How long the login queue takes to empty, and what a newcomer does to the waiting
 (Server/CharServer/QueueManager.cpp).
 */
module LoginQueueDrain {
  import opened LoginQueue
  import opened LoginQueueRuns

  /** Only ticks, each of at least `t` milliseconds. */
  predicate OnlyTicks(events: seq<Event>, t: nat) {
    forall i :: 0 <= i < |events| ==> events[i].Tick? && events[i].tick >= t
  }

  /** Only ticks of exactly `t` milliseconds. */
  predicate SteadyTicks(events: seq<Event>, t: nat) {
    forall i :: 0 <= i < |events| ==> events[i].Tick? && events[i].tick == t
  }

  predicate TimesBounded(queue: seq<Entry>) {
    forall i :: 0 <= i < |queue| ==> queue[i].timeLeft <= FULL_TIME
  }

  lemma {:induction false} AfterFirst(s: Server, events: seq<Event>)
    requires events != []
    ensures After(s, events) == After(Next(s, events[0]), events[1..])
    decreases |events|
  {
    var init := events[..|events| - 1];
    if |events| > 1 {
      AfterFirst(s, init);
      assert events[1..][..|events[1..]| - 1] == init[1..];
    } else {
      assert init == [];
    }
  }

  lemma {:induction false} AfterConcat(s: Server, a: seq<Event>, b: seq<Event>)
    ensures After(s, a + b) == After(After(s, a), b)
    decreases |b|
  {
    if b == [] {
      assert a + b == a;
    } else {
      var init := b[..|b| - 1];
      assert (a + b)[..|a + b| - 1] == a + init;
      AfterConcat(s, a, init);
    }
  }

  // ---------- one tick ----------

  /** The walk keeps what it has kept, and keeps at most one entry for each it visits. */
  lemma {:induction false} WalkGrows(s: Server, rest: seq<Entry>, tick: nat, channels: map<(nat, nat), Channel>)
    requires TimesBounded(s.queue) && TimesBounded(rest)
    ensures var t := Walk(s, rest, tick, channels);
            && s.queue <= t.queue && |t.queue| <= |s.queue| + |rest| && TimesBounded(t.queue)
    decreases |rest|
  {
    if rest != [] {
      var t := Visit(s, rest[0], tick, channels);
      assert TimesBounded(t.queue);
      WalkGrows(t, rest[1..], tick, channels);
    }
  }

  /** The head after a tick is the first entry that stayed; it has been counted down at position 1
      and not run out. */
  lemma {:induction false} HeadAfterWalk(s: Server, rest: seq<Entry>, tick: nat, channels: map<(nat, nat), Channel>)
    returns (i: nat)
    requires s.queue == [] && TimesBounded(rest)
    ensures var t := Walk(s, rest, tick, channels);
            t.queue != [] ==>
              && i < |rest| && |t.queue| <= |rest| - i
              && t.queue[0].timeLeft == SafeDecrease(rest[i].timeLeft, tick) > 0
    decreases |rest|
  {
    i := 0;
    if rest != [] {
      var t := Visit(s, rest[0], tick, channels);
      if t.queue == [] {
        var j := HeadAfterWalk(t, rest[1..], tick, channels);
        i := j + 1;
      } else {
        assert t.queue[0].timeLeft == SafeDecrease(rest[0].timeLeft, tick);
        WalkGrows(t, rest[1..], tick, channels);
      }
    }
  }

  lemma {:induction false} EmptyStays(s: Server, ticks: seq<Event>, t: nat)
    requires s.queue == [] && OnlyTicks(ticks, t)
    ensures After(s, ticks).queue == []
    decreases |ticks|
  {
    if ticks != [] {
      EmptyStays(s, ticks[..|ticks| - 1], t);
      assert ticks[|ticks| - 1].Tick?;
    }
  }

  lemma Product(a: nat, b: nat, k: nat)
    requires a <= b
    ensures a * k <= b * k
  {
    assert b * k == a * k + (b - a) * k;
  }

  // ---------- the queue empties ----------

  /** `j` ticks are enough for the head, and `k - 1` more for each entry behind it, which is first
      already in the tick in which the one before it leaves. */
  lemma {:induction false} TicksEmpty(s: Server, ticks: seq<Event>, t: nat, k: nat, j: nat)
    requires TimesBounded(s.queue) && OnlyTicks(ticks, t) && k > 0 && k * t >= FULL_TIME
    requires s.queue != [] ==> j > 0 && s.queue[0].timeLeft <= j * t && |ticks| >= j + (|s.queue| - 1) * (k - 1)
    ensures After(s, ticks).queue == []
    decreases |ticks|
  {
    if s.queue == [] {
      EmptyStays(s, ticks, t);
    } else {
      assert |ticks| > 0 by { Product(0, |s.queue| - 1, k - 1); }
      var Tick(tick, channels) := ticks[0];
      var start, next := s.(queue := []), Ticked(s, tick, channels);
      AfterFirst(s, ticks);
      WalkGrows(start, s.queue, tick, channels);
      var i := HeadAfterWalk(start, s.queue, tick, channels);
      if next.queue == [] {
        EmptyStays(next, ticks[1..], t);
      } else {
        var m := if i == 0 then j - 1 else k - 1;
        LessLeft(s.queue[i].timeLeft, tick, t, m + 1);
        EnoughLeft(|s.queue|, |next.queue|, i, j, k);
        TicksEmpty(next, ticks[1..], t, k, m);
      }
    }
  }

  /** One tick less is enough for an entry that has not run out. */
  lemma LessLeft(timeLeft: nat, tick: nat, t: nat, m: nat)
    requires m > 0 && timeLeft <= m * t && tick >= t && SafeDecrease(timeLeft, tick) > 0
    ensures m > 1 && SafeDecrease(timeLeft, tick) <= (m - 1) * t
  {
    assert m * t == (m - 1) * t + t;
  }

  lemma EnoughLeft(n: nat, left: nat, i: nat, j: nat, k: nat)
    requires 0 < left <= n - i && j > 0 && k > 0
    ensures j + (n - 1) * (k - 1) - 1 >= (if i == 0 then j - 1 else k - 1) + (left - 1) * (k - 1)
  {
    if i == 0 {
      Product(left - 1, n - 1, k - 1);
    } else {
      Product(left, n - 1, k - 1);
      assert left * (k - 1) == (left - 1) * (k - 1) + (k - 1);
    }
  }

  /** After any run: if `k` ticks of `t` milliseconds make a second, ticks of at least that length
      and nothing else empty a queue of `n` in at most `1 + n * (k - 1)` of them. */
  lemma {:induction false} QueueDrains(events: seq<Event>, ticks: seq<Event>, t: nat, k: nat)
    requires OnlyTicks(ticks, t) && k > 0 && k * t >= 1000
    requires |ticks| >= 1 + |After(NEW_SERVER, events).queue| * (k - 1)
    ensures After(NEW_SERVER, events + ticks).queue == []
  {
    ReachableInv(events);
    AfterConcat(NEW_SERVER, events, ticks);
    var s := After(NEW_SERVER, events);
    forall i | 0 <= i < |s.queue| ensures s.queue[i].timeLeft <= FULL_TIME {
      assert TimedEntry(s.queue[i], s.notes);
    }
    if s.queue != [] {
      assert |s.queue| * (k - 1) == (|s.queue| - 1) * (k - 1) + (k - 1);
    }
    TicksEmpty(s, ticks, t, k, k);
  }

  // ---------- and no sooner ----------

  predicate Present(s: Server, account: nat) {
    !Gone(s.players, account) && !Misplaced(s.players[account])
  }

  predicate AllPresent(s: Server, queue: seq<Entry>) {
    forall i :: 0 <= i < |queue| ==> Present(s, queue[i].account)
  }

  predicate AllFull(queue: seq<Entry>) {
    forall i :: 0 <= i < |queue| ==> queue[i].timeLeft == FULL_TIME
  }

  /** Behind a kept head everybody present stays and starts afresh. */
  lemma {:induction false} WalkBehind(s: Server, rest: seq<Entry>, tick: nat, channels: map<(nat, nat), Channel>)
    requires s.queue != [] && AllPresent(s, s.queue) && AllPresent(s, rest) && AllFull(s.queue[1..])
    ensures var t := Walk(s, rest, tick, channels);
            && |t.queue| == |s.queue| + |rest| && t.queue[0] == s.queue[0]
            && AllPresent(t, t.queue) && AllFull(t.queue[1..])
    decreases |rest|
  {
    if rest != [] {
      var e := Updated(rest[0], |s.queue| + 1, tick);
      var t := Visit(s, rest[0], tick, channels);
      assert t.queue == s.queue + [e] && t.queue[1..] == s.queue[1..] + [e];
      assert Present(s, rest[0].account);
      WalkBehind(t, rest[1..], tick, channels);
    }
  }

  /** A head that does not run out stays, with everybody behind it. */
  lemma HeadStays(s: Server, queue: seq<Entry>, tick: nat, channels: map<(nat, nat), Channel>)
    requires s.queue == [] && queue != [] && AllPresent(s, queue) && queue[0].timeLeft > tick
    ensures var t := Walk(s, queue, tick, channels);
            && |t.queue| == |queue| && t.queue[0].timeLeft == queue[0].timeLeft - tick
            && AllPresent(t, t.queue) && AllFull(t.queue[1..])
  {
    var t := Visit(s, queue[0], tick, channels);
    assert Present(s, queue[0].account);
    assert t.queue == [Updated(queue[0], 1, tick)] && t.queue[1..] == [];
    WalkBehind(t, queue[1..], tick, channels);
  }

  lemma HeadLeaves(s: Server, queue: seq<Entry>, tick: nat, channels: map<(nat, nat), Channel>)
    requires s.queue == [] && queue != [] && AllPresent(s, queue) && queue[0].timeLeft <= tick
    ensures var t := Visit(s, queue[0], tick, channels);
            && t.queue == [] && AllPresent(t, queue[1..])
            && Walk(s, queue, tick, channels) == Walk(t, queue[1..], tick, channels)
  {
    assert Present(s, queue[0].account);
    forall i | 0 <= i < |queue[1..]| ensures Present(Visit(s, queue[0], tick, channels), queue[1..][i].account) {
      assert Present(s, queue[i + 1].account);
    }
  }

  /** A head that needs `j` ticks, and full entries behind it that are all present, are not gone any
      sooner. */
  lemma {:induction false} TicksWait(s: Server, ticks: seq<Event>, t: nat, k: nat, j: nat)
    requires SteadyTicks(ticks, t) && k > 0 && (k - 1) * t < FULL_TIME
    requires s.queue != [] && AllPresent(s, s.queue) && AllFull(s.queue[1..])
    requires j > 0 && s.queue[0].timeLeft > (j - 1) * t && |ticks| < j + (|s.queue| - 1) * (k - 1)
    ensures After(s, ticks).queue != []
    decreases |ticks|
  {
    if ticks != [] {
      var Tick(tick, channels) := ticks[0];
      assert tick == t && SteadyTicks(ticks[1..], t);
      var start := s.(queue := []);
      AfterFirst(s, ticks);
      if s.queue[0].timeLeft > t {
        HeadStays(start, s.queue, t, channels);
        var next := Ticked(s, t, channels);
        if j > 1 {
          assert (j - 1) * t == (j - 2) * t + t;
          TicksWait(next, ticks[1..], t, k, j - 1);
        } else {
          TicksWait(next, ticks[1..], t, k, 1);
        }
      } else {
        assert j == 1 by { if j > 1 { Product(1, j - 1, t); } }
        NextWaits(s, ticks, t, k);
      }
    }
  }

  /** The head leaves in this tick, and the next entry is counted down in it already. */
  lemma {:induction false} NextWaits(s: Server, ticks: seq<Event>, t: nat, k: nat)
    requires ticks != [] && SteadyTicks(ticks, t) && k > 0 && (k - 1) * t < FULL_TIME
    requires s.queue != [] && AllPresent(s, s.queue) && AllFull(s.queue[1..])
    requires s.queue[0].timeLeft <= t && |ticks| < 1 + (|s.queue| - 1) * (k - 1)
    ensures After(s, ticks).queue != []
    decreases |ticks|, 0
  {
    var Tick(tick, channels) := ticks[0];
    assert tick == t && SteadyTicks(ticks[1..], t);
    assert k > 1 && |s.queue| > 1;
    assert (k - 1) * t == (k - 2) * t + t;
    Product(0, k - 2, t);
    AfterFirst(s, ticks);
    NextCounts(s, t, channels);
    assert (|s.queue| - 1) * (k - 1) == (|s.queue| - 2) * (k - 1) + (k - 1);
    TicksWait(Ticked(s, t, channels), ticks[1..], t, k, k - 1);
  }

  lemma NextCounts(s: Server, tick: nat, channels: map<(nat, nat), Channel>)
    requires |s.queue| > 1 && AllPresent(s, s.queue) && AllFull(s.queue[1..])
    requires s.queue[0].timeLeft <= tick < FULL_TIME
    ensures var t := Ticked(s, tick, channels);
            && |t.queue| == |s.queue| - 1 && t.queue[0].timeLeft == FULL_TIME - tick
            && AllPresent(t, t.queue) && AllFull(t.queue[1..])
  {
    HeadLeaves(s.(queue := []), s.queue, tick, channels);
    var start := Visit(s.(queue := []), s.queue[0], tick, channels);
    assert s.queue[1..][0].timeLeft == FULL_TIME;
    HeadStays(start, s.queue[1..], tick, channels);
  }

  /** Exactly: a queue of `n` present players that have not begun to count down is empty after `m`
      ticks of `t` milliseconds iff `m >= 1 + n * (k - 1)`, where `k` is the number of ticks that
      make a second. */
  lemma {:induction false} EmptyIffEnoughTicks(s: Server, ticks: seq<Event>, t: nat, k: nat)
    requires SteadyTicks(ticks, t) && k > 0 && (k - 1) * t < 1000 <= k * t
    requires s.queue != [] && AllPresent(s, s.queue) && AllFull(s.queue)
    ensures After(s, ticks).queue == [] <==> |ticks| >= 1 + |s.queue| * (k - 1)
  {
    assert |s.queue| * (k - 1) == (|s.queue| - 1) * (k - 1) + (k - 1);
    if |ticks| >= 1 + |s.queue| * (k - 1) {
      TicksEmpty(s, ticks, t, k, k);
    } else {
      TicksWait(s, ticks, t, k, k);
    }
  }

  // ---------- newcomers ----------

  /** A newcomer with a smaller account id becomes the head; whoever was first loses the time
      already waited at the next tick. */
  lemma {:induction false} NewcomerResetsHead(
    events: seq<Event>, account: nat, channel: nat, channels: map<(nat, nat), Channel>, tick: nat)
    requires var s := After(NEW_SERVER, events);
             && s.queue != [] && account < s.queue[0].account && account in s.players
             && var p := s.players[account].(channel := channel);
                EntryCode(ChannelAt(channels, p), p) == SUCCESS && !Misplaced(p)
    requires tick < FULL_TIME
    ensures var s := After(NEW_SERVER, events);
            var t := Next(s, WaitCheck(account, channel, channels));
            var u := Ticked(t, tick, channels);
            && t.queue == [Entry(account, FULL_TIME, FULL_TIME)] + s.queue
            && u.queue != [] && u.queue[0].account == account
            && forall i :: 0 < i < |u.queue| ==>
                 u.queue[i].timeLeft == 1000 && HeadTime(u.notes, u.queue[i].account) == 0
  {
    var s := After(NEW_SERVER, events);
    var t := Next(s, WaitCheck(account, channel, channels));
    ReachableInv(events);
    assert !Has(s.queue, account);
    assert t.queue == Insert(s.queue, Entry(account, FULL_TIME, FULL_TIME));
    StepKeepsInv(s, WaitCheck(account, channel, channels));
    TickKeepsInv(t, tick, channels);
    var start := t.(queue := []);
    var first := Visit(start, t.queue[0], tick, channels);
    assert first.queue == [Updated(t.queue[0], 1, tick)];
    forall i | 0 <= i < |t.queue| ensures t.queue[i].timeLeft <= FULL_TIME {
      assert TimedEntry(t.queue[i], t.notes);
    }
    WalkGrows(first, t.queue[1..], tick, channels);
    WalkResets(start, t.queue, tick, channels);
    var u := Ticked(t, tick, channels);
    forall i | 0 < i < |u.queue|
      ensures u.queue[i].timeLeft == FULL_TIME && HeadTime(u.notes, u.queue[i].account) == 0
    {
      assert TimedEntry(u.queue[i], u.notes);
    }
  }
}
