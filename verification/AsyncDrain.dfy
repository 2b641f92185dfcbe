/**
 Nothing queued with the database layer is left lying (Server/Database): from every reachable
 state the producers already counting, the worker and the main thread can by themselves finish
 all the work there is.
 */
module AsyncDrain {
  import opened DatabaseLog
  import opened AsyncDatabase

  /** No new work, and no wake-up the counter does not justify. */
  predicate OnlyFinishes(events: seq<Event>) {
    forall i :: 0 <= i < |events| ==>
      events[i].CountUp? || events[i].TakeResults? || events[i].Callback? || events[i] == Work(false)
  }

  /** `t` has as many databases as `s`, with the same items queued over their history. */
  predicate SameQueued(s: State, t: State) {
    |t.dbs| == |s.dbs| && forall d :: 0 <= d < |s.dbs| ==> t.dbs[d].enqueued == s.dbs[d].enqueued
  }

  /** A finishing run from `s` to `t`. */
  predicate Finishing(s: State, events: seq<Event>, t: State) {
    Runs(s, events) && After(s, events) == t && OnlyFinishes(events) && Inv(t) && SameQueued(s, t) && t.owed <= s.owed
  }

  lemma {:induction false} RunsConcat(s: State, a: seq<Event>, b: seq<Event>)
    requires Runs(s, a) && Runs(After(s, a), b)
    ensures Runs(s, a + b) && After(s, a + b) == After(After(s, a), b)
    decreases |a|
  {
    if a == [] {
      assert a + b == b;
    } else {
      assert (a + b)[1..] == a[1..] + b;
      RunsConcat(Next(s, a[0]), a[1..], b);
    }
  }

  lemma FinishingConcat(s: State, a: seq<Event>, m: State, b: seq<Event>, t: State)
    requires Finishing(s, a, m) && Finishing(m, b, t)
    ensures Finishing(s, a + b, t)
  {
    RunsConcat(s, a, b);
    forall d | 0 <= d < |s.dbs| ensures t.dbs[d].enqueued == s.dbs[d].enqueued {
      assert m.dbs[d].enqueued == s.dbs[d].enqueued;
    }
  }

  lemma OneStep(s: State, e: Event)
    requires Inv(s) && Enabled(s, e) && OnlyFinishes([e]) && SameQueued(s, Next(s, e))
    ensures Finishing(s, [e], Next(s, e))
  {
    StepKeepsInv(s, e);
    assert [e][0] == e && [e][1..] == [];
    assert Runs(Next(s, e), [e][1..]);
    assert After(Next(s, e), [e][1..]) == Next(s, e);
  }

  lemma NoStep(s: State)
    requires Inv(s)
    ensures Finishing(s, [], s)
  {}

  // ---------- the producers ----------

  lemma {:induction false} ProducersCount(s: State) returns (events: seq<Event>, t: State)
    requires Inv(s)
    ensures Finishing(s, events, t) && t.owed == 0
    decreases s.owed
  {
    if s.owed == 0 {
      events, t := [], s;
      NoStep(s);
    } else {
      var m := Next(s, CountUp);
      OneStep(s, CountUp);
      var rest;
      rest, t := ProducersCount(m);
      FinishingConcat(s, [CountUp], m, rest, t);
      events := [CountUp] + rest;
    }
  }

  // ---------- the worker ----------

  function ItemCost(item: Item): nat {
    if item.Async? then |item.queries| + 2 else 2
  }

  function Cost(q: seq<Item>): nat {
    if q == [] then 0 else ItemCost(q[0]) + Cost(q[1..])
  }

  /** The steps the worker has still to make for the database it serves. */
  function StepsLeft(w: Worker, before: seq<Item>): nat
    requires w.Performing? ==> w.item.Async? && w.next <= |w.item.queries|
  {
    match w
    case Top => 0
    case At(_) => Cost(before) + 4
    case Taken(_, q) => Cost(q) + 3
    case Sorting(_, q, v) => Cost(q) + |v| + 2
    case Performing(_, item, next, q, v) => |item.queries| - next + 1 + Cost(q) + |v| + 2
    case Sending(_, v) => |v| + 1
  }

  lemma ServeAdvances(w: Worker, db: Db, n: nat)
    requires WorkerOk(w, n) && w != Top
    ensures var (w', db') := Serve(w, db, n);
            && db'.enqueued == db.enqueued
            && db'.before == (if w.At? then [] else db.before)
            && WorkerOk(w', n)
            && (w' == Following(w.db + 1, n)
                || (w' != Top && w'.db == w.db && !w'.At? && StepsLeft(w', db'.before) < StepsLeft(w, db.before)))
  {}

  /** The queues of database `d` the worker has passed, or will pass on its way. */
  predicate Ahead(w: Worker, d: nat) {
    w != Top && (w.db < d || w == At(d))
  }

  predicate Emptied(s: State, t: State) {
    && |t.dbs| == |s.dbs|
    && forall d :: 0 <= d < |s.dbs| && (Ahead(s.worker, d) || s.dbs[d].before == []) ==> t.dbs[d].before == []
  }

  /** One step of the worker: it leaves the database it serves, or has fewer steps left there. */
  predicate Advanced(s: State, t: State)
    requires WorkerOk(s.worker, |s.dbs|) && s.worker != Top && |t.dbs| == |s.dbs|
  {
    var d := s.worker.db;
    || t.worker == Following(d + 1, |s.dbs|)
    || (t.worker != Top && t.worker.db == d && !t.worker.At? && WorkerOk(t.worker, |s.dbs|)
        && StepsLeft(t.worker, t.dbs[d].before) < StepsLeft(s.worker, s.dbs[d].before))
  }

  lemma WorkStep(s: State)
    requires Inv(s) && s.worker != Top
    ensures Enabled(s, Work(false)) && Finishing(s, [Work(false)], Next(s, Work(false)))
    ensures Advanced(s, Next(s, Work(false)))
    ensures forall d :: 0 <= d < |s.dbs| ==>
              Next(s, Work(false)).dbs[d].before == if s.worker == At(d) then [] else s.dbs[d].before
  {
    WorkEnabled(s);
    WorkAdvances(s);
    OneStep(s, Work(false));
  }

  lemma WorkEnabled(s: State)
    requires Inv(s)
    ensures Enabled(s, Work(false))
  {
    if s.worker != Top {
      assert DbInv(s.dbs[s.worker.db], s.worker, s.worker.db);
    }
  }

  lemma WorkAdvances(s: State)
    requires s.worker != Top && Enabled(s, Work(false))
    ensures SameQueued(s, Next(s, Work(false))) && Advanced(s, Next(s, Work(false)))
    ensures forall d :: 0 <= d < |s.dbs| ==>
              Next(s, Work(false)).dbs[d].before == if s.worker == At(d) then [] else s.dbs[d].before
  {
    ServeAdvances(s.worker, s.dbs[s.worker.db], |s.dbs|);
  }

  /** The worker goes on to the end of its round; every queue ahead of it is empty then. */
  lemma {:induction false} RoundEnds(s: State) returns (events: seq<Event>, t: State)
    requires Inv(s) && s.worker != Top
    ensures Finishing(s, events, t) && t.worker == Top && Emptied(s, t)
    decreases |s.dbs| - s.worker.db, StepsLeft(s.worker, s.dbs[s.worker.db].before)
  {
    var m := Next(s, Work(false));
    WorkStep(s);
    var rest;
    if m.worker == Top {
      rest, t := [], m;
    } else {
      rest, t := RoundEnds(m);
    }
    FinishingConcat(s, [Work(false)], m, rest, t);
    events := [Work(false)] + rest;
    StepEmptied(s, m, t);
  }

  lemma StepEmptied(s: State, m: State, t: State)
    requires Inv(s) && s.worker != Top && m == Next(s, Work(false))
    requires if m.worker == Top then t == m else Emptied(m, t)
    ensures Emptied(s, t)
  {
    WorkStep(s);
    forall d | 0 <= d < |s.dbs| && (Ahead(s.worker, d) || s.dbs[d].before == [])
      ensures t.dbs[d].before == []
    {
      if m.worker != Top && Ahead(s.worker, d) && s.worker != At(d) {
        assert Ahead(m.worker, d);
      }
    }
  }

  lemma {:induction false} EmptyBacklog(dbs: seq<Db>)
    ensures Backlog(dbs) == 0 <==> forall d :: 0 <= d < |dbs| ==> dbs[d].before == []
    decreases |dbs|
  {
    if dbs != [] {
      EmptyBacklog(dbs[1..]);
      if Backlog(dbs) == 0 {
        forall d | 0 <= d < |dbs| ensures dbs[d].before == [] {
          assert d > 0 ==> dbs[d] == dbs[1..][d - 1];
        }
      }
    }
  }

  predicate AllTaken(s: State) {
    s.worker == Top && forall d :: 0 <= d < |s.dbs| ==> s.dbs[d].before == []
  }

  /** With the worker waiting, everything counted and something queued, the counter sends it off. */
  lemma SentOff(s: State)
    requires Inv(s) && s.owed == 0 && s.worker == Top && Backlog(s.dbs) > 0
    ensures Finishing(s, [Work(false)], s.(worker := At(0)))
  {
    EmptyBacklog(s.dbs);
    assert Next(s, Work(false)) == s.(worker := At(0));
    OneStep(s, Work(false));
  }

  lemma RoundTakesAll(m: State, t: State)
    requires m.worker == At(0) && Emptied(m, t) && t.worker == Top
    ensures AllTaken(t)
  {
    forall d | 0 <= d < |t.dbs| ensures t.dbs[d].before == [] {
      assert Ahead(m.worker, d);
    }
  }

  lemma FullRound(s: State) returns (events: seq<Event>, t: State)
    requires Inv(s) && s.owed == 0 && s.worker == Top && Backlog(s.dbs) > 0
    ensures Finishing(s, events, t) && AllTaken(t)
  {
    var m := s.(worker := At(0));
    SentOff(s);
    var rest;
    rest, t := RoundEnds(m);
    FinishingConcat(s, [Work(false)], m, rest, t);
    events := [Work(false)] + rest;
    RoundTakesAll(m, t);
  }

  lemma NewRound(s: State) returns (events: seq<Event>, t: State)
    requires Inv(s) && s.owed == 0 && s.worker == Top
    ensures Finishing(s, events, t) && AllTaken(t)
  {
    if Backlog(s.dbs) > 0 {
      events, t := FullRound(s);
    } else {
      events, t := [], s;
      NoStep(s);
      EmptyBacklog(s.dbs);
    }
  }

  lemma WorkerDrains(s: State) returns (events: seq<Event>, t: State)
    requires Inv(s) && s.owed == 0
    ensures Finishing(s, events, t) && AllTaken(t)
  {
    if s.worker == Top {
      events, t := NewRound(s);
    } else {
      var first, m := RoundEnds(s);
      var second;
      second, t := NewRound(m);
      FinishingConcat(s, first, m, second, t);
      events := first + second;
    }
  }

  // ---------- the main thread ----------

  predicate CalledBack(db: Db) {
    db.after == [] && db.calling == []
  }

  lemma {:induction false} OneCalledBack(s: State, d: nat) returns (events: seq<Event>, t: State)
    requires Inv(s) && AllTaken(s) && d < |s.dbs|
    ensures Finishing(s, events, t) && AllTaken(t) && CalledBack(t.dbs[d])
    ensures forall k :: 0 <= k < |s.dbs| && k != d ==> t.dbs[k] == s.dbs[k]
    decreases 2 * |s.dbs[d].after| + |s.dbs[d].calling|
  {
    if CalledBack(s.dbs[d]) {
      events, t := [], s;
      NoStep(s);
    } else {
      var e := if s.dbs[d].calling == [] then TakeResults(d) else Callback(d);
      var m := Next(s, e);
      OneStep(s, e);
      var rest;
      rest, t := OneCalledBack(m, d);
      FinishingConcat(s, [e], m, rest, t);
      events := [e] + rest;
    }
  }

  lemma {:induction false} AllCalledBack(s: State, k: nat) returns (events: seq<Event>, t: State)
    requires Inv(s) && AllTaken(s) && k <= |s.dbs|
    requires forall d :: 0 <= d < k ==> CalledBack(s.dbs[d])
    ensures Finishing(s, events, t) && AllTaken(t)
    ensures forall d :: 0 <= d < |t.dbs| ==> CalledBack(t.dbs[d])
    decreases |s.dbs| - k
  {
    if k == |s.dbs| {
      events, t := [], s;
      NoStep(s);
    } else {
      var first, m := OneCalledBack(s, k);
      var rest;
      rest, t := AllCalledBack(m, k + 1);
      FinishingConcat(s, first, m, rest, t);
      events := first + rest;
    }
  }

  // ---------- everything ----------

  /** The database has done everything in `items`. */
  predicate Delivered(items: seq<Item>, db: Db) {
    && db.called == AsyncIds(items)
    && AsyncsOf(db.log) == AsyncLog(items)
    && PlainsOf(db.log) == Sent(Texts(items))
  }

  /** From every reachable state a run without new work, and without any wake-up but those the
      counter calls for, has every query pushed performed and called back in order, and every
      statement queued but the selects sent in order. */
  lemma {:induction false} EverythingDrains(n: nat, events: seq<Event>) returns (rest: seq<Event>)
    requires Runs(Initial(n), events)
    ensures Runs(After(Initial(n), events), rest) && OnlyFinishes(rest)
    ensures var t := After(After(Initial(n), events), rest);
            && t.worker == Top && t.owed == 0 && t.qcount == 0
            && forall d :: 0 <= d < n ==> Delivered(PushedTo(events, d), t.dbs[d])
  {
    ReachableInv(n, events);
    var s := After(Initial(n), events);
    var first, a := ProducersCount(s);
    var second, b := WorkerDrains(a);
    var third, t := AllCalledBack(b, 0);
    FinishingConcat(s, first, a, second, b);
    FinishingConcat(s, first + second, b, third, t);
    rest := first + second + third;
    EmptyBacklog(t.dbs);
    forall d | 0 <= d < n ensures Delivered(PushedTo(events, d), t.dbs[d]) {
      InitialHistory(n, events, d);
      IdleDelivers(s, t, d);
    }
  }

  lemma IdleDelivers(s: State, t: State, d: nat)
    requires Inv(t) && SameQueued(s, t) && AllTaken(t) && d < |s.dbs| && CalledBack(t.dbs[d])
    ensures Delivered(s.dbs[d].enqueued, t.dbs[d])
  {
    assert DbInv(t.dbs[d], Top, d);
    IdleIsDone(t.dbs[d], Top, d);
  }
}
