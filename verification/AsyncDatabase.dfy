/**
 The asynchronous database pipeline under every interleaving (Server/Database).

 Producers push onto a database's queue and raise the shared counter in two separate critical
 sections; one worker thread walks over the databases, swaps a queue out, lowers the counter,
 performs the async queries and sends the plain statements in one transaction; the main thread
 runs the callbacks; any thread may query directly.  Each event below is one critical section
 or one statement sent.
 */
module AsyncDatabase {
  import opened DatabaseLog
  import opened Sequences

  /** One database: its two queues, the callbacks being run, its connection log and whether the
      worker holds the connection mutex.  The other fields are history: everything queued, the
      batches swapped out, the items the worker is done with, the callbacks run. */
  datatype Db = Db(
    before: seq<Item>, after: seq<nat>, calling: seq<nat>, log: seq<Entry>, locked: bool,
    enqueued: seq<Item>, batches: seq<seq<Item>>, settled: seq<Item>, called: seq<nat>)

  const NEW_DB := Db([], [], [], [], false, [], [], [], [])

  /** Where the worker is.  `next` is the query of `item` to perform next. */
  datatype Worker =
    | Top
    | At(db: nat)
    | Taken(db: nat, q: seq<Item>)
    | Sorting(db: nat, q: seq<Item>, v: seq<string>)
    | Performing(db: nat, item: Item, next: nat, q: seq<Item>, v: seq<string>)
    | Sending(db: nat, v: seq<string>)

  /** `owed` counts the producers between their push and their increment. */
  datatype State = State(dbs: seq<Db>, qcount: int, owed: nat, worker: Worker)

  datatype Event =
    | Push(db: nat, item: Item)
    | CountUp
    | Work(notified: bool)
    | Query(db: nat, sql: string)
    | TakeResults(db: nat)
    | Callback(db: nat)

  function Initial(n: nat): State {
    State(seq(n, _ => NEW_DB), 0, 0, Top)
  }

  predicate WorkerOk(w: Worker, n: nat) {
    && (w != Top ==> w.db < n)
    && (w.Performing? ==> w.item.Async? && w.next <= |w.item.queries|)
  }

  /** The worker is about to lock the connection of the database it serves. */
  predicate NeedsLock(w: Worker) {
    (w.Sorting? && w.q == [] && w.v != []) || (w.Performing? && w.item.Async? && w.next < |w.item.queries|)
  }

  predicate Enabled(s: State, e: Event) {
    && WorkerOk(s.worker, |s.dbs|)
    && match e
       case Push(d, _) => d < |s.dbs|
       case CountUp => s.owed > 0
       case Work(_) => NeedsLock(s.worker) ==> !s.dbs[s.worker.db].locked
       case Query(d, _) => d < |s.dbs| && !s.dbs[d].locked
       case TakeResults(d) => d < |s.dbs| && s.dbs[d].calling == []
       case Callback(d) => d < |s.dbs| && s.dbs[d].calling != []
  }

  function Following(d: nat, n: nat): Worker {
    if d < n then At(d) else Top
  }

  /** One step of the worker on the database it serves; the new place and the new database. */
  function Serve(w: Worker, db: Db, n: nat): (Worker, Db)
    requires WorkerOk(w, n) && w != Top
  {
    match w
    case At(d) =>
      if db.before == [] then
        (Following(d + 1, n), db)
      else
        (Taken(d, db.before), db.(before := [], batches := db.batches + [db.before]))
    case Taken(d, q) => (Sorting(d, q, []), db)
    case Sorting(d, q, v) =>
      if q != [] then
        match q[0] {
          case Text(sql) => (Sorting(d, q[1..], v + [sql]), db.(settled := db.settled + [q[0]]))
          case Async(_, _) => (Performing(d, q[0], 0, q[1..], v), db)
        }
      else if v == [] then
        (Following(d + 1, n), db)
      else
        (Sending(d, v), db.(log := db.log + [Begin], locked := true))
    case Performing(d, item, next, q, v) =>
      if next < |item.queries| then
        (w.(next := next + 1), db.(log := db.log + [AsyncSql(item.id, item.queries[next])]))
      else
        (Sorting(d, q, v), db.(after := db.after + [item.id], settled := db.settled + [item]))
    case Sending(d, v) =>
      if v == [] then
        (Following(d + 1, n), db.(log := db.log + [Commit], locked := false))
      else
        (Sending(d, v[1..]), if IsSelect(v[0]) then db else db.(log := db.log + [Plain(v[0])]))
  }

  function Next(s: State, e: Event): (t: State)
    requires Enabled(s, e)
    ensures |t.dbs| == |s.dbs|
  {
    match e
    case Push(d, item) =>
      var db := s.dbs[d];
      s.(dbs := s.dbs[d := db.(before := db.before + [item], enqueued := db.enqueued + [item])], owed := s.owed + 1)
    case CountUp => s.(qcount := s.qcount + 1, owed := s.owed - 1)
    case Work(notified) =>
      if s.worker == Top then
        if s.qcount != 0 || notified then s.(worker := Following(0, |s.dbs|)) else s
      else
        var d := s.worker.db;
        var (w, db) := Serve(s.worker, s.dbs[d], |s.dbs|);
        State(s.dbs[d := db], if s.worker.Taken? then s.qcount - |s.worker.q| else s.qcount, s.owed, w)
    case Query(d, sql) => s.(dbs := s.dbs[d := s.dbs[d].(log := s.dbs[d].log + [Direct(sql)])])
    case TakeResults(d) => s.(dbs := s.dbs[d := s.dbs[d].(calling := s.dbs[d].after, after := [])])
    case Callback(d) =>
      var db := s.dbs[d];
      s.(dbs := s.dbs[d := db.(calling := db.calling[1..], called := db.called + [db.calling[0]])])
  }

  predicate Runs(s: State, events: seq<Event>)
    decreases |events|
  {
    events == [] || (Enabled(s, events[0]) && Runs(Next(s, events[0]), events[1..]))
  }

  function After(s: State, events: seq<Event>): (t: State)
    requires Runs(s, events)
    ensures |t.dbs| == |s.dbs|
    decreases |events|
  {
    if events == [] then s else After(Next(s, events[0]), events[1..])
  }

  // ---------- the counter ----------

  function Backlog(dbs: seq<Db>): nat {
    if dbs == [] then 0 else |dbs[0].before| + Backlog(dbs[1..])
  }

  /** Swapped out but not yet subtracted. */
  function InFlight(w: Worker): nat {
    if w.Taken? then |w.q| else 0
  }

  predicate CounterLaw(s: State) {
    s.qcount == Backlog(s.dbs) + InFlight(s.worker) - s.owed
  }

  lemma {:induction false} BacklogUpdate(dbs: seq<Db>, d: nat, db: Db)
    requires d < |dbs|
    ensures Backlog(dbs[d := db]) == Backlog(dbs) - |dbs[d].before| + |db.before|
    decreases |dbs|
  {
    if d > 0 {
      BacklogUpdate(dbs[1..], d - 1, db);
      assert dbs[d := db][1..] == dbs[1..][d - 1 := db];
    } else {
      assert dbs[d := db][1..] == dbs[1..];
    }
  }

  lemma {:induction false} StepKeepsCounter(s: State, e: Event)
    requires Enabled(s, e) && CounterLaw(s)
    ensures CounterLaw(Next(s, e))
  {
    match e {
      case CountUp =>
      case Work(_) =>
        if s.worker != Top {
          var d := s.worker.db;
          BacklogUpdate(s.dbs, d, Serve(s.worker, s.dbs[d], |s.dbs|).1);
        }
      case Push(d, _) => BacklogUpdate(s.dbs, d, Next(s, e).dbs[d]);
      case Query(d, _) => BacklogUpdate(s.dbs, d, Next(s, e).dbs[d]);
      case TakeResults(d) => BacklogUpdate(s.dbs, d, Next(s, e).dbs[d]);
      case Callback(d) => BacklogUpdate(s.dbs, d, Next(s, e).dbs[d]);
    }
  }

  // ---------- one database ----------

  /** The items of the current batch that are not settled yet. */
  function OpenItems(w: Worker, d: nat): seq<Item> {
    if w == Top || w.db != d then []
    else
      match w
      case Taken(_, q) => q
      case Sorting(_, q, _) => q
      case Performing(_, item, _, q, _) => [item] + q
      case _ => []
  }

  /** The queries of the current item already performed. */
  function Partial(w: Worker, d: nat): seq<Entry> {
    if w.Performing? && w.db == d && w.item.Async? && w.next <= |w.item.queries| then
      QueryLog(w.item.id, w.item.queries[..w.next])
    else
      []
  }

  /** What the worker has still to log for the current batch. */
  function Todo(w: Worker, d: nat): seq<Entry> {
    if w == Top || w.db != d then []
    else
      match w
      case At(_) => []
      case Taken(_, q) => BatchLog(q)
      case Sorting(_, q, v) => AsyncLog(q) + TxLog(v + Texts(q))
      case Performing(_, item, next, q, v) =>
        if item.Async? && next <= |item.queries| then
          QueryLog(item.id, item.queries[next..]) + (AsyncLog(q) + TxLog(v + Texts(q)))
        else
          []
      case Sending(_, v) => PlainLog(v) + [Commit]
  }

  function AsyncsOf(log: seq<Entry>): seq<Entry> {
    if log == [] then
      []
    else
      AsyncsOf(log[..|log| - 1]) + (if log[|log| - 1].AsyncSql? then [log[|log| - 1]] else [])
  }

  /** What was queued is swapped out or waiting; what was swapped out is settled or open; the
      settled async queries are called, being called or in the result queue, in that order. */
  predicate Queued(db: Db, w: Worker, d: nat) {
    && db.enqueued == Joined(db.batches) + db.before
    && Joined(db.batches) == db.settled + OpenItems(w, d)
    && AsyncIds(db.settled) == db.called + db.calling + db.after
  }

  predicate Performed(db: Db, w: Worker, d: nat) {
    AsyncsOf(db.log) == AsyncLog(db.settled) + Partial(w, d)
  }

  predicate Logged(db: Db, w: Worker, d: nat) {
    WorkerLog(db.log) + Todo(w, d) == LogOf(db.batches)
  }

  predicate Bracketed(db: Db, w: Worker, d: nat) {
    && db.locked == (w.Sending? && w.db == d)
    && PhaseOf(db.log) == if db.locked then Inside else Outside
  }

  predicate DbInv(db: Db, w: Worker, d: nat) {
    Queued(db, w, d) && Performed(db, w, d) && Logged(db, w, d) && Bracketed(db, w, d)
  }

  lemma LogAppend(log: seq<Entry>, e: Entry)
    ensures WorkerLog(log + [e]) == WorkerLog(log) + (if e.Direct? then [] else [e])
    ensures AsyncsOf(log + [e]) == AsyncsOf(log) + (if e.AsyncSql? then [e] else [])
    ensures PhaseOf(log + [e]) == PhaseAfter(PhaseOf(log), e)
  {
    assert (log + [e])[..|log|] == log;
  }

  lemma BatchAppend(batches: seq<seq<Item>>, q: seq<Item>)
    ensures Joined(batches + [q]) == Joined(batches) + q
    ensures LogOf(batches + [q]) == LogOf(batches) + BatchLog(q)
  {
    assert (batches + [q])[..|batches|] == batches;
  }

  function ItemLog(item: Item): seq<Entry> {
    if item.Async? then QueryLog(item.id, item.queries) else []
  }

  lemma {:induction false} AsyncLogAppend(q: seq<Item>, item: Item)
    ensures AsyncLog(q + [item]) == AsyncLog(q) + ItemLog(item)
    decreases |q|
  {
    if q == [] {
      assert q + [item] == [item];
      EmptyRight(ItemLog(item));
    } else {
      assert (q + [item])[1..] == q[1..] + [item];
      AsyncLogAppend(q[1..], item);
      Assoc(ItemLog(q[0]), AsyncLog(q[1..]), ItemLog(item));
    }
  }

  lemma {:induction false} QueryLogAppend(id: nat, queries: seq<string>, sql: string)
    ensures QueryLog(id, queries + [sql]) == QueryLog(id, queries) + [AsyncSql(id, sql)]
    decreases |queries|
  {
    if queries == [] {
      assert queries + [sql] == [sql];
    } else {
      assert (queries + [sql])[1..] == queries[1..] + [sql];
      QueryLogAppend(id, queries[1..], sql);
    }
  }

  // ---------- the worker's steps keep the invariant ----------

  predicate Serving(w: Worker, d: nat, n: nat) {
    w != Top && WorkerOk(w, n) && w.db == d
  }

  /** A settled item moves from the front of the open ones to the end of the settled ones. */
  lemma SettleItem(db: Db, item: Item, open: seq<Item>, id: seq<nat>, after: seq<nat>)
    requires Joined(db.batches) == db.settled + ([item] + open)
    requires AsyncIds(db.settled) == db.called + db.calling + db.after
    requires id == (if item.Async? then [item.id] else []) && after == db.after + id
    ensures Joined(db.batches) == (db.settled + [item]) + open
    ensures AsyncIds(db.settled + [item]) == db.called + db.calling + after
    ensures AsyncLog(db.settled + [item])
         == AsyncLog(db.settled) + ItemLog(item)
  {
    Assoc(db.settled, [item], open);
    AsyncIdsConcat(db.settled, [item]);
    assert AsyncIds([item]) == id;
    Assoc(db.called + db.calling, db.after, id);
    AsyncLogAppend(db.settled, item);
  }

  lemma ServeKeepsQueued(db: Db, w: Worker, d: nat, n: nat)
    requires Serving(w, d, n) && Queued(db, w, d)
    ensures Queued(Serve(w, db, n).1, Serve(w, db, n).0, d)
  {
    if w.At? {
      AtKeepsQueued(db, d, n);
    } else if w.Taken? {
      KeepsQueued(db, w, db, Sorting(d, w.q, []), d);
    } else if w.Sorting? {
      SortKeepsQueued(db, w, d, n);
    } else if w.Performing? {
      PerformKeepsQueued(db, w, d, n);
    } else {
      SendOnlyLogs(db, w, d, n);
      KeepsQueued(db, w, Serve(w, db, n).1, Serve(w, db, n).0, d);
    }
  }

  /** Only the connection, its log and its mutex, changed. */
  predicate SameHistory(db: Db, db': Db) {
    db' == db.(log := db'.log, locked := db'.locked)
  }

  lemma KeepsQueued(db: Db, w: Worker, db': Db, w': Worker, d: nat)
    requires Queued(db, w, d) && SameHistory(db, db') && OpenItems(w', d) == OpenItems(w, d)
    ensures Queued(db', w', d)
  {}

  lemma SendOnlyLogs(db: Db, w: Worker, d: nat, n: nat)
    requires Serving(w, d, n) && w.Sending?
    ensures SameHistory(db, Serve(w, db, n).1) && OpenItems(Serve(w, db, n).0, d) == []
  {}

  lemma AtKeepsQueued(db: Db, d: nat, n: nat)
    requires d < n && Queued(db, At(d), d)
    ensures Queued(Serve(At(d), db, n).1, Serve(At(d), db, n).0, d)
  {
    if db.before == [] {
      KeepsQueued(db, At(d), db, Following(d + 1, n), d);
    } else {
      BatchAppend(db.batches, db.before);
      EmptyRight(db.settled);
      EmptyRight(db.settled + db.before);
    }
  }

  lemma PerformKeepsQueued(db: Db, w: Worker, d: nat, n: nat)
    requires Serving(w, d, n) && w.Performing? && Queued(db, w, d)
    ensures Queued(Serve(w, db, n).1, Serve(w, db, n).0, d)
  {
    if w.next < |w.item.queries| {
      KeepsQueued(db, w, Serve(w, db, n).1, w.(next := w.next + 1), d);
    } else {
      SettleItem(db, w.item, w.q, [w.item.id], db.after + [w.item.id]);
    }
  }

  lemma SortKeepsQueued(db: Db, w: Worker, d: nat, n: nat)
    requires Serving(w, d, n) && w.Sorting? && Queued(db, w, d)
    ensures Queued(Serve(w, db, n).1, Serve(w, db, n).0, d)
  {
    if w.q == [] {
      SortEndOnlyLogs(db, w, d, n);
      KeepsQueued(db, w, Serve(w, db, n).1, Serve(w, db, n).0, d);
    } else if w.q[0].Text? {
      SettleText(db, d, w.q, w.v);
    } else {
      assert w.q == [w.q[0]] + w.q[1..];
      KeepsQueued(db, w, db, Performing(d, w.q[0], 0, w.q[1..], w.v), d);
    }
  }

  lemma SortEndOnlyLogs(db: Db, w: Worker, d: nat, n: nat)
    requires Serving(w, d, n) && w.Sorting? && w.q == []
    ensures SameHistory(db, Serve(w, db, n).1) && OpenItems(Serve(w, db, n).0, d) == []
    ensures AsyncsOf(Serve(w, db, n).1.log) == AsyncsOf(db.log) && Partial(Serve(w, db, n).0, d) == []
  {
    LogNoAsync(db.log, Begin);
  }

  lemma LogNoAsync(log: seq<Entry>, e: Entry)
    requires !e.AsyncSql?
    ensures AsyncsOf(log + [e]) == AsyncsOf(log)
  {
    LogAppend(log, e);
    EmptyRight(AsyncsOf(log));
  }

  lemma SettleText(db: Db, d: nat, q: seq<Item>, v: seq<string>)
    requires q != [] && q[0].Text? && Queued(db, Sorting(d, q, v), d)
    ensures Queued(db.(settled := db.settled + [q[0]]), Sorting(d, q[1..], v + [q[0].sql]), d)
  {
    assert q == [q[0]] + q[1..];
    EmptyRight(db.after);
    SettleItem(db, q[0], q[1..], [], db.after);
  }

  lemma PartialStep(w: Worker, d: nat)
    requires w.Performing? && w.db == d && w.item.Async? && w.next < |w.item.queries|
    ensures Partial(w.(next := w.next + 1), d)
         == Partial(w, d) + [AsyncSql(w.item.id, w.item.queries[w.next])]
  {
    QueryLogAppend(w.item.id, w.item.queries[..w.next], w.item.queries[w.next]);
    assert w.item.queries[..w.next + 1] == w.item.queries[..w.next] + [w.item.queries[w.next]];
  }

  lemma ServeKeepsPerformed(db: Db, w: Worker, d: nat, n: nat)
    requires Serving(w, d, n) && Performed(db, w, d)
    ensures Performed(Serve(w, db, n).1, Serve(w, db, n).0, d)
  {
    if w.At? || w.Taken? {
      KeepsPerformed(db, w, Serve(w, db, n).1, Serve(w, db, n).0, d);
    } else if w.Sorting? {
      SortKeepsPerformed(db, w, d, n);
    } else if w.Performing? {
      PerformKeepsPerformed(db, w, d, n);
    } else {
      SendLogsNoAsync(db, w, d, n);
      KeepsPerformed(db, w, Serve(w, db, n).1, Serve(w, db, n).0, d);
    }
  }

  lemma KeepsPerformed(db: Db, w: Worker, db': Db, w': Worker, d: nat)
    requires Performed(db, w, d) && AsyncsOf(db'.log) == AsyncsOf(db.log)
    requires db'.settled == db.settled && Partial(w', d) == Partial(w, d)
    ensures Performed(db', w', d)
  {}

  lemma SendLogsNoAsync(db: Db, w: Worker, d: nat, n: nat)
    requires Serving(w, d, n) && w.Sending?
    ensures AsyncsOf(Serve(w, db, n).1.log) == AsyncsOf(db.log)
    ensures Serve(w, db, n).1.settled == db.settled && Partial(Serve(w, db, n).0, d) == []
  {
    LogNoAsync(db.log, if w.v == [] then Commit else Plain(w.v[0]));
  }

  lemma PerformKeepsPerformed(db: Db, w: Worker, d: nat, n: nat)
    requires Serving(w, d, n) && w.Performing? && Performed(db, w, d)
    ensures Performed(Serve(w, db, n).1, Serve(w, db, n).0, d)
  {
    if w.next < |w.item.queries| {
      PerformOne(db, w, d);
    } else {
      PerformedAll(db, w, d);
    }
  }

  lemma PerformOne(db: Db, w: Worker, d: nat)
    requires w.Performing? && w.db == d && w.item.Async? && w.next < |w.item.queries| && Performed(db, w, d)
    ensures Performed(db.(log := db.log + [AsyncSql(w.item.id, w.item.queries[w.next])]), w.(next := w.next + 1), d)
  {
    var e := AsyncSql(w.item.id, w.item.queries[w.next]);
    LogAppend(db.log, e);
    PartialStep(w, d);
    Assoc(AsyncLog(db.settled), Partial(w, d), [e]);
  }

  lemma PerformedAll(db: Db, w: Worker, d: nat)
    requires w.Performing? && w.db == d && w.item.Async? && w.next == |w.item.queries| && Performed(db, w, d)
    ensures Performed(db.(after := db.after + [w.item.id], settled := db.settled + [w.item]), Sorting(d, w.q, w.v), d)
  {
    AsyncLogAppend(db.settled, w.item);
    assert w.item.queries[..w.next] == w.item.queries;
    EmptyRight(AsyncLog(db.settled + [w.item]));
  }

  lemma SortKeepsPerformed(db: Db, w: Worker, d: nat, n: nat)
    requires Serving(w, d, n) && w.Sorting? && Performed(db, w, d)
    ensures Performed(Serve(w, db, n).1, Serve(w, db, n).0, d)
  {
    if w.q == [] {
      SortEndOnlyLogs(db, w, d, n);
      KeepsPerformed(db, w, Serve(w, db, n).1, Serve(w, db, n).0, d);
    } else if w.q[0].Text? {
      SettledText(db, w.q[0]);
    } else {
      assert w.q[0].queries[..0] == [];
      KeepsPerformed(db, w, db, Performing(d, w.q[0], 0, w.q[1..], w.v), d);
    }
  }

  lemma SettledText(db: Db, item: Item)
    requires item.Text? && AsyncsOf(db.log) == AsyncLog(db.settled) + []
    ensures AsyncsOf(db.log) == AsyncLog(db.settled + [item]) + []
  {
    AsyncLogAppend(db.settled, item);
    EmptyRight(AsyncLog(db.settled));
    EmptyRight(AsyncLog(db.settled + [item]));
  }

  lemma PerformTodo(w: Worker, d: nat)
    requires w.Performing? && w.db == d && w.item.Async? && w.next < |w.item.queries|
    ensures Todo(w, d) == [AsyncSql(w.item.id, w.item.queries[w.next])] + Todo(w.(next := w.next + 1), d)
  {
    var queries := w.item.queries[w.next..];
    assert queries[1..] == w.item.queries[w.next + 1..];
    Assoc([AsyncSql(w.item.id, queries[0])], QueryLog(w.item.id, queries[1..]),
          AsyncLog(w.q) + TxLog(w.v + Texts(w.q)));
  }

  lemma PerformedTodo(w: Worker, d: nat)
    requires w.Performing? && w.db == d && w.item.Async? && w.next == |w.item.queries|
    ensures Todo(w, d) == Todo(Sorting(d, w.q, w.v), d)
  {
    EmptyLeft(AsyncLog(w.q) + TxLog(w.v + Texts(w.q)));
  }

  lemma SortTextTodo(d: nat, q: seq<Item>, v: seq<string>)
    requires q != [] && q[0].Text?
    ensures Todo(Sorting(d, q, v), d) == Todo(Sorting(d, q[1..], v + [q[0].sql]), d)
  {
    Assoc(v, [q[0].sql], Texts(q[1..]));
    EmptyLeft(AsyncLog(q[1..]));
  }

  lemma SortAsyncTodo(d: nat, q: seq<Item>, v: seq<string>)
    requires q != [] && q[0].Async?
    ensures Todo(Sorting(d, q, v), d) == Todo(Performing(d, q[0], 0, q[1..], v), d)
  {
    assert q[0].queries[0..] == q[0].queries;
    Assoc(QueryLog(q[0].id, q[0].queries), AsyncLog(q[1..]), TxLog(v + Texts(q)));
    EmptyLeft(Texts(q[1..]));
  }

  lemma SortedTodo(d: nat, v: seq<string>)
    ensures Todo(Sorting(d, [], v), d) == if v == [] then [] else [Begin] + Todo(Sending(d, v), d)
  {
    assert v + [] == v;
    Assoc([Begin], PlainLog(v), [Commit]);
    EmptyLeft(TxLog(v));
  }

  lemma SendTodo(d: nat, v: seq<string>)
    requires v != []
    ensures Todo(Sending(d, v), d)
         == (if IsSelect(v[0]) then [] else [Plain(v[0])]) + Todo(Sending(d, v[1..]), d)
  {
    Assoc(if IsSelect(v[0]) then [] else [Plain(v[0])], PlainLog(v[1..]), [Commit]);
  }

  /** Outside a swap the worker logs at most one entry, the front of what was to be logged. */
  lemma ServeTodo(db: Db, w: Worker, d: nat, n: nat) returns (es: seq<Entry>)
    requires Serving(w, d, n) && !w.At?
    ensures Serve(w, db, n).1.log == db.log + es && Serve(w, db, n).1.batches == db.batches
    ensures Todo(w, d) == es + Todo(Serve(w, db, n).0, d)
    ensures |es| <= 1 && (es != [] ==> !es[0].Direct?)
  {
    es := [];
    EmptyLeft(Todo(Serve(w, db, n).0, d));
    EmptyRight(db.log);
    match w {
      case Taken(_, q) => EmptyLeft(Texts(q));
      case Sorting(_, q, v) =>
        if q == [] {
          SortedTodo(d, v);
          if v != [] {
            es := [Begin];
          }
        } else if q[0].Text? {
          SortTextTodo(d, q, v);
        } else {
          SortAsyncTodo(d, q, v);
        }
      case Performing(_, item, next, _, _) =>
        if next < |item.queries| {
          PerformTodo(w, d);
          es := [AsyncSql(item.id, item.queries[next])];
        } else {
          PerformedTodo(w, d);
        }
      case Sending(_, v) =>
        if v == [] {
          es := [Commit];
          assert PlainLog(v) == [];
        } else {
          SendTodo(d, v);
          es := if IsSelect(v[0]) then [] else [Plain(v[0])];
        }
    }
  }

  lemma LogAppendAtMostOne(log: seq<Entry>, es: seq<Entry>)
    requires |es| <= 1 && (es != [] ==> !es[0].Direct?)
    ensures WorkerLog(log + es) == WorkerLog(log) + es
  {
    if es == [] {
      EmptyRight(log);
      EmptyRight(WorkerLog(log));
    } else {
      LogAppend(log, es[0]);
      assert es == [es[0]];
    }
  }

  lemma ServeKeepsLogged(db: Db, w: Worker, d: nat, n: nat)
    requires Serving(w, d, n) && Logged(db, w, d)
    ensures Logged(Serve(w, db, n).1, Serve(w, db, n).0, d)
  {
    if w.At? {
      BatchAppend(db.batches, db.before);
      EmptyRight(WorkerLog(db.log));
    } else {
      var es := ServeTodo(db, w, d, n);
      LogAppendAtMostOne(db.log, es);
      Assoc(WorkerLog(db.log), es, Todo(Serve(w, db, n).0, d));
    }
  }

  lemma ServeKeepsBracketed(db: Db, w: Worker, d: nat, n: nat)
    requires Serving(w, d, n) && Bracketed(db, w, d) && !(NeedsLock(w) && db.locked)
    ensures Bracketed(Serve(w, db, n).1, Serve(w, db, n).0, d)
  {
    match w {
      case At(_) =>
      case Taken(_, _) =>
      case Sorting(_, _, _) => SortKeepsBracketed(db, w, d, n);
      case Performing(_, _, _, _, _) => PerformKeepsBracketed(db, w, d, n);
      case Sending(_, _) => SendKeepsBracketed(db, w, d, n);
    }
  }

  lemma SortKeepsBracketed(db: Db, w: Worker, d: nat, n: nat)
    requires Serving(w, d, n) && w.Sorting? && Bracketed(db, w, d)
    ensures Bracketed(Serve(w, db, n).1, Serve(w, db, n).0, d)
  {
    if w.q == [] && w.v != [] {
      LogAppend(db.log, Begin);
    }
  }

  lemma PerformKeepsBracketed(db: Db, w: Worker, d: nat, n: nat)
    requires Serving(w, d, n) && w.Performing? && Bracketed(db, w, d)
    ensures Bracketed(Serve(w, db, n).1, Serve(w, db, n).0, d)
  {
    if w.next < |w.item.queries| {
      LogAppend(db.log, AsyncSql(w.item.id, w.item.queries[w.next]));
    }
  }

  lemma SendKeepsBracketed(db: Db, w: Worker, d: nat, n: nat)
    requires Serving(w, d, n) && w.Sending? && Bracketed(db, w, d)
    ensures Bracketed(Serve(w, db, n).1, Serve(w, db, n).0, d)
  {
    LogAppend(db.log, if w.v == [] then Commit else Plain(w.v[0]));
  }

  lemma ServeKeeps(db: Db, w: Worker, d: nat, n: nat)
    requires Serving(w, d, n) && DbInv(db, w, d) && !(NeedsLock(w) && db.locked)
    ensures DbInv(Serve(w, db, n).1, Serve(w, db, n).0, d)
  {
    ServeKeepsQueued(db, w, d, n);
    ServeKeepsPerformed(db, w, d, n);
    ServeKeepsLogged(db, w, d, n);
    ServeKeepsBracketed(db, w, d, n);
  }

  // ---------- the whole system ----------

  predicate Inv(s: State) {
    && CounterLaw(s)
    && WorkerOk(s.worker, |s.dbs|)
    && forall d :: 0 <= d < |s.dbs| ==> DbInv(s.dbs[d], s.worker, d)
  }

  /** A database the worker is not serving only sees the worker elsewhere. */
  lemma ElsewhereKeeps(db: Db, w: Worker, w': Worker, d: nat)
    requires DbInv(db, w, d) && (w == Top || w.At? || w.db != d) && (w' == Top || w'.At? || w'.db != d)
    ensures DbInv(db, w', d)
  {}

  lemma WorkKeepsDb(s: State, notified: bool, d: nat)
    requires Enabled(s, Work(notified)) && d < |s.dbs| && DbInv(s.dbs[d], s.worker, d)
    ensures DbInv(Next(s, Work(notified)).dbs[d], Next(s, Work(notified)).worker, d)
  {
    if s.worker != Top && s.worker.db == d {
      ServeKeeps(s.dbs[d], s.worker, d, |s.dbs|);
    } else {
      ElsewhereKeeps(s.dbs[d], s.worker, Next(s, Work(notified)).worker, d);
    }
  }

  /** What the other threads do to one database. */
  lemma OtherKeepsDb(s: State, e: Event, d: nat)
    requires Enabled(s, e) && !e.Work? && d < |s.dbs| && DbInv(s.dbs[d], s.worker, d)
    ensures DbInv(Next(s, e).dbs[d], s.worker, d)
  {
    var db := s.dbs[d];
    match e {
      case Push(k, item) => Assoc(Joined(db.batches), db.before, [item]);
      case CountUp =>
      case Query(k, sql) =>
        LogAppend(db.log, Direct(sql));
        EmptyRight(WorkerLog(db.log));
        EmptyRight(AsyncsOf(db.log));
      case TakeResults(k) => MoveResults(db.called, db.calling, db.after);
      case Callback(k) => CallFirst(db.called, db.calling);
    }
  }

  lemma MoveResults(called: seq<nat>, calling: seq<nat>, after: seq<nat>)
    ensures calling == [] ==> called + calling + after == called + after + []
  {}

  lemma CallFirst(called: seq<nat>, calling: seq<nat>)
    ensures calling != [] ==> called + calling == called + [calling[0]] + calling[1..]
  {
    if calling != [] {
      assert calling == [calling[0]] + calling[1..];
    }
  }

  lemma StepKeepsWorkerOk(s: State, e: Event)
    requires Enabled(s, e)
    ensures WorkerOk(Next(s, e).worker, |s.dbs|)
  {}

  lemma {:induction false} StepKeepsInv(s: State, e: Event)
    requires Inv(s) && Enabled(s, e)
    ensures Inv(Next(s, e))
  {
    StepKeepsCounter(s, e);
    StepKeepsWorkerOk(s, e);
    forall d | 0 <= d < |s.dbs| ensures DbInv(Next(s, e).dbs[d], Next(s, e).worker, d) {
      match e {
        case Work(notified) => WorkKeepsDb(s, notified, d);
        case _ => OtherKeepsDb(s, e, d);
      }
    }
  }

  lemma {:induction false} RunKeepsInv(s: State, events: seq<Event>)
    requires Inv(s) && Runs(s, events)
    ensures Inv(After(s, events))
    decreases |events|
  {
    if events != [] {
      StepKeepsInv(s, events[0]);
      RunKeepsInv(Next(s, events[0]), events[1..]);
    }
  }

  lemma {:induction false} NoBacklog(n: nat)
    ensures Backlog(Initial(n).dbs) == 0
    decreases n
  {
    if n > 0 {
      NoBacklog(n - 1);
      assert Initial(n).dbs[1..] == Initial(n - 1).dbs;
    }
  }

  lemma InitialInv(n: nat)
    ensures Inv(Initial(n))
  {
    NoBacklog(n);
    forall d | 0 <= d < n ensures DbInv(Initial(n).dbs[d], Top, d) {
      assert Initial(n).dbs[d] == NEW_DB;
    }
  }

  lemma ReachableInv(n: nat, events: seq<Event>)
    requires Runs(Initial(n), events)
    ensures Inv(After(Initial(n), events))
  {
    InitialInv(n);
    RunKeepsInv(Initial(n), events);
  }

  // ---------- what the events say ----------

  /** The items pushed to a database, in the order of the pushes. */
  function PushedTo(events: seq<Event>, d: nat): seq<Item>
    decreases |events|
  {
    if events == [] then
      []
    else
      (if events[0].Push? && events[0].db == d then [events[0].item] else []) + PushedTo(events[1..], d)
  }

  /** The statements other threads send to a database directly. */
  function SentDirectly(events: seq<Event>, d: nat): seq<string>
    decreases |events|
  {
    if events == [] then
      []
    else
      (if events[0].Query? && events[0].db == d then [events[0].sql] else []) + SentDirectly(events[1..], d)
  }

  /** The pushes made less the increments made. */
  function Uncounted(events: seq<Event>): int
    decreases |events|
  {
    if events == [] then
      0
    else
      (if events[0].Push? then 1 else if events[0].CountUp? then -1 else 0) + Uncounted(events[1..])
  }

  lemma DirectsAppend(log: seq<Entry>, e: Entry)
    ensures DirectsOf(log + [e]) == DirectsOf(log) + (if e.Direct? then [e.sql] else [])
  {
    assert (log + [e])[..|log|] == log;
  }

  lemma ServeQueuesNothing(w: Worker, db: Db, n: nat)
    requires WorkerOk(w, n) && w != Top
    ensures Serve(w, db, n).1.enqueued == db.enqueued
  {}

  lemma ServeSendsNoDirect(w: Worker, db: Db, n: nat)
    requires WorkerOk(w, n) && w != Top
    ensures DirectsOf(Serve(w, db, n).1.log) == DirectsOf(db.log)
  {
    if !w.At? {
      var es := ServeTodo(db, w, w.db, n);
      if es == [] {
        EmptyRight(db.log);
      } else {
        DirectsAppend(db.log, es[0]);
        EmptyRight(DirectsOf(db.log));
        assert es == [es[0]];
      }
    }
  }

  lemma StepQueues(s: State, e: Event, d: nat)
    requires Enabled(s, e) && d < |s.dbs|
    ensures Next(s, e).dbs[d].enqueued == s.dbs[d].enqueued + (if e.Push? && e.db == d then [e.item] else [])
  {
    EmptyRight(s.dbs[d].enqueued);
    if e.Work? && s.worker != Top && s.worker.db == d {
      ServeQueuesNothing(s.worker, s.dbs[d], |s.dbs|);
    }
  }

  lemma StepSendsDirectly(s: State, e: Event, d: nat)
    requires Enabled(s, e) && d < |s.dbs|
    ensures DirectsOf(Next(s, e).dbs[d].log)
         == DirectsOf(s.dbs[d].log) + (if e.Query? && e.db == d then [e.sql] else [])
  {
    EmptyRight(DirectsOf(s.dbs[d].log));
    if e.Query? && e.db == d {
      QuerySends(s, d, e.sql);
    } else if e.Work? && s.worker != Top && s.worker.db == d {
      WorkSendsNoDirect(s, e);
    } else {
      StepKeepsLog(s, e, d);
    }
  }

  lemma QuerySends(s: State, d: nat, sql: string)
    requires Enabled(s, Query(d, sql))
    ensures DirectsOf(Next(s, Query(d, sql)).dbs[d].log) == DirectsOf(s.dbs[d].log) + [sql]
  {
    DirectsAppend(s.dbs[d].log, Direct(sql));
  }

  lemma WorkSendsNoDirect(s: State, e: Event)
    requires Enabled(s, e) && e.Work? && s.worker != Top
    ensures DirectsOf(Next(s, e).dbs[s.worker.db].log) == DirectsOf(s.dbs[s.worker.db].log)
  {
    ServeSendsNoDirect(s.worker, s.dbs[s.worker.db], |s.dbs|);
  }

  lemma StepKeepsLog(s: State, e: Event, d: nat)
    requires Enabled(s, e) && d < |s.dbs|
    requires !(e.Query? && e.db == d) && !(e.Work? && s.worker != Top && s.worker.db == d)
    ensures Next(s, e).dbs[d].log == s.dbs[d].log
  {}

  /** The history of a database is that of the events: what was queued are the pushes, in order, and
      the statements of other threads in the log are the direct queries, in order. */
  lemma {:induction false} HistoryIsEvents(s: State, events: seq<Event>, d: nat)
    requires Runs(s, events) && d < |s.dbs|
    ensures After(s, events).dbs[d].enqueued == s.dbs[d].enqueued + PushedTo(events, d)
    ensures DirectsOf(After(s, events).dbs[d].log) == DirectsOf(s.dbs[d].log) + SentDirectly(events, d)
    decreases |events|
  {
    if events == [] {
      EmptyRight(s.dbs[d].enqueued);
      EmptyRight(DirectsOf(s.dbs[d].log));
    } else {
      var e, rest := events[0], events[1..];
      StepQueues(s, e, d);
      StepSendsDirectly(s, e, d);
      HistoryIsEvents(Next(s, e), rest, d);
      Assoc(s.dbs[d].enqueued, if e.Push? && e.db == d then [e.item] else [], PushedTo(rest, d));
      Assoc(DirectsOf(s.dbs[d].log), if e.Query? && e.db == d then [e.sql] else [], SentDirectly(rest, d));
    }
  }

  lemma {:induction false} OwedIsUncounted(s: State, events: seq<Event>)
    requires Runs(s, events)
    ensures After(s, events).owed == s.owed + Uncounted(events)
    decreases |events|
  {
    if events != [] {
      OwedIsUncounted(Next(s, events[0]), events[1..]);
    }
  }

  lemma InitialHistory(n: nat, events: seq<Event>, d: nat)
    requires Runs(Initial(n), events) && d < n
    ensures After(Initial(n), events).dbs[d].enqueued == PushedTo(events, d)
    ensures DirectsOf(After(Initial(n), events).dbs[d].log) == SentDirectly(events, d)
  {
    HistoryIsEvents(Initial(n), events, d);
    assert Initial(n).dbs[d] == NEW_DB;
    EmptyLeft(PushedTo(events, d));
    EmptyLeft(SentDirectly(events, d));
  }

  // ---------- main results ----------

  /** The shared counter is what is queued, plus what is swapped out but not yet subtracted, less
      the pushes not yet counted; so if the worker finds it 0 beside a non-empty queue, a producer is
      about to count and notify. */
  lemma {:induction false} CounterIsExact(n: nat, events: seq<Event>)
    requires Runs(Initial(n), events)
    ensures var s := After(Initial(n), events);
            && s.qcount == Backlog(s.dbs) + InFlight(s.worker) - s.owed
            && s.owed == Uncounted(events)
            && (s.worker == Top && s.qcount == 0 && Backlog(s.dbs) > 0 ==> s.owed > 0)
  {
    CounterHolds(n, events);
    OwedIsUncounted(Initial(n), events);
  }

  lemma CounterHolds(n: nat, events: seq<Event>)
    requires Runs(Initial(n), events)
    ensures CounterLaw(After(Initial(n), events))
  {
    ReachableInv(n, events);
  }

  lemma CalledInOrder(db: Db, w: Worker, d: nat)
    requires Queued(db, w, d)
    ensures db.settled <= db.enqueued
    ensures db.called <= AsyncIds(db.settled) <= AsyncIds(db.enqueued)
  {
    var rest := OpenItems(w, d) + db.before;
    Assoc(db.settled, OpenItems(w, d), db.before);
    AsyncIdsConcat(db.settled, rest);
    PrefixOf(db.settled, rest);
    PrefixOf(AsyncIds(db.settled), AsyncIds(rest));
    Assoc(db.called, db.calling, db.after);
    PrefixOf(db.called, db.calling + db.after);
  }

  /** Per database: callbacks run in the order the async queries were pushed, none twice and none
      before all its queries were performed; the performed queries are those of the first items
      in order, and only the item at hand may be half done. */
  lemma {:induction false} CallbacksInOrder(n: nat, events: seq<Event>, d: nat)
    requires Runs(Initial(n), events) && d < n
    ensures var s := After(Initial(n), events);
            var db := s.dbs[d];
            && db.settled <= PushedTo(events, d)
            && db.called <= AsyncIds(db.settled) <= AsyncIds(PushedTo(events, d))
            && AsyncsOf(db.log) == AsyncLog(db.settled) + Partial(s.worker, d)
  {
    ReachableInv(n, events);
    InitialHistory(n, events, d);
    var s := After(Initial(n), events);
    CalledInOrder(s.dbs[d], s.worker, d);
  }

  /** Per database: apart from other threads' statements the log is, batch after batch, the async
      queries, a Begin, the plain statements, a Commit; the batches split what was pushed in
      order; when the worker is elsewhere every batch swapped out is complete; and the other
      statements are exactly the direct queries made, in order. */
  lemma {:induction false} BatchesAreLoggedWhole(n: nat, events: seq<Event>, d: nat)
    requires Runs(Initial(n), events) && d < n
    ensures var s := After(Initial(n), events);
            var db := s.dbs[d];
            && PushedTo(events, d) == Joined(db.batches) + db.before
            && WorkerLog(db.log) <= LogOf(db.batches)
            && (s.worker == Top || s.worker.db != d ==> WorkerLog(db.log) == LogOf(db.batches))
            && DirectsOf(db.log) == SentDirectly(events, d)
  {
    ReachableInv(n, events);
    InitialHistory(n, events, d);
    var s := After(Initial(n), events);
    assert WorkerLog(s.dbs[d].log) + [] == WorkerLog(s.dbs[d].log);
  }

  lemma SentInOrder(db: Db, w: Worker, d: nat)
    requires Queued(db, w, d) && Logged(db, w, d)
    ensures PlainsOf(db.log) <= Sent(Texts(db.enqueued))
  {
    WorkerLogPlains(db.log);
    PlainsConcat(WorkerLog(db.log), Todo(w, d));
    LogSendsInOrder(db.batches);
    TextsConcat(Joined(db.batches), db.before);
    SentConcat(Texts(Joined(db.batches)), Texts(db.before));
    Assoc(PlainsOf(db.log), PlainsOf(Todo(w, d)), Sent(Texts(db.before)));
    PrefixOf(PlainsOf(db.log), PlainsOf(Todo(w, d)) + Sent(Texts(db.before)));
  }

  /** Per database: the plain statements sent are a prefix of the pushed ones without the selects. */
  lemma {:induction false} PlainStatementsInOrder(n: nat, events: seq<Event>, d: nat)
    requires Runs(Initial(n), events) && d < n
    ensures var db := After(Initial(n), events).dbs[d];
            PlainsOf(db.log) <= Sent(Texts(PushedTo(events, d)))
  {
    ReachableInv(n, events);
    InitialHistory(n, events, d);
    var s := After(Initial(n), events);
    SentInOrder(s.dbs[d], s.worker, d);
  }

  /** In every interleaving nothing but the batch's own statements reaches the connection inside
      a transaction. */
  lemma {:induction false} TransactionsAreIsolated(n: nat, events: seq<Event>, d: nat)
    requires Runs(Initial(n), events) && d < n
    ensures Isolated(After(Initial(n), events).dbs[d].log)
  {
    ReachableInv(n, events);
    UnbrokenIsIsolated(After(Initial(n), events).dbs[d].log);
  }

  /** Nothing is lost: once a database is idle, every async query pushed has been performed and
      called back, in order, and every statement but the selects has been sent, in order. */
  lemma {:induction false} IdleMeansDone(n: nat, events: seq<Event>, d: nat)
    requires Runs(Initial(n), events) && d < n
    ensures var s := After(Initial(n), events);
            var db := s.dbs[d];
            (s.worker == Top || s.worker.db != d) && db.before == [] && db.after == [] && db.calling == [] ==>
              && db.called == AsyncIds(PushedTo(events, d))
              && AsyncsOf(db.log) == AsyncLog(PushedTo(events, d))
              && PlainsOf(db.log) == Sent(Texts(PushedTo(events, d)))
  {
    ReachableInv(n, events);
    InitialHistory(n, events, d);
    var s := After(Initial(n), events);
    var db := s.dbs[d];
    if (s.worker == Top || s.worker.db != d) && db.before == [] && db.after == [] && db.calling == [] {
      IdleIsDone(db, s.worker, d);
    }
  }

  lemma IdleIsDone(db: Db, w: Worker, d: nat)
    requires DbInv(db, w, d) && (w == Top || w.db != d)
    requires db.before == [] && db.after == [] && db.calling == []
    ensures db.called == AsyncIds(db.enqueued)
    ensures AsyncsOf(db.log) == AsyncLog(db.enqueued)
    ensures PlainsOf(db.log) == Sent(Texts(db.enqueued))
  {
    EmptyRight(db.settled);
    EmptyRight(Joined(db.batches));
    EmptyRight(db.called);
    EmptyRight(AsyncLog(db.settled));
    EmptyRight(WorkerLog(db.log));
    WorkerLogPlains(db.log);
    LogSendsInOrder(db.batches);
  }

  /** Every transaction is committed. */
  lemma {:induction false} EveryTransactionCommits(n: nat, events: seq<Event>, d: nat)
    requires Runs(Initial(n), events) && d < n
    ensures NoRollback(After(Initial(n), events).dbs[d].log)
  {
    ReachableInv(n, events);
    var s := After(Initial(n), events);
    var db := s.dbs[d];
    BatchesCommit(db.batches);
    forall k | 0 <= k < |db.log| ensures db.log[k] != Rollback {
      if !db.log[k].Direct? {
        var i := InWorkerLog(db.log, k);
        assert (WorkerLog(db.log) + Todo(s.worker, d))[i] == db.log[k];
      }
    }
  }

  lemma {:induction false} InWorkerLog(log: seq<Entry>, k: nat) returns (i: nat)
    requires k < |log| && !log[k].Direct?
    ensures i < |WorkerLog(log)| && WorkerLog(log)[i] == log[k]
    decreases |log|
  {
    var init := log[..|log| - 1];
    if k == |init| {
      i := |WorkerLog(init)|;
    } else {
      i := InWorkerLog(init, k);
    }
  }

  /** A push never waits, nor does the increment after it; a direct query waits only while the
      worker holds the connection's mutex for a transaction. */
  lemma {:induction false} ProducersNeverWait(n: nat, events: seq<Event>, d: nat, item: Item, sql: string)
    requires Runs(Initial(n), events) && d < n
    ensures var s := After(Initial(n), events);
            && Enabled(s, Push(d, item)) && Enabled(Next(s, Push(d, item)), CountUp)
            && (Enabled(s, Query(d, sql)) <==> !(s.worker.Sending? && s.worker.db == d))
  {
    LockedIffSending(n, events, d);
  }

  lemma LockedIffSending(n: nat, events: seq<Event>, d: nat)
    requires Runs(Initial(n), events) && d < n
    ensures var s := After(Initial(n), events);
            WorkerOk(s.worker, n) && (s.dbs[d].locked <==> s.worker.Sending? && s.worker.db == d)
  {
    ReachableInv(n, events);
    var s := After(Initial(n), events);
    assert DbInv(s.dbs[d], s.worker, d);
  }

  /** The worker is never kept waiting for a connection it has itself left locked. */
  lemma {:induction false} WorkerCanAlwaysStep(n: nat, events: seq<Event>, notified: bool)
    requires Runs(Initial(n), events)
    ensures Enabled(After(Initial(n), events), Work(notified))
  {
    ReachableInv(n, events);
    var s := After(Initial(n), events);
    if s.worker != Top {
      assert DbInv(s.dbs[s.worker.db], s.worker, s.worker.db);
    }
  }
}
