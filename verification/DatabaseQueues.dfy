/**
 The database object as the source writes it: queues and counter updated in place, the worker's
 pass over one database, and the scoped transaction (Server/Database).  Every method states the
 whole change it makes when no other thread comes in between.
 */
module DatabaseQueues {
  import opened DatabaseLog
  import opened Sequences

  /** The counter all databases share. */
  class Counter {
    var qcount: int
  }

  class Database {
    var before: seq<Item>
    var after: seq<nat>
    var log: seq<Entry>
    var locked: bool
    var called: seq<nat>

    constructor ()
      ensures before == [] && after == [] && log == [] && called == [] && !locked
    {
      before, after, log, called, locked := [], [], [], [], false;
    }

    /** ExecuteNA queues a copy of the text; QueueAsyncQuery queues the object. */
    method Enqueue(item: Item, counter: Counter)
      modifies this`before, counter
      ensures before == old(before) + [item] && counter.qcount == old(counter.qcount) + 1
    {
      before := before + [item];
      counter.qcount := counter.qcount + 1;
    }

    method Query(sql: string)
      requires !locked
      modifies this`log, this`locked
      ensures log == old(log) + [Direct(sql)] && !locked
    {
      locked := true;
      log := log + [Direct(sql)];
      locked := false;
    }

    method Perform(item: Item)
      requires item.Async? && !locked
      modifies this`log, this`locked
      ensures log == old(log) + QueryLog(item.id, item.queries) && !locked
    {
      ghost var rest := item.queries;
      for i := 0 to |item.queries|
        invariant rest == item.queries[i..] && !locked
        invariant log + QueryLog(item.id, rest) == old(log) + QueryLog(item.id, item.queries)
      {
        assert rest[1..] == item.queries[i + 1..];
        rest := rest[1..];
        locked := true;
        log := log + [AsyncSql(item.id, item.queries[i])];
        locked := false;
      }
    }

    /** The main thread takes the results and runs each callback. */
    method QueryTaskRun()
      modifies this`after, this`called
      ensures after == [] && called == old(called) + old(after)
    {
      var q := [];
      if after != [] {
        q, after := after, [];
      }
      while q != []
        invariant after == [] && called + q == old(called) + old(after)
        decreases |q|
      {
        var p := q[0];
        q := q[1..];
        called := called + [p];
      }
    }

    /** The worker's pass: everything queued is taken off, counted down, performed or sent. */
    method QueryThreadRun(counter: Counter)
      requires !locked
      modifies this, counter
      ensures before == [] && !locked && called == old(called)
      ensures counter.qcount == old(counter.qcount) - |old(before)|
      ensures after == old(after) + AsyncIds(old(before))
      ensures log == old(log) + BatchLog(old(before))
    {
      if before == [] {
        assert BatchLog([]) == [];
        return;
      }
      var q := before;
      before := [];
      counter.qcount := counter.qcount - |q|;
      var v := SortOut(q);
      Assoc(old(log), AsyncLog(q), TxLog(v));
      if v == [] {
        return;
      }
      SendAll(v);
    }

    /** The loop that performs async queries and collects the plain statements. */
    method SortOut(items: seq<Item>) returns (v: seq<string>)
      requires !locked
      modifies this`after, this`log, this`locked
      ensures v == Texts(items) && !locked
      ensures after == old(after) + AsyncIds(items)
      ensures log == old(log) + AsyncLog(items)
    {
      v := [];
      var q := items;
      while q != []
        invariant !locked
        invariant v + Texts(q) == Texts(items)
        invariant after + AsyncIds(q) == old(after) + AsyncIds(items)
        invariant log + AsyncLog(q) == old(log) + AsyncLog(items)
        decreases |q|
      {
        var p := q[0];
        OneItem(q, log, after, v);
        if p.Async? {
          Perform(p);
          after := after + [p.id];
        } else {
          v := v + [p.sql];
        }
        q := q[1..];
      }
    }

    /** The transaction around the plain statements. */
    method SendAll(v: seq<string>)
      requires !locked && v != []
      modifies this`log, this`locked
      ensures log == old(log) + TxLog(v) && !locked
    {
      var transaction := new ScopedTransaction([this]);
      assert [this][0] == this;
      ghost var start := log;
      ghost var rest := v;
      for i := 0 to |v|
        invariant locked && rest == v[i..] && transaction.dbs == [this] && !transaction.success
        invariant log + PlainLog(rest) == start + PlainLog(v)
      {
        assert rest[1..] == v[i + 1..];
        if !IsSelect(v[i]) {
          log := log + [Plain(v[i])];
        }
        rest := rest[1..];
      }
      EmptyRight(log);
      Assoc(old(log), [Begin], PlainLog(v));
      Assoc(old(log), [Begin] + PlainLog(v), [Commit]);
      transaction.Succeed();
      assert transaction.dbs[0] == this;
      transaction.Finish();
      assert [this][0] == this;
    }
  }

  /** Taking the first item off moves its log and id, or its text, over. */
  lemma OneItem(q: seq<Item>, log: seq<Entry>, ids: seq<nat>, v: seq<string>)
    requires q != []
    ensures q[0].Async? ==> Texts(q[1..]) == Texts(q)
    ensures q[0].Async? ==> log + QueryLog(q[0].id, q[0].queries) + AsyncLog(q[1..]) == log + AsyncLog(q)
    ensures q[0].Async? ==> ids + [q[0].id] + AsyncIds(q[1..]) == ids + AsyncIds(q)
    ensures q[0].Text? ==> AsyncLog(q[1..]) == AsyncLog(q) && AsyncIds(q[1..]) == AsyncIds(q)
    ensures q[0].Text? ==> v + [q[0].sql] + Texts(q[1..]) == v + Texts(q)
  {
    if q[0].Async? {
      Assoc(log, QueryLog(q[0].id, q[0].queries), AsyncLog(q[1..]));
      Assoc(ids, [q[0].id], AsyncIds(q[1..]));
      EmptyLeft(Texts(q[1..]));
    } else {
      EmptyLeft(AsyncLog(q[1..]));
      EmptyLeft(AsyncIds(q[1..]));
      Assoc(v, [q[0].sql], Texts(q[1..]));
    }
  }

  // ---------- transactions over several databases ----------

  predicate Distinct(dbs: seq<Database>) {
    forall i, j :: 0 <= i < j < |dbs| ==> dbs[i] != dbs[j]
  }

  /** Locks and begins on every database; committed, or rolled back unless marked a success. */
  class ScopedTransaction {
    var dbs: seq<Database>
    var success: bool

    constructor (list: seq<Database>)
      requires Distinct(list) && forall i :: 0 <= i < |list| ==> !list[i].locked
      modifies list`log, list`locked
      ensures dbs == list && !success
      ensures forall i :: 0 <= i < |list| ==> list[i].locked && list[i].log == old(list[i].log) + [Begin]
    {
      dbs, success := list, false;
      new;
      for k := 0 to |list|
        invariant dbs == list && !success
        invariant forall i :: 0 <= i < k ==> list[i].locked && list[i].log == old(list[i].log) + [Begin]
        invariant forall i :: k <= i < |list| ==> !list[i].locked && list[i].log == old(list[i].log)
      {
        list[k].locked := true;
        list[k].log := list[k].log + [Begin];
      }
    }

    method Succeed()
      modifies this`success
      ensures success
    {
      success := true;
    }

    /** The destructor: end every transaction, then release every lock. */
    method Finish()
      requires Distinct(dbs) && forall i :: 0 <= i < |dbs| ==> dbs[i].locked
      modifies dbs`log, dbs`locked
      ensures forall i :: 0 <= i < |dbs| ==>
                !dbs[i].locked && dbs[i].log == old(dbs[i].log) + [if success then Commit else Rollback]
    {
      for k := 0 to |dbs|
        invariant forall i :: 0 <= i < k ==>
                    dbs[i].log == old(dbs[i].log) + [if success then Commit else Rollback]
        invariant forall i :: k <= i < |dbs| ==> dbs[i].log == old(dbs[i].log)
      {
        dbs[k].log := dbs[k].log + [if success then Commit else Rollback];
      }
      for k := 0 to |dbs|
        invariant forall i :: 0 <= i < |dbs| ==>
                    dbs[i].log == old(dbs[i].log) + [if success then Commit else Rollback]
        invariant forall i :: 0 <= i < k ==> !dbs[i].locked
      {
        dbs[k].locked := false;
      }
    }
  }
}
