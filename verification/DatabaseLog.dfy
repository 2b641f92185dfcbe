/**
 What the asynchronous database layer promises to send (Server/Database): the statements queued
 for a connection, and the log a batch of them leaves on it.
 */
module DatabaseLog {
  import opened Sequences

  /** A queued entry: an AsyncQuery object, or the text of a plain statement. */
  datatype Item = Async(id: nat, queries: seq<string>) | Text(sql: string)

  /** What reaches a connection. */
  datatype Entry =
    | Direct(sql: string)             // Query or WaitExecute, by any thread
    | AsyncSql(id: nat, sql: string)  // one query of an AsyncQuery being performed
    | Begin | Plain(sql: string) | Commit | Rollback

  // ---------- select statements ----------

  function Lower(c: char): char {
    if 'A' <= c <= 'Z' then c - 'A' + 'a' else c
  }

  /** _strnicmp(sql, "select", 6) == 0 */
  predicate IsSelect(sql: string) {
    |sql| >= 6 && forall i :: 0 <= i < 6 ==> Lower(sql[i]) == "select"[i]
  }

  /** The statements dropped are those whose first six characters read `select` in any mixture of
      small and capital letters. */
  lemma {:induction false} SelectIff(sql: string)
    ensures IsSelect(sql) <==>
              && |sql| >= 6
              && sql[0] in "sS" && sql[1] in "eE" && sql[2] in "lL"
              && sql[3] in "eE" && sql[4] in "cC" && sql[5] in "tT"
  {
    if |sql| >= 6 {
      forall i | 0 <= i < 6 ensures Lower(sql[i]) == "select"[i] <==> sql[i] == "select"[i] || sql[i] == "SELECT"[i] {
        LowerIff(sql[i], "select"[i], "SELECT"[i]);
      }
    }
  }

  lemma LowerIff(c: char, small: char, capital: char)
    requires 'a' <= small <= 'z' && capital == small - 'a' + 'A'
    ensures Lower(c) == small <==> c == small || c == capital
  {}

  // ---------- the log of one batch ----------

  function AsyncIds(q: seq<Item>): seq<nat> {
    if q == [] then [] else (if q[0].Async? then [q[0].id] else []) + AsyncIds(q[1..])
  }

  function Texts(q: seq<Item>): seq<string> {
    if q == [] then [] else (if q[0].Text? then [q[0].sql] else []) + Texts(q[1..])
  }

  function QueryLog(id: nat, queries: seq<string>): seq<Entry> {
    if queries == [] then [] else [AsyncSql(id, queries[0])] + QueryLog(id, queries[1..])
  }

  function AsyncLog(q: seq<Item>): seq<Entry> {
    if q == [] then
      []
    else
      (if q[0].Async? then QueryLog(q[0].id, q[0].queries) else []) + AsyncLog(q[1..])
  }

  function PlainLog(v: seq<string>): seq<Entry> {
    if v == [] then [] else (if IsSelect(v[0]) then [] else [Plain(v[0])]) + PlainLog(v[1..])
  }

  function TxLog(v: seq<string>): seq<Entry> {
    if v == [] then [] else [Begin] + PlainLog(v) + [Commit]
  }

  /** The async queries in order, then one transaction with the plain statements in order. */
  function BatchLog(q: seq<Item>): seq<Entry> {
    AsyncLog(q) + TxLog(Texts(q))
  }

  function LogOf(batches: seq<seq<Item>>): seq<Entry> {
    if batches == [] then [] else LogOf(batches[..|batches| - 1]) + BatchLog(batches[|batches| - 1])
  }

  function Joined(batches: seq<seq<Item>>): seq<Item> {
    if batches == [] then [] else Joined(batches[..|batches| - 1]) + batches[|batches| - 1]
  }

  /** The log without the statements of other threads. */
  function WorkerLog(log: seq<Entry>): seq<Entry> {
    if log == [] then
      []
    else
      WorkerLog(log[..|log| - 1]) + (if log[|log| - 1].Direct? then [] else [log[|log| - 1]])
  }

  /** The statements of other threads. */
  function DirectsOf(log: seq<Entry>): seq<string> {
    if log == [] then
      []
    else
      DirectsOf(log[..|log| - 1]) + (if log[|log| - 1].Direct? then [log[|log| - 1].sql] else [])
  }

  function PlainsOf(log: seq<Entry>): seq<string> {
    if log == [] then [] else (if log[0].Plain? then [log[0].sql] else []) + PlainsOf(log[1..])
  }

  /** The statements that are sent: all but the selects. */
  function Sent(v: seq<string>): seq<string> {
    if v == [] then [] else (if IsSelect(v[0]) then [] else [v[0]]) + Sent(v[1..])
  }

  // ---------- transactions ----------

  datatype Phase = Outside | Inside | Broken

  function PhaseAfter(p: Phase, e: Entry): Phase {
    match (p, e)
    case (Outside, Direct(_)) => Outside
    case (Outside, AsyncSql(_, _)) => Outside
    case (Outside, Begin) => Inside
    case (Inside, Plain(_)) => Inside
    case (Inside, Commit) => Outside
    case (Inside, Rollback) => Outside
    case _ => Broken
  }

  function PhaseOf(log: seq<Entry>): Phase {
    if log == [] then Outside else PhaseAfter(PhaseOf(log[..|log| - 1]), log[|log| - 1])
  }

  /** Between a Begin and the end of its transaction there are only plain statements. */
  ghost predicate Isolated(log: seq<Entry>) {
    forall i, j :: 0 <= i < j < |log| && log[i].Begin? && (forall k :: i < k < j ==> !Ends(log[k])) ==>
      log[j].Plain? || Ends(log[j])
  }

  predicate Ends(e: Entry) {
    e.Commit? || e.Rollback?
  }

  lemma {:induction false} PhaseInside(log: seq<Entry>, i: nat, n: nat)
    requires i < n <= |log| && log[i].Begin? && PhaseOf(log[..n]) != Broken
    requires forall k :: i < k < n ==> !Ends(log[k])
    ensures PhaseOf(log[..n]) == Inside
  {
    assert log[..n][..n - 1] == log[..n - 1];
    if i < n - 1 {
      PhaseInside(log, i, n - 1);
    }
  }

  lemma {:induction false} PhasePrefix(log: seq<Entry>, n: nat)
    requires PhaseOf(log) != Broken && n <= |log|
    ensures PhaseOf(log[..n]) != Broken
  {
    if n == |log| {
      assert log[..n] == log;
    } else {
      PhasePrefix(log[..|log| - 1], n);
      assert log[..|log| - 1][..n] == log[..n];
    }
  }

  lemma {:induction false} UnbrokenIsIsolated(log: seq<Entry>)
    requires PhaseOf(log) != Broken
    ensures Isolated(log)
  {
    forall i, j | 0 <= i < j < |log| && log[i].Begin? && (forall k :: i < k < j ==> !Ends(log[k]))
      ensures log[j].Plain? || Ends(log[j])
    {
      PhasePrefix(log, j);
      PhaseInside(log, i, j);
      PhasePrefix(log, j + 1);
      assert log[..j + 1][..j] == log[..j];
    }
  }

  // ---------- concatenation ----------

  lemma {:induction false} AsyncIdsConcat(a: seq<Item>, b: seq<Item>)
    ensures AsyncIds(a + b) == AsyncIds(a) + AsyncIds(b)
    decreases |a|
  {
    if a == [] {
      EmptyLeft(b);
      EmptyLeft(AsyncIds(b));
    } else {
      assert (a + b)[1..] == a[1..] + b;
      AsyncIdsConcat(a[1..], b);
      Assoc(if a[0].Async? then [a[0].id] else [], AsyncIds(a[1..]), AsyncIds(b));
    }
  }

  lemma {:induction false} TextsConcat(a: seq<Item>, b: seq<Item>)
    ensures Texts(a + b) == Texts(a) + Texts(b)
    decreases |a|
  {
    if a == [] {
      EmptyLeft(b);
      EmptyLeft(Texts(b));
    } else {
      assert (a + b)[1..] == a[1..] + b;
      TextsConcat(a[1..], b);
      Assoc(if a[0].Text? then [a[0].sql] else [], Texts(a[1..]), Texts(b));
    }
  }

  lemma {:induction false} SentConcat(a: seq<string>, b: seq<string>)
    ensures Sent(a + b) == Sent(a) + Sent(b)
    decreases |a|
  {
    if a == [] {
      EmptyLeft(b);
      EmptyLeft(Sent(b));
    } else {
      assert (a + b)[1..] == a[1..] + b;
      SentConcat(a[1..], b);
      Assoc(if IsSelect(a[0]) then [] else [a[0]], Sent(a[1..]), Sent(b));
    }
  }

  lemma {:induction false} PlainsConcat(a: seq<Entry>, b: seq<Entry>)
    ensures PlainsOf(a + b) == PlainsOf(a) + PlainsOf(b)
    decreases |a|
  {
    if a == [] {
      EmptyLeft(b);
      EmptyLeft(PlainsOf(b));
    } else {
      assert (a + b)[1..] == a[1..] + b;
      PlainsConcat(a[1..], b);
      Assoc(if a[0].Plain? then [a[0].sql] else [], PlainsOf(a[1..]), PlainsOf(b));
    }
  }

  lemma {:induction false} QueryLogHasNoPlain(id: nat, queries: seq<string>)
    ensures PlainsOf(QueryLog(id, queries)) == []
    decreases |queries|
  {
    if queries != [] {
      QueryLogHasNoPlain(id, queries[1..]);
      assert QueryLog(id, queries)[1..] == QueryLog(id, queries[1..]);
    }
  }

  lemma {:induction false} AsyncLogHasNoPlain(q: seq<Item>)
    ensures PlainsOf(AsyncLog(q)) == []
    decreases |q|
  {
    if q != [] {
      AsyncLogHasNoPlain(q[1..]);
      if q[0].Async? {
        QueryLogHasNoPlain(q[0].id, q[0].queries);
        PlainsConcat(QueryLog(q[0].id, q[0].queries), AsyncLog(q[1..]));
      } else {
        assert AsyncLog(q) == AsyncLog(q[1..]);
      }
    }
  }

  lemma {:induction false} PlainLogSends(v: seq<string>)
    ensures PlainsOf(PlainLog(v)) == Sent(v)
    decreases |v|
  {
    if v != [] {
      PlainLogSends(v[1..]);
      if !IsSelect(v[0]) {
        assert PlainLog(v)[1..] == PlainLog(v[1..]);
      } else {
        assert PlainLog(v) == PlainLog(v[1..]);
      }
    }
  }

  lemma BatchLogSends(q: seq<Item>)
    ensures PlainsOf(BatchLog(q)) == Sent(Texts(q))
  {
    var v := Texts(q);
    AsyncLogHasNoPlain(q);
    PlainsConcat(AsyncLog(q), TxLog(v));
    if v != [] {
      PlainLogSends(v);
      PlainsConcat([Begin] + PlainLog(v), [Commit]);
      PlainsConcat([Begin], PlainLog(v));
      assert PlainsOf([Begin]) == [] && PlainsOf([Commit]) == [];
    }
  }

  /** Over any batches, exactly the non-select statements are sent, in the order they were queued. */
  lemma {:induction false} LogSendsInOrder(batches: seq<seq<Item>>)
    ensures PlainsOf(LogOf(batches)) == Sent(Texts(Joined(batches)))
  {
    if batches != [] {
      var init, last := batches[..|batches| - 1], batches[|batches| - 1];
      LogSendsInOrder(init);
      BatchLogSends(last);
      PlainsConcat(LogOf(init), BatchLog(last));
      TextsConcat(Joined(init), last);
      SentConcat(Texts(Joined(init)), Texts(last));
    }
  }

  lemma {:induction false} WorkerLogPlains(log: seq<Entry>)
    ensures PlainsOf(WorkerLog(log)) == PlainsOf(log)
  {
    if log != [] {
      var init, last := log[..|log| - 1], log[|log| - 1];
      WorkerLogPlains(init);
      assert log == init + [last];
      PlainsConcat(init, [last]);
      PlainsConcat(WorkerLog(init), [last]);
      assert WorkerLog(log) == if last.Direct? then WorkerLog(init) else WorkerLog(init) + [last];
    }
  }

  // ---------- committed transactions ----------

  /** Nothing is rolled back. */
  predicate NoRollback(log: seq<Entry>) {
    forall k :: 0 <= k < |log| ==> log[k] != Rollback
  }

  lemma {:induction false} AsyncLogCommits(q: seq<Item>)
    ensures NoRollback(AsyncLog(q))
    decreases |q|
  {
    if q != [] {
      AsyncLogCommits(q[1..]);
      if q[0].Async? {
        QueryLogAt(q[0].id, q[0].queries);
      }
    }
  }

  /** The queries of one object, each once and in order. */
  lemma {:induction false} QueryLogAt(id: nat, queries: seq<string>)
    ensures |QueryLog(id, queries)| == |queries|
    ensures forall k :: 0 <= k < |queries| ==> QueryLog(id, queries)[k] == AsyncSql(id, queries[k])
    decreases |queries|
  {
    if queries != [] {
      QueryLogAt(id, queries[1..]);
    }
  }

  lemma {:induction false} PlainLogCommits(v: seq<string>)
    ensures NoRollback(PlainLog(v))
    decreases |v|
  {
    if v != [] {
      PlainLogCommits(v[1..]);
    }
  }

  lemma {:induction false} BatchesCommit(batches: seq<seq<Item>>)
    ensures NoRollback(LogOf(batches))
    decreases |batches|
  {
    if batches != [] {
      var last := batches[|batches| - 1];
      BatchesCommit(batches[..|batches| - 1]);
      AsyncLogCommits(last);
      PlainLogCommits(Texts(last));
    }
  }

  /** A batch of two plain statements, an async query between them and a select: the async query
      first, then the two statements in one transaction. */
  lemma {:induction false} BatchExample(id: nat)
    ensures BatchLog([Text("UPDATE a"), Async(id, ["x", "y"]), Text("Select b"), Text("INSERT c")])
         == [AsyncSql(id, "x"), AsyncSql(id, "y"), Begin, Plain("UPDATE a"), Plain("INSERT c"), Commit]
  {
    var q := [Text("UPDATE a"), Async(id, ["x", "y"]), Text("Select b"), Text("INSERT c")];
    SortedExample(id, q);
    PlainExample(Texts(q));
  }

  /** A batch of selects only is an empty transaction; one without plain statements has none. */
  lemma {:induction false} SelectOnlyExample(id: nat)
    ensures BatchLog([Text("Select b")]) == [Begin, Commit]
    ensures BatchLog([Async(id, [])]) == []
  {
    OneSelect();
    var q, v := [Text("Select b")], ["Select b"];
    assert q[1..] == [] && v[1..] == [] && [Async(id, [])][1..] == [];
    assert AsyncLog(q) == AsyncLog([]) && Texts(q) == v && PlainLog(v) == PlainLog([]);
  }

  lemma SortedExample(id: nat, q: seq<Item>)
    requires q == [Text("UPDATE a"), Async(id, ["x", "y"]), Text("Select b"), Text("INSERT c")]
    ensures AsyncLog(q) == [AsyncSql(id, "x"), AsyncSql(id, "y")]
    ensures Texts(q) == ["UPDATE a", "Select b", "INSERT c"]
  {
    var q1 := [Async(id, ["x", "y"]), Text("Select b"), Text("INSERT c")];
    var q2 := [Text("Select b"), Text("INSERT c")];
    var q3 := [Text("INSERT c")];
    assert q[1..] == q1 && q1[1..] == q2 && q2[1..] == q3 && q3[1..] == [];
    assert AsyncLog(q3) == [] && AsyncLog(q2) == [];
    assert Texts(q3) == ["INSERT c"] && Texts(q2) == ["Select b", "INSERT c"] == Texts(q1);
    QueryLogAt(id, ["x", "y"]);
    assert QueryLog(id, ["x", "y"]) == [AsyncSql(id, "x"), AsyncSql(id, "y")];
    assert AsyncLog(q) == AsyncLog(q1);
  }

  lemma OneSelect()
    ensures !IsSelect("UPDATE a") && IsSelect("Select b") && !IsSelect("INSERT c")
  {
    SelectIff("UPDATE a");
    SelectIff("Select b");
    SelectIff("INSERT c");
  }

  lemma PlainExample(v: seq<string>)
    requires v == ["UPDATE a", "Select b", "INSERT c"]
    ensures PlainLog(v) == [Plain("UPDATE a"), Plain("INSERT c")]
  {
    OneSelect();
    var v1 := ["Select b", "INSERT c"];
    var v2 := ["INSERT c"];
    assert v[1..] == v1 && v1[1..] == v2 && v2[1..] == [];
    assert PlainLog(v2) == [Plain("INSERT c")] && PlainLog(v1) == PlainLog(v2);
  }
}
