/**
 The completion-port emulation (Shared/NtlSharedCommon.h): a queue of completed operations, a
 mutex, a condition variable `cond` for callers of Get, another, `refcond`, for the closer.

 `Core` is what the mutex protects; each function below is one critical section.  `State` adds
 the threads blocked in pthread_cond_wait.  Waking follows IEEE Std 1003.1: a signal unblocks at
 least one waiter if there is one, and a waiter may wake without a signal.
 */
module CompletionPort {
  import opened Sequences

  datatype Item = Item(bytes: nat, key: nat, overlapped: nat)

  // ---------- critical sections ----------

  datatype Core = Core(queue: seq<Item>, closed: bool, refcount: int)

  datatype Outcome = Blocked | Failed | Delivered(item: Item)

  /** The wait loop of Get from its test on, up to the next wait or the return. */
  function GetSection(c: Core): (Core, Outcome) {
    if !c.closed && c.queue == [] then
      (c, Blocked)
    else if c.queue == [] then
      (c.(refcount := c.refcount - 1), Failed)
    else
      (Core(c.queue[1..], c.closed, c.refcount - 1), Delivered(c.queue[0]))
  }

  function EnterGet(c: Core): (Core, Outcome) {
    GetSection(c.(refcount := c.refcount + 1))
  }

  function PostSection(c: Core, item: Item): (Core, bool) {
    if c.closed then (c, false) else (c.(queue := c.queue + [item]), true)
  }

  const NEW_PORT := Core([], false, 0)

  // ---------- threads ----------

  datatype Closer = NotClosing | Waiting | Woken | Freed

  /** `waiting` are the Get callers blocked on `cond`, `woken` those unblocked but not yet back
      inside the mutex.  The last three fields record the history of the port. */
  datatype State = State(
    core: Core, waiting: set<nat>, woken: set<nat>, closer: Closer,
    accepted: seq<Item>, delivered: seq<Item>, discarded: seq<Item>)

  const INITIAL := State(NEW_PORT, {}, {}, NotClosing, [], [], [])

  datatype Event =
    | Get(thread: nat)                       // a caller takes the mutex for the first time
    | Resume(thread: nat)                    // a woken caller takes the mutex again
    | Post(item: Item, unblocked: set<nat>)  // `unblocked` are the waiters the signal reaches
    | Spurious(thread: nat)
    | Close
    | CloserSpurious
    | CloserResume

  predicate Enabled(s: State, e: Event) {
    && s.closer != Freed
    && match e
       case Get(thread) => thread !in s.waiting && thread !in s.woken
       case Resume(thread) => thread in s.woken
       case Post(item, unblocked) =>
         && unblocked <= s.waiting
         && (PostSection(s.core, item).1 && s.waiting != {} ==> unblocked != {})
         && (!PostSection(s.core, item).1 ==> unblocked == {})
       case Spurious(thread) => thread in s.waiting
       case Close => s.closer == NotClosing
       case CloserSpurious => s.closer == Waiting
       case CloserResume => s.closer == Woken
  }

  /** The state after a caller of Get left the mutex. */
  function AfterGet(s: State, thread: nat, core: Core, outcome: Outcome): State {
    match outcome
    case Blocked => s.(core := core, waiting := s.waiting + {thread}, woken := s.woken - {thread})
    case _ =>
      s.(core := core,
         woken := s.woken - {thread},
         delivered := if outcome.Delivered? then s.delivered + [outcome.item] else s.delivered,
         closer := if core.refcount == 0 && s.closer == Waiting then Woken else s.closer)
  }

  /** The closer's loop from its test on: wait again, or free the queue and the port. */
  function CloserSection(s: State): State {
    if s.core.refcount > 0 then
      s.(closer := Waiting)
    else
      s.(core := s.core.(queue := []), closer := Freed, discarded := s.core.queue)
  }

  function Next(s: State, e: Event): State {
    match e
    case Get(thread) => var (core, outcome) := EnterGet(s.core); AfterGet(s, thread, core, outcome)
    case Resume(thread) => var (core, outcome) := GetSection(s.core); AfterGet(s, thread, core, outcome)
    case Post(item, unblocked) =>
      var (core, ok) := PostSection(s.core, item);
      s.(core := core,
         waiting := s.waiting - unblocked,
         woken := s.woken + unblocked,
         accepted := if ok then s.accepted + [item] else s.accepted)
    case Spurious(thread) => s.(waiting := s.waiting - {thread}, woken := s.woken + {thread})
    case Close =>
      CloserSection(s.(core := s.core.(closed := true), waiting := {}, woken := s.woken + s.waiting))
    case CloserSpurious => s.(closer := Woken)
    case CloserResume => CloserSection(s)
  }

  predicate Runs(s: State, events: seq<Event>)
    decreases |events|
  {
    events == [] || (Enabled(s, events[0]) && Runs(Next(s, events[0]), events[1..]))
  }

  function After(s: State, events: seq<Event>): State
    requires Runs(s, events)
    decreases |events|
  {
    if events == [] then s else After(Next(s, events[0]), events[1..])
  }

  // ---------- invariant ----------

  predicate Counted(s: State) {
    s.waiting !! s.woken && s.core.refcount == |s.waiting| + |s.woken|
  }

  /** A caller sleeps only while the port is open and every queued item has a woken caller of its own. */
  predicate NoLostWakeup(s: State) {
    s.waiting != {} ==> !s.core.closed && |s.core.queue| <= |s.woken|
  }

  /** The closer sleeps only while some caller is still to leave. */
  predicate CloserSafe(s: State) {
    && (s.closer == NotClosing <==> !s.core.closed)
    && (s.closer == Waiting ==> s.core.refcount > 0)
    && (s.closer == Freed ==> s.waiting == {} && s.woken == {} && s.core.queue == [])
  }

  /** Accepted posts are the delivered ones, in order, then those discarded or still queued. */
  predicate FirstInFirstOut(s: State) {
    && s.accepted == s.delivered + (s.discarded + s.core.queue)
    && (s.closer != Freed ==> s.discarded == [])
  }

  predicate Inv(s: State) {
    Counted(s) && NoLostWakeup(s) && CloserSafe(s) && FirstInFirstOut(s)
  }

  lemma DeliverFirst(s: State)
    requires FirstInFirstOut(s) && s.closer != Freed
    ensures s.core.queue != [] ==>
              s.accepted == s.delivered + [s.core.queue[0]] + (s.discarded + s.core.queue[1..])
  {
    if s.core.queue != [] {
      assert s.core.queue == [s.core.queue[0]] + s.core.queue[1..];
    }
  }

  lemma GetKeepsInv(s: State, thread: nat)
    requires Inv(s) && Enabled(s, Get(thread))
    ensures Inv(Next(s, Get(thread)))
  {
    var t := Next(s, Get(thread));
    assert s.woken - {thread} == s.woken;
    DeliverFirst(s);
    if EnterGet(s.core).1.Blocked? {
      assert |t.waiting| == |s.waiting| + 1;
    }
  }

  lemma ResumeKeepsInv(s: State, thread: nat)
    requires Inv(s) && Enabled(s, Resume(thread))
    ensures Inv(Next(s, Resume(thread)))
  {
    var t := Next(s, Resume(thread));
    assert |t.woken| == |s.woken| - 1;
    DeliverFirst(s);
    if GetSection(s.core).1.Blocked? {
      assert |t.waiting| == |s.waiting| + 1;
    }
  }

  lemma UnblockCounts(waiting: set<nat>, woken: set<nat>, unblocked: set<nat>)
    requires waiting !! woken && unblocked <= waiting
    ensures |waiting - unblocked| == |waiting| - |unblocked|
    ensures |woken + unblocked| == |woken| + |unblocked|
    ensures waiting - unblocked !! woken + unblocked
  {
    assert waiting == (waiting - unblocked) + unblocked;
  }

  lemma PostKeepsInv(s: State, item: Item, unblocked: set<nat>)
    requires Inv(s) && Enabled(s, Post(item, unblocked))
    ensures Inv(Next(s, Post(item, unblocked)))
  {
    UnblockCounts(s.waiting, s.woken, unblocked);
    assert unblocked != {} ==> |unblocked| > 0;
    assert s.delivered + (s.discarded + (s.core.queue + [item])) == s.delivered + (s.discarded + s.core.queue) + [item];
  }

  lemma CloseKeepsInv(s: State)
    requires Inv(s) && Enabled(s, Close)
    ensures Inv(Next(s, Close))
  {
    UnblockCounts(s.waiting, s.woken, s.waiting);
    assert s.discarded + s.core.queue == s.core.queue + [];
  }

  lemma {:induction false} StepKeepsInv(s: State, e: Event)
    requires Inv(s) && Enabled(s, e)
    ensures Inv(Next(s, e))
  {
    match e {
      case Get(thread) => GetKeepsInv(s, thread);
      case Resume(thread) => ResumeKeepsInv(s, thread);
      case Post(item, unblocked) => PostKeepsInv(s, item, unblocked);
      case Spurious(thread) => UnblockCounts(s.waiting, s.woken, {thread});
      case Close => CloseKeepsInv(s);
      case CloserSpurious =>
      case CloserResume =>
        assert s.discarded + s.core.queue == s.core.queue + [];
    }
  }

  lemma {:induction false} RunKeepsInv(s: State, events: seq<Event>)
    requires Inv(s) && Runs(s, events)
    ensures Inv(After(s, events))
    decreases |events|
  {
    if events != [] {
      StepKeepsInv(s, events[0]);
      RunKeepsInv(Next(s, events[0]), events[1..]);
    }
  }

  // ---------- what the events say ----------

  /** The items of the posts made before the first close. */
  function PostedWhileOpen(events: seq<Event>): seq<Item>
    decreases |events|
  {
    if events == [] || events[0].Close? then
      []
    else
      (if events[0].Post? then [events[0].item] else []) + PostedWhileOpen(events[1..])
  }

  lemma StepAccepts(s: State, e: Event)
    requires Enabled(s, e)
    ensures Next(s, e).core.closed <==> s.core.closed || e.Close?
    ensures Next(s, e).accepted == s.accepted + (if e.Post? && !s.core.closed then [e.item] else [])
  {
    assert s.accepted + [] == s.accepted;
  }

  predicate SomeClose(events: seq<Event>)
    decreases |events|
  {
    events != [] && (events[0].Close? || SomeClose(events[1..]))
  }

  lemma {:induction false} ClosedByClose(s: State, events: seq<Event>)
    requires Runs(s, events)
    ensures After(s, events).core.closed <==> s.core.closed || SomeClose(events)
    decreases |events|
  {
    if events != [] {
      StepAccepts(s, events[0]);
      ClosedByClose(Next(s, events[0]), events[1..]);
    }
  }

  lemma {:induction false} AcceptsNothingClosed(s: State, events: seq<Event>)
    requires Runs(s, events) && s.core.closed
    ensures After(s, events).accepted == s.accepted
    decreases |events|
  {
    if events != [] {
      StepAccepts(s, events[0]);
      EmptyRight(s.accepted);
      AcceptsNothingClosed(Next(s, events[0]), events[1..]);
    }
  }

  /** Exactly the posts made before the close are accepted, in the order they were made. */
  lemma {:induction false} AcceptsWhileOpen(s: State, events: seq<Event>)
    requires Runs(s, events) && !s.core.closed
    ensures After(s, events).accepted == s.accepted + PostedWhileOpen(events)
    decreases |events|
  {
    if events == [] {
      EmptyRight(s.accepted);
    } else {
      var t, rest := Next(s, events[0]), events[1..];
      StepAccepts(s, events[0]);
      EmptyRight(s.accepted);
      if events[0].Close? {
        AcceptsNothingClosed(t, rest);
      } else {
        AcceptsWhileOpen(t, rest);
        Assoc(s.accepted, if events[0].Post? then [events[0].item] else [], PostedWhileOpen(rest));
      }
    }
  }

  /** What a caller in the mutex gets, entering or woken: the first item whenever there is one, open
      or closed; nothing and back to sleep while the port is open and empty; FALSE once it is closed
      and empty. */
  lemma {:induction false} GetTakesWhatIsThere(s: State, e: Event)
    requires Enabled(s, e) && (e.Get? || e.Resume?) && Inv(s)
    ensures var t := Next(s, e);
            if s.core.queue != [] then
              && t.delivered == s.delivered + [s.core.queue[0]] && t.core.queue == s.core.queue[1..]
              && e.thread !in t.waiting && e.thread !in t.woken
            else
              && t.delivered == s.delivered && t.core.queue == []
              && (e.thread in t.waiting <==> !s.core.closed) && e.thread !in t.woken
  {}

  /** Until the port is freed anybody outside may call Get, and anybody may post, in every reachable
      state. */
  lemma {:induction false} CallersMayAlwaysCall(events: seq<Event>, thread: nat, item: Item)
    returns (unblocked: set<nat>)
    requires Runs(INITIAL, events) && After(INITIAL, events).closer != Freed
    ensures var s := After(INITIAL, events);
            && Enabled(s, Post(item, unblocked))
            && (Enabled(s, Get(thread)) <==> thread !in s.waiting + s.woken)
            && (Enabled(s, Resume(thread)) <==> thread in s.woken)
            && (Enabled(s, Close) <==> !s.core.closed)
  {
    RunKeepsInv(INITIAL, events);
    var s := After(INITIAL, events);
    unblocked := if s.core.closed then {} else s.waiting;
  }

  /** The step in which a caller leaves with FALSE. */
  predicate LeavesEmptyHanded(s: State, e: Event)
    requires Enabled(s, e)
  {
    && (e.Get? || e.Resume?)
    && e.thread !in Next(s, e).waiting && e.thread !in Next(s, e).woken
    && Next(s, e).delivered == s.delivered
  }

  /** In any run a caller leaves with FALSE only from a closed and empty port, and once one has,
      whatever happens next, every item accepted has been delivered and none is ever discarded. */
  lemma {:induction false} EmptyHandedMeansDrained(events: seq<Event>, e: Event, rest: seq<Event>)
    requires Runs(INITIAL, events) && Enabled(After(INITIAL, events), e)
    requires LeavesEmptyHanded(After(INITIAL, events), e)
    requires Runs(Next(After(INITIAL, events), e), rest)
    ensures After(INITIAL, events).core.closed && After(INITIAL, events).core.queue == []
    ensures var t := After(Next(After(INITIAL, events), e), rest);
            t.discarded == [] && t.delivered == t.accepted == PostedWhileOpen(events)
  {
    var s := After(INITIAL, events);
    RunKeepsInv(INITIAL, events);
    AcceptsWhileOpen(INITIAL, events);
    EmptyLeft(PostedWhileOpen(events));
    GetTakesWhatIsThere(s, e);
    assert s.core.queue == [] && s.core.closed;
    StepKeepsInv(s, e);
    assert s.accepted == s.delivered by { PortIsSafe(events); }
    StaysDrained(Next(s, e), rest);
  }

  lemma {:induction false} StaysDrained(s: State, events: seq<Event>)
    requires Inv(s) && Runs(s, events)
    requires s.core.closed && s.core.queue == [] && s.discarded == [] && s.delivered == s.accepted
    ensures var t := After(s, events);
            t.discarded == [] && t.delivered == t.accepted == s.accepted
    decreases |events|
  {
    if events != [] {
      StepKeepsInv(s, events[0]);
      StaysDrained(Next(s, events[0]), events[1..]);
    }
  }

  /** A caller blocks, an item is posted for it, the port is closed: the caller still gets the item,
      a second one gets FALSE, and then the port is freed. */
  lemma {:induction false} ItemSurvivesClose(a: Item)
    ensures var events := [Get(1), Post(a, {1}), Close, Resume(1), Get(2), CloserResume];
            Runs(INITIAL, events) && After(INITIAL, events) == State(Core([], true, 0), {}, {}, Freed, [a], [a], [])
  {
    var end := State(Core([], true, 0), {}, {}, Freed, [a], [a], []);
    var rest := [Close, Resume(1), Get(2), CloserResume];
    var s1 := State(Core([], false, 1), {1}, {}, NotClosing, [], [], []);
    var s2 := State(Core([a], false, 1), {}, {1}, NotClosing, [a], [], []);
    ClosedWithItem(a);
    assert Next(s1, Post(a, {1})) == s2;
    RunFrom(s1, Post(a, {1}), rest, end);
    assert Next(INITIAL, Get(1)) == s1;
    RunFrom(INITIAL, Get(1), [Post(a, {1})] + rest, end);
    assert [Get(1)] + ([Post(a, {1})] + rest) == [Get(1), Post(a, {1}), Close, Resume(1), Get(2), CloserResume];
  }

  lemma ClosedWithItem(a: Item)
    ensures var s := State(Core([a], false, 1), {}, {1}, NotClosing, [a], [], []);
            var events := [Close, Resume(1), Get(2), CloserResume];
            Runs(s, events) && After(s, events) == State(Core([], true, 0), {}, {}, Freed, [a], [a], [])
  {
    var end := State(Core([], true, 0), {}, {}, Freed, [a], [a], []);
    var s2 := State(Core([a], false, 1), {}, {1}, NotClosing, [a], [], []);
    var s3 := State(Core([a], true, 1), {}, {1}, Waiting, [a], [], []);
    EmptiedAndFreed(a);
    assert Next(s2, Close) == s3;
    assert {1} - {1} == {};
    var s4 := State(Core([], true, 0), {}, {}, Woken, [a], [a], []);
    assert Next(s3, Resume(1)) == s4;
    RunFrom(s3, Resume(1), [Get(2), CloserResume], end);
    assert [Resume(1)] + [Get(2), CloserResume] == [Resume(1), Get(2), CloserResume];
    RunFrom(s2, Close, [Resume(1), Get(2), CloserResume], end);
    assert [Close] + [Resume(1), Get(2), CloserResume] == [Close, Resume(1), Get(2), CloserResume];
  }

  lemma EmptiedAndFreed(a: Item)
    ensures var s := State(Core([], true, 0), {}, {}, Woken, [a], [a], []);
            Runs(s, [Get(2), CloserResume])
            && After(s, [Get(2), CloserResume]) == State(Core([], true, 0), {}, {}, Freed, [a], [a], [])
  {
    var end := State(Core([], true, 0), {}, {}, Freed, [a], [a], []);
    var s := State(Core([], true, 0), {}, {}, Woken, [a], [a], []);
    assert Next(s, CloserResume) == end;
    RunFrom(s, CloserResume, [], end);
    assert Next(s, Get(2)) == s;
    assert [CloserResume] + [] == [CloserResume];
    RunFrom(s, Get(2), [CloserResume], end);
    assert [Get(2)] + [CloserResume] == [Get(2), CloserResume];
  }

  lemma RunFrom(s: State, e: Event, rest: seq<Event>, t: State)
    requires Enabled(s, e) && Runs(Next(s, e), rest) && After(Next(s, e), rest) == t
    ensures Runs(s, [e] + rest) && After(s, [e] + rest) == t
  {
    assert ([e] + rest)[1..] == rest;
  }

  /** In every reachable state: nobody sleeps past an item or the close, the reference count is the
      number of callers inside the wait, the items posted while the port was open are delivered first
      in first out, and the port is freed only when no caller can touch it again. */
  lemma {:induction false} PortIsSafe(events: seq<Event>)
    requires Runs(INITIAL, events)
    ensures var s := After(INITIAL, events);
            && (s.waiting != {} ==> !s.core.closed && |s.core.queue| <= |s.woken|)
            && s.core.refcount == |s.waiting + s.woken|
            && s.accepted == PostedWhileOpen(events)
            && s.delivered <= s.accepted
            && (s.closer != Freed ==> s.accepted == s.delivered + s.core.queue)
            && (s.closer == Freed ==> s.accepted == s.delivered + s.discarded && s.waiting + s.woken == {})
  {
    RunKeepsInv(INITIAL, events);
    AcceptsWhileOpen(INITIAL, events);
    var s := After(INITIAL, events);
    assert |s.waiting + s.woken| == |s.waiting| + |s.woken|;
    assert [] + s.core.queue == s.core.queue && s.discarded + [] == s.discarded;
    EmptyLeft(PostedWhileOpen(events));
  }

  // ---------- closing ----------

  function Resumes(events: seq<Event>): nat {
    if events == [] then 0 else (if events[0].Resume? then 1 else 0) + Resumes(events[1..])
  }

  lemma ClosedStep(s: State, e: Event)
    requires Inv(s) && s.core.closed && Enabled(s, e)
    ensures var t := Next(s, e);
            && t.accepted == s.accepted && t.core.closed && t.waiting == {} && t.woken <= s.woken
            && (if e.Resume? then 1 else 0) + |t.woken| == |s.woken|
  {
    match e {
      case Resume(thread) => assert |s.woken - {thread}| == |s.woken| - 1;
      case Get(thread) => assert s.woken - {thread} == s.woken;
      case Post(_, unblocked) => assert s.woken + unblocked == s.woken;
      case _ =>
    }
  }

  /** Once closed, nothing is accepted, no caller waits again, and each caller that was inside
      leaves at its next turn: at most that many turns remain. */
  lemma {:induction false} CloseIsFinite(s: State, events: seq<Event>)
    requires Inv(s) && s.core.closed && Runs(s, events)
    ensures var t := After(s, events);
            && t.accepted == s.accepted && t.core.closed && t.waiting == {} && t.woken <= s.woken
            && Resumes(events) + |t.woken| == |s.woken|
    decreases |events|
  {
    if events != [] {
      ClosedStep(s, events[0]);
      StepKeepsInv(s, events[0]);
      CloseIsFinite(Next(s, events[0]), events[1..]);
    }
  }

  /** The events that finish a close: every remaining caller takes its turn, then the closer. */
  lemma {:induction false} CloseCompletes(s: State) returns (events: seq<Event>)
    requires Inv(s) && s.core.closed && s.closer != Freed
    ensures Runs(s, events) && After(s, events).closer == Freed
    ensures |events| == |s.woken| + 1
    ensures forall i :: 0 <= i < |events| - 1 ==> events[i].Resume?
    decreases |s.woken|
  {
    if s.woken == {} {
      events := [CloserResume];
      assert Runs(Next(s, CloserResume), events[1..]);
    } else {
      var thread :| thread in s.woken;
      var e := Resume(thread);
      StepKeepsInv(s, e);
      assert |s.woken - {thread}| == |s.woken| - 1;
      var rest := CloseCompletes(Next(s, e));
      events := [e] + rest;
      assert events[1..] == rest;
    }
  }

  /** In every reachable state of a closing port something can run, and the port can be freed. */
  lemma {:induction false} CloseNeverHangs(events: seq<Event>) returns (rest: seq<Event>)
    requires Runs(INITIAL, events) && After(INITIAL, events).core.closed && After(INITIAL, events).closer != Freed
    ensures Runs(After(INITIAL, events), rest) && After(After(INITIAL, events), rest).closer == Freed
    ensures forall i :: 0 <= i < |rest| - 1 ==> rest[i].Resume?
  {
    RunKeepsInv(INITIAL, events);
    rest := CloseCompletes(After(INITIAL, events));
  }
}
