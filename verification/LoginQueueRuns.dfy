/**
 What the login queue keeps over every run of ticks and handlers
 (Server/CharServer/QueueManager.cpp, PacketCharServer.cpp, ClientSession.cpp).
 */
module LoginQueueRuns {
  import opened LoginQueue

  // ---------- time, read off the notes ----------

  /** How long an account has been walked at position 1 in consecutive ticks up to now. */
  function HeadTime(notes: seq<Note>, account: nat): nat {
    if notes == [] then
      0
    else
      var init, last := notes[..|notes| - 1], notes[|notes| - 1];
      if last.account != account then HeadTime(init, account)
      else
        match last
        case Walked(_, pos, tick) => if pos == 1 then HeadTime(init, account) + tick else 0
        case Inserted(_) => 0
        case _ => HeadTime(init, account)
  }

  /** How long an account has been walked since it was last told its position. */
  function SinceCount(notes: seq<Note>, account: nat): nat {
    if notes == [] then
      0
    else
      var init, last := notes[..|notes| - 1], notes[|notes| - 1];
      if last.account != account then SinceCount(init, account)
      else
        match last
        case Walked(_, _, tick) => SinceCount(init, account) + tick
        case Inserted(_) => 0
        case Count(_, _) => 0
        case _ => SinceCount(init, account)
  }

  predicate About(notes: seq<Note>, account: nat) {
    forall i :: 0 <= i < |notes| ==> notes[i].account == account
  }

  lemma {:induction false} OtherAccount(notes: seq<Note>, more: seq<Note>, account: nat, other: nat)
    requires About(more, other) && other != account
    ensures HeadTime(notes + more, account) == HeadTime(notes, account)
    ensures SinceCount(notes + more, account) == SinceCount(notes, account)
    decreases |more|
  {
    if more == [] {
      assert notes + more == notes;
    } else {
      var init := more[..|more| - 1];
      assert (notes + more)[..|notes + more| - 1] == notes + init;
      OtherAccount(notes, init, account, other);
    }
  }

  lemma AppendNote(notes: seq<Note>, note: Note)
    ensures (notes + [note])[..|notes|] == notes
    ensures HeadTime(notes + [note], note.account)
         == match note {
              case Walked(_, pos, tick) => if pos == 1 then HeadTime(notes, note.account) + tick else 0
              case Inserted(_) => 0
              case _ => HeadTime(notes, note.account) }
    ensures SinceCount(notes + [note], note.account)
         == match note {
              case Walked(_, _, tick) => SinceCount(notes, note.account) + tick
              case Inserted(_) => 0
              case Count(_, _) => 0
              case _ => SinceCount(notes, note.account) }
  {
    assert (notes + [note])[..|notes|] == notes;
  }

  // ---------- invariant ----------

  /** Both timers are exactly what is left of a second since the moment they count from. */
  predicate TimedEntry(e: Entry, notes: seq<Note>) {
    && e.timeLeft + HeadTime(notes, e.account) == FULL_TIME && e.timeLeft > 0
    && e.lastUpdate + SinceCount(notes, e.account) == FULL_TIME && e.lastUpdate > 0
  }

  predicate Timed(s: Server) {
    forall i :: 0 <= i < |s.queue| ==> TimedEntry(s.queue[i], s.notes)
  }

  /** A player online has a session, and is flagged exactly when it is in the queue. */
  predicate FlagsAgree(s: Server) {
    && (forall a :: a in s.players ==> s.players[a].session && (s.players[a].queued <==> Has(s.queue, a)))
    && (forall i :: 0 <= i < |s.queue| ==> s.queue[i].account in s.players)
  }

  /** Only one entry has begun to count down. */
  predicate OneCounting(queue: seq<Entry>) {
    forall i, j :: 0 <= i < j < |queue| ==> queue[i].timeLeft == FULL_TIME || queue[j].timeLeft == FULL_TIME
  }

  /** An account finished only after a full second at the head. */
  predicate FinishesEarned(notes: seq<Note>) {
    forall i :: 0 <= i < |notes| && notes[i].Finished? ==> HeadTime(notes[..i], notes[i].account) >= FULL_TIME
  }

  predicate QueueInv(s: Server) {
    Sorted(s.queue) && FlagsAgree(s) && Timed(s) && FinishesEarned(s.notes)
  }

  predicate Inv(s: Server) {
    QueueInv(s) && OneCounting(s.queue)
  }

  lemma EarnedAppend(notes: seq<Note>, note: Note)
    requires FinishesEarned(notes)
    requires note.Finished? ==> HeadTime(notes, note.account) >= FULL_TIME
    ensures FinishesEarned(notes + [note])
  {
    forall i | 0 <= i < |notes + [note]| && (notes + [note])[i].Finished?
      ensures HeadTime((notes + [note])[..i], (notes + [note])[i].account) >= FULL_TIME
    {
      assert (notes + [note])[..i] == notes[..i];
      assert notes[..|notes|] == notes;
    }
  }

  /** Entries other than those of one account stay timed when notes about that account are added. */
  lemma OthersStayTimed(queue: seq<Entry>, notes: seq<Note>, more: seq<Note>, account: nat)
    requires forall i :: 0 <= i < |queue| ==> TimedEntry(queue[i], notes) && queue[i].account != account
    requires About(more, account)
    ensures forall i :: 0 <= i < |queue| ==> TimedEntry(queue[i], notes + more)
  {
    forall i | 0 <= i < |queue| ensures TimedEntry(queue[i], notes + more) {
      OtherAccount(notes, more, queue[i].account, account);
    }
  }

  // ---------- one visit ----------

  /** The server in the middle of a tick: visited entries, then those to come. */
  function Whole(s: Server, rest: seq<Entry>): Server {
    s.(queue := s.queue + rest)
  }

  lemma UpdateTimes(e: Entry, notes: seq<Note>, pos: nat, tick: nat)
    requires TimedEntry(e, notes) && pos > 0 && !Finishes(e, pos, tick) && FinishesEarned(notes)
    ensures TimedEntry(Updated(e, pos, tick), notes + UpdateNotes(e, pos, tick))
    ensures FinishesEarned(notes + UpdateNotes(e, pos, tick))
  {
    var walked := notes + [Walked(e.account, pos, tick)];
    AppendNote(notes, Walked(e.account, pos, tick));
    EarnedAppend(notes, Walked(e.account, pos, tick));
    if SafeDecrease(e.lastUpdate, tick) == 0 {
      AppendNote(walked, Count(e.account, pos));
      EarnedAppend(walked, Count(e.account, pos));
      assert notes + UpdateNotes(e, pos, tick) == walked + [Count(e.account, pos)];
    } else {
      assert notes + UpdateNotes(e, pos, tick) == walked;
    }
  }

  lemma FinishTimes(e: Entry, notes: seq<Note>, tick: nat, code: nat)
    requires TimedEntry(e, notes) && Finishes(e, 1, tick) && FinishesEarned(notes)
    ensures FinishesEarned(notes + FinishNotes(e.account, tick, code))
  {
    var walked := Walked(e.account, 1, tick);
    var told := if code == SUCCESS then Count(e.account, 0) else Check(e.account, code);
    AppendNote(notes, walked);
    AppendNote(notes + [walked], told);
    EarnedAppend(notes, walked);
    EarnedAppend(notes + [walked], told);
    EarnedAppend(notes + [walked] + [told], Finished(e.account, code));
    assert notes + FinishNotes(e.account, tick, code)
        == notes + [walked] + [told] + [Finished(e.account, code)];
  }

  /** Removing the entry visited keeps the order. */
  lemma RemoveSorted(kept: seq<Entry>, rest: seq<Entry>)
    requires rest != [] && Sorted(kept + rest)
    ensures Sorted(kept + rest[1..])
    ensures !Has(kept + rest[1..], rest[0].account)
  {
    var all, less := kept + rest, kept + rest[1..];
    assert all[|kept|] == rest[0];
    assert forall i :: 0 <= i < |less| ==> less[i] == all[if i < |kept| then i else i + 1];
  }

  lemma RemoveHas(kept: seq<Entry>, rest: seq<Entry>, a: nat)
    requires rest != []
    ensures Has(kept + rest, a) <==> a == rest[0].account || Has(kept + rest[1..], a)
  {
    var all, less := kept + rest, kept + rest[1..];
    assert all[|kept|] == rest[0];
    if i :| 0 <= i < |all| && all[i].account == a {
      if i < |kept| {
        assert less[i].account == a;
      } else if i > |kept| {
        assert less[i - 1].account == a;
      }
    }
    if i :| 0 <= i < |less| && less[i].account == a {
      assert all[if i < |kept| then i else i + 1].account == a;
    }
  }

  lemma RemoveFlags(s: Server, rest: seq<Entry>, notes: seq<Note>)
    requires rest != [] && Sorted(s.queue + rest) && FlagsAgree(Whole(s, rest))
    ensures rest[0].account in s.players
    ensures FlagsAgree(Server(s.queue + rest[1..], WithFlag(s.players, rest[0].account, false), notes))
  {
    var all, less := s.queue + rest, s.queue + rest[1..];
    assert all[|s.queue|] == rest[0];
    RemoveSorted(s.queue, rest);
    var players := WithFlag(s.players, rest[0].account, false);
    forall a | a in players ensures players[a].session && (players[a].queued <==> Has(less, a)) {
      RemoveHas(s.queue, rest, a);
    }
    forall i | 0 <= i < |less| ensures less[i].account in players {
      assert less[i] == all[if i < |s.queue| then i else i + 1];
    }
  }

  lemma RemoveTimed(s: Server, rest: seq<Entry>, more: seq<Note>)
    requires rest != [] && Sorted(s.queue + rest) && Timed(Whole(s, rest)) && About(more, rest[0].account)
    ensures forall i :: 0 <= i < |s.queue + rest[1..]| ==> TimedEntry((s.queue + rest[1..])[i], s.notes + more)
  {
    var all, less := s.queue + rest, s.queue + rest[1..];
    RemoveSorted(s.queue, rest);
    forall i | 0 <= i < |less| ensures TimedEntry(less[i], s.notes) && less[i].account != rest[0].account {
      assert less[i] == all[if i < |s.queue| then i else i + 1];
      assert Has(less, less[i].account);
    }
    OthersStayTimed(less, s.notes, more, rest[0].account);
  }

  lemma RemoveKeeps(s: Server, rest: seq<Entry>, more: seq<Note>)
    requires rest != [] && QueueInv(Whole(s, rest))
    requires About(more, rest[0].account) && FinishesEarned(s.notes + more)
    ensures rest[0].account in s.players
    ensures QueueInv(Server(s.queue + rest[1..], WithFlag(s.players, rest[0].account, false), s.notes + more))
  {
    RemoveSorted(s.queue, rest);
    RemoveFlags(s, rest, s.notes + more);
    RemoveTimed(s, rest, more);
  }

  /** Updating an entry in place keeps the accounts. */
  lemma KeepFlags(s: Server, rest: seq<Entry>, e': Entry, notes: seq<Note>)
    requires rest != [] && Sorted(s.queue + rest) && FlagsAgree(Whole(s, rest)) && e'.account == rest[0].account
    ensures Sorted(s.queue + [e'] + rest[1..])
    ensures FlagsAgree(Server(s.queue + [e'] + rest[1..], s.players, notes))
  {
    var all, next := s.queue + rest, s.queue + [e'] + rest[1..];
    assert |next| == |all|;
    forall i | 0 <= i < |next| ensures next[i].account == all[i].account {}
    forall a ensures Has(next, a) <==> Has(all, a) {
      if i :| 0 <= i < |next| && next[i].account == a {
        assert all[i].account == a;
      }
      if i :| 0 <= i < |all| && all[i].account == a {
        assert next[i].account == a;
      }
    }
  }

  lemma KeepTimed(s: Server, rest: seq<Entry>, e': Entry, more: seq<Note>)
    requires rest != [] && Sorted(s.queue + rest) && Timed(Whole(s, rest))
    requires e'.account == rest[0].account && TimedEntry(e', s.notes + more) && About(more, e'.account)
    ensures forall i :: 0 <= i < |s.queue + [e'] + rest[1..]| ==>
              TimedEntry((s.queue + [e'] + rest[1..])[i], s.notes + more)
  {
    var all, next := s.queue + rest, s.queue + [e'] + rest[1..];
    assert all[|s.queue|].account == e'.account;
    forall i | 0 <= i < |next| ensures TimedEntry(next[i], s.notes + more) {
      if i != |s.queue| {
        assert next[i] == all[i] && TimedEntry(all[i], s.notes);
        assert all[i].account != e'.account;
        OtherAccount(s.notes, more, next[i].account, e'.account);
      }
    }
  }

  lemma KeepKeeps(s: Server, rest: seq<Entry>, e': Entry, more: seq<Note>)
    requires rest != [] && QueueInv(Whole(s, rest))
    requires e'.account == rest[0].account && TimedEntry(e', s.notes + more)
    requires About(more, e'.account) && FinishesEarned(s.notes + more)
    ensures QueueInv(Server(s.queue + [e'] + rest[1..], s.players, s.notes + more))
  {
    KeepFlags(s, rest, e', s.notes + more);
    KeepTimed(s, rest, e', more);
  }

  lemma NextEntry(s: Server, rest: seq<Entry>)
    requires rest != [] && QueueInv(Whole(s, rest))
    ensures !Gone(s.players, rest[0].account) && TimedEntry(rest[0], s.notes)
  {
    assert (s.queue + rest)[|s.queue|] == rest[0];
  }

  lemma VisitLeaving(s: Server, rest: seq<Entry>, tick: nat, channels: map<(nat, nat), Channel>)
    requires rest != [] && QueueInv(Whole(s, rest)) && !Gone(s.players, rest[0].account)
    requires Misplaced(s.players[rest[0].account]) || Finishes(rest[0], |s.queue| + 1, tick)
    ensures QueueInv(Whole(Visit(s, rest[0], tick, channels), rest[1..]))
  {
    var e := rest[0];
    NextEntry(s, rest);
    if Misplaced(s.players[e.account]) {
      EarnedAppend(s.notes, Check(e.account, WRONG_FARM));
      RemoveKeeps(s, rest, [Check(e.account, WRONG_FARM)]);
    } else {
      var code := ChannelCode(ChannelAt(channels, s.players[e.account]));
      FinishTimes(e, s.notes, tick, code);
      RemoveKeeps(s, rest, FinishNotes(e.account, tick, code));
    }
  }

  lemma VisitStaying(s: Server, rest: seq<Entry>, tick: nat, channels: map<(nat, nat), Channel>)
    requires rest != [] && QueueInv(Whole(s, rest)) && !Gone(s.players, rest[0].account)
    requires !Misplaced(s.players[rest[0].account]) && !Finishes(rest[0], |s.queue| + 1, tick)
    ensures QueueInv(Whole(Visit(s, rest[0], tick, channels), rest[1..]))
  {
    var e, pos := rest[0], |s.queue| + 1;
    NextEntry(s, rest);
    UpdateTimes(e, s.notes, pos, tick);
    KeepKeeps(s, rest, Updated(e, pos, tick), UpdateNotes(e, pos, tick));
  }

  lemma VisitKeeps(s: Server, rest: seq<Entry>, tick: nat, channels: map<(nat, nat), Channel>)
    requires rest != [] && QueueInv(Whole(s, rest))
    ensures QueueInv(Whole(Visit(s, rest[0], tick, channels), rest[1..]))
  {
    NextEntry(s, rest);
    if Misplaced(s.players[rest[0].account]) || Finishes(rest[0], |s.queue| + 1, tick) {
      VisitLeaving(s, rest, tick, channels);
    } else {
      VisitStaying(s, rest, tick, channels);
    }
  }

  lemma {:induction false} WalkKeeps(s: Server, rest: seq<Entry>, tick: nat, channels: map<(nat, nat), Channel>)
    requires QueueInv(Whole(s, rest))
    ensures QueueInv(Walk(s, rest, tick, channels))
    decreases |rest|
  {
    if rest == [] {
      assert s.queue + rest == s.queue;
    } else {
      VisitKeeps(s, rest, tick, channels);
      WalkKeeps(Visit(s, rest[0], tick, channels), rest[1..], tick, channels);
    }
  }

  // ---------- who counts down ----------

  /** After a tick only the first entry can have begun to count down. */
  predicate OnlyFirstCounts(queue: seq<Entry>) {
    forall i :: 0 < i < |queue| ==> queue[i].timeLeft == FULL_TIME
  }

  lemma {:induction false} WalkResets(s: Server, rest: seq<Entry>, tick: nat, channels: map<(nat, nat), Channel>)
    requires OnlyFirstCounts(s.queue)
    ensures OnlyFirstCounts(Walk(s, rest, tick, channels).queue)
    decreases |rest|
  {
    if rest != [] {
      WalkResets(Visit(s, rest[0], tick, channels), rest[1..], tick, channels);
    }
  }

  function FinishCount(notes: seq<Note>): nat {
    if notes == [] then
      0
    else
      FinishCount(notes[..|notes| - 1]) + (if notes[|notes| - 1].Finished? then 1 else 0)
  }

  lemma {:induction false} FinishCountAppend(notes: seq<Note>, more: seq<Note>)
    ensures FinishCount(notes + more) == FinishCount(notes) + FinishCount(more)
    decreases |more|
  {
    if more == [] {
      assert notes + more == notes;
    } else {
      var init := more[..|more| - 1];
      assert (notes + more)[..|notes + more| - 1] == notes + init;
      FinishCountAppend(notes, init);
    }
  }

  lemma VisitFinishes(s: Server, e: Entry, tick: nat, channels: map<(nat, nat), Channel>)
    ensures var finished := !Gone(s.players, e.account) && !Misplaced(s.players[e.account])
                            && Finishes(e, |s.queue| + 1, tick);
            FinishCount(Visit(s, e, tick, channels).notes) == FinishCount(s.notes) + (if finished then 1 else 0)
  {
    var pos := |s.queue| + 1;
    var code := if Gone(s.players, e.account) then 0 else ChannelCode(ChannelAt(channels, s.players[e.account]));
    var finish, update := FinishNotes(e.account, tick, code), UpdateNotes(e, pos, tick);
    FinishCountAppend(s.notes, [Check(e.account, WRONG_FARM)]);
    FinishCountAppend(s.notes, finish);
    FinishCountAppend(s.notes, update);
    NoFinish([Check(e.account, WRONG_FARM)]);
    NoFinish(finish[..2]);
    NoFinish(update);
  }

  lemma {:induction false} NoFinish(notes: seq<Note>)
    requires forall i :: 0 <= i < |notes| ==> !notes[i].Finished?
    ensures FinishCount(notes) == 0
    decreases |notes|
  {
    if notes != [] {
      NoFinish(notes[..|notes| - 1]);
    }
  }

  /** In a short tick a full second cannot run out, so at most the one counting entry finishes. */
  lemma {:induction false} ShortWalk(s: Server, rest: seq<Entry>, tick: nat, channels: map<(nat, nat), Channel>)
    requires tick < FULL_TIME && OneCounting(rest)
    ensures FinishCount(Walk(s, rest, tick, channels).notes) <= FinishCount(s.notes) + 1
    ensures (forall i :: 0 <= i < |rest| ==> rest[i].timeLeft == FULL_TIME) ==>
              FinishCount(Walk(s, rest, tick, channels).notes) == FinishCount(s.notes)
    decreases |rest|
  {
    if rest != [] {
      VisitFinishes(s, rest[0], tick, channels);
      ShortWalk(Visit(s, rest[0], tick, channels), rest[1..], tick, channels);
      if rest[0].timeLeft < FULL_TIME {
        forall i | 0 <= i < |rest[1..]| ensures rest[1..][i].timeLeft == FULL_TIME {
          assert rest[i + 1].timeLeft == FULL_TIME;
        }
      }
    }
  }

  /** In a tick of a second or more every entry runs out while it is first. */
  lemma {:induction false} LongWalk(s: Server, rest: seq<Entry>, tick: nat, channels: map<(nat, nat), Channel>)
    requires tick >= FULL_TIME && s.queue == [] && forall i :: 0 <= i < |rest| ==> rest[i].timeLeft <= FULL_TIME
    ensures Walk(s, rest, tick, channels).queue == []
    decreases |rest|
  {
    if rest != [] {
      LongWalk(Visit(s, rest[0], tick, channels), rest[1..], tick, channels);
    }
  }

  // ---------- positions ----------

  predicate WalkedAt(notes: seq<Note>, from: nat, account: nat, pos: nat, tick: nat) {
    exists k :: from <= k < |notes| && notes[k] == Walked(account, pos, tick)
  }

  /** A count told at note `k` is the position of a kept entry, or the 0 that goes with a success. */
  predicate CountOk(s: Server, k: nat)
    requires k < |s.notes| && s.notes[k].Count?
  {
    var Count(account, waiting) := s.notes[k];
    || (0 < waiting <= |s.queue| && s.queue[waiting - 1].account == account)
    || (waiting == 0 && k + 1 < |s.notes| && s.notes[k + 1] == Finished(account, SUCCESS))
  }

  /** Since note `from`, every kept entry was walked at its position and every count is right. */
  ghost predicate Positioned(s: Server, from: nat, tick: nat) {
    && from <= |s.notes|
    && (forall i :: 0 <= i < |s.queue| ==> WalkedAt(s.notes, from, s.queue[i].account, i + 1, tick))
    && (forall k :: from <= k < |s.notes| && s.notes[k].Count? ==> CountOk(s, k))
  }

  lemma WalkedAtGrows(notes: seq<Note>, more: seq<Note>, from: nat, account: nat, pos: nat, tick: nat)
    requires WalkedAt(notes, from, account, pos, tick)
    ensures WalkedAt(notes + more, from, account, pos, tick)
  {
    var k :| from <= k < |notes| && notes[k] == Walked(account, pos, tick);
    assert (notes + more)[k] == Walked(account, pos, tick);
  }

  /** Appending notes and at most one entry keeps what was right; the new part is to be shown. */
  lemma PositionsGrow(s: Server, kept: seq<Entry>, more: seq<Note>, from: nat, tick: nat, t: Server)
    requires Positioned(s, from, tick)
    requires t.queue == s.queue + kept && t.notes == s.notes + more
    requires forall i :: 0 <= i < |kept| ==> WalkedAt(t.notes, from, kept[i].account, |s.queue| + i + 1, tick)
    requires forall k :: |s.notes| <= k < |t.notes| && t.notes[k].Count? ==> CountOk(t, k)
    ensures Positioned(t, from, tick)
  {
    forall i | 0 <= i < |s.queue| ensures WalkedAt(t.notes, from, t.queue[i].account, i + 1, tick) {
      WalkedAtGrows(s.notes, more, from, s.queue[i].account, i + 1, tick);
    }
    forall k | from <= k < |s.notes| && t.notes[k].Count? ensures CountOk(t, k) {
      assert t.notes[k] == s.notes[k] && CountOk(s, k);
      assert k + 1 < |s.notes| ==> t.notes[k + 1] == s.notes[k + 1];
    }
  }

  lemma VisitPositions(s: Server, e: Entry, from: nat, tick: nat, channels: map<(nat, nat), Channel>)
    requires Positioned(s, from, tick)
    ensures Positioned(Visit(s, e, tick, channels), from, tick)
  {
    var t, pos := Visit(s, e, tick, channels), |s.queue| + 1;
    if !Gone(s.players, e.account) {
      if Misplaced(s.players[e.account]) {
        PositionsGrow(s, [], [Check(e.account, WRONG_FARM)], from, tick, t);
      } else if Finishes(e, pos, tick) {
        var finish := FinishNotes(e.account, tick, ChannelCode(ChannelAt(channels, s.players[e.account])));
        assert forall k :: |s.notes| <= k < |t.notes| ==> t.notes[k] == finish[k - |s.notes|];
        PositionsGrow(s, [], finish, from, tick, t);
      } else {
        assert t.notes[|s.notes|] == Walked(e.account, pos, tick);
        PositionsGrow(s, [Updated(e, pos, tick)], UpdateNotes(e, pos, tick), from, tick, t);
      }
    }
  }

  lemma {:induction false} WalkPositions(
    s: Server, rest: seq<Entry>, from: nat, tick: nat, channels: map<(nat, nat), Channel>)
    requires Positioned(s, from, tick)
    ensures Positioned(Walk(s, rest, tick, channels), from, tick)
    decreases |rest|
  {
    if rest != [] {
      VisitPositions(s, rest[0], from, tick, channels);
      WalkPositions(Visit(s, rest[0], tick, channels), rest[1..], from, tick, channels);
    }
  }

  // ---------- the handlers ----------

  /** `e` can stand in front of `tail`. */
  predicate Precedes(e: Entry, tail: seq<Entry>) {
    forall x :: x in tail ==> e.account < x.account
  }

  predicate AtMostOneCounts(e: Entry, tail: seq<Entry>) {
    e.timeLeft == FULL_TIME || forall x :: x in tail ==> x.timeLeft == FULL_TIME
  }

  lemma SortedCons(e: Entry, tail: seq<Entry>)
    ensures Sorted([e] + tail) <==> Sorted(tail) && Precedes(e, tail)
  {
    var all := [e] + tail;
    assert all[0] == e && forall i :: 0 <= i < |tail| ==> tail[i] == all[i + 1];
    if Sorted(all) {
      assert Precedes(e, tail);
    }
  }

  lemma CountingCons(e: Entry, tail: seq<Entry>)
    ensures OneCounting([e] + tail) <==> OneCounting(tail) && AtMostOneCounts(e, tail)
  {
    var all := [e] + tail;
    assert all[0] == e && forall i :: 0 <= i < |tail| ==> tail[i] == all[i + 1];
    if OneCounting(all) && e.timeLeft != FULL_TIME {
      forall x | x in tail ensures x.timeLeft == FULL_TIME {
        var i :| 0 <= i < |tail| && tail[i] == x;
        assert all[i + 1].timeLeft == FULL_TIME;
      }
    }
  }

  lemma HasCons(e: Entry, queue: seq<Entry>)
    ensures forall a :: Has([e] + queue, a) <==> a == e.account || Has(queue, a)
  {
    var all := [e] + queue;
    forall a ensures Has(all, a) <==> a == e.account || Has(queue, a) {
      assert all[0] == e;
      if i :| 0 <= i < |queue| && queue[i].account == a {
        assert all[i + 1].account == a;
      }
    }
  }

  lemma {:induction false} InsertMembers(queue: seq<Entry>, e: Entry)
    requires Sorted(queue) && !Has(queue, e.account)
    ensures forall x :: x in Insert(queue, e) <==> x == e || x in queue
    ensures forall a :: Has(Insert(queue, e), a) <==> a == e.account || Has(queue, a)
    decreases |queue|
  {
    if queue == [] || e.account < queue[0].account {
      HasCons(e, queue);
    } else {
      var head, tail := queue[0], queue[1..];
      assert head.account != e.account;
      assert queue == [head] + tail;
      HasCons(head, tail);
      SortedCons(head, tail);
      InsertMembers(tail, e);
      HasCons(head, Insert(tail, e));
    }
  }

  lemma {:induction false} InsertOrder(queue: seq<Entry>, e: Entry)
    requires Sorted(queue) && !Has(queue, e.account)
    ensures Sorted(Insert(queue, e))
    ensures OneCounting(queue) && e.timeLeft == FULL_TIME ==> OneCounting(Insert(queue, e))
    decreases |queue|
  {
    if queue == [] || e.account < queue[0].account {
      SortedCons(e, queue);
      CountingCons(e, queue);
    } else {
      var head, tail := queue[0], queue[1..];
      assert head.account != e.account;
      assert queue == [head] + tail;
      HasCons(head, tail);
      SortedCons(head, tail);
      CountingCons(head, tail);
      InsertOrder(tail, e);
      InsertMembers(tail, e);
      SortedCons(head, Insert(tail, e));
      CountingCons(head, Insert(tail, e));
    }
  }

  lemma {:induction false} EraseMembers(queue: seq<Entry>, account: nat)
    requires Sorted(queue)
    ensures forall x :: x in Erase(queue, account) ==> x in queue
    ensures forall a :: Has(Erase(queue, account), a) <==> a != account && Has(queue, a)
    decreases |queue|
  {
    if queue != [] {
      var head, tail := queue[0], queue[1..];
      assert queue == [head] + tail;
      HasCons(head, tail);
      SortedCons(head, tail);
      if head.account == account {
        assert !Has(tail, account);
      } else {
        EraseMembers(tail, account);
        HasCons(head, Erase(tail, account));
      }
    }
  }

  lemma {:induction false} EraseOrder(queue: seq<Entry>, account: nat)
    requires Sorted(queue)
    ensures Sorted(Erase(queue, account))
    ensures OneCounting(queue) ==> OneCounting(Erase(queue, account))
    decreases |queue|
  {
    if queue != [] {
      var head, tail := queue[0], queue[1..];
      assert queue == [head] + tail;
      SortedCons(head, tail);
      CountingCons(head, tail);
      if head.account != account {
        EraseOrder(tail, account);
        EraseMembers(tail, account);
        SortedCons(head, Erase(tail, account));
        CountingCons(head, Erase(tail, account));
      }
    }
  }

  lemma InsertKeepsInv(s: Server, account: nat)
    requires Inv(s) && account in s.players && !s.players[account].queued
    ensures Inv(Server(Insert(s.queue, Entry(account, FULL_TIME, FULL_TIME)), WithFlag(s.players, account, true),
                       s.notes + [Count(account, INVALID_DWORD), Inserted(account)]))
  {
    var e := Entry(account, FULL_TIME, FULL_TIME);
    var queue := Insert(s.queue, e);
    var told := s.notes + [Count(account, INVALID_DWORD)];
    var notes := s.notes + [Count(account, INVALID_DWORD), Inserted(account)];
    assert notes == told + [Inserted(account)];
    InsertMembers(s.queue, e);
    InsertOrder(s.queue, e);
    EarnedAppend(s.notes, Count(account, INVALID_DWORD));
    EarnedAppend(told, Inserted(account));
    AppendNote(told, Inserted(account));
    forall i | 0 <= i < |queue| ensures TimedEntry(queue[i], notes) && queue[i].account in s.players {
      assert queue[i] in queue;
      if queue[i] != e {
        assert queue[i] in s.queue;
        assert Has(s.queue, queue[i].account);
        OtherAccount(s.notes, [Count(account, INVALID_DWORD), Inserted(account)], queue[i].account, account);
      }
    }
  }

  lemma DequeueKeepsInv(s: Server, account: nat)
    requires Inv(s) && account in s.players
    ensures Inv(Dequeued(s, account)) && !Has(Dequeued(s, account).queue, account)
    ensures Dequeued(s, account).players.Keys == s.players.Keys
  {
    if s.players[account].queued {
      EraseMembers(s.queue, account);
      EraseOrder(s.queue, account);
      var queue := Erase(s.queue, account);
      forall i | 0 <= i < |queue| ensures TimedEntry(queue[i], s.notes) && queue[i].account in s.players {
        assert queue[i] in queue;
      }
    }
  }

  lemma OneNoteKeepsInv(s: Server, note: Note)
    requires Inv(s) && (note.Check? || note.CancelAck?)
    ensures Inv(s.(notes := s.notes + [note]))
  {
    EarnedAppend(s.notes, note);
    AppendNote(s.notes, note);
    forall i | 0 <= i < |s.queue| ensures TimedEntry(s.queue[i], s.notes + [note]) {
      if s.queue[i].account != note.account {
        OtherAccount(s.notes, [note], s.queue[i].account, note.account);
      }
    }
  }

  lemma TickKeepsInv(s: Server, tick: nat, channels: map<(nat, nat), Channel>)
    requires Inv(s)
    ensures Inv(Ticked(s, tick, channels))
  {
    var start := s.(queue := []);
    assert Whole(start, s.queue) == s;
    WalkKeeps(start, s.queue, tick, channels);
    WalkResets(start, s.queue, tick, channels);
  }

  lemma {:induction false} StepKeepsInv(s: Server, e: Event)
    requires Inv(s)
    ensures Inv(Next(s, e))
  {
    match e {
      case Login(account, farm) =>
        assert account !in s.players ==> !Has(s.queue, account);
      case SelectFarm(account, farm) =>
      case LoadCharacters(account, loaded, gm) =>
      case WaitCheck(account, channel, channels) =>
        if !Gone(s.players, account) {
          var t := WithChannel(s, account, channel);
          var code := EntryCode(ChannelAt(channels, t.players[account]), t.players[account]);
          assert Inv(t);
          if code != SUCCESS {
            OneNoteKeepsInv(t, Check(account, code));
          } else if !t.players[account].queued {
            InsertKeepsInv(t, account);
          }
        }
      case CancelWait(account, channel) =>
        if !Gone(s.players, account) {
          OneNoteKeepsInv(s, CancelAck(account));
          DequeueKeepsInv(WithChannel(s.(notes := s.notes + [CancelAck(account)]), account, channel), account);
        }
      case CreateCharacter(account) =>
        if !Gone(s.players, account) {
          DequeueKeepsInv(s, account);
        }
      case CloseSession(account) =>
        if account in s.players {
          DequeueKeepsInv(s, account);
          CloseKeepsInv(Dequeued(s, account), account);
        }
      case Tick(tick, channels) => TickKeepsInv(s, tick, channels);
    }
  }

  lemma CloseKeepsInv(s: Server, account: nat)
    requires Inv(s) && !Has(s.queue, account)
    ensures Inv(s.(players := s.players - {account}))
  {
    forall i | 0 <= i < |s.queue| ensures s.queue[i].account != account {
      assert s.queue[i].account == account ==> Has(s.queue, account);
    }
  }

  lemma {:induction false} ReachableInv(events: seq<Event>)
    ensures Inv(After(NEW_SERVER, events))
    decreases |events|
  {
    if events != [] {
      ReachableInv(events[..|events| - 1]);
      StepKeepsInv(After(NEW_SERVER, events[..|events| - 1]), events[|events| - 1]);
    }
  }

  // ---------- main results ----------

  /** After any run a player online is flagged exactly when it is in the queue, and the queue
      holds nobody else. */
  lemma {:induction false} FlagAndQueueAgree(events: seq<Event>)
    ensures var s := After(NEW_SERVER, events);
            && (forall a :: a in s.players ==> (s.players[a].queued <==> Has(s.queue, a)))
            && (forall a :: Has(s.queue, a) ==> a in s.players)
            && Sorted(s.queue)
  {
    ReachableInv(events);
  }

  /** After any run: whoever finished had been first for a full second of consecutive ticks, and
      whoever still waits has not; likewise nobody has gone a full second without being told. */
  lemma {:induction false} FinishesExactlyAfterASecondAtTheHead(events: seq<Event>)
    ensures var s := After(NEW_SERVER, events);
            && (forall i :: 0 <= i < |s.notes| && s.notes[i].Finished? ==>
                  HeadTime(s.notes[..i], s.notes[i].account) >= 1000)
            && (forall i :: 0 <= i < |s.queue| ==>
                  && HeadTime(s.notes, s.queue[i].account) < 1000
                  && SinceCount(s.notes, s.queue[i].account) < 1000)
  {
    ReachableInv(events);
    var s := After(NEW_SERVER, events);
    forall i | 0 <= i < |s.queue|
      ensures HeadTime(s.notes, s.queue[i].account) < FULL_TIME && SinceCount(s.notes, s.queue[i].account) < FULL_TIME
    {
      assert TimedEntry(s.queue[i], s.notes);
    }
  }

  /** After any run, one more tick: a short one lets at most one account finish, a long one
      empties the queue. */
  lemma {:induction false} TickDichotomy(events: seq<Event>, tick: nat, channels: map<(nat, nat), Channel>)
    ensures var s := After(NEW_SERVER, events);
            var t := Ticked(s, tick, channels);
            && (tick < 1000 ==> FinishCount(t.notes) <= FinishCount(s.notes) + 1)
            && (tick >= 1000 ==> t.queue == [])
  {
    ReachableInv(events);
    var s := After(NEW_SERVER, events);
    if tick < FULL_TIME {
      ShortWalk(s.(queue := []), s.queue, tick, channels);
    } else {
      forall i | 0 <= i < |s.queue| ensures s.queue[i].timeLeft <= FULL_TIME {
        assert TimedEntry(s.queue[i], s.notes);
      }
      LongWalk(s.(queue := []), s.queue, tick, channels);
    }
  }

  /** The survivors are entries of the queue, in the same order. */
  lemma {:induction false} WalkOrder(s: Server, rest: seq<Entry>, tick: nat, channels: map<(nat, nat), Channel>)
    requires Sorted(s.queue + rest)
    ensures Sorted(Walk(s, rest, tick, channels).queue)
    ensures forall a :: Has(Walk(s, rest, tick, channels).queue, a) ==> Has(s.queue + rest, a)
    decreases |rest|
  {
    if rest == [] {
      assert s.queue + rest == s.queue;
    } else {
      var t := Visit(s, rest[0], tick, channels);
      VisitOrder(s, rest, tick, channels);
      WalkOrder(t, rest[1..], tick, channels);
    }
  }

  lemma VisitOrder(s: Server, rest: seq<Entry>, tick: nat, channels: map<(nat, nat), Channel>)
    requires rest != [] && Sorted(s.queue + rest)
    ensures var t := Visit(s, rest[0], tick, channels);
            && Sorted(t.queue + rest[1..])
            && forall a :: Has(t.queue + rest[1..], a) ==> Has(s.queue + rest, a)
  {
    var t := Visit(s, rest[0], tick, channels);
    if t.queue == s.queue {
      RemoveSorted(s.queue, rest);
      forall a | Has(s.queue + rest[1..], a) ensures Has(s.queue + rest, a) {
        RemoveOnly(s.queue, rest, a);
      }
    } else {
      SameAccounts(s.queue, rest, Updated(rest[0], |s.queue| + 1, tick));
    }
  }

  lemma RemoveOnly(kept: seq<Entry>, rest: seq<Entry>, a: nat)
    requires rest != [] && Has(kept + rest[1..], a)
    ensures Has(kept + rest, a)
  {
    var all, left := kept + rest, kept + rest[1..];
    var i :| 0 <= i < |left| && left[i].account == a;
    assert all[if i < |kept| then i else i + 1].account == a;
  }

  lemma SameAccounts(kept: seq<Entry>, rest: seq<Entry>, e: Entry)
    requires rest != [] && e.account == rest[0].account && Sorted(kept + rest)
    ensures Sorted(kept + [e] + rest[1..])
    ensures forall a :: Has(kept + [e] + rest[1..], a) ==> Has(kept + rest, a)
  {
    var all, same := kept + rest, kept + [e] + rest[1..];
    assert |same| == |all| && forall i :: 0 <= i < |all| ==> same[i].account == all[i].account;
    forall a | Has(same, a) ensures Has(all, a) {
      var i :| 0 <= i < |same| && same[i].account == a;
      assert all[i].account == a;
    }
  }

  /** In a tick from any state with a queue in account order: the survivors keep that order and are
      walked at positions 1, 2, ..., and every count sent is the survivor's position, or the 0 that
      goes with a successful finish. */
  lemma {:induction false} TickPositions(s: Server, tick: nat, channels: map<(nat, nat), Channel>)
    ensures Positioned(Ticked(s, tick, channels), |s.notes|, tick)
    ensures Sorted(s.queue) ==>
              && Sorted(Ticked(s, tick, channels).queue)
              && forall a :: Has(Ticked(s, tick, channels).queue, a) ==> Has(s.queue, a)
  {
    WalkPositions(s.(queue := []), s.queue, |s.notes|, tick, channels);
    if Sorted(s.queue) {
      assert [] + s.queue == s.queue;
      WalkOrder(s.(queue := []), s.queue, tick, channels);
    }
  }

  // ---------- game masters ----------

  /** Whoever was let into the queue and finds the channel as it was is turned away at its head
      exactly when the channel is full, although a game master was let in for that case. */
  lemma {:induction false} TurnedAwayIffFull(c: Channel, p: Player)
    requires EntryCode(c, p) == SUCCESS
    ensures ChannelCode(c) != SUCCESS <==> c.load >= c.maxLoad
    ensures ChannelCode(c) != SUCCESS ==> p.gm && ChannelCode(c) == CHANNEL_FULL
  {}

  /** A game master logs in, waits a second for a full channel and is then refused. */
  lemma {:induction false} GameMasterExample(account: nat)
    ensures var full := map[(0, 1) := Channel(true, true, 10, 10)];
            var events := [Login(account, 0), LoadCharacters(account, true, true), WaitCheck(account, 1, full)];
            var queued := After(NEW_SERVER, events);
            && Has(queued.queue, account)
            && After(NEW_SERVER, events + [Tick(FULL_TIME, full)]).notes
               == queued.notes + FinishNotes(account, FULL_TIME, CHANNEL_FULL)
  {
    var full := map[(0, 1) := Channel(true, true, 10, 10)];
    var e1 := [Login(account, 0)];
    var e2 := [Login(account, 0), LoadCharacters(account, true, true)];
    var e3 := [Login(account, 0), LoadCharacters(account, true, true), WaitCheck(account, 1, full)];
    assert e3[..2] == e2 && e2[..1] == e1 && e1[..0] == [];
    var s := Server([], map[account := Player(true, 0, 0, false, true, true)], []);
    assert After(NEW_SERVER, e1) == Next(NEW_SERVER, e1[0]);
    assert After(NEW_SERVER, e2) == s;
    var queued := Next(s, WaitCheck(account, 1, full));
    assert After(NEW_SERVER, e3) == queued;
    var e := Entry(account, FULL_TIME, FULL_TIME);
    assert queued.queue == [e] && queued.queue[0].account == account;
    var start := queued.(queue := []);
    assert [e][1..] == [];
    assert Ticked(queued, FULL_TIME, full) == Walk(Visit(start, e, FULL_TIME, full), [], FULL_TIME, full);
    assert (e3 + [Tick(FULL_TIME, full)])[..3] == e3;
  }
}
