/**
 Exactly what a tick does to each entry of the login queue, and what each handler does to the queue
 (Server/CharServer/QueueManager.cpp, PacketCharServer.cpp, ClientSession.cpp).
 */
module LoginQueueTick {
  import opened Sequences
  import opened LoginQueue
  import opened LoginQueueRuns

  // ---------- the walk, entry by entry ----------

  predicate NoneAbout(notes: seq<Note>, account: nat) {
    forall k :: 0 <= k < |notes| ==> notes[k].account != account
  }

  lemma {:induction false} WalkConcat(
    s: Server, a: seq<Entry>, b: seq<Entry>, tick: nat, channels: map<(nat, nat), Channel>)
    ensures Walk(s, a + b, tick, channels) == Walk(Walk(s, a, tick, channels), b, tick, channels)
    decreases |a|
  {
    if a == [] {
      EmptyLeft(b);
    } else {
      assert (a + b)[1..] == a[1..] + b;
      WalkConcat(Visit(s, a[0], tick, channels), a[1..], b, tick, channels);
    }
  }

  /** What a visit tells. */
  function VisitNotes(s: Server, e: Entry, tick: nat, channels: map<(nat, nat), Channel>): (notes: seq<Note>)
    ensures Visit(s, e, tick, channels).notes == s.notes + notes && About(notes, e.account)
  {
    if Gone(s.players, e.account) then
      EmptyRight(s.notes);
      []
    else if Misplaced(s.players[e.account]) then
      [Check(e.account, WRONG_FARM)]
    else if Finishes(e, |s.queue| + 1, tick) then
      FinishNotes(e.account, tick, ChannelCode(ChannelAt(channels, s.players[e.account])))
    else
      UpdateNotes(e, |s.queue| + 1, tick)
  }

  /** A walk only adds notes, about the entries it visits, keeps what it has kept, and leaves the
      players it does not visit alone. */
  lemma {:induction false} WalkLeavesOthers(
    s: Server, rest: seq<Entry>, tick: nat, channels: map<(nat, nat), Channel>, account: nat) returns (more: seq<Note>)
    requires !Has(rest, account)
    ensures var t := Walk(s, rest, tick, channels);
            && t.notes == s.notes + more && NoneAbout(more, account)
            && s.queue <= t.queue && |t.queue| <= |s.queue| + |rest|
            && (Has(t.queue, account) ==> Has(s.queue, account))
            && (account in t.players <==> account in s.players)
            && (account in s.players ==> t.players[account] == s.players[account])
    decreases |rest|
  {
    if rest == [] {
      more := [];
      EmptyRight(s.notes);
    } else {
      var t, notes := Visit(s, rest[0], tick, channels), VisitNotes(s, rest[0], tick, channels);
      assert rest[0].account != account;
      assert !Has(rest[1..], account) by {
        assert forall i :: 0 <= i < |rest[1..]| ==> rest[1..][i] == rest[i + 1];
      }
      var others := WalkLeavesOthers(t, rest[1..], tick, channels, account);
      more := notes + others;
      Assoc(s.notes, notes, others);
      VisitKeepsOut(s, rest[0], tick, channels, account);
    }
  }

  lemma VisitKeepsOut(s: Server, e: Entry, tick: nat, channels: map<(nat, nat), Channel>, account: nat)
    requires e.account != account
    ensures Has(Visit(s, e, tick, channels).queue, account) ==> Has(s.queue, account)
  {
    var t := Visit(s, e, tick, channels);
    if i :| 0 <= i < |t.queue| && t.queue[i].account == account {
      assert i < |s.queue| && s.queue[i].account == account;
    }
  }

  /** The code sent to whoever leaves at the head: 506 for a channel that is unknown or down, 593 for
      a full one, 200 otherwise. */
  predicate FinishCode(p: Player, channels: map<(nat, nat), Channel>, code: nat) {
    var known := (p.farm, p.channel) in channels && channels[(p.farm, p.channel)].Channel?;
    && code in {200, 506, 593}
    && (code == 506 <==> !known || !channels[(p.farm, p.channel)].up)
    && (code == 200 <==> known && channels[(p.farm, p.channel)].up
                         && channels[(p.farm, p.channel)].load < channels[(p.farm, p.channel)].maxLoad)
  }

  /** What a tick does to an entry `e` of a player `p` online, when `kept` entries stayed before it:
      what is told about it, and whether and how it stays. */
  ghost predicate Treated(
    e: Entry, p: Player, kept: nat, tick: nat, channels: map<(nat, nat), Channel>, mine: seq<Note>, t: Server)
  {
    var a := e.account;
    a in t.players &&
    if p.farm >= 255 || p.channel >= 255 then
      mine == [Check(a, 215)] && !Has(t.queue, a) && t.players[a] == p.(queued := false)
    else if kept == 0 && e.timeLeft <= tick then
      && |mine| == 3 && mine[0] == Walked(a, 1, tick) && mine[2].Finished? && mine[2].account == a
      && FinishCode(p, channels, mine[2].code)
      && mine[1] == (if mine[2].code == 200 then Count(a, 0) else Check(a, mine[2].code))
      && !Has(t.queue, a) && t.players[a] == p.(queued := false)
    else
      && mine == [Walked(a, kept + 1, tick)] + (if e.lastUpdate <= tick then [Count(a, kept + 1)] else [])
      && kept < |t.queue| && t.players[a] == p
      && t.queue[kept] == Entry(a, if kept == 0 then e.timeLeft - tick else 1000,
                                if e.lastUpdate <= tick then 1000 else e.lastUpdate - tick)
  }

  lemma VisitTreats(s: Server, e: Entry, tick: nat, channels: map<(nat, nat), Channel>)
    requires !Gone(s.players, e.account) && !Has(s.queue, e.account)
    ensures Treated(e, s.players[e.account], |s.queue|, tick, channels, VisitNotes(s, e, tick, channels),
                    Visit(s, e, tick, channels))
  {}

  /** A visit's effect on its own entry lasts to the end of the walk. */
  lemma TreatmentLasts(
    e: Entry, p: Player, kept: nat, tick: nat, channels: map<(nat, nat), Channel>, mine: seq<Note>,
    u: Server, t: Server)
    requires Treated(e, p, kept, tick, channels, mine, u)
    requires u.queue <= t.queue && (Has(t.queue, e.account) ==> Has(u.queue, e.account))
    requires e.account in t.players && t.players[e.account] == u.players[e.account]
    ensures Treated(e, p, kept, tick, channels, mine, t)
  {}

  /** After any run, for every entry in the queue: the tick tells exactly this about it, in one
      piece, and does exactly this to it. */
  lemma {:induction false} TickOnEntry(events: seq<Event>, tick: nat, channels: map<(nat, nat), Channel>, i: nat)
    returns (kept: nat, before: seq<Note>, mine: seq<Note>, after: seq<Note>)
    requires i < |After(NEW_SERVER, events).queue|
    ensures var s := After(NEW_SERVER, events);
            var t, e := Ticked(s, tick, channels), s.queue[i];
            && kept <= i && e.account in s.players
            && t.notes == s.notes + before + mine + after
            && NoneAbout(before, e.account) && NoneAbout(after, e.account)
            && Treated(e, s.players[e.account], kept, tick, channels, mine, t)
  {
    ReachableInv(events);
    var s := After(NEW_SERVER, events);
    var start, e := s.(queue := []), s.queue[i];
    var front, back := s.queue[..i], s.queue[i + 1..];
    OthersElsewhere(s.queue, i);
    before := WalkLeavesOthers(start, front, tick, channels, e.account);
    var m := Walk(start, front, tick, channels);
    kept := |m.queue|;
    mine := VisitNotes(m, e, tick, channels);
    var u := Visit(m, e, tick, channels);
    VisitTreats(m, e, tick, channels);
    after := WalkLeavesOthers(u, back, tick, channels, e.account);
    SplitWalk(start, s.queue, i, tick, channels);
    TreatmentLasts(e, s.players[e.account], kept, tick, channels, mine, u, Ticked(s, tick, channels));
  }

  lemma OthersElsewhere(queue: seq<Entry>, i: nat)
    requires Sorted(queue) && i < |queue|
    ensures !Has(queue[..i], queue[i].account) && !Has(queue[i + 1..], queue[i].account)
  {
    var back := queue[i + 1..];
    assert forall k :: 0 <= k < |back| ==> back[k] == queue[i + 1 + k];
  }

  lemma SplitWalk(s: Server, queue: seq<Entry>, i: nat, tick: nat, channels: map<(nat, nat), Channel>)
    requires i < |queue|
    ensures Walk(s, queue, tick, channels)
         == Walk(Visit(Walk(s, queue[..i], tick, channels), queue[i], tick, channels), queue[i + 1..], tick, channels)
  {
    var rest := queue[i..];
    assert queue == queue[..i] + rest && rest[1..] == queue[i + 1..];
    WalkConcat(s, queue[..i], rest, tick, channels);
  }

  /** After any run, whoever finishes in a tick is told 200 iff the channel of the player is known,
      up and below its load, 593 iff it is known, up and full, and 506 iff it is unknown or down. */
  lemma {:induction false} FinishCodes(
    events: seq<Event>, tick: nat, channels: map<(nat, nat), Channel>, i: nat, k: nat)
    requires i < |After(NEW_SERVER, events).queue|
    requires var s, t := After(NEW_SERVER, events), Ticked(After(NEW_SERVER, events), tick, channels);
             |s.notes| <= k < |t.notes| && t.notes[k].Finished? && t.notes[k].account == s.queue[i].account
    ensures var s, t := After(NEW_SERVER, events), Ticked(After(NEW_SERVER, events), tick, channels);
            && s.queue[i].account in s.players
            && var p, code := s.players[s.queue[i].account], t.notes[k].code;
               var known := (p.farm, p.channel) in channels && channels[(p.farm, p.channel)].Channel?;
               && (code == 200 <==> known && channels[(p.farm, p.channel)].up
                                    && channels[(p.farm, p.channel)].load < channels[(p.farm, p.channel)].maxLoad)
               && (code == 593 <==> known && channels[(p.farm, p.channel)].up
                                    && channels[(p.farm, p.channel)].load >= channels[(p.farm, p.channel)].maxLoad)
               && (code == 506 <==> !known || !channels[(p.farm, p.channel)].up)
  {
    var s, t := After(NEW_SERVER, events), Ticked(After(NEW_SERVER, events), tick, channels);
    var kept, before, mine, after := TickOnEntry(events, tick, channels, i);
    var j := NoteInPiece(s.notes, before, mine, after, k);
  }

  /** A note about an account lies in the one piece that tells about it. */
  lemma NoteInPiece(base: seq<Note>, before: seq<Note>, mine: seq<Note>, after: seq<Note>, k: nat) returns (j: nat)
    requires var notes := base + before + mine + after;
             |base| <= k < |notes| && NoneAbout(before, notes[k].account) && NoneAbout(after, notes[k].account)
    ensures j < |mine| && mine[j] == (base + before + mine + after)[k]
  {
    var notes := base + before + mine + after;
    var mid := |base| + |before|;
    assert forall i :: |base| <= i < mid ==> notes[i] == before[i - |base|];
    assert forall i :: mid + |mine| <= i < |notes| ==> notes[i] == after[i - mid - |mine|];
    j := k - |base| - |before|;
  }

  /** A channel that goes down while a player waits for it: the player is refused with 506. */
  lemma {:induction false} ChannelDownExample(account: nat)
    ensures var open := map[(0, 1) := Channel(true, true, 0, 10)];
            var events := [Login(account, 0), LoadCharacters(account, true, false), WaitCheck(account, 1, open)];
            var down := map[(0, 1) := Channel(true, false, 0, 10)];
            var s := After(NEW_SERVER, events);
            && s.queue == [Entry(account, 1000, 1000)]
            && Ticked(s, 1000, down).notes
               == s.notes + [Walked(account, 1, 1000), Check(account, 506), Finished(account, 506)]
  {
    var open := map[(0, 1) := Channel(true, true, 0, 10)];
    var down := map[(0, 1) := Channel(true, false, 0, 10)];
    var e1 := [Login(account, 0)];
    var e2 := [Login(account, 0), LoadCharacters(account, true, false)];
    var e3 := [Login(account, 0), LoadCharacters(account, true, false), WaitCheck(account, 1, open)];
    assert e3[..2] == e2 && e2[..1] == e1 && e1[..0] == [];
    assert After(NEW_SERVER, e1) == Next(NEW_SERVER, e1[0]);
    assert After(NEW_SERVER, e2) == Server([], map[account := Player(true, 0, 0, false, true, false)], []);
    var s := After(NEW_SERVER, e3);
    var e := Entry(account, 1000, 1000);
    assert s.queue == [e] && [e][1..] == [];
    assert Ticked(s, 1000, down) == Walk(Visit(s.(queue := []), e, 1000, down), [], 1000, down);
  }

  // ---------- the handlers ----------

  /** The channel a player asks for lets it in: known, shown, up, and not full unless the player is a
      game master; and its characters are loaded. */
  predicate LetIn(p: Player, channels: map<(nat, nat), Channel>) {
    && p.charsLoaded
    && (p.farm, p.channel) in channels && channels[(p.farm, p.channel)].Channel?
    && var c := channels[(p.farm, p.channel)];
       c.visible && c.up && (c.load < c.maxLoad || p.gm)
  }

  lemma FlagIffQueued(events: seq<Event>, account: nat)
    ensures var s := After(NEW_SERVER, events);
            account in s.players ==>
              s.players[account].session && (s.players[account].queued <==> Has(s.queue, account))
  {
    ReachableInv(events);
  }

  /** After any run, a wait-check of a player online records the channel, and then: refuses with 201
      or 506 if the player is not let in; otherwise queues it with full timers and answers
      0xFFFFFFFF, unless it is queued already.  No other entry changes. */
  lemma {:induction false} WaitCheckExactly(
    events: seq<Event>, account: nat, channel: nat, channels: map<(nat, nat), Channel>)
    requires account in After(NEW_SERVER, events).players
    ensures var s := After(NEW_SERVER, events);
            var t := Next(s, WaitCheck(account, channel, channels));
            var p := s.players[account].(channel := channel);
            if !LetIn(p, channels) then
              && t.queue == s.queue && t.players == s.players[account := p]
              && t.notes == s.notes + [Check(account, if p.charsLoaded then 506 else 201)]
            else if Has(s.queue, account) then
              t.queue == s.queue && t.players == s.players[account := p] && t.notes == s.notes
            else
              && (forall x :: x in t.queue <==> x == Entry(account, 1000, 1000) || x in s.queue)
              && Sorted(t.queue) && t.players == s.players[account := p.(queued := true)]
              && t.notes == s.notes + [Count(account, 0xFFFF_FFFF), Inserted(account)]
  {
    ReachableInv(events);
    FlagIffQueued(events, account);
    var s := After(NEW_SERVER, events);
    if !Has(s.queue, account) {
      InsertMembers(s.queue, Entry(account, FULL_TIME, FULL_TIME));
      InsertOrder(s.queue, Entry(account, FULL_TIME, FULL_TIME));
    }
  }

  lemma {:induction false} EraseExactly(queue: seq<Entry>, account: nat)
    requires Sorted(queue)
    ensures forall x :: x in Erase(queue, account) <==> x in queue && x.account != account
    decreases |queue|
  {
    if queue != [] {
      var head, tail := queue[0], queue[1..];
      assert queue == [head] + tail;
      SortedCons(head, tail);
      if head.account == account {
        forall x | x in tail ensures x.account != account {
          assert head.account < x.account;
        }
      } else {
        EraseExactly(tail, account);
      }
    }
  }

  /** The three requests that take a player out of the queue. */
  predicate Leaving(e: Event, account: nat) {
    (e.CancelWait? || e.CreateCharacter? || e.CloseSession?) && e.account == account
  }

  /** After any run, cancelling, creating a character and closing the session take the player's own
      entry out of the queue, and no other; the flag is down, or the player is gone; a cancellation
      is acknowledged. */
  lemma {:induction false} LeavingExactly(events: seq<Event>, e: Event, account: nat)
    requires Leaving(e, account) && account in After(NEW_SERVER, events).players
    ensures var s := After(NEW_SERVER, events);
            var t := Next(s, e);
            && (forall x :: x in t.queue <==> x in s.queue && x.account != account)
            && Sorted(t.queue)
            && (if e.CloseSession? then t.players == s.players - {account}
                else
                  var p := s.players[account].(queued := false);
                  t.players == s.players[account := if e.CancelWait? then p.(channel := e.channel) else p])
            && t.notes == s.notes + (if e.CancelWait? then [CancelAck(account)] else [])
  {
    FlagIffQueued(events, account);
    QueueIsSorted(events);
    var s := After(NEW_SERVER, events);
    EmptyRight(s.notes);
    DequeuedExactly(s, account);
    if e.CancelWait? {
      DequeuedExactly(WithChannel(s.(notes := s.notes + [CancelAck(account)]), account, e.channel), account);
    }
  }

  lemma QueueIsSorted(events: seq<Event>)
    ensures Sorted(After(NEW_SERVER, events).queue)
  {
    ReachableInv(events);
  }

  lemma DequeuedExactly(s: Server, account: nat)
    requires Sorted(s.queue) && account in s.players && (s.players[account].queued <==> Has(s.queue, account))
    ensures var t := Dequeued(s, account);
            && (forall x :: x in t.queue <==> x in s.queue && x.account != account)
            && Sorted(t.queue) && t.notes == s.notes
            && t.players == s.players[account := s.players[account].(queued := false)]
  {
    EraseExactly(s.queue, account);
    EraseOrder(s.queue, account);
    if !s.players[account].queued {
      forall x | x in s.queue ensures x.account != account {
        var i :| 0 <= i < |s.queue| && s.queue[i] == x;
      }
    }
  }

  /** After any run, requests of an account that is not online change nothing. */
  lemma {:induction false} OfflineChangesNothing(events: seq<Event>, e: Event, account: nat)
    requires account !in After(NEW_SERVER, events).players
    requires Leaving(e, account) || (e.WaitCheck? && e.account == account)
    ensures Next(After(NEW_SERVER, events), e) == After(NEW_SERVER, events)
  {}

  /** The events around the queue: a login adds a player that is in no queue and has loaded nothing,
      choosing a farm and loading the characters set what they say, and none of them touches the
      queue, another player or the notes. */
  lemma {:induction false} PlayerEvents(s: Server, account: nat, farm: nat, loaded: bool, gm: bool)
    ensures account !in s.players ==>
              Next(s, Login(account, farm))
              == s.(players := s.players[account := Player(true, farm, 0, false, false, false)])
    ensures account in s.players ==> Next(s, Login(account, farm)) == s
    ensures account in s.players && s.players[account].session ==>
              var p := s.players[account];
              && Next(s, SelectFarm(account, farm)) == s.(players := s.players[account := p.(farm := farm)])
              && Next(s, LoadCharacters(account, loaded, gm))
                 == s.(players := s.players[account := p.(charsLoaded := loaded, gm := gm)])
  {}
}
