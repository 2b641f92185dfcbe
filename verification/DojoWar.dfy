/**
 Challenging a dojo to a war (Server/ChatServer/Dojo.cpp, GameServerPacket.cpp): one dojo, its
 request and war flags, and everything that can start the preparation of a war.
 */
module DojoWar {
  datatype Status = Normal | Receive | RejectEnd | Standby | Initial | Ready | Start | End

  const INVALID_GUILD: nat := 0xFFFF_FFFF

  /** `timers` counts the pending war-request events; `starts` the preparations begun so far. */
  datatype Dojo = Dojo(
    hasOwner: bool, guild: nat, challenger: nat, rejected: nat, status: Status,
    hasRequest: bool, inProgress: bool, timers: nat, starts: nat)

  function NewDojo(guild: nat, challenger: nat): Dojo {
    Dojo(true, guild, challenger, INVALID_GUILD, Normal, false, false, 0, 0)
  }

  datatype Event =
    | Request(guild: nat, permitted: bool, ownerOnline: bool)  // RecvDojoScrambleReq
    | Response(permitted: bool)                                // RecvDojoScrambleResponse
    | Timer                                                    // OnEvent_WarRequestTimer
    | MemberLeaves                                             // the dojo part of RecUserLeaveGame
    | StateChange(status: Status, ownerExists: bool)           // RecvDojoScrambleStateChange
    | ResetWar(status: Status)                                 // RecvDojoScrambleReset

  predicate Enabled(d: Dojo, e: Event) {
    e.Timer? ==> d.timers > 0
  }

  /** RequestWar accepts the challenge. */
  predicate Acceptable(d: Dojo, guild: nat) {
    d.hasOwner && d.rejected != guild && d.challenger != guild && d.status == Receive
  }

  function Begun(d: Dojo): Dojo {
    d.(hasRequest := false, inProgress := true, status := Standby, starts := d.starts + 1)
  }

  function Cleared(d: Dojo): Dojo {
    d.(challenger := INVALID_GUILD, rejected := INVALID_GUILD, hasRequest := false, inProgress := false)
  }

  function Next(d: Dojo, e: Event): Dojo
    requires Enabled(d, e)
  {
    match e
    case Request(guild, permitted, ownerOnline) =>
      if !permitted || guild == d.guild || d.hasRequest || d.inProgress || !Acceptable(d, guild) then d
      else if ownerOnline then d.(challenger := guild, hasRequest := true, timers := d.timers + 1)
      else Begun(d.(challenger := guild))
    case Response(permitted) =>
      if !permitted || !d.hasRequest || d.inProgress || d.challenger == INVALID_GUILD then d
      else if d.status != Receive then d.(timers := 0)
      else Begun(d.(timers := 0))
    case Timer =>
      var fired := d.(timers := d.timers - 1);
      if d.status == Receive then Begun(fired) else fired
    case MemberLeaves =>
      if d.hasRequest && !d.inProgress && d.challenger != INVALID_GUILD then Begun(d) else d
    case StateChange(status, ownerExists) =>
      var t := d.(status := status);
      if status == End then t.(hasRequest := false, inProgress := false)
      else if status == Normal then Cleared(t.(hasOwner := ownerExists))
      else t
    case ResetWar(status) => Cleared(d.(status := status))
  }

  predicate Runs(d: Dojo, events: seq<Event>)
    decreases |events|
  {
    events == [] || (Enabled(d, events[0]) && Runs(Next(d, events[0]), events[1..]))
  }

  function After(d: Dojo, events: seq<Event>): Dojo
    requires Runs(d, events)
    decreases |events|
  {
    if events == [] then d else After(Next(d, events[0]), events[1..])
  }

  /** The event begins a preparation. */
  predicate Starts(d: Dojo, e: Event)
    requires Enabled(d, e)
  {
    Next(d, e).starts == d.starts + 1
  }

  /** The game server ends the war or puts the dojo back. */
  predicate Closes(e: Event) {
    e.ResetWar? || (e.StateChange? && (e.status == End || e.status == Normal))
  }

  // ---------- flags and challenger ----------

  predicate Inv(d: Dojo) {
    !(d.hasRequest && d.inProgress)
  }

  /** In every run a dojo never has both a pending request and a war in progress. */
  lemma {:induction false} RequestXorWar(d: Dojo, events: seq<Event>)
    requires Inv(d) && Runs(d, events)
    ensures Inv(After(d, events))
    decreases |events|
  {
    if events != [] {
      RequestXorWar(Next(d, events[0]), events[1..]);
    }
  }

  /** No event of the run closes the war. */
  predicate NeverClosed(events: seq<Event>) {
    forall i :: 0 <= i < |events| ==> !Closes(events[i])
  }

  /** From the moment a challenge is pending or a war is on, the recorded challenger stays the
      same until the game server closes the war; and one of the two flags stays up. */
  lemma {:induction false} ChallengerIsStable(d: Dojo, events: seq<Event>)
    requires (d.hasRequest || d.inProgress) && Runs(d, events) && NeverClosed(events)
    ensures var t := After(d, events);
            t.challenger == d.challenger && (t.hasRequest || t.inProgress)
    decreases |events|
  {
    if events != [] {
      assert !Closes(events[0]);
      assert NeverClosed(events[1..]) by {
        assert forall i :: 0 <= i < |events[1..]| ==> events[1..][i] == events[i + 1];
      }
      ChallengerIsStable(Next(d, events[0]), events[1..]);
    }
  }

  /** Closing clears both flags, and sets the state it is told to; the return to normal and a reset
      also forget the challenger and the rejected guild, the end of a war keeps them. */
  lemma {:induction false} ClosingClears(d: Dojo, e: Event)
    requires Enabled(d, e) && Closes(e)
    ensures var t := Next(d, e);
            && !t.hasRequest && !t.inProgress && t.status == e.status && t.timers == d.timers && t.starts == d.starts
            && (if e.StateChange? && e.status == End then
                  t.challenger == d.challenger && t.rejected == d.rejected && t.hasOwner == d.hasOwner
                else
                  && t.challenger == 0xFFFF_FFFF && t.rejected == 0xFFFF_FFFF
                  && t.hasOwner == if e.StateChange? then e.ownerExists else d.hasOwner)
  {}

  // ---------- what starts a war ----------

  /** A challenge the dojo takes: from another guild than its owner, the one rejected and the one
      already challenging, while it is open and neither request nor war is on. */
  predicate Takes(d: Dojo, e: Event) {
    && e.Request? && e.permitted && e.guild != d.guild
    && !d.hasRequest && !d.inProgress
    && d.hasOwner && d.rejected != e.guild && d.challenger != e.guild && d.status == Receive
  }

  /** The request is pending against a recorded guild, and no war is on. */
  predicate Answerable(d: Dojo) {
    d.hasRequest && !d.inProgress && d.challenger != 0xFFFF_FFFF
  }

  /** The events that begin a preparation, exactly: a challenge taken while the owner is offline, an
      answer to a pending request or a firing timer while the dojo is open, and a leaving member of a
      guild with a pending request.  The war is then on, in standby, against the guild just
      challenging or the one on record; an answer stops the timers. */
  lemma {:induction false} StartsIff(d: Dojo, e: Event)
    requires Enabled(d, e)
    ensures Starts(d, e) <==>
              match e
              case Request(_, _, ownerOnline) => Takes(d, e) && !ownerOnline
              case Response(permitted) => permitted && Answerable(d) && d.status == Receive
              case Timer => d.status == Receive
              case MemberLeaves => Answerable(d)
              case StateChange(_, _) => false
              case ResetWar(_) => false
    ensures Starts(d, e) ==>
              var t := Next(d, e);
              && t.inProgress && !t.hasRequest && t.status == Standby
              && t.challenger == (if e.Request? then e.guild else d.challenger)
              && t.timers == if e.Response? then 0 else if e.Timer? then d.timers - 1 else d.timers
  {}

  /** A request becomes pending exactly when a challenge is taken while the owner is online; it is
      recorded and its timer runs. */
  lemma {:induction false} PendsIff(d: Dojo, e: Event)
    requires Enabled(d, e)
    ensures Next(d, e).hasRequest && !d.hasRequest <==> Takes(d, e) && e.ownerOnline
    ensures Takes(d, e) && e.ownerOnline ==>
              Next(d, e) == d.(hasRequest := true, challenger := e.guild, timers := d.timers + 1)
  {}

  /** Every other event leaves the flags, the guilds and the owner as they are; it sets the state it
      is told to, uses up the timer that fires, or stops the timers of an answer that comes too late. */
  lemma {:induction false} OtherwiseNothing(d: Dojo, e: Event)
    requires Enabled(d, e) && !Starts(d, e) && !Closes(e) && !(Takes(d, e) && e.ownerOnline)
    ensures Next(d, e) == d.(
              status := if e.StateChange? then e.status else d.status,
              timers := if e.Timer? then d.timers - 1
                        else if e == Response(true) && Answerable(d) then 0 else d.timers)
  {}

  // ---------- one start per challenge ----------

  /** A request timer that outlived its request fires in an open dojo. */
  predicate StaleFiring(d: Dojo, e: Event) {
    e.Timer? && d.status == Receive
  }

  ghost predicate SomeStaleFiring(d: Dojo, events: seq<Event>)
    requires Runs(d, events)
    decreases |events|
  {
    events != [] && (StaleFiring(d, events[0]) || SomeStaleFiring(Next(d, events[0]), events[1..]))
  }

  /** While a war is on and not closed, a preparation begins again exactly when a left-over timer
      fires after the game server reopened the dojo. */
  lemma {:induction false} SecondStartIffStaleTimer(d: Dojo, events: seq<Event>)
    requires d.inProgress && Inv(d) && Runs(d, events) && NeverClosed(events)
    ensures After(d, events).inProgress && Inv(After(d, events)) && After(d, events).starts >= d.starts
    ensures After(d, events).starts > d.starts <==> SomeStaleFiring(d, events)
    decreases |events|
  {
    if events != [] {
      assert !Closes(events[0]);
      assert NeverClosed(events[1..]) by {
        assert forall i :: 0 <= i < |events[1..]| ==> events[1..][i] == events[i + 1];
      }
      SecondStartIffStaleTimer(Next(d, events[0]), events[1..]);
    }
  }

  predicate NeverReopened(events: seq<Event>) {
    forall i :: 0 <= i < |events| ==> !(events[i].StateChange? && events[i].status == Receive)
  }

  /** A preparation that has begun is not begun again before the war is closed, as long as the
      game server does not reopen the dojo for challenges in between. */
  lemma {:induction false} OneStartPerChallenge(d: Dojo, events: seq<Event>)
    requires d.inProgress && Inv(d) && d.status != Receive && Runs(d, events)
    requires NeverClosed(events) && NeverReopened(events)
    ensures After(d, events).starts == d.starts && After(d, events).status != Receive
    decreases |events|
  {
    if events != [] {
      assert !Closes(events[0]) && !(events[0].StateChange? && events[0].status == Receive);
      assert NeverClosed(events[1..]) && NeverReopened(events[1..]) by {
        assert forall i :: 0 <= i < |events[1..]| ==> events[1..][i] == events[i + 1];
      }
      OneStartPerChallenge(Next(d, events[0]), events[1..]);
    }
  }

  lemma StartedState(d: Dojo, e: Event)
    requires Enabled(d, e) && Inv(d) && Starts(d, e)
    ensures Next(d, e).inProgress && Next(d, e).status != Receive && Inv(Next(d, e))
  {}

  /** In every run from a new dojo: after an event that began a preparation, and any events that
      neither close the war nor reopen the dojo, no event begins one again. */
  lemma {:induction false} NoSecondStart(
    guild: nat, challenger: nat, before: seq<Event>, first: Event, between: seq<Event>, second: Event)
    requires Runs(NewDojo(guild, challenger), before)
    requires Enabled(After(NewDojo(guild, challenger), before), first)
    requires Starts(After(NewDojo(guild, challenger), before), first)
    requires Runs(Next(After(NewDojo(guild, challenger), before), first), between)
    requires NeverClosed(between) && NeverReopened(between)
    requires Enabled(After(Next(After(NewDojo(guild, challenger), before), first), between), second)
    ensures !Starts(After(Next(After(NewDojo(guild, challenger), before), first), between), second)
  {
    RequestXorWar(NewDojo(guild, challenger), before);
    StartedState(After(NewDojo(guild, challenger), before), first);
    var begun := Next(After(NewDojo(guild, challenger), before), first);
    OneStartPerChallenge(begun, between);
    SecondStartIffStaleTimer(begun, between);
  }

  /** Without the reopening condition the claim fails: a challenge with the owner online, a guild
      member leaving, the dojo reopened, the timer still running. */
  lemma {:induction false} SecondStartExample(guild: nat, challenger: nat)
    requires guild != challenger && challenger != INVALID_GUILD
    ensures var events := [StateChange(Receive, true), Request(challenger, true, true), MemberLeaves,
                           StateChange(Receive, true), Timer];
            && Runs(NewDojo(guild, INVALID_GUILD), events)
            && NeverClosed(events)
            && After(NewDojo(guild, INVALID_GUILD), events).starts == 2
  {
    var d0 := NewDojo(guild, INVALID_GUILD);
    var d1 := Next(d0, StateChange(Receive, true));
    var d2 := Next(d1, Request(challenger, true, true));
    var d3 := Next(d2, MemberLeaves);
    var d4 := Next(d3, StateChange(Receive, true));
    var e4 := [Timer];
    var e3 := [StateChange(Receive, true)] + e4;
    var e2 := [MemberLeaves] + e3;
    var e1 := [Request(challenger, true, true)] + e2;
    var events := [StateChange(Receive, true)] + e1;
    assert Runs(d4, e4) && After(d4, e4) == Next(d4, Timer) && Next(d4, Timer).starts == 2;
    assert e3[1..] == e4 && e2[1..] == e3 && e1[1..] == e2 && events[1..] == e1;
    assert Runs(d3, e3) && Runs(d2, e2) && Runs(d1, e1) && Runs(d0, events);
    assert After(d3, e3) == After(d4, e4) && After(d2, e2) == After(d3, e3) && After(d1, e1) == After(d2, e2);
    assert events == [StateChange(Receive, true), Request(challenger, true, true), MemberLeaves,
                      StateChange(Receive, true), Timer];
  }

  // ---------- every start has its own challenge ----------

  /** The dojo before the event at `k`. */
  function At(d: Dojo, events: seq<Event>, k: nat): Dojo
    requires Runs(d, events) && k <= |events|
    decreases k
  {
    if k == 0 then d else At(Next(d, events[0]), events[1..], k - 1)
  }

  lemma {:induction false} AtStep(d: Dojo, events: seq<Event>, k: nat)
    requires Runs(d, events) && k < |events|
    ensures Enabled(At(d, events, k), events[k])
    ensures At(d, events, k + 1) == Next(At(d, events, k), events[k])
    decreases k
  {
    if k > 0 {
      AtStep(Next(d, events[0]), events[1..], k - 1);
    }
  }

  predicate StartsAt(d: Dojo, events: seq<Event>, k: nat)
    requires Runs(d, events) && k < |events|
  {
    At(d, events, k + 1).starts == At(d, events, k).starts + 1
  }

  /** In any run, while a request is pending or a war is on, the one step that can change the
      recorded challenger is a reset or the return to normal, which also clears both flags. */
  lemma {:induction false} ChallengerChangesOnlyOnClose(d: Dojo, events: seq<Event>, k: nat)
    requires Runs(d, events) && k < |events|
    requires At(d, events, k).hasRequest || At(d, events, k).inProgress
    requires At(d, events, k + 1).challenger != At(d, events, k).challenger
    ensures events[k].ResetWar? || (events[k].StateChange? && events[k].status == Normal)
    ensures !At(d, events, k + 1).hasRequest && !At(d, events, k + 1).inProgress
    ensures At(d, events, k + 1).challenger == INVALID_GUILD
  {
    AtStep(d, events, k);
    assert Closes(events[k]);
    ClosingClears(At(d, events, k), events[k]);
  }

  /** The event at `k` is a challenge the dojo accepts. */
  predicate AcceptsAt(d: Dojo, events: seq<Event>, k: nat)
    requires Runs(d, events) && k < |events|
  {
    Takes(At(d, events, k), events[k])
  }

  /** From the challenge accepted at `c` up to the event at `k` no war was started and none closed. */
  predicate StandsUntil(d: Dojo, events: seq<Event>, c: nat, k: nat)
    requires Runs(d, events) && c <= k <= |events|
  {
    && (forall j :: c <= j < k ==> !StartsAt(d, events, j))
    && (forall j :: c < j < k ==> !Closes(events[j]))
  }

  /** The start at `k` has an accepted challenge of its own. */
  ghost predicate OwnChallenge(d: Dojo, events: seq<Event>, k: nat)
    requires Runs(d, events) && k < |events|
  {
    exists c: nat :: c <= k && AcceptsAt(d, events, c) && StandsUntil(d, events, c, k)
  }

  /** A timer fires in an open dojo without a pending request. */
  predicate LeftOverAt(d: Dojo, events: seq<Event>, k: nat)
    requires Runs(d, events) && k < |events|
  {
    events[k].Timer? && At(d, events, k).status == Receive && !At(d, events, k).hasRequest
  }

  /** A request is pending exactly while the last accepted challenge stands. */
  ghost predicate PendingAt(d: Dojo, events: seq<Event>, k: nat)
    requires Runs(d, events) && k <= |events|
  {
    exists c: nat :: c < k && AcceptsAt(d, events, c) && StandsUntil(d, events, c, k)
  }

  lemma {:induction false} PendingIffStanding(d: Dojo, events: seq<Event>, k: nat)
    requires Runs(d, events) && k <= |events| && !d.hasRequest && Inv(d)
    ensures Inv(At(d, events, k))
    ensures At(d, events, k).hasRequest <==> PendingAt(d, events, k)
    decreases k
  {
    if k > 0 {
      var i := k - 1;
      PendingIffStanding(d, events, i);
      AtStep(d, events, i);
      if At(d, events, k).hasRequest {
        PendingStands(d, events, i);
      }
      if PendingAt(d, events, k) {
        var c: nat :| c < k && AcceptsAt(d, events, c) && StandsUntil(d, events, c, k);
        StandingPends(d, events, c, i);
      }
    }
  }

  /** A request pending after an event was accepted by it, or stood before it and still does. */
  lemma PendingStands(d: Dojo, events: seq<Event>, i: nat)
    requires Runs(d, events) && i < |events| && Inv(At(d, events, i))
    requires At(d, events, i).hasRequest <==> PendingAt(d, events, i)
    requires At(d, events, i + 1).hasRequest
    ensures PendingAt(d, events, i + 1)
  {
    AtStep(d, events, i);
    if At(d, events, i).hasRequest {
      var c: nat :| c < i && AcceptsAt(d, events, c) && StandsUntil(d, events, c, i);
      assert StandsUntil(d, events, c, i + 1);
    } else {
      assert AcceptsAt(d, events, i) && StandsUntil(d, events, i, i + 1);
    }
  }

  lemma StandingPends(d: Dojo, events: seq<Event>, c: nat, i: nat)
    requires Runs(d, events) && c <= i < |events| && Inv(At(d, events, i))
    requires At(d, events, i).hasRequest <==> PendingAt(d, events, i)
    requires AcceptsAt(d, events, c) && StandsUntil(d, events, c, i + 1)
    ensures At(d, events, i + 1).hasRequest
  {
    AtStep(d, events, i);
    assert !StartsAt(d, events, i);
    if c < i {
      assert StandsUntil(d, events, c, i);
      assert PendingAt(d, events, i) && !Closes(events[i]);
    }
  }

  lemma StartOwnsChallenge(d: Dojo, events: seq<Event>, k: nat)
    requires Runs(d, events) && k < |events| && !d.hasRequest && Inv(d)
    requires StartsAt(d, events, k)
    ensures OwnChallenge(d, events, k) <==> !LeftOverAt(d, events, k)
  {
    PendingIffStanding(d, events, k);
    AtStep(d, events, k);
    if At(d, events, k).hasRequest {
      var c: nat :| c < k && AcceptsAt(d, events, c) && StandsUntil(d, events, c, k);
      assert OwnChallenge(d, events, k);
    } else if events[k].Request? {
      assert AcceptsAt(d, events, k) && StandsUntil(d, events, k, k);
    } else {
      assert LeftOverAt(d, events, k) && !AcceptsAt(d, events, k);
    }
  }

  lemma LeftOverStarts(d: Dojo, events: seq<Event>, k: nat)
    requires Runs(d, events) && k < |events| && LeftOverAt(d, events, k)
    ensures StartsAt(d, events, k)
  {
    AtStep(d, events, k);
  }

  ghost predicate EveryStartOwned(d: Dojo, events: seq<Event>)
    requires Runs(d, events)
  {
    forall k: nat :: k < |events| && StartsAt(d, events, k) ==> OwnChallenge(d, events, k)
  }

  predicate NoLeftOver(d: Dojo, events: seq<Event>)
    requires Runs(d, events)
  {
    forall k: nat :: k < |events| ==> !LeftOverAt(d, events, k)
  }

  /** In any run, the answer to a challenge that stands starts the war while the dojo is open, and
      leaves no timer behind. */
  lemma {:induction false} AnswerStarts(d: Dojo, events: seq<Event>, k: nat)
    requires Runs(d, events) && k < |events| && !d.hasRequest && Inv(d)
    requires events[k] == Response(true) && PendingAt(d, events, k)
    requires At(d, events, k).challenger != 0xFFFF_FFFF && At(d, events, k).status == Receive
    ensures StartsAt(d, events, k) && At(d, events, k + 1).timers == 0
    ensures At(d, events, k + 1).inProgress
  {
    PendingIffStanding(d, events, k);
    AtStep(d, events, k);
    StartsIff(At(d, events, k), events[k]);
  }

  /** A challenge answered: the war is on and nothing is left running. */
  lemma {:induction false} AnswerExample(guild: nat, challenger: nat)
    requires guild != challenger && challenger != INVALID_GUILD
    ensures var events := [StateChange(Receive, true), Request(challenger, true, true), Response(true)];
            && Runs(NewDojo(guild, INVALID_GUILD), events)
            && After(NewDojo(guild, INVALID_GUILD), events)
               == Dojo(true, guild, challenger, INVALID_GUILD, Standby, false, true, 0, 1)
  {
    var d0 := NewDojo(guild, INVALID_GUILD);
    var d1 := Next(d0, StateChange(Receive, true));
    var d2 := Next(d1, Request(challenger, true, true));
    var d3 := Next(d2, Response(true));
    var e2 := [Response(true)];
    var e1 := [Request(challenger, true, true)] + e2;
    var events := [StateChange(Receive, true)] + e1;
    assert e2[1..] == [] && Runs(d2, e2) && After(d2, e2) == d3;
    assert e1[1..] == e2 && Runs(d1, e1) && After(d1, e1) == d3;
    assert events[1..] == e1 && Runs(d0, events) && After(d0, events) == d3;
    assert events == [StateChange(Receive, true), Request(challenger, true, true), Response(true)];
  }

  /** In every run of a new dojo, every war started has an accepted challenge of its own, not closed
      and not used up by another start, exactly when no timer fires in an open dojo without a
      pending request. */
  lemma {:induction false} EveryStartOwnedIffNoLeftOver(guild: nat, challenger: nat, events: seq<Event>)
    requires Runs(NewDojo(guild, challenger), events)
    ensures EveryStartOwned(NewDojo(guild, challenger), events) <==> NoLeftOver(NewDojo(guild, challenger), events)
  {
    var d := NewDojo(guild, challenger);
    forall k: nat | k < |events|
      ensures LeftOverAt(d, events, k) <==> StartsAt(d, events, k) && !OwnChallenge(d, events, k)
    {
      if LeftOverAt(d, events, k) {
        LeftOverStarts(d, events, k);
      }
      if StartsAt(d, events, k) {
        StartOwnsChallenge(d, events, k);
      }
    }
  }

  /** The old timer of a challenge that was fought and closed starts a war in the reopened dojo
      although no challenger is on record. */
  lemma {:induction false} StartWithoutChallengeExample(guild: nat, challenger: nat)
    requires guild != challenger && challenger != INVALID_GUILD
    ensures var d := Dojo(true, guild, INVALID_GUILD, INVALID_GUILD, Receive, false, false, 0, 0);
            var events := [Request(challenger, true, true), MemberLeaves, StateChange(End, true),
                           StateChange(Normal, true), StateChange(Receive, true)];
            && Next(NewDojo(guild, INVALID_GUILD), StateChange(Receive, true)) == d
            && Runs(d, events)
            && var t := After(d, events);
               && Enabled(t, Timer) && Starts(t, Timer) && !t.hasRequest && t.challenger == INVALID_GUILD
               && Next(t, Timer).inProgress && Next(t, Timer).challenger == INVALID_GUILD
  {
    var d := Dojo(true, guild, INVALID_GUILD, INVALID_GUILD, Receive, false, false, 0, 0);
    var e4 := [StateChange(Receive, true)];
    var e3 := [StateChange(Normal, true)] + e4;
    var e2 := [StateChange(End, true)] + e3;
    var e1 := [MemberLeaves] + e2;
    var events := [Request(challenger, true, true)] + e1;
    var d1 := Next(d, events[0]);
    var d2 := Next(d1, MemberLeaves);
    var d3 := Next(d2, StateChange(End, true));
    var d4 := Next(d3, StateChange(Normal, true));
    var t := Next(d4, StateChange(Receive, true));
    assert t == Dojo(true, guild, INVALID_GUILD, INVALID_GUILD, Receive, false, false, 1, 1);
    assert e4[1..] == [] && Runs(t, e4[1..]) && After(t, e4[1..]) == t;
    assert Runs(d4, e4) && After(d4, e4) == t;
    assert e3[1..] == e4 && Runs(d3, e3) && After(d3, e3) == t;
    assert e2[1..] == e3 && Runs(d2, e2) && After(d2, e2) == t;
    assert e1[1..] == e2 && Runs(d1, e1) && After(d1, e1) == t;
    assert events[1..] == e1 && Runs(d, events) && After(d, events) == t;
    assert events == [Request(challenger, true, true), MemberLeaves, StateChange(End, true),
                      StateChange(Normal, true), StateChange(Receive, true)];
  }

  // ---------- in place ----------

  class CDojo {
    var hasOwner: bool
    var guild: nat
    var challenger: nat
    var rejected: nat
    var status: Status
    var hasRequest: bool
    var inProgress: bool
    var timers: nat
    ghost var starts: nat

    ghost function Value(): Dojo
      reads this
    {
      Dojo(hasOwner, guild, challenger, rejected, status, hasRequest, inProgress, timers, starts)
    }

    constructor (guild: nat, challenger: nat)
      ensures Value() == NewDojo(guild, challenger)
    {
      this.hasOwner, this.guild, this.challenger := true, guild, challenger;
      rejected, status := INVALID_GUILD, Normal;
      hasRequest, inProgress := false, false;
      timers, starts := 0, 0;
    }

    method RequestWar(challengerGuild: nat) returns (ok: bool)
      modifies this`challenger
      ensures ok == Acceptable(old(Value()), challengerGuild)
      ensures challenger == if ok then challengerGuild else old(challenger)
    {
      if !hasOwner {
        return false;
      }
      if rejected == challengerGuild {
        return false;
      } else if challenger == challengerGuild {
        return false;
      } else if status != Receive {
        return false;
      }
      challenger := challengerGuild;
      return true;
    }

    method BeginWarPreparation()
      modifies this
      ensures Value() == Begun(old(Value()))
    {
      hasRequest := false;
      inProgress := true;
      status := Standby;
      starts := starts + 1;
    }

    method ScrambleReq(challengerGuild: nat, permitted: bool, ownerOnline: bool)
      modifies this
      ensures Value() == Next(old(Value()), Request(challengerGuild, permitted, ownerOnline))
    {
      if !permitted || guild == challengerGuild || hasRequest || inProgress {
        return;
      }
      var ok := RequestWar(challengerGuild);
      if ok {
        if ownerOnline {
          hasRequest := true;
          timers := timers + 1;
        } else {
          BeginWarPreparation();
        }
      }
    }

    method ScrambleResponse(permitted: bool)
      modifies this
      ensures Value() == Next(old(Value()), Response(permitted))
    {
      if !permitted || !hasRequest || inProgress || challenger == INVALID_GUILD {
        return;
      }
      timers := 0;
      if status == Receive {
        BeginWarPreparation();
      }
    }

    method OnEventWarRequestTimer()
      requires timers > 0
      modifies this
      ensures Value() == Next(old(Value()), Timer)
    {
      timers := timers - 1;
      if status != Receive {
        return;
      }
      BeginWarPreparation();
    }

    method OnMemberLeaves()
      modifies this
      ensures Value() == Next(old(Value()), MemberLeaves)
    {
      if hasRequest && !inProgress && challenger != INVALID_GUILD {
        BeginWarPreparation();
      }
    }

    method UpdateState(newStatus: Status, ownerExists: bool)
      modifies this
      ensures Value() == Next(old(Value()), StateChange(newStatus, ownerExists))
    {
      status := newStatus;
      if status == End {
        hasRequest, inProgress := false, false;
      } else if status == Normal {
        hasOwner := ownerExists;
        challenger, rejected := INVALID_GUILD, INVALID_GUILD;
        hasRequest, inProgress := false, false;
      }
    }

    method Reset(newStatus: Status)
      modifies this
      ensures Value() == Next(old(Value()), ResetWar(newStatus))
    {
      status := newStatus;
      challenger, rejected := INVALID_GUILD, INVALID_GUILD;
      hasRequest, inProgress := false, false;
    }
  }
}
