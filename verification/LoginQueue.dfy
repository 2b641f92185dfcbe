/**
 The login queue of the character server: what one tick does to the queue, and what the
 handlers around it do (Server/CharServer/QueueManager.cpp, PacketCharServer.cpp,
 ClientSession.cpp).

 The source's std::map is a list of entries in strictly ascending account order.  Packets to the
 client are appended to `notes`, between notes that record which entry was walked when.
 */
module LoginQueue {
  datatype Entry = Entry(account: nat, timeLeft: nat, lastUpdate: nat)

  datatype Player = Player(session: bool, farm: nat, channel: nat, queued: bool, charsLoaded: bool, gm: bool)

  datatype Channel = NoChannel | Channel(visible: bool, up: bool, load: nat, maxLoad: nat)

  datatype Note =
    | Count(account: nat, waiting: nat)   // CU_CONNECT_WAIT_COUNT_NFY
    | Check(account: nat, code: nat)      // CU_CONNECT_WAIT_CHECK_RES
    | CancelAck(account: nat)             // CU_CONNECT_WAIT_CANCEL_RES
    | Inserted(account: nat)
    | Walked(account: nat, pos: nat, tick: nat)
    | Finished(account: nat, code: nat)

  datatype Server = Server(queue: seq<Entry>, players: map<nat, Player>, notes: seq<Note>)

  const FULL_TIME: nat := 1000
  const INVALID_ID: nat := 0xFF
  const INVALID_DWORD: nat := 0xFFFF_FFFF
  const SUCCESS: nat := 200
  const CHARACTER_FAIL: nat := 201
  const WRONG_FARM: nat := 215
  const SERVER_LOCKED: nat := 506
  const CHANNEL_FULL: nat := 593

  function SafeDecrease(a: nat, b: nat): nat {
    if b > a then 0 else a - b
  }

  /** The channel check at the head of the queue. */
  function ChannelCode(c: Channel): nat {
    match c
    case NoChannel => SERVER_LOCKED
    case Channel(_, up, load, maxLoad) =>
      if !up then SERVER_LOCKED else if load >= maxLoad then CHANNEL_FULL else SUCCESS
  }

  function ChannelAt(channels: map<(nat, nat), Channel>, p: Player): Channel {
    if (p.farm, p.channel) in channels then channels[(p.farm, p.channel)] else NoChannel
  }

  /** The checks made before a player is queued; game masters may pass a full channel. */
  function EntryCode(c: Channel, p: Player): nat {
    if !p.charsLoaded then CHARACTER_FAIL
    else
      match c
      case NoChannel => SERVER_LOCKED
      case Channel(visible, up, load, maxLoad) =>
        if !visible || !up || (load >= maxLoad && !p.gm) then SERVER_LOCKED else SUCCESS
  }

  // ---------- the tick ----------

  function WithFlag(players: map<nat, Player>, account: nat, queued: bool): map<nat, Player>
    requires account in players
  {
    players[account := players[account].(queued := queued)]
  }

  predicate Gone(players: map<nat, Player>, account: nat) {
    account !in players || !players[account].session
  }

  predicate Misplaced(p: Player) {
    p.farm >= INVALID_ID || p.channel >= INVALID_ID
  }

  /** The head of the queue leaves it. */
  predicate Finishes(e: Entry, pos: nat, tick: nat) {
    SafeDecrease(e.timeLeft, tick) == 0 && pos == 1
  }

  function FinishNotes(account: nat, tick: nat, code: nat): seq<Note> {
    [Walked(account, 1, tick),
     if code == SUCCESS then Count(account, 0) else Check(account, code),
     Finished(account, code)]
  }

  function Updated(e: Entry, pos: nat, tick: nat): Entry {
    var update := SafeDecrease(e.lastUpdate, tick);
    Entry(e.account,
          if pos > 1 then FULL_TIME else SafeDecrease(e.timeLeft, tick),
          if update == 0 then FULL_TIME else update)
  }

  function UpdateNotes(e: Entry, pos: nat, tick: nat): seq<Note> {
    [Walked(e.account, pos, tick)] + (if SafeDecrease(e.lastUpdate, tick) == 0 then [Count(e.account, pos)] else [])
  }

  /** Visiting one entry; `s.queue` holds the entries already visited and kept. */
  function Visit(s: Server, e: Entry, tick: nat, channels: map<(nat, nat), Channel>): Server {
    var pos := |s.queue| + 1;
    if Gone(s.players, e.account) then
      s
    else if Misplaced(s.players[e.account]) then
      Server(s.queue, WithFlag(s.players, e.account, false), s.notes + [Check(e.account, WRONG_FARM)])
    else if Finishes(e, pos, tick) then
      Server(s.queue, WithFlag(s.players, e.account, false),
             s.notes + FinishNotes(e.account, tick, ChannelCode(ChannelAt(channels, s.players[e.account]))))
    else
      Server(s.queue + [Updated(e, pos, tick)], s.players, s.notes + UpdateNotes(e, pos, tick))
  }

  function Walk(s: Server, rest: seq<Entry>, tick: nat, channels: map<(nat, nat), Channel>): Server
    decreases |rest|
  {
    if rest == [] then s else Walk(Visit(s, rest[0], tick, channels), rest[1..], tick, channels)
  }

  function Ticked(s: Server, tick: nat, channels: map<(nat, nat), Channel>): Server {
    Walk(s.(queue := []), s.queue, tick, channels)
  }

  // ---------- the map of entries ----------

  predicate Sorted(queue: seq<Entry>) {
    forall i, j :: 0 <= i < j < |queue| ==> queue[i].account < queue[j].account
  }

  predicate Has(queue: seq<Entry>, account: nat) {
    exists i :: 0 <= i < |queue| && queue[i].account == account
  }

  /** std::map::insert: nothing happens when the account is already there. */
  function Insert(queue: seq<Entry>, e: Entry): seq<Entry> {
    if queue == [] || e.account < queue[0].account then
      [e] + queue
    else if e.account == queue[0].account then
      queue
    else
      [queue[0]] + Insert(queue[1..], e)
  }

  function Erase(queue: seq<Entry>, account: nat): seq<Entry> {
    if queue == [] then
      []
    else if queue[0].account == account then
      queue[1..]
    else
      [queue[0]] + Erase(queue[1..], account)
  }

  // ---------- the handlers ----------

  datatype Event =
    | Login(account: nat, farm: nat)
    | SelectFarm(account: nat, farm: nat)
    | LoadCharacters(account: nat, loaded: bool, gm: bool)
    | WaitCheck(account: nat, channel: nat, channels: map<(nat, nat), Channel>)
    | CancelWait(account: nat, channel: nat)
    | CreateCharacter(account: nat)
    | CloseSession(account: nat)
    | Tick(tick: nat, channels: map<(nat, nat), Channel>)

  /** Leave the queue if flagged. */
  function Dequeued(s: Server, account: nat): Server
    requires account in s.players
  {
    if s.players[account].queued then
      s.(queue := Erase(s.queue, account), players := WithFlag(s.players, account, false))
    else
      s
  }

  function WithChannel(s: Server, account: nat, channel: nat): Server
    requires account in s.players
  {
    s.(players := s.players[account := s.players[account].(channel := channel)])
  }

  function Next(s: Server, e: Event): Server {
    match e
    case Login(account, farm) =>
      if account in s.players then s
      else s.(players := s.players[account := Player(true, farm, 0, false, false, false)])
    case SelectFarm(account, farm) =>
      if Gone(s.players, account) then s
      else s.(players := s.players[account := s.players[account].(farm := farm)])
    case LoadCharacters(account, loaded, gm) =>
      if Gone(s.players, account) then s
      else s.(players := s.players[account := s.players[account].(charsLoaded := loaded, gm := gm)])
    case WaitCheck(account, channel, channels) =>
      if Gone(s.players, account) then s
      else
        var t := WithChannel(s, account, channel);
        var code := EntryCode(ChannelAt(channels, t.players[account]), t.players[account]);
        if code != SUCCESS then
          t.(notes := t.notes + [Check(account, code)])
        else if t.players[account].queued then
          t
        else
          Server(Insert(t.queue, Entry(account, FULL_TIME, FULL_TIME)), WithFlag(t.players, account, true),
                 t.notes + [Count(account, INVALID_DWORD), Inserted(account)])
    case CancelWait(account, channel) =>
      if Gone(s.players, account) then s
      else
        var t := s.(notes := s.notes + [CancelAck(account)]);
        Dequeued(WithChannel(t, account, channel), account)
    case CreateCharacter(account) => if Gone(s.players, account) then s else Dequeued(s, account)
    case CloseSession(account) =>
      if account !in s.players then s
      else
        var t := Dequeued(s, account);
        t.(players := t.players - {account})
    case Tick(tick, channels) => Ticked(s, tick, channels)
  }

  const NEW_SERVER := Server([], map[], [])

  function After(s: Server, events: seq<Event>): Server {
    if events == [] then s else Next(After(s, events[..|events| - 1]), events[|events| - 1])
  }

  // ---------- in place ----------

  class QueueServer {
    var queue: seq<Entry>
    var players: map<nat, Player>
    ghost var notes: seq<Note>

    ghost function Value(): Server
      reads this
    {
      Server(queue, players, notes)
    }

    constructor ()
      ensures Value() == NEW_SERVER
    {
      queue, players, notes := [], map[], [];
    }

    method TickProcess(tick: nat, channels: map<(nat, nat), Channel>)
      modifies this
      ensures Value() == Ticked(old(Value()), tick, channels)
    {
      var position := 0;
      var it := 0;
      while it < |queue|
        invariant it == position <= |queue|
        invariant Walk(Server(queue[..it], players, notes), queue[it..], tick, channels)
               == Ticked(old(Value()), tick, channels)
        decreases |queue| - it
      {
        var e := queue[it];
        assert queue[it..][1..] == queue[it + 1..];
        position := position + 1;
        if e.account !in players || !players[e.account].session {
          EraseAt(it);
          position := position - 1;
          continue;
        }
        var player := players[e.account];
        if player.farm >= INVALID_ID || player.channel >= INVALID_ID {
          notes := notes + [Check(e.account, WRONG_FARM)];
          players := players[e.account := player.(queued := false)];
          EraseAt(it);
          position := position - 1;
          continue;
        }
        var timeLeft := SafeDecrease(e.timeLeft, tick);
        if timeLeft == 0 && position == 1 {
          var code := ChannelCode(ChannelAt(channels, player));
          notes := notes + FinishNotes(e.account, tick, code);
          players := players[e.account := player.(queued := false)];
          EraseAt(it);
          position := position - 1;
          continue;
        }
        if position > 1 {
          timeLeft := FULL_TIME;
        }
        notes := notes + UpdateNotes(e, position, tick);
        var lastUpdate := SafeDecrease(e.lastUpdate, tick);
        if lastUpdate == 0 {
          lastUpdate := FULL_TIME;
        }
        StoreAt(it, Entry(e.account, timeLeft, lastUpdate));
        it := it + 1;
      }
      assert queue[..it] == queue;
    }

    method EraseAt(i: nat)
      requires i < |queue|
      modifies this`queue
      ensures i <= |queue| && queue[..i] == old(queue)[..i] && queue[i..] == old(queue)[i + 1..]
    {
      queue := queue[..i] + queue[i + 1..];
    }

    method StoreAt(i: nat, e: Entry)
      requires i < |queue|
      modifies this`queue
      ensures i < |queue| && queue[..i + 1] == old(queue)[..i] + [e] && queue[i + 1..] == old(queue)[i + 1..]
    {
      queue := queue[i := e];
    }

    method WaitCheckReq(account: nat, channel: nat, channels: map<(nat, nat), Channel>)
      modifies this
      ensures Value() == Next(old(Value()), WaitCheck(account, channel, channels))
    {
      if account !in players || !players[account].session {
        return;
      }
      players := players[account := players[account].(channel := channel)];
      var code := SUCCESS;
      var info := ChannelAt(channels, players[account]);
      if info.NoChannel? || !info.visible {
        code := SERVER_LOCKED;
      } else if !info.up {
        code := SERVER_LOCKED;
      } else if info.load >= info.maxLoad && !players[account].gm {
        code := SERVER_LOCKED;
      }
      if !players[account].charsLoaded {
        code := CHARACTER_FAIL;
      }
      if code != SUCCESS {
        notes := notes + [Check(account, code)];
        return;
      }
      if !players[account].queued {
        notes := notes + [Count(account, INVALID_DWORD), Inserted(account)];
        queue := Insert(queue, Entry(account, FULL_TIME, FULL_TIME));
        players := players[account := players[account].(queued := true)];
      }
    }

    method LeaveQueue(account: nat)
      requires account in players
      modifies this
      ensures Value() == Dequeued(old(Value()), account)
    {
      if players[account].queued {
        players := players[account := players[account].(queued := false)];
        queue := Erase(queue, account);
      }
    }

    method CancelWaitReq(account: nat, channel: nat)
      modifies this
      ensures Value() == Next(old(Value()), CancelWait(account, channel))
    {
      if account !in players || !players[account].session {
        return;
      }
      notes := notes + [CancelAck(account)];
      players := players[account := players[account].(channel := channel)];
      LeaveQueue(account);
    }

    method CharCreateReq(account: nat)
      modifies this
      ensures Value() == Next(old(Value()), CreateCharacter(account))
    {
      if account in players && players[account].session {
        LeaveQueue(account);
      }
    }

    method OnClose(account: nat)
      modifies this
      ensures Value() == Next(old(Value()), CloseSession(account))
    {
      if account in players {
        LeaveQueue(account);
        players := players - {account};
      }
    }
  }
}
