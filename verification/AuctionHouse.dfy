/**
 The auction house: its minute tick, and the pages it sends (Server/ChatServer/AuctionHouse.cpp).

 The unordered map is a map walked in an arbitrary order.
 */
module AuctionHouse {
  datatype Item = Item(id: nat, owner: nat, timeLeft: nat, name: string, attributes: Attributes)

  datatype Attributes = Attributes(tab: nat, kind: nat, classes: set<nat>, level: nat, rank: nat)

  const TICK_SECONDS: nat := 60

  function Aged(i: Item): Item {
    i.(timeLeft := if TICK_SECONDS > i.timeLeft then 0 else i.timeLeft - TICK_SECONDS)
  }

  predicate Expires(i: Item) {
    Aged(i).timeLeft == 0
  }

  // ---------- the house ----------

  /** `requests` are the period-end requests sent to the query server.  The other fields are
      history: the ids accepted by AddItem, those taken off by DelItem and those taken off by
      DeleteAllItems. */
  datatype House = House(
    items: map<nat, Item>, requests: seq<Item>, added: multiset<nat>, deleted: multiset<nat>, cleared: multiset<nat>)

  const EMPTY := House(map[], [], multiset{}, multiset{}, multiset{})

  datatype Event = Update(order: seq<nat>) | Add(item: Item) | Del(id: nat) | DelAll(owner: nat)

  predicate Keyed(items: map<nat, Item>) {
    forall id :: id in items ==> items[id].id == id
  }

  /** What survives a tick, a minute older. */
  function Survivors(items: map<nat, Item>): map<nat, Item> {
    map id | id in items && !Expires(items[id]) :: Aged(items[id])
  }

  /** `order` lists exactly the expired ids among `ids`, each once, in any order. */
  predicate ListsExpiredAmong(items: map<nat, Item>, ids: set<nat>, order: seq<nat>) {
    && (forall k :: 0 <= k < |order| ==> order[k] in items && order[k] in ids && Expires(items[order[k]]))
    && (forall id :: id in items && id in ids && Expires(items[id]) ==> id in order)
    && (forall j, k :: 0 <= j < k < |order| ==> order[j] != order[k])
  }

  /** The order in which a walk over the whole map met the expired items. */
  predicate ListsExpired(items: map<nat, Item>, order: seq<nat>) {
    ListsExpiredAmong(items, items.Keys, order)
  }

  function Requests(items: map<nat, Item>, order: seq<nat>): seq<Item>
    requires forall k :: 0 <= k < |order| ==> order[k] in items
  {
    seq(|order|, k requires 0 <= k < |order| => Aged(items[order[k]]))
  }

  function Owned(items: map<nat, Item>, owner: nat): set<nat> {
    set id | id in items && items[id].owner == owner
  }

  predicate Enabled(h: House, e: Event) {
    e.Update? ==> ListsExpired(h.items, e.order)
  }

  function Next(h: House, e: Event): House
    requires Enabled(h, e)
  {
    match e
    case Update(order) =>
      h.(items := Survivors(h.items), requests := h.requests + Requests(h.items, order))
    case Add(item) =>
      if item.id in h.items then h
      else h.(items := h.items[item.id := item], added := h.added + multiset{item.id})
    case Del(id) =>
      if id in h.items then h.(items := h.items - {id}, deleted := h.deleted + multiset{id}) else h
    case DelAll(owner) =>
      var gone := Owned(h.items, owner);
      h.(items := h.items - gone, cleared := h.cleared + multiset(gone))
  }

  predicate Runs(h: House, events: seq<Event>)
    decreases |events|
  {
    events == [] || (Enabled(h, events[0]) && Runs(Next(h, events[0]), events[1..]))
  }

  function After(h: House, events: seq<Event>): House
    requires Runs(h, events)
    decreases |events|
  {
    if events == [] then h else After(Next(h, events[0]), events[1..])
  }

  // ---------- conservation ----------

  function RequestIds(requests: seq<Item>): seq<nat> {
    seq(|requests|, k requires 0 <= k < |requests| => requests[k].id)
  }

  /** Every accepted item is in the house or left by exactly one of expiry, DelItem and DeleteAllItems. */
  ghost predicate Conserved(h: House) {
    && Keyed(h.items)
    && h.added == multiset(h.items.Keys) + multiset(RequestIds(h.requests)) + h.deleted + h.cleared
  }

  lemma DistinctCount(s: seq<nat>, x: nat)
    requires forall j, k :: 0 <= j < k < |s| ==> s[j] != s[k]
    ensures multiset(s)[x] == if x in s then 1 else 0
    decreases |s|
  {
    if s != [] {
      var init, last := s[..|s| - 1], s[|s| - 1];
      DistinctCount(init, x);
      assert s == init + [last];
    }
  }

  lemma UpdateConserves(h: House, order: seq<nat>)
    requires Conserved(h) && ListsExpired(h.items, order)
    ensures Conserved(Next(h, Update(order)))
  {
    var t := Next(h, Update(order));
    assert RequestIds(t.requests) == RequestIds(h.requests) + order;
    forall x: nat ensures multiset(h.items.Keys)[x] == multiset(t.items.Keys)[x] + multiset(order)[x] {
      DistinctCount(order, x);
    }
    assert multiset(h.items.Keys) == multiset(t.items.Keys) + multiset(order);
  }

  lemma RemovalSplits(items: map<nat, Item>, gone: set<nat>)
    requires gone <= items.Keys
    ensures multiset(items.Keys) == multiset((items - gone).Keys) + multiset(gone)
  {
    assert items.Keys == (items - gone).Keys + gone;
  }

  lemma AddConserves(h: House, item: Item)
    requires Conserved(h)
    ensures Conserved(Next(h, Add(item)))
  {
    if item.id !in h.items {
      var t := Next(h, Add(item));
      assert t.items.Keys == h.items.Keys + {item.id};
      assert multiset(t.items.Keys) == multiset(h.items.Keys) + multiset{item.id};
    }
  }

  lemma {:induction false} StepConserves(h: House, e: Event)
    requires Conserved(h) && Enabled(h, e)
    ensures Conserved(Next(h, e))
  {
    match e {
      case Update(order) => UpdateConserves(h, order);
      case Add(item) => AddConserves(h, item);
      case Del(id) =>
        if id in h.items {
          RemovalSplits(h.items, {id});
          assert multiset({id}) == multiset{id};
        }
      case DelAll(owner) => RemovalSplits(h.items, Owned(h.items, owner));
    }
  }

  /** After any run the accepted ids are, with multiplicity, those in the house plus those
      expired plus those deleted singly plus those deleted with their owner. */
  lemma {:induction false} ItemsAreConserved(h: House, events: seq<Event>)
    requires Conserved(h) && Runs(h, events)
    ensures Conserved(After(h, events))
    decreases |events|
  {
    if events != [] {
      StepConserves(h, events[0]);
      ItemsAreConserved(Next(h, events[0]), events[1..]);
    }
  }

  // ---------- what the events say ----------

  /** The ids put up: those of the additions under an id not in the house at that time. */
  function PutUp(h: House, events: seq<Event>): multiset<nat>
    requires Runs(h, events)
    decreases |events|
  {
    if events == [] then
      multiset{}
    else
      (if events[0].Add? && events[0].item.id !in h.items then multiset{events[0].item.id} else multiset{})
      + PutUp(Next(h, events[0]), events[1..])
  }

  /** The ids taken off one by one. */
  function TakenOff(h: House, events: seq<Event>): multiset<nat>
    requires Runs(h, events)
    decreases |events|
  {
    if events == [] then
      multiset{}
    else
      (if events[0].Del? && events[0].id in h.items then multiset{events[0].id} else multiset{})
      + TakenOff(Next(h, events[0]), events[1..])
  }

  /** The ids taken off with all listings of an owner. */
  function ClearedOff(h: House, events: seq<Event>): multiset<nat>
    requires Runs(h, events)
    decreases |events|
  {
    if events == [] then
      multiset{}
    else
      (if events[0].DelAll? then multiset(set id | id in h.items && h.items[id].owner == events[0].owner)
       else multiset{})
      + ClearedOff(Next(h, events[0]), events[1..])
  }

  lemma {:induction false} AddedArePutUp(h: House, events: seq<Event>)
    requires Runs(h, events)
    ensures After(h, events).added == h.added + PutUp(h, events)
    decreases |events|
  {
    if events != [] {
      var e := events[0];
      assert Next(h, e).added
          == h.added + (if e.Add? && e.item.id !in h.items then multiset{e.item.id} else multiset{});
      AddedArePutUp(Next(h, e), events[1..]);
    }
  }

  lemma {:induction false} DeletedAreTakenOff(h: House, events: seq<Event>)
    requires Runs(h, events)
    ensures After(h, events).deleted == h.deleted + TakenOff(h, events)
    decreases |events|
  {
    if events != [] {
      var e := events[0];
      assert Next(h, e).deleted == h.deleted + (if e.Del? && e.id in h.items then multiset{e.id} else multiset{});
      DeletedAreTakenOff(Next(h, e), events[1..]);
    }
  }

  lemma {:induction false} ClearedAreClearedOff(h: House, events: seq<Event>)
    requires Runs(h, events)
    ensures After(h, events).cleared == h.cleared + ClearedOff(h, events)
    decreases |events|
  {
    if events != [] {
      var e := events[0];
      if e.DelAll? {
        assert (set id | id in h.items && h.items[id].owner == e.owner) == Owned(h.items, e.owner);
      }
      ClearedAreClearedOff(Next(h, e), events[1..]);
    }
  }

  /** After any run of an empty house, with multiplicity: what was put up is what is in the house, what
      was requested at its end, what was taken off singly and what was cleared with its owner. */
  lemma {:induction false} ReachableConserved(events: seq<Event>)
    requires Runs(EMPTY, events)
    ensures var h := After(EMPTY, events);
            && Conserved(h)
            && PutUp(EMPTY, events) == multiset(h.items.Keys) + multiset(RequestIds(h.requests))
                                       + TakenOff(EMPTY, events) + ClearedOff(EMPTY, events)
  {
    assert RequestIds([]) == [];
    ItemsAreConserved(EMPTY, events);
    AddedArePutUp(EMPTY, events);
    DeletedAreTakenOff(EMPTY, events);
    ClearedAreClearedOff(EMPTY, events);
    assert multiset{} + PutUp(EMPTY, events) == PutUp(EMPTY, events);
    assert multiset{} + TakenOff(EMPTY, events) == TakenOff(EMPTY, events);
    assert multiset{} + ClearedOff(EMPTY, events) == ClearedOff(EMPTY, events);
  }

  /** What one event does to every id: an addition puts up a new listing and leaves a used id alone, a
      deletion takes exactly one listing off and an owner's exactly its own, and a tick takes off the
      listings with at most 60 seconds left and takes 60 from the others. */
  lemma {:induction false} StepOnEveryId(h: House, e: Event, id: nat)
    requires Enabled(h, e) && Keyed(h.items)
    ensures var t := Next(h, e);
            match e
            case Add(item) =>
              && (id in t.items <==> id in h.items || id == item.id)
              && (id in t.items ==> t.items[id] == if id in h.items then h.items[id] else item)
            case Del(gone) =>
              && (id in t.items <==> id in h.items && id != gone)
              && (id in t.items ==> t.items[id] == h.items[id])
            case DelAll(owner) =>
              && (id in t.items <==> id in h.items && h.items[id].owner != owner)
              && (id in t.items ==> t.items[id] == h.items[id])
            case Update(_) =>
              && (id in t.items <==> id in h.items && h.items[id].timeLeft > 60)
              && (id in t.items ==> t.items[id] == h.items[id].(timeLeft := h.items[id].timeLeft - 60))
  {}

  /** A tick requests the end of exactly the listings with at most 60 seconds left: each request is
      such a listing as it was, with no time left, and no other event requests anything. */
  lemma {:induction false} RequestsAreExpiredListings(h: House, e: Event)
    requires Enabled(h, e) && Keyed(h.items)
    ensures h.requests <= Next(h, e).requests
    ensures !e.Update? ==> Next(h, e).requests == h.requests
    ensures forall k :: |h.requests| <= k < |Next(h, e).requests| ==>
              var r := Next(h, e).requests[k];
              r.id in h.items && h.items[r.id].timeLeft <= 60 && r == h.items[r.id].(timeLeft := 0)
    ensures e.Update? ==> forall id :: id in h.items && h.items[id].timeLeft <= 60 ==>
              exists k :: |h.requests| <= k < |Next(h, e).requests| && Next(h, e).requests[k].id == id
  {
    if e.Update? {
      var t := Next(h, e);
      forall id | id in h.items && h.items[id].timeLeft <= 60
        ensures exists k :: |h.requests| <= k < |t.requests| && t.requests[k].id == id
      {
        assert Expires(h.items[id]);
        var j :| 0 <= j < |e.order| && e.order[j] == id;
        assert t.requests[|h.requests| + j].id == id;
      }
      forall k | |h.requests| <= k < |t.requests|
        ensures var r := t.requests[k];
                r.id in h.items && h.items[r.id].timeLeft <= 60 && r == h.items[r.id].(timeLeft := 0)
      {
        var id := e.order[k - |h.requests|];
        assert id in h.items && Expires(h.items[id]);
      }
    }
  }

  // ---------- exact expiry ----------

  function Updates(events: seq<Event>): nat {
    if events == [] then 0 else (if events[0].Update? then 1 else 0) + Updates(events[1..])
  }

  /** The event is a tick, or is not about the listing of `item`. */
  predicate LeavesAlone(e: Event, item: Item) {
    match e
    case Update(_) => true
    case Add(other) => other.id != item.id
    case Del(id) => id != item.id
    case DelAll(owner) => owner != item.owner
  }

  predicate AllLeaveAlone(events: seq<Event>, item: Item) {
    forall k :: 0 <= k < |events| ==> LeavesAlone(events[k], item)
  }

  /** The number of ticks a listing of `seconds` survives: the started minutes, at least one. */
  function Lifetime(seconds: nat): nat {
    if seconds == 0 then 1 else (seconds + 59) / 60
  }

  lemma LifetimeStep(item: Item)
    ensures Expires(item) <==> Lifetime(item.timeLeft) == 1
    ensures !Expires(item) ==> Lifetime(Aged(item).timeLeft) == Lifetime(item.timeLeft) - 1
  {}

  function RequestsFor(requests: seq<Item>, id: nat): nat {
    multiset(RequestIds(requests))[id]
  }

  lemma RequestsAppend(a: seq<Item>, b: seq<Item>, id: nat)
    ensures RequestsFor(a + b, id) == RequestsFor(a, id) + RequestsFor(b, id)
  {
    assert RequestIds(a + b) == RequestIds(a) + RequestIds(b);
  }

  /** A tick requests an id once if its listing expires and not at all otherwise. */
  lemma {:induction false} UpdateRequests(h: House, order: seq<nat>, id: nat)
    requires Conserved(h) && ListsExpired(h.items, order)
    ensures RequestsFor(Next(h, Update(order)).requests, id)
         == RequestsFor(h.requests, id) + (if id in h.items && Expires(h.items[id]) then 1 else 0)
  {
    assert RequestIds(Requests(h.items, order)) == order;
    RequestsAppend(h.requests, Requests(h.items, order), id);
    DistinctCount(order, id);
  }

  /** What one event does to a listing it leaves alone. */
  lemma StepOnListing(h: House, item: Item, e: Event)
    requires Conserved(h) && Enabled(h, e) && LeavesAlone(e, item)
    ensures item.id !in h.items ==>
              && item.id !in Next(h, e).items
              && RequestsFor(Next(h, e).requests, item.id) == RequestsFor(h.requests, item.id)
    ensures item.id in h.items && h.items[item.id] == item ==>
              var t, left := Next(h, e), if e.Update? then Aged(item) else item;
              var gone := e.Update? && Expires(item);
              && (if gone then item.id !in t.items else item.id in t.items && t.items[item.id] == left)
              && RequestsFor(t.requests, item.id) == RequestsFor(h.requests, item.id) + (if gone then 1 else 0)
  {
    if e.Update? {
      UpdateRequests(h, e.order, item.id);
    }
  }

  /** Once gone, a listing nobody adds again neither comes back nor is requested again. */
  lemma {:induction false} GoneStaysGone(h: House, item: Item, events: seq<Event>)
    requires Conserved(h) && Runs(h, events) && AllLeaveAlone(events, item) && item.id !in h.items
    ensures item.id !in After(h, events).items
    ensures RequestsFor(After(h, events).requests, item.id) == RequestsFor(h.requests, item.id)
    decreases |events|
  {
    if events != [] {
      StepOnListing(h, item, events[0]);
      StepConserves(h, events[0]);
      GoneStaysGone(Next(h, events[0]), item, events[1..]);
    }
  }

  lemma RestLeavesAlone(events: seq<Event>, item: Item, later: Item)
    requires events != [] && AllLeaveAlone(events, item) && later.id == item.id && later.owner == item.owner
    ensures AllLeaveAlone(events[1..], later)
  {
    forall k | 0 <= k < |events[1..]| ensures LeavesAlone(events[1..][k], later) {
      assert LeavesAlone(events[k + 1], item);
    }
  }

  /** A listing left alone is there exactly while fewer ticks than its lifetime have passed; from
      then on it has been requested exactly once. */
  lemma {:induction false} ExpiresExactly(h: House, item: Item, events: seq<Event>)
    requires Conserved(h) && Runs(h, events) && AllLeaveAlone(events, item)
    requires item.id in h.items && h.items[item.id] == item
    ensures item.id in After(h, events).items <==> Updates(events) < Lifetime(item.timeLeft)
    ensures RequestsFor(After(h, events).requests, item.id)
         == RequestsFor(h.requests, item.id) + (if item.id in After(h, events).items then 0 else 1)
    decreases |events|
  {
    if events != [] {
      var e := events[0];
      StepOnListing(h, item, e);
      StepConserves(h, e);
      LifetimeStep(item);
      var later := if e.Update? then Aged(item) else item;
      RestLeavesAlone(events, item, item);
      RestLeavesAlone(events, item, later);
      if e.Update? && Expires(item) {
        GoneStaysGone(Next(h, e), item, events[1..]);
      } else {
        ExpiresExactly(Next(h, e), later, events[1..]);
      }
    }
  }

  // ---------- in place ----------

  /** The map in the middle of the walk: `rest` is still to come. */
  function Partway(items: map<nat, Item>, rest: set<nat>): map<nat, Item> {
    map id | id in items && (id in rest || !Expires(items[id])) :: if id in rest then items[id] else Aged(items[id])
  }

  lemma PartwayStep(items: map<nat, Item>, rest: set<nat>, id: nat, order: seq<nat>)
    requires rest <= items.Keys && id in rest && ListsExpiredAmong(items, items.Keys - rest, order)
    ensures Partway(items, rest - {id})
         == if Expires(items[id]) then Partway(items, rest) - {id} else Partway(items, rest)[id := Aged(items[id])]
    ensures ListsExpiredAmong(items, items.Keys - (rest - {id}), if Expires(items[id]) then order + [id] else order)
  {}

  class CAuctionHouse {
    var items: map<nat, Item>
    var requests: seq<Item>
    ghost var added: multiset<nat>
    ghost var deleted: multiset<nat>
    ghost var cleared: multiset<nat>

    ghost function Value(): House
      reads this
    {
      House(items, requests, added, deleted, cleared)
    }

    constructor ()
      ensures Value() == EMPTY
    {
      items, requests := map[], [];
      added, deleted, cleared := multiset{}, multiset{}, multiset{};
    }

    method UpdateTick() returns (ghost order: seq<nat>)
      modifies this
      ensures ListsExpired(old(items), order)
      ensures Value() == Next(old(Value()), Update(order))
    {
      var expired;
      expired, order := AgeAll();
      ghost var start := requests;
      for k := 0 to |expired|
        invariant unchanged(`added) && unchanged(`deleted) && unchanged(`cleared) && items == Survivors(old(items))
        invariant requests == start + expired[..k]
      {
        requests := requests + [expired[k]];
      }
    }

    /** The walk that ages every listing and takes the expired ones off. */
    method AgeAll() returns (expired: seq<Item>, ghost order: seq<nat>)
      modifies this`items
      ensures items == Survivors(old(items))
      ensures ListsExpired(old(items), order) && expired == Requests(old(items), order)
    {
      expired, order := [], [];
      ghost var all := items;
      var rest := items.Keys;
      while rest != {}
        invariant rest <= all.Keys && items == Partway(all, rest)
        invariant ListsExpiredAmong(all, all.Keys - rest, order)
        invariant expired == Requests(all, order)
        decreases rest
      {
        var id :| id in rest;
        PartwayStep(all, rest, id, order);
        rest := rest - {id};
        var aged := Aged(items[id]);
        if aged.timeLeft == 0 {
          items := items - {id};
          expired := expired + [aged];
          order := order + [id];
        } else {
          items := items[id := aged];
        }
      }
    }

    method AddItem(item: Item)
      modifies this
      ensures Value() == Next(old(Value()), Add(item))
    {
      if item.id !in items {
        items := items[item.id := item];
        added := added + multiset{item.id};
      }
    }

    method DelItem(id: nat)
      modifies this
      ensures Value() == Next(old(Value()), Del(id))
    {
      if id in items {
        items := items - {id};
        deleted := deleted + multiset{id};
      }
    }

    method DeleteAllItems(owner: nat)
      modifies this
      ensures Value() == Next(old(Value()), DelAll(owner))
    {
      var rest := items.Keys;
      while rest != {}
        invariant unchanged(`requests) && unchanged(`added) && unchanged(`deleted) && unchanged(`cleared)
        invariant rest <= items.Keys
        invariant items == old(items) - (Owned(old(items), owner) - rest)
        decreases rest
      {
        var id :| id in rest;
        rest := rest - {id};
        if items[id].owner == owner {
          items := items - {id};
        }
      }
      cleared := cleared + multiset(Owned(old(items), owner));
    }
  }
}
