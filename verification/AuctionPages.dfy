/**
 Searching the auction house and sending one page of the result
 (Server/ChatServer/AuctionHouse.cpp, LoadAuctionHouseData).

 The sort between the two loops may order the found items in any way.
 */
module AuctionPages {
  import opened AuctionHouse

  const ANY: nat := 0xFF
  const PAGE: nat := 10

  datatype Search = Everything | Sale | Matching(
    tab: nat, kind: nat, class_: nat, minLevel: nat, maxLevel: nat, rank: nat, text: string)

  predicate Contains(name: string, text: string) {
    exists i :: 0 <= i <= |name| && text <= name[i..]
  }

  predicate Selected(q: Search, seller: nat, item: Item) {
    match q
    case Everything => true
    case Sale => item.owner == seller
    case Matching(tab, kind, class_, minLevel, maxLevel, rank, text) =>
      var a := item.attributes;
      && (tab == ANY || tab == a.tab)
      && (kind == ANY || kind == a.kind)
      && (class_ == ANY || class_ in a.classes)
      && (minLevel == ANY || minLevel <= a.level)
      && (maxLevel == ANY || maxLevel >= a.level)
      && (rank == ANY || rank == a.rank)
      && (text == "" || Contains(item.name, text))
  }

  /** A name contains a text when it is the text with something before and something behind it. */
  lemma {:induction false} ContainsIff(name: string, text: string)
    ensures Contains(name, text) <==> exists before: string, behind: string :: name == before + text + behind
  {
    if Contains(name, text) {
      var i :| 0 <= i <= |name| && text <= name[i..];
      assert name == name[..i] + text + name[i + |text|..];
    }
    if before: string, behind: string :| name == before + text + behind {
      assert name[|before|..] == text + behind;
    }
  }

  /** What a search finds: everything, the seller's own items, or the items that meet every criterion
      given; 255 and the empty text are no criterion. */
  lemma {:induction false} SelectedIff(q: Search, seller: nat, item: Item)
    ensures Selected(q, seller, item) <==>
              match q
              case Everything => true
              case Sale => item.owner == seller
              case Matching(tab, kind, class_, minLevel, maxLevel, rank, text) =>
                && tab in {255, item.attributes.tab} && kind in {255, item.attributes.kind}
                && rank in {255, item.attributes.rank}
                && (class_ != 255 ==> class_ in item.attributes.classes)
                && (minLevel != 255 ==> minLevel <= item.attributes.level)
                && (maxLevel != 255 ==> item.attributes.level <= maxLevel)
                && exists before: string, behind: string :: item.name == before + text + behind
  {
    if q.Matching? {
      ContainsIff(item.name, q.text);
      if q.text == "" {
        assert item.name == item.name + "" + "";
      }
    }
  }

  /** A criterion more can only narrow a search, and a search finds what all its criteria find. */
  lemma {:induction false} SearchIsIntersection(q: Search, seller: nat, item: Item)
    requires q.Matching?
    ensures Selected(q, seller, item) <==>
              && Selected(Matching(q.tab, 255, 255, 255, 255, 255, ""), seller, item)
              && Selected(Matching(255, q.kind, 255, 255, 255, 255, ""), seller, item)
              && Selected(Matching(255, 255, q.class_, 255, 255, 255, ""), seller, item)
              && Selected(Matching(255, 255, 255, q.minLevel, 255, 255, ""), seller, item)
              && Selected(Matching(255, 255, 255, 255, q.maxLevel, 255, ""), seller, item)
              && Selected(Matching(255, 255, 255, 255, 255, q.rank, ""), seller, item)
              && Selected(Matching(255, 255, 255, 255, 255, 255, q.text), seller, item)
  {}

  /** `found` holds each selected item once. */
  ghost predicate Finds(items: map<nat, Item>, q: Search, seller: nat, found: seq<Item>) {
    forall item :: multiset(found)[item]
                == if item.id in items && items[item.id] == item && Selected(q, seller, item) then 1 else 0
  }

  /** The tests of the filter, in order. */
  method Picks(q: Search, seller: nat, data: Item) returns (pick: bool)
    ensures pick == Selected(q, seller, data)
  {
    if q.Everything? {
      return true;
    }
    if q.Sale? {
      return data.owner == seller;
    }
    var a := data.attributes;
    return
      && (q.tab == ANY || q.tab == a.tab)
      && (q.kind == ANY || q.kind == a.kind)
      && (q.class_ == ANY || q.class_ in a.classes)
      && (q.minLevel == ANY || q.minLevel <= a.level)
      && (q.maxLevel == ANY || q.maxLevel >= a.level)
      && (q.rank == ANY || q.rank == a.rank)
      && (q.text == "" || Contains(data.name, q.text));
  }

  method FindItems(items: map<nat, Item>, q: Search, seller: nat) returns (found: seq<Item>)
    requires Keyed(items)
    ensures Finds(items, q, seller, found)
  {
    found := [];
    var rest := items.Keys;
    while rest != {}
      invariant rest <= items.Keys
      invariant forall item ::
                  multiset(found)[item]
                  == (if item.id in items && item.id !in rest && items[item.id] == item && Selected(q, seller, item)
                      then 1 else 0)
      decreases rest
    {
      var id :| id in rest;
      rest := rest - {id};
      var data := items[id];
      var pick := Picks(q, seller, data);
      if pick {
        found := found + [data];
      }
    }
  }

  /** The items of page `page`, counted from 1. */
  function PageOf(list: seq<Item>, page: nat): seq<Item> {
    var from := PAGE * (page - 1);
    if page == 0 || from >= |list| then
      []
    else
      list[from..if from + PAGE <= |list| then from + PAGE else |list|]
  }

  /** Page `p` holds items 10(p-1) up to min(10p, n). */
  lemma {:induction false} PageIsSlice(list: seq<Item>, page: nat)
    requires page > 0
    ensures var from, to := 10 * (page - 1), if 10 * page <= |list| then 10 * page else |list|;
            PageOf(list, page) == if from < to then list[from..to] else []
  {}

  function MaxPage(n: nat): nat {
    n / PAGE + 1
  }

  /** One more item falls on the page exactly when it is the page being counted. */
  lemma PageStep(list: seq<Item>, k: nat, page: nat)
    requires k < |list|
    ensures PageOf(list[..k + 1], page)
         == PageOf(list[..k], page) + (if k / PAGE + 1 == page then [list[k]] else [])
    ensures |PageOf(list[..k], page)| <= if k / PAGE + 1 == page then k % PAGE else PAGE
  {
    var from := PAGE * (page - 1);
    if page == 0 || k < from {
    } else if k < from + PAGE {
      assert list[..k + 1][from..] == list[..k][from..] + [list[k]];
      assert k / PAGE == page - 1;
    } else {
      assert list[..k + 1][from..from + PAGE] == list[..k][from..from + PAGE];
    }
  }

  lemma CounterStep(k: nat)
    ensures k % PAGE + 1 == PAGE ==> (k + 1) % PAGE == 0 && (k + 1) / PAGE == k / PAGE + 1
    ensures k % PAGE + 1 < PAGE ==> (k + 1) % PAGE == k % PAGE + 1 && (k + 1) / PAGE == k / PAGE
  {}

  lemma PageLength(list: seq<Item>, page: nat)
    ensures |PageOf(list, page)| <= 10
  {}

  method SendPage(list: seq<Item>, page: nat) returns (sent: seq<Item>, listNum: nat, maxPage: nat)
    ensures sent == PageOf(list, page) && listNum == |sent| <= 10
    ensures maxPage == |list| / 10 + 1
  {
    var i := 0;
    sent, listNum, maxPage := [], 0, 1;
    ghost var seen := list[..0];
    for k := 0 to |list|
      invariant i == k % PAGE && maxPage == k / PAGE + 1 && seen == list[..k]
      invariant listNum == |sent| && sent == PageOf(seen, page)
    {
      PageStep(list, k, page);
      CounterStep(k);
      if listNum <= PAGE && maxPage == page {
        listNum := listNum + 1;
        sent := sent + [list[k]];
      }
      i := i + 1;
      if i == PAGE {
        maxPage := maxPage + 1;
        i := 0;
      }
      seen := list[..k + 1];
    }
    assert seen == list;
    PageLength(list, page);
  }

  function Pages(list: seq<Item>, count: nat): seq<Item> {
    if count == 0 then [] else Pages(list, count - 1) + PageOf(list, count)
  }

  lemma {:induction false} PagesPrefix(list: seq<Item>, count: nat)
    ensures Pages(list, count) == list[..if PAGE * count <= |list| then PAGE * count else |list|]
    decreases count
  {
    if count > 0 {
      PagesPrefix(list, count - 1);
    }
  }

  /** The announced pages, one after another, are the whole list. */
  lemma {:induction false} PagesPartition(list: seq<Item>)
    ensures Pages(list, MaxPage(|list|)) == list
  {
    PagesPrefix(list, MaxPage(|list|));
  }

  /** Whatever the sort did, the announced pages show every selected item once and no other. */
  lemma {:induction false} PagesShowSelection(
    items: map<nat, Item>, q: Search, seller: nat, found: seq<Item>, sorted: seq<Item>)
    requires Finds(items, q, seller, found) && multiset(sorted) == multiset(found)
    ensures Finds(items, q, seller, Pages(sorted, MaxPage(|sorted|)))
  {
    PagesPartition(sorted);
  }

  /** The page count is one too high exactly when the items fill their pages: then the last
      announced page is empty. */
  lemma {:induction false} LastPageEmptyIffFull(list: seq<Item>)
    ensures PageOf(list, MaxPage(|list|)) == [] <==> |list| % PAGE == 0
    ensures forall page :: 0 < page < MaxPage(|list|) ==> |PageOf(list, page)| == PAGE
  {}

  /** Ten items are announced as two pages, the second of them empty. */
  lemma {:induction false} EmptyLastPageExample(list: seq<Item>)
    requires |list| == 10
    ensures MaxPage(|list|) == 2 && PageOf(list, 1) == list && PageOf(list, 2) == []
  {}
}
