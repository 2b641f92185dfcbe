/**
 Reading a record-layout dump (tools/gen_packet_wire.py).

 A dump is a sequence of classified lines.  The parser keeps the struct it is in, the member
 offsets seen so far and the size, and turns the offsets into regions when the struct ends.
 */
module LayoutDump {
  import opened Options
  import opened Sequences

  /** What the regular expressions can make of one line of the dump.
      A `Detail` line may show a member offset, a `sizeof=`, both or neither. */
  datatype Line =
    | Header
    | StructLine(off: nat, name: string)
    | Detail(member: Option<nat>, size: Option<nat>)

  datatype Region = Region(off: nat, size: nat)

  datatype Layout = Layout(total: nat, regions: seq<Region>)

  // ---------- regions ----------

  /** Each offset owns the bytes up to the next one; empty and negative spans are dropped. */
  function RegionsOf(offsets: seq<nat>, total: nat): (rs: seq<Region>)
    ensures AllPositive(rs)
  {
    if offsets == [] then
      []
    else
      var next := if |offsets| > 1 then offsets[1] else total;
      var rest := RegionsOf(offsets[1..], total);
      if next > offsets[0] then [Region(offsets[0], next - offsets[0])] + rest else rest
  }

  predicate AllPositive(rs: seq<Region>) {
    forall i :: 0 <= i < |rs| ==> rs[i].size > 0
  }

  lemma RegionsStep(offsets: seq<nat>, total: nat, i: nat)
    requires i < |offsets|
    ensures var end := if i + 1 < |offsets| then offsets[i + 1] else total;
            RegionsOf(offsets[i..], total)
            == (if end > offsets[i] then [Region(offsets[i], end - offsets[i])] else [])
               + RegionsOf(offsets[i + 1..], total)
  {
    assert offsets[i..][1..] == offsets[i + 1..];
  }

  method ComputeRegions(offsets: seq<nat>, total: nat) returns (regions: seq<Region>)
    ensures regions == RegionsOf(offsets, total)
  {
    regions := [];
    ghost var rest := RegionsOf(offsets, total);
    assert offsets[0..] == offsets;
    for i := 0 to |offsets|
      invariant rest == RegionsOf(offsets[i..], total)
      invariant regions + rest == RegionsOf(offsets, total)
    {
      RegionsStep(offsets, total, i);
      rest := RegionsOf(offsets[i + 1..], total);
      var end := if i + 1 < |offsets| then offsets[i + 1] else total;
      if end > offsets[i] {
        Assoc(regions, [Region(offsets[i], end - offsets[i])], rest);
        regions := regions + [Region(offsets[i], end - offsets[i])];
      } else {
        EmptyLeft(rest);
      }
    }
  }

  /** The regions are adjacent, non-empty, and fill exactly the bytes from `lo` to `hi`. */
  predicate Chain(rs: seq<Region>, lo: nat, hi: nat) {
    if rs == [] then
      lo == hi
    else
      rs[0].off == lo && rs[0].size > 0 && Chain(rs[1..], lo + rs[0].size, hi)
  }

  /** A region list as the generator expects one for a struct of `size` bytes. */
  predicate WellFormed(rs: seq<Region>, size: nat) {
    rs == [] || Chain(rs, rs[0].off, size)
  }

  predicate Ascending(offsets: seq<nat>, total: nat)
    requires offsets != []
  {
    && (forall i :: 0 <= i < |offsets| - 1 ==> offsets[i] <= offsets[i + 1])
    && offsets[|offsets| - 1] <= total
  }

  function TotalSize(rs: seq<Region>): nat {
    if rs == [] then 0 else rs[0].size + TotalSize(rs[1..])
  }

  /** The sizes telescope: together they are never short of the struct, and exceed it
      precisely when some offset steps backwards. */
  lemma {:induction false} RegionSizesTelescope(offsets: seq<nat>, total: nat)
    requires offsets != []
    ensures TotalSize(RegionsOf(offsets, total)) >= total - offsets[0]
    ensures TotalSize(RegionsOf(offsets, total)) == total - offsets[0] <==> Ascending(offsets, total)
  {
    if |offsets| > 1 {
      RegionSizesTelescope(offsets[1..], total);
      var rest := RegionsOf(offsets[1..], total);
      assert ([Region(offsets[0], 0)] + rest)[1..] == rest;
      if Ascending(offsets, total) {
        forall i | 0 <= i < |offsets[1..]| - 1 ensures offsets[1..][i] <= offsets[1..][i + 1] {
          assert offsets[i + 1] <= offsets[i + 2];
        }
      }
      if Ascending(offsets[1..], total) && offsets[0] <= offsets[1] {
        forall i | 0 <= i < |offsets| - 1 ensures offsets[i] <= offsets[i + 1] {
          if i > 0 { assert offsets[1..][i - 1] <= offsets[1..][i]; }
        }
      }
    } else {
      assert RegionsOf(offsets[1..], total) == [];
    }
  }

  lemma {:induction false} ChainSize(rs: seq<Region>, lo: nat, hi: nat)
    requires Chain(rs, lo, hi)
    ensures lo + TotalSize(rs) == hi
  {
    if rs != [] {
      ChainSize(rs[1..], lo + rs[0].size, hi);
    }
  }

  /** The regions partition the struct from its first offset on exactly when the offsets ascend
      to the size. */
  lemma {:induction false} RegionsPartitionIffAscending(offsets: seq<nat>, total: nat)
    requires offsets != []
    ensures Chain(RegionsOf(offsets, total), offsets[0], total) <==> Ascending(offsets, total)
  {
    var rs := RegionsOf(offsets, total);
    RegionSizesTelescope(offsets, total);
    if Chain(rs, offsets[0], total) {
      ChainSize(rs, offsets[0], total);
    }
    if Ascending(offsets, total) {
      AscendingGivesChain(offsets, total);
    }
  }

  lemma {:induction false} AscendingGivesChain(offsets: seq<nat>, total: nat)
    requires offsets != [] && Ascending(offsets, total)
    ensures Chain(RegionsOf(offsets, total), offsets[0], total)
  {
    if |offsets| == 1 {
      assert RegionsOf(offsets[1..], total) == [];
    } else {
      forall i | 0 <= i < |offsets[1..]| - 1 ensures offsets[1..][i] <= offsets[1..][i + 1] {
        assert offsets[i + 1] <= offsets[i + 2];
      }
      AscendingGivesChain(offsets[1..], total);
      var rest := RegionsOf(offsets[1..], total);
      assert ([Region(offsets[0], 0)] + rest)[1..] == rest;
      assert offsets[0] <= offsets[1];
    }
  }

  // ---------- the parser ----------

  datatype Parser = Parser(current: Option<string>, offsets: seq<nat>, total: nat, result: map<string, Layout>)

  const START := Parser(None, [], 0, map[])

  /** Struct names are keyed with a leading `s`. */
  function Key(name: string): string {
    if name != [] && name[0] == 's' then name else "s" + name
  }

  /** Two names share a key exactly when they are equal or one is the other with an `s` in front. */
  lemma {:induction false} KeysCollideIff(a: string, b: string)
    ensures Key(a)[0] == 's' && Key(Key(a)) == Key(a)
    ensures Key(a) == Key(b) <==>
              a == b || (a == "s" + b && !("s" <= b)) || (b == "s" + a && !("s" <= a))
  {
    assert forall n: string :: "s" <= n <==> n != [] && n[0] == 's';
    assert ("s" + a)[1..] == a && ("s" + b)[1..] == b;
  }

  /** The results once the struct being read is stored under its key. */
  function Flushed(p: Parser): map<string, Layout> {
    match p.current
    case None => p.result
    case Some(key) => p.result[key := Layout(p.total, RegionsOf(p.offsets, p.total))]
  }

  function ReadLine(p: Parser, line: Line): Parser {
    match line
    case Header => Parser(None, [], 0, Flushed(p))
    case StructLine(off, name) => Parser(Some(Key(name)), [off], 0, Flushed(p))
    case Detail(member, size) =>
      if p.current.None? then p
      else
        p.(offsets := if member.Some? then p.offsets + [member.value] else p.offsets,
           total := if size.Some? then size.value else p.total)
  }

  function ReadLines(p: Parser, lines: seq<Line>): Parser
    decreases |lines|
  {
    if lines == [] then p else ReadLines(ReadLine(p, lines[0]), lines[1..])
  }

  /** At the end of the text a struct of size 0 is dropped instead of stored. */
  function Finish(p: Parser): map<string, Layout> {
    if p.current.Some? && p.offsets != [] && p.total != 0 then Flushed(p) else p.result
  }

  function Parse(lines: seq<Line>): map<string, Layout> {
    Finish(ReadLines(START, lines))
  }

  method ParseLayoutDump(lines: seq<Line>) returns (result: map<string, Layout>)
    ensures result == Parse(lines)
  {
    result := map[];
    var current: Option<string> := None;
    var offsets: seq<nat> := [];
    var total: nat := 0;
    for i := 0 to |lines|
      invariant ReadLines(Parser(current, offsets, total, result), lines[i..]) == ReadLines(START, lines)
    {
      assert lines[i..][1..] == lines[i + 1..];
      match lines[i] {
        case Header =>
          if current.Some? {
            var regions := ComputeRegions(offsets, total);
            result := result[current.value := Layout(total, regions)];
          }
          current, offsets, total := None, [], 0;
        case StructLine(off, name) =>
          if current.Some? {
            var regions := ComputeRegions(offsets, total);
            result := result[current.value := Layout(total, regions)];
          }
          current, offsets, total := Some(Key(name)), [off], 0;
        case Detail(member, size) =>
          if member.Some? && current.Some? {
            offsets := offsets + [member.value];
          }
          if size.Some? && current.Some? {
            total := size.value;
          }
      }
    }
    if current.Some? && offsets != [] && total != 0 {
      var regions := ComputeRegions(offsets, total);
      result := result[current.value := Layout(total, regions)];
    }
  }

  lemma {:induction false} ReadLinesConcat(p: Parser, a: seq<Line>, b: seq<Line>)
    ensures ReadLines(p, a + b) == ReadLines(ReadLines(p, a), b)
    decreases |a|
  {
    if a == [] {
      assert a + b == b;
    } else {
      assert (a + b)[1..] == a[1..] + b;
      ReadLinesConcat(ReadLine(p, a[0]), a[1..], b);
    }
  }

  // ---------- what a struct line stores ----------

  /** The lines up to the next header or `struct` line. */
  function Body(lines: seq<Line>): (body: seq<Line>)
    ensures |body| <= |lines| && body == lines[..|body|] && AllDetails(body)
    ensures |body| < |lines| ==> !lines[|body|].Detail?
  {
    if lines == [] || !lines[0].Detail? then [] else [lines[0]] + Body(lines[1..])
  }

  predicate AllDetails(lines: seq<Line>) {
    forall i :: 0 <= i < |lines| ==> lines[i].Detail?
  }

  function MemberOffsets(body: seq<Line>): seq<nat>
    requires AllDetails(body)
  {
    if body == [] then
      []
    else
      var last := body[|body| - 1];
      MemberOffsets(body[..|body| - 1]) + (if last.member.Some? then [last.member.value] else [])
  }

  /** The last size printed, or 0. */
  function SizeIn(body: seq<Line>): nat
    requires AllDetails(body)
  {
    if body == [] then
      0
    else
      var last := body[|body| - 1];
      if last.size.Some? then last.size.value else SizeIn(body[..|body| - 1])
  }

  /** The layout a struct line describes together with the detail lines that follow it. */
  function BlockLayout(off: nat, body: seq<Line>): Layout
    requires AllDetails(body)
  {
    Layout(SizeIn(body), RegionsOf([off] + MemberOffsets(body), SizeIn(body)))
  }

  predicate Opens(line: Line, key: string) {
    line.StructLine? && Key(line.name) == key
  }

  predicate NeverOpens(lines: seq<Line>, key: string) {
    forall i :: 0 <= i < |lines| ==> !Opens(lines[i], key)
  }

  lemma {:induction false} ReadBody(p: Parser, body: seq<Line>)
    requires p.current.Some? && p.total == 0 && AllDetails(body)
    ensures ReadLines(p, body) == p.(offsets := p.offsets + MemberOffsets(body), total := SizeIn(body))
    decreases |body|
  {
    if body == [] {
      assert p.offsets + [] == p.offsets;
    } else {
      var init, last := body[..|body| - 1], body[|body| - 1];
      ReadBody(p, init);
      ReadLinesConcat(p, init, [last]);
      assert body == init + [last];
      var q := ReadLines(p, init);
      assert ReadLines(q, [last]) == ReadLine(q, last);
      Assoc(p.offsets, MemberOffsets(init), if last.member.Some? then [last.member.value] else []);
      EmptyRight(q.offsets);
    }
  }

  /** What is stored under a key stays until a struct line opens the key again. */
  lemma {:induction false} ReadPastKey(p: Parser, lines: seq<Line>, key: string)
    requires p.current != Some(key) && NeverOpens(lines, key)
    ensures ReadLines(p, lines).current != Some(key)
    ensures key in ReadLines(p, lines).result <==> key in p.result
    ensures key in p.result ==> ReadLines(p, lines).result[key] == p.result[key]
    decreases |lines|
  {
    if lines != [] {
      assert !Opens(lines[0], key);
      ReadPastKey(ReadLine(p, lines[0]), lines[1..], key);
    }
  }

  lemma ReadBlock(pre: seq<Line>, off: nat, name: string, body: seq<Line>)
    requires AllDetails(body)
    ensures ReadLines(START, pre + [StructLine(off, name)] + body)
         == Parser(Some(Key(name)), [off] + MemberOffsets(body), SizeIn(body), Flushed(ReadLines(START, pre)))
  {
    var opening, p := StructLine(off, name), ReadLines(START, pre);
    ReadLinesConcat(START, pre, [opening]);
    ReadLinesConcat(START, pre + [opening], body);
    assert ReadLines(p, [opening]) == ReadLine(p, opening);
    ReadBody(ReadLine(p, opening), body);
  }

  lemma BlockIsStored(pre: seq<Line>, off: nat, name: string, body: seq<Line>, post: seq<Line>)
    requires AllDetails(body) && (post != [] ==> !post[0].Detail?) && NeverOpens(post, Key(name))
    requires post != [] || SizeIn(body) > 0
    ensures var stored := Parse(pre + [StructLine(off, name)] + body + post);
            Key(name) in stored && stored[Key(name)] == BlockLayout(off, body)
  {
    var lines := pre + [StructLine(off, name)] + body;
    ReadBlock(pre, off, name, body);
    if post == [] {
      EmptyRight(lines);
    } else {
      var q := ReadLines(START, lines);
      ReadLinesConcat(START, lines, post);
      assert !Opens(post[0], Key(name));
      ReadPastKey(ReadLine(q, post[0]), post[1..], Key(name));
      assert ReadLines(q, post) == ReadLines(ReadLine(q, post[0]), post[1..]);
    }
  }

  /** Whatever precedes and follows: a key holds what the last struct line with it opened.  Only a
      struct of size 0 at the very end of the text is not stored: it just ends what precedes it. */
  lemma {:induction false} LastBlockIsStored(pre: seq<Line>, off: nat, name: string, body: seq<Line>, post: seq<Line>)
    requires AllDetails(body) && (post != [] ==> !post[0].Detail?) && NeverOpens(post, Key(name))
    ensures var stored := Parse(pre + [StructLine(off, name)] + body + post);
            if post != [] || SizeIn(body) > 0 then
              Key(name) in stored && stored[Key(name)] == BlockLayout(off, body)
            else
              stored == Flushed(ReadLines(START, pre))
  {
    if post != [] || SizeIn(body) > 0 {
      BlockIsStored(pre, off, name, body, post);
    } else {
      ReadBlock(pre, off, name, body);
      EmptyRight(pre + [StructLine(off, name)] + body);
    }
  }

  /** The struct line at `i` is the last one with its key. */
  predicate OpensLast(lines: seq<Line>, i: nat, key: string) {
    i < |lines| && Opens(lines[i], key) && NeverOpens(lines[i + 1..], key)
  }

  /** What the struct line at `i` describes. */
  function BlockAt(lines: seq<Line>, i: nat): Layout
    requires i < |lines| && lines[i].StructLine?
  {
    BlockLayout(lines[i].off, Body(lines[i + 1..]))
  }

  /** The struct line at `i` is the last one with its key, and its block is stored. */
  predicate StoredLast(lines: seq<Line>, i: nat, key: string) {
    && OpensLast(lines, i, key)
    && (BlockAt(lines, i).total > 0 || i + 1 + |Body(lines[i + 1..])| < |lines|)
  }

  lemma LastBlockAt(lines: seq<Line>, i: nat, key: string)
    requires StoredLast(lines, i, key)
    ensures key in Parse(lines) && Parse(lines)[key] == BlockAt(lines, i)
  {
    var rest := lines[i + 1..];
    LastBlockBefore(lines[..i], lines[i], rest, key);
    assert lines == lines[..i] + [lines[i]] + rest;
  }

  lemma LastBlockBefore(pre: seq<Line>, opening: Line, rest: seq<Line>, key: string)
    requires Opens(opening, key) && NeverOpens(rest, key) && (SizeIn(Body(rest)) > 0 || |Body(rest)| < |rest|)
    ensures var stored := Parse(pre + [opening] + rest);
            key in stored && stored[key] == BlockLayout(opening.off, Body(rest))
  {
    var body := Body(rest);
    var post := BodySplit(rest);
    BlockIsStored(pre, opening.off, opening.name, body, post);
    Assoc(pre + [opening], body, post);
  }

  lemma BodySplit(rest: seq<Line>) returns (post: seq<Line>)
    ensures rest == Body(rest) + post && (post != [] ==> !post[0].Detail?)
    ensures |Body(rest)| < |rest| <==> post != []
  {
    post := rest[|Body(rest)|..];
  }

  lemma UnopenedKey(lines: seq<Line>, key: string)
    requires NeverOpens(lines, key)
    ensures key !in Parse(lines)
  {
    ReadPastKey(START, lines, key);
  }

  /** The offsets in the block opened at `i` ascend to its size. */
  predicate AscendsAt(lines: seq<Line>, i: nat)
    requires i < |lines| && lines[i].StructLine?
  {
    Ascending([lines[i].off] + MemberOffsets(Body(lines[i + 1..])), BlockAt(lines, i).total)
  }

  /** A stored layout is well formed as soon as the offsets of its own last block ascend. */
  lemma {:induction false} LayoutsWellFormed(lines: seq<Line>, i: nat, key: string)
    requires StoredLast(lines, i, key) && AscendsAt(lines, i)
    ensures key in Parse(lines) && WellFormed(Parse(lines)[key].regions, Parse(lines)[key].total)
  {
    LastBlockAt(lines, i, key);
    var offsets := [lines[i].off] + MemberOffsets(Body(lines[i + 1..]));
    RegionsPartitionIffAscending(offsets, BlockAt(lines, i).total);
    ChainStart(BlockAt(lines, i).regions, offsets[0], BlockAt(lines, i).total);
  }

  lemma ChainStart(rs: seq<Region>, lo: nat, hi: nat)
    requires Chain(rs, lo, hi)
    ensures WellFormed(rs, hi)
  {}

  // ---------- printed records ----------

  /** One member line of a printed record: a plain member, or one whose type is itself
      printed as `struct Name`. */
  datatype Member = Plain(off: nat) | Nested(off: nat, name: string)

  /** One record of a dump.  The first line of a `Foreign` record (a class or a union) does not
      read `struct`; its members may. */
  datatype Record =
    | StructRecord(name: string, base: nat, members: seq<Member>, total: nat)
    | Foreign(base: nat, members: seq<Member>, total: nat)

  function MemberLine(m: Member): Line {
    match m
    case Plain(off) => Detail(Some(off), None)
    case Nested(off, name) => StructLine(off, name)
  }

  function MemberLines(ms: seq<Member>): (lines: seq<Line>)
    ensures |lines| == |ms| && forall i :: 0 <= i < |ms| ==> lines[i] == MemberLine(ms[i])
  {
    seq(|ms|, i requires 0 <= i < |ms| => MemberLine(ms[i]))
  }

  function Offsets(ms: seq<Member>): seq<nat> {
    seq(|ms|, i requires 0 <= i < |ms| => ms[i].off)
  }

  function FirstLine(r: Record): Line {
    if r.StructRecord? then StructLine(r.base, r.name) else Detail(Some(r.base), None)
  }

  /** The printed form of a record. */
  function Print(r: Record): seq<Line> {
    [Header, FirstLine(r)] + MemberLines(r.members) + [Detail(None, Some(r.total))]
  }

  function PrintAll(rs: seq<Record>): seq<Line> {
    if rs == [] then [] else PrintAll(rs[..|rs| - 1]) + Print(rs[|rs| - 1])
  }

  predicate Flat(ms: seq<Member>) {
    forall i :: 0 <= i < |ms| ==> ms[i].Plain?
  }

  /** The layout a struct record describes. */
  function LayoutOf(r: Record): Layout
    requires r.StructRecord?
  {
    Layout(r.total, RegionsOf([r.base] + Offsets(r.members), r.total))
  }

  predicate Named(m: Member, key: string) {
    m.Nested? && Key(m.name) == key
  }

  predicate NeverNamed(ms: seq<Member>, key: string) {
    forall i :: 0 <= i < |ms| ==> !Named(ms[i], key)
  }

  /** Some line of the record reads `struct` with this key. */
  predicate Mentions(r: Record, key: string) {
    (r.StructRecord? && Key(r.name) == key) || !NeverNamed(r.members, key)
  }

  predicate NeverMentioned(rs: seq<Record>, key: string) {
    forall i :: 0 <= i < |rs| ==> !Mentions(rs[i], key)
  }

  function PlainPrefix(ms: seq<Member>): (front: seq<Member>)
    ensures |front| <= |ms| && front == ms[..|front|] && Flat(front)
    ensures |front| < |ms| ==> ms[|front|].Nested?
  {
    if ms == [] || ms[0].Nested? then [] else [ms[0]] + PlainPrefix(ms[1..])
  }

  /** What a struct line at offset `off` of a record stores, given the members printed behind it:
      the next struct line cuts it off before its size. */
  function Stores(off: nat, rest: seq<Member>, total: nat): Layout {
    if Flat(rest) then
      Layout(total, RegionsOf([off] + Offsets(rest), total))
    else
      Layout(0, RegionsOf([off] + Offsets(PlainPrefix(rest)), 0))
  }

  /** The last struct line with the key: its offset and the members behind it. */
  function LastOpening(r: Record, key: string): (nat, seq<Member>)
    requires Mentions(r, key)
  {
    if NeverNamed(r.members, key) then (r.base, r.members) else LastNested(r.members, key)
  }

  function LastNested(ms: seq<Member>, key: string): (nat, seq<Member>)
    requires !NeverNamed(ms, key)
  {
    if NeverNamed(ms[1..], key) then (ms[0].off, ms[1..]) else LastNested(ms[1..], key)
  }

  function StoredBy(r: Record, key: string): Layout
    requires Mentions(r, key)
  {
    var (off, rest) := LastOpening(r, key);
    Stores(off, rest, r.total)
  }

  lemma {:induction false} PrintAllConcat(a: seq<Record>, b: seq<Record>)
    ensures PrintAll(a + b) == PrintAll(a) + PrintAll(b)
    decreases |b|
  {
    if b == [] {
      assert a + b == a;
    } else {
      var init := b[..|b| - 1];
      assert (a + b)[..|a + b| - 1] == a + init;
      PrintAllConcat(a, init);
      Assoc(PrintAll(a), PrintAll(init), Print(b[|b| - 1]));
    }
  }

  lemma {:induction false} UnmentionedIsUnopened(rs: seq<Record>, key: string)
    requires NeverMentioned(rs, key)
    ensures NeverOpens(PrintAll(rs), key)
    ensures rs != [] ==> PrintAll(rs) != [] && PrintAll(rs)[0] == Header
  {
    if rs != [] {
      UnmentionedIsUnopened(rs[..|rs| - 1], key);
      PrintNeverOpens(rs[|rs| - 1], key);
    }
  }

  lemma PrintNeverOpens(r: Record, key: string)
    requires !Mentions(r, key)
    ensures NeverOpens(Print(r), key) && Print(r)[0] == Header
  {
    assert forall i :: 0 <= i < |r.members| ==> !Named(r.members[i], key);
  }

  lemma {:induction false} PlainBody(ms: seq<Member>)
    requires Flat(ms)
    ensures AllDetails(MemberLines(ms)) && MemberOffsets(MemberLines(ms)) == Offsets(ms) && SizeIn(MemberLines(ms)) == 0
    decreases |ms|
  {
    if ms != [] {
      var init := ms[..|ms| - 1];
      PlainBody(init);
      assert MemberLines(ms)[..|ms| - 1] == MemberLines(init);
      assert Offsets(ms) == Offsets(init) + [ms[|ms| - 1].off];
    }
  }

  /** A struct line inside a printed record stores what `Stores` says, if the key is not opened again. */
  lemma OpeningStores(pre: seq<Line>, off: nat, name: string, rest: seq<Member>, total: nat, post: seq<Line>)
    requires total > 0 && NeverNamed(rest, Key(name))
    requires NeverOpens(post, Key(name)) && (post != [] ==> post[0] == Header)
    ensures var lines := MemberLines(rest) + [Detail(None, Some(total))] + post;
            var stored := Parse(pre + [StructLine(off, name)] + lines);
            Key(name) in stored && stored[Key(name)] == Stores(off, rest, total)
  {
    if Flat(rest) {
      WholeOpeningStores(pre, off, name, rest, total, post);
    } else {
      var lines := MemberLines(rest) + [Detail(None, Some(total))] + post;
      assert forall k :: 0 <= k < |rest| ==> !Named(rest[k], Key(name));
      CutOpeningStores(pre, off, name, rest, lines, total);
    }
  }

  lemma WholeOpeningStores(pre: seq<Line>, off: nat, name: string, rest: seq<Member>, total: nat, post: seq<Line>)
    requires total > 0 && Flat(rest) && NeverOpens(post, Key(name)) && (post != [] ==> post[0] == Header)
    ensures var lines := MemberLines(rest) + [Detail(None, Some(total))] + post;
            var stored := Parse(pre + [StructLine(off, name)] + lines);
            Key(name) in stored && stored[Key(name)] == Stores(off, rest, total)
  {
    var body := MemberLines(rest) + [Detail(None, Some(total))];
    SizedBody(rest, total);
    BlockIsStored(pre, off, name, body, post);
    Assoc(pre + [StructLine(off, name)], body, post);
  }

  lemma SizedBody(rest: seq<Member>, total: nat)
    requires Flat(rest)
    ensures var body := MemberLines(rest) + [Detail(None, Some(total))];
            AllDetails(body) && MemberOffsets(body) == Offsets(rest) && SizeIn(body) == total
  {
    var body := MemberLines(rest) + [Detail(None, Some(total))];
    PlainBody(rest);
    assert body[..|rest|] == MemberLines(rest);
    EmptyRight(Offsets(rest));
  }

  lemma CutOpeningStores(pre: seq<Line>, off: nat, name: string, rest: seq<Member>, lines: seq<Line>, total: nat)
    requires !Flat(rest) && |rest| <= |lines| && MemberLines(rest) == lines[..|rest|]
    requires NeverOpens(lines, Key(name))
    ensures var stored := Parse(pre + [StructLine(off, name)] + lines);
            Key(name) in stored && stored[Key(name)] == Stores(off, rest, total)
  {
    var front := PlainPrefix(rest);
    PlainBody(front);
    var after := lines[|front|..];
    assert |front| < |rest|;
    assert after[0] == MemberLine(rest[|front|]);
    assert lines[..|front|] == MemberLines(front);
    BlockIsStored(pre, off, name, MemberLines(front), after);
    assert lines == MemberLines(front) + after;
    Assoc(pre + [StructLine(off, name)], MemberLines(front), after);
  }

  lemma NeverNamedStep(ms: seq<Member>, key: string)
    requires ms != []
    ensures NeverNamed(ms, key) <==> !Named(ms[0], key) && NeverNamed(ms[1..], key)
  {
    if !Named(ms[0], key) && NeverNamed(ms[1..], key) {
      forall k | 0 <= k < |ms| ensures !Named(ms[k], key) {
        assert k > 0 ==> ms[k] == ms[1..][k - 1];
      }
    }
  }

  lemma {:induction false} SplitAtLastNested(ms: seq<Member>, key: string) returns (i: nat)
    requires !NeverNamed(ms, key)
    ensures i < |ms| && Named(ms[i], key)
    ensures LastNested(ms, key) == (ms[i].off, ms[i + 1..]) && NeverNamed(ms[i + 1..], key)
    decreases |ms|
  {
    NeverNamedStep(ms, key);
    if NeverNamed(ms[1..], key) {
      i := 0;
    } else {
      var j := SplitAtLastNested(ms[1..], key);
      i := j + 1;
      assert ms[1..][j + 1..] == ms[i + 1..];
    }
  }

  /** The last record that mentions a key decides what is stored under it, whatever the rest of
      the dump looks like. */
  lemma {:induction false} LastMentionIsStored(head: seq<Line>, r: Record, post: seq<Line>, key: string)
    requires Mentions(r, key) && r.total > 0 && NeverOpens(post, key) && (post != [] ==> post[0] == Header)
    ensures var stored := Parse(head + Print(r) + post);
            key in stored && stored[key] == StoredBy(r, key)
  {
    if NeverNamed(r.members, key) {
      SplitPrint(head, r, post);
      OpeningStores(head + [Header], r.base, r.name, r.members, r.total, post);
    } else {
      var i := SplitAtLastNested(r.members, key);
      SplitPrintAt(head, r, i, post);
      OpeningStores(head + [Header, FirstLine(r)] + MemberLines(r.members[..i]), r.members[i].off, r.members[i].name,
                    r.members[i + 1..], r.total, post);
    }
  }

  lemma SplitPrint(head: seq<Line>, r: Record, post: seq<Line>)
    ensures head + Print(r) + post
         == head + [Header] + [FirstLine(r)] + (MemberLines(r.members) + [Detail(None, Some(r.total))] + post)
  {
    var ms, end := MemberLines(r.members), [Detail(None, Some(r.total))];
    assert Print(r) == [Header] + [FirstLine(r)] + (ms + end);
    Assoc(head, [Header] + [FirstLine(r)], ms + end);
    Assoc(head, [Header], [FirstLine(r)]);
    Assoc(head + [Header] + [FirstLine(r)], ms + end, post);
  }

  lemma SplitPrintAt(head: seq<Line>, r: Record, i: nat, post: seq<Line>)
    requires i < |r.members|
    ensures head + Print(r) + post
         == head + [Header, FirstLine(r)] + MemberLines(r.members[..i]) + [MemberLine(r.members[i])]
            + (MemberLines(r.members[i + 1..]) + [Detail(None, Some(r.total))] + post)
  {
    var ms, end := MemberLines(r.members), [Detail(None, Some(r.total))];
    var front, line, back := MemberLines(r.members[..i]), [MemberLine(r.members[i])], MemberLines(r.members[i + 1..]);
    assert ms == front + line + back;
    SplitPrint(head, r, post);
    Assoc(head, [Header], [FirstLine(r)]);
    assert [Header] + [FirstLine(r)] == [Header, FirstLine(r)];
    Assoc(front + line, back, end);
    Assoc(front + line, back + end, post);
    Assoc(front, line, back + end + post);
    Assoc(head + [Header, FirstLine(r)], front, line + (back + end + post));
    Assoc(head + [Header, FirstLine(r)] + front, line, back + end + post);
  }

  // ---------- printing and parsing ----------

  /** The record at `i` is the last one that mentions the key. */
  predicate MentionedLast(rs: seq<Record>, i: nat, key: string) {
    i < |rs| && Mentions(rs[i], key) && NeverMentioned(rs[i + 1..], key)
  }

  lemma {:induction false} FindLastMention(rs: seq<Record>, key: string) returns (i: nat)
    requires !NeverMentioned(rs, key)
    ensures MentionedLast(rs, i, key)
  {
    var last := |rs| - 1;
    if Mentions(rs[last], key) {
      i := last;
    } else {
      assert !NeverMentioned(rs[..last], key) by {
        var k :| 0 <= k < |rs| && Mentions(rs[k], key);
        assert rs[..last][k] == rs[k];
      }
      i := FindLastMention(rs[..last], key);
      assert rs[i + 1..] == rs[..last][i + 1..] + [rs[last]];
    }
  }

  lemma MentionedLastIsStored(rs: seq<Record>, i: nat, key: string)
    requires MentionedLast(rs, i, key) && rs[i].total > 0
    ensures key in Parse(PrintAll(rs)) && Parse(PrintAll(rs))[key] == StoredBy(rs[i], key)
  {
    var before, r, after := rs[..i], rs[i], rs[i + 1..];
    assert rs == before + [r] + after && (before + [r])[..i] == before;
    PrintAllConcat(before + [r], after);
    UnmentionedIsUnopened(after, key);
    LastMentionIsStored(PrintAll(before), r, PrintAll(after), key);
  }

  /** Printing any dump and parsing it back: the keys are exactly those of its struct lines, each
      with what its last mention stores; for a struct whose last mention is its own record, with
      no nested struct line, that is the layout the record describes. */
  lemma {:induction false} ParsePrintRoundTrip(rs: seq<Record>, key: string)
    requires forall i: nat :: MentionedLast(rs, i, key) ==> rs[i].total > 0
    ensures key in Parse(PrintAll(rs)) <==> !NeverMentioned(rs, key)
    ensures forall i: nat :: MentionedLast(rs, i, key) ==> Parse(PrintAll(rs))[key] == StoredBy(rs[i], key)
    ensures forall i: nat :: MentionedLast(rs, i, key) && rs[i].StructRecord? && Flat(rs[i].members) ==>
              Parse(PrintAll(rs))[key] == LayoutOf(rs[i])
  {
    if NeverMentioned(rs, key) {
      UnmentionedIsUnopened(rs, key);
      UnopenedKey(PrintAll(rs), key);
    } else {
      var _ := FindLastMention(rs, key);
    }
    forall i: nat | MentionedLast(rs, i, key)
      ensures key in Parse(PrintAll(rs)) && Parse(PrintAll(rs))[key] == StoredBy(rs[i], key)
    {
      MentionedLastIsStored(rs, i, key);
    }
  }

  /** The struct line decides correctly for a struct of layout `l`: no further struct line cuts it
      off, and from there to the end its record prints the same size and regions. */
  predicate PrintsSame(r: Record, key: string, l: Layout)
    requires Mentions(r, key)
  {
    var (off, rest) := LastOpening(r, key);
    Flat(rest) && r.total == l.total && RegionsOf([off] + Offsets(rest), r.total) == l.regions
  }

  /** In any dump, a struct record is read back correctly exactly when the last struct line with
      its key is not cut off by another one and describes the same struct: its own line does so
      exactly when the record is flat; a line that is cut off stores the size 0, and a nested line
      that is not stores the size of the record around it. */
  lemma {:induction false} ReadBackIffLastMention(rs: seq<Record>, i: nat, last: nat, key: string)
    requires i < |rs| && rs[i].StructRecord? && Key(rs[i].name) == key && rs[i].total > 0
    requires MentionedLast(rs, last, key) && rs[last].total > 0
    ensures key in Parse(PrintAll(rs))
    ensures Parse(PrintAll(rs))[key] == LayoutOf(rs[i]) <==> PrintsSame(rs[last], key, LayoutOf(rs[i]))
    ensures i == last && NeverNamed(rs[i].members, key) ==>
              (Parse(PrintAll(rs))[key] == LayoutOf(rs[i]) <==> Flat(rs[i].members))
    ensures Parse(PrintAll(rs))[key].total == if Flat(LastOpening(rs[last], key).1) then rs[last].total else 0
  {
    MentionedLastIsStored(rs, last, key);
  }

  // ---------- the same regions ----------

  predicate StartsRegion(rs: seq<Region>, x: nat) {
    exists i :: 0 <= i < |rs| && rs[i].off == x
  }

  /** The two offset lists hold the same offsets below the size. */
  predicate SameStarts(a: seq<nat>, b: seq<nat>, total: nat) {
    forall x :: 0 <= x < total ==> (x in a <==> x in b)
  }

  lemma StartsCons(r: Region, rs: seq<Region>, x: nat)
    ensures StartsRegion([r] + rs, x) <==> x == r.off || StartsRegion(rs, x)
  {
    var all := [r] + rs;
    if StartsRegion(rs, x) {
      var i :| 0 <= i < |rs| && rs[i].off == x;
      assert all[i + 1].off == x;
    }
    assert all[0].off == r.off;
  }

  lemma {:induction false} RegionStarts(offsets: seq<nat>, total: nat, x: nat)
    requires offsets != [] && Ascending(offsets, total)
    ensures StartsRegion(RegionsOf(offsets, total), x) <==> x < total && x in offsets
    decreases |offsets|
  {
    var rest := RegionsOf(offsets[1..], total);
    assert x in offsets <==> x == offsets[0] || x in offsets[1..];
    if |offsets| == 1 {
      assert rest == [];
      StartsCons(Region(offsets[0], total - offsets[0]), rest, x);
    } else {
      assert offsets[0] <= offsets[1] && offsets[1..][0] == offsets[1];
      AscendingTail(offsets, total);
      RegionStarts(offsets[1..], total, x);
      StartsCons(Region(offsets[0], offsets[1] - offsets[0]), rest, x);
    }
  }

  lemma {:induction false} AscendingTail(offsets: seq<nat>, total: nat)
    requires |offsets| > 1 && Ascending(offsets, total)
    ensures Ascending(offsets[1..], total) && offsets[1] <= total
    decreases |offsets|
  {
    forall i | 0 <= i < |offsets[1..]| - 1 ensures offsets[1..][i] <= offsets[1..][i + 1] {
      assert offsets[i + 1] <= offsets[i + 2];
    }
    if |offsets| > 2 {
      AscendingTail(offsets[1..], total);
    }
  }

  lemma {:induction false} ChainBounds(rs: seq<Region>, lo: nat, hi: nat, x: nat)
    requires Chain(rs, lo, hi) && StartsRegion(rs, x)
    ensures lo <= x < hi && (x == lo || lo + rs[0].size <= x)
    decreases |rs|
  {
    ChainSize(rs[1..], lo + rs[0].size, hi);
    assert rs == [rs[0]] + rs[1..];
    StartsCons(rs[0], rs[1..], x);
    if x != lo {
      ChainBounds(rs[1..], lo + rs[0].size, hi, x);
    }
  }

  lemma FirstNotShorter(a: seq<Region>, b: seq<Region>, lo: nat, hi: nat)
    requires Chain(a, lo, hi) && Chain(b, lo, hi) && a != [] && b != []
    requires forall x: nat :: StartsRegion(a, x) ==> StartsRegion(b, x)
    ensures a[0].size >= b[0].size
  {
    ChainSize(b[1..], lo + b[0].size, hi);
    var mid := lo + a[0].size;
    if a[0].size < b[0].size {
      assert a[1..][0] == a[1] && a[1].off == mid;
      assert StartsRegion(a, mid);
      ChainBounds(b, lo, hi, mid);
    }
  }

  /** A partition is determined by where its regions start. */
  lemma {:induction false} ChainDetermined(a: seq<Region>, b: seq<Region>, lo: nat, hi: nat)
    requires Chain(a, lo, hi) && Chain(b, lo, hi)
    requires forall x: nat :: StartsRegion(a, x) <==> StartsRegion(b, x)
    ensures a == b
    decreases |a|
  {
    ChainSize(a, lo, hi);
    ChainSize(b, lo, hi);
    if a != [] {
      assert b != [] by { assert a[0].size > 0; }
      FirstNotShorter(a, b, lo, hi);
      FirstNotShorter(b, a, lo, hi);
      var next := lo + a[0].size;
      forall x: nat ensures StartsRegion(a[1..], x) <==> StartsRegion(b[1..], x) {
        TailStarts(a, lo, hi, x);
        TailStarts(b, lo, hi, x);
      }
      ChainDetermined(a[1..], b[1..], next, hi);
      assert a == [a[0]] + a[1..] && b == [b[0]] + b[1..];
    }
  }

  lemma TailStarts(rs: seq<Region>, lo: nat, hi: nat, x: nat)
    requires Chain(rs, lo, hi) && rs != []
    ensures StartsRegion(rs[1..], x) <==> StartsRegion(rs, x) && x != lo
  {
    assert rs == [rs[0]] + rs[1..];
    StartsCons(rs[0], rs[1..], x);
    if StartsRegion(rs[1..], x) {
      ChainBounds(rs[1..], lo + rs[0].size, hi, x);
    }
  }

  lemma {:induction false} FirstIsLeast(offsets: seq<nat>, total: nat, x: nat)
    requires offsets != [] && Ascending(offsets, total) && x in offsets
    ensures offsets[0] <= x <= total
    decreases |offsets|
  {
    if |offsets| > 1 {
      AscendingTail(offsets, total);
      FirstIsLeast(offsets[1..], total, offsets[1]);
      assert x == offsets[0] || x in offsets[1..];
      if x != offsets[0] {
        FirstIsLeast(offsets[1..], total, x);
      }
    }
  }

  /** Ascending offsets give the same regions exactly when they are the same below the size. */
  lemma {:induction false} RegionsSameIffStarts(a: seq<nat>, b: seq<nat>, total: nat)
    requires a != [] && b != [] && Ascending(a, total) && Ascending(b, total)
    ensures RegionsOf(a, total) == RegionsOf(b, total) <==> SameStarts(a, b, total)
  {
    if RegionsOf(a, total) == RegionsOf(b, total) {
      forall x | 0 <= x < total ensures x in a <==> x in b {
        RegionStarts(a, total, x);
        RegionStarts(b, total, x);
      }
    }
    if SameStarts(a, b, total) {
      SameFirst(a, b, total);
      AscendingGivesChain(a, total);
      AscendingGivesChain(b, total);
      forall x: nat ensures StartsRegion(RegionsOf(a, total), x) <==> StartsRegion(RegionsOf(b, total), x) {
        RegionStarts(a, total, x);
        RegionStarts(b, total, x);
      }
      ChainDetermined(RegionsOf(a, total), RegionsOf(b, total), a[0], total);
    }
  }

  lemma SameFirst(a: seq<nat>, b: seq<nat>, total: nat)
    requires a != [] && b != [] && Ascending(a, total) && Ascending(b, total) && SameStarts(a, b, total)
    ensures a[0] == b[0]
  {
    FirstIsLeast(a, total, a[0]);
    FirstIsLeast(b, total, b[0]);
    if a[0] < total {
      FirstIsLeast(b, total, a[0]);
    }
    if b[0] < total {
      FirstIsLeast(a, total, b[0]);
    }
  }

  /** With ascending offsets: a struct is read back correctly exactly when no struct line follows
      its last mention in that record, the record has the struct's own size, and the offsets from
      there on are the struct's own. */
  lemma {:induction false} ReadBackIffSameOffsets(rs: seq<Record>, i: nat, last: nat, key: string)
    requires i < |rs| && rs[i].StructRecord? && Key(rs[i].name) == key && rs[i].total > 0
    requires MentionedLast(rs, last, key) && rs[last].total > 0
    requires Ascending([rs[i].base] + Offsets(rs[i].members), rs[i].total)
    requires var (off, rest) := LastOpening(rs[last], key);
             Flat(rest) ==> Ascending([off] + Offsets(rest), rs[last].total)
    ensures key in Parse(PrintAll(rs))
    ensures var (off, rest) := LastOpening(rs[last], key);
            Parse(PrintAll(rs))[key] == LayoutOf(rs[i]) <==>
              && Flat(rest)
              && rs[last].total == rs[i].total
              && SameStarts([off] + Offsets(rest), [rs[i].base] + Offsets(rs[i].members), rs[i].total)
  {
    ReadBackIffLastMention(rs, i, last, key);
    var (off, rest) := LastOpening(rs[last], key);
    if Flat(rest) && rs[last].total == rs[i].total {
      RegionsSameIffStarts([off] + Offsets(rest), [rs[i].base] + Offsets(rs[i].members), rs[i].total);
    }
  }

  /** A struct with a nested member is stored with size 0. */
  lemma {:induction false} NestedMisreadExample()
    ensures var t := StructRecord("sT", 0, [Nested(216, "sD"), Plain(216), Plain(220)], 240);
            var stored := Parse(PrintAll([t]));
            "sT" in stored && stored["sT"].total == 0
  {
    var t := StructRecord("sT", 0, [Nested(216, "sD"), Plain(216), Plain(220)], 240);
    assert Key("sD") == "sD" && Key("sT") == "sT" && "sD"[1] != "sT"[1];
    assert t.members[0].Nested?;
    ReadBackIffLastMention([t], 0, 0, "sT");
  }

  /** A flat struct is overwritten by its later appearance inside another one. */
  lemma {:induction false} OverwrittenExample()
    ensures var s := StructRecord("sD", 0, [Plain(0), Plain(4)], 8);
            var t := StructRecord("sT", 0, [Nested(216, "sD"), Plain(216), Plain(220)], 240);
            var stored := Parse(PrintAll([s, t]));
            Flat(s.members) && "sD" in stored && stored["sD"] != LayoutOf(s) && stored["sD"].total == 240
  {
    var s := StructRecord("sD", 0, [Plain(0), Plain(4)], 8);
    var t := StructRecord("sT", 0, [Nested(216, "sD"), Plain(216), Plain(220)], 240);
    assert Key("sD") == "sD";
    assert Named(t.members[0], "sD");
    assert NeverNamed(t.members[1..], "sD") && Flat(t.members[1..]);
    assert LastNested(t.members, "sD") == (216, t.members[1..]);
    assert [s, t][1] == t && Mentions([s, t][1], "sD");
    ReadBackIffLastMention([s, t], 0, 1, "sD");
  }
}
