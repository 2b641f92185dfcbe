/**
 The generated wire layer: the table of packet rows, and the two loops that encode a native
 payload into wire bytes and decode wire bytes back (tools/gen_packet_wire.py, generate_cpp).
 */
module WireCodec {
  import opened Options
  import opened Sequences
  import opened LayoutDump
  import opened CopyCompiler
  import opened CopyGeometry

  newtype byte = x: int | 0 <= x < 256

  const MAX_OPS := 32

  datatype Row = Row(opcode: nat, wireSize: nat, ourSize: nat, ops: seq<Op>)

  // ---------- copying ----------

  /** One CopyMemory call. */
  datatype Move = Move(dst: nat, src: nat, len: nat)

  predicate MoveFits(m: Move, src: seq<byte>, dst: seq<byte>) {
    m.src + m.len <= |src| && m.dst + m.len <= |dst|
  }

  predicate MovesFit(moves: seq<Move>, src: seq<byte>, dst: seq<byte>) {
    forall i :: 0 <= i < |moves| ==> MoveFits(moves[i], src, dst)
  }

  function CopyRange(src: seq<byte>, dst: seq<byte>, m: Move): (r: seq<byte>)
    requires MoveFits(m, src, dst)
    ensures |r| == |dst|
  {
    dst[..m.dst] + src[m.src..m.src + m.len] + dst[m.dst + m.len..]
  }

  /** The moves performed one after another. */
  function CopyAll(moves: seq<Move>, src: seq<byte>, dst: seq<byte>): (r: seq<byte>)
    requires MovesFit(moves, src, dst)
    ensures |r| == |dst|
  {
    if moves == [] then
      dst
    else
      var last := |moves| - 1;
      CopyRange(src, CopyAll(moves[..last], src, dst), moves[last])
  }

  lemma CopyAllStep(moves: seq<Move>, src: seq<byte>, dst: seq<byte>, i: nat)
    requires MovesFit(moves, src, dst) && i < |moves|
    ensures MoveFits(moves[i], src, CopyAll(moves[..i], src, dst))
    ensures CopyAll(moves[..i + 1], src, dst) == CopyRange(src, CopyAll(moves[..i], src, dst), moves[i])
  {
    assert moves[..i + 1][..i] == moves[..i];
  }

  predicate Writes(m: Move, k: nat) {
    m.dst <= k < m.dst + m.len
  }

  predicate TargetsApart(moves: seq<Move>) {
    forall i, j :: 0 <= i < j < |moves| ==> Apart(moves[i].dst, moves[i].len, moves[j].dst, moves[j].len)
  }

  lemma RangeByte(src: seq<byte>, dst: seq<byte>, m: Move, k: nat)
    requires MoveFits(m, src, dst) && k < |dst|
    ensures CopyRange(src, dst, m)[k] == if Writes(m, k) then src[m.src + (k - m.dst)] else dst[k]
  {}

  lemma {:induction false} UntouchedByte(moves: seq<Move>, src: seq<byte>, dst: seq<byte>, k: nat)
    requires MovesFit(moves, src, dst) && k < |dst|
    requires forall i :: 0 <= i < |moves| ==> !Writes(moves[i], k)
    ensures CopyAll(moves, src, dst)[k] == dst[k]
  {
    if moves != [] {
      var last := |moves| - 1;
      UntouchedByte(moves[..last], src, dst, k);
      RangeByte(src, CopyAll(moves[..last], src, dst), moves[last], k);
    }
  }

  lemma {:induction false} MovedByte(moves: seq<Move>, src: seq<byte>, dst: seq<byte>, i: nat, k: nat)
    requires MovesFit(moves, src, dst) && TargetsApart(moves)
    requires i < |moves| && Writes(moves[i], k)
    ensures CopyAll(moves, src, dst)[k] == src[moves[i].src + (k - moves[i].dst)]
  {
    var last := |moves| - 1;
    RangeByte(src, CopyAll(moves[..last], src, dst), moves[last], k);
    if i < last {
      assert Apart(moves[i].dst, moves[i].len, moves[last].dst, moves[last].len);
      MovedByte(moves[..last], src, dst, i, k);
    }
  }

  method CopyMemory(dst: array<byte>, src: array<byte>, m: Move)
    requires dst != src && MoveFits(m, src[..], dst[..])
    modifies dst
    ensures dst[..] == CopyRange(src[..], old(dst[..]), m)
  {
    ghost var before := dst[..];
    for j := 0 to m.len
      invariant dst[..] == CopyRange(src[..], before, Move(m.dst, m.src, j))
    {
      CopyRangeStep(src[..], before, m, j);
      dst[m.dst + j] := src[m.src + j];
    }
  }

  lemma CopyRangeStep(src: seq<byte>, dst: seq<byte>, m: Move, j: nat)
    requires MoveFits(m, src, dst) && j < m.len
    ensures CopyRange(src, dst, Move(m.dst, m.src, j + 1))
         == CopyRange(src, dst, Move(m.dst, m.src, j))[m.dst + j := src[m.src + j]]
  {}

  // ---------- encode and decode ----------

  function EncodeMoves(ops: seq<Op>): (moves: seq<Move>)
    ensures |moves| == |ops|
    ensures forall i :: 0 <= i < |ops| ==> moves[i] == Move(ops[i].wire, ops[i].our, ops[i].len)
  {
    seq(|ops|, i requires 0 <= i < |ops| => Move(ops[i].wire, ops[i].our, ops[i].len))
  }

  function DecodeMoves(ops: seq<Op>): (moves: seq<Move>)
    ensures |moves| == |ops|
    ensures forall i :: 0 <= i < |ops| ==> moves[i] == Move(ops[i].our, ops[i].wire, ops[i].len)
  {
    seq(|ops|, i requires 0 <= i < |ops| => Move(ops[i].our, ops[i].wire, ops[i].len))
  }

  /** Buffers long enough for a row, and a row whose operations respect its own sizes. */
  predicate Fits(row: Row, our: seq<byte>, wire: seq<byte>) {
    row.ourSize <= |our| && row.wireSize <= |wire| && InBounds(row.ops, row.wireSize, row.ourSize)
  }

  function Encode(row: Row, our: seq<byte>, wire: seq<byte>): (r: seq<byte>)
    requires Fits(row, our, wire)
    ensures |r| == |wire|
  {
    CopyAll(EncodeMoves(row.ops), our, wire)
  }

  function Zeroed(buffer: seq<byte>, n: nat): (r: seq<byte>)
    requires n <= |buffer|
    ensures |r| == |buffer|
  {
    seq(n, _ => 0 as byte) + buffer[n..]
  }

  function Decode(row: Row, wire: seq<byte>, our: seq<byte>): (r: seq<byte>)
    requires Fits(row, our, wire)
    ensures |r| == |our|
  {
    CopyAll(DecodeMoves(row.ops), wire, Zeroed(our, row.ourSize))
  }

  predicate OnOur(op: Op, k: nat) {
    op.our <= k < op.our + op.len
  }

  predicate OurCovered(ops: seq<Op>, k: nat) {
    exists i :: 0 <= i < |ops| && OnOur(ops[i], k)
  }

  /** What an encode leaves at a byte needs the operations to be disjoint on the wire only. */
  lemma EncodedByte(row: Row, our: seq<byte>, wire: seq<byte>, i: nat, k: nat)
    requires Fits(row, our, wire) && WireDisjoint(row.ops)
    requires i < |row.ops| && OnWire(row.ops[i], k)
    ensures Encode(row, our, wire)[k] == our[row.ops[i].our + (k - row.ops[i].wire)]
  {
    MovedByte(EncodeMoves(row.ops), our, wire, i, k);
  }

  lemma DecodedByte(row: Row, wire: seq<byte>, our: seq<byte>, i: nat, k: nat)
    requires Fits(row, our, wire) && Disjoint(row.ops)
    requires i < |row.ops| && OnOur(row.ops[i], k)
    ensures Decode(row, wire, our)[k] == wire[row.ops[i].wire + (k - row.ops[i].our)]
  {
    MovedByte(DecodeMoves(row.ops), wire, Zeroed(our, row.ourSize), i, k);
  }

  lemma UncoveredByte(row: Row, our: seq<byte>, wire: seq<byte>, k: nat)
    requires Fits(row, our, wire)
    ensures k < |wire| && !WireCovered(row.ops, k) ==> Encode(row, our, wire)[k] == wire[k]
    ensures k < |our| && !OurCovered(row.ops, k) ==> Decode(row, wire, our)[k] == Zeroed(our, row.ourSize)[k]
  {
    if k < |wire| && !WireCovered(row.ops, k) {
      assert forall i :: 0 <= i < |row.ops| ==> !OnWire(row.ops[i], k);
      UntouchedByte(EncodeMoves(row.ops), our, wire, k);
    }
    if k < |our| && !OurCovered(row.ops, k) {
      assert forall i :: 0 <= i < |row.ops| ==> !OnOur(row.ops[i], k);
      UntouchedByte(DecodeMoves(row.ops), wire, Zeroed(our, row.ourSize), k);
    }
  }

  /** Bytes that belong to the same field carry the same value after an encode, and after a decode. */
  lemma {:induction false} PairedBytesAgree(row: Row, our: seq<byte>, wire: seq<byte>, w: nat, o: nat)
    requires Fits(row, our, wire) && Disjoint(row.ops) && Pairs(row.ops, w, o)
    ensures w < |wire| && o < |our|
    ensures Encode(row, our, wire)[w] == our[o] && Decode(row, wire, our)[o] == wire[w]
  {
    assert WireDisjoint(row.ops);
    var i :| 0 <= i < |row.ops| && Shifted(row.ops[i].wire, row.ops[i].our, row.ops[i].len, w, o);
    EncodedByte(row, our, wire, i, w);
    DecodedByte(row, wire, our, i, o);
  }

  /** Encoding and decoding again returns every byte that travels; the others read as zero and
      nothing beyond the payload is written. */
  lemma {:induction false} DecodeEncode(row: Row, our: seq<byte>, wireBuf: seq<byte>, ourBuf: seq<byte>, k: nat)
    requires Fits(row, our, wireBuf) && Fits(row, ourBuf, wireBuf) && Disjoint(row.ops)
    requires k < |ourBuf|
    ensures Decode(row, Encode(row, our, wireBuf), ourBuf)[k]
         == if OurCovered(row.ops, k) then our[k] else if k < row.ourSize then 0 else ourBuf[k]
  {
    var wire := Encode(row, our, wireBuf);
    if OurCovered(row.ops, k) {
      var i :| 0 <= i < |row.ops| && OnOur(row.ops[i], k);
      DecodedByte(row, wire, ourBuf, i, k);
      EncodedByte(row, our, wireBuf, i, row.ops[i].wire + (k - row.ops[i].our));
    } else {
      UncoveredByte(row, ourBuf, wire, k);
    }
  }

  /** Decoding and encoding again returns every wire byte an operation covers. */
  lemma {:induction false} EncodeDecode(row: Row, wire: seq<byte>, ourBuf: seq<byte>, wireBuf: seq<byte>, k: nat)
    requires Fits(row, ourBuf, wire) && Fits(row, ourBuf, wireBuf) && Disjoint(row.ops)
    requires k < |wireBuf|
    ensures Encode(row, Decode(row, wire, ourBuf), wireBuf)[k]
         == if WireCovered(row.ops, k) then wire[k] else wireBuf[k]
  {
    var our := Decode(row, wire, ourBuf);
    if WireCovered(row.ops, k) {
      var i :| 0 <= i < |row.ops| && OnWire(row.ops[i], k);
      EncodedByte(row, our, wireBuf, i, k);
      DecodedByte(row, wire, ourBuf, i, row.ops[i].our + (k - row.ops[i].wire));
    } else {
      UncoveredByte(row, our, wireBuf, k);
    }
  }

  /** Every wire payload survives a decode followed by an encode, whatever the buffers held. */
  ghost predicate Lossless(row: Row)
    requires InBounds(row.ops, row.wireSize, row.ourSize)
  {
    forall wire: seq<byte>, ourBuf: seq<byte>, wireBuf: seq<byte> ::
      Fits(row, ourBuf, wire) && Fits(row, ourBuf, wireBuf) ==>
        Encode(row, Decode(row, wire, ourBuf), wireBuf)[..row.wireSize] == wire[..row.wireSize]
  }

  lemma {:induction false} LosslessIffCovered(row: Row)
    requires Safe(row.ops, row.wireSize, row.ourSize)
    ensures Lossless(row) <==> CoversWire(row.ops, 0, row.wireSize)
  {
    if CoversWire(row.ops, 0, row.wireSize) {
      forall wire: seq<byte>, ourBuf: seq<byte>, wireBuf: seq<byte> |
        Fits(row, ourBuf, wire) && Fits(row, ourBuf, wireBuf)
        ensures Encode(row, Decode(row, wire, ourBuf), wireBuf)[..row.wireSize] == wire[..row.wireSize]
      {
        forall k | 0 <= k < row.wireSize
          ensures Encode(row, Decode(row, wire, ourBuf), wireBuf)[k] == wire[k]
        {
          EncodeDecode(row, wire, ourBuf, wireBuf, k);
        }
      }
    } else {
      var k :| 0 <= k < row.wireSize && !WireCovered(row.ops, k);
      var wire := seq(row.wireSize, _ => 1 as byte);
      var wireBuf, ourBuf := seq(row.wireSize, _ => 0 as byte), seq(row.ourSize, _ => 0 as byte);
      EncodeDecode(row, wire, ourBuf, wireBuf, k);
      var back := Encode(row, Decode(row, wire, ourBuf), wireBuf);
      assert back[..row.wireSize][k] == 0 && wire[..row.wireSize][k] == 1;
      assert back[..row.wireSize] != wire[..row.wireSize];
      assert Fits(row, ourBuf, wire) && Fits(row, ourBuf, wireBuf);
      assert !Lossless(row);
    }
  }

  /** A row that fills two wire bytes from one native byte cannot tell their values apart. */
  lemma {:induction false} SharedByteLoses(row: Row, i: nat, j: nat, a: nat, b: nat)
    requires InBounds(row.ops, row.wireSize, row.ourSize) && WireDisjoint(row.ops)
    requires i < |row.ops| && j < |row.ops| && OnWire(row.ops[i], a) && OnWire(row.ops[j], b) && a != b
    requires row.ops[i].our + (a - row.ops[i].wire) == row.ops[j].our + (b - row.ops[j].wire)
    ensures !Lossless(row)
  {
    var ourBuf, zeros := seq(row.ourSize, _ => 0 as byte), seq(row.wireSize, _ => 0 as byte);
    var wire := zeros[a := 1];
    var our := Decode(row, wire, ourBuf);
    EncodedByte(row, our, zeros, i, a);
    EncodedByte(row, our, zeros, j, b);
    var back := Encode(row, our, zeros);
    assert back[..row.wireSize][a] == back[..row.wireSize][b];
    assert wire[..row.wireSize][a] == 1 && wire[..row.wireSize][b] == 0;
    assert Fits(row, ourBuf, wire) && Fits(row, ourBuf, zeros);
    assert back[..row.wireSize] != wire[..row.wireSize];
  }

  // ---------- the table ----------

  function Find(table: seq<Row>, opcode: nat): (r: Option<Row>)
    ensures r.Some? ==> r.value in table && r.value.opcode == opcode
  {
    if table == [] then
      None
    else if table[0].opcode == opcode then
      Some(table[0])
    else
      Find(table[1..], opcode)
  }

  method FindRow(table: seq<Row>, opcode: nat) returns (r: Option<Row>)
    ensures r == Find(table, opcode)
  {
    for i := 0 to |table|
      invariant Find(table[i..], opcode) == Find(table, opcode)
    {
      if table[i].opcode == opcode {
        return Some(table[i]);
      }
      assert table[i..][1..] == table[i + 1..];
    }
    return None;
  }

  predicate RowsInBounds(table: seq<Row>) {
    forall r :: r in table ==> InBounds(r.ops, r.wireSize, r.ourSize)
  }

  method EncodePayload(table: seq<Row>, opcode: nat, our: array<byte>, ourSize: nat, wire: array<byte>, wireSize: nat)
    returns (written: nat)
    requires RowsInBounds(table)
    requires our != wire && ourSize <= our.Length && wireSize <= wire.Length
    modifies wire
    ensures match Find(table, opcode)
            case Some(row) =>
              if row.wireSize <= wireSize && row.ourSize <= ourSize then
                written == row.wireSize && wire[..] == Encode(row, our[..], old(wire[..]))
              else
                written == 0 && wire[..] == old(wire[..])
            case None => written == 0 && wire[..] == old(wire[..])
  {
    var found := FindRow(table, opcode);
    if found.None? || found.value.wireSize > wireSize || found.value.ourSize > ourSize {
      return 0;
    }
    var row := found.value;
    ghost var moves := EncodeMoves(row.ops);
    for i := 0 to |row.ops|
      invariant wire[..] == CopyAll(moves[..i], our[..], old(wire[..]))
    {
      CopyAllStep(moves, our[..], old(wire[..]), i);
      CopyMemory(wire, our, Move(row.ops[i].wire, row.ops[i].our, row.ops[i].len));
    }
    assert moves[..|row.ops|] == moves;
    return row.wireSize;
  }

  method ZeroMemory(buffer: array<byte>, n: nat)
    requires n <= buffer.Length
    modifies buffer
    ensures buffer[..] == Zeroed(old(buffer[..]), n)
  {
    ghost var before := buffer[..];
    for k := 0 to n
      invariant buffer[..] == Zeroed(before, k)
    {
      ZeroedStep(before, k);
      buffer[k] := 0;
    }
  }

  lemma ZeroedStep(buffer: seq<byte>, k: nat)
    requires k < |buffer|
    ensures Zeroed(buffer, k + 1) == Zeroed(buffer, k)[k := 0]
  {}

  method DecodePayload(table: seq<Row>, opcode: nat, wire: array<byte>, wireSize: nat, our: array<byte>, ourSize: nat)
    returns (written: nat)
    requires RowsInBounds(table)
    requires our != wire && ourSize <= our.Length && wireSize <= wire.Length
    modifies our
    ensures match Find(table, opcode)
            case Some(row) =>
              if row.wireSize <= wireSize && row.ourSize <= ourSize then
                written == row.ourSize && our[..] == Decode(row, wire[..], old(our[..]))
              else
                written == 0 && our[..] == old(our[..])
            case None => written == 0 && our[..] == old(our[..])
  {
    var found := FindRow(table, opcode);
    if found.None? || found.value.wireSize > wireSize || found.value.ourSize > ourSize {
      return 0;
    }
    var row := found.value;
    ZeroMemory(our, row.ourSize);
    ghost var moves, zeroed := DecodeMoves(row.ops), our[..];
    for i := 0 to |row.ops|
      invariant our[..] == CopyAll(moves[..i], wire[..], zeroed)
    {
      CopyAllStep(moves, wire[..], zeroed, i);
      CopyMemory(our, wire, Move(row.ops[i].our, row.ops[i].wire, row.ops[i].len));
    }
    assert moves[..|row.ops|] == moves;
    return row.ourSize;
  }

  // ---------- generating the table ----------

  datatype Packet = Packet(wireSize: nat, ourSize: nat, ops: seq<Op>)

  predicate PositiveLayouts(layouts: map<string, Layout>) {
    forall name :: name in layouts ==> AllPositive(layouts[name].regions)
  }

  function Compiled(wire: Layout, our: Layout): Packet
    requires AllPositive(wire.regions) && AllPositive(our.regions)
  {
    Packet(wire.total, our.total, CopyOps(wire.total, wire.regions, our.total, our.regions))
  }

  /** The packets that get a conversion: dumped on both sides, known by an opcode, and with
      something to copy. */
  function PacketsOf(wire: map<string, Layout>, our: map<string, Layout>, names: set<string>): map<string, Packet>
    requires PositiveLayouts(wire) && PositiveLayouts(our)
  {
    map name | name in wire && name in our && name in names && Compiled(wire[name], our[name]).ops != []
      :: Compiled(wire[name], our[name])
  }

  method CompilePackets(wire: map<string, Layout>, our: map<string, Layout>, names: set<string>)
    returns (packets: map<string, Packet>)
    requires PositiveLayouts(wire) && PositiveLayouts(our)
    ensures packets == PacketsOf(wire, our, names)
  {
    packets := map[];
    var rest := wire.Keys;
    while rest != {}
      invariant rest <= wire.Keys
      invariant packets == PacketsOf(wire, our, names) - rest
      decreases rest
    {
      var name :| name in rest;
      rest := rest - {name};
      if name in our {
        var ops := ComputeCopyOps(wire[name].total, wire[name].regions, our[name].total, our[name].regions);
        if ops != [] && name in names {
          packets := packets[name := Packet(wire[name].total, our[name].total, ops)];
        }
      }
    }
    assert packets == PacketsOf(wire, our, names) - {};
  }

  /** A row holds at most 32 operations; the rest are dropped. */
  function RowOf(opcode: nat, p: Packet): Row {
    Row(opcode, p.wireSize, p.ourSize, p.ops[..Min(|p.ops|, MAX_OPS)])
  }

  function TableOf(opcodes: seq<(nat, string)>, packets: map<string, Packet>): seq<Row> {
    if opcodes == [] then
      []
    else
      var (opcode, name) := opcodes[0];
      var rest := TableOf(opcodes[1..], packets);
      if name in packets && packets[name].ops != [] then [RowOf(opcode, packets[name])] + rest else rest
  }

  method BuildTable(opcodes: seq<(nat, string)>, packets: map<string, Packet>) returns (table: seq<Row>)
    ensures table == TableOf(opcodes, packets)
  {
    table := [];
    for i := 0 to |opcodes|
      invariant table + TableOf(opcodes[i..], packets) == TableOf(opcodes, packets)
    {
      assert opcodes[i..][1..] == opcodes[i + 1..];
      var (opcode, name) := opcodes[i];
      if name in packets && packets[name].ops != [] {
        var p := packets[name];
        var count := if |p.ops| <= MAX_OPS then |p.ops| else MAX_OPS;
        table := table + [Row(opcode, p.wireSize, p.ourSize, p.ops[..count])];
      }
    }
  }

  predicate SortedOpcodes(opcodes: seq<(nat, string)>) {
    forall i, j :: 0 <= i < j < |opcodes| ==> opcodes[i].0 < opcodes[j].0
  }

  /** Looking an opcode up finds the row of its own struct, or nothing if it has no conversion. */
  lemma {:induction false} FindGenerated(opcodes: seq<(nat, string)>, packets: map<string, Packet>, i: nat)
    requires SortedOpcodes(opcodes) && i < |opcodes|
    ensures var (opcode, name) := opcodes[i];
            Find(TableOf(opcodes, packets), opcode)
            == if name in packets && packets[name].ops != [] then Some(RowOf(opcode, packets[name])) else None
    decreases |opcodes|
  {
    if i > 0 {
      FindGenerated(opcodes[1..], packets, i - 1);
    } else {
      NotFound(opcodes[1..], packets, opcodes[0].0);
    }
    var rest := TableOf(opcodes[1..], packets);
    if opcodes[0].1 in packets && packets[opcodes[0].1].ops != [] {
      assert TableOf(opcodes, packets)[1..] == rest;
    }
  }

  /** The row found carries both payload sizes, and the first 32 operations of its struct. */
  lemma {:induction false} FoundRowHoldsThirtyTwo(opcodes: seq<(nat, string)>, packets: map<string, Packet>, i: nat)
    requires SortedOpcodes(opcodes) && i < |opcodes|
    ensures var (opcode, name) := opcodes[i];
            var row := Find(TableOf(opcodes, packets), opcode);
            row.Some? ==>
              && name in packets
              && row.value.opcode == opcode
              && row.value.wireSize == packets[name].wireSize && row.value.ourSize == packets[name].ourSize
              && |row.value.ops| == (if |packets[name].ops| > 32 then 32 else |packets[name].ops|)
              && forall k :: 0 <= k < |row.value.ops| ==> row.value.ops[k] == packets[name].ops[k]
  {
    FindGenerated(opcodes, packets, i);
  }

  lemma {:induction false} NotFound(opcodes: seq<(nat, string)>, packets: map<string, Packet>, opcode: nat)
    requires forall i :: 0 <= i < |opcodes| ==> opcodes[i].0 != opcode
    ensures Find(TableOf(opcodes, packets), opcode) == None
    decreases |opcodes|
  {
    if opcodes != [] {
      NotFound(opcodes[1..], packets, opcode);
      if opcodes[0].1 in packets && packets[opcodes[0].1].ops != [] {
        assert TableOf(opcodes, packets)[1..] == TableOf(opcodes[1..], packets);
      }
    }
  }

  // ---------- from dumps to a working codec ----------

  /** Whatever the text of a dump, the parsed layouts meet the compiler's precondition. */
  lemma {:induction false} ReadLinesPositive(p: Parser, lines: seq<Line>)
    requires PositiveLayouts(p.result)
    ensures PositiveLayouts(ReadLines(p, lines).result)
    decreases |lines|
  {
    if lines != [] {
      ReadLinesPositive(ReadLine(p, lines[0]), lines[1..]);
    }
  }

  lemma {:induction false} ParsedLayoutsPositive(lines: seq<Line>)
    ensures PositiveLayouts(Parse(lines))
  {
    ReadLinesPositive(START, lines);
  }

  lemma TruncatedSafe(ops: seq<Op>, n: nat, wireSize: nat, ourSize: nat)
    requires Safe(ops, wireSize, ourSize) && n <= |ops|
    ensures Safe(ops[..n], wireSize, ourSize)
  {}

  /** Dropping operations loses wire bytes. */
  lemma {:induction false} TruncationUncovers(ops: seq<Op>, n: nat, wireSize: nat, ourSize: nat)
    requires Safe(ops, wireSize, ourSize) && n < |ops| && ops[n].len > 0
    ensures !CoversWire(ops[..n], 0, wireSize)
  {
    var k := ops[n].wire;
    forall i | 0 <= i < n ensures !OnWire(ops[..n][i], k) {
      assert Apart(ops[i].wire, ops[i].len, ops[n].wire, ops[n].len);
    }
    assert !WireCovered(ops[..n], k);
  }

  lemma {:induction false} OrderedPositive(ops: seq<Op>, wLo: nat, wHi: nat, oLo: nat, oHi: nat)
    requires Ordered(ops, wLo, wHi, oLo, oHi)
    ensures forall i :: 0 <= i < |ops| ==> ops[i].len > 0
    decreases |ops|
  {
    if ops != [] {
      OrderedPositive(ops[1..], ops[0].wire + ops[0].len, wHi, ops[0].our + ops[0].len, oHi);
      forall i | 0 < i < |ops| ensures ops[i].len > 0 {
        assert ops[i] == ops[1..][i - 1];
      }
    }
  }

  /** The condition for a compiled row to lose no wire byte. */
  predicate Preserving(wire: Layout, our: Layout)
    requires AllPositive(wire.regions) && AllPositive(our.regions)
  {
    && !WideTail(wire.regions, our.total, our.regions)
    && |Compiled(wire, our).ops| <= 32
    && ReachesEveryByte(wire.regions, our.total, our.regions)
  }

  /** What a generated row is worth: it stays inside its buffers iff the prefix of a wide tail fits,
      touches no byte twice iff there is no wide tail, and is lossless iff it is preserving. */
  ghost predicate RowCorrect(row: Row, wire: Layout, our: Layout)
    requires AllPositive(wire.regions) && AllPositive(our.regions)
  {
    && (InBounds(row.ops, row.wireSize, row.ourSize) <==> PrefixFits(wire.regions, our.total, our.regions))
    && (Safe(row.ops, row.wireSize, row.ourSize) <==> !WideTail(wire.regions, our.total, our.regions))
    && (InBounds(row.ops, row.wireSize, row.ourSize) ==> (Lossless(row) <==> Preserving(wire, our)))
  }

  lemma SafeRow(opcode: nat, wire: Layout, our: Layout)
    requires AllPositive(wire.regions) && AllPositive(our.regions)
    requires WellFormed(wire.regions, wire.total) && WellFormed(our.regions, our.total)
    requires !WideTail(wire.regions, our.total, our.regions) && Compiled(wire, our).ops != []
    ensures var row := RowOf(opcode, Compiled(wire, our));
            Safe(row.ops, row.wireSize, row.ourSize) && (Lossless(row) <==> Preserving(wire, our))
  {
    var p := Compiled(wire, our);
    var row := RowOf(opcode, p);
    SafeIffNotWideTail(wire.total, wire.regions, our.total, our.regions);
    TruncatedSafe(p.ops, |row.ops|, wire.total, our.total);
    LosslessIffCovered(row);
    if |p.ops| <= MAX_OPS {
      assert row.ops == p.ops;
      CoversIffReachesEveryByte(wire.total, wire.regions, our.total, our.regions);
    } else {
      var fields := Collapse(wire.regions, our.total, our.regions);
      PairedGeometry(wire.total, wire.regions, our.total, our.regions);
      OrderedPositive(p.ops, wire.regions[0].off, wire.total, fields[0].off, our.total);
      TruncationUncovers(p.ops, MAX_OPS, wire.total, our.total);
    }
  }

  /** A row compiled across a wide tail touches a byte twice, and where it can run at all it loses
      wire bytes. */
  lemma {:induction false} WideTailRow(opcode: nat, wire: Layout, our: Layout)
    requires AllPositive(wire.regions) && AllPositive(our.regions)
    requires WellFormed(wire.regions, wire.total) && WellFormed(our.regions, our.total)
    requires WideTail(wire.regions, our.total, our.regions)
    ensures var row := RowOf(opcode, Compiled(wire, our));
            && !Disjoint(row.ops)
            && (InBounds(row.ops, row.wireSize, row.ourSize) <==> PrefixFits(wire.regions, our.total, our.regions))
            && (InBounds(row.ops, row.wireSize, row.ourSize) ==> !Lossless(row))
  {
    var ops := Compiled(wire, our).ops;
    var row := RowOf(opcode, Compiled(wire, our));
    WideTailSharesByte(wire.total, wire.regions, our.total, our.regions);
    InBoundsIffPrefixFits(wire.total, wire.regions, our.total, our.regions);
    var w, size := wire.regions[0], Collapse(wire.regions, our.total, our.regions)[0].size;
    assert row.ops[0] == ops[0] && row.ops[1] == ops[1];
    assert !Apart(row.ops[0].our, row.ops[0].len, row.ops[1].our, row.ops[1].len);
    if InBounds(row.ops, row.wireSize, row.ourSize) {
      assert WireDisjoint(row.ops);
      SharedByteLoses(row, 0, 1, w.off + size - 2, w.off + w.size - 2);
    }
  }

  /** Every row compiled from two well-formed layouts, a truncated one included. */
  lemma {:induction false} CompiledRow(opcode: nat, wire: Layout, our: Layout)
    requires AllPositive(wire.regions) && AllPositive(our.regions)
    requires WellFormed(wire.regions, wire.total) && WellFormed(our.regions, our.total)
    requires Compiled(wire, our).ops != []
    ensures RowCorrect(RowOf(opcode, Compiled(wire, our)), wire, our)
  {
    if WideTail(wire.regions, our.total, our.regions) {
      WideTailRow(opcode, wire, our);
    } else {
      SafeRow(opcode, wire, our);
    }
  }

  /** The table entry generated from the text of two dumps. */
  function GeneratedRow(wireDump: seq<Line>, ourDump: seq<Line>, opcodes: seq<(nat, string)>, opcode: nat): Option<Row>
    requires PositiveLayouts(Parse(wireDump)) && PositiveLayouts(Parse(ourDump))
  {
    var names := set i | 0 <= i < |opcodes| :: opcodes[i].1;
    Find(TableOf(opcodes, PacketsOf(Parse(wireDump), Parse(ourDump), names)), opcode)
  }

  /** For any two dumps an opcode has a row iff both parses know its struct and there is something
      to copy; the row is the one compiled from the two parsed layouts. */
  lemma {:induction false} GeneratedRowIff(wireDump: seq<Line>, ourDump: seq<Line>, opcodes: seq<(nat, string)>, i: nat)
    requires SortedOpcodes(opcodes) && i < |opcodes|
    ensures PositiveLayouts(Parse(wireDump)) && PositiveLayouts(Parse(ourDump))
    ensures var (opcode, name) := opcodes[i];
            var wires, ours := Parse(wireDump), Parse(ourDump);
            GeneratedRow(wireDump, ourDump, opcodes, opcode)
            == if name in wires && name in ours && Compiled(wires[name], ours[name]).ops != []
               then Some(RowOf(opcode, Compiled(wires[name], ours[name]))) else None
  {
    ParsedLayoutsPositive(wireDump);
    ParsedLayoutsPositive(ourDump);
    var names := set k | 0 <= k < |opcodes| :: opcodes[k].1;
    assert opcodes[i].1 in names;
    FindGenerated(opcodes, PacketsOf(Parse(wireDump), Parse(ourDump), names), i);
  }

  lemma FirstOpCopies(w: Region, o: Region)
    requires w.size > 0 && o.size > 0
    ensures PairOps(w, o) != [] && PairOps(w, o)[0].len > 0
  {
    var n := ElementSizes(w.size, o.size);
    if w.size != o.size {
      assert SplitOps(w, o)[0].len == Min(w.size / n, o.size / n);
    }
  }

  /** A layout cut off before its size is stored with size 0: whatever is paired with it leaves a
      payload at once, and only two payloads of size 0 can be copied as a whole. */
  lemma {:induction false} CutOffRow(opcode: nat, wire: Layout, our: Layout)
    requires AllPositive(wire.regions) && AllPositive(our.regions)
    requires (wire.total == 0 || our.total == 0) && Compiled(wire, our).ops != []
    ensures var row := RowOf(opcode, Compiled(wire, our));
            InBounds(row.ops, row.wireSize, row.ourSize)
            <==> wire.total == our.total && !PairsRegions(wire.regions, our.total, our.regions)
  {
    var ops := Compiled(wire, our).ops;
    var row := RowOf(opcode, Compiled(wire, our));
    assert row.ops[0] == ops[0];
    if PairsRegions(wire.regions, our.total, our.regions) {
      var fields := Collapse(wire.regions, our.total, our.regions);
      assert wire.regions != [];
      if TailRule(wire.regions, fields) {
        assert ops[0] == FixedOps(wire.regions[0], fields[0])[0];
      } else {
        FirstOpCopies(wire.regions[0], fields[0]);
        assert ops[0] == PairOps(wire.regions[0], fields[0])[0];
      }
      assert ops[0].len > 0;
    } else {
      assert ops == [Op(0, 0, wire.total)];
    }
  }

  /** End to end, whatever else the two dumps contain: the row of a packet is compiled from exactly
      the blocks that its last struct line opens on either side.  What it is worth can be read off
      them: with ascending offsets it is as good as `RowCorrect` says, and with a block cut off
      before its size it leaves its buffers unless two payloads of size 0 are copied whole. */
  lemma {:induction false} GeneratedRowCorrect(
    wireDump: seq<Line>, ourDump: seq<Line>, opcodes: seq<(nat, string)>, i: nat, w: nat, o: nat)
    requires SortedOpcodes(opcodes) && i < |opcodes|
    requires StoredLast(wireDump, w, opcodes[i].1) && StoredLast(ourDump, o, opcodes[i].1)
    ensures PositiveLayouts(Parse(wireDump)) && PositiveLayouts(Parse(ourDump))
    ensures var wire, our := BlockAt(wireDump, w), BlockAt(ourDump, o);
            var row := GeneratedRow(wireDump, ourDump, opcodes, opcodes[i].0);
            && (row.Some? <==> Compiled(wire, our).ops != [])
            && (row.Some? ==> row.value == RowOf(opcodes[i].0, Compiled(wire, our)))
            && (row.Some? && AscendsAt(wireDump, w) && AscendsAt(ourDump, o) ==> RowCorrect(row.value, wire, our))
            && (row.Some? && (wire.total == 0 || our.total == 0) ==>
                  (InBounds(row.value.ops, row.value.wireSize, row.value.ourSize)
                   <==> wire.total == our.total && !PairsRegions(wire.regions, our.total, our.regions)))
  {
    var (opcode, name) := opcodes[i];
    GeneratedRowIff(wireDump, ourDump, opcodes, i);
    LastBlockAt(wireDump, w, name);
    LastBlockAt(ourDump, o, name);
    var wire, our := BlockAt(wireDump, w), BlockAt(ourDump, o);
    if Compiled(wire, our).ops != [] {
      if AscendsAt(wireDump, w) && AscendsAt(ourDump, o) {
        LayoutsWellFormed(wireDump, w, name);
        LayoutsWellFormed(ourDump, o, name);
        CompiledRow(opcode, wire, our);
      }
      if wire.total == 0 || our.total == 0 {
        CutOffRow(opcode, wire, our);
      }
    }
  }

  // ---------- layouts that do not travel ----------

  lemma TwoRegionLayout(fixed: nat, array_: nat) returns (l: Layout)
    requires fixed > 0 && array_ > 0
    ensures l == Layout(fixed + array_, [Region(0, fixed), Region(fixed, array_)])
    ensures AllPositive(l.regions) && WellFormed(l.regions, l.total)
  {
    l := Layout(fixed + array_, [Region(0, fixed), Region(fixed, array_)]);
    assert l.regions[1..] == [Region(fixed, array_)] && l.regions[1..][1..] == [];
    assert Chain(l.regions[1..][1..], fixed + array_, fixed + array_);
    assert Chain(l.regions[1..], fixed, fixed + array_);
  }

  /** A fixed part of 8 bytes on the wire and 6 on our side: the row runs, and loses bytes. */
  lemma {:induction false} WideTailExample(opcode: nat) returns (wire: Layout, our: Layout)
    ensures wire == Layout(12, [Region(0, 8), Region(8, 4)]) && our == Layout(10, [Region(0, 6), Region(6, 4)])
    ensures AllPositive(wire.regions) && AllPositive(our.regions)
    ensures var row := RowOf(opcode, Compiled(wire, our));
            InBounds(row.ops, row.wireSize, row.ourSize) && !Disjoint(row.ops) && !Lossless(row)
  {
    wire := TwoRegionLayout(8, 4);
    our := TwoRegionLayout(6, 4);
    assert WideTail(wire.regions, our.total, our.regions);
    WideTailRow(opcode, wire, our);
  }

  /** A fixed part of 20 bytes on the wire and 6 on our side: the prefix leaves our 10 bytes. */
  lemma {:induction false} OutOfBoundsExample(opcode: nat) returns (wire: Layout, our: Layout)
    ensures wire == Layout(24, [Region(0, 20), Region(20, 4)]) && our == Layout(10, [Region(0, 6), Region(6, 4)])
    ensures AllPositive(wire.regions) && AllPositive(our.regions)
    ensures var row := RowOf(opcode, Compiled(wire, our));
            !InBounds(row.ops, row.wireSize, row.ourSize)
  {
    wire := TwoRegionLayout(20, 4);
    our := TwoRegionLayout(6, 4);
    assert WideTail(wire.regions, our.total, our.regions);
    WideTailRow(opcode, wire, our);
  }

  lemma {:induction false} StridedLength(wire: nat, our: nat, ws: nat, os: nat, len: nat, n: nat)
    ensures |Strided(wire, our, ws, os, len, n)| == n
    decreases n
  {
    if n > 0 {
      StridedLength(wire + ws, our + os, ws, os, len, n - 1);
    }
  }

  lemma OneRegionLayout(size: nat) returns (l: Layout)
    requires size > 0
    ensures l == Layout(size, [Region(0, size)])
    ensures AllPositive(l.regions) && WellFormed(l.regions, l.total)
  {
    l := Layout(size, [Region(0, size)]);
    assert l.regions[1..] == [];
    assert Chain(l.regions[1..], size, size);
  }

  lemma OneRegionOps(wire: Layout, our: Layout)
    requires |wire.regions| == 1 && |our.regions| == 1 && AllPositive(wire.regions) && AllPositive(our.regions)
    requires wire.regions[0].size != our.regions[0].size
    ensures |Compiled(wire, our).ops| == Gcd(wire.regions[0].size, our.regions[0].size)
  {
    var w, o := wire.regions[0], our.regions[0];
    var n := Gcd(w.size, o.size);
    StridedLength(w.off, o.off, w.size / n, o.size / n, Min(w.size / n, o.size / n), n);
    assert PairwiseOps(wire.regions[1..], our.regions[1..]) == [];
    EmptyRight(SplitOps(w, o));
  }

  /** 33 elements of one byte on the wire and two on our side: safe, every byte is reached by some
      operation, and the last one does not fit in the row. */
  lemma {:induction false} TruncatedExample(opcode: nat) returns (wire: Layout, our: Layout)
    ensures wire == Layout(33, [Region(0, 33)]) && our == Layout(66, [Region(0, 66)])
    ensures AllPositive(wire.regions) && AllPositive(our.regions)
    ensures ReachesEveryByte(wire.regions, our.total, our.regions) && |Compiled(wire, our).ops| == 33
    ensures var row := RowOf(opcode, Compiled(wire, our));
            |row.ops| == 32 && Safe(row.ops, row.wireSize, row.ourSize) && !Lossless(row)
  {
    wire := OneRegionLayout(33);
    our := OneRegionLayout(66);
    assert Gcd(33, 66) == Gcd(66, 33) == Gcd(33, 0) == 33;
    OneRegionOps(wire, our);
    CompiledRow(opcode, wire, our);
  }

  /** A struct of 12 bytes with a nested member, against 8 bytes on the wire: our side is read with
      size 0, a row is compiled all the same, and it leaves our payload. */
  lemma {:induction false} CutOffExample(opcode: nat)
    ensures var t := StructRecord("sT", 0, [Plain(4), Nested(8, "sD"), Plain(8)], 12);
            var stored := Parse(PrintAll([t]));
            && "sT" in stored && stored["sT"] == Layout(0, [Region(0, 4)])
            && var row := RowOf(opcode, Compiled(Layout(8, [Region(0, 8)]), stored["sT"]));
               row.ops != [] && !InBounds(row.ops, row.wireSize, row.ourSize)
  {
    var t := StructRecord("sT", 0, [Plain(4), Nested(8, "sD"), Plain(8)], 12);
    CutOffIsStored(t);
    var wire, our := Layout(8, [Region(0, 8)]), Layout(0, [Region(0, 4)]);
    FirstOpCopies(wire.regions[0], our.regions[0]);
    var ops := Compiled(wire, our).ops;
    assert ops == PairOps(wire.regions[0], our.regions[0]) + PairwiseOps(wire.regions[1..], our.regions[1..]);
    CutOffRow(opcode, wire, our);
  }

  lemma CutOffIsStored(t: Record)
    requires t == StructRecord("sT", 0, [Plain(4), Nested(8, "sD"), Plain(8)], 12)
    ensures var stored := Parse(PrintAll([t]));
            "sT" in stored && stored["sT"] == Layout(0, [Region(0, 4)])
  {
    assert Key("sD") == "sD" && Key("sT") == "sT" && "sD"[1] != "sT"[1];
    assert NeverNamed(t.members, "sT") && t.members[1].Nested?;
    MentionedLastIsStored([t], 0, "sT");
    assert t.members[1..][0].Nested?;
    assert PlainPrefix(t.members) == [Plain(4)];
    assert [0] + Offsets([Plain(4)]) == [0, 4];
    assert [0, 4][1..] == [4] && [4][1..] == [];
    assert RegionsOf([4], 0) == RegionsOf([], 0) == [];
    assert RegionsOf([0, 4], 0) == [Region(0, 4)];
  }
}
